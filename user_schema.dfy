/** The user-facing payload schemas (src/lib/types/user.ts). */
module UserSchema {
  import opened Wrappers
  import opened Enums
  import opened Issues

  datatype RawEnroll = RawEnroll(moduleId: string, variantType: string)

  datatype Enroll = Enroll(moduleId: string, variantType: VariantType)

  /** A profile update as the client sends it. `roleLevel` stands for a key the schema does not
      declare: a client can add it to the object, and parsing drops it. */
  datatype RawProfile = RawProfile(
    email: string, image: Option<string>, name: string, bio: Option<string>, roleLevel: Option<int>)

  datatype RawPasswordChange = RawPasswordChange(oldPass: string, newPass: string, confirmPass: string)

  datatype RawRoleUpdate = RawRoleUpdate(userId: string, roleLevel: real)

  datatype RoleUpdate = RoleUpdate(userId: string, roleLevel: int)

  const EmailRequired := "Email is required"
  const NameRequired := "Please add a name."
  const OldPassRequired := "Old password is required"
  const NewPassTooShort := "New password must be at least 8 characters long"
  const PasswordsDiffer := "Passwords do not match"

  /** `EnrollUserSchema`: a module id and a variant type. */
  function ParseEnroll(d: RawEnroll): (r: Result<Enroll>)
    ensures r.Ok? <==> d.moduleId != "" && exists t :: VariantTypeName(t) == d.variantType
    ensures r.Ok? ==> r.data.moduleId == d.moduleId && VariantTypeName(r.data.variantType) == d.variantType
  {
    if d.moduleId == "" then Err(TooSmallString)
    else match ParseVariantType(d.variantType)
      case None => Err(InvalidVariantType)
      case Some(t) => Ok(Enroll(d.moduleId, t))
  }

  /** `UpdateUserSchema`: a well-formed email, an image that is absent or a URL, a non-empty
      name; the bio may be absent. The accepted payload is the submitted one without the keys
      the schema does not declare. */
  function ParseProfile(d: RawProfile, isUrl: string -> bool, isEmail: string -> bool): (r: Result<RawProfile>)
    ensures r.Ok? <==> isEmail(d.email) && (d.image.Some? ==> isUrl(d.image.value)) && d.name != ""
    ensures r.Ok? ==> r.data == d.(roleLevel := None)
    ensures !isEmail(d.email) ==> r == Err(EmailRequired)
    ensures isEmail(d.email) && (d.image.Some? ==> isUrl(d.image.value)) && d.name == "" ==> r == Err(NameRequired)
  {
    if !isEmail(d.email) then Err(EmailRequired)
    else if d.image.Some? && !isUrl(d.image.value) then Err(InvalidUrl)
    else if d.name == "" then Err(NameRequired)
    else Ok(d.(roleLevel := None))
  }

  /** The length JavaScript reports for a string: one UTF-16 code unit per character of the
      Basic Multilingual Plane, two (a surrogate pair) per character above it. */
  function Utf16Length(s: string): (n: nat)
    ensures |s| <= n <= 2 * |s|
    ensures n == |s| <==> forall i :: 0 <= i < |s| ==> s[i] as int < 0x10000
  {
    if s == [] then 0 else (if s[0] as int >= 0x10000 then 2 else 1) + Utf16Length(s[1..])
  }

  /** `UpdateUserPasswordSchema`: the old password is given, the new one is at least eight
      UTF-16 code units long, and the confirmation repeats it exactly. */
  function ParsePasswordChange(d: RawPasswordChange): (r: Result<RawPasswordChange>)
    ensures r.Ok? <==> d.oldPass != "" && Utf16Length(d.newPass) >= 8 && d.newPass == d.confirmPass
    ensures r.Ok? ==> r.data == d
    ensures d.oldPass == "" ==> r == Err(OldPassRequired)
    ensures d.oldPass != "" && Utf16Length(d.newPass) < 8 ==> r == Err(NewPassTooShort)
    ensures r == Err(PasswordsDiffer) <==> d.oldPass != "" && Utf16Length(d.newPass) >= 8 && d.newPass != d.confirmPass
  {
    if d.oldPass == "" then Err(OldPassRequired)
    else if Utf16Length(d.newPass) < 8 then Err(NewPassTooShort)
    else if d.newPass != d.confirmPass then Err(PasswordsDiffer)
    else Ok(d)
  }

  /** Four characters outside the Basic Multilingual Plane make a long enough new password,
      since each counts as two code units. */
  lemma AstralPasswordAccepted()
    ensures var p := "\U{1F600}\U{1F600}\U{1F600}\U{1F600}";
      |p| == 4 && ParsePasswordChange(RawPasswordChange("old", p, p)).Ok?
  {
    var p := "\U{1F600}\U{1F600}\U{1F600}\U{1F600}";
    assert Utf16Length(p[3..]) == 2;
    assert Utf16Length(p[2..]) == 4;
    assert Utf16Length(p[1..]) == 6;
  }

  /** `UpdateUserRoleSchema`: a target id and a (safe) integer level strictly between 0 and 5. */
  function ParseRoleUpdate(d: RawRoleUpdate): (r: Result<RoleUpdate>)
    ensures r.Ok? <==> d.userId != "" && IsInteger(d.roleLevel) && 0.0 < d.roleLevel < 5.0
    ensures r.Ok? ==> r.data.userId == d.userId && r.data.roleLevel as real == d.roleLevel && 1 <= r.data.roleLevel <= 4
    ensures r.Err? ==> r.error in {TooSmallString, NotAnInteger, UnsafeIntTooBig, UnsafeIntTooSmall, TooSmallInt, TooBigInt}
    ensures d.userId != "" && IsInteger(d.roleLevel) && SafeIntegerIssue(d.roleLevel).Some? ==>
              r == Err(SafeIntegerIssue(d.roleLevel).value)
  {
    if d.userId == "" then Err(TooSmallString)
    else if !IsInteger(d.roleLevel) then Err(NotAnInteger)
    else if SafeIntegerIssue(d.roleLevel).Some? then Err(SafeIntegerIssue(d.roleLevel).value)
    else if d.roleLevel <= 0.0 then Err(TooSmallInt)
    else if d.roleLevel >= 5.0 then Err(TooBigInt)
    else Ok(RoleUpdate(d.userId, d.roleLevel.Floor))
  }
}
