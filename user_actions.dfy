/** The user server actions (src/lib/actions/user.ts): enrolment, profile update, role
    administration, deletions and the one-time owner bootstrap. The session user is the
    `principal` input; ids the database would generate and the configured master password are
    inputs too. */
module UserActions {
  import opened Wrappers
  import opened Enums
  import opened Session
  import opened CourseSchema
  import opened UserSchema
  import opened Db

  const Unauthorised := "Unauthorised!"
  const ModuleTypeNotFound := "Module/type not found"
  const AlreadyEnrolled := "Already enrolled"
  const NotLoggedIn := "Not logged in"
  const EmailTaken := "Email is taken."
  const NotAuthorised := "Not authorised"
  const OwnRole := "Cannot set your own role using this method."
  const RoleTooHigh := "Cannot set someone to greater than or equal to your role level."
  const TargetNotFound := "Target user not found."
  const TargetTooHigh := "Cannot update role of someone at the same or higher level."
  const InvalidId := "Invalid ID type"
  const OwnAccount := "Do not use this method to delete your own account"
  const UserNotFound := "User not found"
  const BadMasterPassword := "Bad master password"
  const NotInDatabase := "User doesn't exist in database"
  const OwnerExists := "Owner already exists"

  // ---------------------------------------------------------------- enrolment

  /** The first variant of type `t`: what the query filtered to that type returns first. */
  function VariantOfType(vs: seq<Variant>, t: VariantType): (r: Option<Variant>)
    ensures r.Some? <==> exists i :: 0 <= i < |vs| && vs[i].variantType == t
    ensures r.Some? ==> r.value in vs && r.value.variantType == t
    decreases |vs|
  {
    if vs == [] then None
    else if vs[0].variantType == t then Some(vs[0])
    else
      var rest := VariantOfType(vs[1..], t);
      assert forall i :: 1 <= i < |vs| ==> vs[i] == vs[1..][i - 1];
      rest
  }

  predicate EnrolledIn(enrollments: map<string, EnrollmentRow>, studentId: string, moduleId: string)
  {
    exists e :: e in enrollments && enrollments[e].studentId == studentId && enrollments[e].moduleId == moduleId
  }

  /** No student holds two enrollments in one module. */
  predicate OneEnrollmentPerModule(enrollments: map<string, EnrollmentRow>)
  {
    forall e1, e2 :: e1 in enrollments && e2 in enrollments && e1 != e2 ==>
      enrollments[e1].studentId != enrollments[e2].studentId || enrollments[e1].moduleId != enrollments[e2].moduleId
  }

  /** `enrollUser` for the payload's module and variant type. The enrollment is created free
      of any payment step, at the price of the chosen variant. */
  method EnrollUser(db: Store, principal: Option<SessionUser>, data: Enroll, freshId: string) returns (r: Result<()>)
    requires freshId !in db.enrollments
    modifies db`enrollments
    ensures if principal.None? then r == Err(Unauthorised) && unchanged(db)
      else if data.moduleId !in old(db.modules) || VariantOfType(old(db.modules)[data.moduleId].variants, data.variantType).None? then
        r == Err(ModuleTypeNotFound) && unchanged(db)
      else if EnrolledIn(old(db.enrollments), principal.value.id, data.moduleId) then r == Err(AlreadyEnrolled) && unchanged(db)
      else if principal.value.id !in db.users then r == Err(MissingRecord) && unchanged(db)
      else
        var v := VariantOfType(old(db.modules)[data.moduleId].variants, data.variantType).value;
        r == Ok(()) &&
        db.enrollments == old(db.enrollments)[freshId := EnrollmentRow(principal.value.id, data.moduleId, v.variantType, v.price)]
  {
    if principal.None? {
      return Err(Unauthorised);
    }
    var user := principal.value;
    if data.moduleId !in db.modules {
      return Err(ModuleTypeNotFound);
    }
    var variant := VariantOfType(db.modules[data.moduleId].variants, data.variantType);
    if variant.None? {
      return Err(ModuleTypeNotFound);
    }
    if EnrolledIn(db.enrollments, user.id, data.moduleId) {
      return Err(AlreadyEnrolled);
    }
    if user.id !in db.users {
      return Err(MissingRecord);
    }
    db.enrollments := db.enrollments[freshId := EnrollmentRow(user.id, data.moduleId, variant.value.variantType, variant.value.price)];
    return Ok(());
  }

  /** The repeat check keeps each student to one enrollment per module. */
  lemma EnrollKeepsOneEnrollmentPerModule(enrollments: map<string, EnrollmentRow>, freshId: string, row: EnrollmentRow)
    requires OneEnrollmentPerModule(enrollments)
    requires freshId !in enrollments && !EnrolledIn(enrollments, row.studentId, row.moduleId)
    ensures OneEnrollmentPerModule(enrollments[freshId := row])
    ensures EnrolledIn(enrollments[freshId := row], row.studentId, row.moduleId)
  {
    var after := enrollments[freshId := row];
    assert after[freshId] == row;
    forall e1, e2 | e1 in after && e2 in after && e1 != e2
      ensures after[e1].studentId != after[e2].studentId || after[e1].moduleId != after[e2].moduleId
    {
      if e1 == freshId {
        assert e2 in enrollments;
      } else if e2 == freshId {
        assert e1 in enrollments;
      }
    }
  }

  // ---------------------------------------------------------------- profile

  predicate EmailTakenBy(users: map<string, UserRow>, email: string, id: string)
  {
    exists u :: u in users && users[u].email == email && u != id
  }

  predicate UniqueEmails(users: map<string, UserRow>)
  {
    forall u, v :: u in users && v in users && u != v ==> users[u].email != users[v].email
  }

  /** The user table after user `id` writes the object `d` as sent: the profile fields, and
      the role level too when the client added one. */
  function WithProfile(users: map<string, UserRow>, id: string, d: RawProfile): map<string, UserRow>
    requires id in users
  {
    var row := users[id];
    users[id := row.(email := d.email, image := d.image, name := d.name, bio := d.bio,
                     roleLevel := if d.roleLevel.Some? then d.roleLevel.value else row.roleLevel)]
  }

  /** `updateUser`: the signed-in user rewrites their own profile. The email check compares the
      submitted email, and the write sends the submitted object, not the parsed payload, so a
      key the schema does not declare reaches the row. */
  method UpdateUser(db: Store, principal: Option<SessionUser>, d: RawProfile, isUrl: string -> bool,
                    isEmail: string -> bool) returns (r: Result<()>)
    modifies db`users
    ensures if principal.None? then r == Err(NotLoggedIn) && unchanged(db)
      else if ParseProfile(d, isUrl, isEmail).Err? then r == Err(ParseProfile(d, isUrl, isEmail).error) && unchanged(db)
      else if EmailTakenBy(old(db.users), d.email, principal.value.id) then r == Err(EmailTaken) && unchanged(db)
      else if principal.value.id !in old(db.users) then r == Err(MissingRecord) && unchanged(db)
      else r == Ok(()) && db.users == WithProfile(old(db.users), principal.value.id, d)
  {
    if principal.None? {
      return Err(NotLoggedIn);
    }
    var staleUser := principal.value;
    var parsed := ParseProfile(d, isUrl, isEmail);
    if parsed.Err? {
      return Err(parsed.error);
    }
    if EmailTakenBy(db.users, d.email, staleUser.id) {
      return Err(EmailTaken);
    }
    if staleUser.id !in db.users {
      return Err(MissingRecord);
    }
    db.users := WithProfile(db.users, staleUser.id, d);
    return Ok(());
  }

  /** As written, any signed-in user whose profile passes the schema becomes owner by adding
      the owner level to the object: the schema drops the key, the write does not. */
  lemma ProfileSetsRole(users: map<string, UserRow>, id: string, d: RawProfile,
                        isUrl: string -> bool, isEmail: string -> bool)
    requires id in users && ParseProfile(d, isUrl, isEmail).Ok? && d.roleLevel == Some(Owner)
    ensures ParseProfile(d, isUrl, isEmail).data.roleLevel.None?
    ensures WithProfile(users, id, d)[id].roleLevel == Owner
    ensures id in Owners(WithProfile(users, id, d))
  {
  }

  /** The evidently intended write: the parsed payload only. It changes the caller's profile
      fields and no one's role. */
  function WithParsedProfile(users: map<string, UserRow>, id: string, d: RawProfile,
                             isUrl: string -> bool, isEmail: string -> bool): (r: map<string, UserRow>)
    requires id in users && ParseProfile(d, isUrl, isEmail).Ok?
    ensures r.Keys == users.Keys
    ensures forall u :: u in users ==> r[u].roleLevel == users[u].roleLevel
    ensures forall u :: u in users && u != id ==> r[u] == users[u]
    ensures r[id].email == d.email && r[id].image == d.image && r[id].name == d.name && r[id].bio == d.bio
    ensures Owners(r) == Owners(users)
  {
    var after := WithProfile(users, id, ParseProfile(d, isUrl, isEmail).data);
    assert forall u :: u in Owners(after) <==> u in Owners(users);
    after
  }

  /** The email check keeps emails unique, and the update changes only the caller's row. */
  lemma ProfileKeepsEmailsUnique(users: map<string, UserRow>, id: string, d: RawProfile)
    requires UniqueEmails(users) && id in users && !EmailTakenBy(users, d.email, id)
    ensures UniqueEmails(WithProfile(users, id, d))
    ensures WithProfile(users, id, d).Keys == users.Keys
    ensures forall u :: u in users && u != id ==> WithProfile(users, id, d)[u] == users[u]
  {
    var after := WithProfile(users, id, d);
    forall u, v | u in after && v in after && u != v
      ensures after[u].email != after[v].email
    {
      if u == id {
        assert users[v].email != d.email;
      } else if v == id {
        assert users[u].email != d.email;
      }
    }
  }

  // ---------------------------------------------------------------- roles

  /** The set of users at the owner level. */
  function Owners(users: map<string, UserRow>): (r: set<string>)
    ensures forall u :: u in r <==> u in users && users[u].roleLevel == Owner
  {
    set u | u in users && users[u].roleLevel == Owner
  }

  method UpdateUserRole(db: Store, principal: Option<SessionUser>, d: RawRoleUpdate) returns (r: Result<()>)
    modifies db`users
    ensures var gate := ReadPrivilegedUser(principal, Admin);
            var parsed := ParseRoleUpdate(d);
      if gate.None? then r == Err(NotAuthorised) && unchanged(db)
      else if parsed.Err? then r == Err(parsed.error) && unchanged(db)
      else if d.userId == gate.value.id then r == Err(OwnRole) && unchanged(db)
      else if parsed.data.roleLevel >= gate.value.roleLevel then r == Err(RoleTooHigh) && unchanged(db)
      else if d.userId !in old(db.users) then r == Err(TargetNotFound) && unchanged(db)
      else if old(db.users)[d.userId].roleLevel >= gate.value.roleLevel then r == Err(TargetTooHigh) && unchanged(db)
      else
        && r == Ok(())
        && db.users == old(db.users)[d.userId := old(db.users)[d.userId].(roleLevel := parsed.data.roleLevel)]
        && db.users[d.userId].roleLevel < gate.value.roleLevel
  {
    var user := ReadPrivilegedUser(principal, Admin);
    if user.None? {
      return Err(NotAuthorised);
    }
    var parsed := ParseRoleUpdate(d);
    if parsed.Err? {
      return Err(parsed.error);
    }
    var upd := parsed.data;
    if upd.userId == user.value.id {
      return Err(OwnRole);
    }
    if upd.roleLevel >= user.value.roleLevel {
      return Err(RoleTooHigh);
    }
    if upd.userId !in db.users {
      return Err(TargetNotFound);
    }
    if db.users[upd.userId].roleLevel >= user.value.roleLevel {
      return Err(TargetTooHigh);
    }
    db.users := db.users[upd.userId := db.users[upd.userId].(roleLevel := upd.roleLevel)];
    return Ok(());
  }

  /** A role change that passes the checks, by a caller at most at the owner level, neither
      creates nor removes an owner, and leaves the caller's own row as it was. */
  lemma RoleChangeKeepsOwners(users: map<string, UserRow>, caller: SessionUser, target: string, level: int)
    requires caller.roleLevel <= Owner
    requires target != caller.id && level < caller.roleLevel
    requires target in users && users[target].roleLevel < caller.roleLevel
    ensures Owners(users[target := users[target].(roleLevel := level)]) == Owners(users)
    ensures caller.id in users ==> users[target := users[target].(roleLevel := level)][caller.id] == users[caller.id]
  {
    var after := users[target := users[target].(roleLevel := level)];
    forall u ensures u in Owners(after) <==> u in Owners(users) {
      if u == target {
        assert after[u].roleLevel == level;
      }
    }
  }

  // ---------------------------------------------------------------- deletions

  method DeleteUserEnrollment(db: Store, principal: Option<SessionUser>, enrollmentId: string) returns (r: Result<()>)
    modifies db`enrollments
    ensures if enrollmentId == "" then r == Err(InvalidId) && unchanged(db)
      else if ReadPrivilegedUser(principal, Admin).None? then r == Err(NotAuthorised) && unchanged(db)
      else r == Ok(()) && db.enrollments == old(db.enrollments) - {enrollmentId}
  {
    if enrollmentId == "" {
      return Err(InvalidId);
    }
    var user := ReadPrivilegedUser(principal, Admin);
    if user.None? {
      return Err(NotAuthorised);
    }
    db.enrollments := db.enrollments - {enrollmentId};
    return Ok(());
  }

  /** The module table once user `id` is removed from every teacher relation. */
  function WithoutTeacher(modules: map<string, ModuleRow>, id: string): (r: map<string, ModuleRow>)
    ensures r.Keys == modules.Keys
    ensures forall m :: m in r ==> r[m] == modules[m].(teachers := modules[m].teachers - {id})
  {
    map m | m in modules :: modules[m].(teachers := modules[m].teachers - {id})
  }

  /** The enrollments that do not belong to student `id`. */
  function WithoutStudent(enrollments: map<string, EnrollmentRow>, id: string): (r: map<string, EnrollmentRow>)
    ensures forall e :: e in r <==> e in enrollments && enrollments[e].studentId != id
    ensures forall e :: e in r ==> r[e] == enrollments[e]
  {
    map e | e in enrollments && enrollments[e].studentId != id :: enrollments[e]
  }

  /** `deleteUser`: an administrator deletes a user strictly below their own level, never
      themselves. The user's teacher links and enrollments go with the row. */
  method DeleteUser(db: Store, principal: Option<SessionUser>, targetId: string) returns (r: Result<()>)
    modifies db`users, db`modules, db`enrollments
    ensures var gate := ReadPrivilegedUser(principal, Admin);
      if targetId == "" then r == Err(InvalidId) && unchanged(db)
      else if gate.None? then r == Err(NotAuthorised) && unchanged(db)
      else if gate.value.id == targetId then r == Err(OwnAccount) && unchanged(db)
      else if targetId !in old(db.users) then r == Err(UserNotFound) && unchanged(db)
      else if old(db.users)[targetId].roleLevel >= gate.value.roleLevel then r == Err(NotAuthorised) && unchanged(db)
      else
        && r == Ok(())
        && db.users == old(db.users) - {targetId}
        && db.modules == WithoutTeacher(old(db.modules), targetId)
        && db.enrollments == WithoutStudent(old(db.enrollments), targetId)
  {
    if targetId == "" {
      return Err(InvalidId);
    }
    var user := ReadPrivilegedUser(principal, Admin);
    if user.None? {
      return Err(NotAuthorised);
    }
    if user.value.id == targetId {
      return Err(OwnAccount);
    }
    if targetId !in db.users {
      return Err(UserNotFound);
    }
    if db.users[targetId].roleLevel >= user.value.roleLevel {
      return Err(NotAuthorised);
    }
    db.users := db.users - {targetId};
    db.modules := WithoutTeacher(db.modules, targetId);
    db.enrollments := WithoutStudent(db.enrollments, targetId);
    return Ok(());
  }

  // ---------------------------------------------------------------- owner bootstrap

  /** `grantOwner`: the master password, read from the environment (`master`, absent when
      unset), is checked before the session; then the caller must exist and no owner may. */
  method GrantOwner(db: Store, principal: Option<SessionUser>, password: string, master: Option<string>)
    returns (r: Result<()>)
    modifies db`users
    ensures if password == "" || master != Some(password) then r == Err(BadMasterPassword) && unchanged(db)
      else if principal.None? then r == Err(NotLoggedIn) && unchanged(db)
      else if principal.value.id !in old(db.users) then r == Err(NotInDatabase) && unchanged(db)
      else if Owners(old(db.users)) != {} then r == Err(OwnerExists) && unchanged(db)
      else
        && r == Ok(())
        && db.users == old(db.users)[principal.value.id := old(db.users)[principal.value.id].(roleLevel := Owner)]
        && Owners(db.users) == {principal.value.id}
  {
    if password == "" || master != Some(password) {
      return Err(BadMasterPassword);
    }
    if principal.None? {
      return Err(NotLoggedIn);
    }
    var user := principal.value;
    var existingUser := user.id in db.users;
    var existingOwner := |Owners(db.users)|;
    if !existingUser {
      return Err(NotInDatabase);
    }
    if existingOwner != 0 {
      return Err(OwnerExists);
    }
    db.users := db.users[user.id := db.users[user.id].(roleLevel := Owner)];
    SoleOwner(old(db.users), user.id);
    return Ok(());
  }

  /** Promoting one existing user when there is no owner leaves exactly that user as owner. */
  lemma SoleOwner(users: map<string, UserRow>, id: string)
    requires id in users && Owners(users) == {}
    ensures Owners(users[id := users[id].(roleLevel := Owner)]) == {id}
  {
    var after := users[id := users[id].(roleLevel := Owner)];
    forall u ensures u in Owners(after) <==> u == id {
      if u != id && u in users {
        assert u !in Owners(users);
      }
    }
  }
}
