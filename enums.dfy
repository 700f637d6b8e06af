/** The database enumerations, with the literal names the validators accept. */
module Enums {
  import opened Wrappers

  datatype VariantType = GroupOnline | GroupOnsite | PrivateOnline | PrivateOnsite

  datatype ContentType = File | Link | Whatsapp

  datatype TagType = Language | Category | Framework | Special

  function VariantTypeName(t: VariantType): string
  {
    match t
    case GroupOnline => "GROUP_ONLINE"
    case GroupOnsite => "GROUP_ONSITE"
    case PrivateOnline => "PRIVATE_ONLINE"
    case PrivateOnsite => "PRIVATE_ONSITE"
  }

  function ContentTypeName(t: ContentType): string
  {
    match t
    case File => "FILE"
    case Link => "LINK"
    case Whatsapp => "WHATSAPP"
  }

  function TagTypeName(t: TagType): string
  {
    match t
    case Language => "Language"
    case Category => "Category"
    case Framework => "Framework"
    case Special => "Special"
  }

  /** Enum membership of a string, as the validator's enum check performs it. */
  function ParseVariantType(s: string): (r: Option<VariantType>)
    ensures r.Some? ==> VariantTypeName(r.value) == s
    ensures r.None? ==> forall t :: VariantTypeName(t) != s
  {
    if s == "GROUP_ONLINE" then Some(GroupOnline)
    else if s == "GROUP_ONSITE" then Some(GroupOnsite)
    else if s == "PRIVATE_ONLINE" then Some(PrivateOnline)
    else if s == "PRIVATE_ONSITE" then Some(PrivateOnsite)
    else None
  }

  function ParseContentType(s: string): (r: Option<ContentType>)
    ensures r.Some? ==> ContentTypeName(r.value) == s
    ensures r.None? ==> forall t :: ContentTypeName(t) != s
  {
    if s == "FILE" then Some(File)
    else if s == "LINK" then Some(Link)
    else if s == "WHATSAPP" then Some(Whatsapp)
    else None
  }

  function ParseTagType(s: string): (r: Option<TagType>)
    ensures r.Some? ==> TagTypeName(r.value) == s
    ensures r.None? ==> forall t :: TagTypeName(t) != s
  {
    if s == "Language" then Some(Language)
    else if s == "Category" then Some(Category)
    else if s == "Framework" then Some(Framework)
    else if s == "Special" then Some(Special)
    else None
  }

  /** Every enum value is accepted under its own name, so the names are pairwise distinct. */
  lemma VariantTypeNamesRoundTrip(t: VariantType)
    ensures ParseVariantType(VariantTypeName(t)) == Some(t)
  {
  }

  lemma VariantTypeNameInjective(a: VariantType, b: VariantType)
    ensures VariantTypeName(a) == VariantTypeName(b) ==> a == b
  {
    VariantTypeNamesRoundTrip(a);
    VariantTypeNamesRoundTrip(b);
  }

  lemma ContentTypeNamesRoundTrip(t: ContentType)
    ensures ParseContentType(ContentTypeName(t)) == Some(t)
  {
  }

  lemma TagTypeNamesRoundTrip(t: TagType)
    ensures ParseTagType(TagTypeName(t)) == Some(t)
  {
  }

  /** There are exactly four variant types, so any set of them has at most four elements. */
  lemma {:induction false} VariantTypeSetBound(s: set<VariantType>)
    ensures |s| <= 4
  {
    var all := {GroupOnline, GroupOnsite, PrivateOnline, PrivateOnsite};
    assert s <= all by {
      forall t | t in s ensures t in all {
        match t
        case GroupOnline =>
        case GroupOnsite =>
        case PrivateOnline =>
        case PrivateOnsite =>
      }
    }
    assert |all| == 4;
    SubsetCard(s, all);
  }

  lemma {:induction false} SubsetCard<T>(a: set<T>, b: set<T>)
    requires a <= b
    ensures |a| <= |b|
  {
    assert b == a + (b - a);
  }
}
