/** The course-editor payload schema (src/lib/types/course.ts). A raw payload is parsed into
    checked values; a failure reports the message of the first issue, in field order, with the
    issues of a list's elements before the list's own checks. */
module CourseSchema {
  import opened Wrappers
  import opened Enums
  import opened Seqs
  import opened Issues
  import Tags

  datatype RawVariant = RawVariant(variantType: string, price: real)

  datatype RawModule = RawModule(
    moduleId: string, index: real, title: string, description: string,
    teacherIds: seq<string>, variants: seq<RawVariant>)

  datatype RawCourse = RawCourse(
    courseId: string, title: string, description: string, thumbnailUrl: string,
    isPublic: bool, modules: seq<RawModule>, tags: seq<Tags.RawTag>)

  datatype Variant = Variant(variantType: VariantType, price: int)

  datatype ModuleUpdate = ModuleUpdate(
    moduleId: string, index: real, title: string, description: string,
    teacherIds: seq<string>, variants: seq<Variant>)

  datatype CourseUpdate = CourseUpdate(
    courseId: string, title: string, description: string, thumbnailUrl: string,
    isPublic: bool, modules: seq<ModuleUpdate>, tags: seq<Tags.Tag>)

  const PriceTooBig := "Cannot enter a price over a million pounds"
  const ModuleNeedsTitle := "All modules need to have a title."
  const ModuleNeedsDescription := "All modules need a description."
  const ModuleNeedsVariant := "All modules need at least one variant enabled"
  const VariantTypesNotUnique := "[BUG] Variants must have unique types"
  const CourseNeedsTitle := "Course needs to have a title"
  const CourseNeedsDescription := "Course needs to have a description"
  const EmptyThumbnail := "Empty thumbnail"
  const CourseNeedsModule := "Course needs to have at least 1 module"
  const IndicesNotUnique := "[BUG] Module indices must be unique"
  const CourseNeedsTag := "Courses need to be described with at least 1 tag"

  // ---------------------------------------------------------------- declarative rules

  predicate ValidPrice(p: real)
  {
    IsInteger(p) && 0.0 <= p <= 1000000.0
  }

  predicate IsVariantTypeName(s: string)
  {
    exists t :: VariantTypeName(t) == s
  }

  predicate ValidVariant(v: RawVariant)
  {
    IsVariantTypeName(v.variantType) && ValidPrice(v.price)
  }

  predicate DistinctRawTypes(vs: seq<RawVariant>)
  {
    forall i, j :: 0 <= i < j < |vs| ==> vs[i].variantType != vs[j].variantType
  }

  /** The module's own fields are acceptable (everything except its variant list). */
  predicate ValidModuleFields(m: RawModule)
  {
    && m.moduleId != ""
    && m.index >= 0.0
    && m.title != ""
    && m.description != ""
    && "" !in m.teacherIds
  }

  predicate ValidModule(m: RawModule)
  {
    && ValidModuleFields(m)
    && (forall i :: 0 <= i < |m.variants| ==> ValidVariant(m.variants[i]))
    && |m.variants| > 0
    && DistinctRawTypes(m.variants)
  }

  predicate DistinctRawIndices(ms: seq<RawModule>)
  {
    forall i, j :: 0 <= i < j < |ms| ==> ms[i].index != ms[j].index
  }

  predicate ValidCourse(c: RawCourse, isUrl: string -> bool)
  {
    && c.courseId != ""
    && c.title != ""
    && c.description != ""
    && isUrl(c.thumbnailUrl) && c.thumbnailUrl != ""
    && (forall i :: 0 <= i < |c.modules| ==> ValidModule(c.modules[i]))
    && |c.modules| > 0
    && DistinctRawIndices(c.modules)
    && (forall i :: 0 <= i < |c.tags| ==> Tags.ValidTag(c.tags[i]))
    && |c.tags| > 0
  }

  // ---------------------------------------------------------------- parsers

  /** `priceSchema`: an integer (a safe one), non-negative, at most one million. */
  function ParsePrice(p: real): (r: Result<int>)
    ensures r.Ok? <==> ValidPrice(p)
    ensures r.Ok? ==> r.data as real == p && 0 <= r.data <= 1000000
    ensures r.Err? ==> r.error in {NotAnInteger, UnsafeIntTooBig, UnsafeIntTooSmall, TooSmallNumber, PriceTooBig}
    ensures IsInteger(p) && SafeIntegerIssue(p).Some? ==> r == Err(SafeIntegerIssue(p).value)
    ensures IsInteger(p) && SafeIntegerIssue(p).None? && p > 1000000.0 ==> r == Err(PriceTooBig)
  {
    if !IsInteger(p) then Err(NotAnInteger)
    else if SafeIntegerIssue(p).Some? then Err(SafeIntegerIssue(p).value)
    else if p < 0.0 then Err(TooSmallNumber)
    else if p > 1000000.0 then Err(PriceTooBig)
    else Ok(p.Floor)
  }

  function ParseVariant(v: RawVariant): (r: Result<Variant>)
    ensures r.Ok? <==> ValidVariant(v)
    ensures r.Ok? ==> VariantTypeName(r.data.variantType) == v.variantType && r.data.price as real == v.price
    ensures !IsVariantTypeName(v.variantType) ==> r == Err(InvalidVariantType)
    ensures r.Err? ==> r.error in {InvalidVariantType, NotAnInteger, UnsafeIntTooBig, UnsafeIntTooSmall, TooSmallNumber, PriceTooBig}
  {
    match ParseVariantType(v.variantType)
    case None => Err(InvalidVariantType)
    case Some(t) =>
      match ParsePrice(v.price)
      case Err(e) => Err(e)
      case Ok(p) => Ok(Variant(t, p))
  }

  predicate DistinctTypes(vs: seq<Variant>)
  {
    forall i, j :: 0 <= i < j < |vs| ==> vs[i].variantType != vs[j].variantType
  }

  /** The variant list's uniqueness refinement: a `seen` set is filled while scanning, and the
      scan fails at the first type already seen. */
  method VariantTypesUnique(vs: seq<Variant>) returns (unique: bool)
    ensures unique <==> DistinctTypes(vs)
  {
    var seen: set<VariantType> := {};
    for i := 0 to |vs|
      invariant forall t :: t in seen <==> exists j :: 0 <= j < i && vs[j].variantType == t
      invariant DistinctTypes(vs[..i])
    {
      if vs[i].variantType in seen {
        var j :| 0 <= j < i && vs[j].variantType == vs[i].variantType;
        return false;
      }
      seen := seen + {vs[i].variantType};
    }
    assert vs[..|vs|] == vs;
    return true;
  }

  /** Distinct type names and distinct parsed types are the same thing. */
  lemma DistinctTypesOfParsed(raw: seq<RawVariant>, vs: seq<Variant>)
    requires |vs| == |raw|
    requires forall i :: 0 <= i < |raw| ==> VariantTypeName(vs[i].variantType) == raw[i].variantType
    ensures DistinctTypes(vs) <==> DistinctRawTypes(raw)
  {
    forall i, j | 0 <= i < j < |vs| {
      VariantTypeNameInjective(vs[i].variantType, vs[j].variantType);
    }
  }

  function ParseModule(m: RawModule): (r: Result<ModuleUpdate>)
    ensures r.Ok? <==> ValidModule(m)
    ensures r.Ok? ==>
      && r.data.moduleId == m.moduleId && r.data.index == m.index
      && r.data.title == m.title && r.data.description == m.description
      && r.data.teacherIds == m.teacherIds
      && |r.data.variants| == |m.variants|
      && (forall i :: 0 <= i < |m.variants| ==> r.data.variants[i] == ParseVariant(m.variants[i]).data)
    ensures r == Err(ModuleNeedsVariant) <==> ValidModuleFields(m) && m.variants == []
    ensures r == Err(VariantTypesNotUnique) <==>
      && ValidModuleFields(m)
      && (forall i :: 0 <= i < |m.variants| ==> ValidVariant(m.variants[i]))
      && |m.variants| > 0
      && !DistinctRawTypes(m.variants)
  {
    if m.moduleId == "" then Err(TooSmallString)
    else if m.index < 0.0 then Err(TooSmallNumber)
    else if m.title == "" then Err(ModuleNeedsTitle)
    else if m.description == "" then Err(ModuleNeedsDescription)
    else if "" in m.teacherIds then Err(TooSmallString)
    else
      match ParseAll(m.variants, ParseVariant)
      case Err(e) =>
        var k :| 0 <= k < |m.variants| && FirstFailure(m.variants, ParseVariant, k) && e == ParseVariant(m.variants[k]).error;
        Err(e)
      case Ok(vs) =>
        DistinctTypesOfParsed(m.variants, vs);
        if vs == [] then Err(ModuleNeedsVariant)
        else if !DistinctTypes(vs) then Err(VariantTypesNotUnique)
        else Ok(ModuleUpdate(m.moduleId, m.index, m.title, m.description, m.teacherIds, vs))
  }

  // ---------------------------------------------------------------- module indices

  function Indices(ms: seq<ModuleUpdate>): (r: seq<real>)
    ensures |r| == |ms| && forall i :: 0 <= i < |ms| ==> r[i] == ms[i].index
  {
    if ms == [] then [] else [ms[0].index] + Indices(ms[1..])
  }

  /** `[...new Set(modules.map((mod) => mod.index))].length`. */
  function DistinctIndexCount(ms: seq<ModuleUpdate>): nat
  {
    |Elements(Indices(ms))|
  }

  /** The set-size refinement accepts exactly the lists whose indices are pairwise distinct;
      otherwise there are fewer distinct indices than modules. */
  lemma DistinctIndexCountSpec(ms: seq<ModuleUpdate>)
    ensures DistinctIndexCount(ms) <= |ms|
    ensures DistinctIndexCount(ms) == |ms| <==> forall i, j :: 0 <= i < j < |ms| ==> ms[i].index != ms[j].index
  {
    var xs := Indices(ms);
    ElementsCard(xs);
    assert Distinct(xs) <==> forall i, j :: 0 <= i < j < |ms| ==> ms[i].index != ms[j].index by {
      if Distinct(xs) {
        forall i, j | 0 <= i < j < |ms| ensures ms[i].index != ms[j].index {
          assert xs[i] != xs[j];
        }
      }
    }
  }

  lemma ParsedIndices(raw: seq<RawModule>, ms: seq<ModuleUpdate>)
    requires ParseAll(raw, ParseModule) == Ok(ms)
    ensures DistinctRawIndices(raw) <==> DistinctIndexCount(ms) == |ms|
  {
    DistinctIndexCountSpec(ms);
    forall i | 0 <= i < |raw| ensures ms[i].index == raw[i].index {
      assert ParseModule(raw[i]).Ok?;
    }
  }

  /** The `modules` field: each module, then "at least one", then unique indices. */
  function ParseModules(raw: seq<RawModule>): (r: Result<seq<ModuleUpdate>>)
    ensures r.Ok? <==>
      (forall i :: 0 <= i < |raw| ==> ValidModule(raw[i])) && |raw| > 0 && DistinctRawIndices(raw)
    ensures r.Ok? ==> |r.data| == |raw| && forall i :: 0 <= i < |raw| ==> r.data[i] == ParseModule(raw[i]).data
    ensures raw == [] ==> r == Err(CourseNeedsModule)
    ensures (forall i :: 0 <= i < |raw| ==> ValidModule(raw[i])) && |raw| > 0 && !DistinctRawIndices(raw) ==>
      r == Err(IndicesNotUnique)
  {
    match ParseAll(raw, ParseModule)
    case Err(e) => Err(e)
    case Ok(ms) =>
      ParsedIndices(raw, ms);
      if ms == [] then Err(CourseNeedsModule)
      else if DistinctIndexCount(ms) != |ms| then Err(IndicesNotUnique)
      else Ok(ms)
  }

  /** The `tags` field: each tag, then "at least one". */
  function ParseTags(raw: seq<Tags.RawTag>): (r: Result<seq<Tags.Tag>>)
    ensures r.Ok? <==> (forall i :: 0 <= i < |raw| ==> Tags.ValidTag(raw[i])) && |raw| > 0
    ensures r.Ok? ==> |r.data| == |raw| && forall i :: 0 <= i < |raw| ==> r.data[i] == Tags.ParseTag(raw[i]).data
    ensures r == Err(CourseNeedsTag) <==> raw == []
  {
    match ParseAll(raw, Tags.ParseTag)
    case Err(e) =>
      var k :| 0 <= k < |raw| && FirstFailure(raw, Tags.ParseTag, k) && e == Tags.ParseTag(raw[k]).error;
      Err(e)
    case Ok(ts) =>
      if ts == [] then Err(CourseNeedsTag) else Ok(ts)
  }

  /** `CourseUpdateSchema`: every rule of `ValidCourse`, reported in field order. */
  function ParseCourse(c: RawCourse, isUrl: string -> bool): (r: Result<CourseUpdate>)
    ensures r.Ok? <==> ValidCourse(c, isUrl)
    ensures r.Ok? ==>
      && r.data.courseId == c.courseId && r.data.title == c.title
      && r.data.description == c.description && r.data.thumbnailUrl == c.thumbnailUrl
      && r.data.isPublic == c.isPublic
      && |r.data.modules| == |c.modules|
      && (forall i :: 0 <= i < |c.modules| ==> r.data.modules[i] == ParseModule(c.modules[i]).data)
      && |r.data.tags| == |c.tags|
      && (forall i :: 0 <= i < |c.tags| ==> r.data.tags[i] == Tags.ParseTag(c.tags[i]).data)
    ensures (c.courseId != "" && c.title != "" && c.description != "" && isUrl(c.thumbnailUrl) &&
             c.thumbnailUrl != "" && c.modules == []) ==> r == Err(CourseNeedsModule)
  {
    if c.courseId == "" then Err(TooSmallString)
    else if c.title == "" then Err(CourseNeedsTitle)
    else if c.description == "" then Err(CourseNeedsDescription)
    else if !isUrl(c.thumbnailUrl) then Err(EmptyThumbnail)
    else if c.thumbnailUrl == "" then Err(EmptyThumbnail)
    else
      match ParseModules(c.modules)
      case Err(e) => Err(e)
      case Ok(ms) =>
        match ParseTags(c.tags)
        case Err(e) => Err(e)
        case Ok(ts) => Ok(CourseUpdate(c.courseId, c.title, c.description, c.thumbnailUrl, c.isPublic, ms, ts))
  }

  /** The index only has to be non-negative: any such index, integer or not, is accepted and
      kept as sent. */
  lemma AnyNonNegativeIndexAccepted(m: RawModule, index: real)
    requires ValidModule(m) && index >= 0.0
    ensures ParseModule(m.(index := index)).Ok?
    ensures ParseModule(m.(index := index)).data.index == index
  {
    assert ValidModule(m.(index := index));
  }
}
