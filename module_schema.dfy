/** The module-content editor's payload schemas (src/lib/types/module.ts). */
module ModuleSchema {
  import opened Wrappers
  import opened Enums
  import opened Seqs
  import opened Issues

  datatype RawContent = RawContent(contentType: string, title: string, url: string, viewableBy: seq<string>)

  datatype Content = Content(contentType: ContentType, title: string, url: string, viewableBy: seq<VariantType>)

  datatype RawModuleUpdate = RawModuleUpdate(moduleId: string, description: string, contents: seq<RawContent>)

  datatype ModuleContentUpdate = ModuleContentUpdate(moduleId: string, description: string, contents: seq<Content>)

  datatype RawRemoveTeacher = RawRemoveTeacher(teacherId: string, moduleId: string)

  const ContentNeedsTitle := "Content must have a title"
  const InvalidMaterial :=
    "Invalid material - check all files are uploaded and all links start with http:// or https://"
  const ContentNeedsMaterial := "Content must have linked material"
  const ContentNeedsViewers := "Content must be viewable by one type of enrolled student"
  const ModuleNeedsDescription := "All modules need a description."

  predicate ValidContent(c: RawContent, isUrl: string -> bool)
  {
    && (exists t :: ContentTypeName(t) == c.contentType)
    && c.title != ""
    && isUrl(c.url) && c.url != ""
    && (forall i :: 0 <= i < |c.viewableBy| ==> exists t :: VariantTypeName(t) == c.viewableBy[i])
    && |c.viewableBy| > 0
  }

  function ParseViewer(s: string): (r: Result<VariantType>)
    ensures r.Ok? <==> exists t :: VariantTypeName(t) == s
    ensures r.Ok? ==> VariantTypeName(r.data) == s
  {
    match ParseVariantType(s)
    case None => Err(InvalidVariantType)
    case Some(t) => Ok(t)
  }

  /** `ModuleContentSchema`: type, title, URL, then a non-empty `viewableBy` list that the
      transform turns into `[...new Set(viewableBy)]`. */
  function ParseContent(c: RawContent, isUrl: string -> bool): (r: Result<Content>)
    ensures r.Ok? <==> ValidContent(c, isUrl)
    ensures r.Ok? ==>
      && ContentTypeName(r.data.contentType) == c.contentType
      && r.data.title == c.title && r.data.url == c.url
      && r.data.viewableBy == Dedup(ParseAll(c.viewableBy, ParseViewer).data)
    ensures (exists t :: ContentTypeName(t) == c.contentType) && c.title != "" && !isUrl(c.url) ==>
              r == Err(InvalidMaterial)
  {
    match ParseContentType(c.contentType)
    case None => Err(InvalidContentType)
    case Some(t) =>
      if c.title == "" then Err(ContentNeedsTitle)
      else if !isUrl(c.url) then Err(InvalidMaterial)
      else if c.url == "" then Err(ContentNeedsMaterial)
      else
        match ParseAll(c.viewableBy, ParseViewer)
        case Err(e) => Err(e)
        case Ok(vs) =>
          if vs == [] then Err(ContentNeedsViewers)
          else Ok(Content(t, c.title, c.url, Dedup(vs)))
  }

  /** After parsing, `viewableBy` has no repeats, names exactly the submitted types, lists them in
      order of first submission, and so has at most four entries. */
  lemma ViewableByNormalised(c: RawContent, isUrl: string -> bool)
    requires ParseContent(c, isUrl).Ok?
    ensures var v := ParseContent(c, isUrl).data.viewableBy;
      && Distinct(v)
      && (forall t :: t in v <==> VariantTypeName(t) in c.viewableBy)
      && 0 < |v| <= 4
  {
    var vs := ParseAll(c.viewableBy, ParseViewer).data;
    var v := Dedup(vs);
    DedupSpec(vs);
    forall t ensures t in vs <==> VariantTypeName(t) in c.viewableBy {
      if VariantTypeName(t) in c.viewableBy {
        var i :| 0 <= i < |c.viewableBy| && c.viewableBy[i] == VariantTypeName(t);
        VariantTypeNameInjective(vs[i], t);
      }
    }
    assert vs[0] in v;
    ElementsCard(v);
    VariantTypeSetBound(Elements(v));
  }

  /** Every type of `v` is named in `raw`, and `v` lists them in the order of their names' first
      occurrences in `raw`. */
  predicate InFirstOccurrenceOrder(v: seq<VariantType>, raw: seq<string>)
  {
    forall i, j :: 0 <= i < j < |v| ==>
      VariantTypeName(v[i]) in raw && VariantTypeName(v[j]) in raw &&
      FirstIndex(raw, VariantTypeName(v[i])) < FirstIndex(raw, VariantTypeName(v[j]))
  }

  /** The de-duplicated `viewableBy` keeps the order in which each type was first submitted. */
  lemma ViewableByFirstOccurrenceOrder(c: RawContent, isUrl: string -> bool)
    requires ParseContent(c, isUrl).Ok?
    ensures InFirstOccurrenceOrder(ParseContent(c, isUrl).data.viewableBy, c.viewableBy)
  {
    assert ValidContent(c, isUrl);
    var vs := ParsedViewers(c.viewableBy);
    DedupOrderByName(c.viewableBy, vs);
    assert ParseContent(c, isUrl).data.viewableBy == Dedup(vs);
  }

  /** A list of valid type names parses, element by element, to the types so named. */
  lemma ParsedViewers(raw: seq<string>) returns (vs: seq<VariantType>)
    requires forall i :: 0 <= i < |raw| ==> exists t :: VariantTypeName(t) == raw[i]
    ensures ParseAll(raw, ParseViewer) == Ok(vs)
    ensures |vs| == |raw| && forall i :: 0 <= i < |raw| ==> VariantTypeName(vs[i]) == raw[i]
  {
    assert forall i :: 0 <= i < |raw| ==> ParseViewer(raw[i]).Ok?;
    vs := ParseAll(raw, ParseViewer).data;
  }

  /** Ordering the de-duplicated types by first occurrence agrees with ordering their names
      by first occurrence in the submitted list. */
  lemma DedupOrderByName(raw: seq<string>, vs: seq<VariantType>)
    requires |vs| == |raw| && forall i :: 0 <= i < |raw| ==> VariantTypeName(vs[i]) == raw[i]
    ensures InFirstOccurrenceOrder(Dedup(vs), raw)
  {
    DedupSpec(vs);
    forall t | t in vs ensures VariantTypeName(t) in raw && FirstIndex(raw, VariantTypeName(t)) == FirstIndex(vs, t) {
      FirstIndexByName(raw, vs, t);
    }
  }

  lemma FirstIndexByName(raw: seq<string>, vs: seq<VariantType>, t: VariantType)
    requires |vs| == |raw| && forall i :: 0 <= i < |raw| ==> VariantTypeName(vs[i]) == raw[i]
    requires t in vs
    ensures VariantTypeName(t) in raw && FirstIndex(raw, VariantTypeName(t)) == FirstIndex(vs, t)
  {
    var k := FirstIndex(vs, t);
    assert raw[k] == VariantTypeName(t);
    forall i | 0 <= i < k ensures raw[i] != VariantTypeName(t) {
      assert vs[..k][i] == vs[i];
      VariantTypeNameInjective(vs[i], t);
    }
    FirstIndexUnique(raw, VariantTypeName(t), k);
  }

  /** `ModuleUpdateSchema`: module id, description, then each content item; the list may be empty. */
  function ParseModuleUpdate(m: RawModuleUpdate, isUrl: string -> bool): (r: Result<ModuleContentUpdate>)
    ensures r.Ok? <==>
      m.moduleId != "" && m.description != "" &&
      forall i :: 0 <= i < |m.contents| ==> ValidContent(m.contents[i], isUrl)
    ensures r.Ok? ==>
      && r.data.moduleId == m.moduleId && r.data.description == m.description
      && |r.data.contents| == |m.contents|
      && forall i :: 0 <= i < |m.contents| ==> r.data.contents[i] == ParseContent(m.contents[i], isUrl).data
    ensures m.moduleId != "" && m.description == "" ==> r == Err(ModuleNeedsDescription)
  {
    if m.moduleId == "" then Err(TooSmallString)
    else if m.description == "" then Err(ModuleNeedsDescription)
    else
      match ParseAll(m.contents, (x: RawContent) => ParseContent(x, isUrl))
      case Err(e) => Err(e)
      case Ok(cs) => Ok(ModuleContentUpdate(m.moduleId, m.description, cs))
  }

  /** `removeTeacherSchema`: both ids non-empty. */
  function ParseRemoveTeacher(d: RawRemoveTeacher): (r: Result<RawRemoveTeacher>)
    ensures r.Ok? <==> d.teacherId != "" && d.moduleId != ""
    ensures r.Ok? ==> r.data == d
  {
    if d.teacherId == "" || d.moduleId == "" then Err(TooSmallString) else Ok(d)
  }
}
