/** The tag server actions (src/lib/actions/tag.ts). Both call the role gate without waiting
    for its answer and test the pending answer, which is always truthy: the gate never rejects,
    so the session user takes no part in either outcome. `GatedCreateTag` and `GatedDeleteTag`
    are the actions with the answer awaited. */
module TagActions {
  import opened Wrappers
  import opened Session
  import opened Seqs
  import opened Tags
  import opened Db

  const NameTaken := "Tag with this name already exists"
  const BadTagId := "Bad tag ID"
  const NotAuthorised := "Not authorised"

  predicate NameInUse(tags: map<string, TagRow>, name: string)
  {
    exists id :: id in tags && tags[id].name == name
  }

  predicate UniqueTagNames(tags: map<string, TagRow>)
  {
    forall a, b :: a in tags && b in tags && a != b ==> tags[a].name != tags[b].name
  }

  /** `createTag`: the schema's first issue, then the name check, then the insert. */
  method CreateTag(db: Store, principal: Option<SessionUser>, tag: RawTag, freshId: string) returns (r: Result<CourseTag>)
    requires freshId !in db.tags
    modifies db`tags
    ensures ParseTag(tag).Err? ==> r == Err(ParseTag(tag).error) && unchanged(db)
    ensures ParseTag(tag).Ok? && NameInUse(old(db.tags), tag.name) ==> r == Err(NameTaken) && unchanged(db)
    ensures ParseTag(tag).Ok? && !NameInUse(old(db.tags), tag.name) ==>
      var t := ParseTag(tag).data;
      r == Ok(CourseTag(freshId, t.name, t.tagType)) && db.tags == old(db.tags)[freshId := TagRow(t.name, t.tagType)]
  {
    var parsed := ParseTag(tag);
    if parsed.Err? {
      return Err(parsed.error);
    }
    if NameInUse(db.tags, parsed.data.name) {
      return Err(NameTaken);
    }
    db.tags := db.tags[freshId := TagRow(parsed.data.name, parsed.data.tagType)];
    return Ok(CourseTag(freshId, parsed.data.name, parsed.data.tagType));
  }

  /** The name check keeps tag names unique. */
  lemma CreateKeepsNamesUnique(tags: map<string, TagRow>, freshId: string, row: TagRow)
    requires UniqueTagNames(tags) && freshId !in tags && !NameInUse(tags, row.name)
    ensures UniqueTagNames(tags[freshId := row])
  {
    var after := tags[freshId := row];
    forall a, b | a in after && b in after && a != b
      ensures after[a].name != after[b].name
    {
      if a == freshId {
        assert tags[b].name != row.name;
      } else if b == freshId {
        assert tags[a].name != row.name;
      }
    }
  }

  /** The courses that carry tag `tagId`. */
  function CoursesTagged(courses: map<string, CourseRow>, tagId: string): (r: set<string>)
    ensures forall c :: c in r <==> c in courses && tagId in courses[c].tagIds
  {
    set c | c in courses && tagId in courses[c].tagIds
  }

  /** The course table once tag `tagId` is gone from every course's tag relation. */
  function WithoutTag(courses: map<string, CourseRow>, tagId: string): (r: map<string, CourseRow>)
    ensures r.Keys == courses.Keys
    ensures forall c :: c in r ==> r[c] == courses[c].(tagIds := courses[c].tagIds - {tagId})
  {
    map c | c in courses :: courses[c].(tagIds := courses[c].tagIds - {tagId})
  }

  /** The detail-page paths of the given courses, in order. */
  function CoursePages(ids: seq<string>): (r: seq<string>)
    ensures |r| == |ids| && forall i :: 0 <= i < |ids| ==> r[i] == "/courses/" + ids[i]
  {
    seq(|ids|, i requires 0 <= i < |ids| => "/courses/" + ids[i])
  }

  /** `deleteTag`: the courses to revalidate are read before the delete; then "/" and
      "/courses" and one detail page per such course, in the order the query returns them
      (`order`). An id that names no tag still succeeds. */
  method DeleteTag(db: Store, principal: Option<SessionUser>, tagId: string) returns (r: Result<()>, ghost order: seq<string>)
    modifies db`tags, db`courses, db`revalidated
    ensures tagId == "" ==> r == Err(BadTagId) && unchanged(db)
    ensures tagId != "" ==>
      && r == Ok(())
      && db.tags == old(db.tags) - {tagId}
      && db.courses == WithoutTag(old(db.courses), tagId)
      && Distinct(order) && |order| == |CoursesTagged(old(db.courses), tagId)|
      && (forall c :: c in order <==> c in CoursesTagged(old(db.courses), tagId))
      && db.revalidated == old(db.revalidated) + ["/", "/courses"] + CoursePages(order)
  {
    order := [];
    if tagId == "" {
      return Err(BadTagId), order;
    }
    var coursesToRevalidate := CoursesTagged(db.courses, tagId);
    db.tags := db.tags - {tagId};
    db.courses := WithoutTag(db.courses, tagId);
    db.Revalidate("/");
    db.Revalidate("/courses");
    var pending := coursesToRevalidate;
    while pending != {}
      invariant pending <= coursesToRevalidate
      invariant db.tags == old(db.tags) - {tagId} && db.courses == WithoutTag(old(db.courses), tagId)
      invariant forall c :: c in order <==> c in coursesToRevalidate && c !in pending
      invariant Distinct(order) && |order| + |pending| == |coursesToRevalidate|
      invariant db.revalidated == old(db.revalidated) + ["/", "/courses"] + CoursePages(order)
      decreases |pending|
    {
      var c :| c in pending;
      db.Revalidate("/courses/" + c);
      order := order + [c];
      pending := pending - {c};
    }
    return Ok(()), order;
  }

  // ---------------------------------------------------------------- the gate, as written and as intended

  /** As written, the gate never rejects: a visitor with no session creates a well-formed tag
      whose name is free. */
  method AnonymousCreateSucceeds(db: Store, tag: RawTag, freshId: string) returns (r: Result<CourseTag>)
    requires freshId !in db.tags && ValidTag(tag) && !NameInUse(db.tags, tag.name)
    modifies db`tags
    ensures r.Ok? && freshId in db.tags
  {
    r := CreateTag(db, None, tag, freshId);
  }

  /** As written, a visitor with no session deletes any tag. */
  method AnonymousDeleteSucceeds(db: Store, tagId: string) returns (r: Result<()>)
    requires tagId != ""
    modifies db`tags, db`courses, db`revalidated
    ensures r == Ok(()) && tagId !in db.tags
  {
    ghost var order;
    r, order := DeleteTag(db, None, tagId);
  }

  /** `createTag` with the gate's answer awaited: only an admin or above gets past it. */
  method GatedCreateTag(db: Store, principal: Option<SessionUser>, tag: RawTag, freshId: string) returns (r: Result<CourseTag>)
    requires freshId !in db.tags
    modifies db`tags
    ensures ReadPrivilegedUser(principal, Admin).None? ==> r == Err(NotAuthorised) && unchanged(db)
    ensures r.Ok? ==> principal.Some? && principal.value.roleLevel >= Admin
    ensures ReadPrivilegedUser(principal, Admin).Some? && ParseTag(tag).Err? ==> r == Err(ParseTag(tag).error) && unchanged(db)
    ensures ReadPrivilegedUser(principal, Admin).Some? && ParseTag(tag).Ok? && NameInUse(old(db.tags), tag.name) ==>
      r == Err(NameTaken) && unchanged(db)
    ensures ReadPrivilegedUser(principal, Admin).Some? && ParseTag(tag).Ok? && !NameInUse(old(db.tags), tag.name) ==>
      var t := ParseTag(tag).data;
      r == Ok(CourseTag(freshId, t.name, t.tagType)) && db.tags == old(db.tags)[freshId := TagRow(t.name, t.tagType)]
  {
    if ReadPrivilegedUser(principal, Admin).None? {
      return Err(NotAuthorised);
    }
    r := CreateTag(db, principal, tag, freshId);
  }

  /** `deleteTag` with the gate's answer awaited: the id check, then the gate, then the delete. */
  method GatedDeleteTag(db: Store, principal: Option<SessionUser>, tagId: string) returns (r: Result<()>, ghost order: seq<string>)
    modifies db`tags, db`courses, db`revalidated
    ensures tagId == "" ==> r == Err(BadTagId) && unchanged(db)
    ensures tagId != "" && ReadPrivilegedUser(principal, Admin).None? ==> r == Err(NotAuthorised) && unchanged(db)
    ensures r.Ok? ==> principal.Some? && principal.value.roleLevel >= Admin
    ensures tagId != "" && ReadPrivilegedUser(principal, Admin).Some? ==>
      && r == Ok(())
      && db.tags == old(db.tags) - {tagId}
      && db.courses == WithoutTag(old(db.courses), tagId)
      && Distinct(order) && |order| == |CoursesTagged(old(db.courses), tagId)|
      && (forall c :: c in order <==> c in CoursesTagged(old(db.courses), tagId))
      && db.revalidated == old(db.revalidated) + ["/", "/courses"] + CoursePages(order)
  {
    order := [];
    if tagId == "" {
      return Err(BadTagId), order;
    }
    if ReadPrivilegedUser(principal, Admin).None? {
      return Err(NotAuthorised), order;
    }
    r, order := DeleteTag(db, principal, tagId);
  }
}
