/** The course server actions (src/lib/actions/course.ts): create a blank course, save the
    course editor's payload in one transaction, delete a course. The session user is the
    `principal` input; ids the database would generate are inputs too. */
module CourseActions {
  import opened Wrappers
  import opened Session
  import opened CourseSchema
  import opened Db
  import opened CourseData

  const NotAuthorised := "Not authorised!"
  const Unauthorised := "Unauthorised!"
  const CourseNotFound := "Can't find existing course!"

  /** The cache paths a course change revalidates, in order. */
  function CoursePaths(courseId: string): (r: seq<string>)
    ensures |r| == 3 && r[2] == "/courses/" + courseId
  {
    ["/", "/courses", "/courses/" + courseId]
  }

  method CreateCourse(db: Store, principal: Option<SessionUser>, freshId: string) returns (r: Result<string>)
    requires freshId !in db.courses
    modifies db`courses
    ensures ReadPrivilegedUser(principal, Admin).None? ==> r == Err(NotAuthorised) && db.courses == old(db.courses)
    ensures ReadPrivilegedUser(principal, Admin).Some? ==>
      r == Ok(freshId) && db.courses == old(db.courses)[freshId := CourseRow("", "", "", false, {})]
  {
    var user := ReadPrivilegedUser(principal, Admin);
    if user.None? {
      return Err(NotAuthorised);
    }
    db.courses := db.courses[freshId := CourseRow("", "", "", false, {})];
    return Ok(freshId);
  }

  /** What a save of the parsed payload `c` does to the tables: the course lookup, then the
      three steps against the snapshot read before them. */
  function SaveResult(t: Tables, tags: map<string, TagRow>, users: set<string>, c: CourseUpdate): Result<Tables>
  {
    if c.courseId !in t.courses then Err(CourseNotFound)
    else Pipeline(t, tags, users, c, SnapshotOf(t.modules, t.enrollments, c.courseId))
  }

  /** What `updateCourse` does to the tables, or the error it returns. */
  function UpdateCourseResult(principal: Option<SessionUser>, raw: RawCourse, isUrl: string -> bool,
                              t: Tables, tags: map<string, TagRow>, users: set<string>): Result<Tables>
  {
    if ReadPrivilegedUser(principal, Admin).None? then Err(NotAuthorised)
    else match ParseCourse(raw, isUrl)
      case Err(e) => Err(e)
      case Ok(c) => SaveResult(t, tags, users, c)
  }

  /** The body of the transaction: the three steps, stopping at the first failure. A failure
      may leave earlier writes behind; the caller rolls them back. */
  method RunSave(tx: Store, c: CourseUpdate, existing: CourseSnapshot) returns (r: Result<()>)
    modifies tx`courses, tx`modules, tx`enrollments
    ensures var out := Pipeline(old(tx.Saved()), tx.tags, tx.users.Keys, c, existing);
      (out.Ok? ==> r == Ok(()) && tx.Saved() == out.data) && (out.Err? ==> r == Err(out.error))
  {
    ghost var t := tx.Saved();
    r := UpdateCourseMetadata(tx, c, existing);
    if r.Err? {
      return;
    }
    ghost var courses := tx.courses;
    assert MetadataStep(t.courses, tx.tags, c, existing) == Ok(courses);
    r := DeleteExtraModules(tx, c, existing);
    if r.Err? {
      return;
    }
    assert DeleteStep(t.modules, t.enrollments, c, existing) == Ok((tx.modules, tx.enrollments));
    r := UpsertCourseModules(tx, c);
  }

  /** Looks the course up, runs the transaction, rolls it back on failure and revalidates on success. */
  method SaveCourse(db: Store, c: CourseUpdate) returns (r: Result<()>)
    modifies db
    ensures var out := SaveResult(old(db.Saved()), old(db.tags), old(db.users).Keys, c);
      && (out.Err? ==> r == Err(out.error) && unchanged(db))
      && (out.Ok? ==> r == Ok(()) && db.Saved() == out.data
                      && db.users == old(db.users) && db.tags == old(db.tags)
                      && db.revalidated == old(db.revalidated) + CoursePaths(c.courseId))
  {
    if c.courseId !in db.courses {
      return Err(CourseNotFound);
    }
    var existing := SnapshotOf(db.modules, db.enrollments, c.courseId);
    var saved := db.Saved();
    var res := RunSave(db, c, existing);
    if res.Err? {
      db.Restore(saved);
      return Err(res.error);
    }
    db.Revalidate("/");
    db.Revalidate("/courses");
    db.Revalidate("/courses/" + c.courseId);
    return Ok(());
  }

  method UpdateCourse(db: Store, principal: Option<SessionUser>, raw: RawCourse, isUrl: string -> bool)
    returns (r: Result<()>)
    modifies db
    ensures var out := UpdateCourseResult(principal, raw, isUrl, old(db.Saved()), old(db.tags), old(db.users).Keys);
      && (out.Err? ==> r == Err(out.error) && unchanged(db))
      && (out.Ok? ==> r == Ok(()) && db.Saved() == out.data
                      && db.users == old(db.users) && db.tags == old(db.tags)
                      && db.revalidated == old(db.revalidated) + CoursePaths(raw.courseId))
  {
    var user := ReadPrivilegedUser(principal, Admin);
    if user.None? {
      return Err(NotAuthorised);
    }
    var parsed := ParseCourse(raw, isUrl);
    if parsed.Err? {
      return Err(parsed.error);
    }
    r := SaveCourse(db, parsed.data);
  }

  /** Sending the payload of a successful save again succeeds and changes no table. */
  lemma UpdateCourseIdempotent(principal: Option<SessionUser>, raw: RawCourse, isUrl: string -> bool,
                               t: Tables, tags: map<string, TagRow>, users: set<string>, t': Tables)
    requires EnrollmentsReferToModules(t)
    requires UpdateCourseResult(principal, raw, isUrl, t, tags, users) == Ok(t')
    ensures UpdateCourseResult(principal, raw, isUrl, t', tags, users) == Ok(t')
  {
    var c := ParseCourse(raw, isUrl).data;
    ResaveIdempotent(t, tags, users, c, t');
    assert c.courseId in t'.courses;
  }

  /** Some module of the payload has id `m`. */
  predicate PayloadNames(raw: RawCourse, m: string)
  {
    exists i :: 0 <= i < |raw.modules| && raw.modules[i].moduleId == m
  }

  lemma SameModuleIds(raw: RawCourse, ps: seq<ModuleUpdate>)
    requires |ps| == |raw.modules| && forall i :: 0 <= i < |ps| ==> ps[i].moduleId == raw.modules[i].moduleId
    ensures forall m :: m in IdsOf(ps) <==> PayloadNames(raw, m)
  {
    forall m ensures m in IdsOf(ps) <==> PayloadNames(raw, m) {
      if m in IdsOf(ps) {
        var p :| p in ps && p.moduleId == m;
        var i :| 0 <= i < |ps| && ps[i] == p;
        assert raw.modules[i].moduleId == m;
      }
      if PayloadNames(raw, m) {
        var i :| 0 <= i < |raw.modules| && raw.modules[i].moduleId == m;
        assert ps[i] in ps;
      }
    }
  }

  /** A successful save leaves the course with exactly the payload's modules, less those that
      already belonged to another course. */
  lemma UpdateCourseModules(principal: Option<SessionUser>, raw: RawCourse, isUrl: string -> bool,
                            t: Tables, tags: map<string, TagRow>, users: set<string>, t': Tables)
    requires UpdateCourseResult(principal, raw, isUrl, t, tags, users) == Ok(t')
    ensures forall m :: m in t'.modules && t'.modules[m].courseId == raw.courseId <==>
      PayloadNames(raw, m) && (m in t.modules ==> t.modules[m].courseId == raw.courseId)
  {
    var parsed := ParseCourse(raw, isUrl);
    assert parsed.Ok?;
    var c := parsed.data;
    assert SaveResult(t, tags, users, c) == Ok(t');
    SavedCourseModules(t, tags, users, c, t');
    ParsedModuleIds(raw, isUrl);
    SameModuleIds(raw, c.modules);
  }

  lemma ParsedModuleIds(raw: RawCourse, isUrl: string -> bool)
    requires ParseCourse(raw, isUrl).Ok?
    ensures var ps := ParseCourse(raw, isUrl).data.modules;
      |ps| == |raw.modules| && forall i :: 0 <= i < |ps| ==> ps[i].moduleId == raw.modules[i].moduleId
  {
    forall i | 0 <= i < |raw.modules|
      ensures ParseModule(raw.modules[i]).Ok?
    {
      assert ValidModule(raw.modules[i]);
    }
  }

  /** `deleteCourse`: no enrollment check; an absent id deletes nothing and still succeeds. */
  method DeleteCourse(db: Store, principal: Option<SessionUser>, courseId: string) returns (r: Result<()>)
    modifies db`courses, db`modules, db`enrollments, db`revalidated
    ensures ReadPrivilegedUser(principal, Admin).None? ==> r == Err(Unauthorised) && unchanged(db)
    ensures ReadPrivilegedUser(principal, Admin).Some? ==>
      && r == Ok(())
      && db.courses == old(db.courses) - {courseId}
      && db.modules == old(db.modules) - ModulesOf(old(db.modules), courseId)
      && db.enrollments == EnrollmentsWithout(old(db.enrollments), ModulesOf(old(db.modules), courseId))
      && db.revalidated == old(db.revalidated) + CoursePaths(courseId)
  {
    var user := ReadPrivilegedUser(principal, Admin);
    if user.None? {
      return Err(Unauthorised);
    }
    db.DeleteCourseRow(courseId);
    db.Revalidate("/");
    db.Revalidate("/courses");
    db.Revalidate("/courses/" + courseId);
    return Ok(());
  }
}
