/** The three steps of a course save (src/lib/data/course.ts), each run against the open
    transaction. Each step is a method on the store, proved against a function that gives its
    outcome from the state before it; `Pipeline` chains the three functions. */
module CourseData {
  import opened Wrappers
  import opened CourseSchema
  import opened Db

  /** What the action reads before its transaction: the course id and, for each module of
      the course, the ids of its enrollments. */
  datatype CourseSnapshot = CourseSnapshot(courseId: string, modules: map<string, set<string>>)

  const HideBlocked := "Can't hide a course with enrolled students!"
  const DeleteBlocked := "Cannot delete a module with enrolled students!"

  function SnapshotOf(modules: map<string, ModuleRow>, enrollments: map<string, EnrollmentRow>,
                      courseId: string): (s: CourseSnapshot)
    ensures s.courseId == courseId
    ensures forall m :: m in s.modules <==> m in modules && modules[m].courseId == courseId
    ensures forall m :: m in s.modules ==> s.modules[m] == EnrollmentsOf(enrollments, m)
  {
    CourseSnapshot(courseId, map m | m in modules && modules[m].courseId == courseId :: EnrollmentsOf(enrollments, m))
  }

  // ---------------------------------------------------------------- metadata

  /** The save hides the course while one of its modules has an enrollment; the course's
      current visibility plays no part. */
  predicate HidesEnrolled(c: CourseUpdate, snap: CourseSnapshot)
  {
    !c.isPublic && exists m :: m in snap.modules && snap.modules[m] != {}
  }

  function TagNames(c: CourseUpdate): set<string>
  {
    set t | t in c.tags :: t.name
  }

  /** Outcome of `updateCourseMetadata` on the course table. */
  function MetadataStep(courses: map<string, CourseRow>, tags: map<string, TagRow>,
                        c: CourseUpdate, snap: CourseSnapshot): (r: Result<map<string, CourseRow>>)
    ensures HidesEnrolled(c, snap) ==> r == Err(HideBlocked)
    ensures !HidesEnrolled(c, snap) ==>
      (r.Ok? <==> snap.courseId in courses && NamesResolve(tags, TagNames(c)))
    ensures r.Err? && !HidesEnrolled(c, snap) ==> r.error == MissingRecord
    ensures r.Ok? ==>
      && r.data.Keys == courses.Keys
      && (forall k :: k in courses && k != snap.courseId ==> r.data[k] == courses[k])
      && var row := r.data[snap.courseId];
         && row.title == c.title && row.description == c.description
         && row.thumbnailUrl == c.thumbnailUrl && row.isPublic == c.isPublic
         && (forall id :: id in row.tagIds <==> id in tags && tags[id].name in TagNames(c))
  {
    if HidesEnrolled(c, snap) then Err(HideBlocked)
    else if snap.courseId !in courses || !NamesResolve(tags, TagNames(c)) then Err(MissingRecord)
    else Ok(courses[snap.courseId := CourseRow(c.title, c.description, c.thumbnailUrl, c.isPublic,
                                               TagIdsNamed(tags, TagNames(c)))])
  }

  method UpdateCourseMetadata(tx: Store, newCourse: CourseUpdate, oldCourse: CourseSnapshot) returns (r: Result<()>)
    modifies tx`courses
    ensures var out := MetadataStep(old(tx.courses), tx.tags, newCourse, oldCourse);
      if out.Ok? then r == Ok(()) && tx.courses == out.data
      else r == Err(out.error) && tx.courses == old(tx.courses)
  {
    if HidesEnrolled(newCourse, oldCourse) {
      return Err(HideBlocked);
    }
    var ok := tx.UpdateCourseRow(oldCourse.courseId, newCourse.title, newCourse.description,
                                 newCourse.thumbnailUrl, newCourse.isPublic, TagNames(newCourse));
    if !ok {
      return Err(MissingRecord);
    }
    return Ok(());
  }

  // ---------------------------------------------------------------- deletion

  function IdsOf(ps: seq<ModuleUpdate>): set<string>
  {
    set p | p in ps :: p.moduleId
  }

  /** The course's old modules that no module of the payload names. */
  function ModulesToDelete(snap: CourseSnapshot, c: CourseUpdate): (r: set<string>)
    ensures forall m :: m in r <==>
      m in snap.modules && forall i :: 0 <= i < |c.modules| ==> c.modules[i].moduleId != m
  {
    set m | m in snap.modules && m !in IdsOf(c.modules)
  }

  predicate DeletesEnrolled(snap: CourseSnapshot, c: CourseUpdate)
  {
    exists m :: m in ModulesToDelete(snap, c) && snap.modules[m] != {}
  }

  /** Outcome of `deleteExtraModules` on the module and enrollment tables. */
  function DeleteStep(modules: map<string, ModuleRow>, enrollments: map<string, EnrollmentRow>,
                      c: CourseUpdate, snap: CourseSnapshot): (r: Result<(map<string, ModuleRow>, map<string, EnrollmentRow>)>)
    ensures r.Err? <==> DeletesEnrolled(snap, c)
    ensures r.Err? ==> r.error == DeleteBlocked
    ensures r.Ok? ==>
      && (forall m :: m in r.data.0 <==> m in modules && m !in ModulesToDelete(snap, c))
      && (forall m :: m in r.data.0 ==> r.data.0[m] == modules[m])
      && (forall i :: 0 <= i < |c.modules| && c.modules[i].moduleId in modules ==>
            c.modules[i].moduleId in r.data.0)
      && r.data.1 == EnrollmentsWithout(enrollments, ModulesToDelete(snap, c))
  {
    if DeletesEnrolled(snap, c) then Err(DeleteBlocked)
    else
      var gone := ModulesToDelete(snap, c);
      Ok((modules - gone, EnrollmentsWithout(enrollments, gone)))
  }

  lemma EnrollmentsWithoutAdd(enrollments: map<string, EnrollmentRow>, gone: set<string>, m: string)
    ensures EnrollmentsWithout(EnrollmentsWithout(enrollments, gone), {m}) == EnrollmentsWithout(enrollments, gone + {m})
  {
  }

  /** The first loop of `deleteExtraModules`: none of the modules to delete has an enrollment. */
  method NoneEnrolled(snap: CourseSnapshot, toDelete: set<string>) returns (ok: bool)
    requires toDelete <= snap.modules.Keys
    ensures ok <==> forall m :: m in toDelete ==> snap.modules[m] == {}
  {
    var pending := toDelete;
    while pending != {}
      invariant pending <= toDelete
      invariant forall m :: m in toDelete - pending ==> snap.modules[m] == {}
      decreases |pending|
    {
      var m :| m in pending;
      if snap.modules[m] != {} {
        return false;
      }
      pending := pending - {m};
    }
    return true;
  }

  /** The second loop: one module deletion per module. */
  method DeleteModules(tx: Store, toDelete: set<string>)
    modifies tx`modules, tx`enrollments
    ensures tx.modules == old(tx.modules) - toDelete
    ensures tx.enrollments == EnrollmentsWithout(old(tx.enrollments), toDelete)
  {
    var pending := toDelete;
    while pending != {}
      invariant pending <= toDelete
      invariant tx.modules == old(tx.modules) - (toDelete - pending)
      invariant tx.enrollments == EnrollmentsWithout(old(tx.enrollments), toDelete - pending)
      decreases |pending|
    {
      var m :| m in pending;
      EnrollmentsWithoutAdd(old(tx.enrollments), toDelete - pending, m);
      tx.DeleteModuleRow(m);
      assert toDelete - (pending - {m}) == (toDelete - pending) + {m};
      pending := pending - {m};
    }
  }

  method DeleteExtraModules(tx: Store, newCourse: CourseUpdate, oldCourse: CourseSnapshot) returns (r: Result<()>)
    modifies tx`modules, tx`enrollments
    ensures var out := DeleteStep(old(tx.modules), old(tx.enrollments), newCourse, oldCourse);
      if out.Ok? then r == Ok(()) && tx.modules == out.data.0 && tx.enrollments == out.data.1
      else r == Err(out.error) && tx.modules == old(tx.modules) && tx.enrollments == old(tx.enrollments)
  {
    var toDelete := ModulesToDelete(oldCourse, newCourse);
    var ok := NoneEnrolled(oldCourse, toDelete);
    if !ok {
      return Err(DeleteBlocked);
    }
    DeleteModules(tx, toDelete);
    return Ok(());
  }

  // ---------------------------------------------------------------- upsert

  function TeacherSet(p: ModuleUpdate): set<string>
  {
    set t | t in p.teacherIds
  }

  /** The row the upsert leaves for payload module `p`: an existing row keeps its course and
      contents; a new row is created in `courseId` with no contents. */
  function UpsertedRow(modules: map<string, ModuleRow>, courseId: string, p: ModuleUpdate): ModuleRow
  {
    if p.moduleId in modules then
      modules[p.moduleId].(title := p.title, description := p.description, index := p.index,
                           teachers := TeacherSet(p), variants := p.variants)
    else
      ModuleRow(courseId, p.title, p.description, p.index, TeacherSet(p), p.variants, [])
  }

  function UpsertModule(modules: map<string, ModuleRow>, courseId: string, p: ModuleUpdate): map<string, ModuleRow>
  {
    modules[p.moduleId := UpsertedRow(modules, courseId, p)]
  }

  /** The module table after upserting the payload modules in order. */
  function UpsertAll(modules: map<string, ModuleRow>, courseId: string, ps: seq<ModuleUpdate>): map<string, ModuleRow>
    decreases |ps|
  {
    if ps == [] then modules
    else UpsertModule(UpsertAll(modules, courseId, ps[..|ps| - 1]), courseId, ps[|ps| - 1])
  }

  predicate TeachersExist(users: set<string>, ps: seq<ModuleUpdate>)
  {
    forall i :: 0 <= i < |ps| ==> TeacherSet(ps[i]) <= users
  }

  /** Outcome of `upsertCourseModules`: the upsert of a module whose teacher is not a user
      fails, and the caller's rollback discards the modules written before it. */
  function UpsertStep(modules: map<string, ModuleRow>, users: set<string>, c: CourseUpdate): Result<map<string, ModuleRow>>
  {
    if TeachersExist(users, c.modules) then Ok(UpsertAll(modules, c.courseId, c.modules))
    else Err(MissingRecord)
  }

  method UpsertCourseModules(tx: Store, newCourse: CourseUpdate) returns (r: Result<()>)
    modifies tx`modules
    ensures r.Ok? <==> TeachersExist(tx.users.Keys, newCourse.modules)
    ensures r.Ok? ==> r == Ok(()) && tx.modules == UpsertAll(old(tx.modules), newCourse.courseId, newCourse.modules)
    ensures r.Err? ==> r.error == MissingRecord
    ensures r.Err? ==> exists k :: 0 <= k < |newCourse.modules| && !(TeacherSet(newCourse.modules[k]) <= tx.users.Keys) &&
                                   tx.modules == UpsertAll(old(tx.modules), newCourse.courseId, newCourse.modules[..k])
  {
    var ps := newCourse.modules;
    var i := 0;
    while i < |ps|
      invariant 0 <= i <= |ps|
      invariant tx.modules == UpsertAll(old(tx.modules), newCourse.courseId, ps[..i])
      invariant forall j :: 0 <= j < i ==> TeacherSet(ps[j]) <= tx.users.Keys
    {
      var m := ps[i];
      var ok := tx.UpsertModuleRow(m.moduleId, newCourse.courseId, m.index, m.title, m.description, TeacherSet(m));
      if !ok {
        return Err(MissingRecord);
      }
      tx.ReplaceVariants(m.moduleId, m.variants);
      assert ps[..i + 1][..i] == ps[..i];
      i := i + 1;
    }
    assert ps[..i] == ps;
    return Ok(());
  }

  /** The index of the last payload module with id `id`. */
  function LastIndexOf(ps: seq<ModuleUpdate>, id: string): (k: nat)
    requires id in IdsOf(ps)
    ensures k < |ps| && ps[k].moduleId == id
    ensures forall j :: k < j < |ps| ==> ps[j].moduleId != id
    decreases |ps|
  {
    if ps[|ps| - 1].moduleId == id then |ps| - 1
    else
      assert ps == ps[..|ps| - 1] + [ps[|ps| - 1]];
      assert id in IdsOf(ps[..|ps| - 1]);
      LastIndexOf(ps[..|ps| - 1], id)
  }

  /** After the upsert, a module exists iff it existed or the payload names it; a module the
      payload does not name is untouched; a named module holds the fields of the LAST payload
      entry with its id, on top of its original row (so it never changes course). */
  lemma {:induction false} UpsertAllAt(modules: map<string, ModuleRow>, courseId: string, ps: seq<ModuleUpdate>, id: string)
    ensures id in UpsertAll(modules, courseId, ps) <==> id in modules || id in IdsOf(ps)
    ensures id !in IdsOf(ps) && id in modules ==> UpsertAll(modules, courseId, ps)[id] == modules[id]
    ensures id in IdsOf(ps) ==> UpsertAll(modules, courseId, ps)[id] == UpsertedRow(modules, courseId, ps[LastIndexOf(ps, id)])
    decreases |ps|
  {
    if ps == [] {
    } else {
      var q, p := ps[..|ps| - 1], ps[|ps| - 1];
      assert ps == q + [p];
      assert IdsOf(ps) == IdsOf(q) + {p.moduleId};
      UpsertAllAt(modules, courseId, q, id);
      if p.moduleId == id {
        var mid := UpsertAll(modules, courseId, q);
        if id in IdsOf(q) {
          assert mid[id] == UpsertedRow(modules, courseId, q[LastIndexOf(q, id)]);
        }
        assert UpsertedRow(mid, courseId, p) == UpsertedRow(modules, courseId, p);
      } else {
        if id in IdsOf(ps) {
          assert id in IdsOf(q);
          assert LastIndexOf(ps, id) == LastIndexOf(q, id);
        }
      }
    }
  }

  /** Saving the same modules a second time changes nothing. */
  lemma UpsertAllIdempotent(modules: map<string, ModuleRow>, courseId: string, ps: seq<ModuleUpdate>)
    ensures UpsertAll(UpsertAll(modules, courseId, ps), courseId, ps) == UpsertAll(modules, courseId, ps)
  {
    var once := UpsertAll(modules, courseId, ps);
    var twice := UpsertAll(once, courseId, ps);
    forall id
      ensures id in twice <==> id in once
      ensures id in once ==> twice[id] == once[id]
    {
      UpsertAllAt(modules, courseId, ps, id);
      UpsertAllAt(once, courseId, ps, id);
    }
  }

  // ---------------------------------------------------------------- the whole save

  /** The tables after the three steps, or the first step's error. */
  function Pipeline(t: Tables, tags: map<string, TagRow>, users: set<string>, c: CourseUpdate,
                    snap: CourseSnapshot): Result<Tables>
  {
    match MetadataStep(t.courses, tags, c, snap)
    case Err(e) => Err(e)
    case Ok(courses) =>
      match DeleteStep(t.modules, t.enrollments, c, snap)
      case Err(e) => Err(e)
      case Ok((modules, enrollments)) =>
        match UpsertStep(modules, users, c)
        case Err(e) => Err(e)
        case Ok(modules') => Ok(Tables(courses, modules', enrollments))
  }

  /** After a save, the course's modules are exactly the payload's modules, less any payload
      id that already belonged to another course (the upsert does not move it). */
  lemma SavedCourseModules(t: Tables, tags: map<string, TagRow>, users: set<string>, c: CourseUpdate, t': Tables)
    requires Pipeline(t, tags, users, c, SnapshotOf(t.modules, t.enrollments, c.courseId)) == Ok(t')
    ensures forall m :: m in t'.modules && t'.modules[m].courseId == c.courseId <==>
      m in IdsOf(c.modules) && (m in t.modules ==> t.modules[m].courseId == c.courseId)
  {
    var snap := SnapshotOf(t.modules, t.enrollments, c.courseId);
    var mid := DeleteStep(t.modules, t.enrollments, c, snap).data.0;
    forall m
      ensures m in t'.modules && t'.modules[m].courseId == c.courseId <==>
        m in IdsOf(c.modules) && (m in t.modules ==> t.modules[m].courseId == c.courseId)
    {
      UpsertAllAt(mid, c.courseId, c.modules, m);
      if m in IdsOf(c.modules) && m in t.modules {
        var k :| 0 <= k < |c.modules| && c.modules[k].moduleId == m;
        assert m in mid;
      }
    }
  }

  predicate EnrollmentsReferToModules(t: Tables)
  {
    forall e :: e in t.enrollments ==> t.enrollments[e].moduleId in t.modules
  }

  /** A save that succeeds leaves no enrollment in a module of the course: either it was in a
      module of the course, which could then not be hidden or deleted, or the module stays in
      another course. So the course can be hidden again. */
  lemma ResaveCanHide(t: Tables, tags: map<string, TagRow>, users: set<string>, c: CourseUpdate, t': Tables)
    requires EnrollmentsReferToModules(t)
    requires Pipeline(t, tags, users, c, SnapshotOf(t.modules, t.enrollments, c.courseId)) == Ok(t')
    ensures !HidesEnrolled(c, SnapshotOf(t'.modules, t'.enrollments, c.courseId))
  {
    var snap := SnapshotOf(t.modules, t.enrollments, c.courseId);
    var snap' := SnapshotOf(t'.modules, t'.enrollments, c.courseId);
    var mid := DeleteStep(t.modules, t.enrollments, c, snap).data.0;
    assert t'.modules == UpsertAll(mid, c.courseId, c.modules);
    if !c.isPublic {
      forall m | m in snap'.modules
        ensures snap'.modules[m] == {}
      {
        UpsertAllAt(mid, c.courseId, c.modules, m);
      }
    }
  }

  lemma MetadataResave(courses: map<string, CourseRow>, tags: map<string, TagRow>, c: CourseUpdate,
                       snap: CourseSnapshot, snap': CourseSnapshot, courses': map<string, CourseRow>)
    requires MetadataStep(courses, tags, c, snap) == Ok(courses')
    requires snap'.courseId == snap.courseId && !HidesEnrolled(c, snap')
    ensures MetadataStep(courses', tags, c, snap') == Ok(courses')
  {
    var row := CourseRow(c.title, c.description, c.thumbnailUrl, c.isPublic, TagIdsNamed(tags, TagNames(c)));
    assert courses' == courses[snap.courseId := row];
    assert courses'[snap.courseId := row] == courses';
  }

  lemma DeleteNothing(modules: map<string, ModuleRow>, enrollments: map<string, EnrollmentRow>,
                      c: CourseUpdate, snap: CourseSnapshot)
    requires ModulesToDelete(snap, c) == {}
    ensures DeleteStep(modules, enrollments, c, snap) == Ok((modules, enrollments))
  {
    assert EnrollmentsWithout(enrollments, {}) == enrollments;
    assert modules - {} == modules;
  }

  /** Saving a payload a second time, against a fresh snapshot of the state the first save
      left, succeeds and leaves that state as it is. */
  lemma ResaveIdempotent(t: Tables, tags: map<string, TagRow>, users: set<string>, c: CourseUpdate, t': Tables)
    requires EnrollmentsReferToModules(t)
    requires Pipeline(t, tags, users, c, SnapshotOf(t.modules, t.enrollments, c.courseId)) == Ok(t')
    ensures Pipeline(t', tags, users, c, SnapshotOf(t'.modules, t'.enrollments, c.courseId)) == Ok(t')
  {
    var snap := SnapshotOf(t.modules, t.enrollments, c.courseId);
    var snap' := SnapshotOf(t'.modules, t'.enrollments, c.courseId);
    var mid := DeleteStep(t.modules, t.enrollments, c, snap).data.0;
    assert t'.modules == UpsertAll(mid, c.courseId, c.modules);
    ResaveCanHide(t, tags, users, c, t');
    MetadataResave(t.courses, tags, c, snap, snap', t'.courses);
    SavedCourseModules(t, tags, users, c, t');
    assert ModulesToDelete(snap', c) == {};
    DeleteNothing(t'.modules, t'.enrollments, c, snap');
    UpsertAllIdempotent(mid, c.courseId, c.modules);
    assert UpsertStep(t'.modules, users, c) == Ok(t'.modules);
  }
}
