/** The relational store the actions read and write, as in-memory tables keyed by primary id,
    plus the log of cache paths the actions ask to revalidate. Each method models one storage
    operation the source issues. A variant and a content item belong to their module row, so
    deleting the module removes them; deleting a module also removes its enrollments. */
module Db {
  import opened Wrappers
  import opened Enums
  import opened CourseSchema
  import opened ModuleSchema

  datatype CourseRow = CourseRow(
    title: string, description: string, thumbnailUrl: string, isPublic: bool, tagIds: set<string>)

  datatype ModuleRow = ModuleRow(
    courseId: string, title: string, description: string, index: real,
    teachers: set<string>, variants: seq<Variant>, contents: seq<Content>)

  datatype UserRow = UserRow(
    email: string, name: string, image: Option<string>, bio: Option<string>, roleLevel: int)

  datatype TagRow = TagRow(name: string, tagType: TagType)

  datatype EnrollmentRow = EnrollmentRow(
    studentId: string, moduleId: string, variantType: VariantType, pricePaid: int)

  /** The tables a course update writes, as saved at the start of its transaction. */
  datatype Tables = Tables(
    courses: map<string, CourseRow>, modules: map<string, ModuleRow>, enrollments: map<string, EnrollmentRow>)

  /** The error a storage operation raises when a row it updates, connects or references is missing. */
  const MissingRecord := "A record required by the operation was not found"

  /** Ids of the enrollments in module `moduleId`. */
  function EnrollmentsOf(enrollments: map<string, EnrollmentRow>, moduleId: string): (r: set<string>)
    ensures forall e :: e in r <==> e in enrollments && enrollments[e].moduleId == moduleId
  {
    set e | e in enrollments && enrollments[e].moduleId == moduleId
  }

  /** The enrollments left after the modules in `gone` are deleted. */
  function EnrollmentsWithout(enrollments: map<string, EnrollmentRow>, gone: set<string>): (r: map<string, EnrollmentRow>)
    ensures forall e :: e in r <==> e in enrollments && enrollments[e].moduleId !in gone
    ensures forall e :: e in r ==> r[e] == enrollments[e]
  {
    map e | e in enrollments && enrollments[e].moduleId !in gone :: enrollments[e]
  }

  /** Ids of the tags whose names are listed. */
  function TagIdsNamed(tags: map<string, TagRow>, names: set<string>): (r: set<string>)
    ensures forall id :: id in r <==> id in tags && tags[id].name in names
  {
    set id | id in tags && tags[id].name in names
  }

  /** Ids of the modules of course `courseId`. */
  function ModulesOf(modules: map<string, ModuleRow>, courseId: string): (r: set<string>)
    ensures forall m :: m in r <==> m in modules && modules[m].courseId == courseId
  {
    set m | m in modules && modules[m].courseId == courseId
  }

  predicate NamesResolve(tags: map<string, TagRow>, names: set<string>)
  {
    forall n :: n in names ==> exists id :: id in tags && tags[id].name == n
  }

  class Store {
    var courses: map<string, CourseRow>
    var modules: map<string, ModuleRow>
    var users: map<string, UserRow>
    var tags: map<string, TagRow>
    var enrollments: map<string, EnrollmentRow>
    /** Every path passed to the cache revalidation call, in order. */
    var revalidated: seq<string>

    constructor ()
      ensures courses == map[] && modules == map[] && users == map[] && tags == map[]
      ensures enrollments == map[] && revalidated == []
    {
      courses, modules, users, tags, enrollments := map[], map[], map[], map[], map[];
      revalidated := [];
    }

    function Saved(): (t: Tables)
      reads this
      ensures t.courses == courses && t.modules == modules && t.enrollments == enrollments
    {
      Tables(courses, modules, enrollments)
    }

    /** Rolls a transaction back to the tables saved when it began. */
    method Restore(t: Tables)
      modifies this`courses, this`modules, this`enrollments
      ensures Saved() == t
    {
      courses, modules, enrollments := t.courses, t.modules, t.enrollments;
    }

    method Revalidate(path: string)
      modifies this`revalidated
      ensures revalidated == old(revalidated) + [path]
    {
      revalidated := revalidated + [path];
    }

    /** Updates a course's fields and sets its tag relation to the tags with the given names;
        fails, writing nothing, when the course or one of the names is missing. */
    method UpdateCourseRow(courseId: string, title: string, description: string, thumbnailUrl: string,
                           isPublic: bool, tagNames: set<string>) returns (ok: bool)
      modifies this`courses
      ensures ok <==> courseId in old(courses) && NamesResolve(tags, tagNames)
      ensures ok ==> courses == old(courses)[courseId := CourseRow(title, description, thumbnailUrl, isPublic,
                                                                    TagIdsNamed(tags, tagNames))]
      ensures !ok ==> courses == old(courses)
    {
      ok := courseId in courses && NamesResolve(tags, tagNames);
      if ok {
        courses := courses[courseId := CourseRow(title, description, thumbnailUrl, isPublic, TagIdsNamed(tags, tagNames))];
      }
    }

    /** Deletes a module row; its variants, contents and enrollments go with it. */
    method DeleteModuleRow(moduleId: string)
      modifies this`modules, this`enrollments
      ensures modules == old(modules) - {moduleId}
      ensures enrollments == EnrollmentsWithout(old(enrollments), {moduleId})
    {
      modules := modules - {moduleId};
      enrollments := EnrollmentsWithout(enrollments, {moduleId});
    }

    /** Deletes the course with this id, if any; its modules, and their enrollments, go with it. */
    method DeleteCourseRow(courseId: string)
      modifies this`courses, this`modules, this`enrollments
      ensures courses == old(courses) - {courseId}
      ensures modules == old(modules) - ModulesOf(old(modules), courseId)
      ensures enrollments == EnrollmentsWithout(old(enrollments), ModulesOf(old(modules), courseId))
    {
      var gone := ModulesOf(modules, courseId);
      courses := courses - {courseId};
      modules := modules - gone;
      enrollments := EnrollmentsWithout(enrollments, gone);
    }

    /** Upsert by module id. An existing row gets the new index, title, description and teacher
        set and keeps its course; a new row is created in `courseId`. Fails, writing nothing,
        when a teacher id names no user. */
    method UpsertModuleRow(moduleId: string, courseId: string, index: real, title: string,
                           description: string, teacherIds: set<string>) returns (ok: bool)
      modifies this`modules
      ensures ok <==> teacherIds <= users.Keys
      ensures ok && moduleId in old(modules) ==>
        modules == old(modules)[moduleId := old(modules)[moduleId].(index := index, title := title,
                                             description := description, teachers := teacherIds)]
      ensures ok && moduleId !in old(modules) ==>
        modules == old(modules)[moduleId := ModuleRow(courseId, title, description, index, teacherIds, [], [])]
      ensures !ok ==> modules == old(modules)
    {
      ok := teacherIds <= users.Keys;
      if !ok {
        return;
      }
      if moduleId in modules {
        modules := modules[moduleId := modules[moduleId].(index := index, title := title,
                                                          description := description, teachers := teacherIds)];
      } else {
        modules := modules[moduleId := ModuleRow(courseId, title, description, index, teacherIds, [], [])];
      }
    }

    method UpdateModuleDescription(moduleId: string, description: string)
      requires moduleId in modules
      modifies this`modules
      ensures modules == old(modules)[moduleId := old(modules)[moduleId].(description := description)]
    {
      modules := modules[moduleId := modules[moduleId].(description := description)];
    }

    /** Deletes all of a module's content items, then inserts the given ones. */
    method ReplaceContents(moduleId: string, contents: seq<Content>)
      requires moduleId in modules
      modifies this`modules
      ensures modules == old(modules)[moduleId := old(modules)[moduleId].(contents := contents)]
    {
      modules := modules[moduleId := modules[moduleId].(contents := contents)];
    }

    /** Removes one teacher from a module's teacher relation. */
    method DisconnectTeacher(moduleId: string, teacherId: string)
      requires moduleId in modules
      modifies this`modules
      ensures modules == old(modules)[moduleId := old(modules)[moduleId].(teachers := old(modules)[moduleId].teachers - {teacherId})]
    {
      modules := modules[moduleId := modules[moduleId].(teachers := modules[moduleId].teachers - {teacherId})];
    }

    /** Deletes all of a module's variants, then inserts the given ones. */
    method ReplaceVariants(moduleId: string, variants: seq<Variant>)
      requires moduleId in modules
      modifies this`modules
      ensures modules == old(modules)[moduleId := old(modules)[moduleId].(variants := variants)]
    {
      modules := modules[moduleId := modules[moduleId].(variants := variants)];
    }
  }
}
