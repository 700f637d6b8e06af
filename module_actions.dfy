/** The module server actions (src/lib/actions/module.ts): a teacher or an administrator
    replaces a module's description and content list; an administrator removes a teacher
    from a module. */
module ModuleActions {
  import opened Wrappers
  import opened Session
  import opened ModuleSchema
  import opened Db

  const NotAuthorised := "Not authorised!"
  const ModuleNotFound := "Can't find existing module!"
  const RemoveNotAuthorised := "Not authorised"
  const BadDataShape := "Bad data shape"
  const TeacherNotOnModule := "No module found with this teacher"

  /** Ownership rule: administrators edit any module, teachers only those they teach. */
  predicate MayEditModule(user: SessionUser, row: ModuleRow)
  {
    user.roleLevel >= Admin || user.id in row.teachers
  }

  method UpdateModule(db: Store, principal: Option<SessionUser>, raw: RawModuleUpdate, isUrl: string -> bool)
    returns (r: Result<()>)
    modifies db`modules, db`revalidated
    ensures var gate := ReadPrivilegedUser(principal, Teacher);
            var parsed := ParseModuleUpdate(raw, isUrl);
      if gate.None? then r == Err(NotAuthorised) && unchanged(db)
      else if parsed.Err? then r == Err(parsed.error) && unchanged(db)
      else if raw.moduleId !in old(db.modules) then r == Err(ModuleNotFound) && unchanged(db)
      else if !MayEditModule(gate.value, old(db.modules)[raw.moduleId]) then r == Err(NotAuthorised) && unchanged(db)
      else
        var row := old(db.modules)[raw.moduleId];
        && r == Ok(())
        && db.modules == old(db.modules)[raw.moduleId := row.(description := raw.description, contents := parsed.data.contents)]
        && db.revalidated == old(db.revalidated) + ["/courses/" + row.courseId]
  {
    var user := ReadPrivilegedUser(principal, Teacher);
    if user.None? {
      return Err(NotAuthorised);
    }
    var parsed := ParseModuleUpdate(raw, isUrl);
    if parsed.Err? {
      return Err(parsed.error);
    }
    var m := parsed.data;
    if m.moduleId !in db.modules {
      return Err(ModuleNotFound);
    }
    var existing := db.modules[m.moduleId];
    if user.value.roleLevel < Admin && user.value.id !in existing.teachers {
      return Err(NotAuthorised);
    }
    db.UpdateModuleDescription(m.moduleId, m.description);
    db.ReplaceContents(m.moduleId, m.contents);
    db.Revalidate("/courses/" + existing.courseId);
    return Ok(());
  }

  method RemoveTeacherFromModule(db: Store, principal: Option<SessionUser>, d: RawRemoveTeacher)
    returns (r: Result<()>)
    modifies db`modules
    ensures var gate := ReadPrivilegedUser(principal, Admin);
      if gate.None? then r == Err(RemoveNotAuthorised) && unchanged(db)
      else if ParseRemoveTeacher(d).Err? then r == Err(BadDataShape) && unchanged(db)
      else if d.moduleId !in old(db.modules) || d.teacherId !in old(db.modules)[d.moduleId].teachers then
        r == Err(TeacherNotOnModule) && unchanged(db)
      else
        var row := old(db.modules)[d.moduleId];
        r == Ok(()) && db.modules == old(db.modules)[d.moduleId := row.(teachers := row.teachers - {d.teacherId})]
  {
    var user := ReadPrivilegedUser(principal, Admin);
    if user.None? {
      return Err(RemoveNotAuthorised);
    }
    var parsed := ParseRemoveTeacher(d);
    if parsed.Err? {
      return Err(BadDataShape);
    }
    if parsed.data.moduleId !in db.modules || parsed.data.teacherId !in db.modules[parsed.data.moduleId].teachers {
      return Err(TeacherNotOnModule);
    }
    db.DisconnectTeacher(parsed.data.moduleId, parsed.data.teacherId);
    return Ok(());
  }
}
