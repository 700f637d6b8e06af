/** The role gate (src/lib/data/user.ts). The session lookup itself belongs to the
    authentication library; its result, the signed-in user if any, is an input here. */
module Session {
  import opened Wrappers

  /** The user object carried by the session: its id and the role level stored with it. */
  datatype SessionUser = SessionUser(id: string, roleLevel: int)

  const Student := 1
  const Teacher := 2
  const Admin := 3
  const Owner := 4

  /** `readPrivilegedUser(level)`: the session user when there is one whose level reaches `level`. */
  function ReadPrivilegedUser(session: Option<SessionUser>, level: int): (r: Option<SessionUser>)
    ensures session.None? ==> r.None?
    ensures session.Some? && session.value.roleLevel < level ==> r.None?
    ensures session.Some? && session.value.roleLevel >= level ==> r == session
  {
    if session.None? || session.value.roleLevel < level then None else session
  }

  /** The gate is monotone: a user admitted at some level is admitted, unchanged, at every lower one. */
  lemma PrivilegeMonotone(session: Option<SessionUser>, k: int, j: int)
    requires j <= k && ReadPrivilegedUser(session, k).Some?
    ensures ReadPrivilegedUser(session, j) == ReadPrivilegedUser(session, k)
  {
  }
}
