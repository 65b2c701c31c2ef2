/** The table-driven user manager (user_management.py): a fixed role table,
    the logged-in user, login against the users table, permission checks and
    the operation log. */
module UserManagement {
  import opened Wrappers
  import opened Accounts

  /** One entry of the role table: a display name and a permission list. */
  datatype RoleInfo = RoleInfo(name: string, permissions: seq<string>)

  const ROLES: map<string, RoleInfo> := map[
    "admin" := RoleInfo("管理员", ["user_manage", "waste_manage", "standard_manage", "optimization", "backup", "log_view"]),
    "operator" := RoleInfo("操作员", ["waste_manage", "standard_manage", "optimization"]),
    "viewer" := RoleInfo("查看者", ["waste_view", "standard_view", "optimization_view"])
  ]

  /** ROLES.get(role, {}).get('permissions', []): the role's list, empty for
      a role the table does not know. */
  function RolePermissions(role: string): (perms: seq<string>)
    ensures role !in ROLES ==> perms == []
  {
    if role in ROLES then ROLES[role].permissions else []
  }

  /** The login query's WHERE clause: same name, same password, and an
      is_active column that is NULL or true. */
  predicate Admits(row: UserRow, username: string, password: string)
  {
    row.username == username && row.password == password && (row.isActive.None? || row.isActive == Some(true))
  }

  /** The row the login query returns, if any. */
  function Lookup(users: seq<UserRow>, username: string, password: string): (r: Option<UserRow>)
    ensures r.None? <==> forall i :: 0 <= i < |users| ==> !Admits(users[i], username, password)
    ensures r.Some? ==> r.value in users && Admits(r.value, username, password)
  {
    FirstAdmitted(users, row => Admits(row, username, password))
  }

  /** What log_operation does with one call. */
  datatype LogWrite =
    | Skipped                                                               // nobody logged in
    | Inserted(userId: int, username: string, operation: string, details: string)  // a row of operation_logs
    | Console(line: string)                                                 // the fallback print

  class UserManager {
    /** The logged-in user; None until a login succeeds. */
    var currentUser: Option<SessionUser>

    /** A fresh manager has nobody logged in. */
    constructor ()
      ensures currentUser == None
    {
      currentUser := None;
    }

    /** Log in: on a matching row remember its id, username, role and
        email and answer true; otherwise, or when the database cannot be
        reached, answer false and keep whoever was logged in before. */
    method AuthenticateUser(db: Database, username: string, password: string) returns (ok: bool)
      modifies this
      ensures ok <==> db.Reachable? && Lookup(db.users, username, password).Some?
      ensures ok ==> currentUser == Some(SessionOf(Lookup(db.users, username, password).value))
      ensures !ok ==> currentUser == old(currentUser)
    {
      if db.Unreachable? {
        return false;
      }
      var found := Lookup(db.users, username, password);
      if found.Some? {
        currentUser := Some(SessionOf(found.value));
        return true;
      }
      return false;
    }

    /** Nobody logged in: no permission; otherwise the permission must be
        in the list the role table gives the user's role. */
    function HasPermission(permission: string): (granted: bool)
      reads this
      ensures currentUser.None? ==> !granted
      ensures granted <==> currentUser.Some? && currentUser.value.role in ROLES &&
                           permission in ROLES[currentUser.value.role].permissions
    {
      currentUser.Some? && permission in RolePermissions(currentUser.value.role)
    }

    /** Record an operation for the logged-in user: nothing without one, a
        row of operation_logs when the database is reachable, a console line
        otherwise. */
    method LogOperation(db: Database, operation: string, details: string) returns (write: LogWrite)
      ensures write == Skipped <==> currentUser.None?
      ensures currentUser.Some? && db.Reachable? ==>
                write == Inserted(currentUser.value.id, currentUser.value.username, operation, details)
      ensures currentUser.Some? && db.Unreachable? ==>
                write == Console("操作日志: " + currentUser.value.username + " - " + operation + " - " + details)
    {
      if currentUser.None? {
        return Skipped;
      }
      var user := currentUser.value;
      if db.Reachable? {
        write := Inserted(user.id, user.username, operation, details);
      } else {
        write := Console("操作日志: " + user.username + " - " + operation + " - " + details);
      }
    }
  }

  /** The role table knows exactly three roles, under these display names. */
  lemma RoleTable()
    ensures ROLES.Keys == {"admin", "operator", "viewer"}
    ensures ROLES["admin"].name == "管理员" && ROLES["operator"].name == "操作员" && ROLES["viewer"].name == "查看者"
  {
  }

  /** The administrator's six permissions, and nothing else. */
  lemma AdminPermissions(p: string)
    ensures p in RolePermissions("admin") <==>
              p in {"user_manage", "waste_manage", "standard_manage", "optimization", "backup", "log_view"}
  {
  }

  /** The operator's three permissions, all of which the administrator also
      has; user management, backup and the log are the administrator's
      alone. */
  lemma OperatorWithinAdmin(p: string)
    ensures p in RolePermissions("operator") <==> p in {"waste_manage", "standard_manage", "optimization"}
    ensures p in RolePermissions("operator") ==> p in RolePermissions("admin")
    ensures p in {"user_manage", "backup", "log_view"} ==>
              p in RolePermissions("admin") && p !in RolePermissions("operator")
  {
  }

  /** The viewer holds only the three `*_view` permissions, and neither the
      operator nor the administrator holds any of them: the table is not a
      ladder. */
  lemma ViewerOnlyViews(p: string)
    ensures p in RolePermissions("viewer") <==> p in {"waste_view", "standard_view", "optimization_view"}
    ensures p in RolePermissions("viewer") ==> |p| > 5 && p[|p| - 5..] == "_view"
    ensures p in RolePermissions("viewer") ==>
              p !in RolePermissions("admin") && p !in RolePermissions("operator")
  {
  }

  /** A role missing from the table is granted nothing, whoever holds it. */
  lemma UnknownRoleHasNothing(m: UserManager, p: string)
    requires m.currentUser.Some? && m.currentUser.value.role !in {"admin", "operator", "viewer"}
    ensures !m.HasPermission(p)
  {
    RoleTable();
  }

  /** After a successful login the manager's permissions are those of the
      matched row's role. */
  lemma LoginGrantsRolePermissions(m: UserManager, db: Database, username: string, password: string, p: string)
    requires db.Reachable? && Lookup(db.users, username, password).Some?
    requires m.currentUser == Some(SessionOf(Lookup(db.users, username, password).value))
    ensures m.HasPermission(p) <==> p in RolePermissions(Lookup(db.users, username, password).value.role)
  {
  }
}
