/** The revised user manager (user_management_fixed.py): permissions follow
    a ladder of three roles instead of a table, and only accounts whose
    is_active flag is true may log in. */
module UserManagementFixed {
  import opened Wrappers
  import opened Accounts
  import Original = UserManagement

  /** The operator's permissions. */
  const OPERATOR_PERMISSIONS: seq<string> := ["view", "edit", "add", "delete"]

  /** The ladder: the administrator may do anything, the operator may view,
      edit, add and delete, the viewer may only view, any other role
      nothing. */
  function Grants(role: string, permission: string): bool
  {
    if role == "admin" then true
    else if role == "operator" then permission in OPERATOR_PERMISSIONS
    else if role == "viewer" then permission == "view"
    else false
  }

  /** The login query's WHERE clause: same name, same password, and
      is_active = TRUE, which a NULL flag does not satisfy. */
  predicate Admits(row: UserRow, username: string, password: string)
  {
    row.username == username && row.password == password && row.isActive == Some(true)
  }

  /** The row the login query returns, if any. */
  function Lookup(users: seq<UserRow>, username: string, password: string): (r: Option<UserRow>)
    ensures r.None? <==> forall i :: 0 <= i < |users| ==> !Admits(users[i], username, password)
    ensures r.Some? ==> r.value in users && Admits(r.value, username, password)
  {
    FirstAdmitted(users, row => Admits(row, username, password))
  }

  class UserManager {
    /** The logged-in user; None until a login succeeds. */
    var currentUser: Option<SessionUser>

    /** A fresh manager has nobody logged in. */
    constructor ()
      ensures currentUser == None
    {
      currentUser := None;
    }

    /** Log in: on a matching active row remember its id, username, role and
        email and answer true; otherwise, or when the database cannot be
        reached, answer false and keep whoever was logged in before. */
    method AuthenticateUser(db: Database, username: string, password: string) returns (ok: bool)
      modifies this
      ensures ok <==> db.Reachable? && Lookup(db.users, username, password).Some?
      ensures ok ==> currentUser == Some(SessionOf(Lookup(db.users, username, password).value))
      ensures !ok ==> currentUser == old(currentUser)
    {
      if db.Unreachable? {
        return false;
      }
      var userData := Lookup(db.users, username, password);
      if userData.Some? {
        currentUser := Some(SessionOf(userData.value));
        return true;
      }
      return false;
    }

    /** Nobody logged in: no permission; otherwise what the ladder grants the
        user's role. */
    function HasPermission(permission: string): (granted: bool)
      reads this
      ensures currentUser.None? ==> !granted
      ensures currentUser.Some? && currentUser.value.role == "admin" ==> granted
      ensures currentUser.Some? && currentUser.value.role == "operator" ==>
                (granted <==> permission in {"view", "edit", "add", "delete"})
      ensures currentUser.Some? && currentUser.value.role == "viewer" ==> (granted <==> permission == "view")
      ensures granted ==> currentUser.Some? && currentUser.value.role in {"admin", "operator", "viewer"}
    {
      currentUser.Some? && Grants(currentUser.value.role, permission)
    }
  }

  /** The operator is granted exactly view, edit, add and delete. */
  lemma OperatorExactly(p: string)
    ensures Grants("operator", p) <==> p in {"view", "edit", "add", "delete"}
  {
  }

  /** The viewer is granted exactly view. */
  lemma ViewerExactly(p: string)
    ensures Grants("viewer", p) <==> p == "view"
  {
  }

  /** Roles outside the three are granted nothing. */
  lemma OtherRolesNothing(role: string, p: string)
    requires role !in {"admin", "operator", "viewer"}
    ensures !Grants(role, p)
  {
  }

  /** Climbing the ladder never loses a permission: viewer ⊆ operator ⊆
      admin, and each step adds one. */
  lemma LadderMonotone(p: string)
    ensures Grants("viewer", p) ==> Grants("operator", p)
    ensures Grants("operator", p) ==> Grants("admin", p)
    ensures Grants("operator", "edit") && !Grants("viewer", "edit")
    ensures Grants("admin", "user_manage") && !Grants("operator", "user_manage")
  {
  }

  /** The revised login admits a subset of the rows the original admits: an
      account whose is_active flag is NULL could log in before and no
      longer can. */
  lemma StricterThanOriginal(row: UserRow, username: string, password: string)
    ensures Admits(row, username, password) ==> Original.Admits(row, username, password)
    ensures row.username == username && row.password == password && row.isActive.None? ==>
              Original.Admits(row, username, password) && !Admits(row, username, password)
  {
  }

  /** Consequently a login the revised manager accepts the original accepts
      too, on the same table. */
  lemma {:induction false} AcceptedByOriginal(users: seq<UserRow>, username: string, password: string)
    ensures Lookup(users, username, password).Some? ==> Original.Lookup(users, username, password).Some?
  {
    if Lookup(users, username, password).Some? {
      var row := Lookup(users, username, password).value;
      var i :| 0 <= i < |users| && users[i] == row;
      StricterThanOriginal(row, username, password);
      assert Original.Admits(users[i], username, password);
    }
  }
}
