/** The parts of the users table that login reads, and the session record
    both user managers keep once somebody has logged in. */
module Accounts {
  import opened Wrappers

  /** One row of the users table as the login query sees it; isActive is
      None where the column holds SQL NULL. */
  datatype UserRow = UserRow(
    id: int,
    username: string,
    password: string,
    role: string,
    email: Option<string>,
    isActive: Option<bool>)

  /** The dictionary kept as current_user: id, username, role and email. */
  datatype SessionUser = SessionUser(id: int, username: string, role: string, email: Option<string>)

  /** The database as login finds it: Unreachable stands for any exception
      raised while connecting or querying. */
  datatype Database = Reachable(users: seq<UserRow>) | Unreachable

  /** The four selected columns of a row. */
  function SessionOf(row: UserRow): SessionUser
  {
    SessionUser(row.id, row.username, row.role, row.email)
  }

  /** fetchone on a query whose WHERE clause is `admits`: the first row, in
      table order, that the clause admits. */
  function FirstAdmitted(users: seq<UserRow>, admits: UserRow -> bool): (r: Option<UserRow>)
    ensures r.None? <==> forall i :: 0 <= i < |users| ==> !admits(users[i])
    ensures r.Some? ==>
              exists i :: (0 <= i < |users| && users[i] == r.value && admits(users[i]) &&
                           forall j :: 0 <= j < i ==> !admits(users[j]))
  {
    if users == [] then None
    else if admits(users[0]) then Some(users[0])
    else
      FirstAdmitted(users[1..], admits)
  }
}
