/**
 * UserService: each operation takes a fresh connection, runs one statement and releases the
 * connection. Writes run with autocommit off and either commit or roll back; a failed
 * statement is swallowed, so the operation still returns normally.
 */
module Service {
  import opened Wrappers
  import opened Users
  import opened Table

  /** A call made on the service, recorded so callers can state which calls they made. */
  datatype Call =
    | CreateCall(user: User)
    | GetCall(id: Int32)
    | UpdateCall(id: Int32, email: Option<string>, newLogin: Option<string>)
    | DeleteCall(id: Int32)

  class UserService {
    /** The committed contents of the users table. */
    var table: Rows
    /** What the current connection sees: the committed table plus its uncommitted changes. */
    var pending: Rows
    /** The connection state of the operation in progress. */
    var open: bool
    var autoCommit: bool
    /** How many transactions have been committed, and which service calls have been made. */
    ghost var commits: nat
    ghost var calls: seq<Call>

    /** Between operations: the connection is closed, autocommit is on, nothing is pending. */
    ghost predicate Valid()
      reads this
    {
      !open && autoCommit && pending == table && KeyedById(table)
    }

    constructor (initial: Rows)
      requires KeyedById(initial)
      ensures Valid() && table == initial && commits == 0 && calls == []
    {
      table := initial;
      pending := initial;
      open := false;
      autoCommit := true;
      commits := 0;
      calls := [];
    }

    /** postgresUtil.getConnection(): a fresh connection, open and in autocommit mode. */
    method GetConnection()
      requires !open && pending == table
      modifies this`open, this`autoCommit
      ensures open && autoCommit
    {
      open := true;
      autoCommit := true;
    }

    /** setAutoCommit; switching it back on happens only when nothing is pending. */
    method SetAutoCommit(on: bool)
      requires open
      requires on ==> pending == table
      modifies this`autoCommit
      ensures autoCommit == on
    {
      autoCommit := on;
    }

    /**
     * executeUpdate inside the transaction: on success the pending view takes the statement's
     * effect; on failure (a refused statement, or `fails`: any other SQLException) nothing is
     * promised about the pending view, so only a rollback makes it clean again.
     */
    method ExecuteUpdate(s: Statement, fails: bool) returns (ok: bool)
      requires open && !autoCommit
      modifies this`pending
      ensures ok <==> !fails && Execute(old(pending), s).Some?
      ensures ok ==> pending == Execute(old(pending), s).value
    {
      var r := Execute(pending, s);
      ok := !fails && r.Some?;
      if ok {
        pending := r.value;
      }
    }

    /** commit: the pending view becomes the table. */
    method Commit()
      requires open && !autoCommit
      modifies this`table, this`commits
      ensures table == pending && commits == old(commits) + 1
    {
      table := pending;
      commits := commits + 1;
    }

    /** rollback: the pending view is discarded. */
    method Rollback()
      requires open && !autoCommit
      modifies this`pending
      ensures pending == table
    {
      pending := table;
    }

    method Close()
      requires open
      modifies this`open
      ensures !open
    {
      open := false;
    }

    /**
     * The try/catch/finally shared by the three writers: autocommit off, execute, commit or
     * roll back, then autocommit on and close, on both paths.
     */
    method RunWrite(s: Statement, fails: bool)
      requires Valid()
      modifies this`table, this`pending, this`open, this`autoCommit, this`commits
      ensures Valid()
      ensures var r := Execute(old(table), s);
              if !fails && r.Some? then table == r.value && commits == old(commits) + 1
              else table == old(table) && commits == old(commits)
    {
      GetConnection();
      SetAutoCommit(false);
      var ok := ExecuteUpdate(s, fails);
      if ok {
        Commit();
      } else {
        Rollback();
      }
      SetAutoCommit(true);
      Close();
    }

    /** createUser: the user is inserted and committed, or, if the statement fails, the table is unchanged. */
    method CreateUser(user: User, fails: bool)
      requires Valid()
      modifies this
      ensures Valid() && calls == old(calls) + [CreateCall(user)]
      ensures var r := InsertRow(old(table), user);
              if !fails && r.Some? then table == r.value && commits == old(commits) + 1
              else table == old(table) && commits == old(commits)
    {
      RunWrite(Insert(user), fails);
      calls := calls + [CreateCall(user)];
    }

    /**
     * getUser: the stored row for id, or None when there is none or the query fails (the two
     * cannot be told apart). Runs in autocommit mode and changes no row.
     */
    method GetUser(id: Int32, fails: bool) returns (user: Option<User>)
      requires Valid()
      modifies this
      ensures Valid() && calls == old(calls) + [GetCall(id)]
      ensures table == old(table) && commits == old(commits)
      ensures user == if fails then None else SelectById(table, id)
      ensures user.Some? ==> user.value.id == id
    {
      GetConnection();
      user := None;
      if !fails {
        user := SelectById(pending, id);
      }
      Close();
      calls := calls + [GetCall(id)];
    }

    /** updateUser: the login of the row matching both id and email changes; otherwise nothing does. */
    method UpdateUser(id: Int32, email: Option<string>, newLogin: Option<string>, fails: bool)
      requires Valid()
      modifies this
      ensures Valid() && calls == old(calls) + [UpdateCall(id, email, newLogin)]
      ensures table == if fails then old(table) else UpdateLoginRows(old(table), id, email, newLogin)
      ensures commits == old(commits) + if fails then 0 else 1
    {
      RunWrite(UpdateLogin(newLogin, id, email), fails);
      calls := calls + [UpdateCall(id, email, newLogin)];
    }

    /** deleteUser: the row with that id is removed; an absent id is not an error. */
    method DeleteUser(id: Int32, fails: bool)
      requires Valid()
      modifies this
      ensures Valid() && calls == old(calls) + [DeleteCall(id)]
      ensures table == if fails then old(table) else DeleteRow(old(table), id)
      ensures commits == old(commits) + if fails then 0 else 1
    {
      RunWrite(Delete(id), fails);
      calls := calls + [DeleteCall(id)];
    }
  }
}
