/**
 * The users table, keyed by its primary key `id`, and the effect on it of the four fixed SQL
 * statements that UserService issues.
 */
module Table {
  import opened Wrappers
  import opened Users

  /** The rows of the users table; the model assumes `id` is its primary key. */
  type Rows = map<Int32, User>

  /** Every row is stored under its own id. */
  ghost predicate KeyedById(t: Rows) {
    forall k :: k in t ==> t[k].id == k
  }

  /** The three write statements, each with the values bound to its `?` placeholders. */
  datatype Statement =
    | Insert(user: User)                                                 // INSERT INTO users (id, email, login) VALUES (?, ?, ?)
    | UpdateLogin(newLogin: Option<string>, id: Int32, email: Option<string>)  // UPDATE users SET login = ? WHERE id = ? AND email = ?
    | Delete(id: Int32)                                                  // DELETE FROM users WHERE id = ?

  /** SQL `=` on nullable text: a NULL on either side is never equal to anything. */
  function SqlEquals(a: Option<string>, b: Option<string>): (r: bool)
    ensures r ==> a == b
    ensures a.None? || b.None? ==> !r
    ensures a.Some? && a == b ==> r
  {
    a.Some? && b.Some? && a.value == b.value
  }

  /** INSERT: the new row is added; an id that is already taken violates the primary key (None). */
  function InsertRow(t: Rows, u: User): (r: Option<Rows>)
    ensures r.None? <==> u.id in t
    ensures r.Some? ==> r.value.Keys == t.Keys + {u.id} && r.value[u.id] == u
    ensures r.Some? ==> forall k :: k in t ==> r.value[k] == t[k]
    ensures r.Some? && KeyedById(t) ==> KeyedById(r.value)
  {
    if u.id in t then None else Some(t[u.id := u])
  }

  /** SELECT * ... WHERE id = ?: the row stored under id, if any. */
  function SelectById(t: Rows, id: Int32): (r: Option<User>)
    ensures r.Some? <==> id in t
    ensures r.Some? ==> r.value == t[id]
    ensures r.Some? && KeyedById(t) ==> r.value.id == id
  {
    if id in t then Some(t[id]) else None
  }

  /**
   * UPDATE ... SET login = ? WHERE id = ? AND email = ?: only the row with that id, and only if its
   * stored email equals the given one, gets the new login; its id and email stay as they were.
   */
  function UpdateLoginRows(t: Rows, id: Int32, email: Option<string>, newLogin: Option<string>): (r: Rows)
    ensures r.Keys == t.Keys
    ensures forall k :: k in t && k != id ==> r[k] == t[k]
    ensures id in t ==> r[id].id == t[id].id && r[id].email == t[id].email
    ensures id in t ==> r[id].login == if SqlEquals(t[id].email, email) then newLogin else t[id].login
    ensures !(id in t && SqlEquals(t[id].email, email)) ==> r == t
    ensures KeyedById(t) ==> KeyedById(r)
  {
    if id in t && SqlEquals(t[id].email, email) then t[id := t[id].(login := newLogin)] else t
  }

  /** DELETE ... WHERE id = ?: the row with that id is gone, every other row is kept. */
  function DeleteRow(t: Rows, id: Int32): (r: Rows)
    ensures r.Keys == t.Keys - {id}
    ensures forall k :: k in r ==> r[k] == t[k]
    ensures id !in t ==> r == t
    ensures KeyedById(t) ==> KeyedById(r)
  {
    t - {id}
  }

  /** The effect of one write statement; None when the database refuses it. */
  function Execute(t: Rows, s: Statement): (r: Option<Rows>)
    ensures r.None? ==> s.Insert? && s.user.id in t
    ensures r.Some? && KeyedById(t) ==> KeyedById(r.value)
  {
    match s
    case Insert(u) => InsertRow(t, u)
    case UpdateLogin(newLogin, id, email) => Some(UpdateLoginRows(t, id, email, newLogin))
    case Delete(id) => Some(DeleteRow(t, id))
  }

  /** A row that was inserted is what a later select by its id returns. */
  lemma InsertThenSelect(t: Rows, u: User)
    requires u.id !in t
    ensures InsertRow(t, u).Some? && SelectById(InsertRow(t, u).value, u.id) == Some(u)
  {
  }

  /** An update whose email does not match the stored one leaves the whole table as it was. */
  lemma MismatchedEmailKeepsTable(t: Rows, id: Int32, email: Option<string>, newLogin: Option<string>)
    requires id in t && t[id].email != email
    ensures UpdateLoginRows(t, id, email, newLogin) == t
  {
  }

  /** Deleting is idempotent: a second delete of the same id changes nothing. */
  lemma DeleteIdempotent(t: Rows, id: Int32)
    ensures DeleteRow(DeleteRow(t, id), id) == DeleteRow(t, id)
  {
  }

  /** After a delete, a select by that id finds nothing. */
  lemma DeleteThenSelect(t: Rows, id: Int32)
    ensures SelectById(DeleteRow(t, id), id) == None
  {
  }
}
