/** UserValidator: which User payloads are refused before they are written. */
module Validator {
  import opened Wrappers
  import opened Users

  const MaxEmailLength: nat := 25
  const MaxLoginLength: nat := 20

  /** The positive reading of the rules: both fields present, non-empty, within their bounds. */
  predicate WellFormed(u: User) {
    && u.email.Some? && 0 < |u.email.value| <= MaxEmailLength
    && u.login.Some? && 0 < |u.login.value| <= MaxLoginLength
  }

  /**
   * isNotValid, as the short-circuit disjunction is written: every `.value` is read only after
   * the null test before it has failed, which is why this function needs no precondition.
   */
  function IsNotValid(u: User): (r: bool)
    ensures r <==> !WellFormed(u)
    ensures u.email.None? || u.email == Some("") ==> r
    ensures u.login.None? || u.login == Some("") ==> r
    ensures u.email.Some? && |u.email.value| > MaxEmailLength ==> r
    ensures u.login.Some? && |u.login.value| > MaxLoginLength ==> r
  {
    u.email.None? || |u.email.value| == 0
    || u.login.None? || |u.login.value| == 0
    || |u.email.value| > MaxEmailLength || |u.login.value| > MaxLoginLength
  }

  /** The verdict never looks at the id. */
  lemma IdIrrelevant(u: User, id: Int32)
    ensures IsNotValid(u.(id := id)) == IsNotValid(u)
  {
  }

  /** The bounds are inclusive: an email of exactly 25 and a login of exactly 20 characters pass. */
  lemma BoundaryLengthsAccepted(id: Int32, email: string, login: string)
    requires |email| == MaxEmailLength && |login| == MaxLoginLength
    ensures !IsNotValid(User(id, Some(email), Some(login)))
  {
  }

  /** One character more than either bound is refused. */
  lemma JustPastBoundaryRejected(id: Int32, email: string, login: string)
    requires |email| == MaxEmailLength + 1 || |login| == MaxLoginLength + 1
    ensures IsNotValid(User(id, Some(email), Some(login)))
  {
  }
}
