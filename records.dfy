/**
 * The two kinds of input records, already decoded from JSON, and the
 * defaulting field access (`safe_get`) the report uses on them.
 *
 * A field is `None` when its key is absent from the JSON object or holds
 * `null`: `safe_get` cannot tell the two apart.
 */
module Records {
  import opened Wrappers

  datatype Company = Company(
    id: Option<int>,
    name: Option<string>,
    topUp: Option<int>,
    emailStatus: Option<bool>)

  datatype User = User(
    companyId: Option<int>,
    activeStatus: Option<bool>,
    lastName: Option<string>,
    firstName: Option<string>,
    email: Option<string>,
    tokens: Option<int>,
    emailStatus: Option<bool>)

  /**
   * `data[key] || default` for a field holding a number or a string. In Ruby
   * only `nil` and `false` are falsy, so a stored number or string (even 0
   * or "") is always returned, and a missing one gives the default.
   */
  function SafeGet<T>(field: Option<T>, default: T): (r: T)
    ensures field.Some? ==> r == field.value
    ensures field.None? ==> r == default
  {
    match field
    case Some(v) => v
    case None => default
  }

  /**
   * `data[key] || default` for a field holding a boolean: a stored `true` is
   * returned, while a stored `false` is falsy and, like a missing value,
   * yields the default.
   */
  function SafeGetFlag(field: Option<bool>, default: bool): (r: bool)
    ensures field == Some(true) ==> r
    ensures field != Some(true) ==> r == default
  {
    match field
    case Some(b) => b || default
    case None => default
  }

  // The field reads of challenge.rb, each with the default it passes to safe_get.

  function CompanyName(c: Company): string { SafeGet(c.name, "Unknown Company") }

  function TopUp(c: Company): int { SafeGet(c.topUp, 0) }

  function CompanyEmails(c: Company): bool { SafeGetFlag(c.emailStatus, false) }

  function IsActive(u: User): bool { SafeGetFlag(u.activeStatus, false) }

  /** The sort key for users: a missing last name sorts as the empty string. */
  function LastNameKey(u: User): string { SafeGet(u.lastName, "") }

  /** The displayed last name: a missing one is shown as "Unknown". */
  function LastName(u: User): string { SafeGet(u.lastName, "Unknown") }

  function FirstName(u: User): string { SafeGet(u.firstName, "Unknown") }

  function Email(u: User): string { SafeGet(u.email, "No Email") }

  function Tokens(u: User): int { SafeGet(u.tokens, 0) }

  function UserEmails(u: User): bool { SafeGetFlag(u.emailStatus, false) }

  /** A boolean field read with default `false` is true exactly when `true` is stored. */
  lemma FlagWithFalseDefault(field: Option<bool>)
    ensures SafeGetFlag(field, false) <==> field == Some(true)
  {
  }
}
