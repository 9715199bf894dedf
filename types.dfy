/** The records of the application (src/lib/types.ts). */
module Types {

  datatype Option<T> = None | Some(value: T)

  /** JavaScript truthiness of an optional string (a form value, a JSON field, a cookie):
      present and not the empty string. */
  predicate Truthy(v: Option<string>) {
    v.Some? && v.value != ""
  }

  /** `RegistrationStatus`: exactly three values. */
  datatype Status = Pending | Verified | Rejected

  /** The status as stored and displayed: 'pending', 'verified' or 'rejected'. */
  function StatusName(s: Status): (name: string)
    ensures name != "" && name != "all"
  {
    match s
    case Pending => "pending"
    case Verified => "verified"
    case Rejected => "rejected"
  }

  /** Distinct statuses have distinct names. */
  lemma StatusNameInjective(s: Status, t: Status)
    requires StatusName(s) == StatusName(t)
    ensures s == t
  {
  }

  /** One row of the `registrations` table. Timestamps are milliseconds since the epoch;
      `screenshotUrl`, `verifiedAt` and `ticketUrl` are nullable columns. */
  datatype Registration = Registration(
    id: string,
    name: string,
    email: string,
    phone: string,
    rollCollege: string,
    utr: string,
    screenshotUrl: Option<string>,
    status: Status,
    createdAt: int,
    verifiedAt: Option<int>,
    ticketUrl: Option<string>,
    checkedIn: bool)

  /** `AdminUser`: an administrator account, created outside the application. */
  datatype AdminUser = AdminUser(id: string, email: string, passwordHash: string)
}
