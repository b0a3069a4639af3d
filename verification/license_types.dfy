/**
 The data model of the add-on license cache of Bulk Delete (class BD_License).

 A license record is the PHP array the plugin keeps in one option per add-on;
 every key of that array may be missing, so each field is an Option, or a
 Field where a key holding null is told apart from a missing key. The
 persisted state is two key-value stores: the per-add-on cache records, and
 the single "configured licenses" option mapping add-on code to license key.
 */
module LicenseTypes {

  datatype Option<+T> = None | Some(value: T)

  /** An array entry that activation inspects with key_exists: missing,
      present with a null value, or present with a string. */
  datatype Field = Absent | Null | Text(text: string) {
    /** key_exists holds. */
    predicate Present() {
      !Absent?
    }
  }

  /** The validity strings the cache logic compares against. */
  const VALID: string := "valid"
  const EXPIRED: string := "expired"

  /** One cached license record. `expires` is the record's expiry date as a
      timestamp; None stands for a missing or unparseable date. */
  datatype LicenseData = LicenseData(
    validity: Field,
    expires: Option<int>,
    license: Option<string>,
    addonName: Option<string>,
    addonCode: Option<string>,
    itemName: Option<string>,
    error: Field)

  /** The persisted state: the cache records, keyed by add-on code, and the
      license keys the user has configured, keyed by add-on code. */
  datatype State = State(cache: map<string, LicenseData>, keys: map<string, string>)

  /** A handler's new state together with the value it returns. */
  datatype Step<T> = Step(state: State, value: T)

  /** What the remote activation call can hand back: nothing (false), a
      scalar that is not an array, or an array of fields. */
  datatype ActivationReply = NoReply | NotArray | Fields(data: LicenseData)

  /** The remote licensing calls, taken as parameters. A check reply of None
      is a falsy reply. */
  type CheckGateway = (Option<string>, string) -> Option<LicenseData>
  type ActivateGateway = (string, string) -> ActivationReply
  type DeactivateGateway = (Option<string>, Option<string>) -> bool

  datatype Severity = Updated | Error

  /** The user-facing notices; the text itself is translation output. */
  datatype Notice =
    | ContactFailed
    | Activated
    | NoActivationsLeft
    | Revoked
    | KeyExpired
    | KeyInvalid
    | Deactivated
    | DeactivationFailed
    | Deleted

  datatype Message = Message(notice: Notice, severity: Severity)

  /** The read-side test: a date is still ahead of `now` only when it parses
      and lies strictly after `now`; `now < false` never holds in PHP. */
  predicate Live(now: int, expires: Option<int>)
  {
    expires.Some? && now < expires.value
  }

  /** The re-validation test: a date has passed when it lies strictly
      before `now`; a date equal to `now` has not passed. An unparseable date
      compares as PHP false, against which `now > false` holds exactly when
      `now` is non-zero. */
  predicate PastDue(now: int, expires: Option<int>)
  {
    if expires.Some? then now > expires.value else now != 0
  }

  /** A record that is marked valid and whose date is live. */
  predicate Usable(d: LicenseData, now: int)
  {
    d.validity == Text(VALID) && Live(now, d.expires)
  }

  /** Marks a valid record expired when `lapsed` holds; other records are kept. */
  function ExpireWhen(d: LicenseData, lapsed: bool): (e: LicenseData)
    ensures e == d.(validity := e.validity)
    ensures e != d <==> d.validity == Text(VALID) && lapsed
    ensures e.validity == Text(VALID) <==> d.validity == Text(VALID) && !lapsed
  {
    if d.validity == Text(VALID) && lapsed then d.(validity := Text(EXPIRED)) else d
  }

  /** The lazy-expiry rule of the read accessors. */
  function ExpireOnRead(d: LicenseData, now: int): (e: LicenseData)
    ensures e == d.(validity := e.validity)
    ensures e.validity == Text(VALID) <==> Usable(d, now)
    ensures d.validity != Text(VALID) ==> e == d
    ensures d.validity == Text(VALID) && !Live(now, d.expires) ==> e == d.(validity := Text(EXPIRED))
  {
    ExpireWhen(d, !Live(now, d.expires))
  }

  /** The expiry rule applied after a re-validation. */
  function ExpireOnValidate(d: LicenseData, now: int): (e: LicenseData)
    ensures e == d.(validity := e.validity)
    ensures e.validity == Text(VALID) <==> d.validity == Text(VALID) && !PastDue(now, d.expires)
    ensures d.validity != Text(VALID) ==> e == d
    ensures d.validity == Text(VALID) && PastDue(now, d.expires) ==> e == d.(validity := Text(EXPIRED))
  {
    ExpireWhen(d, PastDue(now, d.expires))
  }

  /** Every cached add-on also has a configured key. */
  predicate Consistent(s: State)
  {
    s.cache.Keys <= s.keys.Keys
  }
}
