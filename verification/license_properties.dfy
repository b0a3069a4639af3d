/**
 Properties relating several calls of the BD_License model: idempotence of
 lazy expiry, the two expiry comparisons, when the gateway is consulted,
 delete and deactivate agreeing, and the cache/configured-keys invariant.
 */
module LicenseProperties {
  import opened LicenseTypes
  import opened LicenseStore
  import opened LicenseHandlers

  /** Expiring a record that was just read leaves it as it is. */
  lemma ExpireOnReadIdempotent(d: LicenseData, now: int)
    ensures ExpireOnRead(ExpireOnRead(d, now), now) == ExpireOnRead(d, now)
  {
  }

  /** Reading a record twice gives the same store and record as reading it once. */
  lemma GetLicenseIdempotent(s: State, code: string, now: int)
    ensures GetLicense(GetLicense(s, code, now).state, code, now) == GetLicense(s, code, now)
  {
  }

  /** The read rule and the re-validation rule disagree exactly on a valid
      record whose date is the current instant, or whose date does not parse
      when the clock reads zero: reading expires it, re-validating keeps it
      valid. */
  lemma ExpiryRulesDiffer(d: LicenseData, now: int)
    ensures ExpireOnRead(d, now) != ExpireOnValidate(d, now)
            <==> d.validity == Text(VALID) && (d.expires == Some(now) || (d.expires.None? && now == 0))
    ensures d.validity == Text(VALID) && (d.expires == Some(now) || (d.expires.None? && now == 0)) ==>
            ExpireOnRead(d, now).validity == Text(EXPIRED) && ExpireOnValidate(d, now).validity == Text(VALID)
  {
  }

  /** A re-validation at the expiry instant keeps the record valid, and the
      next read at the same instant expires it. */
  lemma ValidateThenReadAtExpiry(s: State, code: string, name: Option<string>, now: int, check: CheckGateway)
    requires code in s.keys
    requires check(name, s.keys[code]).Some?
    requires check(name, s.keys[code]).value.validity == Text(VALID)
    requires check(name, s.keys[code]).value.expires == Some(now)
    ensures var v := ValidateLicense(s, code, name, now, check);
            && code in v.cache
            && v.cache[code].validity == Text(VALID)
            && GetLicense(v, code, now).value.value.validity == Text(EXPIRED)
  {
  }

  /** The gate only consults the gateway when nothing is cached for the
      add-on and a key is configured: otherwise any two gateways give the
      same outcome. */
  lemma HasValidLicenseGatewayUnused(s: State, name: string, code: string, now: int,
                                     check1: CheckGateway, check2: CheckGateway)
    requires code in s.cache || code !in s.keys
    ensures HasValidLicense(s, name, code, now, check1) == HasValidLicense(s, name, code, now, check2)
  {
  }

  /** With a cached record the gate is the read accessor plus a validity
      test: same new state, and true exactly when the record read is valid. */
  lemma HasValidLicenseMatchesGetLicense(s: State, name: string, code: string, now: int, check: CheckGateway)
    requires code in s.cache
    ensures var g := HasValidLicense(s, name, code, now, check);
            var read := GetLicense(s, code, now);
            && g.state == read.state
            && (g.value <==> read.value.value.validity == Text(VALID))
  {
  }

  /** A cached record whose date is not ahead of the clock never passes the
      gate, and after the call it no longer reads as valid. */
  lemma HasValidLicenseNeverPastExpiry(s: State, name: string, code: string, now: int, check: CheckGateway)
    requires code in s.cache
    requires !Live(now, s.cache[code].expires)
    ensures !HasValidLicense(s, name, code, now, check).value
    ensures HasValidLicense(s, name, code, now, check).state.cache[code].validity != Text(VALID)
  {
  }

  /** Re-validation without a configured key neither uses the gateway nor
      changes anything. */
  lemma ValidateWithoutKeyIsNoOp(s: State, code: string, name: Option<string>, now: int,
                                 check1: CheckGateway, check2: CheckGateway)
    requires code !in s.keys
    ensures ValidateLicense(s, code, name, now, check1) == s
    ensures ValidateLicense(s, code, name, now, check1) == ValidateLicense(s, code, name, now, check2)
  {
  }

  /** A successful deactivation changes the stores exactly as a delete does,
      even though it first rewrote the record through the read accessor. */
  lemma DeactivateSuccessIsDelete(s: State, code: string, now: int,
                                  deactivate: DeactivateGateway, check: CheckGateway)
    requires var read := GetLicense(s, code, now);
             deactivate(NameOf(read.value), KeyOf(read.value))
    ensures DeactivateLicense(s, true, code, now, deactivate, check).state == DeleteLicense(s, true, code).state
    ensures DeactivateLicense(s, true, code, now, deactivate, check).state == DeleteFromCache(s, code)
  {
  }

  /** After a delete, nothing is cached or configured for the add-on. */
  lemma DeleteThenReadIsAbsent(s: State, code: string, now: int)
    ensures var d := DeleteLicense(s, true, code).state;
            && GetLicense(d, code, now).value == None
            && GetLicenseCode(d, code) == None
  {
  }

  /** A failed activation neither creates nor removes a cache record. */
  lemma FailedActivationKeepsCache(s: State, name: string, code: string, license: string, activate: ActivateGateway)
    requires !ReplyValid(activate(name, license))
    ensures ActivateLicense(s, name, code, license, activate).state == s
    ensures (code in ActivateLicense(s, name, code, license, activate).state.cache) <==> code in s.cache
  {
  }

  /** The read accessor keeps every cached add-on configured. */
  lemma GetLicensePreservesConsistency(s: State, code: string, now: int)
    requires Consistent(s)
    ensures Consistent(GetLicense(s, code, now).state)
  {
  }

  lemma HasValidLicensePreservesConsistency(s: State, name: string, code: string, now: int, check: CheckGateway)
    requires Consistent(s)
    ensures Consistent(HasValidLicense(s, name, code, now, check).state)
  {
  }

  lemma ValidatePreservesConsistency(s: State, code: string, name: Option<string>, now: int, check: CheckGateway)
    requires Consistent(s)
    ensures Consistent(ValidateLicense(s, code, name, now, check))
  {
  }

  lemma DeletePreservesConsistency(s: State, nonceOk: bool, code: string)
    requires Consistent(s)
    ensures Consistent(DeleteLicense(s, nonceOk, code).state)
  {
  }

  lemma DeactivatePreservesConsistency(s: State, nonceOk: bool, code: string, now: int,
                                       deactivate: DeactivateGateway, check: CheckGateway)
    requires Consistent(s)
    ensures Consistent(DeactivateLicense(s, nonceOk, code, now, deactivate, check).state)
  {
  }

  /** Activation keeps the invariant only when the add-on's key is already
      configured: a successful activation of an unconfigured add-on caches a
      record with no configured key. */
  lemma ActivatePreservesConsistency(s: State, name: string, code: string, license: string, activate: ActivateGateway)
    requires Consistent(s)
    ensures code in s.keys ==> Consistent(ActivateLicense(s, name, code, license, activate).state)
    ensures code !in s.keys && ReplyValid(activate(name, license)) ==>
            !Consistent(ActivateLicense(s, name, code, license, activate).state)
  {
  }

  /** A reply with fixed fields, used by the scenarios below. */
  function Reply(validity: string, expires: int, itemName: string, error: Field): LicenseData
  {
    LicenseData(Text(validity), Some(expires), None, None, None, Some(itemName), error)
  }

  /** Activation with a valid reply whose date is ahead caches that exact date
      and the gate then passes without consulting the gateway. */
  lemma ActivationThenGatePasses(s: State, name: string, code: string, license: string,
                                 activate: ActivateGateway, check: CheckGateway, now: int)
    requires activate(name, license).Fields?
    requires activate(name, license).data.validity == Text(VALID)
    requires Live(now, activate(name, license).data.expires)
    ensures var a := ActivateLicense(s, name, code, license, activate);
            && a.value.activated
            && a.state.cache[code].expires == activate(name, license).data.expires
            && HasValidLicense(a.state, name, code, now, check).value
  {
  }

  /** A revoked key reports the revoked notice and does not create a record. */
  lemma RevokedActivation(s: State, name: string, code: string, license: string, activate: ActivateGateway)
    requires code !in s.cache
    requires activate(name, license).Fields?
    requires activate(name, license).data.validity == Text("invalid")
    requires activate(name, license).data.error == Text("revoked")
    ensures var a := ActivateLicense(s, name, code, license, activate);
            && !a.value.activated
            && a.value.msg == Message(Revoked, Error)
            && code !in a.state.cache
  {
  }

  /** A null error entry still counts as present and falls to the invalid
      notice; a null validity entry is present and not "valid", so the error
      entry decides the notice. Neither reply touches the cache. */
  lemma NullEntriesInActivationReply(s: State, name: string, code: string, license: string, activate: ActivateGateway)
    requires activate(name, license).Fields?
    ensures var d := activate(name, license).data;
            var a := ActivateLicense(s, name, code, license, activate);
            && (d.validity.Present() && d.validity != Text(VALID) && d.error == Null ==>
                  a.value.msg == Message(KeyInvalid, Error) && a.state == s)
            && (d.validity == Null && d.error.Present() ==>
                  a.value.msg == Message(ClassifyError(d.error), Error) && a.state == s)
            && (d.validity.Present() && d.validity != Text(VALID) && d.error == Absent ==>
                  a.value.msg == Message(ContactFailed, Error) && a.state == s)
  {
  }

  /** The configured key of every add-on is read-only to the read accessor,
      the gate, re-validation and activation; deletion clears the deleted
      add-on's key and no other. */
  lemma LicenseCodeFrame(s: State, c: string, code: string, name: string, recordName: Option<string>, now: int,
                         check: CheckGateway, activate: ActivateGateway, license: string)
    ensures GetLicenseCode(GetLicense(s, code, now).state, c) == GetLicenseCode(s, c)
    ensures GetLicenseCode(HasValidLicense(s, name, code, now, check).state, c) == GetLicenseCode(s, c)
    ensures GetLicenseCode(ValidateLicense(s, code, recordName, now, check), c) == GetLicenseCode(s, c)
    ensures GetLicenseCode(ActivateLicense(s, name, code, license, activate).state, c) == GetLicenseCode(s, c)
    ensures GetLicenseCode(DeleteLicense(s, true, code).state, c) == if c == code then None else GetLicenseCode(s, c)
  {
  }

  /** The renewal scenario: a configured add-on is re-validated against a
      reply valid until 2099-01-01 (4070908800), the gate passes before that
      date, and once the clock is past it the gate fails without any gateway
      call and the record reads expired. */
  lemma RenewalScenario(check: CheckGateway, later: CheckGateway)
    requires check(Some("Custom Field Addon"), "ABC123")
             == Some(Reply(VALID, 4070908800, "Custom Field Addon", Absent))
    ensures var s0 := State(map[], map["custom-field" := "ABC123"]);
            var s1 := ValidateLicense(s0, "custom-field", Some("Custom Field Addon"), 1700000000, check);
            var g1 := HasValidLicense(s1, "Custom Field Addon", "custom-field", 1700000000, later);
            var g2 := HasValidLicense(g1.state, "Custom Field Addon", "custom-field", 4070908801, later);
            && g1.value
            && !g2.value
            && g2.state.cache["custom-field"].validity == Text(EXPIRED)
  {
  }

  /** One admin or scheduler request: the clock when it runs and the handler
      it invokes, with that handler's inputs. */
  datatype Command =
    | Read(code: string)
    | Gate(name: string, code: string, check: CheckGateway)
    | Revalidate(code: string, addonName: Option<string>, check: CheckGateway)
    | Delete(nonceOk: bool, code: string)
    | Deactivate(nonceOk: bool, code: string, deactivate: DeactivateGateway, check: CheckGateway)
    | Activate(name: string, code: string, license: string, activate: ActivateGateway)

  datatype Request = Request(now: int, cmd: Command)

  /** The state a single request leaves behind. */
  function Apply(s: State, req: Request): State
  {
    match req.cmd
    case Read(code) => GetLicense(s, code, req.now).state
    case Gate(name, code, check) => HasValidLicense(s, name, code, req.now, check).state
    case Revalidate(code, addonName, check) => ValidateLicense(s, code, addonName, req.now, check)
    case Delete(nonceOk, code) => DeleteLicense(s, nonceOk, code).state
    case Deactivate(nonceOk, code, deactivate, check) =>
      DeactivateLicense(s, nonceOk, code, req.now, deactivate, check).state
    case Activate(name, code, license, activate) =>
      ActivateLicense(s, name, code, license, activate).state
  }

  /** The state a sequence of requests leaves behind, run one after another. */
  function Run(s: State, reqs: seq<Request>): State
    decreases |reqs|
  {
    if |reqs| == 0 then s else Run(Apply(s, reqs[0]), reqs[1..])
  }

  /** Every handler except activation keeps every cached add-on configured,
      so any run of such requests does too. */
  lemma {:induction false} RunPreservesConsistency(s: State, reqs: seq<Request>)
    requires Consistent(s)
    requires forall i :: 0 <= i < |reqs| ==> !reqs[i].cmd.Activate?
    ensures Consistent(Run(s, reqs))
    decreases |reqs|
  {
    if |reqs| > 0 {
      RunPreservesConsistency(Apply(s, reqs[0]), reqs[1..]);
    }
  }
}
