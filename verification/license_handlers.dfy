/**
 The command handlers of BD_License: the license gate, activation with its
 error classification, re-validation, deactivation and deletion. Each is a
 pure function from the persisted state and its inputs to the new state and
 what the handler returns or reports.
 */
module LicenseHandlers {
  import opened LicenseTypes
  import opened LicenseStore

  /** has_valid_license: reads the cached record, fetching and storing a
      check reply only when nothing is cached and a key is configured, and
      answers whether the resulting record is valid and not yet due. */
  function HasValidLicense(s: State, name: string, code: string, now: int, check: CheckGateway): (r: Step<bool>)
    ensures r.value <==> code in r.state.cache && Usable(r.state.cache[code], now)
    ensures r.state.keys == s.keys
    ensures r.state.cache - {code} == s.cache - {code}
    ensures code in s.cache ==> code in r.state.cache && r.state.cache[code] == ExpireOnRead(s.cache[code], now)
    ensures code !in s.cache && code !in s.keys ==> r.state == s && !r.value
    ensures code !in s.cache && code in s.keys ==>
      match check(Some(name), s.keys[code])
      case None => r.state == s && !r.value
      case Some(d) => code in r.state.cache && r.state.cache[code] == ExpireOnRead(d, now)
  {
    var fetched :=
      if code in s.cache then Some(s.cache[code])
      else if code in s.keys then check(Some(name), s.keys[code])
      else None;
    match fetched
    case None => Step(s, false)
    case Some(d) =>
      var e := ExpireOnRead(d, now);
      Step(s.(cache := s.cache[code := e]), e.validity == Text(VALID))
  }

  /** The notice for the error entry of a failed activation reply. The
      switch compares loosely, and a null entry equals none of the three
      codes, so it falls to the default case. */
  function ClassifyError(error: Field): (n: Notice)
    ensures n == NoActivationsLeft <==> error == Text("no_activations_left")
    ensures n == Revoked <==> error == Text("revoked")
    ensures n == KeyExpired <==> error == Text("expired")
    ensures n == KeyInvalid <==> error !in {Text("no_activations_left"), Text("revoked"), Text("expired")}
  {
    if error == Text("no_activations_left") then NoActivationsLeft
    else if error == Text("revoked") then Revoked
    else if error == Text("expired") then KeyExpired
    else KeyInvalid
  }

  datatype Activation = Activation(activated: bool, msg: Message)

  /** The activation reply carries a validity field equal to "valid". */
  predicate ReplyValid(reply: ActivationReply)
  {
    reply.Fields? && reply.data.validity == Text(VALID)
  }

  /** Where the activation branches leave things before the final guarded
      delete: whether the cache key variable got bound, the message, the
      state, and the "valid" flag. */
  datatype ActivationBranch = ActivationBranch(keyBound: bool, msg: Message, state: State, valid: bool)

  /** The read-decide-write part of activate_license. The cache key is bound
      only on the success path, together with the "valid" flag. */
  function ActivationOutcome(s: State, code: string, reply: ActivationReply): (b: ActivationBranch)
    ensures b.keyBound <==> b.valid
    ensures b.valid <==> ReplyValid(reply)
    ensures !b.valid ==> b.state == s && b.msg.severity == Error
  {
    var contact := Message(ContactFailed, Error);
    match reply
    case Fields(d) =>
      if d.validity.Present() then
        if d.validity == Text(VALID) then
          ActivationBranch(true, Message(Activated, Updated),
                           s.(cache := s.cache[code := d.(addonCode := Some(code))]), true)
        else if d.error.Present() then
          ActivationBranch(false, Message(ClassifyError(d.error), Error), s, false)
        else
          ActivationBranch(false, contact, s, false)
      else
        ActivationBranch(false, contact, s, false)
    case _ => ActivationBranch(false, contact, s, false)
  }

  /** activate_license: stores a valid reply under the add-on's code and
      reports the outcome. The delete guarded by "not valid and key bound"
      is kept as written; since the key is bound only when valid, it never
      fires and a failed activation changes nothing. */
  function ActivateLicense(s: State, name: string, code: string, license: string, activate: ActivateGateway): (r: Step<Activation>)
    ensures r.value.activated <==> ReplyValid(activate(name, license))
    ensures r.value.activated <==> r.value.msg.severity == Updated
    ensures r.value.activated ==>
      && r.value.msg.notice == Activated
      && r.state.keys == s.keys
      && r.state.cache == s.cache[code := activate(name, license).data.(addonCode := Some(code))]
    ensures !r.value.activated ==> r.state == s
    ensures !r.value.activated ==>
      match activate(name, license)
      case Fields(d) =>
        if d.validity.Present() && d.error.Present() then r.value.msg.notice == ClassifyError(d.error)
        else r.value.msg.notice == ContactFailed
      case _ => r.value.msg.notice == ContactFailed
  {
    var b := ActivationOutcome(s, code, activate(name, license));
    var s' := if !b.valid && b.keyBound then b.state.(cache := b.state.cache - {code}) else b.state;
    Step(s', Activation(b.valid, b.msg))
  }

  /** validate_license: with a configured key, re-checks it, storing the reply
      (tagged with the add-on's code and the reply's item name) or dropping
      the record on a falsy reply, then expires a valid record whose date has
      passed. With no configured key it changes nothing. */
  function ValidateLicense(s: State, code: string, name: Option<string>, now: int, check: CheckGateway): (r: State)
    ensures code !in s.keys ==> r == s
    ensures r.keys == s.keys
    ensures r.cache - {code} == s.cache - {code}
    ensures code in s.keys ==>
      match check(name, s.keys[code])
      case None => code !in r.cache
      case Some(d) =>
        && code in r.cache
        && r.cache[code] == ExpireOnValidate(d.(addonCode := Some(code), addonName := d.itemName), now)
  {
    if code in s.keys then
      match check(name, s.keys[code])
      case None => s.(cache := s.cache - {code})
      case Some(d) =>
        var tagged := d.(addonCode := Some(code), addonName := d.itemName);
        s.(cache := s.cache[code := ExpireOnValidate(tagged, now)])
    else
      s
  }

  /** The add-on name and license key deactivation reads from a record;
      both read as PHP null when no record is cached. */
  function NameOf(rec: Option<LicenseData>): Option<string>
  {
    if rec.Some? then rec.value.addonName else None
  }

  function KeyOf(rec: Option<LicenseData>): Option<string>
  {
    if rec.Some? then rec.value.license else None
  }

  /** deactivate_license: behind the nonce check, reads the record through
      get_license, asks the gateway to deactivate its key, and on success
      deletes the add-on from both stores; on failure it re-validates. */
  function DeactivateLicense(s: State, nonceOk: bool, code: string, now: int,
                             deactivate: DeactivateGateway, check: CheckGateway): (r: Step<Option<Message>>)
    ensures !nonceOk ==> r == Step(s, None)
    ensures nonceOk ==>
      var read := GetLicense(s, code, now);
      if deactivate(NameOf(read.value), KeyOf(read.value)) then
        && r.state.cache == s.cache - {code}
        && r.state.keys == s.keys - {code}
        && r.value == Some(Message(Deactivated, Updated))
      else
        && r.state == ValidateLicense(read.state, code, NameOf(read.value), now, check)
        && r.value == Some(Message(DeactivationFailed, Error))
  {
    if nonceOk then
      var read := GetLicense(s, code, now);
      var name := NameOf(read.value);
      if deactivate(name, KeyOf(read.value)) then
        Step(DeleteFromCache(read.state, code), Some(Message(Deactivated, Updated)))
      else
        Step(ValidateLicense(read.state, code, name, now, check), Some(Message(DeactivationFailed, Error)))
    else
      Step(s, None)
  }

  /** delete_license: behind the nonce check, deletes the add-on from both
      stores and reports success. */
  function DeleteLicense(s: State, nonceOk: bool, code: string): (r: Step<Option<Message>>)
    ensures !nonceOk ==> r == Step(s, None)
    ensures nonceOk ==>
      && r.state.cache.Keys == s.cache.Keys - {code}
      && r.state.keys.Keys == s.keys.Keys - {code}
      && (forall c :: c in r.state.cache ==> r.state.cache[c] == s.cache[c])
      && (forall c :: c in r.state.keys ==> r.state.keys[c] == s.keys[c])
      && r.value == Some(Message(Deleted, Updated))
  {
    if nonceOk then Step(DeleteFromCache(s, code), Some(Message(Deleted, Updated)))
    else Step(s, None)
  }
}
