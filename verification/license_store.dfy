/**
 The cache accessors of BD_License: reading one record with lazy expiry,
 reading all configured records, reading a configured key, and the
 two-store delete.
 */
module LicenseStore {
  import opened LicenseTypes

  /** get_license: returns the cached record after the lazy-expiry rule,
      writing the expired record back when the rule fires. */
  function GetLicense(s: State, code: string, now: int): (r: Step<Option<LicenseData>>)
    ensures r.value.None? <==> code !in s.cache
    ensures r.state.keys == s.keys
    ensures r.state.cache.Keys == s.cache.Keys
    ensures forall c :: c in r.state.cache && c != code ==> r.state.cache[c] == s.cache[c]
    ensures code in s.cache ==>
      && r.value == Some(r.state.cache[code])
      && r.value.value == s.cache[code].(validity := r.value.value.validity)
      && (r.value.value != s.cache[code] <==> s.cache[code].validity == Text(VALID) && !Live(now, s.cache[code].expires))
      && (r.value.value != s.cache[code] ==> r.value.value.validity == Text(EXPIRED))
  {
    if code in s.cache then
      var e := ExpireOnRead(s.cache[code], now);
      Step(s.(cache := s.cache[code := e]), Some(e))
    else
      Step(s, None)
  }

  /** get_license_code: the configured key of an add-on, if any. */
  function GetLicenseCode(s: State, code: string): (r: Option<string>)
    ensures r.Some? <==> code in s.keys
    ensures r.Some? ==> r.value == s.keys[code]
  {
    if code in s.keys then Some(s.keys[code]) else None
  }

  /** delete_license_from_cache: drops the add-on's cache record and its
      configured key; every other record and key is kept. */
  function DeleteFromCache(s: State, code: string): (r: State)
    ensures r.cache.Keys == s.cache.Keys - {code}
    ensures r.keys.Keys == s.keys.Keys - {code}
    ensures forall c :: c in r.cache ==> r.cache[c] == s.cache[c]
    ensures forall c :: c in r.keys ==> r.keys[c] == s.keys[c]
  {
    State(s.cache - {code}, s.keys - {code})
  }

  /** The cache after the lazy-expiry rule has been applied to every record
      whose code is in `codes`. */
  function ExpireCodes(cache: map<string, LicenseData>, codes: set<string>, now: int): (r: map<string, LicenseData>)
  {
    map c | c in cache :: if c in codes then ExpireOnRead(cache[c], now) else cache[c]
  }

  /** get_licenses: reads every configured add-on through get_license, in
      whatever order the configured-keys map yields them. */
  method GetLicenses(s: State, now: int) returns (s': State, licenses: map<string, Option<LicenseData>>)
    ensures s'.keys == s.keys
    ensures licenses.Keys == s.keys.Keys
    ensures forall c :: c in licenses ==> licenses[c] == GetLicense(s, c, now).value
    ensures s'.cache == ExpireCodes(s.cache, s.keys.Keys, now)
  {
    s' := s;
    licenses := map[];
    var todo := s.keys.Keys;
    while todo != {}
      invariant todo <= s.keys.Keys
      invariant s'.keys == s.keys
      invariant licenses.Keys == s.keys.Keys - todo
      invariant forall c :: c in licenses ==> licenses[c] == GetLicense(s, c, now).value
      invariant s'.cache == ExpireCodes(s.cache, s.keys.Keys - todo, now)
      decreases todo
    {
      var c :| c in todo;
      var step := GetLicense(s', c, now);
      licenses := licenses[c := step.value];
      s' := step.state;
      todo := todo - {c};
    }
  }
}
