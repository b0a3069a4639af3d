# Bulk Delete add-on license state, in Dafny

This project models the license bookkeeping of the Bulk Delete plugin's paid
add-ons (class `BD_License`). Persisted state is two key-value stores:

- the license **cache**: one record per add-on code, holding the fields
  `validity`, `expires`, `license`, `addon-name`, `addon-code`, `item_name` and
  an optional `error`;
- the **configured keys**: add-on code mapped to the license key the user
  entered.

Each handler is a pure function from a `State`, a clock value `now` and its
inputs to a new `State` and the value it returns. Handlers that report to the
admin screen return a `Message` made of a notice kind and a severity
(`updated` or `error`). The remote licensing calls are function parameters:
check, activate and deactivate. The anti-forgery check is a boolean input.

Files:

- `license_types.dfy` (module `LicenseTypes`): the record, the state, the
  gateway types and the two expiry rules.
- `license_store.dfy` (module `LicenseStore`): `get_license`,
  `get_licenses`, `get_license_code` and `delete_license_from_cache`.
- `license_handlers.dfy` (module `LicenseHandlers`): `has_valid_license`,
  `activate_license`, `validate_license`, `deactivate_license` and
  `delete_license`.
- `license_properties.dfy` (module `LicenseProperties`): lemmas that relate
  several calls.

Modelling choices:

- **Missing fields.** A record is a PHP array, so any of its fields may be
  missing. Most fields are therefore an `Option`; for them a null value and
  a missing key read the same. `validity` and `error` are a `Field`
  (`Absent`, `Null` or `Text`), because `activate_license` tests them with
  `key_exists`, which tells a null entry from a missing one.
- **Expiry dates.** `expires` is the timestamp that `strtotime` gives for the
  stored date. `None` means the date is missing or does not parse, so it
  compares as PHP `false`. PHP compares an int with a bool by casting the
  int to bool. So `now < false` never holds, and `now > false` holds exactly
  when `now` is non-zero. `Live` and `PastDue` follow these rules.
- **The two expiry rules differ.**
  - The read accessors (`get_license`, `has_valid_license`) keep a record
    valid only while `now < expires`. This is `ExpireOnRead`.
  - `validate_license` expires a record only when `now > expires`. This is
    `ExpireOnValidate`.
  - So at `now == expires` the two disagree. They also disagree on a record
    with no parseable date when `now` is zero. `ExpiryRulesDiffer` proves
    these are the only inputs where they disagree.
- **Activation failure.** `activate_license` binds the cache key only on the
  success path. The final delete, guarded by "not valid and key bound", is
  kept as written in `ActivateLicense`. `ActivationOutcome` proves that the
  key is bound exactly when activation is valid, so that delete never runs.
  As a result, a failed activation leaves any stale cache record in place.
- **No configured key.** When `validate_license` finds no configured key, it
  reads a variable that was never assigned. PHP reads that as null, so the
  call changes nothing. The model makes it a no-op.
- **Storing a falsy reply.** When `has_valid_license` stores a falsy check
  reply, the model leaves no cache record. Every read uses
  `get_option(key, FALSE)` and tests the value for truthiness, so the two
  cannot be told apart.
- **Configured-keys option.** If that option is not an array, the model
  treats it as an empty map. `get_licenses`, `get_license_code` and the
  delete behave the same either way.

## Model

| member | source | states |
|---|---|---|
| LicenseTypes.ExpireOnRead | include/class-bd-license.php:140-149 | a record stays `valid` exactly when it was valid and its date is strictly after now; a valid record whose date is not ahead becomes `expired`; every other field and every non-valid record is unchanged |
| LicenseTypes.ExpireOnValidate | include/class-bd-license.php:343-350 | a valid record becomes `expired` only when its date is strictly before now (or unparseable, with a non-zero now); at now equal to the date it stays valid; every other field and every non-valid or not-yet-due record is unchanged |
| LicenseStore.GetLicense | include/class-bd-license.php:135-152 | returns nothing exactly when no record is cached; otherwise returns the record as stored afterwards, differing from the old one only in validity and only when it was valid with a date not ahead of now; configured keys and other records unchanged |
| LicenseStore.GetLicenseCode | include/class-bd-license.php:162-172 | returns a key exactly when the add-on is configured, and then the configured key |
| LicenseStore.DeleteFromCache | include/class-bd-license.php:243-253 | removes the add-on from the cache and from the configured keys and keeps every other record and key |
| LicenseStore.GetLicenses | include/class-bd-license.php:113-125 | result has one entry per configured add-on, each equal to what a single get_license read gives; the cache afterwards is every configured add-on's record lazily expired, others untouched; keys unchanged |
| LicenseHandlers.HasValidLicense | include/class-bd-license.php:76-104 | true exactly when the record stored afterwards is valid with a date ahead of now; a cached record is lazily expired; with nothing cached the check reply for the configured key is stored; with neither, nothing changes and the answer is false |
| LicenseHandlers.ClassifyError | include/class-bd-license.php:284-303 | `no_activations_left`, `revoked` and `expired` each get their own notice; every other error entry, a null one included, gets the invalid notice |
| LicenseHandlers.ActivationOutcome | include/class-bd-license.php:265-305 | the cache key variable is bound exactly when the reply is valid; a non-valid reply leaves the state unchanged with an `error` message |
| LicenseHandlers.ActivateLicense | include/class-bd-license.php:265-318 | returns true exactly when the reply has validity `valid`, and then stores it tagged with the add-on code, with an `updated` message; otherwise no state change, the error code's notice when the reply has a validity and an error, else the contact-failure notice |
| LicenseHandlers.ValidateLicense | include/class-bd-license.php:328-351 | no configured key: no change; truthy check reply: stored with the add-on code and the reply's item name as add-on name, then expired only if strictly past due; falsy reply: record removed; keys and other records unchanged |
| LicenseHandlers.DeactivateLicense | include/class-bd-license.php:180-209 | with a failed nonce nothing changes and nothing is reported; otherwise the gateway is called with the name and key read through get_license; on success both stores lose the add-on and the notice is `updated`, on failure the add-on is re-validated and the notice is `error` |
| LicenseHandlers.DeleteLicense | include/class-bd-license.php:217-234 | with a failed nonce nothing changes; otherwise both stores lose exactly that add-on and the deleted notice is reported as `updated` |
| LicenseProperties.ExpireOnReadIdempotent | include/class-bd-license.php:140-148 | applying the read-side expiry twice equals applying it once |
| LicenseProperties.GetLicenseIdempotent | include/class-bd-license.php:138-151 | a second get_license gives the same store and record as the first |
| LicenseProperties.ExpiryRulesDiffer | include/class-bd-license.php:343-350 | the read rule and the validate rule disagree exactly on a valid record dated now, or undated with now zero: reading expires it, validating keeps it valid |
| LicenseProperties.ValidateThenReadAtExpiry | include/class-bd-license.php:328-350 | a re-validation at the expiry instant leaves the record valid and the next read at that instant marks it expired |
| LicenseProperties.HasValidLicenseGatewayUnused | include/class-bd-license.php:79-89 | when a record is cached or no key is configured, the outcome does not depend on the check gateway |
| LicenseProperties.HasValidLicenseMatchesGetLicense | include/class-bd-license.php:91-101 | with a record cached, the gate leaves the same state as get_license and passes exactly when the record read is valid |
| LicenseProperties.HasValidLicenseNeverPastExpiry | include/class-bd-license.php:92-103 | a cached record whose date is not ahead never passes, and is no longer valid afterwards |
| LicenseProperties.ValidateWithoutKeyIsNoOp | include/class-bd-license.php:331-343 | with no configured key validation changes nothing, whatever the gateway |
| LicenseProperties.DeactivateSuccessIsDelete | include/class-bd-license.php:185-193 | a successful deactivation leaves exactly the state a delete leaves |
| LicenseProperties.DeleteThenReadIsAbsent | include/class-bd-license.php:217-253 | after a delete, get_license and get_license_code find nothing for the add-on |
| LicenseProperties.FailedActivationKeepsCache | include/class-bd-license.php:314-316 | a failed activation neither creates nor removes the add-on's cache record |
| LicenseProperties.GetLicensePreservesConsistency | include/class-bd-license.php:135-152 | reading keeps every cached add-on configured |
| LicenseProperties.HasValidLicensePreservesConsistency | include/class-bd-license.php:79-89 | the gate only stores a record for a configured add-on or one already cached |
| LicenseProperties.ValidatePreservesConsistency | include/class-bd-license.php:331-341 | validation only stores a record for a configured add-on |
| LicenseProperties.DeletePreservesConsistency | include/class-bd-license.php:243-253 | the two-store delete keeps every cached add-on configured |
| LicenseProperties.DeactivatePreservesConsistency | include/class-bd-license.php:180-200 | deactivation keeps every cached add-on configured on both the success and the failure path |
| LicenseProperties.ActivatePreservesConsistency | include/class-bd-license.php:274-278 | activation keeps the invariant for a configured add-on, and a successful activation of an unconfigured add-on breaks it |
| LicenseProperties.NullEntriesInActivationReply | include/class-bd-license.php:274-303 | for any present, non-valid validity, a null error entry gets the invalid notice and a missing one the contact-failure notice; a null validity entry lets any present error entry decide the notice; none of these touches the state |
| LicenseProperties.LicenseCodeFrame | include/class-bd-license.php:162-172 | reads, the gate, re-validation and activation leave every add-on's configured key as get_license_code reads it; a delete clears the deleted add-on's key and no other |
| LicenseProperties.ActivationThenGatePasses | include/class-bd-license.php:274-283 | after a valid activation with a date ahead, the cached record has exactly that date and the gate passes |
| LicenseProperties.RevokedActivation | include/class-bd-license.php:291-293 | a revoked reply reports the revoked notice as an error and creates no cache record |
| LicenseProperties.RenewalScenario | include/class-bd-license.php:328-350 | a configured add-on validated against a reply valid until 2099-01-01 passes the gate before that date; past it, the gate fails with no gateway call and the record reads expired |
| LicenseProperties.RunPreservesConsistency | include/class-bd-license.php:76-351 | any sequence of reads, gate checks, re-validations, deletes and deactivations, at any clock values, keeps every cached add-on configured |

## Left out

- Admin-page rendering is not modelled: the add-on page, the activation form and the add-on marketing list. It is pure HTML output.
- `add_settings_error`, `settings_errors` and the translated message texts are not modelled. Messages are returned as (notice, severity) values, and the add-on name in the text is dropped.
- The remote licensing client is not modelled. It is an HTTP client outside this code, so its three calls are function parameters.
- Nonce verification is reduced to a boolean input, and the `addon-code` request parameter to an argument. In WordPress, a failed `check_admin_referer` ends the request; the model treats it as "no change, no message".
- Date parsing is not modelled: `expires` is already a timestamp, and `now` is an integer.
- Hook registration is not modelled.
- Races between concurrent requests on the option store are not modelled. The model is single-threaded.
- A check reply that is truthy but not an array is not modelled. In `validate_license` it would raise a PHP error when the code writes fields into it. Check replies are either a record or falsy.
- LicenseHandlers.DeactivateLicense: reads the clock once, although `deactivate_license` reads it again in the re-validation on the failure path. The model gives both reads the same `now`, so a clock tick between the read and the re-validation is not modelled.
- LicenseStore.GetLicenses: reads the clock once for all add-ons, although `get_licenses` reads it once per add-on, so a clock tick between two add-ons is not modelled.
- Non-string `error` values are not modelled. Under the loose `switch`, PHP `true` would match the first case.
- An empty-array check reply is not modelled. In `validate_license` it is falsy and PHP deletes the record; in the model every check reply is either falsy (`None`) or a non-empty record.
- PHP's loose `==` against non-string validity values (`true`, `0`) is not modelled. Validity is a string or missing.
- An empty-array record (falsy in PHP) is not modelled: every cached record counts as present.
