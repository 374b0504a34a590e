# A verified model of the forklift-console-plugin end-to-end test infrastructure

The Playwright suite of the forklift console plugin rests on six pieces of real logic. This project models each of them in Dafny and proves what each one promises:

- **Cleanup ledger** (`ResourceManager`, module `Resources`). The ledger keeps an ordered list of the cluster resources a test created. When a resource is added, it fills in a default API version. It builds the DELETE path of each resource and classifies each delete response: a 2xx status and 404 both count as success. `cleanupAll` tallies the outcomes and then empties the list. The ledger can also be saved to and loaded from a file.
- **Snapshot checks** (`vsphere-cleanup.ts`, module `VsphereCleanup`). A check looks the VM up in the migration inventory through a chain of commands, any of which can fail. From the record it finds, it derives the VM's snapshot information. A batch check, a warning guard, a failing guard and a clock-bounded wait are built on top of that.
- **Warm-migration fixtures** (`warm-migration-fixtures.ts`, module `WarmMigrationFixtures`). These are the provider-defaulting helpers, the poller `waitForCleanup` (at most 12 attempts), and the automatic `warmMigrationSetup`, which never fails a test.
- **Value helpers** (`utils.ts`, module `Utils`). These are `isEmpty` and the settings object that `disableGuidedTour` stores.
- **Secret redaction** (`redactSecrets`, module `LogProviders`). This is a structural copy of a JSON value in which every property whose key names a secret is masked.
- **Table page object** (`Table.ts`, module `Table`). This covers the header post-processing of `getColumns`, `isColumnVisible`, the steps of `enableColumn`, and the row chosen by `getRow`.

Three supporting modules model the JavaScript behaviour the code relies on:
- `Wrappers` holds `Option` and `Result`.
- `Text` covers the string built-ins: `trim`, `replace(/\s+/g, ' ')`, `includes`, `toLowerCase`, and the decimal rendering of array indices.
- `JsValues` holds the JSON value datatype, including property order, `obj[key]`, `obj[key] = v`, truthiness and `typeof … === 'object'`.

Interaction with the outside world is modelled as parameters:
- Shell commands are an `Inventory` of answers.
- Each refresh is an `Exec` result.
- HTTP delete responses are a sequence, one response per resource.
- `Date.now()` is a strictly increasing `clock`.
- The ledger file is a `ResourcesFile` value.
- The DOM reads of the table are plain sequences: header texts, list items with their checkboxes, and row texts.

Thrown errors become `Failure` results. Each loop returns a trace of the refreshes, checks and sleeps it performs.

## Model

| member | source | states |
|---|---|---|
| Resources.DefaultApiVersion | testing/playwright/utils/ResourceManager.ts:65-72 | The default is `project.openshift.io/v1` exactly for `projects`, and `forklift.konveyor.io/v1beta1` exactly for every other type. |
| Resources.WithDefaultApiVersion | testing/playwright/utils/ResourceManager.ts:74-77 | The stored entry keeps namespace, type and name, and always has an API version. A supplied version is kept; an absent one becomes the type's default. |
| Resources.DeletePath | testing/playwright/utils/ResourceManager.ts:23-25 | Every path starts with `/api/kubernetes/apis/{apiVersion}/` and ends with `{type}/{name}`. Without a namespace it is exactly those two parts. With one, its length leaves room for exactly `namespaces/{ns}/` in between. |
| Resources.NamespacedPathInsertsSegment | testing/playwright/utils/ResourceManager.ts:23-25 | A namespaced path is the cluster-scoped path with `namespaces/{ns}/` inserted right after the API version. |
| Resources.ClassifyResponse | testing/playwright/utils/ResourceManager.ts:53-61 | A delete succeeds if and only if the response's status is 2xx or 404. Any other status fails with that status and text. A rejected request fails with its reason. |
| Resources.CountSuccessesExtremes | testing/playwright/utils/ResourceManager.ts:95-112 | The success count is 0 if and only if every result failed, and it is the number of results if and only if every result succeeded. |
| Resources.TallyResults | testing/playwright/utils/ResourceManager.ts:95-112 | The loop's success count is the number of successful results, and the two counts add up to the number of results. |
| Resources.ResourceManager.constructor | testing/playwright/utils/ResourceManager.ts:17 | A new manager's ledger is empty. |
| Resources.ResourceManager.AddResource | testing/playwright/utils/ResourceManager.ts:64-78 | The new ledger is the old one with exactly one entry (the resource with its default API version) appended at the end. |
| Resources.ResourceManager.CleanupAll | testing/playwright/utils/ResourceManager.ts:80-117 | One delete is requested per resource, in order, and request i is the delete path of resource i. Result i is the classification of response i. The counts are the tally of the results and add up to the ledger size. The ledger is empty afterwards, whatever the outcomes. An empty ledger requests nothing. |
| Resources.ResourceManager.GetResourceCount | testing/playwright/utils/ResourceManager.ts:119-121 | Returns the ledger length and changes nothing. |
| Resources.ResourceManager.GetResources | testing/playwright/utils/ResourceManager.ts:123-125 | Returns a sequence equal to the ledger and changes nothing. |
| Resources.ResourceManager.LoadResourcesFromFile | testing/playwright/utils/ResourceManager.ts:127-132 | A file holding a list replaces the ledger with it. A missing file leaves the ledger unchanged. Text that does not parse is an error and also leaves the ledger unchanged. |
| Resources.ResourceManager.SaveResourcesToFile | testing/playwright/utils/ResourceManager.ts:134-136 | The file afterwards holds the whole ledger, and the ledger is unchanged. |
| Resources.SaveThenLoad | testing/playwright/utils/ResourceManager.ts:127-136 | Saving a ledger and loading the file into a new manager reproduces the list. |
| Resources.TeardownScenario | testing/playwright/utils/ResourceManager.ts:80-117 | Three resources answered with 200, 404 and 500 give two successes and one failure that carries the 500. The ledger is empty afterwards. |
| VsphereCleanup.InfoOf | testing/playwright/utils/vsphere-cleanup.ts:58-63 | The snapshot count is the snapshot list's length, or 0 when the list is absent. `hasSnapshots` holds if and only if the count is positive. |
| VsphereCleanup.CheckVMSnapshots | testing/playwright/utils/vsphere-cleanup.ts:20-68 | Info is returned if and only if the provider UID, the route and the VM record are all present, every command ran, and the record parsed. The info returned is the one built from the record the lookup found. It is consistent, and every failure is one of the lookup errors. |
| VsphereCleanup.CheckVMSnapshotsGates | testing/playwright/utils/vsphere-cleanup.ts:31-54 | An empty UID fails with provider-not-found. Otherwise an empty route fails with route-not-found. Otherwise blank VM output fails with VM-not-found. |
| VsphereCleanup.CheckMultipleVMSnapshots | testing/playwright/utils/vsphere-cleanup.ts:73-96 | Exactly one result per name, in input order. A successful check yields its info; a failed check yields the `{name, '', -1, false}` placeholder, and the loop goes on. Each result is either consistent or the placeholder, never both. |
| VsphereCleanup.LogSnapshotWarning | testing/playwright/utils/vsphere-cleanup.ts:123-141 | No warning if and only if the VM has no snapshots. Otherwise the warning names the VM, its count and the provider. |
| VsphereCleanup.FailIfSnapshotsExist | testing/playwright/utils/vsphere-cleanup.ts:146-153 | Throws if and only if the VM has snapshots, and the error carries the VM name and the count. |
| VsphereCleanup.DirtyRoundsFollowRefreshes | testing/playwright/utils/vsphere-cleanup.ts:167-175 | In the wait's rounds, and after a final clean round, every check comes immediately after a refresh. |
| VsphereCleanup.DirtyRoundsCounts | testing/playwright/utils/vsphere-cleanup.ts:167-175 | `n` dirty rounds contain `n` refreshes and `n` checks. A final round that checks, whether clean or failed, adds one of each, so refreshes equal checks. The one exception is the ending with a failed refresh, which has one refresh more than checks. |
| VsphereCleanup.WaitForSnapshotsRemoved | testing/playwright/utils/vsphere-cleanup.ts:158-186 | Every round before the last found snapshots, its refresh succeeded, and it began before the timeout. The trace is those rounds followed by one of three endings: nothing, which is exactly the timeout case and happens only when the elapsed time reached `timeoutMs`; a failed refresh and its error; or a refresh and a check that found the VM clean (return) or failed (its error). When `timeoutMs` has already elapsed at the first loop head, it times out after zero checks. |
| WarmMigrationFixtures.OrElse | testing/playwright/fixtures/warm-migration-fixtures.ts:28-29 | JavaScript's `or` with a fallback: both an absent value and an empty value fall back. |
| WarmMigrationFixtures.ResolveProvider | testing/playwright/fixtures/warm-migration-fixtures.ts:68-72 | The provider used is the caller's if non-empty, else a non-empty `VSPHERE_PROVIDER_NAME`, else `vs8`. It is never empty. |
| WarmMigrationFixtures.CheckSnapshots | testing/playwright/fixtures/warm-migration-fixtures.ts:71-73 | The check against the resolved provider. The info is consistent, failures are lookup errors, and a provider-not-found error names a non-empty provider. |
| WarmMigrationFixtures.ExplicitProviderIgnoresEnvironment | testing/playwright/fixtures/warm-migration-fixtures.ts:71-73 | With a non-empty explicit provider, the environment variable does not affect the check. |
| WarmMigrationFixtures.FailIfSnapshots | testing/playwright/fixtures/warm-migration-fixtures.ts:75-78 | Passes if and only if the check succeeded and found no snapshots. Throws the pre-existing-snapshots error (name and count) if and only if the VM has snapshots. Otherwise it passes the check's own error through. |
| WarmMigrationFixtures.AttemptsCounts | testing/playwright/fixtures/warm-migration-fixtures.ts:87-93 | Over `n` attempts there are `n` checks, `n - 1` refreshes and `n - 1` sleeps of 10 s, and the first event is a check. |
| WarmMigrationFixtures.PollForCleanup | testing/playwright/fixtures/warm-migration-fixtures.ts:84-107 | There are between 1 and 12 attempts. Every attempt but the last found snapshots, and every refresh but the last succeeded. Success means the last check was clean. The 120 s timeout is raised if and only if 12 checks all found snapshots. A failed refresh stops the loop at once with its error. Every other ending, including a clean or failed 12th check, is decided by the last check: clean returns, and a failed check passes its error through. |
| WarmMigrationFixtures.WaitForCleanup | testing/playwright/fixtures/warm-migration-fixtures.ts:80-108 | The same promises as `PollForCleanup`, where attempt i is `checkSnapshots` against the inventory at that moment and refresh k is the k-th `oc annotate`. Every `oc annotate` before the last succeeded. |
| WarmMigrationFixtures.BeforeTest | testing/playwright/fixtures/warm-migration-fixtures.ts:32-45 | The check before the test produces exactly one report. A failed check gives could-not-check with its error. Snapshots give the warning with the VM, its count and the provider. A clean VM gives the clean report naming the VM. |
| WarmMigrationFixtures.AfterTest | testing/playwright/fixtures/warm-migration-fixtures.ts:51-62 | The check after the test produces at most one report. A failed check gives could-not-check-final with its error. Snapshots give the snapshots-created-during-test warning with the VM, its count and the provider. A clean VM reports nothing. |
| WarmMigrationFixtures.WarmMigrationSetup | testing/playwright/fixtures/warm-migration-fixtures.ts:23-65 | The test body runs exactly once, as the second event, whatever the checks return. The first event is the report of the check before the test, for the VM and provider resolved from the environment: could-not-check, the pre-existing-snapshots warning, or clean. After the test comes could-not-check-final, the snapshots-created-during-test warning, or nothing for a clean VM. |
| Utils.IsEmpty | testing/playwright/utils/utils.ts:31-47 | Null and undefined are empty. An array or string is empty if and only if its length is 0. An object is empty if and only if it has no own keys. Booleans and numbers are never empty. |
| Utils.IsEmptyVersusFalsy | testing/playwright/utils/utils.ts:31-47 | `isEmpty` and falsiness disagree exactly on `[]`, `{}`, `false` and `0`. |
| Utils.DisableGuidedTourSettings | testing/playwright/utils/utils.ts:5-11 | `console.guidedTour` reads `{admin: {completed: true}}`, and every other key keeps its stored value. The key list is unchanged if the key was already present; otherwise the key is appended. A missing item gives just that one key. |
| Utils.DisableGuidedTourIdempotent | testing/playwright/utils/utils.ts:3-13 | Applying the merge to what it stored stores the same object again. |
| JsValues.Get | testing/playwright/e2e/downstream/temp-log-providers.spec.ts:38 | A key reads a value if and only if it is one of the object's keys. |
| JsValues.SetKeys | testing/playwright/e2e/downstream/temp-log-providers.spec.ts:38 | Assigning a key keeps the key list, or appends the key when it is new. |
| JsValues.SetGet | testing/playwright/utils/utils.ts:10 | After `obj[key] = v`, the key reads `v` and every other key reads as before. |
| JsValues.SetIdempotent | testing/playwright/utils/utils.ts:10 | Assigning the same value to a key twice is the same as assigning it once. |
| JsValues.SetAt | testing/playwright/e2e/downstream/temp-log-providers.spec.ts:38 | With distinct keys, assigning an existing key replaces exactly that entry, in place. |
| LogProviders.MatchesAnyField | testing/playwright/e2e/downstream/temp-log-providers.spec.ts:37 | True if and only if the lower-cased key contains one of the lower-cased field names. |
| LogProviders.SensitiveKeyByFirstFields | testing/playwright/e2e/downstream/temp-log-providers.spec.ts:26-37 | A key is secret if and only if it contains one of the first five fields. The two guest-VM password fields add nothing. |
| LogProviders.RedactProperty | testing/playwright/e2e/downstream/temp-log-providers.spec.ts:37-41 | A secret key gets `***REDACTED***` if its value is truthy and `''` otherwise, so objects under it are replaced, not recursed into. A non-secret primitive is unchanged. A non-secret object, array or null is redacted recursively. |
| LogProviders.RedactLoop | testing/playwright/e2e/downstream/temp-log-providers.spec.ts:36-42 | The key loop keeps the copy's key list exactly. |
| LogProviders.RedactSecrets | testing/playwright/e2e/downstream/temp-log-providers.spec.ts:16-45 | Non-objects and null are returned unchanged. An array keeps its length, and each element is the redaction of the original element. An object keeps exactly its keys, in order. |
| LogProviders.RedactLoopRewritesInPlace | testing/playwright/e2e/downstream/temp-log-providers.spec.ts:36-42 | With distinct keys, the loop rewrites each property where it stands. Every value it reads is still the original's. |
| LogProviders.RedactObject | testing/playwright/e2e/downstream/temp-log-providers.spec.ts:25-42 | Redacting an object is the property-by-property rewrite of its spread copy. |
| LogProviders.RedactedProperty | testing/playwright/e2e/downstream/temp-log-providers.spec.ts:26-42 | Each key of a redacted object holds exactly the redaction of that key's original value. |
| LogProviders.RedactPreservesWellFormed | testing/playwright/e2e/downstream/temp-log-providers.spec.ts:16-45 | Redaction keeps every object's keys distinct, at every depth. |
| LogProviders.RedactPropertyIdempotent | testing/playwright/e2e/downstream/temp-log-providers.spec.ts:37-41 | Redacting a property's new value again changes nothing. |
| LogProviders.RedactIdempotent | testing/playwright/e2e/downstream/temp-log-providers.spec.ts:16-45 | Redacting a value twice gives the same result as redacting it once. |
| LogProviders.RedactRemovesSecrets | testing/playwright/e2e/downstream/temp-log-providers.spec.ts:16-45 | No secret is left at any depth: every property with a secret key holds `***REDACTED***` or `''`, and every other property and array element holds a value without secrets. |
| Text.CollapseSpacesShape | testing/playwright/page-objects/common/Table.ts:104 | Collapsing white space leaves only plain spaces, never two in a row. It keeps a leading non-space character and turns leading white space into a space. The result is empty, or all white space, if and only if the input is. |
| Text.CollapseSpacesByWords | testing/playwright/page-objects/common/Table.ts:104 | All-white-space text collapses to one space, or to nothing when empty. Any other text collapses to one space for leading white space, then its words joined by single spaces, then one space for trailing white space. |
| Text.TrimIsSlice | testing/playwright/page-objects/common/Table.ts:103-104 | A trimmed text is a slice of the original, with no white space at either end. |
| Text.TrimEmptyIffAllSpace | testing/playwright/page-objects/common/Table.ts:103 | Trimming leaves nothing if and only if the text is all white space. |
| Text.NormalizeSpace | testing/playwright/page-objects/common/Table.ts:104 | A normalised text has single plain spaces and no space at either end. It is empty if and only if the input is all white space. |
| Text.WordsShape | testing/playwright/page-objects/common/Table.ts:104 | The words of a text are non-empty and hold no white space. A text has no words if and only if it is all white space. |
| Text.WordsKeepCharacters | testing/playwright/page-objects/common/Table.ts:104 | The words, put back to back, are exactly the text's non-white-space characters, in order. |
| Text.NormalizeSpaceByWords | testing/playwright/page-objects/common/Table.ts:104 | `replace(/\s+/g, ' ').trim()` is the words of the text joined by single spaces. |
| Text.NormalizeSpaceKeepsCharacters | testing/playwright/page-objects/common/Table.ts:104 | Normalising keeps every non-white-space character, in order, and adds none. |
| Text.Contains | testing/playwright/page-objects/common/Table.ts:103 | `s.includes(sub)` holds if and only if `sub` occurs at some index of `s`. |
| Text.ContainsTransitive | testing/playwright/e2e/downstream/temp-log-providers.spec.ts:37 | Text inside a substring of `s` is inside `s`. |
| Text.ToLower | testing/playwright/e2e/downstream/temp-log-providers.spec.ts:37 | Lower-casing keeps the length and lowers each character. |
| Table.FilterMapFilter | testing/playwright/page-objects/common/Table.ts:102-105 | A filter, a map and a filter in a row decide each element on its own, in order. |
| Table.CleanTextNeverEmpty | testing/playwright/page-objects/common/Table.ts:103-105 | A header that passes the first filter never normalises to `''`, so the last filter's emptiness test removes nothing. |
| Table.GetColumnsByHeader | testing/playwright/page-objects/common/Table.ts:88-106 | The columns are exactly the columns yielded header by header, in header order. |
| Table.GetColumnsAppend | testing/playwright/page-objects/common/Table.ts:98-105 | `getColumns` of concatenated header lists is the concatenation of their columns. |
| Table.GetColumnsShape | testing/playwright/page-objects/common/Table.ts:102-105 | There are at most as many columns as headers. Every column is white-space normalised, non-empty and not `More information on concerns`. |
| Table.IsColumnVisible | testing/playwright/page-objects/common/Table.ts:128-131 | A column is visible if and only if some header, once filtered and normalised, is exactly the name. |
| Table.MatchingItems | testing/playwright/page-objects/common/Table.ts:56-59 | An item is matched if and only if it is one of the list items and its text is the column name. None match if and only if no item has that text. |
| Table.MatchingItemsAppend | testing/playwright/page-objects/common/Table.ts:56-59 | Items are matched one at a time, in list order: matching a concatenation gives the concatenation of the matches. |
| Table.MatchingItemsSingle | testing/playwright/page-objects/common/Table.ts:56-59 | A single item is matched exactly when its text is the column name. |
| Table.ManageColumns | testing/playwright/page-objects/common/Table.ts:55-85 | With no matching item, the dialog is cancelled and the call fails with column-not-found. Several checkboxes are a strict-mode failure with their count, after no steps. Success comes if and only if an item matches and it has at most one checkbox. On success the steps are a check of the box, made only when there is one box that is neither disabled nor checked, then Save. |
| Table.EnableColumn | testing/playwright/page-objects/common/Table.ts:39-86 | A visible column causes no steps and succeeds. Otherwise the dialog is opened first. Not-found happens if and only if no item matches, and then the steps are open and cancel. A strict-mode failure follows the opening alone. Success comes if and only if the column is visible or a matching item has at most one checkbox. For a hidden column the steps are then open, the check of a box that is neither disabled nor checked, and Save. |
| Table.FirstMatch | testing/playwright/page-objects/common/Table.ts:121 | The row picked matches every option, and every earlier row fails some option. With no row picked, no row matches. |
| Table.KeepWithText | testing/playwright/page-objects/common/Table.ts:118 | A row stays selected if and only if it was selected and its text has the value. The selection keeps document order. |
| Table.AllRows | testing/playwright/page-objects/common/Table.ts:115 | `tbody tr` selects every row index, in order. |
| Table.GetRow | testing/playwright/page-objects/common/Table.ts:108-122 | After narrowing by each option in turn, `first()` is the first row whose text has every option value. |
| Table.GetRowByText | testing/playwright/page-objects/common/Table.ts:108-122 | The same, with Playwright's normalised, case-insensitive `hasText`. |
| Table.MatchesAllByValues | testing/playwright/page-objects/common/Table.ts:117-119 | Options asking for the same set of values match the same rows. |
| Table.FirstMatchOrderFree | testing/playwright/page-objects/common/Table.ts:115-121 | The order of the options, and their column names, do not change the row picked. |

## Left out

- Concurrency: `cleanupAll` starts its deletes through `Promise.allSettled`. The model issues them one after another, each with its own response. Only the index-aligned tally depends on them.
- `page.evaluate`, `fetch`, the request headers and the CSRF-token lookup are left out. Each delete's outcome is an input response.
- The `oc`, `curl` and `jq` commands and `JSON.parse` are answers of an `Inventory`. The model keeps the record the `jq` filter prints and whether it parses. The VM query receives the raw command outputs, and the trims it applies are left to the oracle.
- `refreshProviderInventory`'s timestamp, its log line and its 5 s settle wait are folded into one `Refresh` event, whose outcome is an input.
- Real time: `Date.now()` is a strictly increasing clock, and every `setTimeout` is a `Sleep` event in the trace.
- Console output is left out, with these exceptions kept as data: the warning `logSnapshotWarning` prints, the messages of thrown errors, the success and failure tally `cleanupAll` logs (the method itself returns nothing), and the reports of `warmMigrationSetup` (warm-migration-fixtures.ts:41, 44, 56-58 and 61). The text of those messages is not modelled.
- The file system: `existsSync`, `readFileSync`, `writeFileSync` and `JSON.stringify` become a `ResourcesFile` value. Saving is modelled as writing a value that reads back as the same list.
- `readFileSync` and `writeFileSync` can throw (ResourceManager.ts:129 and 135), for example on a permission error. Those failures are not modelled.
- LoadResourcesFromFile: a file holding valid JSON that is not a list of resources is assigned to the ledger unchecked (ResourceManager.ts:130). The model has no such file value: a file either holds a list or does not parse.
- `localStorage` and `addInitScript` are left out. Once parsed, the stored settings are an input, and a stored item that is not valid JSON (where `JSON.parse` throws) is not modelled.
- `dismissGuidedTourModal` and `waitForPatternFlyStyles` are left out: they only poll the DOM.
- The other `Table` methods (`changeFilter`, `clearAllFilters`, the click, select and search actions, and `waitForTableLoad`) are left out: they only drive locators.
- Playwright `expect` visibility assertions on the Manage columns dialog are left out.
- `enableColumn`'s `hasText: new RegExp('^' + columnName + '$')` is modelled as exact equality of the item's text with the name. Regular-expression characters inside a column name are not interpreted.
- `toLowerCase` is modelled on ASCII letters only. Unicode case mapping is not modelled.
- JavaScript numbers are integers here, so NaN, floating point and `-0` are not modelled. This matters only for truthiness.
- `Object.keys` lists integer-like keys first, in numeric order. The model keeps insertion order for every key.
- A JSON file's nesting of objects is the only source of recursion. Cyclic values are not modelled.
- Locators: `rows.filter({ hasText })` is modelled on row indices. Which element a locator resolves to, and at what moment, is not modelled.
- The timeout error of `waitForSnapshotsRemoved` carries only `timeoutMs`, and that of `waitForCleanup` only its 120 s. Neither carries the last snapshot count. The number of rounds of `waitForSnapshotsRemoved` depends on the clock, not on `ceil(timeoutMs / pollIntervalMs)`.
- Loading a file that is present but not valid JSON throws (`JSON.parse`); the model returns an error and leaves the ledger as it was.
