# Adapter screen and settings-form compiler of the administration console

This project models two pieces of client-side logic of the browser console
of a database management system.

**The adapter configuration screen** (`AdaptersComponent`). It lists the
deployed stores and sources and the catalogs of adapter types that can be
deployed. It opens a dialog that either edits a deployed adapter's settings
or deploys a new adapter, and it deletes an adapter after two clicks. The
model is the class `Adapters.AdaptersComponent`, whose fields are the
component's fields. Requests to the backend gateway and the effects a user
sees (toasts, the dialog opening and closing, the navigation back to the
list) are recorded in two ghost logs, `calls` and `effects`. Each gateway
answer is a separate method that receives the answer (`OnStoresLoaded`,
`OnDeployResponse`, `OnRemoveResponse`, ...).

**The descriptor-to-form compiler** (`FormGeneratorComponent`). It copies a
server-side page descriptor (page → groups → configs) into `UiPage`,
`UiGroup` and `UiConfig`. It then flattens the copy, group by group and
config by config, into one form group keyed by config key, with
abstract validator names translated to validators.

Angular's reactive forms are reduced to records (module `Forms`). A control
is its value, its disabled flag and its list of validator tags
(`Required`, `Email`, `Pattern`, `Unique`). A form group is a map from
control name to control. Validity follows Angular's rules:

- a disabled control has no errors and is not valid;
- a group is DISABLED when it has controls and all are disabled;
- a group is INVALID when some control is.

The two regular expressions (the gateway's unique-name pattern and the
e-mail pattern) are parameters (`Forms.Matchers`): the model uses only
their verdicts. JavaScript values, their truthiness and their string form
are in `JsValues`. JavaScript's string `>` and the in-place sort of fetched
lists are in `Ordering`.

Files: `js_values.dfy`, `ordering.dfy`, `forms.dfy`, `form_generator.dfy`,
`adapters.dfy`.

The code never clears `deletingAdapter`, not even after a successful
delete. The documented state machine instead goes back to "idle" at that
point. The model follows the code: after any click, the clicked adapter is
the pending one. A re-fetch replaces the list objects, so a later click
lands on a new object, which then counts as a first click.

Two more behaviours of the code are kept as written. A deploy answer other
than `true` still closes the dialog, after the warning
(adapters.component.ts:206-208). `saveAdapterSettings` writes
`adapter.settings` before the gateway answers, so a failed update leaves the
adapter object changed while the error toast is shown
(adapters.component.ts:138-141, 147-148): `SaveAdapterSettings` changes
`settings` and `OnSettingsUpdateFailed` does not undo it.

## Model

| member | source | states |
|---|---|---|
| `Adapters.UniqueNameRejects` | src/app/views/adapters/adapters.component.ts:273-281 | The unique-name validator passes every falsy value. Any other value is rejected with `unique` exactly when some adapter's `uniqueName` is strictly equal to it. It never reports another error. |
| `Forms.NameTakenIff` | src/app/views/adapters/adapters.component.ts:276-279 | The early-return scan finds a match exactly when some entry of the list equals the value (both directions). |
| `Adapters.BuildEditForm` | src/app/views/adapters/adapters.component.ts:123-131 | The edit dialog's loop builds exactly `EditForm`: one `fc[name] = ...` per setting, in order. |
| `Adapters.EditFormKeys` | src/app/views/adapters/adapters.component.ts:124-130 | The edit form has one control per setting name and no other control. |
| `Adapters.EditFormControls` | src/app/views/adapters/adapters.component.ts:124-130 | For the last setting with a name, the control holds `currentSettings[name]` (undefined when missing). It is disabled iff the setting is not modifiable, and it has `required` iff the setting is required. |
| `Adapters.AdaptersComponent.InitAdapterSettingsModal` | src/app/views/adapters/adapters.component.ts:121-134 | The adapter becomes the edited one, the edit form is `EditForm` of its settings, and the dialog opens. |
| `Adapters.BuildDeployForm` | src/app/views/adapters/adapters.component.ts:156-167 | The deploy dialog's loop builds exactly `DeployForm`: one `fc[name] = ...` per setting, in order. |
| `Adapters.DeployFormKeys` | src/app/views/adapters/adapters.component.ts:157-166 | The deploy form has one control per setting name and no other control. |
| `Adapters.DeployFormControls` | src/app/views/adapters/adapters.component.ts:157-166 | For the last setting with a name, the control starts at `options[0]` when `options` is a non-empty list, at undefined when it is an empty list (an empty array is truthy and has no element 0), and at `defaultValue` when there is no `options`. It is enabled, and it has `required` iff the setting is required. |
| `Adapters.AdaptersComponent.InitDeployModal` | src/app/views/adapters/adapters.component.ts:154-173 | The settings form is `DeployForm`. The unique-name form is one empty control with required, pattern and a uniqueness check against stores followed by sources. If either list has not arrived, the spread throws: the settings form is set, the unique-name form is untouched and the dialog stays closed. |
| `Adapters.FeedbackFor` | src/app/views/adapters/adapters.component.ts:175-183 | Priority order, each as an iff: 'missing unique name' when `required` is set; else 'invalid unique name' when `pattern` is set; else 'name is not unique' when `unique` is set; '' when none of the three is set. |
| `Adapters.UniqueNameFeedback` | src/app/views/adapters/adapters.component.ts:169-183 | For the deploy dialog's unique-name control: an empty input says 'missing unique name'. A value the pattern rejects says 'invalid unique name'. A value the pattern accepts says 'name is not unique' iff an adapter already has that name. The message is '' iff the control is valid. |
| `Adapters.AdaptersComponent.GetFeedback` | src/app/views/adapters/adapters.component.ts:175-183 | For the unique-name control the component holds, the same priority as `FeedbackFor`, each an iff over that control's current errors: 'missing unique name' iff `required`; 'invalid unique name' iff `pattern` without `required`; 'name is not unique' iff `unique` alone of the three; '' iff none of them. |
| `Adapters.ValidateUniqueName` | src/app/views/adapters/adapters.component.ts:273-274 | The validator captures exactly the given adapters' unique names, one per adapter and in order; `UniqueNameRejects` states what it then reports. |
| `JsValues.Decimal` | src/app/views/adapters/adapters.component.ts:203 | The string form of a natural number in a toast: decimal digits with no leading zero that spell exactly that number. |
| `Adapters.GetAdapterSetting` | src/app/views/adapters/adapters.component.ts:185-187 | Returns the first setting whose name equals the key, and nothing iff no setting has that name. |
| `Adapters.AdaptersComponent.Deploy` | src/app/views/adapters/adapters.component.ts:189-200 | Nothing is sent unless both forms are valid. Otherwise exactly one request is sent: the unique-name value, the adapter type's `clazz` and exactly the settings form's name→value map. |
| `Forms.CollectValues` | src/app/views/adapters/adapters.component.ts:197-199 | Copying controls into an empty object gives exactly the controls' keys, each with its control's value. |
| `Adapters.AdaptersComponent.SaveAdapterSettings` | src/app/views/adapters/adapters.component.ts:136-142 | The edited adapter's `settings` becomes exactly the edit form's name→value map. The adapter is sent with that map. |
| `Adapters.AdaptersComponent.OnSettingsUpdated` | src/app/views/adapters/adapters.component.ts:143-146 | Success toast, the dialog closes, and stores and sources are fetched again. |
| `Adapters.AdaptersComponent.OnSettingsUpdateFailed` | src/app/views/adapters/adapters.component.ts:147-150 | Error toast; nothing else changes. |
| `Adapters.AdaptersComponent.OnDeployResponse` | src/app/views/adapters/adapters.component.ts:201-208 | Only a response of `true` gives the 'Deployed "name"' toast and the navigation back. Any other response gives a warning. The dialog closes in both cases. |
| `Adapters.AdaptersComponent.OnDeployFailed` | src/app/views/adapters/adapters.component.ts:209-211 | A transport error gives an error toast and leaves the dialog open. |
| `Adapters.AdaptersComponent.RemoveAdapter` | src/app/views/adapters/adapters.component.ts:215-219 | A click on any adapter other than the pending one makes it pending and sends nothing. A click on the pending one sends exactly one remove request with its `uniqueName` and leaves it pending. |
| `Adapters.AdaptersComponent.OnRemoveResponse` | src/app/views/adapters/adapters.component.ts:220-227 | Without an error, a 'Dropped' toast and a re-fetch of stores and sources. With an error, the exception toast and no request. |
| `Adapters.AdaptersComponent.OnRemoveFailed` | src/app/views/adapters/adapters.component.ts:228-231 | A transport error gives the 'server error' toast. |
| `Adapters.TwoClickDelete` | src/app/views/adapters/adapters.component.ts:215-234 | Clicks on A, then B, then A, then A send exactly one remove request, for A, and leave A pending. |
| `Adapters.AdaptersComponent.Validate` | src/app/views/adapters/adapters.component.ts:236-244 | No class without a form or for a disabled control. Otherwise 'is-valid' iff the control is valid and 'is-invalid' iff it is invalid. |
| `Adapters.GetLogo` | src/app/views/adapters/adapters.component.ts:246-268 | The seven database adapters get an image under `assets/dbms-logos/`, and only they do. 'File' gets the file icon, and every other name gets the database icon. |
| `Adapters.AdaptersComponent.OnStoresLoaded` | src/app/views/adapters/adapters.component.ts:66-70 | Deployed stores are stored sorted ascending by `uniqueName`, as a permutation of the response. The sortedness invariant `Valid` is kept. |
| `Adapters.AdaptersComponent.OnSourcesLoaded` | src/app/views/adapters/adapters.component.ts:75-78 | Deployed sources are stored as received, unsorted. |
| `Adapters.AdaptersComponent.OnAvailableStoresLoaded` | src/app/views/adapters/adapters.component.ts:85-89 | Available stores are stored sorted ascending by `name`, as a permutation of the response. |
| `Adapters.AdaptersComponent.OnAvailableSourcesLoaded` | src/app/views/adapters/adapters.component.ts:94-98 | Available sources are stored sorted ascending by `name`, as a permutation of the response. |
| `Ordering.SortByKey` | src/app/views/adapters/adapters.component.ts:69 | Sorting in place with the comparator `(a > b) ? 1 : -1` leaves no pair out of order and gives a permutation (multiset-equal) of the input. |
| `Ordering.GreaterAsymmetric` | src/app/views/adapters/adapters.component.ts:88 | JavaScript's string `>` is asymmetric. |
| `Ordering.NotGreaterTransitive` | src/app/views/adapters/adapters.component.ts:97 | "Not greater" is transitive, so a list ordered pairwise by neighbours is ordered as a whole. |
| `Ordering.AdjacentSortedIsSorted` | src/app/views/adapters/adapters.component.ts:69 | No neighbouring pair out of order implies that no pair at all is out of order. |
| `Adapters.AdaptersComponent.GetAvailableAdapters` | src/app/views/adapters/adapters.component.ts:105-112 | The 'addStore' route gives the available stores and the 'addSource' route gives the available sources. Any other route gives null. A returned list is always sorted by name. |
| `Adapters.AdaptersComponent.OnCloseModal` | src/app/views/adapters/adapters.component.ts:114-119 | The edited adapter, the available adapter and their two settings forms are cleared; the unique-name form is kept. |
| `Adapters.AdaptersComponent.NgOnInit` | src/app/views/adapters/adapters.component.ts:43-46 | The four lists are requested in order, and the route parameter is read. |
| `Adapters.AdaptersComponent.OnRouteParams` | src/app/views/adapters/adapters.component.ts:47-49 | A new `action` parameter replaces the route. |
| `Adapters.AdaptersComponent.GetStoresAndSources` | src/app/views/adapters/adapters.component.ts:65-82 | Requests the deployed stores, then the deployed sources. |
| `Adapters.AdaptersComponent.FetchAvailableAdapters` | src/app/views/adapters/adapters.component.ts:84-103 | Requests the available stores, then the available sources. |
| `Adapters.AdaptersComponent.constructor` | src/app/views/adapters/adapters.component.ts:18-32 | Every list, form and selection starts unset, and nothing has been requested. |
| `FormGenerator.NewUiConfig` | src/app/views/forms/form-generator/form-generator.component.ts:127-134 | All six fields are copied unchanged: the copy maps back to its payload. |
| `FormGenerator.NewUiGroup` | src/app/views/forms/form-generator/form-generator.component.ts:107-116 | `id`, `pageId`, `title` and `description` are copied, with exactly one config per entry of `configs`, in enumeration order. The copy maps back to its payload. |
| `FormGenerator.NewUiPage` | src/app/views/forms/form-generator/form-generator.component.ts:88-97 | `id`, `title` and `description` are copied, with exactly one group per entry of `groups`, in enumeration order. The copy maps back to its payload. |
| `FormGenerator.PageToJavaInjective` | src/app/views/forms/form-generator/form-generator.component.ts:83-135 | Mapping a copy back is one-to-one, so the structural copy of a payload is unique. |
| `FormGenerator.MapValidators` | src/app/views/forms/form-generator/form-generator.component.ts:49-63 | The loop computes `Translated`. An absent or undefined list gives no validators. |
| `FormGenerator.TranslateNamesAppend` | src/app/views/forms/form-generator/form-generator.component.ts:53-59 | Translation is name by name: a concatenation translates to the concatenation of the translations, so input order is kept. |
| `FormGenerator.TranslateNamesCounts` | src/app/views/forms/form-generator/form-generator.component.ts:54-58 | There are as many `required` as 'REQUIRED' names and as many `email` as 'EMAIL' names. |
| `FormGenerator.TranslateNamesShape` | src/app/views/forms/form-generator/form-generator.component.ts:53-59 | Every other name is dropped: only `required` and `email` appear, and the output is never longer than the input. |
| `FormGenerator.BuildForm` | src/app/views/forms/form-generator/form-generator.component.ts:26-34 | The nested loop builds exactly `FormOf(page)`, visiting group by group, then config by config. |
| `FormGenerator.FormKeys` | src/app/views/forms/form-generator/form-generator.component.ts:26-32 | The form's key set equals the set of `key`s over all configs of all groups. |
| `FormGenerator.FlattenMembers` | src/app/views/forms/form-generator/form-generator.component.ts:27-28 | The nested loop visits exactly the configs of the page's groups: a config is visited iff some group holds it. |
| `FormGenerator.LastConfigWins` | src/app/views/forms/form-generator/form-generator.component.ts:27-31 | When configs share a key, the one visited last determines that key's control. |
| `FormGenerator.ControlFromConfig` | src/app/views/forms/form-generator/form-generator.component.ts:30 | Every control comes from a config with its key. It starts at the config's value if truthy, else `''`, it is enabled, and it carries the config's mapped validators. |
| `FormGenerator.RequiredFieldRejectsEmpty` | src/app/views/forms/form-generator/form-generator.component.ts:30 | A config whose validators are just 'REQUIRED' gets a control that, whatever value it is given, is valid iff that value is not null, undefined or ''. |
| `Forms.Assemble` | src/app/views/forms/form-generator/form-generator.component.ts:26-32 | Filling a dictionary entry by entry gives exactly the entries' keys. |
| `Forms.AssembleLastWins` | src/app/views/adapters/adapters.component.ts:130 | A key's value is the value of its last entry. |
| `Forms.AssembleKeyHasLastEntry` | src/app/views/adapters/adapters.component.ts:166 | Every key of the dictionary has a last entry. |
| `FormGenerator.FormGeneratorComponent.constructor` | src/app/views/forms/form-generator/form-generator.component.ts:12-20 | Not submitted, no page, no form yet, and page 1 requested. |
| `FormGenerator.FormGeneratorComponent.OnPage` | src/app/views/forms/form-generator/form-generator.component.ts:20-35 | The page is the structural copy of the payload, and the form is `FormOf` that copy. |
| `FormGenerator.FormGeneratorComponent.InputValidation` | src/app/views/forms/form-generator/form-generator.component.ts:66-72 | Nothing before submission. After it, 'is-valid' iff the control is valid and 'is-invalid' otherwise. |
| `FormGenerator.FormGeneratorComponent.OnSubmit` | src/app/views/forms/form-generator/form-generator.component.ts:74-79 | Sets `submitted`. |

## Left out

- HTTP: every `subscribe` becomes a request in the `calls` log and one method per answer. The error callbacks of the four list fetches and of the page request only write to the console, so they have no method.
- The reconnection re-fetch and the unsubscription in `ngOnDestroy` are left out. They are stream plumbing, and the race between overlapping fetches is not sequential logic.
- Toasts, `ModalDirective.show/hide` and `Router.navigate` are ghost `effects` entries only. `console.log` is left out.
- Angular's validator and form-control internals are reduced to `Forms` (errors as a set of keys). The unique-name and e-mail regular expressions are parameters, with only their verdicts modelled.
- `Ordering.SortByKey`: the browser's sort algorithm is not specified. The model sorts by insertion and promises only sortedness and a permutation. The order among equal names is not modelled, since the comparator never answers 0.
- `Ordering.Greater` compares Unicode scalar values. JavaScript compares UTF-16 code units, and the two differ for characters outside the Basic Multilingual Plane.
- JavaScript numbers are integers here: fractions and NaN are not modelled.
- Object key enumeration order: the payload's `groups` and `configs` objects are given as sequences already in enumeration order.
- `Adapters.Adapter`: the data model file is not part of this model. Stores and sources share one class holding the fields the screen reads. The `settings` property is absent in the source until the first save; here it starts as an empty map.
- `UiPage`, `UiGroup` and `UiConfig` are classes in the source. Nothing updates them after construction, so they are values here.
- `Adapters.AdaptersComponent.Deploy`: requires the dialog's forms to exist. The source would throw a TypeError otherwise, which the dialog's lifecycle rules out.
- `Adapters.AdaptersComponent.Validate`, `FormGenerator.FormGeneratorComponent.InputValidation` and `Adapters.AdaptersComponent.GetFeedback` require the control to exist. The source would throw a TypeError otherwise.
- `Adapters.AdaptersComponent.SaveAdapterSettings`: requires an edited adapter and its form. The source would throw a TypeError otherwise, after it has already assigned `settings = {}` to the adapter; that partial write is not modelled.
- `JsValues.Value` holds only scalars (undefined, null, booleans, integers, strings). Setting values and `UiConfig.value` can be arrays or objects in the source; for those, truthiness (`i.value || ''` keeps an empty array) and Angular's `required` (which treats an empty array as empty) are not modelled.
- `Adapters.AdaptersComponent.SaveAdapterSettings`: the update request carries the whole adapter object. The log records the object and the settings map it carried.
- src/app/views/views-routing.module.ts is a declarative route table. Route matching is done by the framework.
- src/app/models/information-page.model.ts holds interfaces only, with no behaviour.
- src/app/components/data-table/models/sort-state.model.ts holds two field defaults and nothing to verify.
