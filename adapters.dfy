/** The adapter configuration screen: lists of deployed stores and sources
    and of available adapter types, the dialog that edits a deployed
    adapter's settings or deploys a new one, and the two-click delete.
    Gateway requests and user-visible effects (toasts, the dialog, the
    navigation back) are recorded in two ghost logs; each gateway answer is
    a separate method that receives the answer. */
module Adapters {
  import opened JsValues
  import opened Forms
  import opened Ordering

  /** One configurable setting of an adapter type. */
  datatype AdapterSetting = AdapterSetting(
    name: string, defaultValue: Value, required: bool, modifiable: bool,
    options: Option<seq<Value>>)

  /** A catalog entry: an adapter type that can be deployed. */
  datatype AdapterInformation = AdapterInformation(
    name: string, clazz: string, adapterSettings: seq<AdapterSetting>)

  /** A deployed store or source. The screen compares adapters by identity
      and writes `settings` into the very object the lists hold, so an
      adapter is an object; only `settings` ever changes. */
  class Adapter {
    const uniqueName: string
    const adapterName: string
    const currentSettings: map<string, Value>
    const adapterSettings: seq<AdapterSetting>
    var settings: map<string, Value>

    constructor (uniqueName: string, adapterName: string,
                 currentSettings: map<string, Value>, adapterSettings: seq<AdapterSetting>)
      ensures this.uniqueName == uniqueName && this.adapterName == adapterName
      ensures this.currentSettings == currentSettings && this.adapterSettings == adapterSettings
      ensures settings == map[]
    {
      this.uniqueName := uniqueName;
      this.adapterName := adapterName;
      this.currentSettings := currentSettings;
      this.adapterSettings := adapterSettings;
      settings := map[];
    }
  }

  function UniqueNameOf(a: Adapter): string
  {
    a.uniqueName
  }

  function NameOf(a: AdapterInformation): string
  {
    a.name
  }

  /** The body of the deploy request. */
  datatype DeployRequest = DeployRequest(uniqueName: Value, clazzName: string, settings: map<string, Value>)

  /** The part of a gateway result the screen inspects. */
  datatype ResultSet = ResultSet(error: Value)

  /** Requests sent to the gateway. */
  datatype Call =
    | GetStores
    | GetSources
    | GetAvailableStores
    | GetAvailableSources
    | UpdateAdapterSettings(adapter: Adapter, settings: map<string, Value>)
    | AddAdapter(request: DeployRequest)
    | RemoveAdapter(uniqueName: string)

  /** What the user sees happen. */
  datatype Effect =
    | ToastSuccess(message: string)
    | ToastWarn(message: string)
    | ToastError(message: string, title: Option<string>)
    | ToastException(result: ResultSet)
    | ShowModal
    | HideModal
    | NavigateToParent

  // ---------------------------------------------------------------------
  // The unique-name validator

  function UniqueNames(adapters: seq<Adapter>): (names: seq<string>)
    ensures |names| == |adapters|
    ensures forall i :: 0 <= i < |adapters| ==> names[i] == adapters[i].uniqueName
  {
    seq(|adapters|, i requires 0 <= i < |adapters| => adapters[i].uniqueName)
  }

  /** `validateUniqueName(adapters)`: the validator closes over the adapters
      it is given. */
  function ValidateUniqueName(adapters: seq<Adapter>): (v: Validator)
    ensures v.Unique? && |v.taken| == |adapters|
    ensures forall i :: 0 <= i < |adapters| ==> v.taken[i] == adapters[i].uniqueName
  {
    Unique(UniqueNames(adapters))
  }

  /** A falsy value always passes; any other value is rejected with
      `unique` exactly when some adapter's unique name equals it. */
  lemma UniqueNameRejects(adapters: seq<Adapter>, value: Value, m: Matchers)
    ensures !Truthy(value) ==> Check(ValidateUniqueName(adapters), value, m) == {}
    ensures Truthy(value) ==>
      (Check(ValidateUniqueName(adapters), value, m) == {UniqueError} <==>
       exists a :: a in adapters && Str(a.uniqueName) == value)
    ensures Check(ValidateUniqueName(adapters), value, m) <= {UniqueError}
  {
    var names := UniqueNames(adapters);
    NameTakenIff(names, value);
    if exists a :: a in adapters && Str(a.uniqueName) == value {
      var a :| a in adapters && Str(a.uniqueName) == value;
      var i :| 0 <= i < |adapters| && adapters[i] == a;
      assert Str(names[i]) == value;
    }
  }

  // ---------------------------------------------------------------------
  // The two dialog forms

  /** `currentSettings[name]`, undefined when the key is missing. */
  function Lookup(m: map<string, Value>, key: string): Value
  {
    if key in m then m[key] else Undefined
  }

  function RequiredValidators(s: AdapterSetting): seq<Validator>
  {
    if s.required then [Required] else []
  }

  /** The control the edit dialog builds for one setting. */
  function EditControl(current: map<string, Value>, s: AdapterSetting): Control
  {
    Control(Lookup(current, s.name), !s.modifiable, RequiredValidators(s))
  }

  function EditEntries(current: map<string, Value>, settings: seq<AdapterSetting>): seq<(string, Control)>
  {
    seq(|settings|, i requires 0 <= i < |settings| => (settings[i].name, EditControl(current, settings[i])))
  }

  /** The edit dialog's form group for an adapter. */
  function EditForm(current: map<string, Value>, settings: seq<AdapterSetting>): FormGroup
  {
    Assemble(EditEntries(current, settings))
  }

  /** The initial value of a new adapter's setting: the first option when
      the setting has options (undefined for an empty list), otherwise the
      default value. */
  function DeployValue(s: AdapterSetting): Value
  {
    match s.options
    case None => s.defaultValue
    case Some(opts) => if |opts| > 0 then opts[0] else Undefined
  }

  function DeployControl(s: AdapterSetting): Control
  {
    Control(DeployValue(s), false, RequiredValidators(s))
  }

  function DeployEntries(settings: seq<AdapterSetting>): seq<(string, Control)>
  {
    seq(|settings|, i requires 0 <= i < |settings| => (settings[i].name, DeployControl(settings[i])))
  }

  /** The deploy dialog's settings form group for an adapter type. */
  function DeployForm(settings: seq<AdapterSetting>): FormGroup
  {
    Assemble(DeployEntries(settings))
  }

  /** The deploy dialog's second form group: one empty unique-name control,
      required, matching the gateway's pattern and unique among `adapters`. */
  function UniqueNameForm(adapters: seq<Adapter>): FormGroup
  {
    map["uniqueName" := Control(Null, false, [Required, Pattern, ValidateUniqueName(adapters)])]
  }

  /** Entry i is the last setting with its name. */
  predicate LastNamed(settings: seq<AdapterSetting>, i: int)
  {
    0 <= i < |settings| &&
    forall j :: i < j < |settings| ==> settings[j].name != settings[i].name
  }

  /** The edit form has one control per setting name; for the last setting
      with a name, the control holds the adapter's current value, is
      disabled exactly when the setting is not modifiable and is required
      exactly when the setting is. */
  lemma EditFormControls(current: map<string, Value>, settings: seq<AdapterSetting>, i: int)
    requires LastNamed(settings, i)
    ensures settings[i].name in EditForm(current, settings)
    ensures EditForm(current, settings)[settings[i].name].value == Lookup(current, settings[i].name)
    ensures EditForm(current, settings)[settings[i].name].disabled <==> !settings[i].modifiable
    ensures Required in EditForm(current, settings)[settings[i].name].validators <==> settings[i].required
  {
    var entries := EditEntries(current, settings);
    assert LastWithKey(entries, i);
    AssembleLastWins(entries, i);
  }

  lemma EditFormKeys(current: map<string, Value>, settings: seq<AdapterSetting>)
    ensures EditForm(current, settings).Keys == set s | s in settings :: s.name
  {
    var entries := EditEntries(current, settings);
    forall k | k in EditForm(current, settings).Keys ensures k in set s | s in settings :: s.name {
      var i :| 0 <= i < |entries| && entries[i].0 == k;
      assert settings[i] in settings;
    }
    forall s | s in settings ensures s.name in EditForm(current, settings) {
      var i :| 0 <= i < |settings| && settings[i] == s;
      assert entries[i].0 == s.name;
    }
  }

  /** The deploy form has one control per setting name; for the last setting
      with a name, the control starts at the first option (undefined when the
      option list is empty, since an empty array is truthy) or, without
      options, at the default value; it is enabled, and it is required
      exactly when the setting is. */
  lemma DeployFormControls(settings: seq<AdapterSetting>, i: int)
    requires LastNamed(settings, i)
    ensures settings[i].name in DeployForm(settings)
    ensures settings[i].options.Some? && |settings[i].options.value| > 0 ==>
      DeployForm(settings)[settings[i].name].value == settings[i].options.value[0]
    ensures settings[i].options == Some([]) ==>
      DeployForm(settings)[settings[i].name].value == Undefined
    ensures settings[i].options.None? ==>
      DeployForm(settings)[settings[i].name].value == settings[i].defaultValue
    ensures !DeployForm(settings)[settings[i].name].disabled
    ensures Required in DeployForm(settings)[settings[i].name].validators <==> settings[i].required
  {
    var entries := DeployEntries(settings);
    assert LastWithKey(entries, i);
    AssembleLastWins(entries, i);
  }

  lemma DeployFormKeys(settings: seq<AdapterSetting>)
    ensures DeployForm(settings).Keys == set s | s in settings :: s.name
  {
    var entries := DeployEntries(settings);
    forall k | k in DeployForm(settings).Keys ensures k in set s | s in settings :: s.name {
      var i :| 0 <= i < |entries| && entries[i].0 == k;
      assert settings[i] in settings;
    }
    forall s | s in settings ensures s.name in DeployForm(settings) {
      var i :| 0 <= i < |settings| && settings[i] == s;
      assert entries[i].0 == s.name;
    }
  }

  /** The loop of `initAdapterSettingsModal`: for each setting,
      `fc[name] = new FormControl({value: currentSettings[name], disabled:
      !modifiable}, required ? [required] : [])`. */
  method BuildEditForm(current: map<string, Value>, settings: seq<AdapterSetting>) returns (fc: FormGroup)
    ensures fc == EditForm(current, settings)
  {
    ghost var entries := EditEntries(current, settings);
    fc := map[];
    var i := 0;
    while i < |settings|
      invariant 0 <= i <= |settings|
      invariant fc == Assemble(entries[..i])
    {
      var v := settings[i];
      var validators: seq<Validator> := [];
      if v.required {
        validators := validators + [Required];
      }
      var val := Lookup(current, v.name);
      var control := Control(val, !v.modifiable, validators);
      assert entries[i] == (v.name, control) by {
        assert validators == RequiredValidators(v);
      }
      AssembleSnoc(entries[..i], (v.name, control));
      assert entries[..i + 1] == entries[..i] + [(v.name, control)];
      fc := fc[v.name := control];
      i := i + 1;
    }
    assert entries[..i] == entries;
  }

  /** The loop of `initDeployModal`: for each setting, `fc[name] = new
      FormControl(options ? options[0] : defaultValue, required ? [required] : [])`. */
  method BuildDeployForm(settings: seq<AdapterSetting>) returns (fc: FormGroup)
    ensures fc == DeployForm(settings)
  {
    ghost var entries := DeployEntries(settings);
    fc := map[];
    var i := 0;
    while i < |settings|
      invariant 0 <= i <= |settings|
      invariant fc == Assemble(entries[..i])
    {
      var v := settings[i];
      var validators: seq<Validator> := [];
      if v.required {
        validators := validators + [Required];
      }
      var val := v.defaultValue;
      if v.options.Some? {
        val := if |v.options.value| > 0 then v.options.value[0] else Undefined;
      }
      var control := Control(val, false, validators);
      assert entries[i] == (v.name, control) by {
        assert validators == RequiredValidators(v);
        assert val == DeployValue(v);
      }
      AssembleSnoc(entries[..i], (v.name, control));
      assert entries[..i + 1] == entries[..i] + [(v.name, control)];
      fc := fc[v.name := control];
      i := i + 1;
    }
    assert entries[..i] == entries;
  }

  // ---------------------------------------------------------------------
  // Pure lookups

  /** The message under the unique-name input, by priority: a missing name,
      then a name the pattern rejects, then a name already taken. */
  function FeedbackFor(errors: set<ErrorKey>): (r: string)
    ensures r == "missing unique name" <==> RequiredError in errors
    ensures r == "invalid unique name" <==> RequiredError !in errors && PatternError in errors
    ensures r == "name is not unique" <==>
      RequiredError !in errors && PatternError !in errors && UniqueError in errors
    ensures r == "" <==>
      RequiredError !in errors && PatternError !in errors && UniqueError !in errors
  {
    if errors != {} then
      if RequiredError in errors then "missing unique name"
      else if PatternError in errors then "invalid unique name"
      else if UniqueError in errors then "name is not unique"
      else ""
    else ""
  }

  /** What the unique-name input says for a value: missing when empty,
      invalid when the pattern rejects it, taken when an adapter already has
      that name, and nothing otherwise. */
  lemma UniqueNameFeedback(adapters: seq<Adapter>, value: Value, m: Matchers)
    ensures var c := Control(value, false, [Required, Pattern, ValidateUniqueName(adapters)]);
      && (IsEmptyInput(value) ==> FeedbackFor(Errors(c, m)) == "missing unique name")
      && (!IsEmptyInput(value) && !m.pattern(value) ==> FeedbackFor(Errors(c, m)) == "invalid unique name")
      && (!IsEmptyInput(value) && m.pattern(value) ==>
            (FeedbackFor(Errors(c, m)) == "name is not unique" <==>
             exists a :: a in adapters && Str(a.uniqueName) == value))
      && (FeedbackFor(Errors(c, m)) == "" <==> ControlValid(c, m))
  {
    var c := Control(value, false, [Required, Pattern, ValidateUniqueName(adapters)]);
    UniqueNameRejects(adapters, value, m);
    var errs := Errors(c, m);
    assert errs == Check(Required, value, m) + Check(Pattern, value, m)
                   + Check(ValidateUniqueName(adapters), value, m) by {
      forall e ensures e in errs <==> e in Check(c.validators[0], value, m) ||
                                      e in Check(c.validators[1], value, m) ||
                                      e in Check(c.validators[2], value, m) {
      }
    }
    if !IsEmptyInput(value) && m.pattern(value) && exists a :: a in adapters && Str(a.uniqueName) == value {
      assert Truthy(value);
    }
  }

  /** `adapter.adapterSettings.filter(a => a.name === key)[0]`: the first
      setting with that name, if any. */
  function GetAdapterSetting(settings: seq<AdapterSetting>, key: string): (r: Option<AdapterSetting>)
    ensures r.None? <==> forall s :: s in settings ==> s.name != key
    ensures r.Some? ==> exists i :: (0 <= i < |settings| && settings[i] == r.value &&
      r.value.name == key && forall j :: 0 <= j < i ==> settings[j].name != key)
    decreases |settings|
  {
    if settings == [] then None
    else if settings[0].name == key then Some(settings[0])
    else
      var r := GetAdapterSetting(settings[1..], key);
      assert forall j :: 1 <= j < |settings| ==> settings[j] == settings[1..][j - 1];
      r
  }

  const LogoPath := "assets/dbms-logos/"

  /** The adapter names with a logo image. */
  const ImageLogos: set<string> := {"CSV", "HSQLDB", "PostgreSQL", "MonetDB", "Cassandra", "Cottontail-DB", "MySQL"}

  predicate IsPrefix(p: string, s: string)
  {
    |p| <= |s| && s[..|p|] == p
  }

  /** `getLogo(adapterName)`: an image under the logo directory for the
      known database adapters, a file icon for 'File' and a database icon
      for everything else. */
  function GetLogo(adapterName: string): (r: string)
    ensures adapterName in ImageLogos <==> IsPrefix(LogoPath, r)
    ensures adapterName == "File" <==> r == "fa fa-file-image-o"
    ensures adapterName !in ImageLogos && adapterName != "File" <==> r == "fa fa-database"
  {
    match adapterName
    case "CSV" => LogoPath + "csv.png"
    case "HSQLDB" => LogoPath + "hsqldb.png"
    case "PostgreSQL" => LogoPath + "postgres.svg"
    case "MonetDB" => LogoPath + "monetdb.png"
    case "Cassandra" => LogoPath + "cassandra.png"
    case "Cottontail-DB" => LogoPath + "cottontaildb.png"
    case "File" =>
      assert "fa fa-file-image-o"[0] != LogoPath[0];
      "fa fa-file-image-o"
    case "MySQL" => LogoPath + "mysql.png"
    case _ => "fa fa-database"
  }

  // ---------------------------------------------------------------------
  // The component

  class AdaptersComponent {
    /** The fetched lists; None until the first answer arrives. */
    var stores: Option<seq<Adapter>>
    var sources: Option<seq<Adapter>>
    var availableStores: Option<seq<AdapterInformation>>
    var availableSources: Option<seq<AdapterInformation>>
    /** The `action` route parameter: 'addStore', 'addSource' or anything else. */
    var route: Option<string>

    var editingAdapter: Adapter?
    var editingAdapterForm: Option<FormGroup>
    /** The adapter a first click on delete selected. */
    var deletingAdapter: Adapter?

    var editingAvailableAdapter: Option<AdapterInformation>
    var editingAvailableAdapterForm: Option<FormGroup>
    var availableAdapterUniqueNameForm: Option<FormGroup>

    /** The verdicts of the gateway's unique-name pattern and of the e-mail pattern. */
    const matchers: Matchers

    ghost var calls: seq<Call>
    ghost var effects: seq<Effect>

    /** Deployed stores and both catalogs are kept sorted by name. */
    ghost predicate Valid()
      reads this
    {
      && (stores.Some? ==> Sorted(stores.value, UniqueNameOf))
      && (availableStores.Some? ==> Sorted(availableStores.value, NameOf))
      && (availableSources.Some? ==> Sorted(availableSources.value, NameOf))
    }

    constructor (matchers: Matchers)
      ensures Valid()
      ensures stores == None && sources == None && availableStores == None && availableSources == None
      ensures route == None && editingAdapter == null && editingAdapterForm == None && deletingAdapter == null
      ensures editingAvailableAdapter == None && editingAvailableAdapterForm == None
      ensures availableAdapterUniqueNameForm == None
      ensures this.matchers == matchers && calls == [] && effects == []
    {
      stores, sources := None, None;
      availableStores, availableSources := None, None;
      route := None;
      editingAdapter, editingAdapterForm, deletingAdapter := null, None, null;
      editingAvailableAdapter, editingAvailableAdapterForm := None, None;
      availableAdapterUniqueNameForm := None;
      this.matchers := matchers;
      calls, effects := [], [];
    }

    /** `ngOnInit`: fetch both lists and both catalogs, read the route
        parameter. */
    method NgOnInit(action: Option<string>)
      modifies this`calls, this`route
      ensures calls == old(calls) + [GetStores, GetSources, GetAvailableStores, GetAvailableSources]
      ensures route == action
    {
      GetStoresAndSources();
      FetchAvailableAdapters();
      route := action;
    }

    /** A later value of the route parameter. */
    method OnRouteParams(action: Option<string>)
      modifies this`route
      ensures route == action
    {
      route := action;
    }

    method GetStoresAndSources()
      modifies this`calls
      ensures calls == old(calls) + [GetStores, GetSources]
    {
      calls := calls + [GetStores, GetSources];
    }

    method FetchAvailableAdapters()
      modifies this`calls
      ensures calls == old(calls) + [GetAvailableStores, GetAvailableSources]
    {
      calls := calls + [GetAvailableStores, GetAvailableSources];
    }

    /** The deployed stores arrive: sorted in place by unique name, then kept. */
    method OnStoresLoaded(res: seq<Adapter>)
      requires Valid()
      modifies this`stores
      ensures Valid()
      ensures stores.Some? && Sorted(stores.value, UniqueNameOf)
      ensures multiset(stores.value) == multiset(res)
    {
      var a := new Adapter[|res|](i requires 0 <= i < |res| => res[i]);
      assert a[..] == res;
      SortByKey(a, UniqueNameOf);
      stores := Some(a[..]);
    }

    /** The deployed sources arrive: kept as they are, unsorted. */
    method OnSourcesLoaded(res: seq<Adapter>)
      modifies this`sources
      ensures sources == Some(res)
    {
      sources := Some(res);
    }

    method OnAvailableStoresLoaded(res: seq<AdapterInformation>)
      requires Valid()
      modifies this`availableStores
      ensures Valid()
      ensures availableStores.Some? && Sorted(availableStores.value, NameOf)
      ensures multiset(availableStores.value) == multiset(res)
    {
      var a := new AdapterInformation[|res|](i requires 0 <= i < |res| => res[i]);
      assert a[..] == res;
      SortByKey(a, NameOf);
      availableStores := Some(a[..]);
    }

    method OnAvailableSourcesLoaded(res: seq<AdapterInformation>)
      requires Valid()
      modifies this`availableSources
      ensures Valid()
      ensures availableSources.Some? && Sorted(availableSources.value, NameOf)
      ensures multiset(availableSources.value) == multiset(res)
    {
      var a := new AdapterInformation[|res|](i requires 0 <= i < |res| => res[i]);
      assert a[..] == res;
      SortByKey(a, NameOf);
      availableSources := Some(a[..]);
    }

    /** `getAvailableAdapters()`: the catalog the route asks for, or null;
        either way a sorted list when there is one. */
    function GetAvailableAdapters(): (r: Option<seq<AdapterInformation>>)
      reads this
      requires Valid()
      ensures route == Some("addStore") ==> r == availableStores
      ensures route == Some("addSource") ==> r == availableSources
      ensures route != Some("addStore") && route != Some("addSource") ==> r == None
      ensures r.Some? ==> Sorted(r.value, NameOf)
    {
      if route == Some("addStore") then availableStores
      else if route == Some("addSource") then availableSources
      else None
    }

    method OnCloseModal()
      modifies this`editingAdapter, this`editingAdapterForm
      modifies this`editingAvailableAdapter, this`editingAvailableAdapterForm
      ensures editingAdapter == null && editingAdapterForm == None
      ensures editingAvailableAdapter == None && editingAvailableAdapterForm == None
    {
      editingAdapter := null;
      editingAdapterForm := None;
      editingAvailableAdapter := None;
      editingAvailableAdapterForm := None;
    }

    /** `initAdapterSettingsModal(adapter)`: one control per setting, holding
        the adapter's current value, disabled unless modifiable, required
        when the setting is; then the dialog opens. */
    method InitAdapterSettingsModal(adapter: Adapter)
      modifies this`editingAdapter, this`editingAdapterForm, this`effects
      ensures editingAdapter == adapter
      ensures editingAdapterForm == Some(EditForm(adapter.currentSettings, adapter.adapterSettings))
      ensures effects == old(effects) + [ShowModal]
    {
      editingAdapter := adapter;
      var fc := BuildEditForm(adapter.currentSettings, adapter.adapterSettings);
      editingAdapterForm := Some(fc);
      effects := effects + [ShowModal];
    }

    /** `saveAdapterSettings()`: the edited adapter's `settings` become
        exactly the edit form's name/value pairs, and the adapter is sent
        to the gateway. */
    method SaveAdapterSettings()
      requires editingAdapter != null && editingAdapterForm.Some?
      modifies editingAdapter`settings, this`calls
      ensures editingAdapter.settings == ValuesOf(editingAdapterForm.value)
      ensures calls == old(calls) + [UpdateAdapterSettings(editingAdapter, ValuesOf(editingAdapterForm.value))]
    {
      var adapter := editingAdapter;
      var values := CollectValues(editingAdapterForm.value);
      assert values == ValuesOf(editingAdapterForm.value);
      adapter.settings := values;
      calls := calls + [UpdateAdapterSettings(adapter, values)];
    }

    method OnSettingsUpdated()
      modifies this`calls, this`effects
      ensures effects == old(effects) + [ToastSuccess("Updated adapter settings"), HideModal]
      ensures calls == old(calls) + [GetStores, GetSources]
    {
      effects := effects + [ToastSuccess("Updated adapter settings"), HideModal];
      GetStoresAndSources();
    }

    method OnSettingsUpdateFailed()
      modifies this`effects
      ensures effects == old(effects) + [ToastError("Could not update adapter settings", None)]
    {
      effects := effects + [ToastError("Could not update adapter settings", None)];
    }

    /** `initDeployModal(adapter)`: one control per setting, starting at the
        first option or the default value, required when the setting is;
        then the unique-name form, checked against the deployed stores
        followed by the deployed sources, and the dialog opens. Spreading a
        list that has not arrived yet throws (`ok` is false): the settings
        form is already set, the unique-name form is not. */
    method InitDeployModal(adapter: AdapterInformation) returns (ok: bool)
      modifies this`editingAvailableAdapter, this`editingAvailableAdapterForm
      modifies this`availableAdapterUniqueNameForm, this`effects
      ensures editingAvailableAdapter == Some(adapter)
      ensures editingAvailableAdapterForm == Some(DeployForm(adapter.adapterSettings))
      ensures ok <==> stores.Some? && sources.Some?
      ensures ok ==> availableAdapterUniqueNameForm == Some(UniqueNameForm(stores.value + sources.value))
      ensures ok ==> effects == old(effects) + [ShowModal]
      ensures !ok ==> availableAdapterUniqueNameForm == old(availableAdapterUniqueNameForm)
      ensures !ok ==> effects == old(effects)
    {
      editingAvailableAdapter := Some(adapter);
      var fc := BuildDeployForm(adapter.adapterSettings);
      editingAvailableAdapterForm := Some(fc);
      if stores.None? || sources.None? {
        return false;
      }
      var taken := stores.value + sources.value;
      availableAdapterUniqueNameForm :=
        Some(map["uniqueName" := Control(Null, false, [Required, Pattern, ValidateUniqueName(taken)])]);
      effects := effects + [ShowModal];
      ok := true;
    }

    /** `getFeedback()` for the unique-name input. */
    function GetFeedback(): (r: string)
      reads this
      requires availableAdapterUniqueNameForm.Some? && "uniqueName" in availableAdapterUniqueNameForm.value
      ensures var errs := Errors(availableAdapterUniqueNameForm.value["uniqueName"], matchers);
        && (r == "missing unique name" <==> RequiredError in errs)
        && (r == "invalid unique name" <==> RequiredError !in errs && PatternError in errs)
        && (r == "name is not unique" <==>
              RequiredError !in errs && PatternError !in errs && UniqueError in errs)
        && (r == "" <==> RequiredError !in errs && PatternError !in errs && UniqueError !in errs)
    {
      FeedbackFor(Errors(availableAdapterUniqueNameForm.value["uniqueName"], matchers))
    }

    /** `deploy()`: nothing is sent unless both forms are valid; otherwise
        the request carries the unique name, the adapter type's class and
        exactly the settings form's name/value pairs. */
    method Deploy()
      requires editingAvailableAdapterForm.Some?
      requires GroupValid(editingAvailableAdapterForm.value, matchers) ==>
        availableAdapterUniqueNameForm.Some? && "uniqueName" in availableAdapterUniqueNameForm.value
      requires editingAvailableAdapter.Some?
      modifies this`calls
      ensures !GroupValid(editingAvailableAdapterForm.value, matchers) ==> calls == old(calls)
      ensures (GroupValid(editingAvailableAdapterForm.value, matchers) &&
               !GroupValid(availableAdapterUniqueNameForm.value, matchers)) ==> calls == old(calls)
      ensures (GroupValid(editingAvailableAdapterForm.value, matchers) &&
               GroupValid(availableAdapterUniqueNameForm.value, matchers)) ==>
        calls == old(calls) + [AddAdapter(DeployRequest(
          availableAdapterUniqueNameForm.value["uniqueName"].value,
          editingAvailableAdapter.value.clazz,
          ValuesOf(editingAvailableAdapterForm.value)))]
    {
      if !GroupValid(editingAvailableAdapterForm.value, matchers) {
        return;
      }
      if !GroupValid(availableAdapterUniqueNameForm.value, matchers) {
        return;
      }
      var settings := CollectValues(editingAvailableAdapterForm.value);
      assert settings == ValuesOf(editingAvailableAdapterForm.value);
      var request := DeployRequest(
        availableAdapterUniqueNameForm.value["uniqueName"].value,
        editingAvailableAdapter.value.clazz,
        settings);
      calls := calls + [AddAdapter(request)];
    }

    /** The answer to a deploy request: only `true` counts as success and
        leads back to the list; the dialog closes either way. */
    method OnDeployResponse(request: DeployRequest, res: Value)
      modifies this`effects
      ensures res == Bool(true) ==> (effects == old(effects) +
        [ToastSuccess("Deployed \"" + JsString(request.uniqueName) + "\""), NavigateToParent, HideModal])
      ensures res != Bool(true) ==> (effects == old(effects) +
        [ToastWarn("Could not deploy adapter"), HideModal])
    {
      if res == Bool(true) {
        effects := effects + [ToastSuccess("Deployed \"" + JsString(request.uniqueName) + "\""), NavigateToParent];
      } else {
        effects := effects + [ToastWarn("Could not deploy adapter")];
      }
      effects := effects + [HideModal];
    }

    /** A transport failure of the deploy request: the dialog stays open. */
    method OnDeployFailed()
      modifies this`effects
      ensures effects == old(effects) + [ToastError("Could not deploy adapter", None)]
    {
      effects := effects + [ToastError("Could not deploy adapter", None)];
    }

    /** `removeAdapter(adapter)`: a click on any adapter but the selected
        one selects it and sends nothing; a click on the selected one sends
        one remove request for its unique name and keeps it selected. */
    method RemoveAdapter(adapter: Adapter)
      modifies this`deletingAdapter, this`calls
      ensures deletingAdapter == adapter
      ensures old(deletingAdapter) != adapter ==> calls == old(calls)
      ensures old(deletingAdapter) == adapter ==> calls == old(calls) + [Call.RemoveAdapter(adapter.uniqueName)]
    {
      if deletingAdapter != adapter {
        deletingAdapter := adapter;
      } else {
        calls := calls + [Call.RemoveAdapter(adapter.uniqueName)];
      }
    }

    /** The answer to a remove request: without an error the lists are
        fetched again; with one the result is shown. */
    method OnRemoveResponse(adapter: Adapter, result: ResultSet)
      modifies this`calls, this`effects
      ensures !Truthy(result.error) ==>
        effects == old(effects) + [ToastSuccess("Dropped \"" + adapter.uniqueName + "\"")] &&
        calls == old(calls) + [GetStores, GetSources]
      ensures Truthy(result.error) ==>
        effects == old(effects) + [ToastException(result)] && calls == old(calls)
    {
      if !Truthy(result.error) {
        effects := effects + [ToastSuccess("Dropped \"" + adapter.uniqueName + "\"")];
        GetStoresAndSources();
      } else {
        effects := effects + [ToastException(result)];
      }
    }

    method OnRemoveFailed()
      modifies this`effects
      ensures effects == old(effects) + [ToastError("Could not remove adapter", Some("server error"))]
    {
      effects := effects + [ToastError("Could not remove adapter", Some("server error"))];
    }

    /** `validate(form, key)`: no class without a form or for a disabled
        control, otherwise `is-valid` exactly when the control is valid. */
    function Validate(form: Option<FormGroup>, key: string): (r: ValidityClass)
      requires form.Some? ==> key in form.value
      ensures r == NoClass <==> form.None? || form.value[key].disabled
      ensures r == IsValid <==> form.Some? && ControlValid(form.value[key], matchers)
      ensures r == IsInvalid <==> form.Some? && StatusOf(form.value[key], matchers) == Invalid
    {
      if form.None? then NoClass
      else if StatusOf(form.value[key], matchers) == Disabled then NoClass
      else if ControlValid(form.value[key], matchers) then IsValid
      else IsInvalid
    }
  }

  /** Two clicks on one adapter send exactly one remove request; a click on
      another adapter in between only moves the selection. */
  method TwoClickDelete(c: AdaptersComponent, a: Adapter, b: Adapter)
    requires a != b && c.deletingAdapter != a
    modifies c
    ensures c.calls == old(c.calls) + [Call.RemoveAdapter(a.uniqueName)]
    ensures c.deletingAdapter == a
  {
    c.RemoveAdapter(a);
    c.RemoveAdapter(b);
    assert c.calls == old(c.calls);
    c.RemoveAdapter(a);
    c.RemoveAdapter(a);
  }
}
