/** The descriptor-to-form compiler of the form-generator component: the
    server's page descriptor (page, groups, configs) is copied into UiPage,
    UiGroup and UiConfig, then flattened, group by group and config by
    config, into one form group keyed by config key. */
module FormGenerator {
  import opened JsValues
  import opened Forms

  /** The payload of the page accessor. The `groups` and `configs` objects
      are given as their values in key-enumeration order. */
  datatype JavaUiConfig = JavaUiConfig(
    key: string, value: Value, requiresRestart: bool,
    webUiFormType: string, webUiGroup: int, webUiValidators: Option<seq<string>>)

  datatype JavaUiGroup = JavaUiGroup(
    id: int, pageId: int, title: string, description: string, configs: seq<JavaUiConfig>)

  datatype JavaUiPage = JavaUiPage(
    id: int, title: string, description: string, groups: seq<JavaUiGroup>)

  /** The client-side copies. Nothing updates them after construction, so
      they are values. */
  datatype UiConfig = UiConfig(
    key: string, value: Value, requiresRestart: bool,
    webUiFormType: string, webUiGroup: int, webUiValidators: Option<seq<string>>)

  datatype UiGroup = UiGroup(
    id: int, pageId: int, title: string, description: string, configs: seq<UiConfig>)

  datatype UiPage = UiPage(
    id: int, title: string, description: string, groups: seq<UiGroup>)

  // The way back from a copy to the payload it was made from.

  function ConfigToJava(c: UiConfig): JavaUiConfig
  {
    JavaUiConfig(c.key, c.value, c.requiresRestart, c.webUiFormType, c.webUiGroup, c.webUiValidators)
  }

  function GroupToJava(g: UiGroup): JavaUiGroup
  {
    JavaUiGroup(g.id, g.pageId, g.title, g.description,
      seq(|g.configs|, i requires 0 <= i < |g.configs| => ConfigToJava(g.configs[i])))
  }

  function PageToJava(p: UiPage): JavaUiPage
  {
    JavaUiPage(p.id, p.title, p.description,
      seq(|p.groups|, i requires 0 <= i < |p.groups| => GroupToJava(p.groups[i])))
  }

  /** The way back is one-to-one, so a copy that maps back to its payload is
      the only such copy. */
  lemma PageToJavaInjective(p: UiPage, q: UiPage)
    requires PageToJava(p) == PageToJava(q)
    ensures p == q
  {
    assert |p.groups| == |q.groups|;
    forall i | 0 <= i < |p.groups| ensures p.groups[i] == q.groups[i] {
      var g, h := p.groups[i], q.groups[i];
      assert GroupToJava(g) == PageToJava(p).groups[i] == PageToJava(q).groups[i] == GroupToJava(h);
      assert |g.configs| == |h.configs|;
      forall j | 0 <= j < |g.configs| ensures g.configs[j] == h.configs[j] {
        assert ConfigToJava(g.configs[j]) == GroupToJava(g).configs[j];
        assert ConfigToJava(h.configs[j]) == GroupToJava(h).configs[j];
      }
    }
  }

  /** `new UiConfig(o)`: all six fields copied unchanged. */
  function NewUiConfig(o: JavaUiConfig): (c: UiConfig)
    ensures ConfigToJava(c) == o
  {
    UiConfig(o.key, o.value, o.requiresRestart, o.webUiFormType, o.webUiGroup, o.webUiValidators)
  }

  /** `new UiGroup(g)`: the scalar fields copied, then one UiConfig pushed
      per entry of `g.configs`, in order. */
  method NewUiGroup(g: JavaUiGroup) returns (u: UiGroup)
    ensures GroupToJava(u) == g
  {
    var configs: seq<UiConfig> := [];
    var i := 0;
    while i < |g.configs|
      invariant 0 <= i <= |g.configs|
      invariant |configs| == i
      invariant forall j :: 0 <= j < i ==> ConfigToJava(configs[j]) == g.configs[j]
    {
      configs := configs + [NewUiConfig(g.configs[i])];
      i := i + 1;
    }
    u := UiGroup(g.id, g.pageId, g.title, g.description, configs);
  }

  /** `new UiPage(o)`: the scalar fields copied, then one UiGroup pushed per
      entry of `o.groups`, in order. */
  method NewUiPage(o: JavaUiPage) returns (p: UiPage)
    ensures PageToJava(p) == o
  {
    var groups: seq<UiGroup> := [];
    var i := 0;
    while i < |o.groups|
      invariant 0 <= i <= |o.groups|
      invariant |groups| == i
      invariant forall j :: 0 <= j < i ==> GroupToJava(groups[j]) == o.groups[j]
    {
      var g := NewUiGroup(o.groups[i]);
      groups := groups + [g];
      i := i + 1;
    }
    p := UiPage(o.id, o.title, o.description, groups);
  }

  /** What `mapValidators` makes of one validator name. */
  function ValidatorFor(name: string): seq<Validator>
  {
    if name == "REQUIRED" then [Required]
    else if name == "EMAIL" then [Email]
    else []
  }

  function TranslateNames(names: seq<string>): seq<Validator>
    decreases |names|
  {
    if names == [] then []
    else TranslateNames(names[..|names| - 1]) + ValidatorFor(names[|names| - 1])
  }

  /** The specification of `mapValidators`: an absent list gives no
      validators. */
  function Translated(validators: Option<seq<string>>): seq<Validator>
  {
    match validators
    case None => []
    case Some(names) => TranslateNames(names)
  }

  /** `mapValidators(validators)`: a loop that pushes `required` for each
      'REQUIRED' and `email` for each 'EMAIL', skipping every other name. */
  method MapValidators(validators: Option<seq<string>>) returns (r: seq<Validator>)
    ensures r == Translated(validators)
    ensures validators.None? ==> r == []
  {
    r := [];
    if validators.Some? {
      var names := validators.value;
      var i := 0;
      while i < |names|
        invariant 0 <= i <= |names|
        invariant r == TranslateNames(names[..i])
      {
        assert names[..i + 1][..i] == names[..i];
        if names[i] == "REQUIRED" {
          r := r + [Required];
        } else if names[i] == "EMAIL" {
          r := r + [Email];
        }
        i := i + 1;
      }
      assert names[..|names|] == names;
    }
  }

  /** Translation is done name by name: the translation of a concatenation
      is the concatenation of the translations, so input order is kept. */
  lemma {:induction false} TranslateNamesAppend(a: seq<string>, b: seq<string>)
    ensures TranslateNames(a + b) == TranslateNames(a) + TranslateNames(b)
    decreases |b|
  {
    if b == [] {
      assert a + b == a;
    } else {
      var n := |b| - 1;
      assert (a + b)[..|a + b| - 1] == a + b[..n];
      assert (a + b)[|a + b| - 1] == b[n];
      TranslateNamesAppend(a, b[..n]);
    }
  }

  /** Each 'REQUIRED' gives one `required` and each 'EMAIL' one `email`. */
  lemma {:induction false} TranslateNamesCounts(names: seq<string>)
    ensures multiset(TranslateNames(names))[Required] == multiset(names)["REQUIRED"]
    ensures multiset(TranslateNames(names))[Email] == multiset(names)["EMAIL"]
    decreases |names|
  {
    if names != [] {
      var n := |names| - 1;
      var init, last := names[..n], names[n];
      TranslateNamesCounts(init);
      assert names == init + [last];
      assert multiset(names) == multiset(init) + multiset{last};
      assert multiset(TranslateNames(names)) ==
        multiset(TranslateNames(init)) + multiset(ValidatorFor(last));
    }
  }

  /** Nothing but `required` and `email` is produced, at most one per name,
      so the output is never longer than the input. */
  lemma {:induction false} TranslateNamesShape(names: seq<string>)
    ensures forall v :: v in TranslateNames(names) ==> v == Required || v == Email
    ensures |TranslateNames(names)| <= |names|
    decreases |names|
  {
    if names != [] {
      TranslateNamesShape(names[..|names| - 1]);
    }
  }

  /** The configs of a page, group by group and then config by config. */
  function Flatten(groups: seq<UiGroup>): seq<UiConfig>
    decreases |groups|
  {
    if groups == [] then []
    else Flatten(groups[..|groups| - 1]) + groups[|groups| - 1].configs
  }

  lemma {:induction false} FlattenMembers(groups: seq<UiGroup>, c: UiConfig)
    ensures c in Flatten(groups) <==> exists g :: g in groups && c in g.configs
    decreases |groups|
  {
    if groups != [] {
      var n := |groups| - 1;
      FlattenMembers(groups[..n], c);
      assert forall g :: g in groups <==> g in groups[..n] || g == groups[n];
    }
  }

  /** The control built for one config: its value if truthy, otherwise the
      empty string, enabled, with its mapped validators. */
  function ConfigControl(c: UiConfig): Control
  {
    Control(Or(c.value, Str("")), false, Translated(c.webUiValidators))
  }

  function ConfigEntries(configs: seq<UiConfig>): seq<(string, Control)>
  {
    seq(|configs|, i requires 0 <= i < |configs| => (configs[i].key, ConfigControl(configs[i])))
  }

  lemma ConfigEntriesSnoc(configs: seq<UiConfig>, c: UiConfig)
    ensures ConfigEntries(configs + [c]) == ConfigEntries(configs) + [(c.key, ConfigControl(c))]
  {
  }

  /** The form group the component builds for a page. */
  function FormOf(page: UiPage): FormGroup
  {
    Assemble(ConfigEntries(Flatten(page.groups)))
  }

  /** The nested loop of the page callback: for every group, for every
      config, `formGroup[key] = new FormControl(value || '', mapValidators(...))`. */
  method BuildForm(page: UiPage) returns (form: FormGroup)
    ensures form == FormOf(page)
  {
    var groups := page.groups;
    form := map[];
    var gi := 0;
    while gi < |groups|
      invariant 0 <= gi <= |groups|
      invariant form == Assemble(ConfigEntries(Flatten(groups[..gi])))
    {
      var configs := groups[gi].configs;
      var done := Flatten(groups[..gi]);
      var ci := 0;
      assert done + configs[..ci] == done;
      while ci < |configs|
        invariant 0 <= ci <= |configs|
        invariant form == Assemble(ConfigEntries(done + configs[..ci]))
      {
        var c := configs[ci];
        var validators := MapValidators(c.webUiValidators);
        ConfigEntriesSnoc(done + configs[..ci], c);
        AssembleSnoc(ConfigEntries(done + configs[..ci]), (c.key, ConfigControl(c)));
        assert done + configs[..ci + 1] == (done + configs[..ci]) + [c];
        form := form[c.key := Control(Or(c.value, Str("")), false, validators)];
        ci := ci + 1;
      }
      assert configs[..ci] == configs;
      assert groups[..gi + 1][..gi] == groups[..gi];
      gi := gi + 1;
    }
    assert groups[..gi] == groups;
  }

  /** The form's key set is the set of keys over all configs of all groups. */
  lemma FormKeys(page: UiPage, k: string)
    ensures k in FormOf(page) <==>
      exists g, c :: g in page.groups && c in g.configs && c.key == k
  {
    var flat := Flatten(page.groups);
    var entries := ConfigEntries(flat);
    if k in FormOf(page) {
      var i :| 0 <= i < |entries| && entries[i].0 == k;
      FlattenMembers(page.groups, flat[i]);
    }
    if exists g, c :: g in page.groups && c in g.configs && c.key == k {
      var g, c :| g in page.groups && c in g.configs && c.key == k;
      FlattenMembers(page.groups, c);
      var i :| 0 <= i < |flat| && flat[i] == c;
      assert entries[i].0 == k;
    }
  }

  /** Of two configs with the same key, the one visited last determines the
      key's control. */
  lemma LastConfigWins(page: UiPage, i: int)
    requires 0 <= i < |Flatten(page.groups)|
    requires forall j :: i < j < |Flatten(page.groups)| ==>
      Flatten(page.groups)[j].key != Flatten(page.groups)[i].key
    ensures Flatten(page.groups)[i].key in FormOf(page)
    ensures FormOf(page)[Flatten(page.groups)[i].key] == ConfigControl(Flatten(page.groups)[i])
  {
    var entries := ConfigEntries(Flatten(page.groups));
    assert LastWithKey(entries, i);
    AssembleLastWins(entries, i);
  }

  /** Every control starts enabled, from some config with its key: the
      config's value if truthy, otherwise the empty string, with that
      config's mapped validators. */
  lemma ControlFromConfig(page: UiPage, k: string)
    requires k in FormOf(page)
    ensures exists c :: (c in Flatten(page.groups) && c.key == k &&
      FormOf(page)[k] == Control(if Truthy(c.value) then c.value else Str(""), false,
                                 Translated(c.webUiValidators)))
  {
    var flat := Flatten(page.groups);
    var entries := ConfigEntries(flat);
    AssembleKeyHasLastEntry(entries, k);
    var i :| LastWithKey(entries, i) && entries[i].0 == k;
    AssembleLastWins(entries, i);
    assert flat[i] in flat;
  }

  /** A field whose only validator name is 'REQUIRED' gets a control that
      rejects exactly the empty values. */
  lemma RequiredFieldRejectsEmpty(c: UiConfig, value: Value, m: Matchers)
    requires c.webUiValidators == Some(["REQUIRED"])
    ensures ControlValid(ConfigControl(c).(value := value), m) <==> !IsEmptyInput(value)
  {
  }

  /** The component: the page it shows, the form built from it, and whether
      the form has been submitted. */
  class FormGeneratorComponent {
    var formObj: Option<UiPage>
    var submitted: bool
    var form: Option<FormGroup>
    const matchers: Matchers
    /** The page ids requested from the configuration service. */
    ghost var pageRequests: seq<int>

    /** The constructor only asks for page 1; the answer arrives later, in
        OnPage. */
    constructor (matchers: Matchers)
      ensures formObj == None && !submitted && form == None
      ensures this.matchers == matchers
      ensures pageRequests == [1]
    {
      formObj := None;
      submitted := false;
      form := None;
      this.matchers := matchers;
      pageRequests := [1];
    }

    /** The success callback of the page request: copy the payload, then
        build the form group from the copy. */
    method OnPage(res: JavaUiPage)
      modifies this
      ensures formObj.Some? && PageToJava(formObj.value) == res
      ensures form == Some(FormOf(formObj.value))
      ensures submitted == old(submitted) && pageRequests == old(pageRequests)
    {
      var page := NewUiPage(res);
      formObj := Some(page);
      var built := BuildForm(page);
      form := Some(built);
    }

    /** `inputValidation(key)`: nothing before submission; afterwards
        `is-valid` exactly when the control is valid. */
    function InputValidation(key: string): (r: ValidityClass)
      reads this
      requires submitted ==> form.Some? && key in form.value
      ensures r == NoClass <==> !submitted
      ensures r == IsValid <==> submitted && ControlValid(form.value[key], matchers)
      ensures r == IsInvalid <==> submitted && !ControlValid(form.value[key], matchers)
    {
      if submitted && ControlValid(form.value[key], matchers) then IsValid
      else if submitted then IsInvalid
      else NoClass
    }

    method OnSubmit()
      modifies this`submitted
      ensures submitted
    {
      submitted := true;
    }
  }
}
