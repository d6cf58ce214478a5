/** Angular reactive forms, reduced to what the console relies on: a control
    is a record of its value, its disabled flag and its validators; a form
    group is a dictionary from control name to control. Validity follows
    Angular's rules: a disabled control has no errors and status DISABLED,
    an enabled one is INVALID as soon as one validator reports an error. */
module Forms {
  import opened JsValues

  /** The validators the console attaches: `Validators.required`,
      `Validators.email`, `Validators.pattern(regex)` and the closure
      returned by `validateUniqueName`, which captures the unique names of
      the adapters it was built from. */
  datatype Validator = Required | Email | Pattern | Unique(taken: seq<string>)

  /** Keys of Angular's ValidationErrors object. */
  datatype ErrorKey = RequiredError | EmailError | PatternError | UniqueError

  datatype Control = Control(value: Value, disabled: bool, validators: seq<Validator>)

  type FormGroup = map<string, Control>

  /** The two regular expressions the validators test a value against: the
      unique-name pattern the gateway supplies and Angular's e-mail pattern.
      Their text is not part of this model, only their verdicts. */
  datatype Matchers = Matchers(pattern: Value -> bool, email: Value -> bool)

  datatype Status = Valid | Invalid | Disabled

  /** The CSS class a template puts on an input: none, `is-valid` or
      `is-invalid`. */
  datatype ValidityClass = NoClass | IsValid | IsInvalid

  /** Angular's `isEmptyInputValue`: null, undefined or a string of length 0. */
  predicate IsEmptyInput(v: Value)
  {
    v == Undefined || v == Null || v == Str("")
  }

  /** The scan in `validateUniqueName`'s closure: the first adapter whose
      unique name is strictly equal to the value stops the loop. */
  predicate NameTaken(taken: seq<string>, value: Value)
    decreases |taken|
  {
    if taken == [] then false
    else if Str(taken[0]) == value then true
    else NameTaken(taken[1..], value)
  }

  lemma {:induction false} NameTakenIff(taken: seq<string>, value: Value)
    ensures NameTaken(taken, value) <==> exists i :: 0 <= i < |taken| && Str(taken[i]) == value
    decreases |taken|
  {
    if taken != [] {
      NameTakenIff(taken[1..], value);
      if NameTaken(taken[1..], value) {
        var i :| 0 <= i < |taken[1..]| && Str(taken[1..][i]) == value;
        assert Str(taken[i + 1]) == value;
      }
      forall i | 0 < i < |taken| && Str(taken[i]) == value
        ensures NameTaken(taken[1..], value)
      {
        assert taken[1..][i - 1] == taken[i];
      }
    }
  }

  /** The error keys one validator reports for a value. */
  function Check(v: Validator, value: Value, m: Matchers): set<ErrorKey>
  {
    match v
    case Required => if IsEmptyInput(value) then {RequiredError} else {}
    case Email => if IsEmptyInput(value) || m.email(value) then {} else {EmailError}
    case Pattern => if IsEmptyInput(value) || m.pattern(value) then {} else {PatternError}
    case Unique(taken) => if Truthy(value) && NameTaken(taken, value) then {UniqueError} else {}
  }

  /** The merged errors of a list of validators. */
  function CheckAll(vs: seq<Validator>, value: Value, m: Matchers): (errs: set<ErrorKey>)
    ensures forall e :: e in errs <==> exists i :: 0 <= i < |vs| && e in Check(vs[i], value, m)
    decreases |vs|
  {
    if vs == [] then {}
    else
      var rest := CheckAll(vs[1..], value, m);
      assert forall i :: 1 <= i < |vs| ==> vs[i] == vs[1..][i - 1];
      Check(vs[0], value, m) + rest
  }

  /** `control.errors`, with null as the empty set. */
  function Errors(c: Control, m: Matchers): set<ErrorKey>
  {
    if c.disabled then {} else CheckAll(c.validators, c.value, m)
  }

  function StatusOf(c: Control, m: Matchers): Status
  {
    if c.disabled then Disabled
    else if Errors(c, m) != {} then Invalid
    else Valid
  }

  /** `control.valid`. */
  predicate ControlValid(c: Control, m: Matchers)
  {
    StatusOf(c, m) == Valid
  }

  /** A form group's status: DISABLED when it has controls and all of them
      are disabled, INVALID when some control is, VALID otherwise. */
  function GroupStatus(g: FormGroup, m: Matchers): Status
  {
    if |g| > 0 && forall k :: k in g ==> g[k].disabled then Disabled
    else if exists k :: k in g && StatusOf(g[k], m) == Invalid then Invalid
    else Valid
  }

  /** `group.valid`. */
  predicate GroupValid(g: FormGroup, m: Matchers)
  {
    GroupStatus(g, m) == Valid
  }

  /** The value of every control, keyed by control name. */
  ghost function ValuesOf(g: FormGroup): map<string, Value>
  {
    map k | k in g :: g[k].value
  }

  /** `for (const [k, v] of Object.entries(group.controls)) out[k] = v.value;`
      starting from an empty object: exactly the controls' key/value pairs. */
  method CollectValues(g: FormGroup) returns (values: map<string, Value>)
    ensures values.Keys == g.Keys
    ensures forall k :: k in g ==> values[k] == g[k].value
  {
    values := map[];
    var rest := g.Keys;
    while rest != {}
      invariant rest <= g.Keys
      invariant values.Keys == g.Keys - rest
      invariant forall k :: k in values ==> values[k] == g[k].value
      decreases rest
    {
      var k :| k in rest;
      values := values[k := g[k].value];
      rest := rest - {k};
    }
  }

  /** A dictionary filled by `obj[key] = value` for each entry in turn: a
      later entry with the same key overwrites an earlier one. */
  function Assemble<V>(entries: seq<(string, V)>): (m: map<string, V>)
    ensures m.Keys == set i | 0 <= i < |entries| :: entries[i].0
    decreases |entries|
  {
    if entries == [] then map[]
    else
      var n := |entries| - 1;
      var init := Assemble(entries[..n]);
      assert forall i :: 0 <= i < n ==> entries[..n][i] == entries[i];
      init[entries[n].0 := entries[n].1]
  }

  lemma AssembleSnoc<V>(entries: seq<(string, V)>, e: (string, V))
    ensures Assemble(entries + [e]) == Assemble(entries)[e.0 := e.1]
  {
  }

  /** Entry i is the last entry with its key. */
  predicate LastWithKey<V>(entries: seq<(string, V)>, i: int)
  {
    0 <= i < |entries| &&
    forall j :: i < j < |entries| ==> entries[j].0 != entries[i].0
  }

  lemma {:induction false} AssembleLastWins<V>(entries: seq<(string, V)>, i: int)
    requires LastWithKey(entries, i)
    ensures entries[i].0 in Assemble(entries)
    ensures Assemble(entries)[entries[i].0] == entries[i].1
    decreases |entries|
  {
    var n := |entries| - 1;
    if i < n {
      assert LastWithKey(entries[..n], i) by {
        forall j | i < j < n ensures entries[..n][j].0 != entries[..n][i].0 {
          assert entries[..n][j] == entries[j];
        }
      }
      AssembleLastWins(entries[..n], i);
      assert entries[..n][i] == entries[i];
    }
  }

  /** Every key of the assembled dictionary has a last entry, so by
      AssembleLastWins its value is that entry's. */
  lemma {:induction false} AssembleKeyHasLastEntry<V>(entries: seq<(string, V)>, k: string)
    requires k in Assemble(entries)
    ensures exists i :: LastWithKey(entries, i) && entries[i].0 == k
    decreases |entries|
  {
    var n := |entries| - 1;
    if entries[n].0 == k {
      assert LastWithKey(entries, n);
    } else {
      AssembleKeyHasLastEntry(entries[..n], k);
      var i :| LastWithKey(entries[..n], i) && entries[..n][i].0 == k;
      assert entries[..n][i] == entries[i];
      assert LastWithKey(entries, i) by {
        forall j | i < j <= n ensures entries[j].0 != entries[i].0 {
          if j < n {
            assert entries[..n][j] == entries[j];
          }
        }
      }
    }
  }
}
