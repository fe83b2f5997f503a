/**
 * The form codec of the edit dialog: `getFormData` turns the form's controls
 * into a typed JSON object (public/script.js:17-42) and `editItem` writes a
 * stored entry back into the controls (public/script.js:117-133).
 */
module FormCodec {
  import opened Wrappers
  import opened Js

  /** The `type` of an <input> element, as far as the script tells them apart. */
  datatype InputKind =
    | Checkbox
    | Radio
    | NumberInput
    | RangeInput
    | DateInput
    | ButtonInput  // submit, reset, button and image inputs
    | TextInput    // every other type: text, hidden, email, url, ...

  /** The element a form control is. */
  datatype Tag = Input(kind: InputKind) | TextArea | Select | ButtonElement

  /** A form control and the parts of its state the script reads or writes. */
  datatype Control = Control(name: string, tag: Tag, value: string, checked: bool, disabled: bool)

  /**
   * The conversions the script leaves to the JavaScript runtime, taken as
   * given: `numberText(s)` is `String(Number(s))`, and `isoDate(s)` is
   * `new Date(s).toISOString()`, None when that throws a RangeError.
   */
  datatype Runtime = Runtime(numberText: string -> string, isoDate: string -> Option<string>)

  // ---------------------------------------------------------------------------
  // Encoding: getFormData
  // ---------------------------------------------------------------------------

  /** Whether `new FormData(form)` lists the control: named, enabled, not a button, checked if checkable. */
  predicate Submittable(c: Control)
  {
    && c.name != ""
    && !c.disabled
    && c.tag != ButtonElement
    && c.tag != Input(ButtonInput)
    && (c.tag == Input(Checkbox) || c.tag == Input(Radio) ==> c.checked)
  }

  /** `Object.fromEntries(new FormData(form))`: one string per name, the last control in tree order winning. */
  function FormDataMap(cs: seq<Control>): map<string, string>
    decreases |cs|
  {
    if cs == [] then map[]
    else
      var m := FormDataMap(cs[..|cs| - 1]);
      var c := cs[|cs| - 1];
      if Submittable(c) then m[c.name := c.value] else m
  }

  /** The FormData string for `key`, if any. */
  function Raw(cs: seq<Control>, key: string): Option<string>
  {
    if key in FormDataMap(cs) then Some(FormDataMap(cs)[key]) else None
  }

  /** The object the script starts from, before the typed inputs are converted. */
  function Initial(cs: seq<Control>): Object
  {
    var fd := FormDataMap(cs);
    map k | k in fd :: Str(fd[k])
  }

  /** An input whose entry the script converts: checkbox, number, range or date. */
  predicate IsTyped(c: Control)
  {
    c.tag == Input(Checkbox) || c.tag == Input(NumberInput) ||
    c.tag == Input(RangeInput) || c.tag == Input(DateInput)
  }

  /** `!value || value.trim() === ''`; None when `trim` is called on a truthy non-string (a TypeError). */
  function IsEmpty(value: Option<Value>): Option<bool>
  {
    if !Present(value) then Some(true)
    else if value.value.Str? then Some(Blank(value.value.s))
    else None
  }

  /** One pass of the loop body over the input `el`; None when it throws. */
  function Step(rt: Runtime, el: Control, json: Object): Option<Object>
    requires el.tag.Input?
  {
    var value := Prop(json, el.name);
    match IsEmpty(value)
    case None => None
    case Some(isEmpty) =>
      match el.tag.kind
      case Checkbox => Some(json[el.name := Bool(el.checked)])
      case NumberInput =>
        Some(json[el.name := if isEmpty then Null else Num(rt.numberText(value.value.s))])
      case RangeInput =>
        Some(json[el.name := if isEmpty then Null else Num(rt.numberText(value.value.s))])
      case DateInput =>
        if isEmpty then Some(json[el.name := Null])
        else (
          match rt.isoDate(value.value.s)
          case None => None
          case Some(iso) => Some(json[el.name := Str(iso)]))
      case _ => Some(json)
  }

  /** The `forEach` over the form's inputs, in tree order; None when an iteration throws. */
  function EncodeInputs(rt: Runtime, cs: seq<Control>, json: Object): Option<Object>
    decreases |cs|
  {
    if cs == [] then Some(json)
    else if !cs[0].tag.Input? then EncodeInputs(rt, cs[1..], json)
    else
      match Step(rt, cs[0], json)
      case None => None
      case Some(next) => EncodeInputs(rt, cs[1..], next)
  }

  /** What `getFormData` returns for the form `cs`; None when it throws. */
  function Encode(rt: Runtime, cs: seq<Control>): Option<Object>
  {
    EncodeInputs(rt, cs, Initial(cs))
  }

  /** The value the script promises for a typed input whose FormData string is `raw`. */
  function Converted(rt: Runtime, c: Control, raw: Option<string>): Option<Value>
    requires IsTyped(c)
  {
    var empty := raw.None? || Blank(raw.value);
    if c.tag == Input(Checkbox) then Some(Bool(c.checked))
    else if c.tag == Input(DateInput) then
      if empty then Some(Null)
      else
        match rt.isoDate(raw.value)
        case None => None
        case Some(iso) => Some(Str(iso))
    else Some(if empty then Null else Num(rt.numberText(raw.value)))
  }

  /** The names of the typed inputs among the first `n` controls. */
  function TypedNamesBelow(cs: seq<Control>, n: nat): set<string>
    requires n <= |cs|
  {
    set j | 0 <= j < n && IsTyped(cs[j]) :: cs[j].name
  }

  function TypedNames(cs: seq<Control>): set<string>
  {
    TypedNamesBelow(cs, |cs|)
  }

  /** No other input shares a name with a typed input (so no iteration reads an entry an earlier one converted). */
  predicate TypedNamesUnique(cs: seq<Control>)
  {
    forall i, j | 0 <= i < |cs| && 0 <= j < |cs| && i != j && IsTyped(cs[i]) && cs[j].tag.Input? ::
      cs[i].name != cs[j].name
  }

  /** Every typed field converts; only a date whose `toISOString` throws can fail. */
  predicate FieldsConvert(rt: Runtime, cs: seq<Control>)
  {
    forall i | 0 <= i < |cs| && IsTyped(cs[i]) :: Converted(rt, cs[i], Raw(cs, cs[i].name)).Some?
  }

  /**
   * `json` is the encoding of the form: its keys are the FormData names plus
   * the typed inputs' names, each typed input's key holds its converted value,
   * and every other key keeps its FormData string.
   */
  predicate EncodesForm(rt: Runtime, cs: seq<Control>, json: Object)
  {
    && json.Keys == FormDataMap(cs).Keys + TypedNames(cs)
    && (forall i | 0 <= i < |cs| && IsTyped(cs[i]) ::
          cs[i].name in json && Converted(rt, cs[i], Raw(cs, cs[i].name)) == Some(json[cs[i].name]))
    && (forall k | k in FormDataMap(cs) && k !in TypedNames(cs) :: json[k] == Str(FormDataMap(cs)[k]))
  }

  /** EncodesForm for the first `n` controls: what the loop has established after `n` iterations. */
  predicate EncodedBelow(rt: Runtime, cs: seq<Control>, n: nat, json: Object)
    requires n <= |cs|
  {
    && json.Keys == FormDataMap(cs).Keys + TypedNamesBelow(cs, n)
    && (forall j | 0 <= j < n && IsTyped(cs[j]) ::
          cs[j].name in json && Converted(rt, cs[j], Raw(cs, cs[j].name)) == Some(json[cs[j].name]))
    && (forall k | k in FormDataMap(cs) && k !in TypedNamesBelow(cs, n) ::
          json[k] == Str(FormDataMap(cs)[k]))
  }

  lemma TypedNamesStep(cs: seq<Control>, n: nat)
    requires n < |cs|
    ensures TypedNamesBelow(cs, n + 1) == TypedNamesBelow(cs, n) + (if IsTyped(cs[n]) then {cs[n].name} else {})
  {
    var a := TypedNamesBelow(cs, n + 1);
    var b := TypedNamesBelow(cs, n) + (if IsTyped(cs[n]) then {cs[n].name} else {});
    forall x | x in a ensures x in b {
      var j :| 0 <= j < n + 1 && IsTyped(cs[j]) && cs[j].name == x;
      if j < n { assert x in TypedNamesBelow(cs, n); }
    }
    forall x | x in b ensures x in a {
      if x in TypedNamesBelow(cs, n) {
        var j :| 0 <= j < n && IsTyped(cs[j]) && cs[j].name == x;
        assert 0 <= j < n + 1;
      } else {
        assert IsTyped(cs[n]) && x == cs[n].name;
      }
    }
  }

  /** The loop body on an input whose entry still holds its FormData string does what Converted promises. */
  lemma StepOnRaw(rt: Runtime, cs: seq<Control>, el: Control, json: Object)
    requires el.tag.Input?
    requires Prop(json, el.name) == (if Raw(cs, el.name).Some? then Some(Str(Raw(cs, el.name).value)) else None)
    ensures IsTyped(el) ==>
      Step(rt, el, json) == match Converted(rt, el, Raw(cs, el.name))
                            case None => None
                            case Some(v) => Some(json[el.name := v])
    ensures !IsTyped(el) ==> Step(rt, el, json) == Some(json)
  {
  }

  /** Before the loop reaches input `n`, that input's entry still holds its FormData string. */
  lemma EntryStillRaw(rt: Runtime, cs: seq<Control>, n: nat, json: Object)
    requires n < |cs| && cs[n].tag.Input? && TypedNamesUnique(cs) && EncodedBelow(rt, cs, n, json)
    ensures Prop(json, cs[n].name) ==
      (if Raw(cs, cs[n].name).Some? then Some(Str(Raw(cs, cs[n].name).value)) else None)
  {
    forall j | 0 <= j < n && IsTyped(cs[j]) ensures cs[j].name != cs[n].name {
      assert j != n;
    }
    assert cs[n].name !in TypedNamesBelow(cs, n);
  }

  /** One iteration keeps EncodedBelow, and throws exactly when a typed field does not convert. */
  lemma EncodeStep(rt: Runtime, cs: seq<Control>, n: nat, json: Object)
    requires n < |cs| && TypedNamesUnique(cs) && EncodedBelow(rt, cs, n, json)
    ensures !cs[n].tag.Input? ==> EncodedBelow(rt, cs, n + 1, json)
    ensures cs[n].tag.Input? ==>
      && (Step(rt, cs[n], json).None? <==> IsTyped(cs[n]) && Converted(rt, cs[n], Raw(cs, cs[n].name)).None?)
      && (Step(rt, cs[n], json).Some? ==> EncodedBelow(rt, cs, n + 1, Step(rt, cs[n], json).value))
  {
    var el := cs[n];
    TypedNamesStep(cs, n);
    if el.tag.Input? {
      EntryStillRaw(rt, cs, n, json);
      StepOnRaw(rt, cs, el, json);
      if IsTyped(el) {
        match Converted(rt, el, Raw(cs, el.name))
        case None =>
        case Some(v) =>
          var next := json[el.name := v];
          forall j | 0 <= j < n + 1 && IsTyped(cs[j])
            ensures cs[j].name in next && Converted(rt, cs[j], Raw(cs, cs[j].name)) == Some(next[cs[j].name])
          {
            if j < n { assert cs[j].name != cs[n].name; }
          }
          assert EncodedBelow(rt, cs, n + 1, next);
      }
    }
  }

  lemma {:induction false} EncodeSuffix(rt: Runtime, cs: seq<Control>, n: nat, json: Object)
    requires n <= |cs| && TypedNamesUnique(cs) && EncodedBelow(rt, cs, n, json)
    ensures var r := EncodeInputs(rt, cs[n..], json);
      && (r.Some? <==>
            forall j | n <= j < |cs| && IsTyped(cs[j]) :: Converted(rt, cs[j], Raw(cs, cs[j].name)).Some?)
      && (r.Some? ==> EncodedBelow(rt, cs, |cs|, r.value))
    decreases |cs| - n
  {
    if n == |cs| {
      assert cs[n..] == [];
    } else {
      var el := cs[n];
      assert cs[n..][0] == el && cs[n..][1..] == cs[n + 1..];
      EncodeStep(rt, cs, n, json);
      if !el.tag.Input? {
        EncodeSuffix(rt, cs, n + 1, json);
      } else if Step(rt, el, json).Some? {
        EncodeSuffix(rt, cs, n + 1, Step(rt, el, json).value);
      }
    }
  }

  /**
   * When no other input shares a typed input's name, getFormData succeeds
   * exactly when every typed field converts, and its result is then the
   * field-by-field encoding of the form.
   */
  lemma EncodeMeaning(rt: Runtime, cs: seq<Control>)
    requires TypedNamesUnique(cs)
    ensures Encode(rt, cs).Some? <==> FieldsConvert(rt, cs)
    ensures Encode(rt, cs).Some? ==> EncodesForm(rt, cs, Encode(rt, cs).value)
  {
    assert TypedNamesBelow(cs, 0) == {};
    assert cs[0..] == cs;
    EncodeSuffix(rt, cs, 0, Initial(cs));
  }

  // ---------------------------------------------------------------------------
  // Decoding: editItem
  // ---------------------------------------------------------------------------

  /** The first control named `key` at index `from` or later. */
  function FirstNamed(cs: seq<Control>, key: string, from: nat): (r: Option<nat>)
    requires from <= |cs|
    ensures r.Some? ==> from <= r.value < |cs| && cs[r.value].name == key
    ensures r.Some? ==> forall j | from <= j < r.value :: cs[j].name != key
    ensures r.None? ==> forall j | from <= j < |cs| :: cs[j].name != key
    decreases |cs| - from
  {
    if from == |cs| then None
    else if cs[from].name == key then Some(from)
    else FirstNamed(cs, key, from + 1)
  }

  /** `myForm.elements[key]`: the first control with that name; the empty name finds none. */
  function ElementFor(cs: seq<Control>, key: string): (r: Option<nat>)
    ensures r.Some? ==> key != "" && r.value < |cs| && cs[r.value].name == key
    ensures r.Some? ==> forall j | 0 <= j < r.value :: cs[j].name != key
    ensures r.None? ==> key == "" || forall j | 0 <= j < |cs| :: cs[j].name != key
  {
    if key == "" then None else FirstNamed(cs, key, 0)
  }

  /**
   * The assignment the loop body makes to the element `c` from the stored
   * value `v`: a checkbox takes `v`'s truthiness, a date input the first ten
   * characters of a truthy string or "" for a falsy value, every other control
   * `v` as a string. `null` stores "" in an input or a textarea, whose `value`
   * treats null as the empty string, but "null" in a `<button>`, whose `value`
   * does not. It throws (None) exactly when a date input meets a truthy
   * non-string, which has no `substring`.
   */
  function Assign(c: Control, v: Value): (r: Option<Control>)
    ensures r.Some? ==> r.value.name == c.name && r.value.tag == c.tag && r.value.disabled == c.disabled
    ensures r.None? <==> c.tag == Input(DateInput) && Truthy(v) && !v.Str?
    ensures v.Null? && c.tag != Input(Checkbox) ==>
      r == Some(c.(value := if c.tag == ButtonElement then "null" else ""))
  {
    if c.tag == Input(Checkbox) then Some(c.(checked := Truthy(v)))
    else if c.tag == Input(DateInput) then
      if !Truthy(v) then Some(c.(value := ""))
      else if v.Str? then Some(c.(value := Prefix(v.s, 10)))
      else None
    else if c.tag == ButtonElement then Some(c.(value := ToStr(v)))
    else Some(c.(value := ValueText(v)))
  }

  /** Two control lists that differ at most in their values and checked flags. */
  predicate SameShape(a: seq<Control>, b: seq<Control>)
  {
    |a| == |b| &&
    forall j | 0 <= j < |a| :: a[j].name == b[j].name && a[j].tag == b[j].tag && a[j].disabled == b[j].disabled
  }

  /** `keys` is what `Object.keys(data)` gives: each key of `data` once. */
  predicate KeyOrder(keys: seq<string>, data: Object)
  {
    && (forall i | 0 <= i < |keys| :: keys[i] in data)
    && (forall k | k in data :: k in keys)
    && (forall i, j | 0 <= i < j < |keys| :: keys[i] != keys[j])
  }

  /**
   * The `forEach` over `keys`: the controls after populating them from `data`,
   * and whether it ran to the end (false when an assignment threw, leaving the
   * assignments made so far in place).
   */
  function Populated(cs: seq<Control>, data: Object, keys: seq<string>): (r: (seq<Control>, bool))
    requires forall i | 0 <= i < |keys| :: keys[i] in data
    ensures SameShape(cs, r.0)
    decreases |keys|
  {
    if keys == [] then (cs, true)
    else
      var key := keys[0];
      match ElementFor(cs, key)
      case None => Populated(cs, data, keys[1..])
      case Some(i) =>
        match Assign(cs[i], data[key])
        case None => (cs, false)
        case Some(c) => Populated(cs[i := c], data, keys[1..])
  }

  lemma {:induction false} FirstNamedShape(a: seq<Control>, b: seq<Control>, key: string, from: nat)
    requires SameShape(a, b) && from <= |a|
    ensures FirstNamed(a, key, from) == FirstNamed(b, key, from)
    decreases |a| - from
  {
    if from < |a| && a[from].name != key {
      FirstNamedShape(a, b, key, from + 1);
    }
  }

  /** Lookup by name depends only on the names. */
  lemma ElementForShape(a: seq<Control>, b: seq<Control>, key: string)
    requires SameShape(a, b)
    ensures ElementFor(a, key) == ElementFor(b, key)
  {
    if key != "" {
      FirstNamedShape(a, b, key, 0);
    }
  }

  /** The key `key` makes the loop throw: it names a date input and `v` is a truthy non-string. */
  predicate Throws(cs: seq<Control>, key: string, v: Value)
  {
    var e := ElementFor(cs, key);
    e.Some? && cs[e.value].tag == Input(DateInput) && Truthy(v) && !v.Str?
  }

  /** Populating runs to the end exactly when no key makes an assignment throw. */
  lemma {:induction false} PopulatedOk(cs: seq<Control>, data: Object, keys: seq<string>)
    requires forall i | 0 <= i < |keys| :: keys[i] in data
    ensures Populated(cs, data, keys).1 <==> forall i | 0 <= i < |keys| :: !Throws(cs, keys[i], data[keys[i]])
    decreases |keys|
  {
    if keys != [] {
      var key := keys[0];
      match ElementFor(cs, key)
      case None =>
        PopulatedOk(cs, data, keys[1..]);
        assert forall i | 1 <= i < |keys| :: keys[i] == keys[1..][i - 1];
      case Some(i) =>
        match Assign(cs[i], data[key])
        case None =>
          assert Throws(cs, keys[0], data[keys[0]]);
        case Some(c) =>
          var next := cs[i := c];
          PopulatedOk(next, data, keys[1..]);
          forall k ensures ElementFor(next, k) == ElementFor(cs, k) {
            ElementForShape(next, cs, k);
          }
          assert forall i | 1 <= i < |keys| :: keys[i] == keys[1..][i - 1];
    }
  }

  /**
   * When populating runs to the end, the control found for each key of `data`
   * holds that key's assignment, and every other control is unchanged: keys
   * without a matching element are ignored.
   */
  lemma {:induction false} PopulatedResult(cs: seq<Control>, data: Object, keys: seq<string>)
    requires forall i | 0 <= i < |keys| :: keys[i] in data
    requires forall i, j | 0 <= i < j < |keys| :: keys[i] != keys[j]
    ensures var (out, ok) := Populated(cs, data, keys);
      ok ==> forall j | 0 <= j < |cs| ::
        if cs[j].name in keys && ElementFor(cs, cs[j].name) == Some(j)
        then Assign(cs[j], data[cs[j].name]) == Some(out[j])
        else out[j] == cs[j]
    decreases |keys|
  {
    if keys != [] {
      var key := keys[0];
      var rest := keys[1..];
      assert forall k :: k in keys <==> k == key || k in rest;
      assert key !in rest;
      match ElementFor(cs, key)
      case None =>
        PopulatedResult(cs, data, rest);
      case Some(i) =>
        match Assign(cs[i], data[key])
        case None =>
        case Some(c) =>
          var next := cs[i := c];
          PopulatedResult(next, data, rest);
          forall k ensures ElementFor(next, k) == ElementFor(cs, k) {
            ElementForShape(next, cs, k);
          }
    }
  }

  /** A date input shows the calendar-date part of an ISO 8601 string: `YYYY-MM-DD` of `YYYY-MM-DDTHH:mm:ss.sssZ`. */
  lemma DateInputTakesCalendarDate(c: Control, date: string, time: string)
    requires c.tag == Input(DateInput) && |date| == 10
    ensures Assign(c, Str(date + time)) == Some(c.(value := date))
    ensures Assign(c, Null) == Some(c.(value := ""))
  {
    if time == [] {
      assert date + time == date;
    } else {
      assert |date + time| > 10 && (date + time)[..10] == date;
    }
  }

  // ---------------------------------------------------------------------------
  // Round trip
  // ---------------------------------------------------------------------------

  /** No two controls share a name. */
  predicate NamesDistinct(cs: seq<Control>)
  {
    forall i, j | 0 <= i < j < |cs| :: cs[i].name != cs[j].name
  }

  /**
   * The runtime gives back the control's own text: a number input holds ""
   * or a canonical numeral, and a date input holds "" or a date whose ISO
   * string begins with it.
   */
  predicate RoundTrips(rt: Runtime, c: Control)
  {
    if c.tag == Input(NumberInput) || c.tag == Input(RangeInput) then
      c.value == "" || (!Blank(c.value) && rt.numberText(c.value) == c.value)
    else if c.tag == Input(DateInput) then
      c.value == "" ||
      (!Blank(c.value) && rt.isoDate(c.value).Some? && Prefix(rt.isoDate(c.value).value, 10) == c.value)
    else true
  }

  lemma {:induction false} FormDataOfDistinct(cs: seq<Control>)
    requires NamesDistinct(cs)
    ensures forall i | 0 <= i < |cs| :: cs[i].name in FormDataMap(cs) <==> Submittable(cs[i])
    ensures forall i | 0 <= i < |cs| && Submittable(cs[i]) :: FormDataMap(cs)[cs[i].name] == cs[i].value
    decreases |cs|
  {
    if cs != [] {
      var init := cs[..|cs| - 1];
      assert NamesDistinct(init);
      FormDataOfDistinct(init);
      assert forall k | k in FormDataMap(init) :: exists i :: 0 <= i < |init| && init[i].name == k by {
        FormDataKeys(init);
      }
    }
  }

  lemma {:induction false} FormDataKeys(cs: seq<Control>)
    ensures forall k | k in FormDataMap(cs) :: exists i :: 0 <= i < |cs| && cs[i].name == k
    decreases |cs|
  {
    if cs != [] {
      var init := cs[..|cs| - 1];
      FormDataKeys(init);
      forall k | k in FormDataMap(cs) ensures exists i :: 0 <= i < |cs| && cs[i].name == k {
        if k != cs[|cs| - 1].name {
          assert k in FormDataMap(init);
          var i :| 0 <= i < |init| && init[i].name == k;
          assert cs[i].name == k;
        }
      }
    }
  }

  /** Decoding a control's own encoding gives the control back. */
  lemma FieldRoundTrip(rt: Runtime, cs: seq<Control>, json: Object, j: nat)
    requires NamesDistinct(cs) && j < |cs| && !cs[j].disabled && RoundTrips(rt, cs[j])
    requires EncodesForm(rt, cs, json)
    requires cs[j].name in json && cs[j].name != ""
    ensures Assign(cs[j], json[cs[j].name]) == Some(cs[j])
  {
    var c := cs[j];
    FormDataOfDistinct(cs);
    if IsTyped(c) {
      assert Converted(rt, c, Raw(cs, c.name)) == Some(json[c.name]);
      if c.tag != Input(Checkbox) {
        assert Raw(cs, c.name) == Some(c.value);
      }
    } else {
      forall i | 0 <= i < |cs| && IsTyped(cs[i]) ensures cs[i].name != c.name {
        assert i != j;
        if i < j { assert cs[i].name != cs[j].name; } else { assert cs[j].name != cs[i].name; }
      }
      assert c.name !in TypedNames(cs);
      assert c.name in FormDataMap(cs);
    }
  }

  lemma DistinctTypedNamesUnique(cs: seq<Control>)
    requires NamesDistinct(cs)
    ensures TypedNamesUnique(cs)
  {
    forall i, j | 0 <= i < |cs| && 0 <= j < |cs| && i != j && IsTyped(cs[i]) && cs[j].tag.Input?
      ensures cs[i].name != cs[j].name
    {
      if i < j { assert cs[i].name != cs[j].name; } else { assert cs[j].name != cs[i].name; }
    }
  }

  /** No key of a form's own encoding makes the population loop throw. */
  lemma EncodingNeverThrows(rt: Runtime, cs: seq<Control>, json: Object, keys: seq<string>)
    requires NamesDistinct(cs)
    requires forall i | 0 <= i < |cs| :: !cs[i].disabled && RoundTrips(rt, cs[i])
    requires EncodesForm(rt, cs, json)
    requires forall i | 0 <= i < |keys| :: keys[i] in json
    ensures forall i | 0 <= i < |keys| :: !Throws(cs, keys[i], json[keys[i]])
  {
    forall i | 0 <= i < |keys| ensures !Throws(cs, keys[i], json[keys[i]]) {
      var e := ElementFor(cs, keys[i]);
      if e.Some? && cs[e.value].tag == Input(DateInput) {
        FieldRoundTrip(rt, cs, json, e.value);
      }
    }
  }

  /**
   * editItem undoes getFormData: populating a form with distinct names from
   * its own encoding, in any key order, runs to the end and leaves every
   * control as it was.
   */
  lemma FormRoundTrip(rt: Runtime, cs: seq<Control>, json: Object, keys: seq<string>)
    requires NamesDistinct(cs)
    requires forall i | 0 <= i < |cs| :: !cs[i].disabled && RoundTrips(rt, cs[i])
    requires Encode(rt, cs) == Some(json)
    requires KeyOrder(keys, json)
    ensures Populated(cs, json, keys) == (cs, true)
  {
    DistinctTypedNamesUnique(cs);
    EncodeMeaning(rt, cs);
    var r := Populated(cs, json, keys);
    PopulatedOk(cs, json, keys);
    EncodingNeverThrows(rt, cs, json, keys);
    assert r.1;
    PopulatedResult(cs, json, keys);
    forall j | 0 <= j < |cs| ensures r.0[j] == cs[j] {
      if cs[j].name in keys && ElementFor(cs, cs[j].name) == Some(j) {
        FieldRoundTrip(rt, cs, json, j);
      }
    }
    assert r.0 == cs;
  }

  /** The edit form: its controls are updated in place. */
  class Form {
    var controls: seq<Control>

    constructor (cs: seq<Control>)
      ensures controls == cs
    {
      controls := cs;
    }

    /** getFormData: None when an iteration throws. */
    method GetFormData(rt: Runtime) returns (json: Option<Object>)
      ensures json == Encode(rt, controls)
    {
      var entries := Initial(controls);
      var n := 0;
      while n < |controls|
        invariant 0 <= n <= |controls|
        invariant EncodeInputs(rt, controls[n..], entries) == Encode(rt, controls)
      {
        var el := controls[n];
        assert controls[n..][0] == el && controls[n..][1..] == controls[n + 1..];
        if el.tag.Input? {
          var value := Prop(entries, el.name);
          var isEmpty: bool;
          if !Present(value) {
            isEmpty := true;
          } else if value.value.Str? {
            isEmpty := Blank(value.value.s);
          } else {
            return None;  // `trim` of a non-string: TypeError
          }
          match el.tag.kind {
            case Checkbox =>
              entries := entries[el.name := Bool(el.checked)];
            case NumberInput =>
              entries := entries[el.name := if isEmpty then Null else Num(rt.numberText(value.value.s))];
            case RangeInput =>
              entries := entries[el.name := if isEmpty then Null else Num(rt.numberText(value.value.s))];
            case DateInput =>
              if isEmpty {
                entries := entries[el.name := Null];
              } else {
                var iso := rt.isoDate(value.value.s);
                if iso.None? {
                  return None;  // `toISOString` of an invalid date: RangeError
                }
                entries := entries[el.name := Str(iso.value)];
              }
            case _ =>
          }
        }
        n := n + 1;
      }
      json := Some(entries);
    }

    /** The population loop of editItem: false when an assignment threw part-way. */
    method EditItem(data: Object, keys: seq<string>) returns (ok: bool)
      requires KeyOrder(keys, data)
      modifies this
      ensures (controls, ok) == Populated(old(controls), data, keys)
    {
      var n := 0;
      while n < |keys|
        invariant 0 <= n <= |keys|
        invariant Populated(old(controls), data, keys) == Populated(controls, data, keys[n..])
      {
        var key := keys[n];
        assert keys[n..][0] == key && keys[n..][1..] == keys[n + 1..];
        var element := ElementFor(controls, key);
        if element.Some? {
          var i := element.value;
          var updated := Assign(controls[i], data[key]);
          if updated.None? {
            return false;  // `substring` of a non-string: TypeError
          }
          controls := controls[i := updated.value];
        }
        n := n + 1;
      }
      assert keys[n..] == [];
      ok := true;
    }
  }
}
