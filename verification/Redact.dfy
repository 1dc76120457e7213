// opentine/_canon_redact.py: the redaction walk over JSON-like values.
module Redact {
  import opened Basics
  import opened Outcomes
  import opened RedactText

  const MAX_CANONICAL_DEPTH := 768

  datatype Field = Field(key: string, value: Json)

  /** A recorded value; a dict is its fields in order, a number its spelling. */
  datatype Json =
    | Null
    | Bool(b: bool)
    | Num(literal: string)
    | Str(s: string)
    | List(items: seq<Json>)
    | Dict(fields: seq<Field>)

  datatype TooDeep = TooDeep

  const MASKED := Str(MASK)

  // ----- the tests on values -----

  predicate CounterItem(v: Json) {
    v.Num? || (v.Str? && CounterText(v.s))
  }

  /** A number, or a flat list of numbers, as the value of a *token(s) name. */
  predicate CounterValue(v: Json) {
    if v.List? then forall x :: x in v.items ==> CounterItem(x) else CounterItem(v)
  }

  predicate TokenCounter(name: string, v: Json) {
    TokenName(name) && CounterValue(v)
  }

  predicate NamesCredential(v: Json, rules: Rules) {
    v.Str? && HeaderName(FieldName(v.s), rules)
  }

  /** Some "name" field of the dict names a credential, so its "value" fields are one. */
  predicate SecretHeader(fields: seq<Field>, rules: Rules) {
    exists i :: 0 <= i < |fields| && FieldName(fields[i].key) == "name" && NamesCredential(fields[i].value, rules)
  }

  /** A two-element [name, credential] list. */
  predicate SecretPair(items: seq<Json>, rules: Rules) {
    |items| == 2 && items[0].Str? && CredentialName(FieldName(items[0].s), rules) &&
    !TokenCounter(FieldName(items[0].s), items[1])
  }

  // ----- what the walk does with one child -----

  datatype Fate = Mask | Keep | Relabel | Recurse

  predicate SecretFieldValue(header: bool, f: Field, rules: Rules) {
    var name := FieldName(f.key);
    var named := SecretField(name, rules) || (name == "value" && header) ||
                 (name == "token" && !f.value.Num? && !f.value.Bool?);
    || (named && !TokenCounter(name, f.value))
    || (name in LOOSE_NAMES && f.value.Str? && f.value.s !in AUTH_MODES)
  }

  function FieldFate(header: bool, f: Field, rules: Rules): (fate: Fate)
    ensures fate != Relabel
    ensures fate == Keep ==> f.value.List?
  {
    if FieldName(f.key) == "extra_secret_keys" && f.value.List? && forall x :: x in f.value.items ==> x.Str? then Keep
    else if SecretFieldValue(header, f, rules) then Mask
    else Recurse
  }

  function ItemFate(flag: string, x: Json, rules: Rules): (fate: Fate)
    ensures fate != Keep
    ensures fate == Relabel ==> x.Str? && HasSeparator(x.s)
  {
    if flag != "" && x.Str? && !TokenCounter(flag, x) then Mask
    else if x.Str? && HasSeparator(x.s) && (FieldName(Label(x.s)) in HEADERS || FieldName(Label(x.s)) == "token")
    then Relabel
    else Recurse
  }

  /** The flag in force after an item: none once a value was masked for the last one. */
  function NextFlag(flag: string, x: Json, rules: Rules): string {
    if ItemFate(flag, x, rules) == Mask then "" else if x.Str? then SecretFlag(x.s, rules) else ""
  }

  // ----- the walk -----

  function Clean(v: Json, rules: Rules): Json
    decreases v, 0
  {
    match v
    case Dict(fields) => Dict(CleanFields(SecretHeader(fields, rules), fields, rules))
    case List(items) =>
      if SecretPair(items, rules) then List([items[0], MASKED]) else List(CleanItems("", items, rules))
    case Str(s) => Str(CleanText(s, rules))
    case _ => v
  }

  function CleanFields(header: bool, fields: seq<Field>, rules: Rules): (r: seq<Field>)
    ensures |r| == |fields|
    decreases fields, 2
  {
    if fields == [] then []
    else [CleanField(header, fields[0], rules)] + CleanFields(header, fields[1..], rules)
  }

  function CleanField(header: bool, f: Field, rules: Rules): (r: Field)
    ensures r.key == f.key
    decreases f, 1
  {
    var fate := FieldFate(header, f, rules);
    if fate == Mask then Field(f.key, MASKED)
    else if fate == Keep then f
    else Field(f.key, Clean(f.value, rules))
  }

  function CleanItems(flag: string, items: seq<Json>, rules: Rules): (r: seq<Json>)
    ensures |r| == |items|
    decreases items, 2
  {
    if items == [] then []
    else [CleanItem(flag, items[0], rules)] + CleanItems(NextFlag(flag, items[0], rules), items[1..], rules)
  }

  function CleanItem(flag: string, x: Json, rules: Rules): Json
    decreases x, 1
  {
    var fate := ItemFate(flag, x, rules);
    if fate == Mask then MASKED
    else if fate == Relabel then Str(MaskedLabel(x.s))
    else Clean(x, rules)
  }

  // ----- how deep the walk goes: what is masked or kept is not entered -----

  function Levels(v: Json, rules: Rules): nat
    decreases v, 0
  {
    match v
    case Dict(fields) => FieldLevels(SecretHeader(fields, rules), fields, rules)
    case List(items) => if SecretPair(items, rules) then 0 else ItemLevels("", items, rules)
    case _ => 0
  }

  function FieldLevels(header: bool, fields: seq<Field>, rules: Rules): nat
    decreases fields, 2
  {
    if fields == [] then 0
    else Max(FieldLevel(header, fields[0], rules), FieldLevels(header, fields[1..], rules))
  }

  function FieldLevel(header: bool, f: Field, rules: Rules): nat
    decreases f, 1
  {
    if FieldFate(header, f, rules) == Recurse then 1 + Levels(f.value, rules) else 0
  }

  function ItemLevels(flag: string, items: seq<Json>, rules: Rules): nat
    decreases items, 2
  {
    if items == [] then 0
    else Max(ItemLevel(flag, items[0], rules), ItemLevels(NextFlag(flag, items[0], rules), items[1..], rules))
  }

  function ItemLevel(flag: string, x: Json, rules: Rules): nat
    decreases x, 1
  {
    if ItemFate(flag, x, rules) == Recurse then 1 + Levels(x, rules) else 0
  }

  /** What the walk answers at this depth. */
  function Outcome(v: Json, depth: nat, rules: Rules): Result<Json, TooDeep> {
    if depth + Levels(v, rules) > MAX_CANONICAL_DEPTH then Err(TooDeep.TooDeep) else Ok(Clean(v, rules))
  }

  lemma FieldsFrom(header: bool, fields: seq<Field>, i: nat, rules: Rules)
    requires i < |fields|
    ensures CleanFields(header, fields[i..], rules)
         == [CleanField(header, fields[i], rules)] + CleanFields(header, fields[i + 1..], rules)
    ensures FieldLevels(header, fields[i..], rules)
         == Max(FieldLevel(header, fields[i], rules), FieldLevels(header, fields[i + 1..], rules))
  {
    assert fields[i..][1..] == fields[i + 1..];
  }

  lemma ItemsFrom(flag: string, items: seq<Json>, i: nat, rules: Rules)
    requires i < |items|
    ensures CleanItems(flag, items[i..], rules)
         == [CleanItem(flag, items[i], rules)] + CleanItems(NextFlag(flag, items[i], rules), items[i + 1..], rules)
    ensures ItemLevels(flag, items[i..], rules)
         == Max(ItemLevel(flag, items[i], rules), ItemLevels(NextFlag(flag, items[i], rules), items[i + 1..], rules))
  {
    assert items[i..][1..] == items[i + 1..];
  }

  /** _redact: the recursion, with its loops over fields and over items with a flag. */
  method RedactValue(v: Json, depth: nat, rules: Rules) returns (r: Result<Json, TooDeep>)
    ensures r == Outcome(v, depth, rules)
    decreases v, 1
  {
    if depth > MAX_CANONICAL_DEPTH {
      return Err(TooDeep.TooDeep);
    }
    match v {
      case Dict(fields) =>
        var redacted :- RedactFields(SecretHeader(fields, rules), fields, depth, rules);
        r := Ok(Dict(redacted));
      case List(items) =>
        if SecretPair(items, rules) {
          return Ok(List([items[0], MASKED]));
        }
        var redacted :- RedactItems(items, depth, rules);
        r := Ok(List(redacted));
      case Str(s) => r := Ok(Str(CleanText(s, rules)));
      case _ => r := Ok(v);
    }
  }

  /** What the loop over the fields from i on answers. */
  function FieldsOutcome(header: bool, fields: seq<Field>, depth: nat, rules: Rules): Result<seq<Field>, TooDeep> {
    if depth + FieldLevels(header, fields, rules) > MAX_CANONICAL_DEPTH then Err(TooDeep.TooDeep)
    else Ok(CleanFields(header, fields, rules))
  }

  function FieldOutcome(header: bool, f: Field, depth: nat, rules: Rules): Result<Field, TooDeep> {
    if depth + FieldLevel(header, f, rules) > MAX_CANONICAL_DEPTH then Err(TooDeep.TooDeep)
    else Ok(CleanField(header, f, rules))
  }

  lemma FieldsStep(header: bool, fields: seq<Field>, i: nat, depth: nat, rules: Rules)
    requires i < |fields|
    ensures FieldsOutcome(header, fields[i..], depth, rules) ==
            match FieldOutcome(header, fields[i], depth, rules)
            case Err(e) => Err(e)
            case Ok(f) =>
              match FieldsOutcome(header, fields[i + 1..], depth, rules)
              case Err(e) => Err(e)
              case Ok(rest) => Ok([f] + rest)
  {
    FieldsFrom(header, fields, i, rules);
  }

  /** The fields done, then what the loop answers for the rest. */
  predicate Continues(done: seq<Field>, rest: Result<seq<Field>, TooDeep>, all: Result<seq<Field>, TooDeep>) {
    match rest
    case Err(e) => all == Err(e)
    case Ok(fields) => all == Ok(done + fields)
  }

  lemma ContinuesWith(done: seq<Field>, f: Field, rest: Result<seq<Field>, TooDeep>, all: Result<seq<Field>, TooDeep>)
    requires Continues(done, match rest case Err(e) => Err(e) case Ok(fields) => Ok([f] + fields), all)
    ensures Continues(done + [f], rest, all)
  {
    if rest.Ok? {
      assert done + ([f] + rest.value) == done + [f] + rest.value;
    }
  }

  method RedactFields(header: bool, fields: seq<Field>, depth: nat, rules: Rules)
    returns (r: Result<seq<Field>, TooDeep>)
    requires depth <= MAX_CANONICAL_DEPTH
    ensures r == FieldsOutcome(header, fields, depth, rules)
    decreases fields, 2
  {
    var redacted := [];
    ghost var all := FieldsOutcome(header, fields, depth, rules);
    assert fields[0..] == fields;
    assert forall s: seq<Field> :: [] + s == s;
    for i := 0 to |fields|
      invariant Continues(redacted, FieldsOutcome(header, fields[i..], depth, rules), all)
    {
      FieldsStep(header, fields, i, depth, rules);
      var f :- RedactField(header, fields[i], depth, rules);
      ContinuesWith(redacted, f, FieldsOutcome(header, fields[i + 1..], depth, rules), all);
      redacted := redacted + [f];
    }
    assert redacted + [] == redacted;
    r := Ok(redacted);
  }

  method RedactField(header: bool, f: Field, depth: nat, rules: Rules) returns (r: Result<Field, TooDeep>)
    requires depth <= MAX_CANONICAL_DEPTH
    ensures r == FieldOutcome(header, f, depth, rules)
    decreases f, 2
  {
    var fate := FieldFate(header, f, rules);
    if fate == Keep {
      return Ok(f);
    }
    if fate == Mask {
      return Ok(Field(f.key, MASKED));
    }
    var item :- RedactValue(f.value, depth + 1, rules);
    r := Ok(Field(f.key, item));
  }

  method RedactItems(items: seq<Json>, depth: nat, rules: Rules) returns (r: Result<seq<Json>, TooDeep>)
    requires depth <= MAX_CANONICAL_DEPTH
    ensures r == if depth + ItemLevels("", items, rules) > MAX_CANONICAL_DEPTH then Err(TooDeep.TooDeep)
                 else Ok(CleanItems("", items, rules))
    decreases items, 2
  {
    var redacted := [];
    var flag := "";
    for i := 0 to |items|
      invariant redacted + CleanItems(flag, items[i..], rules) == CleanItems("", items, rules)
      invariant depth + ItemLevels("", items, rules) > MAX_CANONICAL_DEPTH <==>
                depth + ItemLevels(flag, items[i..], rules) > MAX_CANONICAL_DEPTH
    {
      ItemsFrom(flag, items, i, rules);
      var x :- RedactItem(flag, items[i], depth, rules);
      redacted := redacted + [x];
      flag := NextFlag(flag, items[i], rules);
    }
    assert redacted + [] == redacted;
    r := Ok(redacted);
  }

  method RedactItem(flag: string, x: Json, depth: nat, rules: Rules) returns (r: Result<Json, TooDeep>)
    requires depth <= MAX_CANONICAL_DEPTH
    ensures r == if depth + ItemLevel(flag, x, rules) > MAX_CANONICAL_DEPTH then Err(TooDeep.TooDeep)
                 else Ok(CleanItem(flag, x, rules))
    decreases x, 2
  {
    var fate := ItemFate(flag, x, rules);
    if fate == Mask {
      return Ok(MASKED);
    }
    if fate == Relabel {
      return Ok(Str(MaskedLabel(x.s)));
    }
    r := RedactValue(x, depth + 1, rules);
  }
}
