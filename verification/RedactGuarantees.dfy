// opentine/_canon_redact.py: how deep a redacted value is, what it keeps and what it holds.
module RedactGuarantees {
  import opened Basics
  import opened Outcomes
  import opened RedactText
  import opened RedactForms
  import opened RedactNames
  import opened Redact
  import opened RedactTheorems

  // ----- the walk, twice, with its depth bound -----

  /** A redacted value is no deeper to walk: an item the first walk masked can be entered by
      the second one, but then the first walk entered the flag or the header's name before it. */
  lemma {:induction false} LevelsNeverGrow(v: Json, rules: Rules)
    requires Usual(rules)
    ensures Levels(Clean(v, rules), rules) <= Levels(v, rules)
    decreases v, 0
  {
    match v {
      case Dict(fields) =>
        var header := SecretHeader(fields, rules);
        var cleaned := CleanFields(header, fields, rules);
        FieldLevelsFit(header, SecretHeader(cleaned, rules), fields, rules);
        if header {
          HeaderIsWalked(fields, rules);
        }
      case List(items) =>
        if SecretPair(items, rules) {
          assert SecretPair([items[0], MASKED], rules) by { MaskStays(rules); }
        } else {
          ItemLevelsFit("", "", items, rules);
        }
      case _ =>
    }
  }

  /** A header entry has a name, and the walk enters it. */
  lemma HeaderIsWalked(fields: seq<Field>, rules: Rules)
    requires Usual(rules) && SecretHeader(fields, rules)
    ensures FieldLevels(true, fields, rules) >= 1
  {
    var i :| 0 <= i < |fields| && FieldName(fields[i].key) == "name" && NamesCredential(fields[i].value, rules);
    NameWalked(true, fields[i], rules);
    FieldLevelAt(true, fields, rules, i);
  }

  lemma {:induction false} FieldLevelAt(header: bool, fields: seq<Field>, rules: Rules, i: nat)
    requires i < |fields|
    ensures FieldLevel(header, fields[i], rules) <= FieldLevels(header, fields, rules)
  {
    hide FieldLevel;
    if i > 0 {
      FieldLevelAt(header, fields[1..], rules, i - 1);
    }
  }

  lemma {:induction false} FieldLevelsFit(header: bool, again: bool, fields: seq<Field>, rules: Rules)
    requires Usual(rules)
    ensures FieldLevels(again, CleanFields(header, fields, rules), rules) <=
            Max(FieldLevels(header, fields, rules), if header then 1 else 0)
    decreases fields, 2
  {
    if fields != [] {
      FieldLevelFits(header, again, fields[0], rules);
      FieldLevelsFit(header, again, fields[1..], rules);
      assert CleanFields(header, fields, rules)[1..] == CleanFields(header, fields[1..], rules);
    }
  }

  lemma {:induction false} FieldLevelFits(header: bool, again: bool, f: Field, rules: Rules)
    requires Usual(rules)
    ensures FieldLevel(again, CleanField(header, f, rules), rules) <=
            Max(FieldLevel(header, f, rules), if header then 1 else 0)
    decreases f, 1
  {
    if FieldFate(header, f, rules) == Mask {
      MaskedFieldLevel(header, again, f, rules);
    } else {
      LevelsNeverGrow(f.value, rules);
    }
  }

  /** What was masked is masked again, unless only the header masked it. */
  lemma MaskedFieldLevel(header: bool, again: bool, f: Field, rules: Rules)
    requires FieldFate(header, f, rules) == Mask
    ensures FieldLevel(again, Field(f.key, MASKED), rules) <= if header then 1 else 0
  {
    hide FieldName, SecretField, TokenName;
    MaskStays(rules);
    MaskIsNoMode();
  }

  lemma MaskIsNoMode()
    ensures MASK !in AUTH_MODES
  {
    assert forall i :: 0 <= i < |AUTH_MODES| ==> |AUTH_MODES[i]| < |MASK|;
  }

  /** A masked item was masked for a flag; any other item gets no deeper. */
  lemma ItemLevelFits(flag: string, again: string, x: Json, rules: Rules)
    requires Levels(Clean(x, rules), rules) <= Levels(x, rules)
    ensures ItemLevel(again, CleanItem(flag, x, rules), rules) <=
            Max(ItemLevel(flag, x, rules), if flag != "" then 1 else 0)
  {
    if ItemFate(flag, x, rules) == Relabel {
      MaskedShape(x.s);
    }
  }

  lemma LevelsCons(flag: string, y: Json, rest: seq<Json>, rules: Rules)
    ensures ItemLevels(flag, [y] + rest, rules) ==
            Max(ItemLevel(flag, y, rules), ItemLevels(NextFlag(flag, y, rules), rest, rules))
  {
    assert ([y] + rest)[1..] == rest;
  }

  /** An item that sets a flag is entered: it starts with a hyphen, so it is no header label. */
  lemma FlagIsWalked(flag: string, x: Json, rules: Rules)
    requires NextFlag(flag, x, rules) != ""
    ensures ItemLevel(flag, x, rules) >= 1
  {
    if ItemFate(flag, x, rules) == Relabel {
      HyphenLabel(x.s);
    }
  }

  lemma HyphenKept(s: string)
    requires s != [] && s[0] == '-'
    ensures CamelFrom(s, 0) != [] && CamelFrom(s, 0)[0] == '-'
  {
  }

  /** A label that starts with a hyphen reads as a name that starts with an underscore. */
  lemma HyphenLabel(s: string)
    requires s != [] && s[0] == '-' && HasSeparator(s)
    ensures FieldName(Label(s)) != [] && FieldName(Label(s))[0] == '_'
    ensures FieldName(Label(s)) !in HEADERS && FieldName(Label(s)) != "token"
  {
    var front := Label(s);
    assert SeparatorAt(s) > 0 && front[0] == '-';
    StripKeepsFirst(front, IsSpace);
    StripKeepsFirst(Strip(front, IsSpace), IsQuote);
    HyphenKept(Strip(Strip(front, IsSpace), IsQuote));
    HeadersStartLow(FieldName(front));
  }

  lemma HeadersStartLow(name: string)
    requires name != [] && name[0] == '_'
    ensures name !in HEADERS && name != "token"
  {
  }

  lemma {:induction false} RightKeepsFirst(s: string, p: char -> bool)
    requires s != [] && !p(s[0])
    ensures StripRight(s, p) != [] && StripRight(s, p)[0] == s[0]
    decreases |s|
  {
    if p(s[|s| - 1]) {
      RightKeepsFirst(s[..|s| - 1], p);
    }
  }

  lemma StripKeepsFirst(s: string, p: char -> bool)
    requires s != [] && !p(s[0])
    ensures Strip(s, p) != [] && Strip(s, p)[0] == s[0]
  {
    RightKeepsFirst(s, p);
  }

  lemma {:induction false} ItemLevelsFit(flag: string, again: string, items: seq<Json>, rules: Rules)
    requires Usual(rules)
    ensures ItemLevels(again, CleanItems(flag, items, rules), rules) <=
            Max(ItemLevels(flag, items, rules), if flag != "" then 1 else 0)
    decreases items, 2
  {
    if items != [] {
      var x, rest := items[0], items[1..];
      var y, next := CleanItem(flag, x, rules), NextFlag(flag, x, rules);
      LevelsNeverGrow(x, rules);
      ItemLevelFits(flag, again, x, rules);
      ItemLevelsFit(next, NextFlag(again, y, rules), rest, rules);
      LevelsCons(again, y, CleanItems(next, rest, rules), rules);
      if next != "" {
        FlagIsWalked(flag, x, rules);
      }
    }
  }

  /** Redaction as its callers have it: under the names a policy can add, a value it accepts
      redacts to one that it accepts again and leaves as it is. */
  lemma RedactTwice(v: Json, extra: set<string>)
    requires FromPolicy(extra) && !Clashes(RulesWith(extra))
    ensures var once := Outcome(v, 0, RulesWith(extra));
            once.Ok? ==> Outcome(once.value, 0, RulesWith(extra)) == once
  {
    PolicyIsUsual(extra);
    Idempotent(v, RulesWith(extra));
    LevelsNeverGrow(v, RulesWith(extra));
  }

  // ----- shape -----

  /** w is v with some values masked and some text relabelled: the same keys in the same
      order, the same list lengths, the same numbers, flags and nulls. */
  predicate SameShape(v: Json, w: Json)
    decreases v, 0
  {
    match v
    case Dict(fields) => w.Dict? && |w.fields| == |fields| && SameFieldShapes(fields, w.fields)
    case List(items) => w.List? && |w.items| == |items| && SameItemShapes(items, w.items)
    case Str(_) => w.Str?
    case _ => w == v
  }

  predicate SameFieldShapes(a: seq<Field>, b: seq<Field>)
    requires |a| == |b|
    decreases a, 2
  {
    a == [] || (SameFieldShape(a[0], b[0]) && SameFieldShapes(a[1..], b[1..]))
  }

  predicate SameFieldShape(f: Field, g: Field)
    decreases f, 1
  {
    g.key == f.key && (g.value == MASKED || SameShape(f.value, g.value))
  }

  predicate SameItemShapes(a: seq<Json>, b: seq<Json>)
    requires |a| == |b|
    decreases a, 2
  {
    a == [] || ((b[0] == MASKED || SameShape(a[0], b[0])) && SameItemShapes(a[1..], b[1..]))
  }

  lemma {:induction false} ShapeKept(v: Json, rules: Rules)
    ensures SameShape(v, Clean(v, rules))
    decreases v, 0
  {
    match v {
      case Dict(fields) => FieldShapesKept(SecretHeader(fields, rules), fields, rules);
      case List(items) =>
        if SecretPair(items, rules) {
          PairShape(items);
        } else {
          ItemShapesKept("", items, rules);
        }
      case _ =>
    }
  }

  lemma PairShape(items: seq<Json>)
    requires |items| == 2 && items[0].Str?
    ensures SameItemShapes(items, [items[0], MASKED])
  {
    assert items[1..][1..] == [];
    assert [items[0], MASKED][1..] == [MASKED];
    assert SameItemShapes(items[1..], [MASKED]);
  }

  lemma {:induction false} FieldShapesKept(header: bool, fields: seq<Field>, rules: Rules)
    ensures SameFieldShapes(fields, CleanFields(header, fields, rules))
    decreases fields, 2
  {
    if fields != [] {
      FieldShapeKept(header, fields[0], rules);
      FieldShapesKept(header, fields[1..], rules);
      assert CleanFields(header, fields, rules)[1..] == CleanFields(header, fields[1..], rules);
    }
  }

  lemma {:induction false} FieldShapeKept(header: bool, f: Field, rules: Rules)
    ensures SameFieldShape(f, CleanField(header, f, rules))
    decreases f, 1
  {
    if FieldFate(header, f, rules) == Keep {
      KeptShape(f.value.items);
    } else {
      ShapeKept(f.value, rules);
    }
  }

  lemma {:induction false} KeptShape(items: seq<Json>)
    requires forall x :: x in items ==> x.Str?
    ensures SameItemShapes(items, items)
  {
    if items != [] {
      assert items[0] in items;
      KeptShape(items[1..]);
    }
  }

  lemma {:induction false} ItemShapesKept(flag: string, items: seq<Json>, rules: Rules)
    ensures SameItemShapes(items, CleanItems(flag, items, rules))
    decreases items, 2
  {
    if items != [] {
      var x, rest := items[0], items[1..];
      ShapeKept(x, rules);
      ItemShapesKept(NextFlag(flag, x, rules), rest, rules);
      assert CleanItems(flag, items, rules)[1..] == CleanItems(NextFlag(flag, x, rules), rest, rules);
    }
  }

  // ----- nothing named a credential survives, and nothing else is touched -----

  /** A number, as itself or in text. */
  predicate Count(v: Json) {
    v.Num? || (v.Str? && NumeralName(Strip(v.s, IsSpace)))
  }

  /** Counts under a *token(s) name: a number, or a flat list of numbers. */
  ghost predicate TokenCount(name: string, v: Json) {
    CountName(name) && if v.List? then forall x :: x in v.items ==> Count(x) else Count(v)
  }

  /** The policy's own list of field names, which holds no secret. */
  predicate NameList(f: Field) {
    FieldName(f.key) == "extra_secret_keys" && f.value.List? && forall x :: x in f.value.items ==> x.Str?
  }

  /** A {"name": ..., "value": ...} dict whose name is token or a credential's. */
  ghost predicate HeaderEntry(fields: seq<Field>, rules: Rules) {
    exists i :: 0 <= i < |fields| && FieldName(fields[i].key) == "name" && fields[i].value.Str? &&
                (FieldName(fields[i].value.s) == "token" || Credential(FieldName(fields[i].value.s), rules))
  }

  /** The value of this field is a credential. */
  ghost predicate SecretIn(header: bool, f: Field, rules: Rules) {
    var name := FieldName(f.key);
    || (!TokenCount(name, f.value) &&
        (Credential(name, rules) || (header && name == "value") ||
         (name == "token" && !f.value.Num? && !f.value.Bool?)))
    || ((name == "pass" || name == "auth") && f.value.Str? && f.value.s !in AUTH_MODES)
  }

  /** A [name, credential] pair. */
  ghost predicate CredentialPair(items: seq<Json>, rules: Rules) {
    |items| == 2 && items[0].Str? &&
    var name := FieldName(items[0].s);
    (name == "token" || name in HEADERS || Credential(name, rules)) && !TokenCount(name, items[1])
  }

  /** The text is a label, the first separator, and the rest. */
  predicate Labelled(s: string, lead: string, separator: char, rest: string) {
    IsSeparator(separator) && ':' !in lead && '=' !in lead && s == lead + [separator] + rest
  }

  /** The rest of a text with this label is a credential. */
  ghost predicate SecretRest(lead: string, rest: string, rules: Rules) {
    var name, stripped := FieldName(lead), Strip(rest, IsSpace);
    || name in HEADERS
    || (name == "token" && stripped != [] && IsQuote(stripped[0]))
    || (Credential(name, rules) && !ReadsAsProse(LowerAll(stripped)) && !TokenCount(name, Str(rest)))
  }

  ghost predicate ClearText(s: string, rules: Rules) {
    forall lead, separator, rest ::
      Labelled(s, lead, separator, rest) && SecretRest(lead, rest, rules) ==> rest == " " + MASK
  }

  /** In a list the rest of a text under a header's name, or token, is one whatever it reads as. */
  ghost predicate ListLabel(s: string) {
    exists lead, separator, rest ::
      Labelled(s, lead, separator, rest) && (FieldName(lead) in HEADERS || FieldName(lead) == "token")
  }

  ghost predicate ClearListLabel(s: string) {
    forall lead, separator, rest :: Labelled(s, lead, separator, rest) ==> rest == " " + MASK
  }

  /** The item is the argument of a credential flag, and no count under its name. */
  ghost predicate FlagArgument(items: seq<Json>, i: nat, rules: Rules)
    requires i < |items|
  {
    i > 0 && items[i].Str? && items[i - 1].Str? &&
    exists name :: name != "" && CredentialFlag(items[i - 1].s, name, rules) && !TokenCount(name, items[i])
  }

  /** Nothing is left to redact: at every depth, what a credential's name, a header entry, a
      flag, a pair or a label says is a credential is the mask. */
  ghost predicate Clear(w: Json, rules: Rules)
    decreases w, 0
  {
    match w
    case Dict(fields) =>
      forall i :: 0 <= i < |fields| ==> ClearField(HeaderEntry(fields, rules), fields[i], rules)
    case List(items) =>
      if CredentialPair(items, rules) then items[1] == MASKED
      else forall i :: 0 <= i < |items| ==> ClearItem(items, i, rules)
    case Str(s) => ClearText(s, rules)
    case _ => true
  }

  ghost predicate ClearField(header: bool, f: Field, rules: Rules)
    decreases f, 1
  {
    if NameList(f) then true
    else if SecretIn(header, f, rules) then f.value == MASKED
    else Clear(f.value, rules)
  }

  ghost predicate ClearItem(items: seq<Json>, i: nat, rules: Rules)
    requires i < |items|
    decreases items, 0
  {
    if FlagArgument(items, i, rules) then items[i] == MASKED
    else if items[i].Str? && ListLabel(items[i].s) then ClearListLabel(items[i].s)
    else Clear(items[i], rules)
  }

  // ----- the walk's tests are these -----

  lemma CountIs(v: Json)
    ensures CounterItem(v) <==> Count(v)
  {
    if v.Str? {
      CounterIsNumeral(v.s);
    }
  }

  lemma TokenCountIs(name: string, v: Json)
    ensures TokenCounter(name, v) <==> TokenCount(name, v)
  {
    TokenForms(name);
    hide CountName, TokenName, Count, CounterItem;
    CountIs(v);
    if v.List? {
      forall x | x in v.items
        ensures CounterItem(x) <==> Count(x)
      {
        CountIs(x);
      }
    }
  }

  lemma HeaderEntryIs(fields: seq<Field>, rules: Rules)
    ensures SecretHeader(fields, rules) <==> HeaderEntry(fields, rules)
  {
    hide Credential, SecretField, FieldName;
    forall i | 0 <= i < |fields| && fields[i].value.Str?
      ensures SecretField(FieldName(fields[i].value.s), rules) <==> Credential(FieldName(fields[i].value.s), rules)
    {
      CredentialForms(FieldName(fields[i].value.s), rules);
    }
  }

  lemma SecretInIs(header: bool, f: Field, rules: Rules)
    ensures SecretFieldValue(header, f, rules) <==> SecretIn(header, f, rules)
  {
    hide Credential, SecretField, FieldName, TokenCounter, TokenCount;
    CredentialForms(FieldName(f.key), rules);
    TokenCountIs(FieldName(f.key), f.value);
  }

  lemma CredentialPairIs(items: seq<Json>, rules: Rules)
    ensures SecretPair(items, rules) <==> CredentialPair(items, rules)
  {
    hide Credential, SecretField, FieldName, TokenCounter, TokenCount;
    if |items| == 2 && items[0].Str? {
      CredentialForms(FieldName(items[0].s), rules);
      TokenCountIs(FieldName(items[0].s), items[1]);
    }
  }

  lemma LabelledAt(s: string, lead: string, separator: char, rest: string)
    requires Labelled(s, lead, separator, rest)
    ensures SeparatorAt(s) == |lead| && HasSeparator(s) && s[|lead|] == separator
    ensures Label(s) == lead && Candidate(s) == rest
  {
    var k := |lead|;
    assert s[k] == separator && s[k] in s;
    forall i | 0 <= i < k
      ensures !IsSeparator(s[i])
    {
      assert s[i] == lead[i] && lead[i] in lead;
    }
  }

  lemma CutAt(s: string, k: nat)
    requires k < |s|
    ensures s == s[..k] + [s[k]] + s[k + 1..] && s[..k + 1] == s[..k] + [s[k]]
  {
  }

  lemma LabelSplits(s: string)
    requires HasSeparator(s)
    ensures Labelled(s, Label(s), s[SeparatorAt(s)], Candidate(s))
    ensures MaskedLabel(s) == Label(s) + [s[SeparatorAt(s)]] + " " + MASK
  {
    hide HasSeparator, SeparatorAt;
    var k := SeparatorAt(s);
    CutAt(s, k);
    forall c | c in s[..k]
      ensures !IsSeparator(c)
    {
      var i :| 0 <= i < k && s[i] == c;
    }
  }

  /** A text with a separator has one label. */
  lemma LabelledIs(s: string, lead: string, separator: char, rest: string)
    ensures Labelled(s, lead, separator, rest) <==>
              HasSeparator(s) && lead == Label(s) && rest == Candidate(s) && separator == s[SeparatorAt(s)]
    ensures Labelled(s, lead, separator, rest) ==> MaskedLabel(s) == lead + [separator] + " " + MASK
  {
    hide Labelled, SeparatorAt, Label, Candidate, MaskedLabel, HasSeparator;
    if Labelled(s, lead, separator, rest) {
      LabelledAt(s, lead, separator, rest);
    }
    if HasSeparator(s) {
      LabelSplits(s);
    }
  }

  lemma SecretRestIs(s: string, rules: Rules)
    requires HasSeparator(s)
    ensures SecretText(s, rules) <==> SecretRest(Label(s), Candidate(s), rules)
  {
    hide Credential, SecretField, FieldName, TokenCount, CountName, TokenName, ReadsAsProse, Prose;
    CredentialForms(FieldName(Label(s)), rules);
    ProseForms(Candidate(s));
    TokenForms(FieldName(Label(s)));
    CounterIsNumeral(Candidate(s));
    TokenCountIs(FieldName(Label(s)), Str(Candidate(s)));
  }

  lemma ClearTextIs(s: string, rules: Rules)
    ensures ClearText(s, rules) <==> CleanText(s, rules) == s
  {
    hide SecretRest, SecretText;
    forall lead, separator, rest
      ensures Labelled(s, lead, separator, rest) <==>
                HasSeparator(s) && lead == Label(s) && rest == Candidate(s) && separator == s[SeparatorAt(s)]
      ensures Labelled(s, lead, separator, rest) ==> MaskedLabel(s) == lead + [separator] + " " + MASK
    {
      LabelledIs(s, lead, separator, rest);
    }
    if HasSeparator(s) {
      SecretRestIs(s, rules);
      var lead, separator, rest := Label(s), s[SeparatorAt(s)], Candidate(s);
      assert Labelled(s, lead, separator, rest);
      assert s == lead + [separator] + rest && MaskedLabel(s) == lead + [separator] + (" " + MASK);
      assert MaskedLabel(s) == s <==> rest == " " + MASK by {
        assert s[|lead| + 1..] == rest && MaskedLabel(s)[|lead| + 1..] == " " + MASK;
      }
    }
  }

  lemma ListLabelIs(s: string)
    ensures ListLabel(s) <==>
              HasSeparator(s) && (FieldName(Label(s)) in HEADERS || FieldName(Label(s)) == "token")
    ensures HasSeparator(s) ==> (ClearListLabel(s) <==> MaskedLabel(s) == s)
  {
    hide FieldName;
    forall lead, separator, rest
      ensures Labelled(s, lead, separator, rest) <==>
                HasSeparator(s) && lead == Label(s) && rest == Candidate(s) && separator == s[SeparatorAt(s)]
      ensures Labelled(s, lead, separator, rest) ==> MaskedLabel(s) == lead + [separator] + " " + MASK
    {
      LabelledIs(s, lead, separator, rest);
    }
    if HasSeparator(s) {
      var lead, separator, rest := Label(s), s[SeparatorAt(s)], Candidate(s);
      assert Labelled(s, lead, separator, rest);
      assert s == lead + [separator] + rest && MaskedLabel(s) == lead + [separator] + (" " + MASK);
      assert MaskedLabel(s) == s <==> rest == " " + MASK by {
        assert s[|lead| + 1..] == rest && MaskedLabel(s)[|lead| + 1..] == " " + MASK;
      }
    }
  }

  /** The flag an item sets for the next. */
  function FlagOf(x: Json, rules: Rules): string {
    if x.Str? then SecretFlag(x.s, rules) else ""
  }

  lemma FlagArgumentIs(items: seq<Json>, i: nat, rules: Rules)
    requires i < |items|
    ensures var flag := if i == 0 then "" else FlagOf(items[i - 1], rules);
            FlagArgument(items, i, rules) <==> flag != "" && items[i].Str? && !TokenCounter(flag, items[i])
  {
    hide CredentialFlag, SecretFlag, TokenCounter, TokenCount;
    if i > 0 && items[i - 1].Str? && items[i].Str? {
      forall name | name != ""
        ensures SecretFlag(items[i - 1].s, rules) == name <==> CredentialFlag(items[i - 1].s, name, rules)
        ensures TokenCounter(name, items[i]) <==> TokenCount(name, items[i])
      {
        SecretFlagForms(items[i - 1].s, name, rules);
        TokenCountIs(name, items[i]);
      }
    }
  }

  // ----- clear is what the walk leaves alone -----

  lemma {:induction false} FieldsFixed(header: bool, fields: seq<Field>, rules: Rules)
    ensures CleanFields(header, fields, rules) == fields <==>
              forall i :: 0 <= i < |fields| ==> CleanField(header, fields[i], rules) == fields[i]
  {
    if fields != [] {
      var cleaned := CleanFields(header, fields, rules);
      FieldsFixed(header, fields[1..], rules);
      assert cleaned == [cleaned[0]] + cleaned[1..] && fields == [fields[0]] + fields[1..];
      assert forall i :: 0 < i < |fields| ==> fields[i] == fields[1..][i - 1];
    }
  }

  lemma FixedSetsFlag(flag: string, x: Json, rules: Rules)
    requires CleanItem(flag, x, rules) == x
    ensures NextFlag(flag, x, rules) == FlagOf(x, rules)
  {
    hide CredentialName, HeaderName, TokenCounter, TokenName, CounterText, SecretField, FieldName;
    BracketNotFlag(MASK, rules);
  }

  /** The item is left alone under the flag the item before it sets, the first under this one. */
  predicate ItemFixed(flag: string, items: seq<Json>, i: nat, rules: Rules)
    requires i < |items|
  {
    CleanItem(if i == 0 then flag else FlagOf(items[i - 1], rules), items[i], rules) == items[i]
  }

  lemma ItemFixedFurther(flag: string, items: seq<Json>, i: nat, rules: Rules)
    requires 0 < i < |items|
    ensures ItemFixed(flag, items, i, rules) <==> ItemFixed(FlagOf(items[0], rules), items[1..], i - 1, rules)
  {
    assert items[i] == items[1..][i - 1];
    if i > 1 {
      assert items[i - 1] == items[1..][i - 2];
    }
  }

  lemma CleanFirst(flag: string, items: seq<Json>, rules: Rules)
    requires items != []
    ensures var cleaned := CleanItems(flag, items, rules);
            && cleaned[0] == CleanItem(flag, items[0], rules)
            && cleaned[1..] == CleanItems(NextFlag(flag, items[0], rules), items[1..], rules)
  {
  }

  /** In a list left alone the flag in force at an item is the one the item before it sets. */
  lemma {:induction false} ItemsFixed(flag: string, items: seq<Json>, rules: Rules)
    ensures CleanItems(flag, items, rules) == items <==>
              forall i :: 0 <= i < |items| ==> ItemFixed(flag, items, i, rules)
    decreases |items|
  {
    if items != [] {
      var x, rest := items[0], items[1..];
      var cleaned := CleanItems(flag, items, rules);
      CleanFirst(flag, items, rules);
      hide CleanItems, CleanItem, NextFlag, FlagOf;
      assert cleaned == [cleaned[0]] + cleaned[1..] && items == [x] + rest;
      assert ItemFixed(flag, items, 0, rules) <==> cleaned[0] == x;
      if cleaned[0] == x {
        FixedSetsFlag(flag, x, rules);
        ItemsFixed(FlagOf(x, rules), rest, rules);
        hide ItemFixed;
        forall i | 0 < i < |items|
          ensures ItemFixed(flag, items, i, rules) <==> ItemFixed(FlagOf(x, rules), rest, i - 1, rules)
        {
          ItemFixedFurther(flag, items, i, rules);
        }
        forall j | 0 <= j < |rest| && forall i :: 0 <= i < |items| ==> ItemFixed(flag, items, i, rules)
          ensures ItemFixed(FlagOf(x, rules), rest, j, rules)
        {
          assert ItemFixed(flag, items, j + 1, rules);
        }
      }
    }
  }

  /** A value is clear exactly when redaction leaves it as it is. */
  lemma {:induction false} ClearIff(w: Json, rules: Rules)
    ensures Clear(w, rules) <==> Clean(w, rules) == w
    decreases w, 0
  {
    match w {
      case Dict(fields) =>
        var header := HeaderEntry(fields, rules);
        forall i | 0 <= i < |fields|
          ensures ClearField(header, fields[i], rules) <==> CleanField(header, fields[i], rules) == fields[i]
        {
          ClearFieldIff(header, fields[i], rules);
        }
        ClearDictIff(fields, rules);
      case List(items) =>
        forall i | 0 <= i < |items|
          ensures ClearItem(items, i, rules) <==> ItemFixed("", items, i, rules)
        {
          ClearIff(items[i], rules);
          ClearItemIff(items, i, rules);
        }
        ClearListIff(items, rules);
      case Str(s) => ClearTextIs(s, rules);
      case _ =>
    }
  }

  lemma ClearDictIff(fields: seq<Field>, rules: Rules)
    requires forall i :: 0 <= i < |fields| ==>
               (ClearField(HeaderEntry(fields, rules), fields[i], rules) <==>
                  CleanField(HeaderEntry(fields, rules), fields[i], rules) == fields[i])
    ensures Clear(Dict(fields), rules) <==> Clean(Dict(fields), rules) == Dict(fields)
  {
    hide ClearField, CleanField, CleanFields, HeaderEntry, SecretHeader;
    HeaderEntryIs(fields, rules);
    FieldsFixed(HeaderEntry(fields, rules), fields, rules);
  }

  lemma ClearListIff(items: seq<Json>, rules: Rules)
    requires forall i :: 0 <= i < |items| ==> (ClearItem(items, i, rules) <==> ItemFixed("", items, i, rules))
    ensures Clear(List(items), rules) <==> Clean(List(items), rules) == List(items)
  {
    hide ClearItem, ItemFixed, CleanItems, CredentialName, FieldName, TokenCount, Credential;
    CredentialPairIs(items, rules);
    hide SecretPair;
    if CredentialPair(items, rules) {
      assert items == [items[0], items[1]];
    } else {
      ItemsFixed("", items, rules);
    }
  }

  lemma {:induction false} ClearFieldIff(header: bool, f: Field, rules: Rules)
    ensures ClearField(header, f, rules) <==> CleanField(header, f, rules) == f
    decreases f, 1
  {
    SecretInIs(header, f, rules);
    ClearIff(f.value, rules);
    hide SecretIn, SecretFieldValue, Clear, Clean, FieldName;
  }

  lemma ClearItemIff(items: seq<Json>, i: nat, rules: Rules)
    requires i < |items| && (Clear(items[i], rules) <==> Clean(items[i], rules) == items[i])
    ensures ClearItem(items, i, rules) <==> ItemFixed("", items, i, rules)
  {
    hide Clear, Clean, FlagArgument, FlagOf, TokenCounter, ListLabel, ClearListLabel, MaskedLabel, FieldName;
    FlagArgumentIs(items, i, rules);
    if items[i].Str? {
      ListLabelIs(items[i].s);
    }
  }

  // ----- what redaction does to a value -----

  /** The item is the argument of a flag in force: one that is no argument itself. */
  ghost predicate MaskedArgument(items: seq<Json>, i: nat, rules: Rules)
    requires i < |items|
    decreases i
  {
    FlagArgument(items, i, rules) && !MaskedArgument(items, i - 1, rules)
  }

  ghost predicate MaskedRest(s: string, t: string) {
    exists lead, separator, rest :: Labelled(s, lead, separator, rest) && t == lead + [separator] + " " + MASK
  }

  /** w is v with its credentials masked, each label kept, and nothing else changed. */
  ghost predicate Redacts(v: Json, w: Json, rules: Rules)
    decreases v, 0
  {
    match v
    case Dict(fields) =>
      && w.Dict? && |w.fields| == |fields|
      && forall i :: 0 <= i < |fields| ==> RedactsField(HeaderEntry(fields, rules), fields[i], w.fields[i], rules)
    case List(items) =>
      && w.List? && |w.items| == |items|
      && if CredentialPair(items, rules) then w.items == [items[0], MASKED]
         else forall i :: 0 <= i < |items| ==> RedactsItem(items, i, w.items[i], rules)
    case Str(s) => w.Str? && if ClearText(s, rules) then w.s == s else MaskedRest(s, w.s)
    case _ => w == v
  }

  ghost predicate RedactsField(header: bool, f: Field, g: Field, rules: Rules)
    decreases f, 1
  {
    && g.key == f.key
    && if NameList(f) then g == f
       else if SecretIn(header, f, rules) then g.value == MASKED
       else Redacts(f.value, g.value, rules)
  }

  ghost predicate RedactsItem(items: seq<Json>, i: nat, y: Json, rules: Rules)
    requires i < |items|
    decreases items, 0
  {
    if MaskedArgument(items, i, rules) then y == MASKED
    else if items[i].Str? && ListLabel(items[i].s) then y.Str? && MaskedRest(items[i].s, y.s)
    else Redacts(items[i], y, rules)
  }

  /** The flag in force at an item. */
  function FlagAt(items: seq<Json>, i: nat, rules: Rules): string
    requires i <= |items|
  {
    if i == 0 then "" else NextFlag(FlagAt(items, i - 1, rules), items[i - 1], rules)
  }

  lemma {:induction false} CleanItemsAt(items: seq<Json>, n: nat, i: nat, rules: Rules)
    requires n <= i < |items|
    ensures CleanItems(FlagAt(items, n, rules), items[n..], rules)[i - n] ==
            CleanItem(FlagAt(items, i, rules), items[i], rules)
    decreases i - n
  {
    hide CleanItem, NextFlag;
    CleanFirst(FlagAt(items, n, rules), items[n..], rules);
    if n < i {
      CleanItemsAt(items, n + 1, i, rules);
      assert items[n..][1..] == items[n + 1..];
    }
  }

  lemma {:induction false} CleanFieldsAt(header: bool, fields: seq<Field>, i: nat, rules: Rules)
    requires i < |fields|
    ensures CleanFields(header, fields, rules)[i] == CleanField(header, fields[i], rules)
  {
    if i > 0 {
      CleanFieldsAt(header, fields[1..], i - 1, rules);
    }
  }

  lemma {:induction false} ArgumentMasked(items: seq<Json>, i: nat, rules: Rules)
    requires i < |items|
    ensures ItemFate(FlagAt(items, i, rules), items[i], rules) == Mask <==> MaskedArgument(items, i, rules)
    decreases i
  {
    hide FlagArgument, FlagOf, TokenCounter, ItemFate, NextFlag;
    FlagArgumentIs(items, i, rules);
    MaskFate(FlagAt(items, i, rules), items[i], rules);
    if i > 0 {
      ArgumentMasked(items, i - 1, rules);
      NextFlagIs(FlagAt(items, i - 1, rules), items[i - 1], rules);
    } else {
      NoFirstArgument(items, rules);
    }
  }

  lemma NoFirstArgument(items: seq<Json>, rules: Rules)
    requires items != []
    ensures !FlagArgument(items, 0, rules)
  {
  }

  lemma MaskFate(flag: string, x: Json, rules: Rules)
    ensures ItemFate(flag, x, rules) == Mask <==> flag != "" && x.Str? && !TokenCounter(flag, x)
  {
  }

  lemma NextFlagIs(flag: string, x: Json, rules: Rules)
    ensures NextFlag(flag, x, rules) == if ItemFate(flag, x, rules) == Mask then "" else FlagOf(x, rules)
  {
  }

  lemma MaskedLabelIs(s: string)
    requires HasSeparator(s)
    ensures MaskedRest(s, MaskedLabel(s))
  {
    LabelledIs(s, Label(s), s[SeparatorAt(s)], Candidate(s));
  }

  lemma RedactsText(s: string, rules: Rules)
    ensures Redacts(Str(s), Clean(Str(s), rules), rules)
  {
    ClearTextIs(s, rules);
    hide ClearText, SecretText, MaskedLabel;
    if HasSeparator(s) {
      MaskedLabelIs(s);
    }
  }

  /** Redaction masks exactly the credentials: what a name, a header entry, a flag in force, a pair
      or a label says is one, and no more. */
  lemma {:induction false} CleanRedacts(v: Json, rules: Rules)
    ensures Redacts(v, Clean(v, rules), rules)
    decreases v, 0
  {
    match v {
      case Dict(fields) =>
        HeaderEntryIs(fields, rules);
        var header := HeaderEntry(fields, rules);
        forall i | 0 <= i < |fields|
          ensures RedactsField(header, fields[i], CleanFields(header, fields, rules)[i], rules)
        {
          CleanFieldsAt(header, fields, i, rules);
          CleanRedactsField(header, fields[i], rules);
        }
      case List(items) =>
        CredentialPairIs(items, rules);
        if !CredentialPair(items, rules) {
          forall i | 0 <= i < |items|
            ensures RedactsItem(items, i, CleanItems("", items, rules)[i], rules)
          {
            CleanItemsAt(items, 0, i, rules);
            assert items[0..] == items;
            CleanRedacts(items[i], rules);
            CleanRedactsItem(items, i, rules);
          }
        }
      case Str(s) => RedactsText(s, rules);
      case _ =>
    }
  }

  lemma {:induction false} CleanRedactsField(header: bool, f: Field, rules: Rules)
    ensures RedactsField(header, f, CleanField(header, f, rules), rules)
    decreases f, 1
  {
    SecretInIs(header, f, rules);
    CleanRedacts(f.value, rules);
    hide SecretIn, SecretFieldValue, Redacts, Clean, FieldName;
  }

  lemma CleanRedactsItem(items: seq<Json>, i: nat, rules: Rules)
    requires i < |items| && Redacts(items[i], Clean(items[i], rules), rules)
    ensures RedactsItem(items, i, CleanItem(FlagAt(items, i, rules), items[i], rules), rules)
  {
    hide Redacts, Clean, MaskedArgument, FlagAt, TokenCounter, ListLabel, MaskedLabel, FieldName, MaskedRest;
    ArgumentMasked(items, i, rules);
    if items[i].Str? {
      ListLabelIs(items[i].s);
      if HasSeparator(items[i].s) {
        MaskedLabelIs(items[i].s);
      }
    }
  }

  // ----- how deep a value may be -----

  /** A list in a list in a list. */
  function Nest(n: nat): Json {
    if n == 0 then Null else List([Nest(n - 1)])
  }

  lemma {:induction false} NestLevels(n: nat, rules: Rules)
    ensures Levels(Nest(n), rules) == n && Clean(Nest(n), rules) == Nest(n)
  {
    if n > 0 {
      var inner := Nest(n - 1);
      NestLevels(n - 1, rules);
      assert [inner][1..] == [];
      assert ItemFate("", inner, rules) == Recurse && !SecretPair([inner], rules);
      assert CleanItems("", [inner], rules) == [CleanItem("", inner, rules)];
      assert ItemLevels("", [inner], rules) == ItemLevel("", inner, rules);
    }
  }

  /** Lists may be nested 768 deep, and no deeper. */
  lemma NestRefused(n: nat, rules: Rules)
    ensures Outcome(Nest(n), 0, rules) == if n <= 768 then Ok(Nest(n)) else Err(TooDeep.TooDeep)
  {
    NestLevels(n, rules);
  }

  /** A redacted value holds no credential, and keeps its shape. */
  lemma RedactedIsClean(v: Json, extra: set<string>)
    requires FromPolicy(extra) && !Clashes(RulesWith(extra))
    ensures Clear(Clean(v, RulesWith(extra)), RulesWith(extra))
    ensures SameShape(v, Clean(v, RulesWith(extra)))
  {
    PolicyIsUsual(extra);
    Idempotent(v, RulesWith(extra));
    ClearIff(Clean(v, RulesWith(extra)), RulesWith(extra));
    ShapeKept(v, RulesWith(extra));
  }

  /** The argument after --name, for any credential's name, is the mask or a count, unless the flag
      was itself the argument of another. */
  lemma ArgumentHidden(items: seq<Json>, i: nat, name: string, rules: Rules)
    requires 0 < i < |items| && !CredentialPair(items, rules)
    requires items[i - 1] == Str("--" + name) && items[i].Str? && FieldName(name) != ""
    requires name != "" && name[0] != '-' && |name| <= 62 && '=' !in name && forall c :: c in name ==> !IsSpace(c)
    requires Credential(FieldName(name), rules) || FieldName(name) in ["token", "pass", "auth"]
    ensures var w := Clean(List(items), rules);
            && w.List? && |w.items| == |items|
            && (w.items[i] == MASKED || TokenCount(FieldName(name), items[i]) || w.items[i - 1] == MASKED)
  {
    hide FieldName, Credential, TokenCount, Clean, ListLabel;
    var flag := "--" + name;
    assert flag == Hyphens(2) + name && FlagNamed(flag, FieldName(name));
    assert CredentialFlag(flag, FieldName(name), rules);
    CleanRedacts(List(items), rules);
    var w := Clean(List(items), rules);
    assert RedactsItem(items, i, w.items[i], rules) && RedactsItem(items, i - 1, w.items[i - 1], rules);
  }
}
