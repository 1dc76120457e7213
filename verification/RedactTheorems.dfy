// opentine/_canon_redact.py: redacting twice is redacting once, exactly when the
// caller's extra names cannot be mistaken for what redaction itself writes.
module RedactTheorems {
  import opened RedactText
  import opened RedactMasks
  import opened RedactNames
  import opened Redact

  // ----- the condition on a caller's extra names -----

  /** A label whose text is masked somewhere in the walk. */
  predicate MaskableLabel(prefix: string, rules: Rules) {
    !HasSeparator(prefix) && CredentialName(FieldName(prefix), rules)
  }

  /** The name a masked text reads as is itself listed. */
  predicate NamesMaskedText(rules: Rules) {
    exists e :: e in rules.extra && MaskName(e, rules)
  }

  predicate NamesNumeral(rules: Rules) {
    exists e :: e in rules.extra && NumeralName(e)
  }

  predicate Clashes(rules: Rules) {
    NamesMaskedText(rules) || NamesNumeral(rules)
  }

  /** What a caller can check of the names one by one. */
  lemma NoClash(rules: Rules)
    requires Lettered(rules)
    requires forall e :: e in rules.extra ==> !EndsInBracket(e) && !NumeralName(e)
    ensures !Clashes(rules)
  {
    forall e | e in rules.extra
      ensures !MaskName(e, rules)
    {
      assert MASK_TAIL[|MASK_TAIL| - 1] == ']';
    }
  }

  // ----- what redaction writes is left alone -----

  lemma MaskStays(rules: Rules)
    ensures Clean(MASKED, rules) == MASKED
    ensures SecretFlag(MASK, rules) == "" && !CounterItem(MASKED)
  {
    MaskIsPlainText();
    BracketNotFlag(MASK, rules);
    BracketNotCounter(MASK);
  }

  lemma BracketIsOdd(s: string, rules: Rules)
    requires Lettered(rules) && EndsInBracket(s)
    ensures CredentialName(FieldName(s), rules) <==> FieldName(s) in rules.extra
    ensures HeaderName(FieldName(s), rules) <==> FieldName(s) in rules.extra
  {
    BracketFieldName(s);
    OddName(FieldName(s), rules);
  }

  /** A masked label, under names that do not clash, is no credential name itself. */
  lemma MaskedLabelStays(s: string, rules: Rules)
    requires HasSeparator(s) && MaskableLabel(Label(s), rules) && !Clashes(rules) && Lettered(rules)
    ensures var m := MaskedLabel(s);
            && !CredentialName(FieldName(m), rules) && !HeaderName(FieldName(m), rules)
            && SecretFlag(m, rules) == "" && CleanText(m, rules) == m && !CounterText(m)
            && HasSeparator(m) && Label(m) == Label(s) && MaskedLabel(m) == m
  {
    MaskedNotListed(s, rules);
    MaskedShape(s);
    BracketNotFlag(MaskedLabel(s), rules);
    BracketNotCounter(MaskedLabel(s));
    BracketIsOdd(MaskedLabel(s), rules);
  }

  lemma MaskedNotListed(s: string, rules: Rules)
    requires HasSeparator(s) && MaskableLabel(Label(s), rules) && !NamesMaskedText(rules)
    ensures FieldName(MaskedLabel(s)) !in rules.extra
  {
    var k := SeparatorAt(s);
    LabelHasNoSeparator(s);
    assert IsSeparator(s[k]) && MaskedLabel(s) == Masked(Label(s), s[k]);
    var x := MaskedName(Label(s), s[k]);
    IsMaskName(x, s[k], rules);
  }

  lemma IsMaskName(x: string, separator: char, rules: Rules)
    requires IsSeparator(separator) && !HasSeparator(x) && CredentialName(RightTrim(x), rules)
    ensures MaskName(x + [separator] + MASK_TAIL, rules)
  {
    var e := x + [separator] + MASK_TAIL;
    assert e[..|x|] == x && e[|x|] == separator && e[|x| + 1..] == MASK_TAIL;
  }

  lemma LabelHasNoSeparator(s: string)
    ensures !HasSeparator(Label(s))
  {
  }

  /** Text either stays, or becomes its masked label. */
  lemma TextFates(s: string, rules: Rules)
    requires !Clashes(rules) && Lettered(rules)
    ensures CleanText(s, rules) == s ||
              (HasSeparator(s) && MaskableLabel(Label(s), rules) && CleanText(s, rules) == MaskedLabel(s))
  {
    if HasSeparator(s) && SecretText(s, rules) {
      LabelHasNoSeparator(s);
    }
  }

  /** Counters under a *token(s) name keep their values. */
  lemma CounterStays(v: Json, rules: Rules)
    requires CounterValue(v) && !Clashes(rules) && Lettered(rules)
    ensures Clean(v, rules) == v
  {
    if v.List? {
      if v.items != [] && v.items[0].Str? {
        assert v.items[0] in v.items && CounterItem(v.items[0]);
        CounterFacts(v.items[0].s, rules);
      }
      CounterItemsStay(v.items, rules);
    } else if v.Str? {
      CounterFacts(v.s, rules);
    }
  }

  lemma CounterItemStays(x: Json, rules: Rules)
    requires Lettered(rules) && CounterItem(x)
    ensures CleanItem("", x, rules) == x && NextFlag("", x, rules) == ""
  {
    if x.Str? {
      CounterFacts(x.s, rules);
    }
  }

  lemma {:induction false} CounterItemsStay(items: seq<Json>, rules: Rules)
    requires Lettered(rules) && forall x :: x in items ==> CounterItem(x)
    ensures CleanItems("", items, rules) == items
  {
    if items != [] {
      var x := items[0];
      assert x in items;
      CounterItemStays(x, rules);
      CounterItemsStay(items[1..], rules);
      assert items == [x] + items[1..];
    }
  }

  /** Cleaning never turns text into something else, nor something else into text. */
  lemma SameKind(v: Json, rules: Rules)
    ensures var w := Clean(v, rules);
            && (w.Str? <==> v.Str?) && (w.Num? <==> v.Num?) && (w.Bool? <==> v.Bool?) && (w.List? <==> v.List?)
  {
  }

  // ----- dicts -----

  lemma {:induction false} CleanFieldsAt(header: bool, fields: seq<Field>, rules: Rules, i: nat)
    requires i < |fields|
    ensures CleanFields(header, fields, rules)[i] == CleanField(header, fields[i], rules)
  {
    if i > 0 {
      CleanFieldsAt(header, fields[1..], rules, i - 1);
    }
  }

  /** A header entry that names a credential after the walk named one before it. */
  lemma HeaderStays(fields: seq<Field>, rules: Rules)
    requires !Clashes(rules) && Usual(rules)
    ensures var header := SecretHeader(fields, rules);
            SecretHeader(CleanFields(header, fields, rules), rules) ==> header
  {
    var header := SecretHeader(fields, rules);
    var cleaned := CleanFields(header, fields, rules);
    if SecretHeader(cleaned, rules) {
      var i :| 0 <= i < |cleaned| && FieldName(cleaned[i].key) == "name" && NamesCredential(cleaned[i].value, rules);
      CleanFieldsAt(header, fields, rules, i);
      HeaderFieldStays(header, fields[i], rules);
    }
  }

  /** A dict's "name" is never masked itself. */
  lemma NameWalked(header: bool, f: Field, rules: Rules)
    requires Usual(rules) && FieldName(f.key) == "name"
    ensures FieldFate(header, f, rules) == Recurse
  {
    NameIsNoOther(FieldName(f.key));
  }

  lemma NameIsNoOther(name: string)
    requires |name| == 4 && name[0] == 'n'
    ensures name !in LOOSE_NAMES && name != "extra_secret_keys" && name != "value" && name != "token"
  {
    assert |"extra_secret_keys"| == 17 && |"value"| == 5 && |"token"| == 5;
  }

  lemma HeaderFieldStays(header: bool, f: Field, rules: Rules)
    requires !Clashes(rules) && Usual(rules) && FieldName(f.key) == "name"
    requires NamesCredential(CleanField(header, f, rules).value, rules)
    ensures NamesCredential(f.value, rules)
  {
    NameWalked(header, f, rules);
    SameKind(f.value, rules);
    TextFates(f.value.s, rules);
    if CleanText(f.value.s, rules) != f.value.s {
      MaskedLabelStays(f.value.s, rules);
    }
  }

  /** Once a field's own walk is stable, so is the field, whatever the header test says
      the second time. */
  lemma FieldStays(header: bool, again: bool, f: Field, rules: Rules)
    requires !Clashes(rules) && Lettered(rules)
    requires again ==> header
    requires Clean(Clean(f.value, rules), rules) == Clean(f.value, rules)
    ensures var g := CleanField(header, f, rules);
            CleanField(again, g, rules) == g
  {
    MaskStays(rules);
    if FieldFate(header, f, rules) == Recurse {
      var g := CleanField(header, f, rules);
      SameKind(f.value, rules);
      if CounterValue(f.value) {
        CounterStays(f.value, rules);
      }
      if f.value.Str? && f.value.s in AUTH_MODES {
        ModesStay(f.value.s, rules);
      }
      assert SecretFieldValue(again, g, rules) ==> SecretFieldValue(header, f, rules);
    }
  }

  lemma ModesStay(s: string, rules: Rules)
    requires s in AUTH_MODES
    ensures CleanText(s, rules) == s
  {
    assert !HasSeparator(s);
  }

  // ----- lists -----

  /** An item that the walk writes and that the walk leaves alone, whichever flag is in
      force, and that sets no flag the item it was written for did not set. */
  predicate Settled(y: Json, flag: string, again: string, next: string, rules: Rules) {
    CleanItem(again, y, rules) == y && (NextFlag(again, y, rules) == next || NextFlag(again, y, rules) == "")
  }

  /** The second walk's flag is the first walk's, or none. */
  lemma ItemStays(flag: string, again: string, x: Json, rules: Rules)
    requires !Clashes(rules) && Lettered(rules) && (again == flag || again == "")
    requires Stable(x, rules)
    ensures Settled(CleanItem(flag, x, rules), flag, again, NextFlag(flag, x, rules), rules)
  {
    var fate := ItemFate(flag, x, rules);
    if fate == Mask {
      MaskStays(rules);
      MaskIsPlainText();
    } else if fate == Relabel {
      if CounterText(x.s) {
        CounterFacts(x.s, rules);
      }
      assert again == "";
      LabelHasNoSeparator(x.s);
      MaskedItemStays(x.s, flag, NextFlag(flag, x, rules), rules);
    } else if x.Str? {
      TextStays(flag, again, x, rules);
    } else {
      SameKind(x, rules);
    }
  }

  lemma MaskedItemStays(s: string, flag: string, next: string, rules: Rules)
    requires !Clashes(rules) && Lettered(rules) && HasSeparator(s) && MaskableLabel(Label(s), rules)
    ensures Settled(Str(MaskedLabel(s)), flag, "", next, rules)
  {
    MaskedLabelStays(s, rules);
  }

  lemma TextStays(flag: string, again: string, x: Json, rules: Rules)
    requires !Clashes(rules) && Lettered(rules) && (again == flag || again == "")
    requires x.Str? && ItemFate(flag, x, rules) == Recurse
    ensures Settled(CleanItem(flag, x, rules), flag, again, NextFlag(flag, x, rules), rules)
  {
    TextFates(x.s, rules);
    if CleanText(x.s, rules) != x.s {
      MaskedLabelStays(x.s, rules);
    }
    if CounterText(x.s) {
      CounterFacts(x.s, rules);
    }
  }

  /** Redacting this value twice is redacting it once. */
  predicate Stable(v: Json, rules: Rules) {
    Clean(Clean(v, rules), rules) == Clean(v, rules)
  }

  lemma CleanItemsCons(flag: string, y: Json, rest: seq<Json>, rules: Rules)
    requires CleanItem(flag, y, rules) == y && CleanItems(NextFlag(flag, y, rules), rest, rules) == rest
    ensures CleanItems(flag, [y] + rest, rules) == [y] + rest
  {
    assert ([y] + rest)[1..] == rest;
  }

  lemma {:induction false} ItemsStay(flag: string, again: string, items: seq<Json>, rules: Rules)
    requires !Clashes(rules) && Lettered(rules) && (again == flag || again == "")
    requires forall x :: x in items ==> Stable(x, rules)
    ensures CleanItems(again, CleanItems(flag, items, rules), rules) == CleanItems(flag, items, rules)
    decreases |items|
  {
    if items != [] {
      var x, rest := items[0], items[1..];
      assert x in items && forall z :: z in rest ==> z in items;
      ItemStays(flag, again, x, rules);
      var y, next := CleanItem(flag, x, rules), NextFlag(flag, x, rules);
      ItemsStay(next, NextFlag(again, y, rules), rest, rules);
      assert CleanItems(flag, items, rules) == [y] + CleanItems(next, rest, rules);
      CleanItemsCons(again, y, CleanItems(next, rest, rules), rules);
    }
  }

  /** A list that was no [name, credential] pair and became one already has its mask. */
  lemma PairStays(items: seq<Json>, rules: Rules)
    requires !Clashes(rules) && Lettered(rules) && !SecretPair(items, rules)
    ensures var cleaned := CleanItems("", items, rules);
            SecretPair(cleaned, rules) ==> cleaned[1] == MASKED
  {
    if |items| == 2 {
      var x, second := items[0], items[1];
      TwoItems(x, second, rules);
      assert items == [x, second];
      var y := CleanItem("", x, rules);
      if y.Str? && CredentialName(FieldName(y.s), rules) {
        FirstStays(x, rules);
        assert TokenCounter(FieldName(x.s), second);
        SecondStays(NextFlag("", x, rules), second, rules);
      }
    }
  }

  lemma TwoItems(x: Json, second: Json, rules: Rules)
    ensures CleanItems("", [x, second], rules) ==
              [CleanItem("", x, rules), CleanItem(NextFlag("", x, rules), second, rules)]
  {
    assert [x, second][1..] == [second] && [second][1..] == [];
  }

  lemma SecondStays(flag: string, second: Json, rules: Rules)
    requires !Clashes(rules) && Lettered(rules) && CounterValue(second)
    ensures CleanItem(flag, second, rules) == second || CleanItem(flag, second, rules) == MASKED
  {
    CounterStays(second, rules);
    if second.Str? {
      CounterFacts(second.s, rules);
    }
  }

  /** A first item that reads as a credential name after the walk did so before it. */
  lemma FirstStays(x: Json, rules: Rules)
    requires !Clashes(rules) && Lettered(rules)
    requires var y := CleanItem("", x, rules); y.Str? && CredentialName(FieldName(y.s), rules)
    ensures CleanItem("", x, rules) == x
  {
    SameKind(x, rules);
    if ItemFate("", x, rules) == Relabel {
      LabelHasNoSeparator(x.s);
      MaskedLabelStays(x.s, rules);
    } else {
      TextFates(x.s, rules);
      if CleanText(x.s, rules) != x.s {
        MaskedLabelStays(x.s, rules);
      }
    }
  }

  // ----- the theorem -----

  lemma {:induction false} FieldsStay(header: bool, again: bool, fields: seq<Field>, rules: Rules)
    requires !Clashes(rules) && Usual(rules)
    requires again ==> header
    ensures var cleaned := CleanFields(header, fields, rules);
            CleanFields(again, cleaned, rules) == cleaned
    decreases fields, 2
  {
    if fields != [] {
      FieldWalkStays(header, again, fields[0], rules);
      FieldsStay(header, again, fields[1..], rules);
      var cleaned := CleanFields(header, fields, rules);
      assert cleaned[0] == CleanField(header, fields[0], rules) &&
          cleaned[1..] == CleanFields(header, fields[1..], rules);
    }
  }

  lemma {:induction false} FieldWalkStays(header: bool, again: bool, f: Field, rules: Rules)
    requires !Clashes(rules) && Usual(rules)
    requires again ==> header
    ensures var g := CleanField(header, f, rules);
            CleanField(again, g, rules) == g
    decreases f, 1
  {
    Idempotent(f.value, rules);
    FieldStays(header, again, f, rules);
  }

  /** A list whose items redact stably does so itself, as a pair or item by item. */
  lemma ListStays(items: seq<Json>, rules: Rules)
    requires !Clashes(rules) && Usual(rules) && forall x :: x in items ==> Stable(x, rules)
    ensures Stable(List(items), rules)
  {
    hide Clashes, Lettered, SecretField, CredentialName, FieldName, CleanItem;
    if SecretPair(items, rules) {
      MaskStays(rules);
    } else {
      ItemsStay("", "", items, rules);
      PairStays(items, rules);
      var cleaned := CleanItems("", items, rules);
      assert SecretPair(cleaned, rules) ==> [cleaned[0], cleaned[1]] == cleaned;
    }
  }

  /** Redacting a redacted value changes nothing. */
  lemma {:induction false} Idempotent(v: Json, rules: Rules)
    requires !Clashes(rules) && Usual(rules)
    ensures Stable(v, rules)
    decreases v, 0
  {
    match v {
      case Dict(fields) =>
        var header := SecretHeader(fields, rules);
        var cleaned := CleanFields(header, fields, rules);
        HeaderStays(fields, rules);
        FieldsStay(header, SecretHeader(cleaned, rules), fields, rules);
      case List(items) =>
        forall x | x in items
          ensures Stable(x, rules)
        {
          Idempotent(x, rules);
        }
        ListStays(items, rules);
      case Str(s) => CleanTextIdempotent(s, rules);
      case _ =>
    }
  }
}
