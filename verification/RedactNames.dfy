// opentine/_canon_redact.py: what the name tests say of masked text and of numerals.
module RedactNames {
  import opened Basics
  import opened RedactText

  // ----- endings -----

  predicate EndsInBracket(s: string) {
    s != [] && s[|s| - 1] == ']'
  }

  /** A tail that stripping, case folding and camelCase splitting leave alone. */
  predicate Plain(t: string) {
    t != [] && forall c :: c in t ==> c == ']'
  }

  lemma {:induction false} StripLeftTail(s: string, t: string, p: char -> bool)
    requires Plain(t) && !p(']')
    ensures HasSuffix(StripLeft(s + t, p), t)
  {
    if s == [] {
      assert s + t == t && t[0] in t;
    } else {
      assert (s + t)[1..] == s[1..] + t;
      StripLeftTail(s[1..], t, p);
    }
  }

  lemma StripTail(s: string, t: string, p: char -> bool)
    requires Plain(t) && !p(']')
    ensures HasSuffix(Strip(s + t, p), t)
  {
    StripLeftTail(s, t, p);
    var left := StripLeft(s + t, p);
    assert left[|left| - 1] == t[|t| - 1] && t[|t| - 1] in t;
  }

  lemma SuffixKept(front: string, s: string, t: string)
    requires HasSuffix(s, t)
    ensures HasSuffix(front + s, t)
  {
    assert (front + s)[|front + s| - |t|..] == s[|s| - |t|..];
  }

  lemma {:induction false} CamelTail(s: string, i: nat, m: nat)
    requires i <= m <= |s| && forall j :: m <= j < |s| ==> s[j] == ']'
    ensures HasSuffix(CamelFrom(s, i), s[m..])
    decreases |s| - i
  {
    if i == m {
      CamelPlain(s, m);
      assert s[m..][|s[m..]| - |s[m..]|..] == s[m..];
    } else {
      CamelTail(s, i + 1, m);
      SuffixKept((if CamelBoundary(s, i) then ['_'] else []) + [s[i]], CamelFrom(s, i + 1), s[m..]);
    }
  }

  lemma CamelStep(s: string, i: nat)
    requires i < |s| && !CamelBoundary(s, i)
    ensures CamelFrom(s, i) == [s[i]] + CamelFrom(s, i + 1)
  {
  }

  lemma CamelEnd(s: string)
    ensures CamelFrom(s, |s|) == []
  {
  }

  lemma {:induction false} CamelUnsplit(s: string, i: nat)
    requires i <= |s| && forall j :: i <= j < |s| ==> !CamelBoundary(s, j)
    ensures CamelFrom(s, i) == s[i..]
    decreases |s| - i
  {
    hide CamelFrom;
    if i < |s| {
      CamelStep(s, i);
      CamelUnsplit(s, i + 1);
      assert s[i..] == [s[i]] + s[i + 1..];
    } else {
      CamelEnd(s);
    }
  }

  lemma CamelPlain(s: string, i: nat)
    requires i <= |s| && forall j :: i <= j < |s| ==> !IsUpper(s[j])
    ensures CamelFrom(s, i) == s[i..]
  {
    CamelUnsplit(s, i);
  }

  lemma CamelKeepsTail(s: string, t: string)
    requires Plain(t) && HasSuffix(s, t)
    ensures HasSuffix(CamelFrom(s, 0), t)
  {
    var m := |s| - |t|;
    assert forall j :: m <= j < |s| ==> s[j] == s[m..][j - m] && s[m..][j - m] in t;
    CamelTail(s, 0, m);
  }

  lemma FoldKeepsTail(s: string, t: string)
    requires Plain(t) && HasSuffix(s, t)
    ensures HasSuffix(FoldAll(s), t)
  {
    var m := |s| - |t|;
    forall j | 0 <= j < |t|
      ensures FoldAll(s)[m..][j] == t[j]
    {
      assert s[m..][j] == t[j] && t[j] in t;
    }
    assert FoldAll(s)[m..] == t;
  }

  /** A bracket tail survives in the field name. */
  lemma FieldNameTail(s: string, t: string)
    requires Plain(t)
    ensures HasSuffix(FieldName(s + t), t)
  {
    StripTail(s, t, IsSpace);
    var once := Strip(s + t, IsSpace);
    var head := once[..|once| - |t|];
    assert once == head + t;
    StripTail(head, t, IsQuote);
    CamelKeepsTail(Strip(once, IsQuote), t);
    FoldKeepsTail(CamelFrom(Strip(once, IsQuote), 0), t);
  }

  lemma BracketFieldName(s: string)
    requires EndsInBracket(s)
    ensures EndsInBracket(FieldName(s))
  {
    var n := |s| - 1;
    assert s == s[..n] + [']'];
    FieldNameTail(s[..n], [']']);
    var name := FieldName(s);
    assert name[|name| - 1..] == [']'];
  }

  // ----- built-in names end in a letter -----

  predicate EndsInLetter(s: string) {
    s != [] && 'a' <= s[|s| - 1] <= 'z'
  }

  /** Every built-in name and suffix ends in a letter. */
  predicate Lettered(rules: Rules) {
    && (forall s :: s in rules.credentials ==> EndsInLetter(s))
    && (forall s :: s in rules.suffixes ==> EndsInLetter(s))
  }

  lemma RulesAreLettered(extra: set<string>)
    ensures Lettered(RulesWith(extra))
  {
    NamesEndInLetter();
    SuffixesEndInLetter();
  }

  lemma NamesEndInLetter()
    ensures forall i :: 0 <= i < |CREDENTIAL_NAMES| ==> EndsInLetter(CREDENTIAL_NAMES[i])
  {
  }

  lemma SuffixesEndInLetter()
    ensures forall i :: 0 <= i < |SECRET_SUFFIXES| ==> EndsInLetter(SECRET_SUFFIXES[i])
  {
  }

  lemma {:induction false} WithoutKeepsLast(s: string, c: char)
    requires s != [] && s[|s| - 1] != c
    ensures Without(s, c) != [] && Without(s, c)[|Without(s, c)| - 1] == s[|s| - 1]
  {
    if |s| > 1 {
      WithoutKeepsLast(s[1..], c);
    }
  }

  /** A name that ends in neither a letter nor an underscore is a credential only if the
      caller listed it. */
  lemma OddName(name: string, rules: Rules)
    requires Lettered(rules) && name != [] && !EndsInLetter(name) && name[|name| - 1] != '_'
    ensures SecretField(name, rules) <==> name in rules.extra
    ensures CredentialName(name, rules) <==> name in rules.extra
    ensures HeaderName(name, rules) <==> name in rules.extra
    ensures name !in FLAG_NAMES && !TokenName(name)
  {
    WithoutKeepsLast(name, '_');
    forall suffix | suffix in rules.suffixes
      ensures !HasSuffix(name, suffix) && !HasSuffix(Without(name, '_'), Without(suffix, '_'))
    {
      assert EndsInLetter(suffix);
      WithoutKeepsLast(suffix, '_');
      SameLast(name, suffix);
      SameLast(Without(name, '_'), Without(suffix, '_'));
    }
    SameLast(name, "s");
    SameLast(Without(name, '_'), "token");
    SameLast(Without(name, '_'), "tokens");
    FixedNamesEndInLetter();
  }

  lemma FixedNamesEndInLetter()
    ensures forall s :: s in HEADERS ==> EndsInLetter(s)
    ensures forall s :: s in FLAG_NAMES ==> EndsInLetter(s)
  {
  }

  lemma SameLast(s: string, t: string)
    requires t != []
    ensures HasSuffix(s, t) ==> s != [] && s[|s| - 1] == t[|t| - 1]
  {
    if HasSuffix(s, t) {
      assert s[|s| - |t|..][|t| - 1] == s[|s| - 1];
    }
  }

  // ----- a policy never names "name" -----

  /** What every walk's names satisfy: the built-in ones end in letters, and a dict's "name"
      is no credential. */
  predicate Usual(rules: Rules) {
    Lettered(rules) && !SecretField("name", rules)
  }

  lemma PolicyIsUsual(extra: set<string>)
    requires FromPolicy(extra)
    ensures Usual(RulesWith(extra))
  {
    RulesAreLettered(extra);
    NameUnlisted(extra);
    NameNotBuiltIn();
    NameHasNoSuffix(extra);
  }

  lemma NameUnlisted(extra: set<string>)
    requires FromPolicy(extra)
    ensures "name" !in extra
  {
    hide PolicyName;
    NameReserved();
  }

  lemma NameReserved()
    ensures "name" in RESERVED_FIELD_NAMES
  {
    assert RESERVED_FROM_N[0] == "name";
  }

  lemma NameNotBuiltIn()
    ensures "name" !in CREDENTIAL_NAMES
  {
  }

  /** A suffix whose last two letters are not those of "name". */
  predicate UnlikeName(s: string) {
    |s| > 2 && s[|s| - 1] != '_' && s[|s| - 2] != '_' && (s[|s| - 2] != 'm' || s[|s| - 1] != 'e')
  }

  lemma SuffixesUnlikeName()
    ensures forall i :: 0 <= i < |SECRET_SUFFIXES| ==> UnlikeName(SECRET_SUFFIXES[i])
  {
  }

  lemma NameHasNoSuffix(extra: set<string>)
    ensures forall suffix :: suffix in RulesWith(extra).suffixes ==>
      !HasSuffix("name", suffix) && !HasSuffix(Without("name", '_'), Without(suffix, '_'))
    ensures !HasSuffix("name", "s")
  {
    SuffixesUnlikeName();
    WithoutEnd("name", '_');
    SameLast("name", "s");
    forall suffix | suffix in RulesWith(extra).suffixes
      ensures !HasSuffix("name", suffix) && !HasSuffix(Without("name", '_'), Without(suffix, '_'))
    {
      assert UnlikeName(suffix);
      NotItsSuffix("name", suffix);
      WithoutEnd(suffix, '_');
      NotItsSuffix(Without("name", '_'), Without(suffix, '_'));
    }
  }

  lemma NotItsSuffix(s: string, suffix: string)
    requires |s| > 1 && |suffix| > 1
    requires s[|s| - 2] != suffix[|suffix| - 2] || s[|s| - 1] != suffix[|suffix| - 1]
    ensures !HasSuffix(s, suffix)
  {
    if |suffix| <= |s| {
      var end := s[|s| - |suffix|..];
      assert end[|end| - 1] == s[|s| - 1] && end[|end| - 2] == s[|s| - 2];
    }
  }

  lemma {:induction false} WithoutEnd(s: string, c: char)
    requires |s| > 1 && s[|s| - 1] != c && s[|s| - 2] != c
    ensures var t := Without(s, c); |t| > 1 && t[|t| - 1] == s[|s| - 1] && t[|t| - 2] == s[|s| - 2]
  {
    if |s| > 2 {
      WithoutEnd(s[1..], c);
    } else {
      assert s[1..] == [s[1]] && [s[1]][1..] == [];
      assert Without([s[1]], c) == [s[1]] + Without([], c);
    }
  }

  // ----- masked text -----

  lemma MaskedShape(s: string)
    requires HasSeparator(s)
    ensures var m := MaskedLabel(s);
            HasSeparator(m) && SeparatorAt(m) == SeparatorAt(s) && Label(m) == Label(s) && MaskedLabel(m) == m
    ensures EndsInBracket(MaskedLabel(s)) && ' ' in MaskedLabel(s)
  {
    var k, m := SeparatorAt(s), MaskedLabel(s);
    assert forall i :: 0 <= i <= k ==> m[i] == s[i];
    assert m[k] in m;
    SeparatorIs(m, k);
    assert m[k + 1] == ' ' && m[|m| - 1] == MASK[|MASK| - 1];
    assert m[..k] == s[..k] && m[..k + 1] == s[..k + 1];
  }

  lemma SeparatorIs(s: string, k: nat)
    requires k < |s| && IsSeparator(s[k]) && forall i :: 0 <= i < k ==> !IsSeparator(s[i])
    ensures HasSeparator(s) && SeparatorAt(s) == k
  {
    assert s[k] in s;
  }

  /** Masking text twice masks it once, whatever the names. */
  lemma CleanTextIdempotent(s: string, rules: Rules)
    ensures CleanText(CleanText(s, rules), rules) == CleanText(s, rules)
  {
    if HasSeparator(s) {
      MaskedShape(s);
    }
  }

  lemma MaskIsPlainText()
    ensures !HasSeparator(MASK) && EndsInBracket(MASK)
  {
    assert forall i :: 0 <= i < |MASK| ==> !IsSeparator(MASK[i]);
  }

  lemma BracketNotFlag(s: string, rules: Rules)
    requires s == MASK || (s != [] && ' ' in s)
    ensures SecretFlag(s, rules) == ""
  {
    if s != MASK {
      assert IsSpace(' ');
    }
  }

  lemma BracketNotCounter(s: string)
    requires EndsInBracket(s)
    ensures !CounterText(s)
  {
    var n := |s| - 1;
    assert s == s[..n] + [']'];
    StripTail(s[..n], [']'], IsSpace);
    var inner := Strip(s, IsSpace);
    assert inner[|inner| - 1..] == [']'];
    WithoutKeepsLast(inner, ',');
    var digits := Without(inner, ',');
    assert digits[|digits| - 1] in digits;
  }

  // ----- numerals -----

  predicate NumeralChar(c: char) {
    IsDigit(c) || c == ','
  }

  /** Digits and commas, with a digit: what a numeral's field name can be. */
  predicate NumeralName(e: string) {
    (forall c :: c in e ==> NumeralChar(c)) && exists c :: c in e && c != ','
  }

  lemma {:induction false} WithoutMembers(s: string, d: char)
    ensures forall c :: c in Without(s, d) <==> c in s && c != d
  {
    if s != [] {
      WithoutMembers(s[1..], d);
      assert forall c :: c in s <==> c == s[0] || c in s[1..];
    }
  }

  lemma CounterIsNumeral(s: string)
    ensures CounterText(s) <==> NumeralName(Strip(s, IsSpace))
  {
    var u := Strip(s, IsSpace);
    WithoutMembers(u, ',');
    var digits := Without(u, ',');
    if CounterText(s) {
      assert digits[0] in digits;
    }
    if NumeralName(u) {
      var c :| c in u && c != ',';
      assert c in digits;
    }
  }

  lemma {:induction false} StripLeftMembers(s: string, p: char -> bool)
    ensures forall c :: c in s ==> p(c) || c in StripLeft(s, p)
  {
    if s != [] && p(s[0]) {
      StripLeftMembers(s[1..], p);
      assert forall c :: c in s <==> c == s[0] || c in s[1..];
    }
  }

  lemma {:induction false} StripRightMembers(s: string, p: char -> bool)
    ensures forall c :: c in s ==> p(c) || c in StripRight(s, p)
    decreases |s|
  {
    var n := |s| - 1;
    if s != [] && p(s[n]) {
      StripRightMembers(s[..n], p);
      assert s == s[..n] + [s[n]];
      assert forall c :: c in s <==> c == s[n] || c in s[..n];
    }
  }

  lemma {:induction false} StripNothing(s: string, p: char -> bool)
    requires forall c :: c in s ==> !p(c)
    ensures Strip(s, p) == s
  {
  }

  lemma NumeralFieldName(s: string)
    requires CounterText(s)
    ensures FieldName(s) == Strip(s, IsSpace) && NumeralName(FieldName(s))
  {
    var u := Strip(s, IsSpace);
    CounterIsNumeral(s);
    StripNothing(u, IsQuote);
    assert forall j :: 0 <= j < |u| ==> u[j] in u;
    CamelPlain(u, 0);
    assert u[0..] == u;
    assert FoldAll(u) == u;
  }

  lemma NumeralIsOdd(name: string)
    requires NumeralName(name)
    ensures name != [] && !EndsInLetter(name) && name[|name| - 1] != '_'
  {
    var c :| c in name && c != ',';
    assert name[|name| - 1] in name;
  }

  /** A numeral is no label, no flag, and no credential unless its name is listed. */
  lemma CounterFacts(s: string, rules: Rules)
    requires Lettered(rules) && CounterText(s)
    ensures !HasSeparator(s) && SecretFlag(s, rules) == "" && NumeralName(FieldName(s))
    ensures CredentialName(FieldName(s), rules) <==> FieldName(s) in rules.extra
    ensures !TokenName(FieldName(s))
  {
    NumeralFieldName(s);
    NumeralIsOdd(FieldName(s));
    OddName(FieldName(s), rules);
    StripLeftMembers(s, IsSpace);
    StripRightMembers(StripLeft(s, IsSpace), IsSpace);
    assert forall c :: c in s ==> IsSpace(c) || NumeralChar(c);
    assert forall j :: 0 <= j < |s| ==> s[j] in s;
  }
}
