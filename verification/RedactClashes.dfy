// opentine/_canon_redact.py: every clash between a policy's extra names and what
// redaction writes has a value that redacts differently the second time.
module RedactClashes {
  import opened Outcomes
  import opened RedactText
  import opened RedactMasks
  import opened RedactNames
  import opened Redact
  import opened RedactTheorems

  // ----- text whose name is not listed -----

  lemma LongerThanAll(names: set<string>) returns (k: nat)
    ensures k > 0 && forall e :: e in names ==> |e| < k
  {
    k := 1;
    var rest := names;
    while rest != {}
      invariant k > 0 && rest <= names && forall e :: e in names && e !in rest ==> |e| < k
    {
      var e :| e in rest;
      rest := rest - {e};
      if |e| >= k {
        k := |e| + 1;
      }
    }
  }

  /** Brackets too long for any listed name to be theirs. */
  lemma UnlistedBrackets(names: set<string>) returns (b: string)
    ensures Plain(b) && forall s :: FieldName(s + b) !in names
  {
    var k := LongerThanAll(names);
    b := seq(k, _ => ']');
    forall s
      ensures FieldName(s + b) !in names
    {
      FieldNameTail(s, b);
    }
  }

  lemma {:induction false} OneWord(b: string)
    requires forall c :: c in b ==> c == ']'
    ensures FirstWord(b) == b
  {
    if b != [] {
      assert b[0] in b && forall c :: c in b[1..] ==> c in b;
      OneWord(b[1..]);
      assert b == [b[0]] + b[1..];
    }
  }

  lemma BracketsAreOneWord(b: string)
    requires Plain(b)
    ensures Words(LowerAll(Strip(b, IsSpace))) == [b]
  {
    StripNothing(b, IsSpace);
    assert forall i :: 0 <= i < |b| ==> b[i] in b;
    assert LowerAll(b) == b;
    assert b[0] in b;
    OneWord(b);
    assert b[|b|..] == [];
  }

  /** One word that starts with a bracket asks nothing. */
  lemma BracketWordIsNoProse(candidate: string, word: string)
    requires Words(LowerAll(Strip(candidate, IsSpace))) == [word] && word != [] && word[0] == ']'
    ensures !Prose(candidate)
  {
    forall q | q in QUESTIONS
      ensures q != word
    {
      QuestionsStartLow(q);
    }
  }

  lemma QuestionsStartLow(q: string)
    requires q in QUESTIONS
    ensures q != [] && q[0] != ']'
  {
  }

  lemma BracketsAreNoProse(b: string)
    requires Plain(b)
    ensures !Prose(b) && !CounterText(b) && EndsInBracket(b) && !HasSeparator(b)
  {
    assert b[|b| - 1] in b && b[0] in b;
    BracketsAreOneWord(b);
    BracketWordIsNoProse(b, b);
    BracketNotCounter(b);
  }

  // ----- the two clashes -----

  /** A listed numeral: a list of counters under a token name loses one, then all. */
  lemma NumeralBreaks(e: string, rules: Rules) returns (v: Json)
    requires Lettered(rules) && e in rules.extra && NumeralName(e)
    ensures !Stable(v, rules)
  {
    v := Dict([Field("token", List([Str(e), Str(e)]))]);
    var w := Dict([Field("token", List([Str(e), MASKED]))]);
    NumeralPair(e, rules);
    TokenFieldTwice(e, SecretHeader(v.fields, rules), rules);
    TokenFieldTwice(e, SecretHeader(w.fields, rules), rules);
    OneField(v.fields[0], rules);
    OneField(w.fields[0], rules);
    assert Clean(v, rules) == w && Clean(w, rules) == Dict([Field("token", MASKED)]) != w;
  }

  lemma NumeralPair(e: string, rules: Rules)
    requires Lettered(rules) && e in rules.extra && NumeralName(e)
    ensures Clean(List([Str(e), Str(e)]), rules) == List([Str(e), MASKED])
    ensures CounterItem(Str(e))
  {
    NumeralIsItsName(e);
    CounterFacts(e, rules);
    PairMasked(Str(e), Str(e), FieldName(e), rules);
  }

  lemma PairMasked(x: Json, y: Json, name: string, rules: Rules)
    requires x.Str? && name == FieldName(x.s) && CredentialName(name, rules) && !TokenName(name)
    ensures Clean(List([x, y]), rules) == List([x, MASKED])
  {
    hide CredentialName, FieldName;
    assert SecretPair([x, y], rules);
  }

  lemma TokenFieldTwice(e: string, header: bool, rules: Rules)
    requires CounterItem(Str(e)) && Clean(List([Str(e), Str(e)]), rules) == List([Str(e), MASKED])
    ensures CleanField(header, Field("token", List([Str(e), Str(e)])), rules) == Field("token", List([Str(e), MASKED]))
    ensures CleanField(header, Field("token", List([Str(e), MASKED])), rules) == Field("token", MASKED)
  {
    MaskStays(rules);
    var half := List([Str(e), MASKED]);
    assert half.items[1] == MASKED && !CounterValue(half);
    TokenFieldFate(header, List([Str(e), Str(e)]), rules);
    TokenFieldFate(header, half, rules);
  }

  lemma TokenFieldFate(header: bool, v: Json, rules: Rules)
    requires v.List?
    ensures FieldFate(header, Field("token", v), rules) == if CounterValue(v) then Recurse else Mask
  {
    TokenKey();
    NamedFate(header, Field("token", v), FieldName("token"), rules);
  }

  lemma NamedFate(header: bool, f: Field, name: string, rules: Rules)
    requires name == FieldName(f.key) && name == "token" && TokenName(name) && f.value.List?
    ensures FieldFate(header, f, rules) == if CounterValue(f.value) then Recurse else Mask
  {
    TokenSecret(header, f, name, rules);
    NotNameList(name);
  }

  lemma NotNameList(name: string)
    requires |name| == 5
    ensures name != "extra_secret_keys"
  {
    assert |"extra_secret_keys"| == 17;
  }

  lemma TokenSecret(header: bool, f: Field, name: string, rules: Rules)
    requires name == FieldName(f.key) && name == "token" && TokenName(name) && f.value.List?
    ensures SecretFieldValue(header, f, rules) <==> !CounterValue(f.value)
  {
    hide SecretField, FieldName, TokenName;
    NotLoose(name);
  }

  lemma NotLoose(name: string)
    requires |name| == 5
    ensures name !in LOOSE_NAMES
  {
  }

  lemma NumeralIsItsName(e: string)
    requires NumeralName(e)
    ensures CounterText(e) && FieldName(e) == e
  {
    StripNothing(e, IsSpace);
    CounterIsNumeral(e);
    NumeralFieldName(e);
  }

  lemma OneField(f: Field, rules: Rules)
    ensures Clean(Dict([f]), rules) == Dict([CleanField(SecretHeader([f], rules), f, rules)])
  {
    assert [f][1..] == [];
  }

  lemma WordStripsToItself(s: string)
    requires forall i :: 0 <= i < |s| ==> 'a' <= s[i] <= 'z'
    ensures Strip(s, IsSpace) == s && Strip(s, IsQuote) == s && '_' !in s
  {
    forall c | c in s
      ensures !IsSpace(c) && !IsQuote(c) && c != '_'
    {
      var i :| 0 <= i < |s| && s[i] == c;
    }
    StripNothing(s, IsSpace);
    StripNothing(s, IsQuote);
  }

  lemma WordFoldsToItself(s: string)
    requires forall i :: 0 <= i < |s| ==> 'a' <= s[i] <= 'z'
    ensures FoldAll(CamelFrom(s, 0)) == s
  {
    CamelPlain(s, 0);
    assert s[0..] == s;
    assert FoldAll(s) == s;
  }

  /** Lower-case words are their own field names. */
  lemma WordIsItsName(s: string)
    requires forall i :: 0 <= i < |s| ==> 'a' <= s[i] <= 'z'
    ensures FieldName(s) == s && Without(s, '_') == s
  {
    WordStripsToItself(s);
    WordFoldsToItself(s);
    WithoutAbsent(s, '_');
  }

  lemma {:induction false} WithoutAbsent(s: string, c: char)
    requires c !in s
    ensures Without(s, c) == s
  {
    if s != [] {
      WithoutAbsent(s[1..], c);
      assert s == [s[0]] + s[1..];
    }
  }

  lemma TokenKey()
    ensures FieldName("token") == "token" && TokenName("token")
  {
    WordIsItsName("token");
    assert "token"[0..] == "token";
  }

  /** A pair whose first item is masked to a text that then names a credential. */
  lemma PairBreaks(s: string, masked: string, rules: Rules)
    requires CleanItem("", Str(s), rules) == Str(masked) && !CredentialName(FieldName(s), rules)
    requires CredentialName(FieldName(masked), rules)
    ensures !Stable(List([Str(s), Null]), rules)
  {
    var v, w := List([Str(s), Null]), List([Str(masked), Null]);
    TwoItems(Str(s), Null, rules);
    assert Clean(v, rules) == w;
    assert Clean(w, rules) == List([w.items[0], MASKED]);
    assert w.items[1] != [w.items[0], MASKED][1];
  }

  /** A listed masked text: the label a list's first item is masked to names a credential. */
  lemma MaskedTextBreaks(prefix: string, separator: char, rules: Rules) returns (v: Json)
    requires Lettered(rules) && IsSeparator(separator) && MaskableLabel(prefix, rules)
    requires FieldName(Masked(prefix, separator)) in rules.extra
    ensures !Stable(v, rules)
  {
    var b := UnlistedBrackets(rules.extra);
    BracketsAreNoProse(b);
    var s := prefix + [separator] + b;
    LabelOf(prefix, separator, b);
    assert s[|s| - 1] == b[|b| - 1];
    assert FieldName(prefix + [separator] + b) !in rules.extra;
    BracketIsOdd(s, rules);
    TextMasked(s, rules);
    MaskedIsOdd(prefix, separator, rules);
    PairBreaks(s, Masked(prefix, separator), rules);
    v := List([Str(s), Null]);
  }

  lemma MaskedIsOdd(prefix: string, separator: char, rules: Rules)
    requires Lettered(rules) && FieldName(Masked(prefix, separator)) in rules.extra
    ensures CredentialName(FieldName(Masked(prefix, separator)), rules)
  {
    var m := Masked(prefix, separator);
    assert m[|m| - 1] == MASK[|MASK| - 1];
    BracketIsOdd(m, rules);
  }

  lemma TextMasked(s: string, rules: Rules)
    requires HasSeparator(s) && CredentialName(FieldName(Label(s)), rules)
    requires !Prose(Candidate(s)) && !CounterText(Candidate(s))
    ensures CleanItem("", Str(s), rules) == Str(MaskedLabel(s))
  {
  }

  lemma LabelOf(prefix: string, separator: char, b: string)
    requires !HasSeparator(prefix) && IsSeparator(separator)
    ensures var s := prefix + [separator] + b;
            HasSeparator(s) && Label(s) == prefix && Candidate(s) == b && MaskedLabel(s) == Masked(prefix, separator)
  {
    var s := prefix + [separator] + b;
    assert s[|prefix|] == separator && separator in s;
    assert forall i :: 0 <= i < |prefix| ==> s[i] in prefix;
    assert SeparatorAt(s) == |prefix|;
    assert s[..|prefix|] == prefix && s[..|prefix| + 1] == prefix + [separator] && s[|prefix| + 1..] == b;
  }

  lemma ClashBreaks(rules: Rules) returns (v: Json)
    requires Lettered(rules) && Named(rules) && Clashes(rules)
    ensures !Stable(v, rules)
  {
    if NamesNumeral(rules) {
      var e :| e in rules.extra && NumeralName(e);
      v := NumeralBreaks(e, rules);
    } else {
      var e :| e in rules.extra && MaskName(e, rules);
      var entry :| FieldName(entry) == e;
      var prefix, separator := MaskNameOfLabel(entry, rules);
      v := MaskedTextBreaks(prefix, separator, rules);
    }
  }

  /** Every listed name is a field name. */
  ghost predicate Named(rules: Rules) {
    forall e :: e in rules.extra ==> exists entry :: FieldName(entry) == e
  }

  lemma PolicyIsNamed(extra: set<string>)
    requires FromPolicy(extra)
    ensures Named(RulesWith(extra))
  {
    forall e | e in extra
      ensures exists entry :: FieldName(entry) == e
    {
      var entry :| PolicyName(entry) == Some(e);
      assert FieldName(entry) == e;
    }
  }

  lemma StableIff(rules: Rules)
    requires Usual(rules) && Named(rules)
    ensures (forall v :: Stable(v, rules)) <==> !Clashes(rules)
  {
    if Clashes(rules) {
      var v := ClashBreaks(rules);
    } else {
      forall v
        ensures Stable(v, rules)
      {
        Idempotent(v, rules);
      }
    }
  }

  /** Under the names a policy can add, redaction is idempotent on all values exactly when
      those names do not clash. */
  lemma IdempotentIff(extra: set<string>)
    requires FromPolicy(extra)
    ensures (forall v :: Stable(v, RulesWith(extra))) <==> !Clashes(RulesWith(extra))
  {
    PolicyIsUsual(extra);
    PolicyIsNamed(extra);
    StableIff(RulesWith(extra));
  }

  // ----- a policy can bring either clash about -----

  /** A policy may list a numeral, and may list what a masked password reads as. */
  lemma PoliciesCanClash()
    ensures FromPolicy({"5"}) && NamesNumeral(RulesWith({"5"}))
    ensures FromPolicy({MASKED_PASSWORD}) && NamesMaskedText(RulesWith({MASKED_PASSWORD}))
  {
    NumeralAdmitted();
    MaskedTextAdmitted();
  }

  lemma NumeralAdmitted()
    ensures FromPolicy({"5"}) && NumeralName("5")
  {
    assert '5' in "5";
    NumeralIsItsName("5");
    StripNothing("5", IsSpace);
    NotReserved("5");
    assert PolicyName("5") == Some("5");
  }

  /** A name of at most 17 letters, the first one a letter. */
  predicate Ordinary(r: string) {
    1 < |r| < 18 && r[0] >= 'a'
  }

  lemma ReservedAreOrdinary()
    ensures forall i :: 0 <= i < |RESERVED_TO_M| ==> Ordinary(RESERVED_TO_M[i])
    ensures forall i :: 0 <= i < |RESERVED_FROM_N| ==> Ordinary(RESERVED_FROM_N[i])
  {
  }

  lemma NotReserved(name: string)
    requires name != [] && (|name| > 17 || name[0] < 'a')
    ensures name !in RESERVED_FIELD_NAMES && name + "s" !in RESERVED_FIELD_NAMES
  {
    ReservedAreOrdinary();
    assert !Ordinary(name) && !Ordinary(name + "s");
  }

  /** A text with no space or quote at its ends and no word boundary is its own name, folded. */
  lemma UnsplitName(s: string)
    requires s != [] && !IsSpace(s[0]) && !IsQuote(s[0]) && !IsSpace(s[|s| - 1]) && !IsQuote(s[|s| - 1])
    requires forall j :: 0 <= j < |s| ==> !CamelBoundary(s, j)
    ensures Strip(s, IsSpace) == s && FieldName(s) == FoldAll(s)
  {
    CamelUnsplit(s, 0);
    assert s[0..] == s;
  }

  const MASKED_PASSWORD := "password: [redacted]"

  lemma PasswordUnsplit()
    ensures forall j :: 0 <= j < |"password: [REDACTED]"| ==> !CamelBoundary("password: [REDACTED]", j)
  {
  }

  lemma MaskedPassword()
    ensures PolicyName(Masked("password", ':')) == Some(MASKED_PASSWORD)
    ensures FieldName(Masked("password", ':')) == MASKED_PASSWORD
  {
    var m := "password: [REDACTED]";
    assert Masked("password", ':') == m;
    PasswordUnsplit();
    PasswordFolds();
    PasswordNamed(m);
  }

  lemma PasswordFolds()
    ensures FoldAll("password: [REDACTED]") == MASKED_PASSWORD
  {
  }

  lemma PasswordNamed(m: string)
    requires |m| == 20 && m[0] == 'p' && m[19] == ']' && FoldAll(m) == MASKED_PASSWORD
    requires forall j :: 0 <= j < |m| ==> !CamelBoundary(m, j)
    ensures FieldName(m) == MASKED_PASSWORD && PolicyName(m) == Some(MASKED_PASSWORD)
  {
    hide FieldName, FoldAll, CamelBoundary;
    UnsplitName(m);
    NotReserved(MASKED_PASSWORD);
  }

  lemma PasswordIsMaskable(rules: Rules)
    requires rules.credentials == CREDENTIAL_NAMES
    ensures MaskableLabel("password", rules)
  {
    hide FieldName, SecretField;
    PasswordListed();
    PasswordPlain();
    ListedIsSecret("password", rules);
  }

  lemma PasswordListed()
    ensures FieldName("password") == "password" && "password" in CREDENTIAL_NAMES
  {
    WordIsItsName("password");
    PasswordIn();
  }

  lemma PasswordIn()
    ensures "password" in CREDENTIAL_NAMES
  {
    assert CREDENTIAL_NAMES[22] == "password";
  }

  lemma ListedIsSecret(name: string, rules: Rules)
    requires name in rules.credentials
    ensures SecretField(name, rules)
  {
  }

  lemma PasswordPlain()
    ensures !HasSeparator("password")
  {
    assert forall i :: 0 <= i < |"password"| ==> !IsSeparator("password"[i]);
  }

  lemma MaskedTextAdmitted()
    ensures FromPolicy({MASKED_PASSWORD}) && NamesMaskedText(RulesWith({MASKED_PASSWORD}))
  {
    hide CredentialName, FieldName, HasSeparator, RightTrim, MaskName;
    MaskedPassword();
    PasswordSpelled();
    PasswordNamesMask(RulesWith({MASKED_PASSWORD}));
  }

  lemma PasswordNamesMask(rules: Rules)
    requires rules.credentials == CREDENTIAL_NAMES
    ensures MaskName("password" + [':'] + MASK_TAIL, rules)
  {
    hide CredentialName, FieldName, HasSeparator, RightTrim, MaskName;
    PasswordIsMaskable(rules);
    PasswordListed();
    PasswordPlain();
    PasswordTrimmed();
    IsMaskName("password", ':', rules);
  }

  lemma PasswordSpelled()
    ensures "password" + [':'] + MASK_TAIL == MASKED_PASSWORD
  {
  }

  lemma PasswordTrimmed()
    ensures RightTrim("password") == "password"
  {
  }
}
