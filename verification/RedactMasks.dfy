// opentine/_canon_redact.py: the field name that a masked text reads as.
module RedactMasks {
  import opened Basics
  import opened RedactText
  import opened RedactNames

  /** The masked text of some label. */
  function Masked(prefix: string, separator: char): string {
    prefix + [separator] + " " + MASK
  }

  const MASK_TAIL := " [redacted]"

  function RightTrim(s: string): string {
    StripRight(StripRight(s, IsSpace), IsQuote)
  }

  /** The name of a masked text: a credential's name, a separator, a space and the mask, in
      lower case. */
  predicate MaskName(e: string, rules: Rules) {
    var n := |e| - |MASK_TAIL| - 1;
    n >= 0 && e[n + 1..] == MASK_TAIL && IsSeparator(e[n]) &&
    !HasSeparator(e[..n]) && CredentialName(RightTrim(e[..n]), rules)
  }

  function FoldCamel(s: string): string {
    FoldAll(CamelFrom(s, 0))
  }

  // ----- stripping -----

  lemma {:induction false} StripFront(s: string, t: string, p: char -> bool)
    requires t != [] && !p(t[0]) && !p(t[|t| - 1])
    ensures Strip(s + t, p) == StripLeft(s, p) + t
  {
    StripLeftFront(s, t, p);
    var left := StripLeft(s, p) + t;
    assert left[|left| - 1] == t[|t| - 1];
  }

  lemma {:induction false} StripLeftFront(s: string, t: string, p: char -> bool)
    requires t != [] && !p(t[0])
    ensures StripLeft(s + t, p) == StripLeft(s, p) + t
  {
    if s == [] {
      assert s + t == t;
    } else {
      assert (s + t)[1..] == s[1..] + t;
      StripLeftFront(s[1..], t, p);
    }
  }

  lemma {:induction false} StripRightCons(c: char, s: string, p: char -> bool)
    ensures StripRight([c] + s, p) == if StripRight(s, p) == [] && p(c) then [] else [c] + StripRight(s, p)
    decreases |s|
  {
    var t := [c] + s;
    if s == [] {
      assert t == [c] && t[..0] == [];
    } else if p(s[|s| - 1]) {
      assert t[..|t| - 1] == [c] + s[..|s| - 1];
      StripRightCons(c, s[..|s| - 1], p);
    }
  }

  /** Stripping the two ends can be done in either order. */
  lemma {:induction false} StripsCommute(s: string, p: char -> bool, q: char -> bool)
    ensures StripLeft(StripRight(s, q), p) == StripRight(StripLeft(s, p), q)
  {
    if s != [] {
      StripRightCons(s[0], s[1..], q);
      assert s == [s[0]] + s[1..];
      StripsCommute(s[1..], p, q);
      var kept := StripRight(s[1..], q);
      assert ([s[0]] + kept)[1..] == kept;
    }
  }

  // ----- camelCase -----

  /** A tail that starts with no letter and has no word boundary splits off. */
  lemma {:induction false} CamelApart(s: string, t: string, i: nat)
    requires i <= |s| && t != [] && !IsUpper(t[0]) && !('a' <= t[0] <= 'z')
    requires forall j :: 0 < j < |t| ==> !CamelBoundary(t, j)
    ensures CamelFrom(s + t, i) == CamelFrom(s, i) + t
    decreases |s| - i
  {
    hide CamelFrom;
    var u := s + t;
    if i == |s| {
      forall j | i <= j < |u|
        ensures !CamelBoundary(u, j)
      {
        assert u[j] == t[j - i];
        if j > i {
          assert u[j - 1] == t[j - i - 1] && !CamelBoundary(t, j - i);
          assert j + 1 < |u| ==> u[j + 1] == t[j - i + 1];
        }
      }
      CamelUnsplit(u, i);
      CamelEnd(s);
      assert u[i..] == t;
    } else {
      assert CamelBoundary(u, i) == CamelBoundary(s, i);
      CamelApart(s, t, i + 1);
      CamelNext(u, i);
      CamelNext(s, i);
    }
  }

  lemma CamelNext(s: string, i: nat)
    requires i < |s|
    ensures CamelFrom(s, i) == (if CamelBoundary(s, i) then ['_'] else []) + [s[i]] + CamelFrom(s, i + 1)
  {
  }

  lemma {:induction false} CamelMembers(s: string, i: nat)
    requires i <= |s|
    ensures forall c :: c in CamelFrom(s, i) ==> c in s || c == '_'
    decreases |s| - i
  {
    if i < |s| {
      CamelMembers(s, i + 1);
    }
  }

  lemma {:induction false} CamelLast(s: string, i: nat)
    requires i < |s|
    ensures CamelFrom(s, i) != [] && CamelFrom(s, i)[|CamelFrom(s, i)| - 1] == s[|s| - 1]
    decreases |s| - i
  {
    if i + 1 < |s| {
      CamelLast(s, i + 1);
    }
  }

  lemma FoldAppend(s: string, t: string)
    ensures FoldAll(s + t) == FoldAll(s) + FoldAll(t)
  {
  }

  /** Folding neither makes nor removes separators, spaces or quotes. */
  lemma FoldKeeps(c: char)
    ensures IsSeparator(Fold(c)) <==> IsSeparator(c)
    ensures IsSpace(Fold(c)) <==> IsSpace(c)
    ensures IsQuote(Fold(c)) <==> IsQuote(c)
  {
  }

  lemma FoldCamelNoSeparator(s: string)
    requires !HasSeparator(s)
    ensures !HasSeparator(FoldCamel(s))
  {
    CamelMembers(s, 0);
    var t := CamelFrom(s, 0);
    forall c | c in FoldAll(t)
      ensures !IsSeparator(c)
    {
      var i :| 0 <= i < |t| && FoldAll(t)[i] == c;
      assert t[i] in t;
      FoldKeeps(t[i]);
    }
  }

  /** Trimming the right end of a name, or of the text it is read from. */
  lemma {:induction false} TrimFolded(s: string, p: char -> bool)
    requires forall c :: p(Fold(c)) <==> p(c)
    requires forall c :: p(c) ==> !IsUpper(c) && !('a' <= c <= 'z')
    ensures StripRight(FoldCamel(s), p) == FoldCamel(StripRight(s, p))
    decreases |s|
  {
    hide CamelFrom, CamelBoundary;
    if s == [] {
      CamelEnd(s);
    } else {
      var front, c := s[..|s| - 1], s[|s| - 1];
      CamelLast(s, 0);
      assert FoldCamel(s)[|FoldCamel(s)| - 1] == Fold(c);
      if p(c) {
        CamelApart(front, [c], 0);
        LastApart(s);
        FoldAppend(CamelFrom(front, 0), [c]);
        assert FoldCamel(s)[..|FoldCamel(s)| - 1] == FoldCamel(front);
        TrimFolded(front, p);
      }
    }
  }

  // ----- what a masked text is named -----

  lemma TailUnsplit(separator: char)
    requires IsSeparator(separator)
    ensures var t := [separator] + " " + MASK;
            && t[0] == separator && t[|t| - 1] == ']' && FoldAll(t) == [separator] + MASK_TAIL
            && forall j :: 0 < j < |t| ==> !CamelBoundary(t, j)
  {
    var t := [separator] + " [REDACTED]";
    assert t == [separator] + " " + MASK;
    assert FoldAll(t) == [separator] + MASK_TAIL;
  }

  /** The name of a masked label: what the label is named once trimmed, and the mask. */
  lemma MaskedName(prefix: string, separator: char) returns (x: string)
    requires IsSeparator(separator) && !HasSeparator(prefix)
    ensures x == FoldCamel(StripLeft(StripLeft(prefix, IsSpace), IsQuote))
    ensures FieldName(Masked(prefix, separator)) == x + [separator] + MASK_TAIL
    ensures !HasSeparator(x) && RightTrim(x) == FieldName(prefix)
  {
    hide CamelFrom, FoldAll, CamelBoundary, IsSpace;
    var t := [separator] + " " + MASK;
    TailUnsplit(separator);
    SeparatorPlain(separator);
    var once := StripLeft(prefix, IsSpace);
    var p := StripLeft(once, IsQuote);
    assert Masked(prefix, separator) == prefix + t;
    StripFront(prefix, t, IsSpace);
    StripFront(once, t, IsQuote);
    CamelApart(p, t, 0);
    x := FoldCamel(p);
    FoldAppend(CamelFrom(p, 0), t);
    assert x + ([separator] + MASK_TAIL) == x + [separator] + MASK_TAIL;
    StripLeftFewer(prefix, IsSpace);
    StripLeftFewer(once, IsQuote);
    FoldCamelNoSeparator(p);
    TrimmedName(prefix);
  }

  lemma SeparatorPlain(separator: char)
    requires IsSeparator(separator)
    ensures !IsSpace(separator) && !IsQuote(separator) && !IsUpper(separator) && !('a' <= separator <= 'z')
    ensures !IsSpace(']') && !IsQuote(']')
  {
  }

  lemma {:induction false} StripLeftFewer(s: string, p: char -> bool)
    ensures forall c :: c in StripLeft(s, p) ==> c in s
  {
    if s != [] && p(s[0]) {
      StripLeftFewer(s[1..], p);
    }
  }

  lemma TrimmedName(prefix: string)
    ensures RightTrim(FoldCamel(StripLeft(StripLeft(prefix, IsSpace), IsQuote))) == FieldName(prefix)
  {
    hide CamelFrom, FoldAll;
    var once := StripLeft(prefix, IsSpace);
    var p := StripLeft(once, IsQuote);
    StripsCommute(once, IsQuote, IsSpace);
    assert Strip(Strip(prefix, IsSpace), IsQuote) == RightTrim(p);
    forall c
      ensures IsSpace(Fold(c)) <==> IsSpace(c)
      ensures IsQuote(Fold(c)) <==> IsQuote(c)
    {
      FoldKeeps(c);
    }
    TrimFolded(p, IsSpace);
    TrimFolded(StripRight(p, IsSpace), IsQuote);
  }

  /** A field name starts with no quote and has no upper-case letter or hyphen. */
  lemma NameFolded(entry: string)
    ensures var e := FieldName(entry);
            && (e != [] ==> !IsQuote(e[0]))
            && forall c :: c in e ==> !IsUpper(c) && c != '-'
  {
    var u := Strip(Strip(entry, IsSpace), IsQuote);
    var t := CamelFrom(u, 0);
    StripLeftHead(Strip(entry, IsSpace), IsQuote);
    StripRightHead(StripLeft(Strip(entry, IsSpace), IsQuote), IsQuote);
    if u != [] {
      assert t[0] == u[0];
      FoldKeeps(t[0]);
    }
    forall c | c in FoldAll(t)
      ensures !IsUpper(c) && c != '-'
    {
      var i :| 0 <= i < |t| && FoldAll(t)[i] == c;
    }
  }

  lemma {:induction false} StripLeftHead(s: string, p: char -> bool)
    ensures StripLeft(s, p) != [] ==> !p(StripLeft(s, p)[0])
  {
    if s != [] && p(s[0]) {
      StripLeftHead(s[1..], p);
    }
  }

  lemma {:induction false} StripRightHead(s: string, p: char -> bool)
    ensures StripRight(s, p) != [] ==> s != [] && StripRight(s, p)[0] == s[0]
    decreases |s|
  {
    if s != [] && p(s[|s| - 1]) {
      StripRightHead(s[..|s| - 1], p);
    }
  }

  lemma FoldedFixed(x: string)
    requires forall c :: c in x ==> !IsUpper(c) && c != '-'
    ensures FoldCamel(x) == x
  {
    assert forall j :: 0 <= j < |x| ==> x[j] in x;
    CamelPlain(x, 0);
    assert x[0..] == x;
    assert FoldAll(x) == x;
  }

  /** Every name of this form that is a field name at all is that of some masked label. */
  lemma MaskNameOfLabel(entry: string, rules: Rules) returns (prefix: string, separator: char)
    requires MaskName(FieldName(entry), rules)
    ensures IsSeparator(separator) && !HasSeparator(prefix) && CredentialName(FieldName(prefix), rules)
    ensures FieldName(Masked(prefix, separator)) == FieldName(entry)
  {
    hide FieldName, CredentialName, IsSpace, RightTrim, HasSeparator, FoldCamel, Masked;
    var e := FieldName(entry);
    var n := |e| - |MASK_TAIL| - 1;
    var x := e[..n];
    separator := e[n];
    prefix := ['\"'] + x;
    assert e == x + [separator] + MASK_TAIL;
    NameFolded(entry);
    assert forall c :: c in x ==> c in e;
    QuoteStripped(x);
    FoldedFixed(x);
    QuoteNoSeparator(x);
    var y := MaskedName(prefix, separator);
    assert y == x;
  }

  lemma QuoteNoSeparator(x: string)
    requires !HasSeparator(x)
    ensures !HasSeparator(['\"'] + x)
  {
    assert forall c :: c in ['\"'] + x <==> c == '\"' || c in x;
  }

  lemma QuoteStripped(x: string)
    requires x != [] ==> !IsQuote(x[0])
    ensures StripLeft(StripLeft(['\"'] + x, IsSpace), IsQuote) == x
  {
    var q := ['\"'] + x;
    assert StripLeft(q, IsSpace) == q && q[1..] == x;
  }
}
