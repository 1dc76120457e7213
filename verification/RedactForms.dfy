// opentine/_canon_redact.py: which names, flags and texts the tests of the walk are about,
// said of how they are spelled.
module RedactForms {
  import opened Basics
  import opened RedactText
  import opened RedactNames
  import opened RedactMasks

  // ----- parts of texts -----

  lemma SuffixIs(s: string, t: string)
    ensures HasSuffix(s, t) <==> exists front :: s == front + t
  {
    if HasSuffix(s, t) {
      assert s == s[..|s| - |t|] + t;
    }
    if front :| s == front + t {
      assert s[|s| - |t|..] == t;
    }
  }

  lemma {:induction false} StripLeftSplits(s: string, p: char -> bool) returns (n: nat)
    ensures n <= |s| && StripLeft(s, p) == s[n..] && forall i :: 0 <= i < n ==> p(s[i])
    ensures n < |s| ==> !p(s[n])
  {
    if s != [] && p(s[0]) {
      n := StripLeftSplits(s[1..], p);
      n := n + 1;
    } else {
      n := 0;
    }
  }

  lemma {:induction false} StripRightSplits(s: string, p: char -> bool) returns (n: nat)
    ensures n <= |s| && StripRight(s, p) == s[..n] && forall i :: n <= i < |s| ==> p(s[i])
    ensures n > 0 ==> !p(s[n - 1])
    decreases |s|
  {
    if s != [] && p(s[|s| - 1]) {
      n := StripRightSplits(s[..|s| - 1], p);
    } else {
      n := |s|;
    }
  }

  /** Stripping takes off both ends what the test holds of, and no more. */
  lemma Stripped(s: string, p: char -> bool) returns (i: nat, j: nat)
    ensures i <= j <= |s| && Strip(s, p) == s[i..j]
    ensures forall k :: 0 <= k < i || j <= k < |s| ==> p(s[k])
    ensures i < j ==> !p(s[i]) && !p(s[j - 1])
  {
    i := StripLeftSplits(s, p);
    var n := StripRightSplits(s[i..], p);
    j := i + n;
  }

  // ----- names -----

  /** A name in one of the lists, or one that ends in a listed suffix, underscores counted or
      not. */
  ghost predicate Listed(name: string, rules: Rules) {
    || name in rules.credentials || name in rules.extra
    || (exists front, suffix :: suffix in rules.suffixes && name == front + suffix)
    || (exists front, suffix :: suffix in rules.suffixes && Without(name, '_') == front + Without(suffix, '_'))
  }

  lemma MatchesIsListed(name: string, rules: Rules)
    ensures NameMatches(name, rules) <==> Listed(name, rules)
  {
    forall suffix | suffix in rules.suffixes
      ensures HasSuffix(name, suffix) <==> exists front :: name == front + suffix
      ensures HasSuffix(Without(name, '_'), Without(suffix, '_')) <==>
              exists front :: Without(name, '_') == front + Without(suffix, '_')
    {
      SuffixIs(name, suffix);
      SuffixIs(Without(name, '_'), Without(suffix, '_'));
    }
  }

  /** A credential's name is a listed one or its plural. */
  ghost predicate Credential(name: string, rules: Rules) {
    Listed(name, rules) || exists one :: name == one + "s" && Listed(one, rules)
  }

  lemma CredentialForms(name: string, rules: Rules)
    ensures SecretField(name, rules) <==> Credential(name, rules)
  {
    hide Listed, NameMatches;
    MatchesIsListed(name, rules);
    SuffixIs(name, "s");
    if HasSuffix(name, "s") {
      var one := name[..|name| - 1];
      MatchesIsListed(one, rules);
      assert name == one + "s";
    }
    forall one | name == one + "s"
      ensures one == name[..|name| - 1]
    {
    }
  }

  /** Names of tokens and of counts of them. */
  ghost predicate CountName(name: string) {
    exists front :: Without(name, '_') == front + "token" || Without(name, '_') == front + "tokens"
  }

  lemma TokenForms(name: string)
    ensures TokenName(name) <==> CountName(name)
  {
    SuffixIs(Without(name, '_'), "token");
    SuffixIs(Without(name, '_'), "tokens");
  }

  // ----- flags -----

  /** The flag's name: what follows the hyphens of an argument of at most 64 characters with no
      equals sign and no space. */
  ghost predicate FlagNamed(s: string, name: string) {
    && |s| <= 64 && '=' !in s && (forall c :: c in s ==> !IsSpace(c))
    && exists n, rest :: n > 0 && s == Hyphens(n) + rest && (rest == [] || rest[0] != '-') && name == FieldName(rest)
  }

  function Hyphens(n: nat): string {
    seq(n, _ => '-')
  }

  /** The flags whose next argument is a credential: token, pass, auth, and credentials' names. */
  ghost predicate CredentialFlag(s: string, name: string, rules: Rules) {
    FlagNamed(s, name) && (name == "token" || name == "pass" || name == "auth" || Credential(name, rules))
  }

  lemma {:induction false} HyphensOff(n: nat, rest: string)
    requires rest == [] || rest[0] != '-'
    ensures StripLeft(Hyphens(n) + rest, c => c == '-') == rest
  {
    if n == 0 {
      assert Hyphens(n) + rest == rest;
    } else {
      assert (Hyphens(n) + rest)[1..] == Hyphens(n - 1) + rest;
      HyphensOff(n - 1, rest);
    }
  }

  lemma FlagNameIs(s: string, name: string)
    requires |s| <= 64 && '=' !in s && forall c :: c in s ==> !IsSpace(c)
    ensures FlagNamed(s, name) <==> s != [] && s[0] == '-' && name == FieldName(StripLeft(s, c => c == '-'))
  {
    hide FieldName;
    if s != [] && s[0] == '-' {
      var n := StripLeftSplits(s, c => c == '-');
      assert s == Hyphens(n) + s[n..];
    }
    forall n: nat, rest: string | n > 0 && s == Hyphens(n) + rest && (rest == [] || rest[0] != '-')
      ensures s[0] == '-' && StripLeft(s, c => c == '-') == rest
    {
      HyphensOff(n, rest);
    }
  }

  lemma SecretFlagForms(s: string, name: string, rules: Rules)
    requires name != ""
    ensures SecretFlag(s, rules) == name <==> CredentialFlag(s, name, rules)
  {
    CredentialForms(name, rules);
    hide FieldName, SecretField, Credential;
    if |s| <= 64 && '=' !in s && forall c :: c in s ==> !IsSpace(c) {
      FlagNameIs(s, name);
    }
  }

  // ----- one name, however it is spelled -----

  predicate Letters(w: string) {
    forall i :: 0 <= i < |w| ==> 'a' <= w[i] <= 'z'
  }

  predicate LettersAndMarks(w: string) {
    forall i :: 0 <= i < |w| ==> 'a' <= w[i] <= 'z' || w[i] == '_'
  }

  function UpperChar(c: char): char {
    if 'a' <= c <= 'z' then c - ' ' else c
  }

  /** API_KEY for api_key. */
  function Screaming(name: string): (r: string)
    ensures |r| == |name| && forall i :: 0 <= i < |r| ==> r[i] == UpperChar(name[i])
  {
    seq(|name|, i requires 0 <= i < |name| => UpperChar(name[i]))
  }

  /** api-key for api_key. */
  function Kebab(name: string): (r: string)
    ensures |r| == |name| && forall i :: 0 <= i < |r| ==> r[i] == if name[i] == '_' then '-' else name[i]
  {
    seq(|name|, i requires 0 <= i < |name| => if name[i] == '_' then '-' else name[i])
  }

  /** Key for key. */
  function Title(w: string): string
    requires w != []
  {
    [UpperChar(w[0])] + w[1..]
  }

  predicate CaseWords(ws: seq<string>) {
    && ws != [] && ws[0] != []
    && (forall i :: 0 <= i < |ws| ==> Letters(ws[i])) && forall i :: 0 < i < |ws| ==> |ws[i]| >= 2
  }

  /** apiKey for [api, key]. */
  function CamelText(ws: seq<string>): string
    requires CaseWords(ws)
  {
    if |ws| == 1 then ws[0] else CamelText(ws[..|ws| - 1]) + Title(ws[|ws| - 1])
  }

  /** api_key for [api, key]. */
  function SnakeText(ws: seq<string>): string
    requires ws != []
  {
    if |ws| == 1 then ws[0] else SnakeText(ws[..|ws| - 1]) + "_" + ws[|ws| - 1]
  }

  /** A text of letters and marks is left whole, but for its case. */
  lemma Whole(s: string)
    requires forall c :: c in s ==> !IsSpace(c) && !IsQuote(c)
    requires forall j :: 0 <= j < |s| ==> !CamelBoundary(s, j)
    ensures FieldName(s) == FoldAll(s)
  {
    StripNothing(s, IsSpace);
    StripNothing(s, IsQuote);
    CamelUnsplit(s, 0);
    assert s[0..] == s;
  }

  lemma ScreamingSpelled(name: string)
    requires LettersAndMarks(name)
    ensures FieldName(Screaming(name)) == name
  {
    hide FieldName;
    Whole(Screaming(name));
    assert FoldAll(Screaming(name)) == name;
  }

  lemma ScreamingKebabSpelled(name: string)
    requires LettersAndMarks(name)
    ensures FieldName(Screaming(Kebab(name))) == name
  {
    hide FieldName;
    Whole(Screaming(Kebab(name)));
    assert FoldAll(Screaming(Kebab(name))) == name;
  }

  lemma KebabSpelled(name: string)
    requires LettersAndMarks(name)
    ensures FieldName(Kebab(name)) == name
  {
    hide FieldName;
    Whole(Kebab(name));
    assert FoldAll(Kebab(name)) == name;
  }

  lemma SnakeSpelled(name: string)
    requires LettersAndMarks(name)
    ensures FieldName(name) == name
  {
    hide FieldName;
    Whole(name);
    assert FoldAll(name) == name;
  }

  /** A word with a capital starts a new word after a small letter. */
  lemma {:induction false} CamelJoin(s: string, w: string, i: nat)
    requires s != [] && 'a' <= s[|s| - 1] <= 'z' && i <= |s| && Letters(w) && |w| >= 2
    ensures CamelFrom(s + Title(w), i) == CamelFrom(s, i) + "_" + Title(w)
    decreases |s| - i
  {
    hide CamelFrom;
    var t := Title(w);
    var u := s + t;
    CamelNext(u, i);
    if i == |s| {
      assert forall j :: i < j < |u| ==> u[j] == w[j - i];
      CamelUnsplit(u, i + 1);
      CamelEnd(s);
      assert u[i..] == t && [u[i]] + u[i + 1..] == t;
    } else {
      assert CamelBoundary(u, i) == CamelBoundary(s, i);
      CamelNext(s, i);
      CamelJoin(s, w, i + 1);
    }
  }

  lemma {:induction false} CamelEndsSmall(ws: seq<string>)
    requires CaseWords(ws)
    ensures var t := CamelText(ws); t != [] && 'a' <= t[|t| - 1] <= 'z'
    ensures forall c :: c in CamelText(ws) ==> 'a' <= c <= 'z' || 'A' <= c <= 'Z'
  {
    if |ws| > 1 {
      CamelEndsSmall(ws[..|ws| - 1]);
    }
  }

  lemma {:induction false} CamelSplits(ws: seq<string>)
    requires CaseWords(ws)
    ensures FoldAll(CamelFrom(CamelText(ws), 0)) == SnakeText(ws)
  {
    var front, last := ws[..|ws| - 1], ws[|ws| - 1];
    assert Letters(last);
    if |ws| == 1 {
      CamelPlain(last, 0);
      assert last[0..] == last;
      assert FoldAll(last) == last;
    } else {
      CamelSplits(front);
      CamelEndsSmall(front);
      CamelJoin(CamelText(front), last, 0);
      hide CamelFrom;
      FoldAppend(CamelFrom(CamelText(front), 0) + "_", Title(last));
      FoldAppend(CamelFrom(CamelText(front), 0), "_");
      assert FoldAll("_") == "_" && FoldAll(Title(last)) == last;
    }
  }

  /** camelCase is read as snake_case. */
  lemma CamelSpelled(ws: seq<string>)
    requires CaseWords(ws)
    ensures FieldName(CamelText(ws)) == SnakeText(ws)
  {
    CamelEndsSmall(ws);
    StripNothing(CamelText(ws), IsSpace);
    StripNothing(CamelText(ws), IsQuote);
    CamelSplits(ws);
  }

  lemma {:induction false} StripAround(a: string, s: string, b: string, p: char -> bool)
    requires (forall c :: c in a ==> p(c)) && (forall c :: c in b ==> p(c))
    requires s == [] || (!p(s[0]) && !p(s[|s| - 1]))
    ensures Strip(a + s + b, p) == s
  {
    LeftAllOff(a, s + b, p);
    assert a + s + b == a + (s + b);
    if s == [] {
      LeftAllOff(b, [], p);
      assert s + b == b && b + [] == b;
    } else {
      assert StripLeft(s + b, p) == s + b;
      RightAllOff(s, b, p);
      assert StripRight(s, p) == s;
    }
  }

  lemma {:induction false} LeftAllOff(a: string, t: string, p: char -> bool)
    requires forall c :: c in a ==> p(c)
    ensures StripLeft(a + t, p) == StripLeft(t, p)
  {
    if a == [] {
      assert a + t == t;
    } else {
      assert a[0] in a && (a + t)[1..] == a[1..] + t;
      LeftAllOff(a[1..], t, p);
    }
  }

  lemma {:induction false} RightAllOff(s: string, b: string, p: char -> bool)
    requires forall c :: c in b ==> p(c)
    ensures StripRight(s + b, p) == StripRight(s, p)
    decreases |b|
  {
    if b == [] {
      assert s + b == s;
    } else {
      assert b[|b| - 1] in b && (s + b)[..|s + b| - 1] == s + b[..|b| - 1];
      RightAllOff(s, b[..|b| - 1], p);
    }
  }

  /** Spaces around a name, and quotes within them, are no part of it. */
  lemma QuotedSpelled(before: string, open: string, name: string, close: string, after: string)
    requires (forall c :: c in before + after ==> IsSpace(c)) && (forall c :: c in open + close ==> IsQuote(c))
    requires name != [] && !IsSpace(name[0]) && !IsSpace(name[|name| - 1])
    requires !IsQuote(name[0]) && !IsQuote(name[|name| - 1])
    ensures FieldName(before + (open + name + close) + after) == FieldName(name)
  {
    hide CamelFrom, FoldAll;
    var quoted := open + name + close;
    assert forall c :: c in before ==> c in before + after;
    assert forall c :: c in after ==> c in before + after;
    assert forall c :: c in open ==> c in open + close;
    assert forall c :: c in close ==> c in open + close;
    QuotedEnds(open, name, close);
    StripAround(before, quoted, after, IsSpace);
    StripAround(open, name, close, IsQuote);
    StripAround([], name, [], IsSpace);
    StripAround([], name, [], IsQuote);
    assert [] + name + [] == name;
  }

  lemma QuotedEnds(open: string, name: string, close: string)
    requires name != [] && !IsSpace(name[0]) && !IsSpace(name[|name| - 1])
    requires forall c :: c in open + close ==> IsQuote(c)
    ensures var q := open + name + close; q != [] && !IsSpace(q[0]) && !IsSpace(q[|q| - 1])
  {
    var q := open + name + close;
    if open != [] {
      assert open[0] in open + close && q[0] == open[0];
    }
    if close != [] {
      assert close[|close| - 1] in open + close && q[|q| - 1] == close[|close| - 1];
    }
  }

  // ----- prose -----

  /** A text begins with a word: it is the word, or a space follows it. */
  ghost predicate Begins(t: string, word: string) {
    t == word || exists sp, rest :: IsSpace(sp) && t == word + [sp] + rest
  }

  /** A question word, or an article and a word that headers are called by. */
  ghost predicate ReadsAsProse(t: string) {
    || (exists q :: q in QUESTIONS && Begins(t, q))
    || exists article, gap, noun, rest :: ArticleAndNoun(t, article, gap, noun, rest)
  }

  predicate OneWord(w: string) {
    w != [] && forall i :: 0 <= i < |w| ==> !IsSpace(w[i])
  }

  lemma {:induction false} FirstWordIs(t: string, w: string)
    requires forall i :: 0 <= i < |w| ==> !IsSpace(w[i])
    ensures FirstWord(t) == w <==> w <= t && (|t| == |w| || IsSpace(t[|w|]))
    decreases |w|
  {
    if w != [] && t != [] && t[0] == w[0] {
      FirstWordIs(t[1..], w[1..]);
      assert w == [w[0]] + w[1..] && t == [t[0]] + t[1..];
      if w <= t {
        assert t[1..][..|w| - 1] == t[..|w|][1..];
      }
    }
  }

  lemma BeginsIs(t: string, w: string)
    requires OneWord(w)
    ensures FirstWord(t) == w <==> Begins(t, w)
  {
    FirstWordIs(t, w);
    if w <= t && |t| > |w| {
      assert t == w + [t[|w|]] + t[|w| + 1..];
    }
  }

  lemma {:induction false} WordsAfterSpaces(t: string)
    ensures Words(t) == Words(StripLeft(t, IsSpace))
    decreases |t|
  {
    if t != [] && IsSpace(t[0]) {
      WordsAfterSpaces(t[1..]);
    }
  }

  lemma WordsFrom(t: string)
    requires t != [] && !IsSpace(t[0])
    ensures |FirstWord(t)| <= |t|
    ensures var w, rest := FirstWord(t), StripLeft(t[|FirstWord(t)|..], IsSpace);
            OneWord(w) && w <= t && Words(t) == [w] + Words(rest) && (rest == [] || !IsSpace(rest[0]))
    ensures |t| > |FirstWord(t)| ==> IsSpace(t[|FirstWord(t)|])
  {
    FirstWordLength(t);
    FirstWordPlain(t);
    FirstWordIs(t, FirstWord(t));
    WordsAfterSpaces(t[|FirstWord(t)|..]);
    var n := StripLeftSplits(t[|FirstWord(t)|..], IsSpace);
  }

  lemma {:induction false} FirstWordPlain(t: string)
    ensures forall i :: 0 <= i < |FirstWord(t)| ==> !IsSpace(FirstWord(t)[i])
    ensures t != [] && !IsSpace(t[0]) ==> FirstWord(t) != []
  {
    if t != [] && !IsSpace(t[0]) {
      FirstWordPlain(t[1..]);
    }
  }

  lemma ListedWords()
    ensures forall q :: q in QUESTIONS ==> OneWord(q)
    ensures forall q :: q in ARTICLES ==> OneWord(q)
    ensures forall q :: q in HEADER_NOUNS ==> OneWord(q)
  {
  }

  lemma LoweredStripped(candidate: string)
    ensures var t := LowerAll(Strip(candidate, IsSpace)); t == [] || !IsSpace(t[0])
  {
    var i, j := Stripped(candidate, IsSpace);
    var u := Strip(candidate, IsSpace);
    if u != [] {
      assert !IsSpace(u[0]);
    }
  }

  lemma ProseForms(candidate: string)
    ensures Prose(candidate) <==> ReadsAsProse(LowerAll(Strip(candidate, IsSpace)))
  {
    var t := LowerAll(Strip(candidate, IsSpace));
    LoweredStripped(candidate);
    ListedWords();
    hide IsSpace, Strip, LowerAll;
    forall q | q in QUESTIONS || q in ARTICLES
      ensures FirstWord(t) == q <==> Begins(t, q)
    {
      BeginsIs(t, q);
    }
    if t == [] {
      NothingReads();
    } else {
      WordsFrom(t);
      SecondWordIs(t);
    }
  }

  lemma NothingReads()
    ensures !ReadsAsProse([]) && Words([]) == []
  {
    ListedWords();
    assert forall q :: q in QUESTIONS ==> !Begins([], q);
  }

  /** The text reads as an article, a gap and a noun. */
  ghost predicate ArticleAndNoun(t: string, article: string, gap: string, noun: string, rest: string) {
    article in ARTICLES && noun in HEADER_NOUNS && gap != [] && (forall c :: c in gap ==> IsSpace(c)) &&
    t == article + gap + rest && Begins(rest, noun)
  }

  lemma SecondWordIs(t: string)
    requires t != [] && !IsSpace(t[0])
    ensures (|Words(t)| > 1 && Words(t)[0] in ARTICLES && Words(t)[1] in HEADER_NOUNS) <==>
              exists article, gap, noun, rest :: ArticleAndNoun(t, article, gap, noun, rest)
  {
    hide ArticleAndNoun;
    if |Words(t)| > 1 && Words(t)[0] in ARTICLES && Words(t)[1] in HEADER_NOUNS {
      TwoWordsRead(t);
    }
    forall article, gap, noun, rest | ArticleAndNoun(t, article, gap, noun, rest)
      ensures |Words(t)| > 1 && Words(t)[0] in ARTICLES && Words(t)[1] in HEADER_NOUNS
    {
      ReadsTwoWords(t, article, gap, noun, rest);
    }
  }

  lemma TwoWordsRead(t: string)
    requires t != [] && !IsSpace(t[0])
    requires |Words(t)| > 1 && Words(t)[0] in ARTICLES && Words(t)[1] in HEADER_NOUNS
    ensures exists article, gap, noun, rest :: ArticleAndNoun(t, article, gap, noun, rest)
  {
    hide Words, FirstWord, IsSpace, Begins, ArticleAndNoun, OneWord, StripLeft;
    WordsFrom(t);
    var w := FirstWord(t);
    var n := StripLeftSplits(t[|w|..], IsSpace);
    var gap, rest := t[|w|..][..n], t[|w|..][n..];
    NoWords();
    WordsFrom(rest);
    var noun := FirstWord(rest);
    BeginsIs(rest, noun);
    FromParts(t, w, gap, noun, rest, n);
  }

  lemma FromParts(t: string, w: string, gap: string, noun: string, rest: string, n: nat)
    requires w <= t && n <= |t| - |w| && gap == t[|w|..][..n] && rest == t[|w|..][n..]
    requires rest != [] && !IsSpace(rest[0]) && IsSpace(t[|w|])
    requires (forall i :: 0 <= i < n ==> IsSpace(t[|w|..][i])) && w in ARTICLES && noun in HEADER_NOUNS
    requires Begins(rest, noun)
    ensures ArticleAndNoun(t, w, gap, noun, rest)
  {
    hide IsSpace, Begins;
    assert t == w + gap + rest;
    assert n > 0;
  }

  lemma NoWords()
    ensures Words([]) == []
  {
  }

  lemma ReadsTwoWords(t: string, article: string, gap: string, noun: string, rest: string)
    requires ArticleAndNoun(t, article, gap, noun, rest)
    ensures |Words(t)| > 1 && Words(t)[0] in ARTICLES && Words(t)[1] in HEADER_NOUNS
  {
    ListedWords();
    hide Words, FirstWord, IsSpace;
    assert gap[0] in gap && t[|article|] == gap[0];
    assert OneWord(article) && t[0] == article[0];
    FirstWordIs(t, article);
    WordsFrom(t);
    assert t[|article|..] == gap + rest;
    LeftAllOff(gap, rest, IsSpace);
    BeginsIs(rest, noun);
    assert OneWord(noun) && rest[0] == noun[0];
    assert StripLeft(rest, IsSpace) == rest;
    WordsFrom(rest);
  }
}
