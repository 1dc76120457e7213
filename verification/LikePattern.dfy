// opentine/_actions_query.py and _actions_db.py: SQLite's LIKE on escaped values, and
// lists packed into one column.
module LikePattern {
  import opened Basics

  // ----- ASCII case, as SQLite's LIKE and lower() fold it -----

  function Lower(s: string): (r: string)
    ensures |r| == |s|
  {
    seq(|s|, i requires 0 <= i < |s| => LowerChar(s[i]))
  }

  lemma LowerParts(s: string, t: string)
    ensures Lower(s + t) == Lower(s) + Lower(t)
  {
  }

  lemma LowerSlice(s: string, i: nat, j: nat)
    requires i <= j <= |s|
    ensures Lower(s[i..j]) == Lower(s)[i..j]
  {
  }

  // ----- LIKE ... ESCAPE '\' -----

  predicate Like(p: string, t: string)
    decreases |p| + |t|
  {
    if p == [] then t == []
    else if p[0] == '%' then Like(p[1..], t) || (t != [] && Like(p, t[1..]))
    else if p[0] == '_' then t != [] && Like(p[1..], t[1..])
    else if p[0] == '\\' then
      |p| > 1 && t != [] && LowerChar(p[1]) == LowerChar(t[0]) && Like(p[2..], t[1..])
    else t != [] && LowerChar(p[0]) == LowerChar(t[0]) && Like(p[1..], t[1..])
  }

  function Replace(s: string, c: char, with: string): string {
    if s == [] then [] else (if s[0] == c then with else [s[0]]) + Replace(s[1..], c, with)
  }

  /** value.replace("\\", "\\\\").replace("%", "\\%").replace("_", "\\_") */
  function Escaped(value: string): string {
    Replace(Replace(Replace(value, '\\', "\\\\"), '%', "\\%"), '_', "\\_")
  }

  function LikeOf(value: string): (p: string)
    ensures |p| >= 2 && p[0] == '%' && p[|p| - 1] == '%'
  {
    "%" + Escaped(value) + "%"
  }

  predicate Special(c: char) {
    c == '\\' || c == '%' || c == '_'
  }

  lemma {:induction false} ReplaceParts(s: string, t: string, c: char, with: string)
    ensures Replace(s + t, c, with) == Replace(s, c, with) + Replace(t, c, with)
  {
    if s == [] {
      assert s + t == t;
    } else {
      assert (s + t)[1..] == s[1..] + t;
      ReplaceParts(s[1..], t, c, with);
    }
  }

  lemma ReplaceOne(x: char, c: char, with: string)
    ensures Replace([x], c, with) == if x == c then with else [x]
  {
    assert [x][1..] == [];
  }

  lemma ReplaceTwo(x: char, y: char, c: char, with: string)
    requires x != c && y != c
    ensures Replace([x, y], c, with) == [x, y]
  {
    assert [x, y] == [x] + [y];
    ReplaceParts([x], [y], c, with);
    ReplaceOne(x, c, with);
    ReplaceOne(y, c, with);
  }

  /** The three replacements escape each special character once. */
  lemma EscapedParts(x: char, s: string)
    ensures Escaped([x] + s) == (if Special(x) then ['\\', x] else [x]) + Escaped(s)
    ensures Escaped([]) == []
  {
    var one := if x == '\\' then "\\\\" else [x];
    var two := if x == '%' then "\\%" else one;
    var first, second := Replace(s, '\\', "\\\\"), Replace(Replace(s, '\\', "\\\\"), '%', "\\%");
    ReplaceParts([x], s, '\\', "\\\\");
    ReplaceOne(x, '\\', "\\\\");
    ReplaceParts(one, first, '%', "\\%");
    if x == '\\' {
      ReplaceTwo('\\', '\\', '%', "\\%");
      ReplaceTwo('\\', '\\', '_', "\\_");
    } else {
      ReplaceOne(x, '%', "\\%");
      ReplaceOne(x, '_', "\\_");
      ReplaceTwo('\\', '%', '_', "\\_");
    }
    ReplaceParts(two, second, '_', "\\_");
  }

  // ----- what escaped patterns mean -----

  /** An escaped value followed by a pattern: the value in any case, then the pattern. */
  lemma {:induction false} LikeEscaped(v: string, p: string, t: string)
    ensures Like(Escaped(v) + p, t) <==>
              |v| <= |t| && Lower(t[..|v|]) == Lower(v) && Like(p, t[|v|..])
    decreases |v|
  {
    EscapedParts('x', []);
    if v == [] {
      assert Escaped(v) + p == p && t[..0] == [] && t[0..] == t;
    } else {
      var x, rest := v[0], v[1..];
      assert v == [x] + rest;
      EscapedParts(x, rest);
      var head := if Special(x) then ['\\', x] else [x];
      var pattern := Escaped(v) + p;
      assert pattern == head + (Escaped(rest) + p);
      assert pattern[|head|..] == Escaped(rest) + p;
      if t != [] {
        LikeEscaped(rest, p, t[1..]);
        LowerFirst(v, t);
      }
    }
  }

  lemma LowerFirst(v: string, t: string)
    requires v != [] && t != []
    ensures |v| <= |t| ==>
      (Lower(t[..|v|]) == Lower(v) <==>
         LowerChar(v[0]) == LowerChar(t[0]) && Lower(t[1..][..|v| - 1]) == Lower(v[1..]))
    ensures |v| <= |t| ==> t[1..][|v| - 1..] == t[|v|..]
  {
    if |v| <= |t| {
      var u := t[..|v|];
      assert t[1..][..|v| - 1] == u[1..];
      assert v == [v[0]] + v[1..] && u == [t[0]] + u[1..];
      LowerParts([v[0]], v[1..]);
      LowerParts([t[0]], u[1..]);
      assert Lower([v[0]]) == [LowerChar(v[0])] && Lower([t[0]]) == [LowerChar(t[0])];
      assert Lower(u)[0] == LowerChar(t[0]) && Lower(u)[1..] == Lower(u[1..]);
      assert Lower(v)[0] == LowerChar(v[0]) && Lower(v)[1..] == Lower(v[1..]);
      assert Lower(u) == [Lower(u)[0]] + Lower(u)[1..] && Lower(v) == [Lower(v)[0]] + Lower(v)[1..];
    }
  }

  lemma {:induction false} LikeAnything(p: string, t: string)
    ensures Like("%" + p, t) <==> exists k :: 0 <= k <= |t| && Like(p, t[k..])
    decreases |t|
  {
    var q := "%" + p;
    assert q[1..] == p && t[0..] == t;
    if t == [] {
      assert forall k :: 0 <= k <= |t| ==> t[k..] == t;
    } else {
      LikeAnything(p, t[1..]);
      if k :| 0 <= k <= |t| && Like(p, t[k..]) {
        if k > 0 {
          assert t[k..] == t[1..][k - 1..];
        }
      }
      if k :| 0 <= k <= |t[1..]| && Like(p, t[1..][k..]) {
        assert t[1..][k..] == t[k + 1..];
      }
    }
  }

  lemma LikePercent(t: string)
    ensures Like("%", t)
  {
    LikeAnything([], t);
    assert "%" + [] == "%" && t[|t|..] == [];
  }

  predicate ContainsAt(t: string, v: string, k: nat) {
    k + |v| <= |t| && t[k..k + |v|] == v
  }

  predicate Contains(t: string, v: string) {
    exists k :: 0 <= k <= |t| && ContainsAt(t, v, k)
  }

  /** LIKE on a value wrapped in % is a case-insensitive substring test, whatever
      wildcards or backslashes the value holds. */
  lemma LikeIsSubstring(v: string, t: string)
    ensures Like(LikeOf(v), t) <==> Contains(Lower(t), Lower(v))
  {
    var tail := Escaped(v) + "%";
    assert LikeOf(v) == "%" + tail;
    LikeAnything(tail, t);
    forall k | 0 <= k <= |t|
      ensures Like(tail, t[k..]) <==> ContainsAt(Lower(t), Lower(v), k)
    {
      LikeAt(v, t, k);
    }
  }

  lemma LikeAt(v: string, t: string, k: nat)
    requires k <= |t|
    ensures Like(Escaped(v) + "%", t[k..]) <==> ContainsAt(Lower(t), Lower(v), k)
  {
    LikeEscaped(v, "%", t[k..]);
    if k + |v| <= |t| {
      LikePercent(t[k..][|v|..]);
      assert t[k..][..|v|] == t[k..k + |v|];
      LowerSlice(t, k, k + |v|);
    }
  }

  /** Without its leading %, it is a case-insensitive prefix test. */
  lemma LikeIsPrefix(v: string, t: string)
    ensures Like(LikeOf(v)[1..], t) <==> HasPrefix(Lower(t), Lower(v))
  {
    assert LikeOf(v)[1..] == Escaped(v) + "%";
    LikeEscaped(v, "%", t);
    if |v| <= |t| {
      LikePercent(t[|v|..]);
      LowerSlice(t, 0, |v|);
      assert t[..|v|] == t[0..|v|] && Lower(t)[..|v|] == Lower(t)[0..|v|];
    }
  }

  /** Without its trailing %, it is a case-insensitive suffix test. */
  lemma LikeIsSuffix(v: string, t: string)
    ensures Like(LikeOf(v)[..|LikeOf(v)| - 1], t) <==> HasSuffix(Lower(t), Lower(v))
  {
    var p := LikeOf(v)[..|LikeOf(v)| - 1];
    assert p == "%" + Escaped(v) && Escaped(v) + [] == Escaped(v);
    LikeAnything(Escaped(v), t);
    forall k | 0 <= k <= |t|
      ensures Like(Escaped(v), t[k..]) <==> k + |v| == |t| && Lower(t)[k..] == Lower(v)
    {
      LikeEscaped(v, [], t[k..]);
      if |v| <= |t[k..]| {
        assert Like([], t[k..][|v|..]) <==> k + |v| == |t|;
        if k + |v| == |t| {
          assert t[k..][..|v|] == t[k..|t|];
          LowerSlice(t, k, |t|);
        }
      }
    }
    if |v| <= |t| {
      assert Like(Escaped(v), t[|t| - |v|..]) <==> Lower(t)[|t| - |v|..] == Lower(v);
    }
  }
}
