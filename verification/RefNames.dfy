// opentine/repository/_refs.py: the names of refs, and the namespaces of bundles.
module RefNames {
  import opened Basics
  import opened Outcomes

  const NAMESPACES: seq<string> := ["annotations", "coord", "heads", "tags", "experiments", "promotions", "remotes"]

  function RemovePrefix(s: string, prefix: string): string {
    if HasPrefix(s, prefix) then s[|prefix|..] else s
  }

  predicate RefChar(c: char) {
    'a' <= c <= 'z' || '0' <= c <= '9' || c == '.' || c == '_' || c == '/' || c == '-'
  }

  /** Text before the first c, all of it when there is none. */
  function Before(s: string, c: char): (r: string)
    ensures |r| <= |s|
  {
    if s == [] || s[0] == c then [] else [s[0]] + Before(s[1..], c)
  }

  function Parts(s: string): seq<string>
    decreases |s|
  {
    var first := Before(s, '/');
    if |first| == |s| then [first] else [first] + Parts(s[|first| + 1..])
  }

  /** con, prn, aux, nul, com1 to com9 and lpt1 to lpt9 */
  predicate WindowsName(s: string) {
    || s == "con" || s == "prn" || s == "aux" || s == "nul"
    || (|s| == 4 && (s[..3] == "com" || s[..3] == "lpt") && '1' <= s[3] <= '9')
  }

  predicate TwoDots(s: string) {
    |s| >= 2 && ((s[0] == '.' && s[1] == '.') || TwoDots(s[1..]))
  }

  predicate BadPart(part: string) {
    || part == "" || part == "."
    || TwoDots(part)
    || HasSuffix(part, ".lock") || HasSuffix(part, ".")
    || WindowsName(Before(part, '.')) || |part| > 240
  }

  predicate RefChars(s: string) {
    s == [] || (RefChar(s[0]) && RefChars(s[1..]))
  }

  predicate GoodParts(parts: seq<string>) {
    parts == [] || (!BadPart(parts[0]) && GoodParts(parts[1..]))
  }

  /** A name the repository accepts as it stands. */
  predicate IsRef(name: string) {
    var space := Before(name, '/');
    && |space| < |name| && space in NAMESPACES && |space| + 1 < |name| <= 512
    && RefChars(name[|space| + 1..]) && GoodParts(Parts(name))
  }

  function NormalizeRef(name: string): Option<string> {
    var n := RemovePrefix(name, "refs/");
    if IsRef(n) then Some(n) else None
  }

  predicate NameChar(c: char) {
    'a' <= c <= 'z' || '0' <= c <= '9' || c == '.' || c == '_' || c == '-'
  }

  /** [a-z0-9][a-z0-9._-]{0,62} */
  predicate IsNamespace(name: string) {
    && 1 <= |name| <= 63 && ('a' <= name[0] <= 'z' || '0' <= name[0] <= '9')
    && forall i :: 0 <= i < |name| ==> NameChar(name[i])
  }

  // ----- laws -----

  lemma PrefixRemoved(s: string, prefix: string)
    ensures (exists x :: s == prefix + x) <==> HasPrefix(s, prefix)
    ensures forall x :: s == prefix + x <==> HasPrefix(s, prefix) && RemovePrefix(s, prefix) == x
    ensures !HasPrefix(s, prefix) ==> RemovePrefix(s, prefix) == s
  {
    if HasPrefix(s, prefix) {
      assert s == prefix + s[|prefix|..];
    }
    forall x | s == prefix + x
      ensures HasPrefix(s, prefix) && RemovePrefix(s, prefix) == x
    {
      assert s[..|prefix|] == prefix && s[|prefix|..] == x;
    }
  }

  /** What a name means to the repository: a name of a ref as it stands, or after refs/. */
  lemma NormalizeRefIs(name: string, n: string)
    ensures NormalizeRef(name) == Some(n) ==> IsRef(n) && (name == n || name == "refs/" + n)
    ensures IsRef(n) && !HasPrefix(n, "refs/") ==> NormalizeRef(n) == NormalizeRef("refs/" + n) == Some(n)
  {
    PrefixRemoved(name, "refs/");
    PrefixRemoved(n, "refs/");
    PrefixRemoved("refs/" + n, "refs/");
  }

  // ----- which names are refs -----

  /** From a up to b is a part of a path: what stands between two slashes, or an end and one. */
  ghost predicate PartAt(s: string, a: nat, b: nat) {
    && a <= b <= |s| && (a == 0 || s[a - 1] == '/') && (b == |s| || s[b] == '/')
    && forall i :: a <= i < b ==> s[i] != '/'
  }

  /** The names Windows keeps for devices. */
  predicate Device(s: string) {
    s in {"con", "prn", "aux", "nul",
          "com1", "com2", "com3", "com4", "com5", "com6", "com7", "com8", "com9",
          "lpt1", "lpt2", "lpt3", "lpt4", "lpt5", "lpt6", "lpt7", "lpt8", "lpt9"}
  }

  /** A name a file of a ref may have on every system: no device, alone or before a dot, no lock
      file, nothing that points upwards, and short enough. */
  ghost predicate FileName(part: string) {
    && 1 <= |part| <= 240 && part[|part| - 1] != '.'
    && (forall i :: 0 <= i < |part| - 1 ==> part[i] != '.' || part[i + 1] != '.')
    && (forall p :: part != p + ".lock")
    && forall d :: Device(d) ==> part != d && forall x :: part != d + "." + x
  }

  ghost predicate PathChar(c: char) {
    c == '-' || c == '.' || c == '/' || '0' <= c <= '9' || c == '_' || 'a' <= c <= 'z'
  }

  predicate Namespace(space: string) {
    space in ["annotations", "coord", "experiments", "heads", "promotions", "remotes", "tags"]
  }

  /** A namespace, a slash and a path of at most 512 characters in all, whose parts are names of
      files. */
  ghost predicate NamesRef(name: string) {
    && |name| <= 512
    && (exists space, rest ::
          Namespace(space) && rest != "" && (forall c :: c in rest ==> PathChar(c)) && name == space + "/" + rest)
    && forall a: nat, b: nat :: PartAt(name, a, b) ==> FileName(name[a..b])
  }

  lemma {:induction false} BeforeIs(s: string, c: char)
    ensures c !in Before(s, c) && s[..|Before(s, c)|] == Before(s, c)
    ensures forall i :: 0 <= i < |Before(s, c)| ==> s[i] != c
    ensures |Before(s, c)| < |s| ==> s[|Before(s, c)|] == c
  {
    if s != [] && s[0] != c {
      BeforeIs(s[1..], c);
    }
  }

  lemma {:induction false} BeforeAll(s: string, c: char)
    requires c !in s
    ensures Before(s, c) == s
  {
    if s != [] {
      assert s == [s[0]] + s[1..];
      BeforeAll(s[1..], c);
    }
  }

  lemma {:induction false} BeforeFirst(s: string, c: char, t: string)
    requires c !in s
    ensures Before(s + [c] + t, c) == s
  {
    if s != [] {
      assert s == [s[0]] + s[1..];
      BeforeFirst(s[1..], c, t);
      assert (s + [c] + t)[1..] == s[1..] + [c] + t;
    }
  }

  lemma {:induction false} TwoDotsIs(s: string)
    ensures TwoDots(s) <==> exists i :: 0 <= i < |s| - 1 && s[i] == '.' && s[i + 1] == '.'
  {
    if |s| >= 2 {
      var t := s[1..];
      TwoDotsIs(t);
      if TwoDots(t) {
        var i :| 0 <= i < |t| - 1 && t[i] == '.' && t[i + 1] == '.';
        assert s[i + 1] == '.' && s[i + 1 + 1] == '.';
      }
      if i :| 0 <= i < |s| - 1 && s[i] == '.' && s[i + 1] == '.' {
        if i > 0 {
          assert t[i - 1] == '.' && t[i - 1 + 1] == '.';
        }
      }
    }
  }

  lemma {:induction false} RefCharsIs(s: string)
    ensures RefChars(s) <==> forall c :: c in s ==> PathChar(c)
  {
    if s != [] {
      RefCharsIs(s[1..]);
      forall c
        ensures c in s <==> c == s[0] || c in s[1..]
      {
        assert s == [s[0]] + s[1..];
      }
      assert s[0] in s;
    }
  }

  lemma WindowsNameIs(s: string)
    ensures WindowsName(s) <==> Device(s)
  {
    if |s| == 4 {
      assert s == [s[0], s[1], s[2], s[3]] && s[..3] == [s[0], s[1], s[2]];
      if s[..3] == "com" {
        assert s == "com" + [s[3]];
      } else if s[..3] == "lpt" {
        assert s == "lpt" + [s[3]];
      }
    }
  }

  lemma DeviceStem(part: string)
    ensures WindowsName(Before(part, '.')) <==>
            exists d :: Device(d) && (part == d || exists x :: part == d + "." + x)
  {
    var stem := Before(part, '.');
    BeforeIs(part, '.');
    WindowsNameIs(stem);
    if |stem| < |part| {
      assert part == stem + "." + part[|stem| + 1..];
    }
    if d :| Device(d) && (part == d || exists x :: part == d + "." + x) {
      DeviceDotless(d);
      BeforeAll(d, '.');
      if x :| part == d + "." + x {
        BeforeFirst(d, '.', x);
        assert part == d + ['.'] + x;
      }
    }
  }

  lemma DeviceDotless(d: string)
    requires Device(d)
    ensures '.' !in d
  {
  }

  lemma FileNameIs(part: string)
    ensures FileName(part) <==> !BadPart(part)
  {
    hide Device, WindowsName;
    TwoDotsIs(part);
    DeviceStem(part);
    assert HasSuffix(part, ".lock") ==> part == part[..|part| - 5] + ".lock";
    forall p | part == p + ".lock"
      ensures HasSuffix(part, ".lock")
    {
      assert part[|p|..] == ".lock";
    }
    if part != [] {
      assert part[|part| - 1..] == [part[|part| - 1]];
    }
  }

  lemma PartMoves(s: string, n: nat, a: nat, b: nat)
    requires n < |s| && s[n] == '/'
    ensures PartAt(s[n + 1..], a, b) <==> PartAt(s, n + 1 + a, n + 1 + b)
    ensures PartAt(s[n + 1..], a, b) ==> s[n + 1 + a..n + 1 + b] == s[n + 1..][a..b]
  {
    var rest := s[n + 1..];
    if PartAt(s, n + 1 + a, n + 1 + b) {
      forall i | a <= i < b
        ensures rest[i] != '/'
      {
        assert rest[i] == s[n + 1 + i];
      }
    }
    if PartAt(rest, a, b) {
      forall i | n + 1 + a <= i < n + 1 + b
        ensures s[i] != '/'
      {
        assert s[i] == rest[i - (n + 1)];
      }
    }
  }

  /** The parts of a path are what its slashes separate. */
  lemma {:induction false} GoodPartsIs(s: string)
    ensures GoodParts(Parts(s)) <==> forall a: nat, b: nat :: PartAt(s, a, b) ==> FileName(s[a..b])
    decreases |s|
  {
    hide FileName, BadPart;
    var first := Before(s, '/');
    var n := |first|;
    BeforeIs(s, '/');
    FileNameIs(first);
    assert s[0..n] == first;
    assert PartAt(s, 0, n);
    if n == |s| {
      assert GoodParts([first]) == !BadPart(first);
    } else {
      var rest := s[n + 1..];
      GoodPartsIs(rest);
      assert GoodParts(Parts(s)) == (!BadPart(first) && GoodParts(Parts(rest))) by {
        assert ([first] + Parts(rest))[1..] == Parts(rest);
      }
      forall a: nat, b: nat | PartAt(rest, a, b)
        ensures PartAt(s, n + 1 + a, n + 1 + b) && s[n + 1 + a..n + 1 + b] == rest[a..b]
      {
        PartMoves(s, n, a, b);
      }
      forall a: nat, b: nat | PartAt(s, a, b) && a > 0
        ensures a > n && PartAt(rest, a - (n + 1), b - (n + 1)) && s[a..b] == rest[a - (n + 1)..b - (n + 1)]
      {
        assert a > n;
        PartMoves(s, n, a - (n + 1), b - (n + 1));
      }
      forall b: nat | PartAt(s, 0, b)
        ensures b == n
      {
      }
    }
  }

  lemma NamespaceIs(space: string)
    ensures space in NAMESPACES <==> Namespace(space)
    ensures Namespace(space) ==> '/' !in space
  {
  }

  /** The names of refs are exactly those. */
  lemma RefIff(name: string)
    ensures IsRef(name) <==> NamesRef(name)
  {
    hide PartAt, FileName, GoodParts, Parts, RefChars, PathChar, Namespace;
    var space := Before(name, '/');
    BeforeIs(name, '/');
    GoodPartsIs(name);
    NamespaceIs(space);
    if |space| < |name| {
      var rest := name[|space| + 1..];
      RefCharsIs(rest);
      assert name == space + "/" + rest;
    }
    if s, rest :| Namespace(s) && rest != "" && (forall c :: c in rest ==> PathChar(c)) && name == s + "/" + rest {
      NamespaceIs(s);
      BeforeFirst(s, '/', rest);
      assert name == s + ['/'] + rest;
      assert space == s && name[|space| + 1..] == rest;
    }
  }

  lemma SpaceIs(name: string, space: string)
    requires IsRef(name) && Namespace(space)
    ensures Before(name, '/') == space <==> HasPrefix(name, space + "/")
  {
    hide GoodParts, RefChars, Namespace;
    var first := Before(name, '/');
    NamespaceIs(space);
    BeforeIs(name, '/');
    assert name == first + "/" + name[|first| + 1..];
    if HasPrefix(name, space + "/") {
      var rest := name[|space| + 1..];
      BeforeFirst(space, '/', rest);
      assert name == name[..|space| + 1] + rest;
      assert space + "/" == space + ['/'];
    }
  }

  /** The namespace of a bundle: one part of a path that starts with a letter or digit. */
  lemma BundleSpace(name: string)
    ensures IsNamespace(name) <==>
            && name != "" && |name| < 64 && (forall c :: c in name ==> PathChar(c) && c != '/')
            && name[0] != '-' && name[0] != '.' && name[0] != '_'
  {
    forall c | c in name && IsNamespace(name)
      ensures PathChar(c) && c != '/'
    {
      var i :| 0 <= i < |name| && name[i] == c;
      assert NameChar(name[i]);
    }
    if forall c :: c in name ==> PathChar(c) && c != '/' {
      forall i | 0 <= i < |name|
        ensures NameChar(name[i])
      {
        assert name[i] in name;
      }
    }
  }

  /** A name that still stands after refs/ is no ref as it stands. */
  lemma NoRefsSpace(name: string)
    requires HasPrefix(name, "refs/")
    ensures !IsRef(name)
  {
    var rest := name[5..];
    assert name == "refs/" + rest && "refs/" == "refs" + ['/'];
    BeforeFirst("refs", '/', rest);
    assert name == "refs" + ['/'] + rest;
    NamespaceIs("refs");
  }
}
