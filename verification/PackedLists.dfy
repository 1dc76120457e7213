// opentine/_actions_db.py: a list stored as one comma-delimited column, and what a
// LIKE on that column finds.
module PackedLists {
  import opened LikePattern

  /** ",".join */
  function Join(vs: seq<string>): string {
    if vs == [] then "" else if |vs| == 1 then vs[0] else vs[0] + "," + Join(vs[1..])
  }

  function NoComma(v: string): (r: string)
    ensures |r| == |v| && ',' !in r
    ensures ',' !in v ==> r == v
  {
    seq(|v|, i requires 0 <= i < |v| => if v[i] == ',' then ' ' else v[i])
  }

  function NoCommas(vs: seq<string>): (r: seq<string>)
    ensures |r| == |vs| && forall i :: 0 <= i < |r| ==> r[i] == NoComma(vs[i])
  {
    seq(|vs|, i requires 0 <= i < |vs| => NoComma(vs[i]))
  }

  /** _packed: ",a,b," */
  function Packed(vs: seq<string>): string {
    "," + Join(NoCommas(vs)) + ","
  }

  function FirstPart(s: string): (p: string)
    ensures |p| <= |s| && ',' !in p && p == s[..|p|]
    ensures |p| < |s| ==> s[|p|] == ','
  {
    if s == [] || s[0] == ',' then [] else [s[0]] + FirstPart(s[1..])
  }

  /** str.split(",") */
  function Split(s: string): (parts: seq<string>)
    ensures parts != [] && forall p :: p in parts ==> ',' !in p
    decreases |s|
  {
    var p := FirstPart(s);
    if |p| == |s| then [p] else [p] + Split(s[|p| + 1..])
  }

  function NonEmpty(vs: seq<string>): seq<string> {
    if vs == [] then [] else (if vs[0] == [] then [] else [vs[0]]) + NonEmpty(vs[1..])
  }

  /** What rows() reads back from a packed column. */
  function Unpacked(s: string): seq<string> {
    NonEmpty(Split(s))
  }

  lemma {:induction false} FirstPartOf(v: string, rest: string)
    requires ',' !in v
    ensures FirstPart(v + "," + rest) == v && FirstPart(v) == v
  {
    if v == [] {
      assert (v + "," + rest)[0] == ',';
    } else {
      assert v[0] in v && forall c :: c in v[1..] ==> c in v;
      assert (v + "," + rest)[1..] == v[1..] + "," + rest;
      FirstPartOf(v[1..], rest);
      assert v == [v[0]] + v[1..];
    }
  }

  lemma SplitCons(v: string, rest: string)
    requires ',' !in v
    ensures Split(v + "," + rest) == [v] + Split(rest)
  {
    FirstPartOf(v, rest);
    assert (v + "," + rest)[|v| + 1..] == rest;
  }

  /** Splitting inverts joining, for elements without commas. */
  lemma {:induction false} SplitJoin(vs: seq<string>)
    requires vs != [] && forall v :: v in vs ==> ',' !in v
    ensures Split(Join(vs)) == vs
  {
    assert vs[0] in vs;
    if |vs| == 1 {
      FirstPartOf(vs[0], "");
      assert vs == [vs[0]];
    } else {
      assert forall v :: v in vs[1..] ==> v in vs;
      SplitJoin(vs[1..]);
      SplitCons(vs[0], Join(vs[1..]));
      assert vs == [vs[0]] + vs[1..];
    }
  }

  /** Joining inverts splitting, for every text. */
  lemma {:induction false} JoinSplit(s: string)
    ensures Join(Split(s)) == s
    decreases |s|
  {
    hide Join, Split;
    var p := FirstPart(s);
    if |p| < |s| {
      var rest := s[|p| + 1..];
      JoinSplit(rest);
      SplitAtComma(s);
      JoinCons(p, Split(rest));
    } else {
      JoinOnePart(s);
    }
  }

  lemma SplitAtComma(s: string)
    requires |FirstPart(s)| < |s|
    ensures var p := FirstPart(s); Split(s) == [p] + Split(s[|p| + 1..]) && s == p + "," + s[|p| + 1..]
  {
    CutAt(s, |FirstPart(s)|);
  }

  lemma CutAt(s: string, k: nat)
    requires k < |s|
    ensures s == s[..k] + [s[k]] + s[k + 1..]
  {
  }

  lemma JoinOnePart(s: string)
    requires |FirstPart(s)| == |s|
    ensures Join(Split(s)) == s
  {
  }

  lemma JoinCons(p: string, parts: seq<string>)
    requires parts != []
    ensures Join([p] + parts) == p + "," + Join(parts)
  {
    assert ([p] + parts)[1..] == parts;
  }

  lemma {:induction false} JoinLast(vs: seq<string>, v: string)
    ensures Join(vs + [v]) == if vs == [] then v else Join(vs) + "," + v
  {
    if vs == [] {
      assert vs + [v] == [v];
    } else {
      assert (vs + [v])[1..] == vs[1..] + [v] && (vs + [v])[0] == vs[0];
      JoinLast(vs[1..], v);
      if |vs| > 1 {
        assert vs[0] + "," + (Join(vs[1..]) + "," + v) == vs[0] + "," + Join(vs[1..]) + "," + v;
      }
    }
  }

  lemma {:induction false} NonEmptyParts(a: seq<string>, b: seq<string>)
    ensures NonEmpty(a + b) == NonEmpty(a) + NonEmpty(b)
  {
    if a == [] {
      assert a + b == b;
    } else {
      assert (a + b)[1..] == a[1..] + b;
      NonEmptyParts(a[1..], b);
    }
  }

  /** A packed column reads back as its elements, commas as spaces, empty ones dropped. */
  lemma UnpackPacked(vs: seq<string>)
    ensures Unpacked(Packed(vs)) == NonEmpty(NoCommas(vs))
  {
    var clean := NoCommas(vs);
    var padded := [""] + clean + [""];
    if vs == [] {
      assert Packed(vs) == "" + "," + ("" + "," + "");
      SplitCons("", "" + "," + "");
      SplitCons("", "");
      assert Split(Packed(vs)) == [""] + ([""] + [""]);
      NonEmptyParts([""], [""] + [""]);
      NonEmptyParts([""], [""]);
      assert [""][1..] == [];
    } else {
      JoinLast([""] + clean, "");
      assert Join([""] + clean) == "," + Join(clean) by {
        assert ([""] + clean)[1..] == clean;
      }
      assert Join(padded) == Packed(vs);
      SplitJoin(padded);
      NonEmptyParts([""] + clean, [""]);
      NonEmptyParts([""], clean);
      assert NonEmpty([""]) == [] by { assert [""][1..] == []; }
      assert [] + NonEmpty(clean) + [] == NonEmpty(clean);
    }
  }

  // ----- membership -----

  /** Each element followed by a comma. */
  function Ended(vs: seq<string>): string {
    if vs == [] then "" else vs[0] + "," + Ended(vs[1..])
  }

  lemma {:induction false} JoinEnded(vs: seq<string>)
    requires vs != []
    ensures Join(vs) + "," == Ended(vs)
  {
    if |vs| == 1 {
      assert vs[1..] == [];
    } else {
      JoinEnded(vs[1..]);
      assert vs[0] + "," + Join(vs[1..]) + "," == vs[0] + "," + (Join(vs[1..]) + ",");
    }
  }

  lemma LowerComma(s: string)
    ensures ',' in Lower(s) <==> ',' in s
  {
    forall i | 0 <= i < |s|
      ensures Lower(s)[i] == ',' <==> s[i] == ','
    {
    }
    if ',' in s {
      var i :| 0 <= i < |s| && s[i] == ',';
      assert Lower(s)[i] == ',';
    }
  }

  /** ",l," occurs in ",a,b,...," exactly where an element is l. */
  lemma {:induction false} OccursIffMember(l: string, vs: seq<string>)
    requires ',' !in l && forall v :: v in vs ==> ',' !in v
    ensures Contains("," + Ended(vs), "," + l + ",") <==> l in vs
  {
    var t, needle := "," + Ended(vs), "," + l + ",";
    if vs == [] {
      assert |t| < |needle|;
    } else {
      var v, rest := vs[0], vs[1..];
      assert v in vs && forall x :: x in rest ==> x in vs;
      OccursIffMember(l, rest);
      var tail, n := "," + Ended(rest), 1 + |v|;
      assert t == "," + v + tail;
      assert l in vs <==> l == v || l in rest;
      forall k | 0 <= k <= |t|
        ensures ContainsAt(t, needle, k) <==> (k == 0 && l == v) || (k >= n && ContainsAt(tail, needle, k - n))
      {
        OccursAt(l, v, Ended(rest), k);
      }
      if k :| 0 <= k <= |tail| && ContainsAt(tail, needle, k) {
        assert ContainsAt(t, needle, k + n);
      }
      if l == v {
        assert ContainsAt(t, needle, 0);
      }
    }
  }

  lemma OccursAt(l: string, v: string, rest: string, k: nat)
    requires ',' !in l && ',' !in v
    ensures var t, tail, needle, n := "," + v + ("," + rest), "," + rest, "," + l + ",", 1 + |v|;
            ContainsAt(t, needle, k) <==> (k == 0 && l == v) || (k >= n && ContainsAt(tail, needle, k - n))
  {
    var t, tail, needle, n := "," + v + ("," + rest), "," + rest, "," + l + ",", 1 + |v|;
    if k == 0 {
      AtFront(l, v, rest);
    } else if k < n {
      assert t[k] == v[k - 1] && v[k - 1] in v && needle[0] == ',';
      StartsWithItsFirst(t, needle, k);
    } else if k + |needle| <= |t| {
      assert t[k..k + |needle|] == tail[k - n..k - n + |needle|];
    }
  }

  lemma StartsWithItsFirst(t: string, needle: string, k: nat)
    requires needle != []
    ensures ContainsAt(t, needle, k) ==> t[k] == needle[0]
  {
    if ContainsAt(t, needle, k) {
      assert t[k..k + |needle|][0] == t[k];
    }
  }

  lemma AtFront(l: string, v: string, rest: string)
    requires ',' !in l && ',' !in v
    ensures ContainsAt("," + v + ("," + rest), "," + l + ",", 0) <==> l == v
  {
    var t, needle := "," + v + ("," + rest), "," + l + ",";
    if ContainsAt(t, needle, 0) {
      FrontRest(t, l);
      assert t[1..] == v + "," + rest;
      SameFront(l, t[|needle|..], v, rest);
    }
    if l == v {
      assert t[0..|needle|] == needle;
    }
  }

  lemma FrontRest(t: string, l: string)
    requires ContainsAt(t, "," + l + ",", 0)
    ensures |l| + 2 <= |t| && t[1..] == l + "," + t[|l| + 2..]
  {
    var needle := "," + l + ",";
    assert t[0..|needle|] == needle;
    assert t == needle + t[|needle|..];
  }

  /** What stands before the first comma is determined. */
  lemma SameFront(a: string, r: string, b: string, s: string)
    requires ',' !in a && ',' !in b && a + "," + r == b + "," + s
    ensures a == b
  {
    FirstPartOf(a, r);
    FirstPartOf(b, s);
  }

  /** Elements compared in any case. */
  predicate HasElement(vs: seq<string>, l: string) {
    exists v :: v in vs && Lower(v) == Lower(l)
  }

  function LowerEach(vs: seq<string>): (r: seq<string>)
    ensures |r| == |vs| && forall i :: 0 <= i < |r| ==> r[i] == Lower(vs[i])
  {
    seq(|vs|, i requires 0 <= i < |vs| => Lower(vs[i]))
  }

  lemma {:induction false} LowerEnded(vs: seq<string>)
    ensures Lower(Ended(vs)) == Ended(LowerEach(vs))
  {
    if vs == [] {
      assert LowerEach(vs) == [];
    } else {
      LowerEnded(vs[1..]);
      assert LowerEach(vs)[1..] == LowerEach(vs[1..]);
      LowerParts(vs[0] + ",", Ended(vs[1..]));
      LowerParts(vs[0], ",");
      assert Lower(",") == ",";
    }
  }

  /** The LIKE of a program or verb filter on a packed column: exactly list membership,
      for a value without commas. */
  lemma PackedMembership(vs: seq<string>, l: string)
    requires l != [] && ',' !in l
    ensures Like(LikeOf("," + l + ","), Lower(Packed(vs))) <==> HasElement(NoCommas(vs), l)
  {
    var clean := NoCommas(vs);
    var lowered := LowerEach(clean);
    LikeIsSubstring("," + l + ",", Lower(Packed(vs)));
    LowerTwice(Packed(vs));
    LowerParts("," + l, ",");
    LowerParts(",", l);
    assert Lower(",") == ",";
    LowerComma(l);
    forall v | v in lowered
      ensures ',' !in v
    {
      var i :| 0 <= i < |lowered| && lowered[i] == v;
      LowerComma(clean[i]);
    }
    if vs == [] {
      assert Packed(vs) == ",,";
      assert Lower(",,") == ",,";
      assert |",,"| < |"," + Lower(l) + ","|;
    } else {
      JoinEnded(clean);
      assert Packed(vs) == "," + Ended(clean);
      LowerParts(",", Ended(clean));
      LowerEnded(clean);
      OccursIffMember(Lower(l), lowered);
      if v :| v in clean && Lower(v) == Lower(l) {
        var i :| 0 <= i < |clean| && clean[i] == v;
        assert lowered[i] == Lower(l);
      }
      if Lower(l) in lowered {
        var i :| 0 <= i < |lowered| && lowered[i] == Lower(l);
        assert clean[i] in clean;
      }
    }
  }

  lemma LowerTwice(s: string)
    ensures Lower(Lower(s)) == Lower(s)
  {
  }

  /** A value with a comma is no element of any packed list, yet the LIKE finds it across
      neighbouring elements: membership holds for every list exactly when it has none. */
  lemma MembershipIff(l: string)
    requires l != []
    ensures (forall vs :: Like(LikeOf("," + l + ","), Lower(Packed(vs))) <==> HasElement(NoCommas(vs), l)) <==>
        ',' !in l
  {
    if ',' in l {
      var vs := Split(l);
      assert NoCommas(vs) == vs;
      JoinSplit(l);
      var needle := "," + l + ",";
      assert Packed(vs) == needle;
      LikeIsSubstring(needle, Lower(needle));
      LowerTwice(needle);
      assert ContainsAt(Lower(needle), Lower(needle), 0);
      LowerComma(l);
      forall v | v in vs
        ensures Lower(v) != Lower(l)
      {
        LowerComma(v);
      }
      assert !HasElement(NoCommas(vs), l);
    } else {
      forall vs
        ensures Like(LikeOf("," + l + ","), Lower(Packed(vs))) <==> HasElement(NoCommas(vs), l)
      {
        PackedMembership(vs, l);
      }
    }
  }
}
