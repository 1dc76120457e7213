// opentine/_cli_bisect.py: which recorded score decides a run.
module BisectScores {
  import opened Basics
  import opened Outcomes
  import opened TextOrder

  const MAX_UNSIGNED_SCORE := 1000000.0
  const MAX_ATTESTATIONS := 1000

  /** An attestation of a run: whether it claims an evaluation, whether it is signed, and its
      finite scores by name. */
  datatype Attestation = Attestation(oid: string, evaluation: bool, signed: bool, scores: map<string, real>)

  /** A score as it was chosen. */
  datatype Choice = Choice(signed: bool, oid: string, score: real)

  // ----- what decides -----

  function Magnitude(x: real): real {
    if x < 0.0 then -x else x
  }

  /** Whether an attestation may score a name at all. */
  predicate Admits(a: Attestation, name: string, signedOnly: bool) {
    a.evaluation && name in a.scores &&
    (a.signed || (!signedOnly && Magnitude(a.scores[name]) <= MAX_UNSIGNED_SCORE))
  }

  lemma AdmitsIs(a: Attestation, name: string, signedOnly: bool)
    ensures Admits(a, name, signedOnly) <==>
            && a.evaluation && name in a.scores
            && (!a.signed ==> !signedOnly && -1000000.0 <= a.scores[name] <= 1000000.0)
  {
  }

  function AsChoice(a: Attestation, name: string): Choice
    requires name in a.scores
  {
    Choice(a.signed, a.oid, a.scores[name])
  }

  function Smaller(written: seq<Attestation>, oid: string): set<Attestation> {
    set x | x in written && Below(x.oid, oid)
  }

  /** One of the thousand attestations with the smallest ids. */
  predicate Read(written: seq<Attestation>, a: Attestation) {
    a in written && |Smaller(written, a.oid)| < MAX_ATTESTATIONS
  }

  /** Signed before unsigned, and among equals the smaller id. */
  predicate Outranks(a: Attestation, b: Attestation) {
    if a.signed != b.signed then a.signed else Below(a.oid, b.oid)
  }

  /** The choice for a name: the attestation read that may score it and outranks all others
      that may. */
  ghost predicate Decides(written: seq<Attestation>, name: string, signedOnly: bool, choice: Option<Choice>) {
    match choice
    case None => forall a :: Read(written, a) ==> !Admits(a, name, signedOnly)
    case Some(c) => exists a :: Winner(written, name, signedOnly, a) && c == AsChoice(a, name)
  }

  ghost predicate Winner(written: seq<Attestation>, name: string, signedOnly: bool, a: Attestation) {
    && Read(written, a) && Admits(a, name, signedOnly)
    && forall b :: Read(written, b) && Admits(b, name, signedOnly) && b != a ==> Outranks(a, b)
  }

  lemma SameRead(a: seq<Attestation>, b: seq<Attestation>, x: Attestation)
    requires forall y :: y in a <==> y in b
    ensures Read(a, x) <==> Read(b, x)
  {
    assert Smaller(a, x.oid) == Smaller(b, x.oid);
  }

  lemma NotBoth(a: Attestation, b: Attestation)
    ensures !(Outranks(a, b) && Outranks(b, a))
  {
    BelowOrder(a.oid, b.oid);
  }

  /** A name has one decision, whatever order the attestations were written in. */
  lemma OneDecision(a: seq<Attestation>, b: seq<Attestation>, name: string, signedOnly: bool, c: Option<Choice>,
                    d: Option<Choice>)
    requires forall x :: x in a <==> x in b
    requires Decides(a, name, signedOnly, c) && Decides(b, name, signedOnly, d)
    ensures c == d
  {
    forall x
      ensures Read(a, x) <==> Read(b, x)
    {
      SameRead(a, b, x);
    }
    if c.Some? && d.Some? {
      var x :| Winner(a, name, signedOnly, x) && c.value == AsChoice(x, name);
      var y :| Winner(b, name, signedOnly, y) && d.value == AsChoice(y, name);
      NotBoth(x, y);
    }
  }

  // ----- sorted by id -----

  predicate DistinctIds(written: seq<Attestation>) {
    forall i, j :: 0 <= i < j < |written| ==> written[i].oid != written[j].oid
  }

  predicate Ascends(s: seq<Attestation>) {
    forall i, j :: 0 <= i < j < |s| ==> Below(s[i].oid, s[j].oid)
  }

  function Place(s: seq<Attestation>, a: Attestation): seq<Attestation> {
    if s == [] then [a] else if Below(a.oid, s[0].oid) then [a] + s else [s[0]] + Place(s[1..], a)
  }

  /** sorted() */
  function Sorted(written: seq<Attestation>): seq<Attestation> {
    if written == [] then [] else Place(Sorted(written[..|written| - 1]), written[|written| - 1])
  }

  lemma {:induction false} PlaceKeeps(s: seq<Attestation>, a: Attestation)
    requires Ascends(s) && forall x :: x in s ==> x.oid != a.oid
    ensures Ascends(Place(s, a)) && forall x :: x in Place(s, a) <==> x == a || x in s
  {
    if s != [] {
      assert s[0] in s;
      BelowOrder(a.oid, s[0].oid);
      if Below(a.oid, s[0].oid) {
        forall j | 0 <= j < |s|
          ensures Below(a.oid, s[j].oid)
        {
          if j > 0 {
            BelowTransitive(a.oid, s[0].oid, s[j].oid);
          }
        }
      } else {
        var rest := s[1..];
        assert forall x :: x in s <==> x == s[0] || x in rest;
        PlaceKeeps(rest, a);
        var placed := Place(rest, a);
        forall j | 0 <= j < |placed|
          ensures Below(s[0].oid, placed[j].oid)
        {
          assert placed[j] in placed;
        }
      }
    }
  }

  lemma {:induction false} SortedAscends(written: seq<Attestation>)
    requires DistinctIds(written)
    ensures Ascends(Sorted(written)) && forall x :: x in Sorted(written) <==> x in written
  {
    if written != [] {
      var before, last := written[..|written| - 1], written[|written| - 1];
      SortedAscends(before);
      assert forall x :: x in written <==> x == last || x in before;
      forall x | x in before
        ensures x.oid != last.oid
      {
        var i :| 0 <= i < |before| && before[i] == x;
        assert written[i].oid != written[|written| - 1].oid;
      }
      PlaceKeeps(Sorted(before), last);
    }
  }

  function Elements(s: seq<Attestation>): set<Attestation> {
    set x | x in s
  }

  lemma NotYet(s: seq<Attestation>, n: nat)
    requires n < |s| && Ascends(s)
    ensures s[n] !in s[..n]
  {
    NotBelowItself(s[n].oid);
  }

  lemma {:induction false} FirstCount(s: seq<Attestation>, n: nat)
    requires n <= |s| && Ascends(s)
    ensures |Elements(s[..n])| == n
  {
    hide Elements, Ascends;
    if n == 0 {
      NoElements(s[..0]);
    } else {
      FirstCount(s, n - 1);
      NotYet(s, n - 1);
      assert s[..n] == s[..n - 1] + [s[n - 1]];
      ElementAdded(s[..n - 1], s[n - 1]);
    }
  }

  lemma NoElements(s: seq<Attestation>)
    requires s == []
    ensures |Elements(s)| == 0
  {
  }

  lemma ElementAdded(s: seq<Attestation>, a: Attestation)
    requires a !in s
    ensures |Elements(s + [a])| == |Elements(s)| + 1
  {
    assert Elements(s + [a]) == Elements(s) + {a};
  }

  /** In ascending order an attestation's place is how many have smaller ids. */
  lemma PlaceIsRank(s: seq<Attestation>, i: nat)
    requires i < |s| && Ascends(s)
    ensures |Smaller(s, s[i].oid)| == i
  {
    FirstCount(s, i);
    forall x
      ensures x in Smaller(s, s[i].oid) <==> x in Elements(s[..i])
    {
      if x in Smaller(s, s[i].oid) {
        var j :| 0 <= j < |s| && s[j] == x;
        NotBelowItself(x.oid);
        BelowOrder(s[i].oid, x.oid);
        assert j < i;
        assert s[..i][j] == x;
      }
    }
    assert Smaller(s, s[i].oid) == Elements(s[..i]);
  }

  // ----- the loop -----

  /** The choice among the first n of an ascending list: the first signed one that scores the
      name, or else the first that may. */
  ghost predicate Chosen(s: seq<Attestation>, n: nat, name: string, signedOnly: bool, choice: Option<Choice>)
    requires n <= |s|
  {
    match choice
    case None => forall i :: 0 <= i < n ==> !Admits(s[i], name, signedOnly)
    case Some(c) => exists i: nat :: FirstOf(s, n, name, signedOnly, i) && c == AsChoice(s[i], name)
  }

  predicate FirstOf(s: seq<Attestation>, n: nat, name: string, signedOnly: bool, i: nat)
    requires n <= |s|
  {
    && i < n && Admits(s[i], name, signedOnly)
    && forall j :: 0 <= j < n && j != i && Admits(s[j], name, signedOnly) ==>
         if s[i].signed != s[j].signed then s[i].signed else i < j
  }

  /** One name of one attestation. */
  function Considered(chosen: map<string, Choice>, a: Attestation, name: string, signedOnly: bool)
    : map<string, Choice>
  {
    if Admits(a, name, signedOnly) && (name !in chosen || (a.signed && !chosen[name].signed))
    then chosen[name := AsChoice(a, name)] else chosen
  }

  lemma ConsideredChosen(s: seq<Attestation>, n: nat, name: string, signedOnly: bool, chosen: map<string, Choice>)
    requires n < |s| && Chosen(s, n, name, signedOnly, Lookup(chosen, name))
    ensures Chosen(s, n + 1, name, signedOnly, Lookup(Considered(chosen, s[n], name, signedOnly), name))
  {
    var a := s[n];
    if name in chosen {
      var i: nat :| FirstOf(s, n, name, signedOnly, i) && chosen[name] == AsChoice(s[i], name);
      if Admits(a, name, signedOnly) && a.signed && !chosen[name].signed {
        assert FirstOf(s, n + 1, name, signedOnly, n);
      } else {
        assert FirstOf(s, n + 1, name, signedOnly, i);
      }
    } else if Admits(a, name, signedOnly) {
      assert FirstOf(s, n + 1, name, signedOnly, n);
    }
  }

  /** What an attestation at a place below n is: read. */
  lemma ReadAt(written: seq<Attestation>, s: seq<Attestation>, n: nat)
    requires Ascends(s) && (forall x :: x in s <==> x in written)
    requires n == if |s| < MAX_ATTESTATIONS then |s| else MAX_ATTESTATIONS
    ensures forall i :: 0 <= i < n ==> Read(written, s[i])
    ensures forall a :: Read(written, a) ==> exists i :: 0 <= i < n && s[i] == a
  {
    forall i | 0 <= i < n
      ensures Read(written, s[i])
    {
      PlaceIsRank(s, i);
      SameRead(s, written, s[i]);
    }
    forall a | Read(written, a)
      ensures exists i :: 0 <= i < n && s[i] == a
    {
      var i :| 0 <= i < |s| && s[i] == a;
      PlaceIsRank(s, i);
      SameRead(s, written, a);
    }
  }

  lemma ChosenDecides(written: seq<Attestation>, s: seq<Attestation>, n: nat, name: string, signedOnly: bool,
                      choice: Option<Choice>)
    requires Ascends(s) && (forall x :: x in s <==> x in written)
    requires n == if |s| < MAX_ATTESTATIONS then |s| else MAX_ATTESTATIONS
    requires Chosen(s, n, name, signedOnly, choice)
    ensures Decides(written, name, signedOnly, choice)
  {
    ReadAt(written, s, n);
    if choice.Some? {
      var i: nat :| FirstOf(s, n, name, signedOnly, i) && choice.value == AsChoice(s[i], name);
      forall b | Read(written, b) && Admits(b, name, signedOnly) && b != s[i]
        ensures Outranks(s[i], b)
      {
        var j :| 0 <= j < n && s[j] == b;
        assert if s[i].signed != s[j].signed then s[i].signed else i < j;
      }
      assert Winner(written, name, signedOnly, s[i]);
    }
  }

  /** _scores(): for every name the one attestation that decides it. */
  method Scores(written: seq<Attestation>, signedOnly: bool) returns (chosen: map<string, Choice>)
    requires DistinctIds(written)
    ensures forall name :: Decides(written, name, signedOnly, Lookup(chosen, name))
  {
    SortedAscends(written);
    var sorted := Sorted(written);
    var end := if |sorted| < MAX_ATTESTATIONS then |sorted| else MAX_ATTESTATIONS;
    chosen := map[];
    for n := 0 to end
      invariant forall name :: Chosen(sorted, n, name, signedOnly, Lookup(chosen, name))
    {
      ghost var before := chosen;
      chosen := Consider(chosen, sorted[n], signedOnly);
      forall name
        ensures Chosen(sorted, n + 1, name, signedOnly, Lookup(chosen, name))
      {
        ConsideredChosen(sorted, n, name, signedOnly, before);
      }
    }
    forall name
      ensures Decides(written, name, signedOnly, Lookup(chosen, name))
    {
      ChosenDecides(written, sorted, end, name, signedOnly, Lookup(chosen, name));
    }
  }

  /** One attestation: each of its scores may be the choice for its name. */
  method Consider(before: map<string, Choice>, a: Attestation, signedOnly: bool) returns (chosen: map<string, Choice>)
    ensures forall name :: Lookup(chosen, name) == Lookup(Considered(before, a, name, signedOnly), name)
  {
    chosen := before;
    if !a.evaluation || (signedOnly && !a.signed) {
      return;
    }
    var todo := a.scores.Keys;
    while todo != {}
      invariant todo <= a.scores.Keys
      invariant forall name ::
        Lookup(chosen, name) == Lookup(if name in a.scores && name !in todo then Considered(before, a, name, signedOnly)
                                       else before, name)
      decreases todo
    {
      var name :| name in todo;
      todo := todo - {name};
      var score := a.scores[name];
      if a.signed || Magnitude(score) <= MAX_UNSIGNED_SCORE {
        if name !in chosen || (a.signed && !chosen[name].signed) {
          chosen := chosen[name := Choice(a.signed, a.oid, score)];
        }
      }
    }
  }
}
