// opentine/_actions_db.py: ORDER BY source, seq over the stored rows.
module IndexOrder {
  import opened IndexTables
  import opened TextOrder

  /** A stored row under its source. */
  datatype Listed = Listed(source: string, cells: Cells)

  predicate Before(x: Listed, y: Listed) {
    Below(x.source, y.source) || (x.source == y.source && x.cells.order < y.cells.order)
  }

  predicate SameRank(x: Listed, y: Listed) {
    x.source == y.source && x.cells.order == y.cells.order
  }

  lemma BeforeOrder(x: Listed, y: Listed)
    ensures !(Before(x, y) && Before(y, x)) && (Before(x, y) || Before(y, x) || SameRank(x, y))
    ensures SameRank(x, y) ==> !Before(x, y)
  {
    BelowOrder(x.source, y.source);
    NotBelowItself(x.source);
  }

  lemma BeforeTransitive(x: Listed, y: Listed, z: Listed)
    requires Before(x, y) && Before(y, z)
    ensures Before(x, z)
  {
    if Below(x.source, y.source) && Below(y.source, z.source) {
      BelowTransitive(x.source, y.source, z.source);
    }
  }

  // ----- SELECT ... WHERE ... ORDER BY -----

  predicate Ascends(r: seq<Listed>) {
    forall i, j :: 0 <= i < j < |r| ==> Before(r[i], r[j])
  }

  predicate Distinct(r: seq<Listed>) {
    forall i, j :: 0 <= i < j < |r| ==> !SameRank(r[i], r[j])
  }

  function Place(r: seq<Listed>, x: Listed): seq<Listed> {
    if r == [] then [x] else if Before(x, r[0]) then [x] + r else [r[0]] + Place(r[1..], x)
  }

  function OrderBy(all: seq<Listed>, keep: Listed -> bool): seq<Listed> {
    if all == [] then []
    else
      var rest, last := OrderBy(all[..|all| - 1], keep), all[|all| - 1];
      if keep(last) then Place(rest, last) else rest
  }

  lemma {:induction false} PlaceKeeps(r: seq<Listed>, x: Listed)
    requires Ascends(r) && forall y :: y in r ==> !SameRank(x, y)
    ensures Ascends(Place(r, x)) && forall y :: y in Place(r, x) <==> y == x || y in r
  {
    if r != [] {
      assert r[0] in r;
      BeforeOrder(x, r[0]);
      if Before(x, r[0]) {
        forall j | 0 <= j < |r|
          ensures Before(x, r[j])
        {
          if j > 0 {
            BeforeTransitive(x, r[0], r[j]);
          }
        }
      } else {
        var rest := r[1..];
        assert forall y :: y in r <==> y == r[0] || y in rest;
        PlaceKeeps(rest, x);
        var placed := Place(rest, x);
        forall j | 0 <= j < |placed|
          ensures Before(r[0], placed[j])
        {
          assert placed[j] in placed;
        }
      }
    }
  }

  lemma {:induction false} OrderByAnswers(all: seq<Listed>, keep: Listed -> bool)
    requires Distinct(all)
    ensures Ascends(OrderBy(all, keep)) && forall x :: x in OrderBy(all, keep) <==> x in all && keep(x)
  {
    if all != [] {
      var before, last := all[..|all| - 1], all[|all| - 1];
      OrderByAnswers(before, keep);
      assert forall x :: x in all <==> x == last || x in before;
      forall y | y in before
        ensures !SameRank(last, y)
      {
        var i :| 0 <= i < |before| && before[i] == y;
        assert !SameRank(all[i], all[|all| - 1]);
      }
      PlaceKeeps(OrderBy(before, keep), last);
    }
  }

  /** Rows in ascending order are determined by which rows they are: no answer to the
      statement depends on rowids or on how the tables came about. */
  lemma {:induction false} OneAnswer(r: seq<Listed>, s: seq<Listed>)
    requires Ascends(r) && Ascends(s) && forall x :: x in r <==> x in s
    ensures r == s
  {
    BothEmpty(r, s);
    if r != [] {
      assert r[0] in r && s[0] in s;
      SameHead(r, s);
      forall x
        ensures x in r[1..] <==> x in s[1..]
      {
        TailOnly(r, x);
        TailOnly(s, x);
      }
      OneAnswer(r[1..], s[1..]);
      assert r == [r[0]] + r[1..] && s == [s[0]] + s[1..];
    }
  }

  lemma BothEmpty(r: seq<Listed>, s: seq<Listed>)
    requires forall x :: x in r <==> x in s
    ensures r == [] <==> s == []
  {
    if r != [] {
      assert r[0] in r;
    }
    if s != [] {
      assert s[0] in s;
    }
  }

  lemma SameHead(r: seq<Listed>, s: seq<Listed>)
    requires Ascends(r) && Ascends(s) && r != [] && s != [] && r[0] in s && s[0] in r
    ensures r[0] == s[0]
  {
    var i :| 0 <= i < |s| && s[i] == r[0];
    var j :| 0 <= j < |r| && r[j] == s[0];
    BeforeOrder(r[0], s[0]);
  }

  lemma TailOnly(r: seq<Listed>, x: Listed)
    requires Ascends(r) && r != []
    ensures x in r[1..] <==> x in r && x != r[0]
  {
    BeforeOrder(x, x);
    if x in r[1..] {
      var i :| 0 <= i < |r[1..]| && r[1..][i] == x;
      assert Before(r[0], r[i + 1]);
    }
  }
}
