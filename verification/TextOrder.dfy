// The order of texts by their characters, as SQLite's BINARY collation and Python's str have it.
module TextOrder {
  predicate Below(a: string, b: string) {
    b != [] && (a == [] || a[0] < b[0] || (a[0] == b[0] && Below(a[1..], b[1..])))
  }

  /** One text is below another when it is a proper beginning of it, or has the lesser character
      where they first differ. */
  lemma {:induction false} BelowIs(a: string, b: string)
    ensures Below(a, b) <==>
              || (|a| < |b| && a == b[..|a|])
              || exists i :: 0 <= i < |a| && i < |b| && a[..i] == b[..i] && a[i] < b[i]
  {
    if a != [] && b != [] {
      var p, q := a[1..], b[1..];
      BelowIs(p, q);
      if a[0] == b[0] {
        if |a| < |b| && a == b[..|a|] {
          assert p == q[..|p|];
        }
        if |p| < |q| && p == q[..|p|] {
          assert a == [a[0]] + p && b[..|a|] == [b[0]] + q[..|p|];
        }
        if i :| 0 <= i < |a| && i < |b| && a[..i] == b[..i] && a[i] < b[i] {
          assert i > 0 && p[..i - 1] == a[..i][1..] && q[..i - 1] == b[..i][1..] && p[i - 1] < q[i - 1];
        }
        if i :| 0 <= i < |p| && i < |q| && p[..i] == q[..i] && p[i] < q[i] {
          assert a[..i + 1] == [a[0]] + p[..i] && b[..i + 1] == [b[0]] + q[..i];
        }
      } else {
        assert a[..0] == b[..0];
        assert forall i :: 0 < i < |a| && i < |b| && a[..i] == b[..i] ==> a[..i][0] == b[..i][0];
      }
    }
  }

  lemma {:induction false} NotBelowItself(a: string)
    ensures !Below(a, a)
  {
    if a != [] {
      NotBelowItself(a[1..]);
    }
  }

  lemma {:induction false} BelowOrder(a: string, b: string)
    ensures !(Below(a, b) && Below(b, a)) && (Below(a, b) || Below(b, a) || a == b)
    decreases |a| + |b|
  {
    if a != [] && b != [] && a[0] == b[0] {
      BelowOrder(a[1..], b[1..]);
      assert a == [a[0]] + a[1..] && b == [b[0]] + b[1..];
    }
  }

  lemma {:induction false} BelowTransitive(a: string, b: string, c: string)
    requires Below(a, b) && Below(b, c)
    ensures Below(a, c)
  {
    if a != [] && a[0] == b[0] == c[0] {
      BelowTransitive(a[1..], b[1..], c[1..]);
    }
  }
}
