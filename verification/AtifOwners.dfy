// opentine/_atif_export.py: which trajectory each step of a run belongs to.
module AtifOwners {
  import opened Outcomes
  import opened AtifUsage

  /** A step; `parent` is the first of its parents. */
  datatype Step = Step(id: string, parent: Option<string>, kind: Kind, usage: Usage)

  /** Ids name steps, and none is the empty text, which stands for the root agent. */
  predicate WellNamed(steps: seq<Step>) {
    && (forall i :: 0 <= i < |steps| ==> steps[i].id != "")
    && (forall i, j :: 0 <= i < j < |steps| ==> steps[i].id != steps[j].id)
  }

  predicate At(steps: seq<Step>, id: string, i: nat) {
    i < |steps| && steps[i].id == id
  }

  /** A run's step order puts parents before their children. */
  predicate ParentsFirst(steps: seq<Step>) {
    forall i, j :: 0 <= i < |steps| && 0 <= j < |steps| && steps[i].parent == Some(steps[j].id) ==> j < i
  }

  /** Where a step stands, |steps| when there is none of that id. */
  function Index(steps: seq<Step>, id: string): (i: nat)
    ensures i <= |steps| && (i < |steps| ==> steps[i].id == id)
    ensures i == |steps| ==> forall j :: 0 <= j < |steps| ==> steps[j].id != id
  {
    if steps == [] then 0
    else if steps[0].id == id then 0
    else
      var i := Index(steps[1..], id);
      assert forall j :: 0 < j < |steps| ==> steps[j] == steps[1..][j - 1];
      i + 1
  }

  lemma IndexAt(steps: seq<Step>, i: nat)
    requires WellNamed(steps) && i < |steps|
    ensures Index(steps, steps[i].id) == i
  {
  }

  predicate IsSubagent(steps: seq<Step>, id: string) {
    Index(steps, id) < |steps| && steps[Index(steps, id)].kind == Subagent
  }

  /** The owner the loop gives the step at i: its parent when that is a subagent, else what it
      gave its parent, if it has come to it. */
  function OwnerAt(steps: seq<Step>, i: nat): string
    requires i < |steps|
    decreases i
  {
    if steps[i].parent.None? then ""
    else
      var parent := steps[i].parent.value;
      if IsSubagent(steps, parent) then parent
      else if Index(steps, parent) < i then OwnerAt(steps, Index(steps, parent)) else ""
  }

  /** The n-th ancestor along first parents. */
  function Ancestor(steps: seq<Step>, i: nat, n: nat): (a: Option<nat>)
    requires i < |steps|
    ensures a.Some? ==> a.value < |steps|
  {
    if n == 0 then Some(i)
    else
      match Ancestor(steps, i, n - 1)
      case None => None
      case Some(child) =>
        if steps[child].parent.Some? && Index(steps, steps[child].parent.value) < |steps|
        then Some(Index(steps, steps[child].parent.value)) else None
  }

  predicate SubagentAt(steps: seq<Step>, a: Option<nat>) {
    a.Some? && a.value < |steps| && steps[a.value].kind == Subagent
  }

  lemma {:induction false} AncestorOfParent(steps: seq<Step>, i: nat, n: nat)
    requires i < |steps| && steps[i].parent.Some? && Index(steps, steps[i].parent.value) < |steps|
    ensures Ancestor(steps, i, n + 1) == Ancestor(steps, Index(steps, steps[i].parent.value), n)
    decreases n
  {
    if n > 0 {
      AncestorOfParent(steps, i, n - 1);
    }
  }

  lemma {:induction false} NoneStaysNone(steps: seq<Step>, i: nat, m: nat, n: nat)
    requires i < |steps| && m <= n && Ancestor(steps, i, m).None?
    ensures Ancestor(steps, i, n).None?
    decreases n
  {
    if m < n {
      NoneStaysNone(steps, i, m, n - 1);
    }
  }

  /** o is the nearest subagent above the step at i: it is the n-th ancestor, and none of the
      ancestors before it is a subagent. */
  ghost predicate Nearest(steps: seq<Step>, i: nat, o: string)
    requires i < |steps|
  {
    exists n: nat :: n > 0 && SubagentAt(steps, Ancestor(steps, i, n)) && steps[Ancestor(steps, i, n).value].id == o &&
                     forall m: nat :: 0 < m < n ==> !SubagentAt(steps, Ancestor(steps, i, m))
  }

  ghost predicate NoSubagentAbove(steps: seq<Step>, i: nat)
    requires i < |steps|
  {
    forall n: nat :: n > 0 ==> !SubagentAt(steps, Ancestor(steps, i, n))
  }

  /** When parents come first, a step's owner is its nearest subagent ancestor, and the root
      agent exactly when it has none. */
  lemma {:induction false} OwnerIsNearest(steps: seq<Step>, i: nat)
    requires WellNamed(steps) && ParentsFirst(steps) && i < |steps|
    ensures if OwnerAt(steps, i) == "" then NoSubagentAbove(steps, i) else Nearest(steps, i, OwnerAt(steps, i))
    decreases i
  {
    var one := Ancestor(steps, i, 1);
    assert Ancestor(steps, i, 0) == Some(i);
    if steps[i].parent.None? || Index(steps, steps[i].parent.value) == |steps| {
      forall n: nat | n > 0
        ensures !SubagentAt(steps, Ancestor(steps, i, n))
      {
        NoneStaysNone(steps, i, 1, n);
      }
    } else {
      var p := Index(steps, steps[i].parent.value);
      if steps[p].kind == Subagent {
        assert SubagentAt(steps, one) && steps[one.value].id == OwnerAt(steps, i);
      } else {
        assert p < i;
        OwnerIsNearest(steps, p);
        OneFurther(steps, i, p);
      }
    }
  }

  lemma OneFurther(steps: seq<Step>, i: nat, p: nat)
    requires i < |steps| && p < |steps| && steps[i].parent == Some(steps[p].id) && Index(steps, steps[p].id) == p
    requires steps[p].kind != Subagent
    ensures NoSubagentAbove(steps, p) ==> NoSubagentAbove(steps, i)
    ensures forall o :: Nearest(steps, p, o) ==> Nearest(steps, i, o)
  {
    forall n: nat | n > 0
      ensures Ancestor(steps, i, n) == Ancestor(steps, p, n - 1)
    {
      AncestorOfParent(steps, i, n - 1);
    }
    forall o | Nearest(steps, p, o)
      ensures Nearest(steps, i, o)
    {
      var n: nat :| n > 0 && SubagentAt(steps, Ancestor(steps, p, n)) && steps[Ancestor(steps, p, n).value].id == o &&
                    forall m: nat :: 0 < m < n ==> !SubagentAt(steps, Ancestor(steps, p, m));
      assert Ancestor(steps, i, n + 1) == Ancestor(steps, p, n);
      forall m: nat | 0 < m < n + 1
        ensures !SubagentAt(steps, Ancestor(steps, i, m))
      {
        assert Ancestor(steps, i, m) == Ancestor(steps, p, m - 1);
      }
    }
    if NoSubagentAbove(steps, p) {
      forall n: nat | n > 0
        ensures !SubagentAt(steps, Ancestor(steps, i, n))
      {
        assert Ancestor(steps, i, n) == Ancestor(steps, p, n - 1);
      }
    }
  }

  /** An owner is the root agent or a subagent of the run, whatever the order; when parents
      come first it stands before what it owns. */
  lemma {:induction false} OwnerExists(steps: seq<Step>, i: nat)
    requires i < |steps|
    ensures OwnerAt(steps, i) == "" || IsSubagent(steps, OwnerAt(steps, i))
    ensures WellNamed(steps) && ParentsFirst(steps) && OwnerAt(steps, i) != "" ==> Index(steps, OwnerAt(steps, i)) < i
    decreases i
  {
    if steps[i].parent.Some? {
      var parent := steps[i].parent.value;
      if !IsSubagent(steps, parent) && Index(steps, parent) < i {
        OwnerExists(steps, Index(steps, parent));
      }
    }
  }

  lemma IndexBelow(steps: seq<Step>, i: nat, id: string)
    requires WellNamed(steps) && i < |steps|
    ensures Index(steps, id) < i + 1 <==> Index(steps, id) < i || id == steps[i].id
  {
    IndexAt(steps, i);
  }

  /** The owners of the first i steps. */
  ghost predicate Owned(steps: seq<Step>, i: nat, owner: map<string, string>) {
    forall id :: (id in owner <==> Index(steps, id) < i <= |steps|) &&
                 (id in owner ==> owner[id] == OwnerAt(steps, Index(steps, id)))
  }

  lemma OwnedMore(steps: seq<Step>, i: nat, owner: map<string, string>)
    requires WellNamed(steps) && i < |steps| && Owned(steps, i, owner)
    ensures Owned(steps, i + 1, owner[steps[i].id := OwnerAt(steps, i)])
  {
    forall id
      ensures Index(steps, id) < i + 1 <==> Index(steps, id) < i || id == steps[i].id
    {
      IndexBelow(steps, i, id);
    }
    IndexAt(steps, i);
  }

  /** _owners() */
  method Owners(steps: seq<Step>) returns (owner: map<string, string>)
    requires WellNamed(steps)
    ensures Owned(steps, |steps|, owner)
  {
    owner := map[];
    for i := 0 to |steps|
      invariant Owned(steps, i, owner)
    {
      var step := steps[i];
      var own := "";
      if step.parent.Some? {
        if IsSubagent(steps, step.parent.value) {
          own := step.parent.value;
        } else if step.parent.value in owner {
          own := owner[step.parent.value];
        }
      }
      OwnedMore(steps, i, owner);
      assert own == OwnerAt(steps, i);
      owner := owner[step.id := own];
    }
  }

  lemma OwnedAt(steps: seq<Step>, owner: map<string, string>, i: nat)
    requires WellNamed(steps) && Owned(steps, |steps|, owner) && i < |steps|
    ensures steps[i].id in owner && owner[steps[i].id] == OwnerAt(steps, i)
  {
    IndexAt(steps, i);
  }
}
