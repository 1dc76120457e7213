// opentine/_cli_git_sync.py: the forked_from chain of a run, and the bounded walk along it.
module ForkHistory {
  import opened Outcomes

  const MAX_ANCESTRY := 10_000

  /** forked_from by object id: objects are content addressed, so an id fixes its payload. */
  type Forks = string -> Option<string>

  /** The run k forks back from a run. */
  function Back(forks: Forks, run: string, k: nat): Option<string> {
    if k == 0 then Some(run)
    else
      match Back(forks, run, k - 1)
      case None => None
      case Some(later) => forks(later)
  }

  ghost predicate OnChain(forks: Forks, older: string, newer: string) {
    exists k :: Back(forks, newer, k) == Some(older)
  }

  /** All of the first k runs of the chain are present. */
  predicate Present(forks: Forks, objects: set<string>, run: string, k: nat) {
    k == 0 || (Present(forks, objects, run, k - 1) && Back(forks, run, k - 1).Some? &&
        Back(forks, run, k - 1).value in objects)
  }

  /** The older run is among the first 10,000 of the newer run's chain, and every run before
      it on the chain is in the store. */
  predicate Ancestor(forks: Forks, objects: set<string>, older: string, newer: string) {
    exists k :: 0 <= k < MAX_ANCESTRY && Back(forks, newer, k) == Some(older) && Present(forks, objects, newer, k)
  }

  lemma {:induction false} ChainsJoin(forks: Forks, a: string, b: string, j: nat, k: nat)
    requires Back(forks, a, j) == Some(b)
    ensures Back(forks, a, j + k) == Back(forks, b, k)
    decreases k
  {
    if k > 0 {
      ChainsJoin(forks, a, b, j, k - 1);
    }
  }

  lemma OnChainTransitive(forks: Forks, a: string, b: string, c: string)
    requires OnChain(forks, a, b) && OnChain(forks, b, c)
    ensures OnChain(forks, a, c)
  {
    var j: nat :| Back(forks, b, j) == Some(a);
    var k: nat :| Back(forks, c, k) == Some(b);
    ChainsJoin(forks, c, b, k, j);
  }

  lemma OnOwnChain(forks: Forks, a: string)
    ensures OnChain(forks, a, a)
  {
    assert Back(forks, a, 0) == Some(a);
  }

  lemma {:induction false} AbsentStaysAbsent(forks: Forks, objects: set<string>, run: string, j: nat, k: nat)
    requires j <= k && !Present(forks, objects, run, j)
    ensures !Present(forks, objects, run, k)
    decreases k
  {
    if j < k {
      AbsentStaysAbsent(forks, objects, run, j, k - 1);
    }
  }

  lemma {:induction false} EndStaysEnd(forks: Forks, run: string, j: nat, k: nat)
    requires j <= k && Back(forks, run, j).None?
    ensures Back(forks, run, k).None?
    decreases k
  {
    if j < k {
      EndStaysEnd(forks, run, j, k - 1);
    }
  }

  /** is_ancestor: never says yes off the chain, and always finds an ancestor within its
      bound whose line is stored. */
  method IsAncestor(forks: Forks, objects: set<string>, older: string, newer: string) returns (r: bool)
    ensures r <==> Ancestor(forks, objects, older, newer)
    ensures r ==> OnChain(forks, older, newer)
    ensures older == newer ==> r
  {
    var current := Some(newer);
    for i := 0 to MAX_ANCESTRY
      invariant current == Back(forks, newer, i) && Present(forks, objects, newer, i)
      invariant forall k :: 0 <= k < i ==> Back(forks, newer, k) != Some(older)
    {
      if current.None? {
        forall k | i <= k < MAX_ANCESTRY
          ensures Back(forks, newer, k) != Some(older)
        {
          EndStaysEnd(forks, newer, i, k);
        }
        return false;
      }
      if current.value == older {
        return true;
      }
      if current.value !in objects {
        forall k | i < k < MAX_ANCESTRY
          ensures !Present(forks, objects, newer, k)
        {
          AbsentStaysAbsent(forks, objects, newer, i + 1, k);
        }
        return false;
      }
      current := forks(current.value);
    }
    return false;
  }

  // ----- refs over time -----

  /** Every ref outside `loose` that had a value keeps one, and the old value is on the
      forked_from chain of the new. */
  ghost predicate Advances(forks: Forks, before: map<string, string>, after: map<string, string>,
            loose: string -> bool) {
    forall ref :: ref in before && !loose(ref) ==> ref in after && OnChain(forks, before[ref], after[ref])
  }

  lemma AdvancesTransitive(forks: Forks, a: map<string, string>, b: map<string, string>, c: map<string, string>,
                           loose: string -> bool)
    requires Advances(forks, a, b, loose) && Advances(forks, b, c, loose)
    ensures Advances(forks, a, c, loose)
  {
    forall ref | ref in a && !loose(ref)
      ensures ref in c && OnChain(forks, a[ref], c[ref])
    {
      assert ref in b && ref in c;
      OnChainTransitive(forks, a[ref], b[ref], c[ref]);
    }
  }

  lemma AdvancesSame(forks: Forks, refs: map<string, string>, loose: string -> bool)
    ensures Advances(forks, refs, refs, loose)
  {
    forall ref | ref in refs
      ensures OnChain(forks, refs[ref], refs[ref])
    {
      OnOwnChain(forks, refs[ref]);
    }
  }

  /** Every step of a history advances. */
  ghost predicate StepsAdvance(forks: Forks, history: seq<map<string, string>>, loose: string -> bool) {
    forall k :: 0 <= k < |history| - 1 ==> Advances(forks, history[k], history[k + 1], loose)
  }

  /** Every earlier state of the refs is behind every later one. */
  ghost predicate AllAdvance(forks: Forks, history: seq<map<string, string>>, loose: string -> bool) {
    forall i, j :: 0 <= i <= j < |history| ==> Advances(forks, history[i], history[j], loose)
  }

  lemma StepAdded(forks: Forks, history: seq<map<string, string>>, next: map<string, string>, loose: string -> bool)
    requires history != [] && StepsAdvance(forks, history, loose) &&
        Advances(forks, history[|history| - 1], next, loose)
    ensures StepsAdvance(forks, history + [next], loose)
  {
  }

  lemma {:induction false} HistoryAdvances(forks: Forks, history: seq<map<string, string>>, loose: string -> bool,
            i: nat, j: nat)
    requires i <= j < |history| && StepsAdvance(forks, history, loose)
    ensures Advances(forks, history[i], history[j], loose)
    decreases j
  {
    if i == j {
      AdvancesSame(forks, history[i], loose);
    } else {
      HistoryAdvances(forks, history, loose, i, j - 1);
      assert Advances(forks, history[j - 1], history[j - 1 + 1], loose);
      AdvancesTransitive(forks, history[i], history[j - 1], history[j], loose);
    }
  }

  /** If every step advances, so does every stretch of the history. */
  lemma StepsAdvanceAll(forks: Forks, history: seq<map<string, string>>, loose: string -> bool)
    requires StepsAdvance(forks, history, loose)
    ensures AllAdvance(forks, history, loose)
  {
    forall i, j | 0 <= i <= j < |history|
      ensures Advances(forks, history[i], history[j], loose)
    {
      HistoryAdvances(forks, history, loose, i, j);
    }
  }
}
