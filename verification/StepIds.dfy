// opentine/_artifact_v4_read.py and _graph_types.py: giving the steps of a read-back run the
// ids they had before it was written.
module StepIds {
  import opened Outcomes

  /** A step; `body` stands for everything in it that names no step. */
  datatype Step = Step(id: string, parents: seq<string>, causal: seq<string>, body: string)

  datatype Turn = Turn(stepId: Option<string>, body: string)

  /** A graph's steps by id, in the order they were added. */
  datatype Shape = Shape(order: seq<string>, steps: map<string, Step>)

  /** What of a run names steps. */
  datatype View = View(shape: Shape, refs: map<string, string>, transcript: seq<Turn>, causal: map<string, seq<string>>)

  // ----- Graph.add -----

  predicate ParentsKnown(shape: Shape, step: Step) {
    forall p :: p in step.parents ==> p in shape.steps
  }

  function Added(shape: Shape, step: Step): Shape {
    Shape(if step.id in shape.steps then shape.order else shape.order + [step.id], shape.steps[step.id := step])
  }

  class Graph {
    var steps: map<string, Step>
    var order: seq<string>

    constructor ()
      ensures Now() == Shape([], map[])
    {
      steps, order := map[], [];
    }

    function Now(): Shape
      reads this
    {
      Shape(order, steps)
    }

    method Add(step: Step) returns (ok: bool)
      modifies this
      ensures ok <==> ParentsKnown(old(Now()), step)
      ensures Now() == if ok then Added(old(Now()), step) else old(Now())
    {
      for i := 0 to |step.parents|
        invariant Now() == old(Now()) && forall j :: 0 <= j < i ==> step.parents[j] in steps
      {
        if step.parents[i] !in steps {
          assert step.parents[i] in step.parents;
          return false;
        }
      }
      if step.id !in steps {
        order := order + [step.id];
      }
      steps := steps[step.id := step];
      return true;
    }
  }

  // ----- renaming -----

  type Names = map<string, string>

  /** names.get(x, x) */
  function Named(names: Names, x: string): string {
    if x in names then names[x] else x
  }

  function NamedAll(names: Names, xs: seq<string>): (r: seq<string>)
    ensures |r| == |xs| && forall i :: 0 <= i < |r| ==> r[i] == Named(names, xs[i])
  {
    seq(|xs|, i requires 0 <= i < |xs| => Named(names, xs[i]))
  }

  function RenamedStep(names: Names, s: Step): Step {
    Step(Named(names, s.id), NamedAll(names, s.parents), NamedAll(names, s.causal), s.body)
  }

  function RenamedTurn(names: Names, t: Turn): Turn {
    if t.stepId.Some? && t.stepId.value in names then t.(stepId := Some(names[t.stepId.value])) else t
  }

  function RenamedTurns(names: Names, ts: seq<Turn>): (r: seq<Turn>)
    ensures |r| == |ts| && forall i :: 0 <= i < |r| ==> r[i] == RenamedTurn(names, ts[i])
  {
    seq(|ts|, i requires 0 <= i < |ts| => RenamedTurn(names, ts[i]))
  }

  predicate OneToOne(names: Names) {
    forall x, y :: x in names && y in names && names[x] == names[y] ==> x == y
  }

  // ----- what a loaded run looks like -----

  /** A graph as load_run builds it: distinct steps under their own ids, each added after its
      parents. */
  predicate Built(order: seq<string>, steps: map<string, Step>) {
    order == [] ||
    var before, last := order[..|order| - 1], order[|order| - 1];
    && Built(before, steps) && last !in before && last in steps && steps[last].id == last
    && forall p :: p in steps[last].parents ==> p in before
  }

  predicate Covers<T>(order: seq<string>, m: map<string, T>) {
    (forall id :: id in order ==> id in m) && (forall id :: id in m ==> id in order)
  }

  predicate Events(ids: seq<string>) {
    forall i :: 0 <= i < |ids| ==> StartsEvent(ids[i])
  }

  /** A run as load_run builds it, with one list of causal ids for each step; validate_links
      lets only event ids be causal. */
  predicate Loaded(v: View) {
    && Built(v.shape.order, v.shape.steps) && Covers(v.shape.order, v.shape.steps) && Covers(v.shape.order, v.causal)
    && forall id :: id in v.shape.order ==> Events(v.shape.steps[id].causal) && Events(v.causal[id])
  }

  type Legacy = string -> Option<string>

  predicate StartsEvent(s: string) {
    |s| >= 6 && s[..6] == "event:"
  }

  predicate UsableName(name: Option<string>) {
    name.Some? && name.value != "" && !StartsEvent(name.value)
  }

  /** The names to restore, when every step has one of its own from before it was written. */
  function NamesFor(order: seq<string>, legacy: Legacy): Option<Names> {
    if order == [] then Some(map[])
    else
      match NamesFor(order[..|order| - 1], legacy)
      case None => None
      case Some(names) =>
        var last := order[|order| - 1];
        if UsableName(legacy(last)) then Some(names[last := legacy(last).value]) else None
  }

  predicate OwnNames(names: Names) {
    |names.Values| == |names|
  }

  /** The graph rebuilt step by step under the new names. */
  function Rebuilt(names: Names, order: seq<string>, steps: map<string, Step>): Shape
    requires forall id :: id in order ==> id in steps
  {
    if order == [] then Shape([], map[])
    else Added(Rebuilt(names, order[..|order| - 1], steps), RenamedStep(names, steps[order[|order| - 1]]))
  }

  function RenamedRefs(names: Names, refs: map<string, string>): map<string, string> {
    map key | key in refs :: Named(names, refs[key])
  }

  function RenamedCausal(names: Names, order: seq<string>, causal: map<string, seq<string>>): map<string, seq<string>>
    requires forall id :: id in order ==> id in causal
  {
    if order == [] then map[]
    else
      var last := order[|order| - 1];
      RenamedCausal(names, order[..|order| - 1], causal)[Named(names, last) := NamedAll(names, causal[last])]
  }

  function RenamedView(names: Names, v: View): View
    requires Loaded(v)
  {
    View(Rebuilt(names, v.shape.order, v.shape.steps), RenamedRefs(names, v.refs), RenamedTurns(names, v.transcript),
         RenamedCausal(names, v.shape.order, v.causal))
  }

  // ----- the rebuilt graph -----

  lemma NamedApart(names: Names, order: seq<string>, x: string)
    requires OneToOne(names) && x in names && x !in order && forall id :: id in order ==> id in names
    ensures names[x] !in NamedAll(names, order)
  {
    forall i | 0 <= i < |order|
      ensures NamedAll(names, order)[i] != names[x]
    {
      assert order[i] in order;
    }
  }

  lemma {:induction false} RebuiltOrder(names: Names, order: seq<string>, steps: map<string, Step>)
    requires Built(order, steps) && OneToOne(names)
    requires forall id :: id in order ==> id in names && id in steps
    ensures Rebuilt(names, order, steps).order == NamedAll(names, order)
    ensures forall y :: y in Rebuilt(names, order, steps).steps <==> y in NamedAll(names, order)
  {
    hide Rebuilt, OneToOne, RenamedStep;
    if order == [] {
      RebuiltNothing(names, order, steps);
    } else {
      var rest, last := order[..|order| - 1], order[|order| - 1];
      assert last in order && forall id :: id in rest ==> id in order;
      RebuiltOrder(names, rest, steps);
      NamedApart(names, rest, last);
      NamedLast(names, order);
      RebuiltLast(names, order, steps);
    }
  }

  lemma RebuiltNothing(names: Names, order: seq<string>, steps: map<string, Step>)
    requires order == []
    ensures Rebuilt(names, order, steps) == Shape([], map[])
  {
  }

  lemma NamedLast(names: Names, order: seq<string>)
    requires order != []
    ensures NamedAll(names, order) == NamedAll(names, order[..|order| - 1]) + [Named(names, order[|order| - 1])]
  {
  }

  lemma RebuiltLast(names: Names, order: seq<string>, steps: map<string, Step>)
    requires Built(order, steps) && order != [] && forall id :: id in order ==> id in names && id in steps
    ensures var rest, last := order[..|order| - 1], order[|order| - 1];
            Rebuilt(names, order, steps) == Added(Rebuilt(names, rest, steps), RenamedStep(names, steps[last])) &&
            RenamedStep(names, steps[last]).id == names[last]
  {
  }

  lemma {:induction false} RebuiltAt(names: Names, order: seq<string>, steps: map<string, Step>, x: string)
    requires Built(order, steps) && OneToOne(names) && x in order
    requires forall id :: id in order ==> id in names && id in steps
    ensures names[x] in Rebuilt(names, order, steps).steps
    ensures Rebuilt(names, order, steps).steps[names[x]] == RenamedStep(names, steps[x])
  {
    var rest, last := order[..|order| - 1], order[|order| - 1];
    assert last in order && forall id :: id in rest ==> id in order;
    if x != last {
      assert x in rest;
      RebuiltAt(names, rest, steps, x);
    }
  }

  lemma {:induction false} CausalAt(names: Names, order: seq<string>, causal: map<string, seq<string>>, x: string)
    requires OneToOne(names) && x in order && forall id :: id in order ==> id in causal && id in names
    ensures names[x] in RenamedCausal(names, order, causal)
    ensures RenamedCausal(names, order, causal)[names[x]] == NamedAll(names, causal[x])
  {
    var rest, last := order[..|order| - 1], order[|order| - 1];
    assert last in order && forall id :: id in rest ==> id in order;
    if x != last {
      assert x in rest;
      CausalAt(names, rest, causal, x);
    }
  }

  // ----- the renaming is an isomorphism -----

  /** A reference that names no step is not caught by a restored name. */
  predicate Uncaught(names: Names, r: string) {
    r in names || forall x :: x in names ==> names[x] != r
  }

  predicate AllUncaught(names: Names, rs: seq<string>) {
    forall r :: r in rs ==> Uncaught(names, r)
  }

  /** A renamed reference names the step x exactly when it did before, or when it named no step
      and x is restored under its very text. */
  lemma ReferenceKept(names: Names, r: string, x: string)
    requires OneToOne(names) && x in names
    ensures Named(names, r) == names[x] <==> r == x || (r !in names && r == names[x])
    ensures Uncaught(names, r) ==> (Named(names, r) == names[x] <==> r == x)
  {
  }

  /** Whether the step's own id can be given back to it. */
  ghost predicate OwnId(legacy: Legacy, id: string) {
    exists own :: legacy(id) == Some(own) && own != "" && !exists rest :: own == "event:" + rest
  }

  lemma EventText(s: string)
    ensures StartsEvent(s) <==> exists rest :: s == "event:" + rest
  {
    if StartsEvent(s) {
      assert s == "event:" + s[6..];
    }
    if rest :| s == "event:" + rest {
      assert s[..6] == "event:";
    }
  }

  lemma OwnIdUsable(legacy: Legacy, id: string)
    ensures OwnId(legacy, id) <==> UsableName(legacy(id))
  {
    if legacy(id).Some? {
      EventText(legacy(id).value);
    }
  }

  /** The names are the own ids of these steps. */
  ghost predicate Gives(names: Names, order: seq<string>, legacy: Legacy) {
    forall id :: (id in names <==> id in order) && (id in names ==> legacy(id) == Some(names[id]))
  }

  /** There are names to restore exactly when every step has an own id to get back, and then
      each step gets its own. */
  lemma {:induction false} NamesAreOwn(order: seq<string>, legacy: Legacy)
    ensures NamesFor(order, legacy).Some? <==> forall id :: id in order ==> OwnId(legacy, id)
    ensures NamesFor(order, legacy).Some? ==>
              Gives(NamesFor(order, legacy).value, order, legacy)
  {
    hide OwnId;
    if order != [] {
      var rest, last := order[..|order| - 1], order[|order| - 1];
      NamesAreOwn(rest, legacy);
      OwnIdUsable(legacy, last);
      assert forall id :: id in order <==> id in rest || id == last;
    }
  }

  lemma NamesUsable(order: seq<string>, legacy: Legacy)
    requires NamesFor(order, legacy).Some?
    ensures forall id :: id in NamesFor(order, legacy).value <==> id in order
    ensures forall id :: id in NamesFor(order, legacy).value ==> UsableName(Some(NamesFor(order, legacy).value[id]))
  {
    NamesAreOwn(order, legacy);
    forall id | id in order
      ensures UsableName(legacy(id))
    {
      OwnIdUsable(legacy, id);
    }
  }

  lemma NamesCover(order: seq<string>, legacy: Legacy)
    requires NamesFor(order, legacy).Some?
    ensures Covers(order, NamesFor(order, legacy).value)
  {
    NamesUsable(order, legacy);
  }

  /** Event references, and empty ones, are never caught: no restored name is either. */
  lemma EventsUncaught(order: seq<string>, legacy: Legacy, r: string)
    requires NamesFor(order, legacy).Some? && (StartsEvent(r) || r == "")
    ensures Uncaught(NamesFor(order, legacy).value, r)
  {
    NamesUsable(order, legacy);
  }

  lemma {:induction false} ValuesFewer(names: Names, keys: set<string>)
    requires keys <= names.Keys
    ensures |(set id | id in keys :: names[id])| <= |keys|
    decreases |keys|
  {
    var values := set id | id in keys :: names[id];
    if keys != {} {
      var x :| x in keys;
      ValuesFewer(names, keys - {x});
      var rest := set id | id in keys - {x} :: names[id];
      assert values == rest + {names[x]};
    } else {
      assert values == {};
    }
  }

  lemma {:induction false} ValuesAsMany(names: Names, keys: set<string>)
    requires keys <= names.Keys && OneToOne(names)
    ensures |(set id | id in keys :: names[id])| == |keys|
    decreases |keys|
  {
    var values := set id | id in keys :: names[id];
    if keys != {} {
      var x :| x in keys;
      ValuesAsMany(names, keys - {x});
      var rest := set id | id in keys - {x} :: names[id];
      assert values == rest + {names[x]} && names[x] !in rest;
    } else {
      assert values == {};
    }
  }

  /** There are as many names as steps exactly when no two steps share one. */
  lemma OwnNamesOneToOne(names: Names)
    ensures OwnNames(names) <==> OneToOne(names)
  {
    var all := set id | id in names.Keys :: names[id];
    assert all == names.Values;
    if OneToOne(names) {
      ValuesAsMany(names, names.Keys);
    }
    if OwnNames(names) {
      forall x, y | x in names && y in names && names[x] == names[y]
        ensures x == y
      {
        if x != y {
          SharedName(names, x, y);
        }
      }
    }
  }

  lemma SharedName(names: Names, x: string, y: string)
    requires x in names && y in names && x != y && names[x] == names[y]
    ensures !OwnNames(names)
  {
    ValuesFewer(names, names.Keys - {x});
    var values := set id | id in names.Keys - {x} :: names[id];
    assert names[y] in values;
    assert values == names.Values;
  }

  lemma LinkKept(names: Names, xs: seq<string>, x: string)
    requires OneToOne(names) && x in names && AllUncaught(names, xs)
    ensures names[x] in NamedAll(names, xs) <==> x in xs
  {
    if x in xs {
      var i :| 0 <= i < |xs| && xs[i] == x;
      assert NamedAll(names, xs)[i] == names[x];
    }
    if names[x] in NamedAll(names, xs) {
      var i :| 0 <= i < |xs| && NamedAll(names, xs)[i] == names[x];
      ReferenceKept(names, xs[i], x);
    }
  }

  lemma {:induction false} ParentsIn(order: seq<string>, steps: map<string, Step>, y: string)
    requires Built(order, steps) && y in order
    ensures y in steps && steps[y].id == y && forall p :: p in steps[y].parents ==> p in order
  {
    var rest, last := order[..|order| - 1], order[|order| - 1];
    assert order == rest + [last];
    if y != last {
      assert y in rest;
      ParentsIn(rest, steps, y);
    }
  }

  /** Renaming keeps the order of the steps, and between any two of them every parent link
      holds under the new names exactly when it held before. */
  lemma GraphIsomorphic(names: Names, order: seq<string>, steps: map<string, Step>, x: string, y: string)
    requires Built(order, steps) && OneToOne(names) && Covers(order, names) && Covers(order, steps)
    requires x in order && y in order
    ensures var w := Rebuilt(names, order, steps);
            && w.order == NamedAll(names, order) && names[y] in w.steps
            && w.steps[names[y]].id == names[y] && w.steps[names[y]].body == steps[y].body
            && (names[x] in w.steps[names[y]].parents <==> x in steps[y].parents)
  {
    RebuiltOrder(names, order, steps);
    RebuiltAt(names, order, steps, y);
    ParentsIn(order, steps, y);
    forall p | p in steps[y].parents
      ensures Uncaught(names, p)
    {
      assert p in order;
    }
    LinkKept(names, steps[y].parents, x);
  }

  lemma CausalUncaught(order: seq<string>, legacy: Legacy, ids: seq<string>)
    requires NamesFor(order, legacy).Some? && Events(ids)
    ensures AllUncaught(NamesFor(order, legacy).value, ids)
  {
    forall r | r in ids
      ensures Uncaught(NamesFor(order, legacy).value, r)
    {
      EventsUncaught(order, legacy, r);
    }
  }

  /** Causal links hold between the renamed steps exactly when they held before: none is caught
      by a restored name, as they are all event ids. */
  lemma CausalIsomorphic(legacy: Legacy, v: View, x: string, y: string)
    requires Loaded(v) && NamesFor(v.shape.order, legacy).Some? && OwnNames(NamesFor(v.shape.order, legacy).value)
    requires x in v.shape.order && y in v.shape.order
    ensures var names := NamesFor(v.shape.order, legacy).value;
            var w := RenamedView(names, v);
            && x in names && y in names && names[y] in w.shape.steps && names[y] in w.causal
            && (names[x] in w.shape.steps[names[y]].causal <==> x in v.shape.steps[y].causal)
            && (names[x] in w.causal[names[y]] <==> x in v.causal[y])
  {
    var names := NamesFor(v.shape.order, legacy).value;
    OwnNamesOneToOne(names);
    NamesUsable(v.shape.order, legacy);
    CausalUncaught(v.shape.order, legacy, v.shape.steps[y].causal);
    CausalUncaught(v.shape.order, legacy, v.causal[y]);
    CausalKept(names, v, x, y);
  }

  lemma CausalKept(names: Names, v: View, x: string, y: string)
    requires Loaded(v) && OneToOne(names) && Covers(v.shape.order, names) && x in v.shape.order && y in v.shape.order
    requires AllUncaught(names, v.shape.steps[y].causal) && AllUncaught(names, v.causal[y])
    ensures var w := RenamedView(names, v);
            && names[y] in w.shape.steps && names[y] in w.causal
            && (names[x] in w.shape.steps[names[y]].causal <==> x in v.shape.steps[y].causal)
            && (names[x] in w.causal[names[y]] <==> x in v.causal[y])
  {
    RebuiltAt(names, v.shape.order, v.shape.steps, y);
    CausalAt(names, v.shape.order, v.causal, y);
    LinkKept(names, v.shape.steps[y].causal, x);
    LinkKept(names, v.causal[y], x);
  }

  /** Refs and turns name the steps they named. */
  lemma RefsAndTurnsKept(names: Names, v: View, key: string, i: nat, x: string)
    requires Loaded(v) && OneToOne(names) && x in names
    ensures var w := RenamedView(names, v);
            && w.refs.Keys == v.refs.Keys && |w.transcript| == |v.transcript|
            && (key in v.refs && Uncaught(names, v.refs[key]) ==> (w.refs[key] == names[x] <==> v.refs[key] == x))
            && (i < |v.transcript| && v.transcript[i].stepId.Some? && Uncaught(names, v.transcript[i].stepId.value) ==>
                  w.transcript[i].body == v.transcript[i].body &&
                  (w.transcript[i].stepId == Some(names[x]) <==> v.transcript[i].stepId == Some(x)))
  {
    if key in v.refs {
      ReferenceKept(names, v.refs[key], x);
    }
    if i < |v.transcript| && v.transcript[i].stepId.Some? {
      ReferenceKept(names, v.transcript[i].stepId.value, x);
    }
  }

  lemma {:induction false} ParentsRebuilt(names: Names, order: seq<string>, steps: map<string, Step>, i: nat)
    requires Built(order, steps) && OneToOne(names) && i < |order|
    requires forall id :: id in order ==> id in names && id in steps
    ensures ParentsKnown(Rebuilt(names, order[..i], steps), RenamedStep(names, steps[order[i]]))
    decreases |order|
  {
    var rest := order[..|order| - 1];
    assert forall id :: id in rest ==> id in order;
    if i < |rest| {
      ParentsRebuilt(names, rest, steps, i);
      assert rest[..i] == order[..i];
    } else {
      assert order[..i] == rest;
      RebuiltOrder(names, rest, steps);
      LastParentsKnown(names, order, steps);
    }
  }

  lemma LastParentsKnown(names: Names, order: seq<string>, steps: map<string, Step>)
    requires Built(order, steps) && order != [] && forall id :: id in order ==> id in names && id in steps
    requires var rest := order[..|order| - 1];
             forall y :: y in NamedAll(names, rest) ==> y in Rebuilt(names, rest, steps).steps
    ensures ParentsKnown(Rebuilt(names, order[..|order| - 1], steps), RenamedStep(names, steps[order[|order| - 1]]))
  {
    var rest, step := order[..|order| - 1], steps[order[|order| - 1]];
    forall k | 0 <= k < |step.parents|
      ensures NamedAll(names, step.parents)[k] in Rebuilt(names, rest, steps).steps
    {
      assert step.parents[k] in step.parents;
      NamedIn(names, rest, step.parents[k]);
    }
  }

  lemma NamedIn(names: Names, xs: seq<string>, x: string)
    requires x in xs
    ensures Named(names, x) in NamedAll(names, xs)
  {
    var j :| 0 <= j < |xs| && xs[j] == x;
    assert NamedAll(names, xs)[j] == Named(names, x);
  }

  // ----- what is restored -----

  /** What a reference reads after the restoring: a step's own id, or what it was. */
  ghost predicate Back(order: seq<string>, legacy: Legacy, r: string, s: string) {
    if r in order then legacy(r) == Some(s) else s == r
  }

  ghost predicate AllBack(order: seq<string>, legacy: Legacy, rs: seq<string>, ss: seq<string>) {
    |rs| == |ss| && forall i :: 0 <= i < |rs| ==> Back(order, legacy, rs[i], ss[i])
  }

  ghost predicate StepBack(order: seq<string>, legacy: Legacy, s: Step, t: Step) {
    && Back(order, legacy, s.id, t.id) && t.body == s.body
    && AllBack(order, legacy, s.parents, t.parents) && AllBack(order, legacy, s.causal, t.causal)
  }

  ghost predicate TurnBack(order: seq<string>, legacy: Legacy, s: Turn, t: Turn) {
    && t.body == s.body && t.stepId.Some? == s.stepId.Some?
    && (s.stepId.Some? ==> Back(order, legacy, s.stepId.value, t.stepId.value))
  }

  ghost predicate StepsBack(legacy: Legacy, v: View, w: View)
    requires Loaded(v)
  {
    var order := v.shape.order;
    && AllBack(order, legacy, order, w.shape.order)
    && forall i :: 0 <= i < |order| ==>
         var id, own := order[i], w.shape.order[i];
         && own in w.shape.steps && StepBack(order, legacy, v.shape.steps[id], w.shape.steps[own])
         && own in w.causal && AllBack(order, legacy, v.causal[id], w.causal[own])
  }

  ghost predicate RefsBack(legacy: Legacy, v: View, w: View) {
    && w.refs.Keys == v.refs.Keys
    && forall key :: key in v.refs ==> Back(v.shape.order, legacy, v.refs[key], w.refs[key])
  }

  ghost predicate TurnsBack(legacy: Legacy, v: View, w: View) {
    && |w.transcript| == |v.transcript|
    && forall i :: 0 <= i < |v.transcript| ==>
         TurnBack(v.shape.order, legacy, v.transcript[i], w.transcript[i])
  }

  /** Every step has its own id back, in the old order, and whatever named it names it so. */
  ghost predicate Restored(legacy: Legacy, v: View, w: View)
    requires Loaded(v)
  {
    StepsBack(legacy, v, w) && RefsBack(legacy, v, w) && TurnsBack(legacy, v, w)
  }

  /** Every step has an own id to get back, and no two the same. */
  ghost predicate OwnIds(order: seq<string>, legacy: Legacy) {
    && (forall id :: id in order ==> OwnId(legacy, id))
    && forall x, y :: x in order && y in order && legacy(x) == legacy(y) ==> x == y
  }

  lemma OwnIdsNamed(order: seq<string>, legacy: Legacy)
    ensures OwnIds(order, legacy) <==>
            NamesFor(order, legacy).Some? && OwnNames(NamesFor(order, legacy).value)
  {
    hide OwnId, NamesFor, OwnNames;
    NamesAreOwn(order, legacy);
    if NamesFor(order, legacy).Some? {
      OwnNamesOneToOne(NamesFor(order, legacy).value);
    }
  }

  lemma NamedBack(names: Names, order: seq<string>, legacy: Legacy, rs: seq<string>)
    requires Gives(names, order, legacy)
    ensures AllBack(order, legacy, rs, NamedAll(names, rs))
    ensures forall r :: Back(order, legacy, r, Named(names, r))
  {
  }

  lemma RenamedIsRestored(legacy: Legacy, v: View)
    requires Loaded(v) && OwnIds(v.shape.order, legacy)
    ensures NamesFor(v.shape.order, legacy).Some?
    ensures Restored(legacy, v, RenamedView(NamesFor(v.shape.order, legacy).value, v))
  {
    hide NamesFor, OwnIds, OwnId, OneToOne, OwnNames, RenamedView, Loaded, StepsBack, RefsBack, TurnsBack;
    OwnIdsNamed(v.shape.order, legacy);
    NamesAreOwn(v.shape.order, legacy);
    var names := NamesFor(v.shape.order, legacy).value;
    OwnNamesOneToOne(names);
    RenamedSteps(names, legacy, v);
    RenamedReferences(names, legacy, v);
  }

  lemma RenamedReferences(names: Names, legacy: Legacy, v: View)
    requires Loaded(v) && Gives(names, v.shape.order, legacy)
    ensures RefsBack(legacy, v, RenamedView(names, v)) && TurnsBack(legacy, v, RenamedView(names, v))
  {
    NamedBack(names, v.shape.order, legacy, []);
    hide Rebuilt, RenamedCausal, Loaded, Gives;
  }

  lemma RenamedSteps(names: Names, legacy: Legacy, v: View)
    requires Loaded(v) && OneToOne(names) && Gives(names, v.shape.order, legacy)
    ensures StepsBack(legacy, v, RenamedView(names, v))
  {
    var order, w := v.shape.order, RenamedView(names, v);
    RebuiltOrder(names, order, v.shape.steps);
    NamedBack(names, order, legacy, order);
    forall i | 0 <= i < |order|
      ensures w.shape.order[i] == names[order[i]] && StepGiven(names, legacy, v, w, order[i])
    {
      assert order[i] in order;
      RenamedStepBack(names, legacy, v, order[i]);
    }
  }

  ghost predicate StepGiven(names: Names, legacy: Legacy, v: View, w: View, id: string)
    requires Loaded(v) && id in v.shape.order
  {
    var order := v.shape.order;
    && id in names && names[id] in w.shape.steps && names[id] in w.causal
    && StepBack(order, legacy, v.shape.steps[id], w.shape.steps[names[id]])
    && AllBack(order, legacy, v.causal[id], w.causal[names[id]])
  }

  lemma RenamedStepBack(names: Names, legacy: Legacy, v: View, id: string)
    requires Loaded(v) && OneToOne(names) && id in v.shape.order && Gives(names, v.shape.order, legacy)
    ensures StepGiven(names, legacy, v, RenamedView(names, v), id)
  {
    var order, step := v.shape.order, v.shape.steps[id];
    RebuiltAt(names, order, v.shape.steps, id);
    CausalAt(names, order, v.causal, id);
    NamedBack(names, order, legacy, step.parents);
    NamedBack(names, order, legacy, step.causal);
    NamedBack(names, order, legacy, v.causal[id]);
  }

  lemma RebuiltMore(names: Names, order: seq<string>, steps: map<string, Step>, i: nat)
    requires i < |order| && forall id :: id in order ==> id in steps
    ensures Rebuilt(names, order[..i + 1], steps) ==
            Added(Rebuilt(names, order[..i], steps), RenamedStep(names, steps[order[i]]))
  {
    assert order[..i + 1][..i] == order[..i];
  }

  // ----- _restore_step_ids -----

  class LoadedRun {
    var graph: Graph
    var refs: map<string, string>
    var transcript: seq<Turn>
    var causal: map<string, seq<string>>

    function Now(): View
      reads this, graph
    {
      View(graph.Now(), refs, transcript, causal)
    }

    constructor (graph: Graph, refs: map<string, string>, transcript: seq<Turn>, causal: map<string, seq<string>>)
      ensures this.graph == graph && this.refs == refs && this.transcript == transcript && this.causal == causal
    {
      this.graph, this.refs, this.transcript, this.causal := graph, refs, transcript, causal;
    }

    /** The graph rebuilt under the new names: no step misses a parent on the way. */
    method Rebuild(names: Names) returns (rebuilt: Graph)
      requires Loaded(Now()) && OneToOne(names) && Covers(graph.order, names)
      ensures fresh(rebuilt) && rebuilt.Now() == Rebuilt(names, graph.order, graph.steps)
    {
      var order, steps := graph.order, graph.steps;
      rebuilt := new Graph();
      for i := 0 to |order|
        invariant fresh(rebuilt) && rebuilt.Now() == Rebuilt(names, order[..i], steps)
      {
        assert order[..i + 1][..i] == order[..i];
        hide Rebuilt, Built, OneToOne, RenamedStep;
        ParentsRebuilt(names, order, steps, i);
        RebuiltMore(names, order, steps, i);
        var ok := rebuilt.Add(RenamedStep(names, steps[order[i]]));
        assert ok;
      }
      assert order[..|order|] == order;
    }

    /** Every step has its own id back throughout the run, or nothing changes. */
    method Restore(legacy: Legacy)
      requires Loaded(Now())
      modifies this
      ensures if OwnIds(old(graph.order), legacy) then Restored(legacy, old(Now()), Now()) && fresh(graph)
              else Now() == old(Now()) && graph == old(graph)
      ensures OwnIds(old(graph.order), legacy) ==>
                var names := NamesFor(old(graph.order), legacy);
                names.Some? && OwnNames(names.value) && Now() == RenamedView(names.value, old(Now()))
    {
      var order := graph.order;
      OwnIdsNamed(order, legacy);
      var names := CollectNames(order, legacy);
      if names.None? || |names.value.Values| != |names.value| {
        return;
      }
      RenamedIsRestored(legacy, Now());
      hide Restored, OwnIds, NamesFor, Rebuilt, RenamedCausal, RenamedRefs, OneToOne, Covers, Built, Events;
      OwnNamesOneToOne(names.value);
      NamesCover(order, legacy);
      var rebuilt := Rebuild(names.value);
      refs, transcript, causal :=
        RenamedRefs(names.value, refs), RenamedTurns(names.value, transcript), RenamedCausal(names.value, order,
            causal);
      graph := rebuilt;
    }
  }

  method CollectNames(order: seq<string>, legacy: Legacy) returns (r: Option<Names>)
    ensures r == NamesFor(order, legacy)
  {
    var names: Names := map[];
    for i := 0 to |order|
      invariant NamesFor(order[..i], legacy) == Some(names)
    {
      assert order[..i + 1][..i] == order[..i];
      var name := legacy(order[i]);
      if name.None? || name.value == "" || StartsEvent(name.value) {
        NoNames(order, legacy, i + 1);
        return None;
      }
      names := names[order[i] := name.value];
    }
    assert order[..|order|] == order;
    return Some(names);
  }

  lemma {:induction false} NoNames(order: seq<string>, legacy: Legacy, n: nat)
    requires n <= |order| && NamesFor(order[..n], legacy).None?
    ensures NamesFor(order, legacy).None?
    decreases |order|
  {
    if n < |order| {
      var rest := order[..|order| - 1];
      assert rest[..n] == order[..n];
      NoNames(rest, legacy, n);
    } else {
      assert order[..n] == order;
    }
  }
}
