/** `plan` and `unify_includes` of scripts/crate_cut.py as they run, on the mutable fields of the nodes. */
module Planner {
  import opened Walks
  import opened LayerPlan
  import Scc

  // ----- small loops over sets and counters -----

  method ListOf(s: set<int>) returns (q: seq<int>)
    ensures forall x :: x in q <==> x in s
  {
    q := [];
    var todo := s;
    while todo != {}
      invariant todo <= s && forall x :: x in q <==> x in s - todo
      decreases todo
    {
      SomeMember(todo);
      var x :| x in todo;
      q := q + [x];
      todo := todo - {x};
    }
  }

  /** `max(votes, key=votes.get)`: some key with a maximal count. */
  method Winner(votes: map<int, nat>) returns (x: int)
    requires votes != map[]
    ensures x in votes && forall y :: y in votes ==> votes[y] <= votes[x]
  {
    var todo := votes.Keys;
    assert todo != {};
    SomeMember(todo);
    x :| x in todo;
    todo := todo - {x};
    while todo != {}
      invariant todo <= votes.Keys && x in votes
      invariant forall y :: y in votes.Keys - todo ==> votes[y] <= votes[x]
      decreases todo
    {
      SomeMember(todo);
      var y :| y in todo;
      if votes[x] < votes[y] {
        x := y;
      }
      todo := todo - {y};
    }
  }

  method LargestComponent(comp: seq<int>) returns (big: int)
    requires comp != []
    ensures big in comp && forall c :: multiset(comp)[c] <= multiset(comp)[big]
  {
    var sizes: map<int, nat> := map[];
    for i := 0 to |comp|
      invariant sizes.Keys == set c | c in comp[..i]
      invariant forall c :: c in sizes ==> sizes[c] == multiset(comp[..i])[c]
    {
      assert comp[..i + 1] == comp[..i] + [comp[i]];
      sizes := sizes[comp[i] := (if comp[i] in sizes then sizes[comp[i]] else 0) + 1];
    }
    assert comp[..|comp|] == comp;
    assert comp[0] in sizes.Keys;
    big := Winner(sizes);
    forall c ensures multiset(comp)[c] <= multiset(comp)[big] {
      assert c in comp || multiset(comp)[c] == 0;
    }
  }

  /** The items the core starts from. */
  function Roots(items: seq<Item>, comp: seq<int>, big: int, current: Option<int>): set<int>
    requires |comp| == |items|
  {
    (set i | 0 <= i < |items| && InP(items, i) && items[i].fixed.None? && (comp[i] == big || items[i].pinned))
    + (if current.None? then {} else
         set f, r | 0 <= f < |items| && InP(items, f) && items[f].fixed.Some? && items[f].fixed.value < current.value
                    && r in items[f].refs && InT(items, r) :: r)
  }

  /**
   * What the core starts from: uncut production items that are in the largest component or pinned,
   * and, while layer `current` is cut, the tests that crates below it name.
   */
  ghost predicate IsSeed(items: seq<Item>, comp: seq<int>, big: int, current: Option<int>, x: int)
    requires |comp| == |items|
  {
    && 0 <= x < |items| && items[x].fixed.None?
    && if items[x].test
       then current.Some? && exists f :: 0 <= f < |items| && items[f].fixed.Some? && items[f].fixed.value < current.value && x in items[f].refs
       else comp[x] == big || items[x].pinned
  }

  /** The core holds every seed, and everything in it is reached from a seed or an extra root. */
  ghost predicate CoreFromSeeds(items: seq<Item>, comp: seq<int>, big: int, current: Option<int>, extra: set<int>, core: set<int>)
    requires |comp| == |items|
  {
    && (forall x :: IsSeed(items, comp, big, current, x) ==> x in core)
    && (forall w :: w in core ==> exists x :: (IsSeed(items, comp, big, current, x) || x in extra) && Reach(CoreEdges(items), x, w))
  }

  lemma RootsAreSeeds(items: seq<Item>, comp: seq<int>, big: int, current: Option<int>, x: int)
    requires |comp| == |items|
    ensures x in Roots(items, comp, big, current) <==> IsSeed(items, comp, big, current, x)
  {
    if IsSeed(items, comp, big, current, x) && items[x].test {
      var f :| 0 <= f < |items| && items[f].fixed.Some? && items[f].fixed.value < current.value && x in items[f].refs;
      assert InP(items, f) && InT(items, x);
    }
  }

  lemma RootsInRange(items: seq<Item>, comp: seq<int>, big: int, current: Option<int>)
    requires |comp| == |items|
    ensures forall x :: x in Roots(items, comp, big, current) ==> 0 <= x < |items|
  {
  }

  lemma CoreIsFromSeeds(items: seq<Item>, comp: seq<int>, big: int, current: Option<int>, extra: set<int>, core: set<int>)
    requires |comp| == |items| && IsCore(items, Roots(items, comp, big, current) + extra, core)
    ensures CoreFromSeeds(items, comp, big, current, extra, core)
  {
    hide Reach, CoreEdges, Roots, IsSeed;
    var roots := Roots(items, comp, big, current);
    RootsAreCore(items, roots + extra, core);
    forall x ensures x in roots <==> IsSeed(items, comp, big, current, x) {
      RootsAreSeeds(items, comp, big, current, x);
    }
    forall w | w in core ensures exists x :: (IsSeed(items, comp, big, current, x) || x in extra) && Reach(CoreEdges(items), x, w) {
      var r :| r in roots + extra && Reach(CoreEdges(items), r, w);
      assert IsSeed(items, comp, big, current, r) || r in extra;
    }
  }

  // ----- steps of the passes -----

  ghost function OutsideCore(items: seq<Item>, core: set<int>): set<int> {
    set i: int | 0 <= i < |items| && items[i].fixed.None? && i !in core
  }

  ghost function Unlabelled(labels: Labels): set<int> {
    set i: int | 0 <= i < |labels| && labels[i].None?
  }

  lemma CoreGrows(items: seq<Item>, roots: set<int>, v: int, w: int)
    requires (v, w) in CoreEdges(items) && FromRoots(items, roots, v)
    ensures FromRoots(items, roots, w)
  {
    hide Reach;
    var r :| r in roots && Reach(CoreEdges(items), r, v);
    ReachEdge(CoreEdges(items), v, w);
    ReachTrans(CoreEdges(items), r, v, w);
  }

  lemma CoreIsExact(items: seq<Item>, roots: set<int>, core: set<int>, v: int)
    requires Closing(items, roots, core, [], v, {})
    ensures IsCore(items, roots, core)
  {
    hide Reach;
    assert forall w :: w in core ==> FromRoots(items, roots, w);
    forall w, r | r in roots && Reach(CoreEdges(items), r, w) ensures w in core {
      ReachStaysInside(CoreEdges(items), core, r, w);
    }
  }

  ghost predicate FromRoots(items: seq<Item>, roots: set<int>, w: int) {
    exists r :: r in roots && Reach(CoreEdges(items), r, w)
  }

  /** The worklist: everything in `core` is reached, and closed but for `stack` and the references `todo` of `v`. */
  ghost predicate Closing(items: seq<Item>, roots: set<int>, core: set<int>, stack: seq<int>, v: int, todo: set<int>) {
    && roots <= core
    && (forall x :: x in core ==> 0 <= x < |items| && FromRoots(items, roots, x))
    && (forall x :: x in stack ==> x in core)
    && (forall x, w :: (x, w) in CoreEdges(items) && x in core && x !in stack && !(x == v && w in todo) ==> w in core)
  }

  lemma ClosingStarts(items: seq<Item>, roots: set<int>, stack: seq<int>)
    requires (forall r :: r in roots ==> 0 <= r < |items|) && forall x :: x in stack <==> x in roots
    ensures Closing(items, roots, roots, stack, 0, {})
  {
    forall w | w in roots ensures FromRoots(items, roots, w) {
      ReachSelf(CoreEdges(items), w);
    }
  }

  lemma ClosingPops(items: seq<Item>, roots: set<int>, core: set<int>, stack: seq<int>, u: int)
    requires stack != [] && Closing(items, roots, core, stack, u, {})
    ensures stack[|stack| - 1] in core && 0 <= stack[|stack| - 1] < |items|
    ensures Closing(items, roots, core, stack[..|stack| - 1], stack[|stack| - 1], items[stack[|stack| - 1]].refs)
  {
    hide FromRoots;
    var v := stack[|stack| - 1];
    assert v in core;
    assert forall x :: x in stack ==> x == v || x in stack[..|stack| - 1];
  }

  lemma ClosingSkips(items: seq<Item>, roots: set<int>, core: set<int>, stack: seq<int>, v: int, todo: set<int>, w: int)
    requires Closing(items, roots, core, stack, v, todo) && 0 <= w < |items| && (w in core || items[w].fixed.Some?)
    ensures Closing(items, roots, core, stack, v, todo - {w})
  {
    hide FromRoots;
  }

  lemma ClosingAdds(items: seq<Item>, roots: set<int>, core: set<int>, stack: seq<int>, v: int, todo: set<int>, w: int)
    requires Closing(items, roots, core, stack, v, todo) && (v, w) in CoreEdges(items) && v in core && w !in core
    ensures Closing(items, roots, core + {w}, stack + [w], v, todo - {w})
    ensures OutsideCore(items, core + {w}) < OutsideCore(items, core)
  {
    assert FromRoots(items, roots, v);
    CoreGrows(items, roots, v, w);
    hide FromRoots, Reach;
    assert w in OutsideCore(items, core);
    var core' := core + {w};
    forall x | x in core' ensures 0 <= x < |items| && FromRoots(items, roots, x) {
      assert x in core || x == w;
    }
  }

  lemma VotesOfAbsent(items: seq<Item>, core: set<int>, labels: Labels, n: int, x: int, k: nat)
    requires |labels| == |items| && k <= |items| && 0 <= n < |items|
    requires forall w :: Carries(items, core, labels, n, w) && w < k ==> labels[w] != Some(x)
    ensures Votes(items, core, labels, n, x, k) == 0
  {
  }

  ghost predicate WonBy(items: seq<Item>, core: set<int>, labels: Labels, n: int, x: int)
    requires |labels| == |items| && 0 <= n < |items|
  {
    && (exists w :: Carries(items, core, labels, n, w) && labels[w] == Some(x))
    && (forall y :: Votes(items, core, labels, n, y, |items|) <= Votes(items, core, labels, n, x, |items|))
  }

  lemma VoteIsStep(items: seq<Item>, core: set<int>, labels: Labels, n: int, x: int)
    requires |labels| == |items| && Free(items, core, n) && labels[n].None? && WonBy(items, core, labels, n, x)
    ensures SomeVote(items, core, labels, labels[n := Some(x)])
  {
    hide Votes, Carries;
    var labels' := labels[n := Some(x)];
    assert VoteStep(items, core, labels, labels', n);
  }

  lemma VoteKeepsGood(items: seq<Item>, layers: nat, core: set<int>, labels: Labels, n: int, x: int)
    requires GoodLabels(items, layers, labels) && 0 <= n < |items| && labels[n].None? && WonBy(items, core, labels, n, x)
    ensures GoodLabels(items, layers, labels[n := Some(x)])
    ensures Unlabelled(labels[n := Some(x)]) < Unlabelled(labels)
  {
    hide Votes;
    assert n in Unlabelled(labels) && n !in Unlabelled(labels[n := Some(x)]);
  }

  lemma CoreDoesNotReferToFree(items: seq<Item>, roots: set<int>, core: set<int>, v: int, w: int)
    requires IsCore(items, roots, core) && (v, w) in PushEdges(items, core)
    ensures v !in core
  {
    hide Reach;
    if v in core {
      CoreGrows(items, roots, v, w);
    }
  }

  /** Nothing in the core reaches a free item. */
  lemma CoreDoesNotReachFree(items: seq<Item>, roots: set<int>, core: set<int>, m: int, i: int)
    requires IsCore(items, roots, core) && Free(items, core, i) && Reach(PushEdges(items, core), m, i)
    ensures m !in core
  {
    var p :| WalkFromTo(PushEdges(items, core), p, m, i);
    hide IsCore, PushEdges;
    if |p| > 1 {
      assert (p[0], p[0 + 1]) in PushEdges(items, core);
      CoreDoesNotReferToFree(items, roots, core, p[0], p[1]);
    }
  }

  lemma FreeHasRealLayer(items: seq<Item>, layers: nat, roots: set<int>, core: set<int>, labels: Labels, eff: seq<int>, i: int)
    requires WellFormed(items, layers) && GoodLabels(items, layers, labels) && IsCore(items, roots, core)
    requires |eff| == |items| && Free(items, core, i) && eff[i] < INF
    requires StartReaches(PushEdges(items, core), Starts(items, core, labels), i, eff[i])
    ensures RealLayer(eff[i], layers)
  {
    hide Reach, PushEdges, IsCore;
    var start := Starts(items, core, labels);
    var m :| 0 <= m < |start| && start[m] == eff[i] && Reach(PushEdges(items, core), m, i);
    CoreDoesNotReachFree(items, roots, core, m, i);
    assert start[m] == StartLayer(items, core, labels, m);
  }

  lemma PushedIsSettled(items: seq<Item>, layers: nat, roots: set<int>, core: set<int>, labels: Labels, eff: seq<int>)
    requires WellFormed(items, layers) && GoodLabels(items, layers, labels) && IsCore(items, roots, core)
    requires Pushing(items, core, Starts(items, core, labels), eff) && RefersDown(items, core, eff)
    requires forall i :: Free(items, core, i) ==> eff[i] < INF
    ensures SettledProduction(items, layers, core, labels, eff)
  {
    hide Reach, IsCore, IsLowestStart, StartReaches;
    FixpointIsLowestStart(items, core, Starts(items, core, labels), eff);
    forall i | Free(items, core, i) ensures RealLayer(eff[i], layers) {
      FreeHasRealLayer(items, layers, roots, core, labels, eff, i);
    }
  }

  /** What reaches a free item starts from its crate's layer or from its label. */
  lemma StartIsClaim(items: seq<Item>, layers: nat, roots: set<int>, core: set<int>, labels: Labels, m: int, i: int)
    requires WellFormed(items, layers) && GoodLabels(items, layers, labels) && IsCore(items, roots, core)
    requires Free(items, core, i) && 0 <= m < |items| && Reach(PushEdges(items, core), m, i)
    ensures InP(items, m) && m !in core
    ensures forall x :: Claims(items, labels, m, x) ==> StartLayer(items, core, labels, m) == x
    ensures StartLayer(items, core, labels, m) < INF ==> Claims(items, labels, m, StartLayer(items, core, labels, m))
  {
    CoreDoesNotReachFree(items, roots, core, m, i);
    hide IsCore;
    var p :| WalkFromTo(PushEdges(items, core), p, m, i);
    assert |p| > 1 ==> (p[0], p[0 + 1]) in PushEdges(items, core);
  }

  lemma LastStep(e: set<(int, int)>, m: int, i: int) returns (v: int)
    requires Reach(e, m, i)
    ensures m == i || (v, i) in e
  {
    var p :| WalkFromTo(e, p, m, i);
    v := m;
    if |p| > 1 {
      v := p[|p| - 2];
      assert (p[|p| - 2], p[|p| - 2 + 1]) in e;
    }
  }

  lemma OnlyItselfReaches(items: seq<Item>, core: set<int>, m: int, i: int)
    requires Unreferenced(items, i) && Reach(PushEdges(items, core), m, i)
    ensures m == i
  {
    hide Reach;
    var v := LastStep(PushEdges(items, core), m, i);
  }

  /** The settled layers, said of crates and labels. */
  lemma SettledIsFromLabels(items: seq<Item>, layers: nat, roots: set<int>, core: set<int>, labels: Labels, eff: seq<int>)
    requires WellFormed(items, layers) && GoodLabels(items, layers, labels) && IsCore(items, roots, core)
    requires SettledProduction(items, layers, core, labels, eff)
    ensures LayersFromLabels(items, core, labels, eff)
  {
    hide Reach, IsCore, PushEdges, StartLayer, Claims;
    var e, start := PushEdges(items, core), Starts(items, core, labels);
    forall i | Free(items, core, i)
      ensures labels[i].Some? ==> eff[i] <= labels[i].value
      ensures forall m, x :: Claims(items, labels, m, x) && Reach(e, m, i) ==> eff[i] <= x
      ensures exists m :: Claims(items, labels, m, eff[i]) && Reach(e, m, i)
      ensures Unreferenced(items, i) && labels[i].Some? ==> eff[i] == labels[i].value
    {
      FreeFromLabels(items, layers, roots, core, labels, eff, i);
    }
  }

  lemma FreeFromLabels(items: seq<Item>, layers: nat, roots: set<int>, core: set<int>, labels: Labels, eff: seq<int>, i: int)
    requires WellFormed(items, layers) && GoodLabels(items, layers, labels) && IsCore(items, roots, core)
    requires SettledProduction(items, layers, core, labels, eff) && Free(items, core, i)
    ensures labels[i].Some? ==> eff[i] <= labels[i].value
    ensures forall m, x :: Claims(items, labels, m, x) && Reach(PushEdges(items, core), m, i) ==> eff[i] <= x
    ensures exists m :: Claims(items, labels, m, eff[i]) && Reach(PushEdges(items, core), m, i)
    ensures Unreferenced(items, i) && labels[i].Some? ==> eff[i] == labels[i].value
  {
    var e, start := PushEdges(items, core), Starts(items, core, labels);
    assert IsLowestStart(e, start, eff, i) && RealLayer(eff[i], layers);
    assert forall m :: 0 <= m < |items| ==> start[m] == StartLayer(items, core, labels, m);
    ReachSelf(e, i);
    assert labels[i].Some? ==> Claims(items, labels, i, labels[i].value);
    hide Reach, IsCore, PushEdges, StartLayer, SettledProduction, WellFormed, GoodLabels;
    forall m, x | Claims(items, labels, m, x) && Reach(e, m, i) ensures eff[i] <= x {
      StartIsClaim(items, layers, roots, core, labels, m, i);
    }
    var m :| 0 <= m < |start| && start[m] == eff[i] && Reach(e, m, i);
    assert eff[i] < INF by { LayersBelowInf(items, layers); }
    StartIsClaim(items, layers, roots, core, labels, m, i);
    if Unreferenced(items, i) {
      OnlyItselfReaches(items, core, m, i);
    }
  }

  lemma LayersBelowInf(items: seq<Item>, layers: nat)
    requires WellFormed(items, layers)
    ensures layers < INF
  {
  }

  /** What floats outside the core was not an extra root before, so the extra roots strictly grow. */
  lemma FloatingWasFree(items: seq<Item>, roots: set<int>, core: set<int>, extra: set<int>, floating: set<int>)
    requires IsCore(items, roots, core) && extra <= roots && floating != {}
    requires forall i :: i in floating ==> Free(items, core, i)
    ensures OutsideCore(items, extra + floating) < OutsideCore(items, extra)
  {
    hide Reach;
    forall r | r in roots ensures r in core {
      ReachSelf(CoreEdges(items), r);
    }
    SomeMember(floating);
    var f :| f in floating;
    assert f in OutsideCore(items, extra) && f !in OutsideCore(items, extra + floating);
  }

  /** `extra` and `labels` are what the round after `r` starts with. */
  ghost predicate Continues(items: seq<Item>, r: Round, extra: set<int>, labels: Labels) {
    && |r.eff| == |items| && r.trace != [] && LabelsOf(r) == labels
    && Floating(items, r.core, r.eff) != {} && extra == r.extra + Floating(items, r.core, r.eff)
  }

  lemma RoundAdded(items: seq<Item>, layers: nat, roots: set<int>, rounds: seq<Round>, r: Round)
    requires RoundsSoFar(items, layers, roots, rounds) && RoundRan(items, layers, roots, r)
    requires rounds == [] ==> r.extra == {} && r.trace[0] == Hints(items)
    requires rounds != [] ==> Continues(items, rounds[|rounds| - 1], r.extra, r.trace[0])
    ensures RoundsSoFar(items, layers, roots, rounds + [r])
  {
    hide RoundRan, Floating;
    assert r.trace != [] by { RoundHasTrace(items, layers, roots, r); }
  }

  lemma RoundHasTrace(items: seq<Item>, layers: nat, roots: set<int>, r: Round)
    requires RoundRan(items, layers, roots, r)
    ensures r.trace != []
  {
  }

  /** Moving tests leaves the production plan settled. */
  lemma SettledSurvivesTests(items: seq<Item>, layers: nat, core: set<int>, labels: Labels, eff: seq<int>, eff': seq<int>)
    requires |labels| == |items| && SettledProduction(items, layers, core, labels, eff) && SameProduction(items, eff, eff')
    ensures SettledProduction(items, layers, core, labels, eff')
  {
    hide Reach, PushEdges, StartLayer;
    forall i | 0 <= i < |items| && InP(items, i)
      ensures IsLowestStart(PushEdges(items, core), Starts(items, core, labels), eff', i)
    {
      assert IsLowestStart(PushEdges(items, core), Starts(items, core, labels), eff, i);
      assert eff'[i] == eff[i];
    }
  }

  lemma PlannedIsInLayers(items: seq<Item>, layers: nat, core: set<int>, labels: Labels, current: Option<int>, eff: seq<int>, eff': seq<int>)
    requires WellFormed(items, layers) && |labels| == |items| && SettledProduction(items, layers, core, labels, eff)
    requires SameProduction(items, eff, eff') && (forall t :: InT(items, t) ==> eff'[t] == 0)
    requires current.Some? ==> current.value >= 0
    ensures InLayers(items, layers, eff') && TestsCount(items, current, eff')
  {
    hide IsLowestStart;
    forall i | 0 <= i < |items| ensures 0 <= eff'[i] <= layers {
      assert InT(items, i) || InP(items, i);
      assert InP(items, i) ==> items[i].fixed.Some? || i in core || Free(items, core, i);
    }
  }

  ghost predicate Unifying(items: seq<Item>, layers: nat, current: Option<int>, groups: seq<seq<int>>, eff0: seq<int>, eff: seq<int>) {
    && InLayers(items, layers, eff) && TestsCount(items, current, eff) && SameProduction(items, eff0, eff)
    && LeastLevel(groups, eff0, eff)
  }

  lemma NothingIsLeast(groups: seq<seq<int>>, eff: seq<int>)
    ensures LeastLevel(groups, eff, eff)
  {
  }

  function RefsOf(items: seq<Item>): Scc.Refs {
    seq(|items|, i requires 0 <= i < |items| => items[i].refs)
  }

  lemma RefsOfInRange(items: seq<Item>, layers: nat)
    requires WellFormed(items, layers)
    ensures Scc.RefsInRange(RefsOf(items))
  {
  }

  lemma NumberingSize(refs: Scc.Refs, comp: seq<int>)
    requires Scc.IsComponentNumbering(refs, comp)
    ensures |comp| == |refs|
  {
  }

  lemma LastRound(items: seq<Item>, layers: nat, roots: set<int>, rounds: seq<Round>)
    requires IsRounds(items, layers, roots, rounds)
    ensures rounds != [] && RoundRan(items, layers, roots, rounds[|rounds| - 1]) && |rounds[0].eff| == |items|
  {
  }

  // ----- the passes -----

  class Planner {
    const items: seq<Item>
    const layers: nat
    const current: Option<int>
    var labels: Labels
    var eff: seq<int>
    var core: set<int>

    ghost predicate Valid()
      reads this
    {
      && WellFormed(items, layers) && (current.Some? ==> current.value >= 0)
      && GoodLabels(items, layers, labels) && |eff| == |items|
    }

    constructor (items: seq<Item>, layers: nat, current: Option<int>)
      requires WellFormed(items, layers) && (current.Some? ==> current.value >= 0)
      ensures Valid() && this.items == items && this.layers == layers && this.current == current
    {
      this.items, this.layers, this.current := items, layers, current;
      labels := Hints(items);
      eff := seq(|items|, _ => 0);
      core := {};
    }

    /** The worklist that closes the core under references. */
    method CloseCore(roots: set<int>)
      requires Valid() && forall r :: r in roots ==> 0 <= r < |items|
      modifies this`core
      ensures IsCore(items, roots, core)
    {
      hide Closing, OutsideCore, IsCore;
      core := roots;
      var stack := ListOf(core);
      ClosingStarts(items, roots, stack);
      var v := 0;
      while stack != []
        invariant Closing(items, roots, core, stack, v, {})
        decreases OutsideCore(items, core), |stack|
      {
        ClosingPops(items, roots, core, stack, v);
        v := stack[|stack| - 1];
        ghost var before := core;
        var rest := stack[..|stack| - 1];
        stack := rest;
        var todo := items[v].refs;
        while todo != {}
          invariant todo <= items[v].refs && v in core
          invariant Closing(items, roots, core, stack, v, todo)
          invariant if core == before then stack == rest else OutsideCore(items, core) < OutsideCore(items, before)
          decreases todo
        {
          SomeMember(todo);
          var w :| w in todo;
          if w !in core && items[w].fixed.None? {
            ClosingAdds(items, roots, core, stack, v, todo, w);
            core := core + {w};
            stack := stack + [w];
          } else {
            ClosingSkips(items, roots, core, stack, v, todo, w);
          }
          todo := todo - {w};
        }
        assert todo == {};
      }
      assert stack == [];
      CoreIsExact(items, roots, core, v);
    }

    /** The `votes` counter for one item. */
    method Tally(n: int) returns (votes: map<int, nat>)
      requires Valid() && 0 <= n < |items|
      ensures forall x :: x in votes <==> exists w :: Carries(items, core, labels, n, w) && labels[w] == Some(x)
      ensures forall x :: x in votes ==> votes[x] == Votes(items, core, labels, n, x, |items|)
    {
      votes := map[];
      for k := 0 to |items|
        invariant forall x :: x in votes ==> exists w :: w < k && Carries(items, core, labels, n, w) && labels[w] == Some(x)
        invariant forall w :: w < k && Carries(items, core, labels, n, w) ==> labels[w].value in votes
        invariant forall x :: x in votes ==> votes[x] == Votes(items, core, labels, n, x, k)
      {
        if Carries(items, core, labels, n, k) {
          var x := labels[k].value;
          if x !in votes {
            VotesOfAbsent(items, core, labels, n, x, k);
          }
          votes := votes[x := (if x in votes then votes[x] else 0) + items[k].size];
        }
      }
    }

    method ElectLabel(n: int) returns (winner: Option<int>)
      requires Valid() && 0 <= n < |items|
      ensures winner.Some? ==> WonBy(items, core, labels, n, winner.value)
      ensures winner.None? ==> forall w :: !Carries(items, core, labels, n, w)
    {
      var votes := Tally(n);
      if votes == map[] {
        return None;
      }
      var x := Winner(votes);
      forall y ensures Votes(items, core, labels, n, y, |items|) <= Votes(items, core, labels, n, x, |items|) {
        if y !in votes {
          VotesOfAbsent(items, core, labels, n, y, |items|);
        }
      }
      return Some(x);
    }

    /** Labels for items without a file hint, one vote at a time until no vote is left. */
    method VoteLabels() returns (ghost trace: seq<Labels>)
      requires Valid()
      modifies this`labels
      ensures Valid() && VotesExhausted(items, core, labels)
      ensures IsVoting(items, core, trace) && trace[0] == old(labels) && trace[|trace| - 1] == labels
    {
      hide Votes, WonBy, Carries, SomeVote;
      trace := [labels];
      var changed := true;
      while changed
        invariant Valid() && (!changed ==> VotesExhausted(items, core, labels))
        invariant IsVoting(items, core, trace) && trace[0] == old(labels) && trace[|trace| - 1] == labels
        decreases Unlabelled(labels), changed
      {
        changed := false;
        ghost var was := labels;
        for n := 0 to |items|
          invariant Valid()
          invariant IsVoting(items, core, trace) && trace[0] == old(labels) && trace[|trace| - 1] == labels
          invariant if changed then Unlabelled(labels) < Unlabelled(was) else labels == was
          invariant !changed ==> forall m, w :: m < n && Free(items, core, m) && labels[m].None? ==> !Carries(items, core, labels, m, w)
        {
          if Free(items, core, n) && labels[n].None? {
            var winner := ElectLabel(n);
            if winner.Some? {
              VoteIsStep(items, core, labels, n, winner.value);
              VoteKeepsGood(items, layers, core, labels, n, winner.value);
              labels := labels[n := winner];
              trace := trace + [labels];
              changed := true;
            }
          }
        }
      }
    }

    method Referrers() returns (referrers: seq<set<int>>)
      requires Valid()
      ensures |referrers| == |items|
      ensures forall w, r :: 0 <= w < |items| ==> (r in referrers[w] <==> InP(items, r) && w in items[r].refs)
    {
      referrers := seq(|items|, _ => {});
      for n := 0 to |items|
        invariant |referrers| == |items|
        invariant forall w, r :: 0 <= w < |items| ==> (r in referrers[w] <==> r < n && InP(items, r) && w in items[r].refs)
      {
        if InP(items, n) {
          var todo := items[n].refs;
          while todo != {}
            invariant todo <= items[n].refs && |referrers| == |items|
            invariant forall w, r :: 0 <= w < |items| ==>
              (r in referrers[w] <==> r < n + 1 && InP(items, r) && w in items[r].refs && !(r == n && w in todo))
            decreases todo
          {
            SomeMember(todo);
            var w :| w in todo;
            referrers := referrers[w := referrers[w] + {n}];
            todo := todo - {w};
          }
        }
      }
    }

    /** `min(..., default=INF)` over the layers of some items. */
    method Lowest(rs: set<int>) returns (m: int, ghost at: int)
      requires forall r :: r in rs ==> 0 <= r < |eff|
      ensures rs == {} ==> m == INF
      ensures rs != {} ==> at in rs && m == eff[at]
      ensures forall r :: r in rs ==> m <= eff[r]
    {
      m, at := INF, 0;
      if rs == {} {
        return;
      }
      var todo := rs;
      SomeMember(todo);
      var f :| f in todo;
      m, at := eff[f], f;
      while todo != {}
        invariant todo <= rs && at in rs && m == eff[at]
        invariant forall r :: r in rs - todo ==> m <= eff[r]
        decreases todo
      {
        SomeMember(todo);
        var r :| r in todo;
        if eff[r] < m {
          m, at := eff[r], r;
        }
        todo := todo - {r};
      }
    }

    /** Push every free item down to its lowest referrer, until nothing moves. */
    method PushDown(referrers: seq<set<int>>)
      requires Valid() && |referrers| == |items|
      requires forall w, r :: 0 <= w < |items| ==> (r in referrers[w] <==> InP(items, r) && w in items[r].refs)
      requires eff == Starts(items, core, labels)
      modifies this`eff
      ensures Valid() && Pushing(items, core, Starts(items, core, labels), eff) && RefersDown(items, core, eff)
    {
      hide StartReaches, Sum;
      ghost var start := Starts(items, core, labels);
      PushingStarts(items, core, start);
      var changed := true;
      while changed
        invariant Valid() && Pushing(items, core, start, eff) && (!changed ==> RefersDown(items, core, eff))
        invariant forall i :: 0 <= i < |items| ==> start[i] <= INF
        decreases Sum(eff), changed
      {
        changed := false;
        ghost var was := eff;
        SumBounds(was, INF);
        for n := 0 to |items|
          invariant Valid() && Pushing(items, core, start, eff)
          invariant if changed then Sum(eff) < Sum(was) else eff == was
          invariant !changed ==> forall v, w :: (v, w) in PushEdges(items, core) && w < n ==> eff[w] <= eff[v]
        {
          if Free(items, core, n) {
            assert forall r :: r in referrers[n] ==> InP(items, r);
            var m, at := Lowest(referrers[n]);
            if m < eff[n] {
              PushStep(items, core, start, eff, at, n);
              SumUpdate(eff, n, m);
              eff := eff[n := m];
              changed := true;
            }
          }
        }
      }
    }

    /** The `while True` of `plan`: whatever no layer claims becomes a root of the core, and the passes run again. */
    method PlanProduction(roots: set<int>) returns (ghost rounds: seq<Round>)
      requires Valid() && forall r :: r in roots ==> 0 <= r < |items|
      modifies this
      ensures Valid() && IsRounds(items, layers, roots, rounds)
      ensures var last := rounds[|rounds| - 1]; last.core == core && LabelsOf(last) == labels && last.eff == eff
      ensures SettledProduction(items, layers, core, labels, eff)
    {
      hide IsCore, SomeVote, Pushing, RefersDown, SettledProduction, VotesExhausted;
      var referrers := Referrers();
      labels := Hints(items);
      var extraRoots: set<int> := {};
      rounds := [];
      while true
        invariant Valid() && RoundsSoFar(items, layers, roots, rounds)
        invariant forall x :: x in extraRoots ==> 0 <= x < |items|
        invariant rounds == [] ==> extraRoots == {} && labels == Hints(items)
        invariant rounds != [] ==> Continues(items, rounds[|rounds| - 1], extraRoots, labels)
        decreases OutsideCore(items, extraRoots)
      {
        CloseCore(roots + extraRoots);
        ghost var trace := VoteLabels();
        eff := Starts(items, core, labels);
        PushDown(referrers);
        RoundAdded(items, layers, roots, rounds, Round(extraRoots, core, trace, eff));
        rounds := rounds + [Round(extraRoots, core, trace, eff)];
        var floating := Floating(items, core, eff);
        if floating == {} {
          PushedIsSettled(items, layers, roots + extraRoots, core, labels, eff);
          return;
        }
        FloatingWasFree(items, roots + extraRoots, core, extraRoots, floating);
        extraRoots := extraRoots + floating;
      }
    }

    method Highest(rs: set<int>) returns (m: int, ghost at: int)
      requires forall r :: r in rs ==> 0 <= r < |items| == |eff|
      ensures m == 0 || (at in rs && items[at].fixed.None? && m == Counted(current, eff[at]))
      ensures forall r :: r in rs && items[r].fixed.None? && 0 <= eff[r] ==> Counted(current, eff[r]) <= m
    {
      m, at := 0, 0;
      var todo := rs;
      while todo != {}
        invariant todo <= rs && (m == 0 || (at in rs && items[at].fixed.None? && m == Counted(current, eff[at])))
        invariant forall r :: r in rs - todo && items[r].fixed.None? && 0 <= eff[r] ==> Counted(current, eff[r]) <= m
        decreases todo
      {
        SomeMember(todo);
        var r :| r in todo;
        if items[r].fixed.None? && Counted(current, eff[r]) > m {
          m, at := Counted(current, eff[r]), r;
        }
        todo := todo - {r};
      }
    }

    /** Lift every test outside `skip` to the highest counted item it refers to, until nothing moves. */
    method Lift(skip: set<int>)
      requires Valid() && InLayers(items, layers, eff) && TestsCount(items, current, eff)
      modifies this`eff
      ensures Valid() && InLayers(items, layers, eff) && TestsCount(items, current, eff)
      ensures SameProduction(items, old(eff), eff) && TestsAbove(items, skip, current, eff)
      ensures forall t :: InT(items, t) ==> IsHighestCounted(LiftEdges(items, skip), current, old(eff), eff, t)
    {
      hide LiftReaches, IsHighestCounted, Sum;
      LiftingStarts(items, layers, skip, current, eff);
      var changed := true;
      while changed
        invariant Valid() && Lifting(items, layers, skip, current, old(eff), eff)
        invariant !changed ==> TestsAbove(items, skip, current, eff)
        decreases |items| * layers - Sum(eff), changed
      {
        changed := false;
        ghost var was := eff;
        SumBounds(was, layers);
        for t := 0 to |items|
          invariant Valid() && Lifting(items, layers, skip, current, old(eff), eff)
          invariant if changed then Sum(eff) > Sum(was) else eff == was
          invariant !changed ==> forall v, w :: (v, w) in LiftEdges(items, skip) && v < t ==> Counted(current, eff[w]) <= eff[v]
        {
          if InT(items, t) && t !in skip {
            var m, at := Highest(items[t].refs);
            if m > eff[t] {
              LiftStep(items, layers, skip, current, old(eff), eff, t, at);
              SumUpdate(eff, t, m);
              eff := eff[t := m];
              changed := true;
            }
          }
        }
        SumBounds(eff, layers);
      }
      FixpointIsHighestCounted(items, layers, skip, current, old(eff), eff);
    }

    /** `max(x.eff for x in g)`, for a group that always has its including test as a member. */
    method GroupTop(g: seq<int>) returns (m: int, ghost at: nat)
      requires g != [] && forall k :: 0 <= k < |g| ==> 0 <= g[k] < |eff|
      ensures at < |g| && m == eff[g[at]] && forall k :: 0 <= k < |g| ==> eff[g[k]] <= m
    {
      m, at := eff[g[0]], 0;
      for k := 1 to |g|
        invariant at < |g| && m == eff[g[at]] && forall j :: 0 <= j < k ==> eff[g[j]] <= m
      {
        if eff[g[k]] > m {
          m, at := eff[g[k]], k;
        }
      }
    }

    /** Raise every member of one group to its highest member. */
    method LevelGroup(groups: seq<seq<int>>, gi: int, ghost eff0: seq<int>) returns (changed: bool)
      requires Valid() && GoodGroups(items, groups) && 0 <= gi < |groups| && groups[gi] != []
      requires Unifying(items, layers, current, groups, eff0, eff)
      modifies this`eff
      ensures Valid() && Unifying(items, layers, current, groups, eff0, eff) && Level(eff, groups[gi])
      ensures if changed then Sum(eff) > Sum(old(eff)) else eff == old(eff)
    {
      hide Sum, LeastLevel;
      var g := groups[gi];
      changed := false;
      assert forall k :: 0 <= k < |g| ==> InT(items, g[k]);
      var m, at := GroupTop(g);
      for k := 0 to |g|
        invariant Valid() && Unifying(items, layers, current, groups, eff0, eff)
        invariant m == eff[g[at]] && (forall j :: 0 <= j < |g| ==> eff[g[j]] <= m) && forall j :: 0 <= j < k ==> eff[g[j]] == m
        invariant if changed then Sum(eff) > Sum(old(eff)) else eff == old(eff)
      {
        if eff[g[k]] < m {
          RaiseKeepsLeast(groups, eff0, eff, gi, k, at);
          SumUpdate(eff, g[k], m);
          eff := eff[g[k] := m];
          changed := true;
        }
      }
    }

    /** The group loop of `unify_includes`: the least lift that puts every include group on one layer. */
    method LevelGroups(groups: seq<seq<int>>)
      requires Valid() && GoodGroups(items, groups) && forall g :: 0 <= g < |groups| ==> groups[g] != []
      requires InLayers(items, layers, eff) && TestsCount(items, current, eff)
      modifies this`eff
      ensures Valid() && Unifying(items, layers, current, groups, old(eff), eff) && AllLevel(groups, eff)
    {
      hide Sum, LeastLevel, Level;
      NothingIsLeast(groups, eff);
      var changed := true;
      while changed
        invariant Valid() && Unifying(items, layers, current, groups, old(eff), eff) && (!changed ==> AllLevel(groups, eff))
        decreases |items| * layers - Sum(eff), changed
      {
        changed := false;
        ghost var was := eff;
        SumBounds(was, layers);
        for gi := 0 to |groups|
          invariant Valid() && Unifying(items, layers, current, groups, old(eff), eff)
          invariant if changed then Sum(eff) > Sum(was) else eff == was
          invariant !changed ==> forall g :: 0 <= g < gi ==> Level(eff, groups[g])
        {
          var c := LevelGroup(groups, gi, old(eff));
          changed := changed || c;
        }
        SumBounds(eff, layers);
      }
    }

    /** All of `plan`: production items, then tests, then include groups. */
    method Plan(groups: seq<seq<int>>) 
      returns (comp: seq<int>, big: int, ghost rounds: seq<Round>, ghost lifted: seq<int>, ghost unified: seq<int>)
      requires Valid() && items != []
      requires GoodGroups(items, groups) && forall g :: 0 <= g < |groups| ==> groups[g] != []
      modifies this
      ensures Scc.IsComponentNumbering(RefsOf(items), comp)
      ensures big in comp && forall c :: multiset(comp)[c] <= multiset(comp)[big]
      ensures Valid() && IsRounds(items, layers, Roots(items, comp, big, current), rounds) && |rounds| <= 2
      ensures var last := rounds[|rounds| - 1]; last.core == core && LabelsOf(last) == labels && SameProduction(items, last.eff, eff)
      ensures IsCore(items, Roots(items, comp, big, current) + rounds[|rounds| - 1].extra, core)
      ensures rounds[|rounds| - 1].extra == Floating(items, rounds[0].core, rounds[0].eff)
      ensures Unclaimed(items, labels, rounds[|rounds| - 1].extra)
      ensures SettledProduction(items, layers, core, labels, eff)
      ensures CoreFromSeeds(items, comp, big, current, rounds[|rounds| - 1].extra, core)
      ensures LayersFromLabels(items, core, labels, eff)
      ensures SameProduction(items, lifted, unified) && SameProduction(items, unified, eff)
      ensures TestsAtHighestItem(items, core, current, lifted) && TestsOnItems(items, core, current, lifted)
      ensures AllLevel(groups, unified) && LeastLevel(groups, lifted, unified)
      ensures forall t :: InT(items, t) ==> IsHighestCounted(LiftEdges(items, {}), current, unified, eff, t)
      ensures TestsAbove(items, {}, current, eff) && NoTestBelow(items, current, eff)
    {
      hide CoreFromSeeds, LayersFromLabels, TestsOnItems, NoTestBelow, Roots, Floating;
      hide Scc.IsComponentNumbering, IsRounds, Unclaimed, IsCore, SettledProduction, VotesExhausted, TestsAtHighestItem, AllLevel, LeastLevel, IsHighestCounted, TestsAbove, WellFormed;
      RefsOfInRange(items, layers);
      comp := Scc.Components(RefsOf(items));
      NumberingSize(RefsOf(items), comp);
      big := LargestComponent(comp);
      RootsInRange(items, comp, big, current);
      rounds := PlanProduction(Roots(items, comp, big, current));
      LastRound(items, layers, Roots(items, comp, big, current), rounds);
      TwoRoundsAreEnough(items, layers, Roots(items, comp, big, current), rounds);
      ExtraRootsAreUnclaimed(items, layers, Roots(items, comp, big, current), rounds);
      var planned := eff;
      eff := seq(|items|, i requires 0 <= i < |items| => if InT(items, i) then 0 else planned[i]);
      PlannedIsInLayers(items, layers, core, labels, current, planned, eff);
      ghost var bottom := eff;
      Lift(core);
      LiftFromBottom(items, core, current, bottom, eff);
      HighestMeansItems(items, core, current, eff);
      lifted := eff;
      LevelGroups(groups);
      unified := eff;
      Lift({});
      AboveMeansNotBelow(items, current, eff);
      SettledSurvivesTests(items, layers, core, labels, planned, eff);
      CoreIsFromSeeds(items, comp, big, current, rounds[|rounds| - 1].extra, core);
      SettledIsFromLabels(items, layers, Roots(items, comp, big, current) + rounds[|rounds| - 1].extra, core, labels, eff);
    }
  }
}
