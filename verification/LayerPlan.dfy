/**
 * What `plan` and `unify_includes` of scripts/crate_cut.py decide, stated on values: the core,
 * the start layers, the layers production items are pushed down to, and the layers tests are
 * lifted to. Item ids index `items`; layer 0 is the core crate.
 */
module LayerPlan {
  import opened Walks

  datatype Option<+T> = None | Some(value: T)

  /** The layer of an item nothing has placed yet. */
  const INF: int := 1_000_000

  /** One `Node`: `pinned` also stands for a hit in the pin list, `hint` for the layer its file's domain names. */
  datatype Item = Item(refs: set<int>, fixed: Option<int>, test: bool, pinned: bool, hint: Option<int>, size: nat)

  predicate RealLayer(x: int, layers: nat) {
    1 <= x <= layers
  }

  ghost predicate WellFormed(items: seq<Item>, layers: nat) {
    && layers < INF
    && (forall i, w :: 0 <= i < |items| && w in items[i].refs ==> 0 <= w < |items|)
    && (forall i :: 0 <= i < |items| && items[i].fixed.Some? ==> RealLayer(items[i].fixed.value, layers))
    && (forall i :: 0 <= i < |items| && items[i].hint.Some? ==> RealLayer(items[i].hint.value, layers))
  }

  /** Production items, with everything in a crate already cut. */
  predicate InP(items: seq<Item>, i: int) {
    0 <= i < |items| && (!items[i].test || items[i].fixed.Some?)
  }

  /** Tests that still have to be placed. */
  predicate InT(items: seq<Item>, i: int) {
    0 <= i < |items| && items[i].test && items[i].fixed.None?
  }

  /** A production item whose layer the plan decides. */
  predicate Free(items: seq<Item>, core: set<int>, i: int) {
    0 <= i < |items| && !items[i].test && items[i].fixed.None? && i !in core
  }

  // ----- the core -----

  /** References the core follows: from any item to one that is not in a cut crate. */
  ghost function CoreEdges(items: seq<Item>): (e: set<(int, int)>)
    ensures forall v, w :: (v, w) in e <==>
      0 <= v < |items| && w in items[v].refs && 0 <= w < |items| && items[w].fixed.None?
  {
    set v, w | 0 <= v < |items| && w in items[v].refs && 0 <= w < |items| && items[w].fixed.None? :: (v, w)
  }

  /** Exactly what the roots reach. */
  ghost predicate IsCore(items: seq<Item>, roots: set<int>, core: set<int>) {
    forall w :: w in core <==> exists r :: r in roots && Reach(CoreEdges(items), r, w)
  }

  // ----- production items -----

  type Labels = seq<Option<int>>

  ghost predicate GoodLabels(items: seq<Item>, layers: nat, labels: Labels) {
    && |labels| == |items|
    && (forall i :: 0 <= i < |items| && labels[i].Some? ==> RealLayer(labels[i].value, layers))
    && (forall i :: 0 <= i < |items| && InP(items, i) && items[i].hint.Some? ==> labels[i] == items[i].hint)
  }

  function StartLayer(items: seq<Item>, core: set<int>, labels: Labels, i: int): int
    requires 0 <= i < |items| == |labels|
  {
    if items[i].fixed.Some? then items[i].fixed.value
    else if i in core then 0
    else if labels[i].Some? then labels[i].value
    else INF
  }

  function Starts(items: seq<Item>, core: set<int>, labels: Labels): seq<int>
    requires |labels| == |items|
  {
    seq(|items|, i requires 0 <= i < |items| => StartLayer(items, core, labels, i))
  }

  /** Production references into free items: the way a low layer is passed down. */
  ghost function PushEdges(items: seq<Item>, core: set<int>): (e: set<(int, int)>)
    ensures forall v, w :: (v, w) in e <==>
      && 0 <= v < |items| && (!items[v].test || items[v].fixed.Some?) && w in items[v].refs
      && 0 <= w < |items| && !items[w].test && items[w].fixed.None? && w !in core
  {
    set v, w | 0 <= v < |items| && w in items[v].refs && InP(items, v) && Free(items, core, w) :: (v, w)
  }

  /** Some item that reaches `i` has start layer `x`. */
  ghost predicate StartReaches(e: set<(int, int)>, start: seq<int>, i: int, x: int) {
    exists m :: 0 <= m < |start| && start[m] == x && Reach(e, m, i)
  }

  /** `eff[i]` is the minimum start layer over everything that reaches `i`. */
  ghost predicate IsLowestStart(e: set<(int, int)>, start: seq<int>, eff: seq<int>, i: int)
    requires 0 <= i < |eff|
  {
    && StartReaches(e, start, i, eff[i])
    && forall m :: 0 <= m < |start| && Reach(e, m, i) ==> eff[i] <= start[m]
  }

  /** What the push-down loop has established part way. */
  ghost predicate Pushing(items: seq<Item>, core: set<int>, start: seq<int>, eff: seq<int>) {
    && |eff| == |start| == |items|
    && (forall i :: 0 <= i < |items| ==> 0 <= eff[i] <= start[i])
    && (forall i :: 0 <= i < |items| && !Free(items, core, i) ==> eff[i] == start[i])
    && (forall i :: 0 <= i < |items| ==> StartReaches(PushEdges(items, core), start, i, eff[i]))
  }

  /** No production item sits below one of its free references. */
  ghost predicate RefersDown(items: seq<Item>, core: set<int>, eff: seq<int>) {
    |eff| == |items| && forall v, w :: (v, w) in PushEdges(items, core) ==> eff[w] <= eff[v]
  }

  lemma PushingStarts(items: seq<Item>, core: set<int>, start: seq<int>)
    requires |start| == |items| && forall i :: 0 <= i < |items| ==> 0 <= start[i]
    ensures Pushing(items, core, start, start)
  {
    hide Reach;
    forall i | 0 <= i < |items| ensures StartReaches(PushEdges(items, core), start, i, start[i]) {
      ReachSelf(PushEdges(items, core), i);
      assert Reach(PushEdges(items, core), i, i);
    }
  }

  lemma StartPassesDown(e: set<(int, int)>, start: seq<int>, v: int, w: int, x: int)
    requires StartReaches(e, start, v, x) && (v, w) in e
    ensures StartReaches(e, start, w, x)
  {
    hide Reach;
    var m :| 0 <= m < |start| && start[m] == x && Reach(e, m, v);
    ReachEdge(e, v, w);
    ReachTrans(e, m, v, w);
  }

  lemma PushStep(items: seq<Item>, core: set<int>, start: seq<int>, eff: seq<int>, v: int, w: int)
    requires Pushing(items, core, start, eff) && (v, w) in PushEdges(items, core) && eff[v] < eff[w]
    ensures Pushing(items, core, start, eff[w := eff[v]])
  {
    hide StartReaches, PushEdges;
    StartPassesDown(PushEdges(items, core), start, v, w, eff[v]);
  }

  lemma {:induction false} FallsAlongWalk(e: set<(int, int)>, eff: seq<int>, p: seq<int>, k: nat)
    requires IsWalk(e, p) && k < |p| && forall i :: 0 <= i < |p| ==> 0 <= p[i] < |eff|
    requires forall v, w :: (v, w) in e && 0 <= v < |eff| && 0 <= w < |eff| ==> eff[w] <= eff[v]
    ensures eff[p[k]] <= eff[p[0]]
  {
    if k > 0 {
      FallsAlongWalk(e, eff, p, k - 1);
      assert (p[k - 1], p[k - 1 + 1]) in e;
    }
  }

  /** Layers never rise along production references. */
  lemma FallsAlongReach(items: seq<Item>, core: set<int>, eff: seq<int>, a: int, b: int)
    requires RefersDown(items, core, eff) && 0 <= a < |items| && Reach(PushEdges(items, core), a, b)
    ensures 0 <= b < |items| && eff[b] <= eff[a]
  {
    var e := PushEdges(items, core);
    var p :| WalkFromTo(e, p, a, b);
    forall i | 0 <= i < |p| ensures 0 <= p[i] < |items| {
      if i > 0 { assert (p[i - 1], p[i - 1 + 1]) in e; }
    }
    FallsAlongWalk(e, eff, p, |p| - 1);
  }

  /** At the fixpoint the layer of every item is exactly the lowest start layer that reaches it. */
  lemma FixpointIsLowestStart(items: seq<Item>, core: set<int>, start: seq<int>, eff: seq<int>)
    requires Pushing(items, core, start, eff) && RefersDown(items, core, eff)
    ensures forall i :: 0 <= i < |items| ==> IsLowestStart(PushEdges(items, core), start, eff, i)
  {
    hide Reach, PushEdges;
    forall i, m | 0 <= i < |items| && 0 <= m < |start| && Reach(PushEdges(items, core), m, i)
      ensures eff[i] <= start[m]
    {
      FallsAlongReach(items, core, eff, m, i);
    }
  }

  /** Optimality: no other downward assignment that respects the start layers puts an item higher. */
  lemma LowestStartIsLargestPlan(items: seq<Item>, core: set<int>, start: seq<int>, eff: seq<int>, other: seq<int>, i: int)
    requires |eff| == |start| == |items| && 0 <= i < |items|
    requires IsLowestStart(PushEdges(items, core), start, eff, i)
    requires RefersDown(items, core, other) && forall j :: 0 <= j < |items| ==> other[j] <= start[j]
    ensures other[i] <= eff[i]
  {
    hide Reach, PushEdges;
    var e := PushEdges(items, core);
    var m :| 0 <= m < |start| && start[m] == eff[i] && Reach(e, m, i);
    FallsAlongReach(items, core, other, m, i);
  }

  /** Free items that refer to each other, however indirectly, share a layer: no crate cycle is cut. */
  lemma CyclesShareALayer(items: seq<Item>, core: set<int>, eff: seq<int>, a: int, b: int)
    requires RefersDown(items, core, eff) && 0 <= a < |items| && 0 <= b < |items|
    requires Reach(PushEdges(items, core), a, b) && Reach(PushEdges(items, core), b, a)
    ensures eff[a] == eff[b]
  {
    hide Reach, PushEdges;
    FallsAlongReach(items, core, eff, a, b);
    FallsAlongReach(items, core, eff, b, a);
  }

  /**
   * The settled production plan: a closed core on layer 0, items of cut crates where they are,
   * every other item on a real layer that is the lowest start layer reaching it, and no
   * production item referring to a higher one that the plan could still move.
   */
  ghost predicate SettledProduction(items: seq<Item>, layers: nat, core: set<int>, labels: Labels, eff: seq<int>)
    requires |labels| == |items|
  {
    var start := Starts(items, core, labels);
    && |eff| == |items|
    && (forall i :: 0 <= i < |items| && InP(items, i) ==>
          IsLowestStart(PushEdges(items, core), start, eff, i)
          && (items[i].fixed.Some? ==> eff[i] == items[i].fixed.value)
          && (items[i].fixed.None? && i in core ==> eff[i] == 0)
          && (Free(items, core, i) ==> RealLayer(eff[i], layers)))
    && (forall v, w :: InP(items, v) && w in items[v].refs && 0 <= w < |items| && !items[w].test && items[w].fixed.None? ==>
          eff[w] <= eff[v])
  }

  /** The layer `m` itself stands for: that of its crate if it is cut, else that of its label. */
  ghost predicate Claims(items: seq<Item>, labels: Labels, m: int, x: int)
    requires |labels| == |items|
  {
    0 <= m < |items| && if items[m].fixed.Some? then items[m].fixed.value == x else !items[m].test && labels[m] == Some(x)
  }

  /** No production item refers to `i`. */
  ghost predicate Unreferenced(items: seq<Item>, i: int) {
    forall m :: 0 <= m < |items| && (!items[m].test || items[m].fixed.Some?) ==> i !in items[m].refs
  }

  /**
   * What the layers come from: a free item is never above its own label nor above the crate or label
   * of anything that reaches it, it is exactly on one of these, and on its own label if no
   * production item refers to it.
   */
  ghost predicate LayersFromLabels(items: seq<Item>, core: set<int>, labels: Labels, eff: seq<int>)
    requires |labels| == |items|
  {
    && |eff| == |items|
    && forall i :: 0 <= i < |items| && !items[i].test && items[i].fixed.None? && i !in core ==>
         && (labels[i].Some? ==> eff[i] <= labels[i].value)
         && (forall m, x :: Claims(items, labels, m, x) && Reach(PushEdges(items, core), m, i) ==> eff[i] <= x)
         && (exists m :: Claims(items, labels, m, eff[i]) && Reach(PushEdges(items, core), m, i))
         && (Unreferenced(items, i) && labels[i].Some? ==> eff[i] == labels[i].value)
  }

  // ----- label votes -----

  /** Bytes of the non-core items below id `k` that `n` refers to and that carry label `x`. */
  ghost function Votes(items: seq<Item>, core: set<int>, labels: Labels, n: int, x: int, k: nat): nat
    requires |labels| == |items| && k <= |items| && 0 <= n < |items|
  {
    if k == 0 then 0
    else Votes(items, core, labels, n, x, k - 1)
         + (if Carries(items, core, labels, n, k - 1) && labels[k - 1] == Some(x) then items[k - 1].size else 0)
  }

  /** `n` refers to a labelled item outside the core. */
  predicate Carries(items: seq<Item>, core: set<int>, labels: Labels, n: int, w: int)
    requires |labels| == |items| && 0 <= n < |items|
  {
    w in items[n].refs && 0 <= w < |items| && w !in core && labels[w].Some?
  }

  /** The bytes of a set of items. */
  ghost function Bytes(items: seq<Item>, s: set<int>): nat
    requires forall i :: i in s ==> 0 <= i < |items|
  {
    if s == {} then 0 else
      SomeMember(s);
      var i :| i in s;
      items[i].size + Bytes(items, s - {i})
  }

  lemma {:induction false} BytesPick(items: seq<Item>, s: set<int>, x: int)
    requires x in s && forall i :: i in s ==> 0 <= i < |items|
    ensures Bytes(items, s) == items[x].size + Bytes(items, s - {x})
    decreases s
  {
    SomeMember(s);
    var i :| i in s && Bytes(items, s) == items[i].size + Bytes(items, s - {i});
    if i != x {
      BytesPick(items, s - {i}, x);
      BytesPick(items, s - {x}, i);
      assert s - {i} - {x} == s - {x} - {i};
    }
  }

  /** The items outside the core that `n` refers to and that carry label `x`. */
  ghost function Supporters(items: seq<Item>, core: set<int>, labels: Labels, n: int, x: int, k: nat): set<int>
    requires |labels| == |items| && k <= |items| && 0 <= n < |items|
  {
    set w | 0 <= w < k && w in items[n].refs && w !in core && labels[w] == Some(x)
  }

  /** A label's vote is the bytes of its supporters. */
  lemma {:induction false} VotesAreBytes(items: seq<Item>, core: set<int>, labels: Labels, n: int, x: int, k: nat)
    requires |labels| == |items| && k <= |items| && 0 <= n < |items|
    ensures Votes(items, core, labels, n, x, k) == Bytes(items, Supporters(items, core, labels, n, x, k))
  {
    if k > 0 {
      VotesAreBytes(items, core, labels, n, x, k - 1);
      var now, before := Supporters(items, core, labels, n, x, k), Supporters(items, core, labels, n, x, k - 1);
      if k - 1 in now {
        BytesPick(items, now, k - 1);
        assert now - {k - 1} == before;
      } else {
        assert now == before;
      }
    }
  }

  /** `n` had no label and takes one that most of its labelled references carry. */
  ghost predicate VoteStep(items: seq<Item>, core: set<int>, labels: Labels, labels': Labels, n: int) {
    && |labels| == |items| && Free(items, core, n) && labels[n].None?
    && exists x, w {:trigger labels[n := Some(x)], Carries(items, core, labels, n, w)} ::
         && labels' == labels[n := Some(x)]
         && Carries(items, core, labels, n, w) && labels[w] == Some(x)
         && forall y :: Votes(items, core, labels, n, y, |items|) <= Votes(items, core, labels, n, x, |items|)
  }

  ghost predicate SomeVote(items: seq<Item>, core: set<int>, labels: Labels, labels': Labels) {
    exists n :: VoteStep(items, core, labels, labels', n)
  }

  /** A run of single votes. */
  ghost predicate IsVoting(items: seq<Item>, core: set<int>, trace: seq<Labels>) {
    |trace| > 0 && forall k :: 0 <= k < |trace| - 1 ==> SomeVote(items, core, trace[k], trace[k + 1])
  }

  /** Nobody unlabelled is left with a labelled reference. */
  ghost predicate VotesExhausted(items: seq<Item>, core: set<int>, labels: Labels)
    requires |labels| == |items|
  {
    forall n, w :: Free(items, core, n) && labels[n].None? ==> !Carries(items, core, labels, n, w)
  }

  // ----- rounds -----

  /** The labels items have from their files. */
  function Hints(items: seq<Item>): Labels {
    seq(|items|, i requires 0 <= i < |items| => if InP(items, i) then items[i].hint else None)
  }

  /** One turn of the outer loop: the extra roots it starts with, its core, its votes and its layers. */
  datatype Round = Round(extra: set<int>, core: set<int>, trace: seq<Labels>, eff: seq<int>)

  ghost function LabelsOf(r: Round): Labels
    requires r.trace != []
  {
    r.trace[|r.trace| - 1]
  }

  /** What no layer claims. */
  function Floating(items: seq<Item>, core: set<int>, eff: seq<int>): (f: set<int>)
    requires |eff| == |items|
    ensures forall i :: i in f <==> Free(items, core, i) && eff[i] >= INF
  {
    set i | 0 <= i < |items| && Free(items, core, i) && eff[i] >= INF
  }

  ghost predicate RoundRan(items: seq<Item>, layers: nat, roots: set<int>, r: Round) {
    && r.trace != [] && |r.eff| == |items| && IsCore(items, roots + r.extra, r.core)
    && IsVoting(items, r.core, r.trace) && GoodLabels(items, layers, LabelsOf(r)) && VotesExhausted(items, r.core, LabelsOf(r))
    && Pushing(items, r.core, Starts(items, r.core, LabelsOf(r)), r.eff) && RefersDown(items, r.core, r.eff)
  }

  /** The next round starts with the same labels, and with what floated as new roots. */
  ghost predicate NextRound(items: seq<Item>, r: Round, r': Round) {
    && |r.eff| == |items| && r.trace != [] && r'.trace != []
    && Floating(items, r.core, r.eff) != {} && r'.extra == r.extra + Floating(items, r.core, r.eff)
    && r'.trace[0] == LabelsOf(r)
  }

  /** Rounds from the file labels and no extra roots on. */
  ghost predicate RoundsSoFar(items: seq<Item>, layers: nat, roots: set<int>, rounds: seq<Round>) {
    && (forall k :: 0 <= k < |rounds| ==> RoundRan(items, layers, roots, rounds[k]))
    && (rounds != [] ==> rounds[0].extra == {} && rounds[0].trace[0] == Hints(items))
    && (forall k :: 0 < k < |rounds| ==> NextRound(items, rounds[k - 1], rounds[k]))
  }

  /** The outer loop from start to end: after the last round nothing floats. */
  ghost predicate IsRounds(items: seq<Item>, layers: nat, roots: set<int>, rounds: seq<Round>) {
    && rounds != [] && RoundsSoFar(items, layers, roots, rounds)
    && Floating(items, rounds[|rounds| - 1].core, rounds[|rounds| - 1].eff) == {}
  }

  lemma RootsAreCore(items: seq<Item>, roots: set<int>, core: set<int>)
    requires IsCore(items, roots, core)
    ensures roots <= core
  {
    hide Reach;
    forall r | r in roots ensures r in core {
      ReachSelf(CoreEdges(items), r);
    }
  }

  /** More roots, more core. */
  lemma CoreIsMonotone(items: seq<Item>, roots: set<int>, roots': set<int>, core: set<int>, core': set<int>)
    requires IsCore(items, roots, core) && IsCore(items, roots', core') && roots <= roots'
    ensures core <= core'
  {
    hide Reach;
    forall w | w in core ensures w in core' {
      var r :| r in roots && Reach(CoreEdges(items), r, w);
      assert r in roots';
    }
  }

  /** What a core item refers to, outside the cut crates, is core. */
  lemma CoreIsClosed(items: seq<Item>, roots: set<int>, core: set<int>, v: int, w: int)
    requires IsCore(items, roots, core) && v in core && (v, w) in CoreEdges(items)
    ensures w in core
  {
    hide Reach;
    var r :| r in roots && Reach(CoreEdges(items), r, v);
    ReachEdge(CoreEdges(items), v, w);
    ReachTrans(CoreEdges(items), r, v, w);
  }

  /** What floats has no label, and whoever refers to it from production floats as well. */
  lemma FloatingIsUnclaimed(items: seq<Item>, layers: nat, roots: set<int>, r: Round, i: int, v: int)
    requires WellFormed(items, layers) && RoundRan(items, layers, roots, r)
    requires i in Floating(items, r.core, r.eff)
    ensures LabelsOf(r)[i].None? && items[i].hint.None?
    ensures InP(items, v) && i in items[v].refs ==> v in Floating(items, r.core, r.eff)
  {
    hide Reach, IsCore, StartReaches, IsVoting, VotesExhausted;
    var start := Starts(items, r.core, LabelsOf(r));
    assert start[i] == StartLayer(items, r.core, LabelsOf(r), i);
    if InP(items, v) && i in items[v].refs {
      assert (v, i) in PushEdges(items, r.core);
      assert start[v] == StartLayer(items, r.core, LabelsOf(r), v);
    }
  }

  /** Later rounds have more core. */
  lemma RoundCoreGrows(items: seq<Item>, layers: nat, roots: set<int>, r: Round, r': Round)
    requires RoundRan(items, layers, roots, r) && RoundRan(items, layers, roots, r') && NextRound(items, r, r')
    ensures r.core <= r'.core && Floating(items, r.core, r.eff) <= r'.core
  {
    hide Reach, IsVoting, VotesExhausted, Pushing, RefersDown, GoodLabels, Floating;
    hide IsCore;
    CoreIsMonotone(items, roots + r.extra, roots + r'.extra, r.core, r'.core);
    RootsAreCore(items, roots + r'.extra, r'.core);
  }

  /** No vote is left for a second round: its core only takes labelled items away. */
  lemma SecondRoundDoesNotVote(items: seq<Item>, layers: nat, roots: set<int>, r: Round, r': Round)
    requires RoundRan(items, layers, roots, r) && RoundRan(items, layers, roots, r') && NextRound(items, r, r')
    ensures |r'.trace| == 1 && LabelsOf(r') == LabelsOf(r)
  {
    hide IsCore, Pushing, RefersDown, SomeVote, VotesExhausted;
    RoundCoreGrows(items, layers, roots, r, r');
    assert |r'.trace| > 1 ==> SomeVote(items, r'.core, r'.trace[0], r'.trace[0 + 1]);
    forall next ensures !SomeVote(items, r'.core, LabelsOf(r), next) {
      ExhaustedStaysSo(items, r.core, r'.core, LabelsOf(r), next);
    }
  }

  lemma ExhaustedStaysSo(items: seq<Item>, core: set<int>, core': set<int>, labels: Labels, next: Labels)
    requires |labels| == |items| && VotesExhausted(items, core, labels) && core <= core'
    ensures VotesExhausted(items, core', labels) && !SomeVote(items, core', labels, next)
  {
    hide Votes;
    forall n, w | Free(items, core', n) && labels[n].None? ensures !Carries(items, core', labels, n, w) {
      assert !Carries(items, core, labels, n, w);
    }
  }

  /** A way down to an item outside the later core avoids that core altogether. */
  lemma {:induction false} WalkAvoidsCore(items: seq<Item>, roots: set<int>, core: set<int>, core': set<int>, p: seq<int>, k: nat)
    requires IsCore(items, roots, core') && IsWalk(PushEdges(items, core), p) && k < |p| && p[|p| - 1] !in core'
    ensures p[k] !in core'
    decreases |p| - k
  {
    hide IsCore;
    if k < |p| - 1 {
      WalkAvoidsCore(items, roots, core, core', p, k + 1);
      assert (p[k], p[k + 1]) in PushEdges(items, core);
      if p[k] in core' {
        CoreIsClosed(items, roots, core', p[k], p[k + 1]);
      }
    }
  }

  lemma ReachAvoidsCore(items: seq<Item>, roots: set<int>, core: set<int>, core': set<int>, m: int, i: int)
    requires IsCore(items, roots, core') && Reach(PushEdges(items, core), m, i) && i !in core'
    ensures Reach(PushEdges(items, core'), m, i) && m !in core'
  {
    hide IsCore;
    var p :| WalkFromTo(PushEdges(items, core), p, m, i);
    forall k | 0 <= k < |p| ensures p[k] !in core' {
      WalkAvoidsCore(items, roots, core, core', p, k);
    }
    forall k | 0 <= k < |p| - 1 ensures (p[k], p[k + 1]) in PushEdges(items, core') {
      assert (p[k], p[k + 1]) in PushEdges(items, core);
    }
    assert WalkFromTo(PushEdges(items, core'), p, m, i);
  }

  /** A claimed item is reached from one that starts on a layer. */
  lemma ClaimedFrom(items: seq<Item>, layers: nat, roots: set<int>, r: Round, i: int) returns (m: int)
    requires RoundRan(items, layers, roots, r) && 0 <= i < |items| && r.eff[i] < INF
    ensures 0 <= m < |items| && StartLayer(items, r.core, LabelsOf(r), m) < INF && Reach(PushEdges(items, r.core), m, i)
  {
    hide Reach, IsCore, IsVoting, VotesExhausted, PushEdges, RefersDown;
    var start := Starts(items, r.core, LabelsOf(r));
    assert StartReaches(PushEdges(items, r.core), start, i, r.eff[i]);
    m :| 0 <= m < |start| && start[m] == r.eff[i] && Reach(PushEdges(items, r.core), m, i);
  }

  lemma FloorFromStart(items: seq<Item>, layers: nat, roots: set<int>, r: Round, m: int, i: int)
    requires RoundRan(items, layers, roots, r) && 0 <= m < |items| && Reach(PushEdges(items, r.core), m, i)
    ensures 0 <= i < |items| && r.eff[i] <= StartLayer(items, r.core, LabelsOf(r), m)
  {
    hide Reach, IsCore, IsVoting, VotesExhausted, PushEdges, RefersDown, StartReaches, StartLayer;
    FallsAlongReach(items, r.core, r.eff, m, i);
    assert r.eff[m] <= Starts(items, r.core, LabelsOf(r))[m];
  }

  /** An item that is claimed in one round and not drawn into the next core is claimed in the next round. */
  lemma ClaimedStaysClaimed(items: seq<Item>, layers: nat, roots: set<int>, r: Round, r': Round, i: int)
    requires RoundRan(items, layers, roots, r) && RoundRan(items, layers, roots, r') && NextRound(items, r, r')
    requires Free(items, r'.core, i)
    ensures r'.eff[i] < INF
  {
    hide Reach, IsCore, IsVoting, VotesExhausted, PushEdges, Pushing, RefersDown, GoodLabels;
    RoundCoreGrows(items, layers, roots, r, r');
    SecondRoundDoesNotVote(items, layers, roots, r, r');
    assert Free(items, r.core, i) && i !in Floating(items, r.core, r.eff);
    var m := ClaimedFrom(items, layers, roots, r, i);
    ReachAvoidsCore(items, roots + r'.extra, r.core, r'.core, m, i);
    FloorFromStart(items, layers, roots, r', m, i);
  }

  /**
   * The outer loop takes one round, or two: whatever floats at all floats in the first round, and
   * the second one neither votes nor leaves anything floating.
   */
  lemma TwoRoundsAreEnough(items: seq<Item>, layers: nat, roots: set<int>, rounds: seq<Round>)
    requires WellFormed(items, layers) && IsRounds(items, layers, roots, rounds)
    ensures |rounds| <= 2
    ensures LabelsOf(rounds[|rounds| - 1]) == LabelsOf(rounds[0])
    ensures rounds[|rounds| - 1].extra == Floating(items, rounds[0].core, rounds[0].eff)
  {
    hide IsCore, IsVoting, VotesExhausted, Pushing, RefersDown, GoodLabels;
    assert |rounds[|rounds| - 1].eff| == |items|;
    if |rounds| > 1 {
      assert NextRound(items, rounds[1 - 1], rounds[1]) && |rounds[1].eff| == |items|;
      SecondRoundDoesNotVote(items, layers, roots, rounds[0], rounds[1]);
      forall i | Free(items, rounds[1].core, i) ensures rounds[1].eff[i] < INF {
        ClaimedStaysClaimed(items, layers, roots, rounds[0], rounds[1], i);
      }
      assert |rounds| > 2 ==> NextRound(items, rounds[2 - 1], rounds[2]);
    }
  }

  /**
   * The extra roots are production items that no file hint and no vote claims and the roots do not
   * reach, and every production item that refers to one is one.
   */
  ghost predicate Unclaimed(items: seq<Item>, labels: Labels, extra: set<int>) {
    && |labels| == |items|
    && (forall x :: x in extra ==> 0 <= x < |items| && !items[x].test && items[x].fixed.None? && items[x].hint.None? && labels[x].None?)
    && (forall v, x :: x in extra && InP(items, v) && x in items[v].refs ==> v in extra)
  }

  lemma ExtraRootsAreUnclaimed(items: seq<Item>, layers: nat, roots: set<int>, rounds: seq<Round>)
    requires WellFormed(items, layers) && IsRounds(items, layers, roots, rounds)
    ensures Unclaimed(items, LabelsOf(rounds[|rounds| - 1]), rounds[|rounds| - 1].extra)
  {
    TwoRoundsAreEnough(items, layers, roots, rounds);
    var r := rounds[0];
    assert RoundRan(items, layers, roots, r);
    var extra := Floating(items, r.core, r.eff);
    hide IsCore, IsVoting, VotesExhausted, Pushing, RefersDown, Floating;
    forall x | x in extra ensures items[x].hint.None? && LabelsOf(r)[x].None? {
      FloatingIsUnclaimed(items, layers, roots, r, x, 0);
    }
    forall v, x | x in extra && InP(items, v) && x in items[v].refs ensures v in extra {
      FloatingIsUnclaimed(items, layers, roots, r, x, v);
    }
  }

  // ----- tests -----

  /** What a layer counts for under `current`: a layer above it is not cut yet and still sits at the bottom. */
  function Counted(current: Option<int>, x: int): int {
    if current.None? || x <= current.value then x else 0
  }

  /** References that lift a test; `skip` are the tests that stay. */
  ghost function LiftEdges(items: seq<Item>, skip: set<int>): (e: set<(int, int)>)
    ensures forall v, w :: (v, w) in e <==>
      && 0 <= v < |items| && items[v].test && items[v].fixed.None? && v !in skip
      && w in items[v].refs && 0 <= w < |items| && items[w].fixed.None?
  {
    set v, w | 0 <= v < |items| && w in items[v].refs && InT(items, v) && v !in skip && 0 <= w < |items| && items[w].fixed.None? :: (v, w)
  }

  /** `t` reaches an item whose starting layer counts for `x`. */
  ghost predicate LiftReaches(e: set<(int, int)>, current: Option<int>, eff0: seq<int>, t: int, x: int) {
    exists u :: 0 <= u < |eff0| && Counted(current, eff0[u]) == x && Reach(e, t, u)
  }

  /** `eff[t]` is the highest counted layer of anything `t` reaches. */
  ghost predicate IsHighestCounted(e: set<(int, int)>, current: Option<int>, eff0: seq<int>, eff: seq<int>, t: int)
    requires 0 <= t < |eff|
  {
    && LiftReaches(e, current, eff0, t, eff[t])
    && forall u :: 0 <= u < |eff0| && Reach(e, t, u) ==> Counted(current, eff0[u]) <= eff[t]
  }

  ghost predicate InLayers(items: seq<Item>, layers: nat, eff: seq<int>) {
    |eff| == |items| && forall i :: 0 <= i < |items| ==> 0 <= eff[i] <= layers
  }

  /** No test to place sits above the layer being cut. */
  ghost predicate TestsCount(items: seq<Item>, current: Option<int>, eff: seq<int>) {
    |eff| == |items| && forall t :: InT(items, t) ==> Counted(current, eff[t]) == eff[t]
  }

  ghost predicate SameProduction(items: seq<Item>, eff: seq<int>, eff': seq<int>) {
    |eff| == |eff'| == |items| && forall i :: 0 <= i < |items| && !InT(items, i) ==> eff'[i] == eff[i]
  }

  ghost predicate Lifting(items: seq<Item>, layers: nat, skip: set<int>, current: Option<int>, eff0: seq<int>, eff: seq<int>) {
    && InLayers(items, layers, eff) && SameProduction(items, eff0, eff) && TestsCount(items, current, eff)
    && (forall t :: InT(items, t) ==> eff0[t] <= eff[t] && LiftReaches(LiftEdges(items, skip), current, eff0, t, eff[t]))
  }

  /** Every lifted test is at least as high as each counted item it refers to. */
  ghost predicate TestsAbove(items: seq<Item>, skip: set<int>, current: Option<int>, eff: seq<int>) {
    |eff| == |items| && forall v, w :: (v, w) in LiftEdges(items, skip) ==> Counted(current, eff[w]) <= eff[v]
  }

  lemma LiftingStarts(items: seq<Item>, layers: nat, skip: set<int>, current: Option<int>, eff: seq<int>)
    requires InLayers(items, layers, eff) && TestsCount(items, current, eff)
    ensures Lifting(items, layers, skip, current, eff, eff)
  {
    hide Reach, LiftEdges;
    forall t | InT(items, t) ensures LiftReaches(LiftEdges(items, skip), current, eff, t, eff[t]) {
      ReachSelf(LiftEdges(items, skip), t);
      assert Counted(current, eff[t]) == eff[t] && Reach(LiftEdges(items, skip), t, t);
    }
  }

  lemma LiftStep(items: seq<Item>, layers: nat, skip: set<int>, current: Option<int>, eff0: seq<int>, eff: seq<int>, v: int, w: int)
    requires Lifting(items, layers, skip, current, eff0, eff) && (v, w) in LiftEdges(items, skip)
    requires eff[v] < Counted(current, eff[w])
    ensures Lifting(items, layers, skip, current, eff0, eff[v := Counted(current, eff[w])])
  {
    hide Reach;
    var e := LiftEdges(items, skip);
    ReachEdge(e, v, w);
    if InT(items, w) {
      assert LiftReaches(e, current, eff0, w, eff[w]);
      var u :| 0 <= u < |eff0| && Counted(current, eff0[u]) == eff[w] && Reach(e, w, u);
      ReachTrans(e, v, w, u);
    }
    assert LiftReaches(e, current, eff0, v, Counted(current, eff[w]));
  }

  lemma {:induction false} RisesAlongWalk(items: seq<Item>, skip: set<int>, current: Option<int>, eff: seq<int>, p: seq<int>, k: nat)
    requires TestsAbove(items, skip, current, eff) && TestsCount(items, current, eff)
    requires IsWalk(LiftEdges(items, skip), p) && k < |p| && 0 <= p[0] < |items| && 0 <= p[k] < |items|
    ensures Counted(current, eff[p[k]]) <= Counted(current, eff[p[0]])
  {
    if k > 0 {
      assert (p[k - 1], p[k - 1 + 1]) in LiftEdges(items, skip);
      RisesAlongWalk(items, skip, current, eff, p, k - 1);
    }
  }

  /** At the fixpoint a test's layer is exactly the highest counted layer it reaches. */
  lemma FixpointIsHighestCounted(items: seq<Item>, layers: nat, skip: set<int>, current: Option<int>, eff0: seq<int>, eff: seq<int>)
    requires TestsCount(items, current, eff0) && Lifting(items, layers, skip, current, eff0, eff) && TestsAbove(items, skip, current, eff)
    ensures forall t :: InT(items, t) ==> IsHighestCounted(LiftEdges(items, skip), current, eff0, eff, t)
  {
    var e := LiftEdges(items, skip);
    forall t, u | InT(items, t) && 0 <= u < |eff0| && Reach(e, t, u) ensures Counted(current, eff0[u]) <= eff[t] {
      var p :| WalkFromTo(e, p, t, u);
      RisesAlongWalk(items, skip, current, eff, p, |p| - 1);
      assert Counted(current, eff0[u]) <= Counted(current, eff[u]);
    }
  }

  /** With the tests starting at the bottom, only production items count, and a test that stays keeps layer 0. */
  ghost predicate TestsAtHighestItem(items: seq<Item>, core: set<int>, current: Option<int>, eff: seq<int>) {
    && |eff| == |items|
    && forall t :: InT(items, t) ==>
         && (forall p :: 0 <= p < |items| && !items[p].test && Reach(LiftEdges(items, core), t, p) ==>
               Counted(current, eff[p]) <= eff[t])
         && (eff[t] == 0 || exists p ::
               0 <= p < |items| && !items[p].test && Reach(LiftEdges(items, core), t, p) && Counted(current, eff[p]) == eff[t])
         && (t in core ==> eff[t] == 0)
  }

  lemma LiftEdgesHitUnfixed(items: seq<Item>, skip: set<int>, t: int, u: int)
    requires InT(items, t) && Reach(LiftEdges(items, skip), t, u)
    ensures 0 <= u < |items| && items[u].fixed.None?
  {
    var p :| WalkFromTo(LiftEdges(items, skip), p, t, u);
    if |p| > 1 { assert (p[|p| - 2], p[|p| - 2 + 1]) in LiftEdges(items, skip); }
  }

  lemma SkippedTestsStay(items: seq<Item>, skip: set<int>, t: int, u: int)
    requires t in skip && Reach(LiftEdges(items, skip), t, u)
    ensures u == t
  {
    ReachStaysInside(LiftEdges(items, skip), {t}, t, u);
  }

  lemma LiftFromBottom(items: seq<Item>, core: set<int>, current: Option<int>, eff0: seq<int>, eff: seq<int>)
    requires SameProduction(items, eff0, eff) && forall t :: InT(items, t) ==> eff0[t] == 0
    requires current.Some? ==> current.value >= 0
    requires forall t :: InT(items, t) ==> IsHighestCounted(LiftEdges(items, core), current, eff0, eff, t)
    ensures TestsAtHighestItem(items, core, current, eff)
  {
    hide Reach, LiftEdges;
    var e := LiftEdges(items, core);
    forall t | InT(items, t)
      ensures eff[t] == 0 || exists p :: 0 <= p < |items| && !items[p].test && Reach(e, t, p) && Counted(current, eff[p]) == eff[t]
      ensures t in core ==> eff[t] == 0
    {
      var u :| 0 <= u < |eff0| && Counted(current, eff0[u]) == eff[t] && Reach(e, t, u);
      LiftEdgesHitUnfixed(items, core, t, u);
      if t in core { SkippedTestsStay(items, core, t, u); }
    }
  }

  /** The same said of the items: a layer above `current` does not count. */
  ghost predicate TestsOnItems(items: seq<Item>, core: set<int>, current: Option<int>, eff: seq<int>) {
    && |eff| == |items|
    && forall t :: 0 <= t < |items| && items[t].test && items[t].fixed.None? ==>
         && (forall p :: Lifts(items, core, current, eff, t, p) ==> eff[p] <= eff[t])
         && (eff[t] == 0 || exists p :: Lifts(items, core, current, eff, t, p) && eff[p] == eff[t])
         && (t in core ==> eff[t] == 0)
  }

  ghost predicate Lifts(items: seq<Item>, core: set<int>, current: Option<int>, eff: seq<int>, t: int, p: int)
    requires |eff| == |items|
  {
    0 <= p < |items| && !items[p].test && (current.Some? ==> eff[p] <= current.value) && Reach(LiftEdges(items, core), t, p)
  }

  lemma HighestMeansItems(items: seq<Item>, core: set<int>, current: Option<int>, eff: seq<int>)
    requires TestsAtHighestItem(items, core, current, eff)
    ensures TestsOnItems(items, core, current, eff)
  {
    hide Reach, LiftEdges;
    forall t | InT(items, t) && eff[t] != 0 ensures exists p :: Lifts(items, core, current, eff, t, p) && eff[p] == eff[t] {
      var p :| 0 <= p < |items| && !items[p].test && Reach(LiftEdges(items, core), t, p) && Counted(current, eff[p]) == eff[t];
      assert Lifts(items, core, current, eff, t, p);
    }
    forall t, p | InT(items, t) && Lifts(items, core, current, eff, t, p) ensures eff[p] <= eff[t] {
      assert Counted(current, eff[p]) == eff[p];
    }
  }

  /** No test is below an item it refers to, if that item's layer counts. */
  ghost predicate NoTestBelow(items: seq<Item>, current: Option<int>, eff: seq<int>) {
    && |eff| == |items|
    && forall t, r ::
         && 0 <= t < |items| && items[t].test && items[t].fixed.None? && r in items[t].refs
         && 0 <= r < |items| && items[r].fixed.None? && (current.Some? ==> eff[r] <= current.value)
         ==> eff[r] <= eff[t]
  }

  lemma AboveMeansNotBelow(items: seq<Item>, current: Option<int>, eff: seq<int>)
    requires TestsAbove(items, {}, current, eff)
    ensures NoTestBelow(items, current, eff)
  {
    forall t, r | InT(items, t) && r in items[t].refs && 0 <= r < |items| && items[r].fixed.None? && (current.Some? ==> eff[r] <= current.value)
      ensures eff[r] <= eff[t]
    {
      assert (t, r) in LiftEdges(items, {}) && Counted(current, eff[r]) == eff[r];
    }
  }

  // ----- include groups -----

  ghost predicate GoodGroups(items: seq<Item>, groups: seq<seq<int>>) {
    forall g, k :: 0 <= g < |groups| && 0 <= k < |groups[g]| ==> InT(items, groups[g][k])
  }

  ghost predicate Level(eff: seq<int>, g: seq<int>) {
    forall i, j :: 0 <= i < |g| && 0 <= j < |g| && 0 <= g[i] < |eff| && 0 <= g[j] < |eff| ==> eff[g[i]] == eff[g[j]]
  }

  ghost predicate AllLevel(groups: seq<seq<int>>, eff: seq<int>) {
    forall g :: 0 <= g < |groups| ==> Level(eff, groups[g])
  }

  /** `other` is at least as high as `eff` everywhere. */
  ghost predicate AtMost(eff: seq<int>, other: seq<int>) {
    |eff| == |other| && forall i :: 0 <= i < |eff| ==> eff[i] <= other[i]
  }

  /** Every assignment at least as high as `eff0` that keeps each group on one layer is at least as high as `eff`. */
  ghost predicate LeastLevel(groups: seq<seq<int>>, eff0: seq<int>, eff: seq<int>) {
    forall other :: AtMost(eff0, other) && AllLevel(groups, other) ==> AtMost(eff, other)
  }

  /** Raising a member to the level of another member of its group is forced. */
  lemma RaiseKeepsLeast(groups: seq<seq<int>>, eff0: seq<int>, eff: seq<int>, g: int, i: int, j: int)
    requires LeastLevel(groups, eff0, eff) && 0 <= g < |groups| && 0 <= i < |groups[g]| && 0 <= j < |groups[g]|
    requires 0 <= groups[g][i] < |eff| && 0 <= groups[g][j] < |eff|
    ensures LeastLevel(groups, eff0, eff[groups[g][i] := eff[groups[g][j]]])
  {
    forall other | AtMost(eff0, other) && AllLevel(groups, other)
      ensures AtMost(eff[groups[g][i] := eff[groups[g][j]]], other)
    {
      assert AtMost(eff, other) && Level(other, groups[g]);
      assert other[groups[g][i]] == other[groups[g][j]];
    }
  }

  // ----- sums, for termination -----

  ghost function Sum(s: seq<int>): int {
    if s == [] then 0 else s[0] + Sum(s[1..])
  }

  lemma {:induction false} SumUpdate(s: seq<int>, i: int, x: int)
    requires 0 <= i < |s|
    ensures Sum(s[i := x]) == Sum(s) - s[i] + x
  {
    if i == 0 {
      assert s[0 := x][1..] == s[1..];
    } else {
      assert s[i := x][1..] == s[1..][i - 1 := x];
      SumUpdate(s[1..], i - 1, x);
    }
  }

  lemma {:induction false} SumBounds(s: seq<int>, hi: int)
    requires forall i :: 0 <= i < |s| ==> 0 <= s[i] <= hi
    ensures 0 <= Sum(s) <= |s| * hi
  {
    if s != [] {
      SumBounds(s[1..], hi);
      assert |s| * hi == |s[1..]| * hi + hi;
    }
  }
}
