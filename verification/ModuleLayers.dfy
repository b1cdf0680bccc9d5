/**
 * The module graph checks of scripts/module_layers.py: the three-colour cycle search, the
 * longest-path layers, the allowlist filter and the reverse closure. Module names are only
 * compared, so numbers stand for them; a sorted iteration is one of the orders allowed here.
 */
module ModuleLayers {
  import opened Walks

  /** `edges`: a module that is only ever a target need not be a key. */
  type Graph = map<int, set<int>>

  ghost function Edges(g: Graph): (e: set<(int, int)>)
    ensures forall a, b :: (a, b) in e <==> a in g && b in g[a]
  {
    set a, b | a in g && b in g[a] :: (a, b)
  }

  ghost function Nodes(g: Graph): (s: set<int>)
    ensures forall a :: a in g ==> a in s
    ensures forall a, b :: a in g && b in g[a] ==> b in s
  {
    g.Keys + (set a, b | a in g && b in g[a] :: b)
  }

  function Targets(g: Graph, m: int): set<int> {
    if m in g then g[m] else {}
  }

  /** `without`: the references that are not allowed. */
  function Without(g: Graph, allowed: set<(int, int)>): (h: Graph)
    ensures Edges(h) == Edges(g) - allowed && h.Keys == g.Keys
  {
    map a | a in g :: set b | b in g[a] && (a, b) !in allowed
  }

  // ----- cycle search -----

  /** `state`, `stack` and, to argue about finished modules, the order in which they finished. */
  datatype Search = Search(state: map<int, int>, stack: seq<int>, rank: map<int, int>)

  /** State 1 is the stack, state 2 the ranked modules. */
  ghost predicate Coloured(s: Search) {
    && (forall x :: x in s.state ==> s.state[x] == 1 || s.state[x] == 2)
    && (forall x :: x in s.state && s.state[x] == 1 <==> x in s.stack)
    && (forall x :: x in s.state && s.state[x] == 2 <==> x in s.rank)
    && (forall i, j :: 0 <= i < j < |s.stack| ==> s.stack[i] != s.stack[j])
  }

  ghost predicate StackIsPath(e: set<(int, int)>, stack: seq<int>) {
    forall i :: 0 <= i < |stack| - 1 ==> (stack[i], stack[i + 1]) in e
  }

  /** Ranked modules refer only to modules ranked before them. */
  ghost predicate Ranked(e: set<(int, int)>, rank: map<int, int>) {
    && (forall x :: x in rank ==> rank[x] < |rank|)
    && (forall x, y :: (x, y) in e && x in rank ==> y in rank && rank[y] < rank[x])
  }

  ghost predicate Good(g: Graph, s: Search) {
    s.state.Keys <= Nodes(g) && Coloured(s) && StackIsPath(Edges(g), s.stack) && Ranked(Edges(g), s.rank)
  }

  /** Finished modules stay finished, and the path of open ones is as it was. */
  ghost predicate Advanced(s: Search, t: Search) {
    && t.stack == s.stack && s.state.Keys <= t.state.Keys
    && forall x :: x in s.rank ==> x in t.rank && t.rank[x] == s.rank[x]
  }

  ghost function Open(s: Search, m: int): Search {
    Search(s.state[m := 1], s.stack + [m], s.rank)
  }

  ghost function Close(s: Search): Search
    requires s.stack != []
  {
    var m := s.stack[|s.stack| - 1];
    Search(s.state[m := 2], s.stack[..|s.stack| - 1], s.rank[m := |s.rank|])
  }

  lemma OpenColours(s: Search, m: int)
    requires Coloured(s) && m !in s.state
    ensures Coloured(Open(s, m)) && m !in s.rank
  {
    var t := Open(s, m);
    assert forall x :: x in t.stack <==> x in s.stack || x == m;
  }

  lemma OpenKeeps(g: Graph, s: Search, m: int)
    requires Good(g, s) && m in Nodes(g) && m !in s.state
    requires s.stack != [] ==> (s.stack[|s.stack| - 1], m) in Edges(g)
    ensures Good(g, Open(s, m)) && Nodes(g) - Open(s, m).state.Keys < Nodes(g) - s.state.Keys && m !in s.rank
  {
    hide Edges, Nodes, Coloured, Ranked;
    OpenColours(s, m);
    assert m in Nodes(g) - s.state.Keys;
  }

  lemma CloseRanks(e: set<(int, int)>, rank: map<int, int>, m: int)
    requires m !in rank && Ranked(e, rank) && forall y :: (m, y) in e ==> y in rank
    ensures Ranked(e, rank[m := |rank|])
  {
    assert rank[m := |rank|].Keys == rank.Keys + {m};
  }

  lemma CloseColours(s: Search)
    requires Coloured(s) && s.stack != []
    ensures Coloured(Close(s)) && s.stack[|s.stack| - 1] !in s.rank && s.stack[|s.stack| - 1] in s.state
  {
    var m := s.stack[|s.stack| - 1];
    var t := Close(s);
    assert s.stack == t.stack + [m];
    assert m in s.stack && m !in t.stack;
    assert forall x :: x in s.stack <==> x in t.stack || x == m;
  }

  lemma CloseKeeps(g: Graph, s: Search)
    requires s.stack != [] && Good(g, s)
    requires forall y :: (s.stack[|s.stack| - 1], y) in Edges(g) ==> y in s.rank
    ensures Good(g, Close(s))
  {
    hide Edges, Nodes, Coloured, Ranked;
    CloseColours(s);
    CloseRanks(Edges(g), s.rank, s.stack[|s.stack| - 1]);
  }

  /** A call that opened `m`, advanced and closed it again has advanced its caller's search. */
  lemma ClosedHasAdvanced(s: Search, m: int, t: Search)
    requires Advanced(Open(s, m), t) && m !in s.rank
    ensures t.stack != [] && t.stack[|t.stack| - 1] == m && Advanced(s, Close(t)) && m in Close(t).rank
  {
    assert t.stack[..|t.stack| - 1] == s.stack;
  }

  lemma AdvancedTrans(g: Graph, s: Search, t: Search, u: Search)
    requires Advanced(s, t) && Advanced(t, u)
    ensures Advanced(s, u) && Nodes(g) - u.state.Keys <= Nodes(g) - t.state.Keys
  {
  }

  /** A reference back to an open module closes a cycle along the stack. */
  lemma BackEdge(g: Graph, s: Search, k: nat, target: int)
    requires Good(g, s) && k < |s.stack| && s.stack[k] == target && (s.stack[|s.stack| - 1], target) in Edges(g)
    ensures IsCycle(Edges(g), s.stack[k..] + [target])
  {
    var p := s.stack[k..] + [target];
    forall i | 0 <= i < |p| - 1 ensures (p[i], p[i + 1]) in Edges(g) {
      if i < |p| - 2 {
        assert (s.stack[k + i], s.stack[k + i + 1]) in Edges(g);
      }
    }
  }

  lemma FinishedIsAcyclic(g: Graph, s: Search)
    requires Good(g, s) && s.stack == [] && forall a :: a in g ==> a in s.state
    ensures Acyclic(Edges(g))
  {
    forall x, y | (x, y) in Edges(g) ensures x in s.rank && y in s.rank && s.rank[y] < s.rank[x] {
      assert x in s.state && x !in s.stack;
    }
    FallingRankIsAcyclic(Edges(g), s.rank);
  }

  class CycleSearch {
    const g: Graph
    var state: map<int, int>
    var stack: seq<int>
    ghost var rank: map<int, int>

    ghost function Now(): Search
      reads this
    {
      Search(state, stack, rank)
    }

    constructor (g: Graph)
      ensures this.g == g && stack == [] && Good(g, Now())
    {
      this.g := g;
      state, stack, rank := map[], [], map[];
    }

    /** `stack.index(target)`. */
    method Index(target: int) returns (k: nat)
      requires target in stack
      ensures k < |stack| && stack[k] == target
    {
      k := 0;
      while stack[k] != target
        invariant k < |stack| && target in stack[k..]
        decreases |stack| - k
      {
        k := k + 1;
      }
    }

    method Visit(m: int) returns (found: seq<int>)
      requires Good(g, Now()) && m in Nodes(g) && m !in state
      requires stack != [] ==> (stack[|stack| - 1], m) in Edges(g)
      modifies this
      ensures found != [] ==> IsCycle(Edges(g), found)
      ensures found == [] ==> Good(g, Now()) && Advanced(old(Now()), Now()) && m in rank
      decreases Nodes(g) - state.Keys
    {
      hide Edges, Nodes, Good, IsCycle, Advanced;
      ghost var s := Now();
      OpenKeeps(g, s, m);
      state := state[m := 1];
      stack := stack + [m];
      ghost var begun := Now();
      AdvancedSelf(begun);
      var todo := Targets(g, m);
      while todo != {}
        invariant todo <= Targets(g, m) && Good(g, Now()) && Advanced(begun, Now())
        invariant forall y :: y in Targets(g, m) - todo ==> y in rank
        decreases todo
      {
        SomeMember(todo);
        var target :| target in todo;
        ghost var before := Now();
        TargetFacts(g, s, before, m, target);
        if target in state && state[target] == 1 {
          var k := Index(target);
          BackEdge(g, Now(), k, target);
          return stack[k..] + [target];
        }
        if target !in state {
          found := Visit(target);
          if found != [] {
            return;
          }
          AdvancedTrans(g, begun, before, Now());
          RanksStay(before, Now());
        }
        todo := todo - {target};
      }
      LastTarget(g, Now(), m);
      ClosedHasAdvanced(s, m, Now());
      CloseKeeps(g, Now());
      stack := stack[..|stack| - 1];
      state := state[m := 2];
      rank := rank[m := |rank|];
      found := [];
    }
  }

  lemma AdvancedSelf(s: Search)
    ensures Advanced(s, s)
  {
  }

  lemma RanksStay(s: Search, t: Search)
    requires Advanced(s, t)
    ensures forall x :: x in s.rank ==> x in t.rank
  {
  }

  lemma TargetFacts(g: Graph, s: Search, t: Search, m: int, target: int)
    requires Advanced(Open(s, m), t) && Good(g, t) && target in Targets(g, m) && m in Nodes(g) && m !in s.state
    ensures target in Nodes(g) && (m, target) in Edges(g) && t.stack != [] && t.stack[|t.stack| - 1] == m
    ensures target in t.state ==> if t.state[target] == 1 then target in t.stack else target in t.rank
    ensures Nodes(g) - t.state.Keys < Nodes(g) - s.state.Keys
  {
    assert m in Open(s, m).state.Keys && m in t.state.Keys;
    assert m in Nodes(g) - s.state.Keys && m !in Nodes(g) - t.state.Keys;
    assert s.state.Keys <= Open(s, m).state.Keys;
  }

  lemma LastTarget(g: Graph, s: Search, m: int)
    requires forall y :: y in Targets(g, m) ==> y in s.rank
    ensures forall y :: (m, y) in Edges(g) ==> y in s.rank
  {
  }

  /** `find_cycle`: a genuine closed walk, or `[]` exactly when there is none. */
  method FindCycle(g: Graph) returns (found: seq<int>)
    ensures found != [] ==> IsCycle(Edges(g), found)
    ensures found == [] <==> Acyclic(Edges(g))
  {
    hide Edges, Nodes, Good;
    var search := new CycleSearch(g);
    var todo := g.Keys;
    while todo != {}
      invariant todo <= g.Keys && search.g == g && search.stack == [] && Good(g, search.Now())
      invariant forall a :: a in g.Keys - todo ==> a in search.state
      decreases todo
    {
      SomeMember(todo);
      var m :| m in todo;
      if m !in search.state {
        found := search.Visit(m);
        if found != [] {
          return;
        }
        RankedIsVisited(g, search.Now(), m);
      }
      todo := todo - {m};
    }
    FinishedIsAcyclic(g, search.Now());
    found := [];
  }

  lemma RankedIsVisited(g: Graph, s: Search, m: int)
    requires Good(g, s) && m in s.rank
    ensures m in s.state
  {
  }

  // ----- layers -----

  /** `d` is the number of references on the longest chain that starts at `m`. */
  ghost predicate IsDepth(e: set<(int, int)>, m: int, d: int) {
    && (exists p :: IsWalk(e, p) && p[0] == m && |p| == d + 1)
    && (forall p :: IsWalk(e, p) && p[0] == m ==> |p| <= d + 1)
  }

  lemma ExtendDepth(e: set<(int, int)>, m: int, top: int, best: int, depth: map<int, int>)
    requires forall t :: (m, t) in e ==> t in depth && IsDepth(e, t, depth[t]) && depth[t] <= top
    requires top == -1 || ((m, best) in e && best in depth && depth[best] == top)
    requires top == -1 ==> forall t :: (m, t) !in e
    ensures IsDepth(e, m, 1 + top)
  {
    if top == -1 {
      assert IsWalk(e, [m]);
    } else {
      var q :| IsWalk(e, q) && q[0] == best && |q| == top + 1;
      assert IsWalk(e, [m] + q);
    }
    forall p | IsWalk(e, p) && p[0] == m ensures |p| <= 1 + top + 1 {
      if |p| > 1 {
        assert (p[0], p[0 + 1]) in e;
        assert IsWalk(e, p[1..]) && p[1..][0] == p[1];
      }
    }
  }

  lemma DepthFalls(e: set<(int, int)>, a: int, b: int, da: int, db: int)
    requires (a, b) in e && IsDepth(e, a, da) && IsDepth(e, b, db)
    ensures db < da
  {
    var q :| IsWalk(e, q) && q[0] == b && |q| == db + 1;
    assert IsWalk(e, [a] + q);
  }

  lemma DepthIsNatural(e: set<(int, int)>, m: int, d: int)
    requires IsDepth(e, m, d)
    ensures d >= 0
  {
  }

  lemma OpenIsNotTarget(e: set<(int, int)>, open: set<int>, m: int, t: int)
    requires Acyclic(e) && (m, t) in e && forall x :: x in open ==> Reach(e, x, m)
    ensures t !in open
  {
    if t in open {
      var p := ReachAndEdgeMakeCycle(e, t, m);
    }
  }

  ghost predicate DepthsRight(e: set<(int, int)>, open: set<int>, depth: map<int, int>) {
    forall x :: x in depth && x !in open ==> IsDepth(e, x, depth[x]) && forall t :: (x, t) in e ==> t in depth
  }

  class Layering {
    const g: Graph
    var depth: map<int, int>

    constructor (g: Graph)
      ensures this.g == g && depth == map[]
    {
      this.g := g;
      depth := map[];
    }

    /** `level`; the modules of `open` are those whose value is still the placeholder. */
    method Level(m: int, ghost open: set<int>) returns (d: int)
      requires Acyclic(Edges(g)) && m in Nodes(g) && m !in open && open <= depth.Keys <= Nodes(g)
      requires DepthsRight(Edges(g), open, depth) && forall x :: x in open ==> Reach(Edges(g), x, m)
      modifies this
      ensures old(depth).Keys <= depth.Keys <= Nodes(g) && m in depth && depth[m] == d && IsDepth(Edges(g), m, d)
      ensures DepthsRight(Edges(g), open, depth)
      decreases Nodes(g) - depth.Keys
    {
      hide Edges, Nodes, Reach, IsDepth, Acyclic;
      if m in depth {
        return depth[m];
      }
      ghost var e := Edges(g);
      depth := depth[m := 0];
      ghost var begun := depth;
      var top := -1;
      ghost var best := m;
      var todo := Targets(g, m);
      ReachSelf(e, m);
      while todo != {}
        invariant todo <= Targets(g, m) && begun.Keys <= depth.Keys <= Nodes(g)
        invariant DepthsRight(e, open + {m}, depth)
        invariant forall t :: t in Targets(g, m) - todo ==> t in depth && t !in open + {m} && IsDepth(e, t, depth[t]) && depth[t] <= top
        invariant top >= -1 && (top == -1 ==> todo == Targets(g, m)) && (top > -1 ==> best in Targets(g, m) - todo && depth[best] == top)
        decreases todo
      {
        SomeMember(todo);
        var t :| t in todo;
        TargetIsEdge(g, m, t);
        OpenIsNotTarget(e, open + {m}, m, t);
        ReachOn(e, open + {m}, m, t);
        ghost var before := depth;
        assert Nodes(g) - depth.Keys < Nodes(g) - old(depth.Keys) by {
          assert m in Nodes(g) - old(depth.Keys) && m !in Nodes(g) - depth.Keys;
        }
        var d := Level(t, open + {m});
        DepthsUnique(e, open + {m}, before, depth);
        DepthIsNatural(e, t, d);
        if d > top {
          top, best := d, t;
        }
        todo := todo - {t};
      }
      TargetsAreEdges(g, m);
      ExtendDepth(e, m, top, best, depth);
      depth := depth[m := 1 + top];
      return 1 + top;
    }
  }

  lemma TargetIsEdge(g: Graph, m: int, t: int)
    requires t in Targets(g, m)
    ensures (m, t) in Edges(g) && t in Nodes(g)
  {
  }

  lemma TargetsAreEdges(g: Graph, m: int)
    ensures forall t :: (m, t) in Edges(g) <==> t in Targets(g, m)
  {
  }

  lemma ReachOn(e: set<(int, int)>, open: set<int>, m: int, t: int)
    requires (m, t) in e && forall x :: x in open ==> Reach(e, x, m)
    ensures forall x :: x in open ==> Reach(e, x, t)
  {
    hide Reach;
    ReachEdge(e, m, t);
    forall x | x in open ensures Reach(e, x, t) {
      ReachTrans(e, x, m, t);
    }
  }

  lemma DepthUnique(e: set<(int, int)>, m: int, d: int, d': int)
    requires IsDepth(e, m, d) && IsDepth(e, m, d')
    ensures d == d'
  {
  }

  /** A finished depth never changes. */
  lemma DepthsUnique(e: set<(int, int)>, open: set<int>, before: map<int, int>, after: map<int, int>)
    requires DepthsRight(e, open, before) && DepthsRight(e, open, after) && before.Keys <= after.Keys
    ensures forall x :: x in before && x !in open ==> after[x] == before[x]
  {
    hide IsDepth;
    forall x | x in before && x !in open ensures after[x] == before[x] {
      DepthUnique(e, x, before[x], after[x]);
    }
  }

  /** `layers` on an acyclic graph: every module gets its longest-path length. */
  method Layers(g: Graph) returns (depth: map<int, int>)
    requires Acyclic(Edges(g))
    ensures g.Keys <= depth.Keys <= Nodes(g) && forall m :: m in depth ==> IsDepth(Edges(g), m, depth[m])
    ensures forall a, b :: (a, b) in Edges(g) ==> a in depth && b in depth
  {
    hide Edges, Nodes, Reach, IsDepth, Acyclic;
    var layering := new Layering(g);
    var todo := g.Keys;
    KeysAreNodes(g);
    while todo != {}
      invariant todo <= g.Keys && layering.g == g && g.Keys - todo <= layering.depth.Keys <= Nodes(g)
      invariant DepthsRight(Edges(g), {}, layering.depth)
      decreases todo
    {
      SomeMember(todo);
      var m :| m in todo;
      var _ := layering.Level(m, {});
      todo := todo - {m};
    }
    depth := layering.depth;
  }

  lemma KeysAreNodes(g: Graph)
    ensures g.Keys <= Nodes(g)
  {
  }

  /**
   * The cycle part of `findings` with the layers that a clean result admits: either a cycle that
   * uses no allowed reference, or layers in which every reference that is not allowed goes down.
   */
  method CheckLayers(g: Graph, allowed: set<(int, int)>) returns (cycle: seq<int>, depth: map<int, int>)
    ensures cycle != [] <==> !Acyclic(Edges(g) - allowed)
    ensures cycle != [] ==> IsCycle(Edges(g) - allowed, cycle)
    ensures cycle == [] ==> forall a, b :: (a, b) in Edges(g) && (a, b) !in allowed ==> a in depth && b in depth && depth[b] < depth[a]
  {
    hide Edges, Nodes, IsDepth, Acyclic, IsCycle;
    depth := map[];
    var h := Without(g, allowed);
    cycle := FindCycle(h);
    if cycle == [] {
      depth := Layers(h);
      ReferencesFall(h, depth);
    }
  }

  lemma ReferencesFall(g: Graph, depth: map<int, int>)
    requires g.Keys <= depth.Keys && forall m :: m in depth ==> IsDepth(Edges(g), m, depth[m])
    requires forall a, b :: (a, b) in Edges(g) ==> b in depth
    ensures forall a, b :: (a, b) in Edges(g) ==> a in depth && b in depth && depth[b] < depth[a]
  {
    hide IsDepth;
    forall a, b | (a, b) in Edges(g) ensures depth[b] < depth[a] {
      DepthFalls(Edges(g), a, b, depth[a], depth[b]);
    }
  }

  // ----- reverse closure -----

  ghost predicate ReachesStart(e: set<(int, int)>, start: set<int>, x: int) {
    exists s :: s in start && Reach(e, x, s)
  }

  lemma StepBack(e: set<(int, int)>, start: set<int>, a: int, b: int)
    requires (a, b) in e && ReachesStart(e, start, b)
    ensures ReachesStart(e, start, a)
  {
    hide Reach;
    var s :| s in start && Reach(e, b, s);
    ReachEdge(e, a, b);
    ReachTrans(e, a, b, s);
  }

  lemma ClosedBackwards(e: set<(int, int)>, start: set<int>, seen: set<int>, x: int)
    requires start <= seen && (forall a, b :: (a, b) in e && b in seen ==> a in seen) && ReachesStart(e, start, x)
    ensures x in seen
  {
    var s :| s in start && Reach(e, x, s);
    var p :| WalkFromTo(e, p, x, s);
    WalkBack(e, seen, p, 0);
  }

  lemma {:induction false} WalkBack(e: set<(int, int)>, seen: set<int>, p: seq<int>, k: nat)
    requires IsWalk(e, p) && k < |p| && p[|p| - 1] in seen && forall a, b :: (a, b) in e && b in seen ==> a in seen
    ensures p[k] in seen
    decreases |p| - k
  {
    if k < |p| - 1 {
      WalkBack(e, seen, p, k + 1);
      assert (p[k], p[k + 1]) in e;
    }
  }

  function Members(q: seq<int>): set<int> {
    set x | x in q
  }

  /** `reverse[m]`: the modules that refer to `m`. */
  function Referrers(g: Graph, m: int): set<int> {
    set a | a in g && m in g[a]
  }

  /** Everything seen reaches the start; everything that refers to a seen module is seen, but for `pending` and `todo` of `v`. */
  ghost predicate Tracing(g: Graph, start: set<int>, seen: set<int>, pending: seq<int>, v: int, todo: set<int>) {
    && start <= seen <= start + Nodes(g) && (forall x :: x in pending ==> x in seen)
    && (forall x :: x in seen ==> ReachesStart(Edges(g), start, x))
    && (forall a, b :: (a, b) in Edges(g) && b in seen && b !in pending && !(b == v && a in todo) ==> a in seen)
  }

  lemma TracingStarts(g: Graph, start: seq<int>)
    ensures Tracing(g, Members(start), Members(start), start, 0, {})
  {
    hide Reach;
    forall x | x in start ensures ReachesStart(Edges(g), Members(start), x) {
      ReachSelf(Edges(g), x);
    }
  }

  lemma TracingPops(g: Graph, start: set<int>, seen: set<int>, pending: seq<int>, u: int)
    requires pending != [] && Tracing(g, start, seen, pending, u, {})
    ensures var v := pending[|pending| - 1]; v in seen && Tracing(g, start, seen, pending[..|pending| - 1], v, Referrers(g, v))
  {
    hide ReachesStart;
    var v := pending[|pending| - 1];
    assert forall x :: x in pending ==> x == v || x in pending[..|pending| - 1];
  }

  lemma TracingAdds(g: Graph, start: set<int>, seen: set<int>, pending: seq<int>, v: int, todo: set<int>, a: int)
    requires Tracing(g, start, seen, pending, v, todo) && v in seen && (a, v) in Edges(g) && a !in seen
    ensures Tracing(g, start, seen + {a}, pending + [a], v, todo - {a})
    ensures start + Nodes(g) - (seen + {a}) < start + Nodes(g) - seen
  {
    StepBack(Edges(g), start, a, v);
    hide ReachesStart;
    assert a in start + Nodes(g) - seen;
    var seen' := seen + {a};
    forall x | x in seen' ensures ReachesStart(Edges(g), start, x) {
      assert x in seen || x == a;
    }
  }

  lemma TracingSkips(g: Graph, start: set<int>, seen: set<int>, pending: seq<int>, v: int, todo: set<int>, a: int)
    requires Tracing(g, start, seen, pending, v, todo) && a in seen
    ensures Tracing(g, start, seen, pending, v, todo - {a})
  {
    hide ReachesStart;
  }

  lemma TracingEnds(g: Graph, start: set<int>, seen: set<int>, v: int)
    requires Tracing(g, start, seen, [], v, {})
    ensures forall x :: x in seen <==> ReachesStart(Edges(g), start, x)
  {
    hide ReachesStart;
    forall x | ReachesStart(Edges(g), start, x) ensures x in seen {
      ClosedBackwards(Edges(g), start, seen, x);
    }
  }

  /** `reverse_closure`: exactly the modules from which some start module is reached. */
  method ReverseClosure(g: Graph, start: seq<int>) returns (seen: set<int>)
    ensures forall x :: x in seen <==> ReachesStart(Edges(g), Members(start), x)
  {
    hide Tracing, ReachesStart, Edges, Nodes;
    seen := Members(start);
    ghost var from := seen;
    var pending := start;
    TracingStarts(g, start);
    var v := 0;
    while pending != []
      invariant Tracing(g, from, seen, pending, v, {})
      decreases from + Nodes(g) - seen, |pending|
    {
      TracingPops(g, from, seen, pending, v);
      v := pending[|pending| - 1];
      ghost var before := seen;
      var rest := pending[..|pending| - 1];
      pending := rest;
      var todo := Referrers(g, v);
      while todo != {}
        invariant todo <= Referrers(g, v) && v in seen && Tracing(g, from, seen, pending, v, todo)
        invariant if seen == before then pending == rest else from + Nodes(g) - seen < from + Nodes(g) - before
        decreases todo
      {
        SomeMember(todo);
        var a :| a in todo;
        if a !in seen {
          TracingAdds(g, from, seen, pending, v, todo, a);
          seen := seen + {a};
          pending := pending + [a];
        } else {
          TracingSkips(g, from, seen, pending, v, todo, a);
        }
        todo := todo - {a};
      }
    }
    TracingEnds(g, from, seen, v);
  }
}
