/**
 * `scc` of scripts/crate_cut.py: Tarjan's strongly connected components over the reference
 * graph, numbered in the order in which they are completed.
 */
module Scc {
  import opened Walks

  /** `nodes[v].refs` for every node id `v`. */
  type Refs = seq<set<int>>

  ghost predicate RefsInRange(refs: Refs) {
    forall v, w :: 0 <= v < |refs| && w in refs[v] ==> 0 <= w < |refs|
  }

  ghost function Edges(refs: Refs): (e: set<(int, int)>)
    ensures forall v, w :: (v, w) in e <==> 0 <= v < |refs| && w in refs[v]
  {
    set v, w | 0 <= v < |refs| && w in refs[v] :: (v, w)
  }

  ghost predicate InRange(e: set<(int, int)>, n: nat) {
    forall v, w :: (v, w) in e ==> 0 <= v < n && 0 <= w < n
  }

  /** The mutable arrays of `scc` at one moment, without `low`. */
  datatype Snap = Snap(idx: seq<int>, on: seq<bool>, comp: seq<int>, stack: seq<int>, visited: nat, comps: nat)

  ghost predicate Shape(s: Snap, n: nat) {
    && |s.idx| == n && |s.on| == n && |s.comp| == n
    && (forall v :: 0 <= v < n ==> -1 <= s.idx[v] < s.visited && -1 <= s.comp[v] < s.comps)
    && (forall v :: 0 <= v < n ==> (s.on[v] <==> s.idx[v] >= 0 && s.comp[v] < 0))
    && (forall v :: 0 <= v < n && s.comp[v] >= 0 ==> s.idx[v] >= 0)
    && (forall i :: 0 <= i < |s.stack| ==> 0 <= s.stack[i] < n && s.on[s.stack[i]])
    && (forall v :: 0 <= v < n && s.on[v] ==> v in s.stack)
    && (forall i, j :: 0 <= i < j < |s.stack| ==> s.idx[s.stack[i]] < s.idx[s.stack[j]])
  }

  /** `y` reaches a node of the call path that is no younger than itself. */
  ghost predicate Anchored(e: set<(int, int)>, s: Snap, gray: set<int>, y: int)
    requires 0 <= y < |s.idx| && forall x :: x in gray ==> 0 <= x < |s.idx|
  {
    exists x :: x in gray && s.idx[x] <= s.idx[y] && Reach(e, y, x)
  }

  ghost predicate Links(e: set<(int, int)>, s: Snap, n: nat, gray: set<int>)
    requires Shape(s, n)
  {
    && (forall v :: v in gray ==> 0 <= v < n && s.on[v])
    && (forall v, w :: (v, w) in e && 0 <= v < n && 0 <= w < n && s.idx[v] >= 0 && v !in gray ==> s.idx[w] >= 0)
    && (forall i, j :: 0 <= i < j < |s.stack| ==> Reach(e, s.stack[i], s.stack[j]))
    && (forall i :: 0 <= i < |s.stack| ==> Anchored(e, s, gray, s.stack[i]))
  }

  /** Numbered components are mutually reachable and refer only to smaller numbers. */
  ghost predicate Settled(e: set<(int, int)>, s: Snap, n: nat)
    requires Shape(s, n)
  {
    && (forall v, w :: (v, w) in e && 0 <= v < n && 0 <= w < n && s.comp[v] >= 0 ==> 0 <= s.comp[w] <= s.comp[v])
    && (forall v, w :: 0 <= v < n && 0 <= w < n && s.comp[v] >= 0 && s.comp[v] == s.comp[w] ==> Reach(e, v, w))
  }

  ghost predicate Inv(e: set<(int, int)>, s: Snap, n: nat, gray: set<int>) {
    Shape(s, n) && Links(e, s, n, gray) && Settled(e, s, n)
  }

  // ----- opening a node -----

  ghost function Opened(s: Snap, v: int): Snap
    requires 0 <= v < |s.idx| == |s.on|
  {
    Snap(s.idx[v := s.visited], s.on[v := true], s.comp, s.stack + [v], s.visited + 1, s.comps)
  }

  lemma OpenShape(s: Snap, n: nat, v: int)
    requires Shape(s, n) && 0 <= v < n && s.idx[v] < 0
    ensures Shape(Opened(s, v), n)
  {
    var t := Opened(s, v);
    assert t.stack[|s.stack|] == v;
    forall x | 0 <= x < n && t.on[x] ensures x in t.stack {
      assert x == v || x in s.stack;
    }
  }

  lemma AnchorOf(e: set<(int, int)>, s: Snap, n: nat, gray: set<int>, y: int) returns (x: int)
    requires Shape(s, n) && Links(e, s, n, gray) && y in s.stack
    ensures 0 <= y < n && x in gray && 0 <= x < n && s.idx[x] <= s.idx[y] && Reach(e, y, x)
  {
    hide Reach;
    var i :| 0 <= i < |s.stack| && s.stack[i] == y;
    assert Anchored(e, s, gray, s.stack[i]);
    x :| x in gray && s.idx[x] <= s.idx[y] && Reach(e, y, x);
  }

  lemma OpenKeepsAnchor(e: set<(int, int)>, s: Snap, n: nat, gray: set<int>, v: int, i: nat)
    requires Shape(s, n) && Links(e, s, n, gray) && 0 <= v < n && s.idx[v] < 0 && i <= |s.stack|
    ensures Anchored(e, Opened(s, v), gray + {v}, Opened(s, v).stack[i])
  {
    hide Reach;
    var t := Opened(s, v);
    if i == |s.stack| {
      ReachSelf(e, v);
      assert v in gray + {v} && t.idx[v] <= t.idx[v] && Reach(e, v, v);
    } else {
      var x := AnchorOf(e, s, n, gray, s.stack[i]);
      assert x in gray + {v} && t.idx[x] <= t.idx[t.stack[i]] && Reach(e, t.stack[i], x);
    }
  }

  lemma OpenKeepsOrder(e: set<(int, int)>, s: Snap, n: nat, gray: set<int>, v: int, i: nat, j: nat)
    requires Shape(s, n) && Links(e, s, n, gray) && i < j <= |s.stack|
    requires forall x :: x in gray ==> Reach(e, x, v)
    ensures Reach(e, (s.stack + [v])[i], (s.stack + [v])[j])
  {
    hide Reach;
    if j == |s.stack| {
      var x := AnchorOf(e, s, n, gray, s.stack[i]);
      ReachTrans(e, s.stack[i], x, v);
    }
  }

  lemma OpenKeeps(e: set<(int, int)>, s: Snap, n: nat, gray: set<int>, v: int)
    requires Inv(e, s, n, gray) && 0 <= v < n && s.idx[v] < 0
    requires forall x :: x in gray ==> Reach(e, x, v)
    ensures Inv(e, Opened(s, v), n, gray + {v})
  {
    hide Reach, Anchored;
    var t := Opened(s, v);
    OpenShape(s, n, v);
    forall i, j | 0 <= i < j < |t.stack| ensures Reach(e, t.stack[i], t.stack[j]) {
      OpenKeepsOrder(e, s, n, gray, v, i, j);
    }
    forall i | 0 <= i < |t.stack| ensures Anchored(e, t, gray + {v}, t.stack[i]) {
      OpenKeepsAnchor(e, s, n, gray, v, i);
    }
  }

  // ----- closing a node that stays on the stack -----

  lemma CloseKeepsAnchor(e: set<(int, int)>, s: Snap, n: nat, gray: set<int>, v: int, y: int, i: nat)
    requires Shape(s, n) && Links(e, s, n, gray + {v}) && i < |s.stack|
    requires y in s.stack && 0 <= y < n && s.idx[y] < s.idx[v] && Reach(e, v, y)
    ensures Anchored(e, s, gray, s.stack[i])
  {
    hide Reach;
    var x := AnchorOf(e, s, n, gray + {v}, s.stack[i]);
    if x == v {
      var z := AnchorOf(e, s, n, gray + {v}, y);
      ReachTrans(e, s.stack[i], v, y);
      ReachTrans(e, s.stack[i], y, z);
      assert z in gray && s.idx[z] <= s.idx[s.stack[i]] && Reach(e, s.stack[i], z);
    } else {
      assert x in gray && s.idx[x] <= s.idx[s.stack[i]] && Reach(e, s.stack[i], x);
    }
  }

  lemma CloseKeeps(e: set<(int, int)>, s: Snap, n: nat, gray: set<int>, v: int, y: int)
    requires Inv(e, s, n, gray + {v}) && v !in gray && 0 <= v < n
    requires forall w :: (v, w) in e && 0 <= w < n ==> s.idx[w] >= 0
    requires y in s.stack && 0 <= y < n && s.idx[y] < s.idx[v] && Reach(e, v, y)
    ensures Inv(e, s, n, gray)
  {
    hide Reach, Anchored, Settled;
    forall i | 0 <= i < |s.stack| ensures Anchored(e, s, gray, s.stack[i]) {
      CloseKeepsAnchor(e, s, n, gray, v, y, i);
    }
  }

  // ----- popping a component -----

  /** The stack from position `k` up has been popped into the component under construction. */
  ghost function Popping(s: Snap, k: nat): (t: Snap)
    requires k <= |s.stack| && |s.on| == |s.comp| == |s.idx|
    ensures t.comps == s.comps && |t.on| == |t.comp| == |t.idx| == |s.idx|
  {
    var gone := s.stack[k..];
    s.(on := seq(|s.on|, x requires 0 <= x < |s.on| => s.on[x] && x !in gone),
       comp := seq(|s.comp|, x requires 0 <= x < |s.comp| => if x in gone then s.comps else s.comp[x]),
       stack := s.stack[..k])
  }

  ghost function Popped(s: Snap, k: nat): Snap
    requires k <= |s.stack| && |s.on| == |s.comp| == |s.idx|
  {
    Popping(s, k).(comps := s.comps + 1)
  }

  lemma PopNone(s: Snap)
    requires |s.on| == |s.comp| == |s.idx|
    ensures Popping(s, |s.stack|) == s
  {
    var t := Popping(s, |s.stack|);
    assert t.on == s.on && t.comp == s.comp && t.stack == s.stack;
  }

  lemma PopOne(s: Snap, k: nat, w: int)
    requires k < |s.stack| && |s.on| == |s.comp| == |s.idx| && w == s.stack[k] && 0 <= w < |s.idx|
    ensures var t := Popping(s, k + 1); Popping(s, k) == t.(stack := t.stack[..k], on := t.on[w := false], comp := t.comp[w := s.comps])
  {
    var t := Popping(s, k + 1);
    assert s.stack[k..] == [w] + s.stack[k + 1..];
    assert Popping(s, k).on == t.on[w := false];
    assert Popping(s, k).comp == t.comp[w := s.comps];
    assert t.stack[..k] == s.stack[..k];
  }

  /** A node is either below position `k` of the stack or from there up, never both. */
  lemma StackHalves(s: Snap, n: nat, k: nat)
    requires Shape(s, n) && k <= |s.stack|
    ensures forall a :: a in s.stack <==> a in s.stack[..k] || a in s.stack[k..]
    ensures forall a :: a in s.stack[k..] ==> a !in s.stack[..k]
  {
    assert s.stack == s.stack[..k] + s.stack[k..];
    forall i, j | 0 <= i < k <= j < |s.stack| ensures s.stack[i] != s.stack[j] {
      assert s.idx[s.stack[i]] < s.idx[s.stack[j]];
    }
  }

  lemma PopShape(s: Snap, n: nat, k: nat)
    requires Shape(s, n) && k <= |s.stack|
    ensures Shape(Popped(s, k), n)
  {
    var t := Popped(s, k);
    StackHalves(s, n, k);
    forall i | 0 <= i < |t.stack| ensures 0 <= t.stack[i] < n && t.on[t.stack[i]] {
      assert t.stack[i] == s.stack[i] && s.stack[i] in s.stack[..k];
    }
  }

  /** The top of the stack from `k` is finished, and nothing in it refers to what lies below it. */
  ghost predicate ReadyToPop(e: set<(int, int)>, s: Snap, n: nat, gray: set<int>, k: nat) {
    && k < |s.stack| && InRange(e, n) && Inv(e, s, n, gray + {s.stack[k]})
    && (forall w :: (s.stack[k], w) in e ==> s.idx[w] >= 0)
    && (forall g :: g in gray ==> g in s.stack[..k])
    && (forall a, b :: a in s.stack[k..] && b in s.stack[..k] ==> (a, b) !in e)
  }

  /** One edge out of what is about to be popped ends inside it or at a settled node. */
  lemma PoppedPartEdge(e: set<(int, int)>, s: Snap, n: nat, gray: set<int>, k: nat, a: int, b: int)
    requires ReadyToPop(e, s, n, gray, k) && (a, b) in e && a in s.stack[k..]
    ensures 0 <= b < n && (b in s.stack[k..] || s.comp[b] >= 0)
  {
    hide Reach, Anchored, Settled;
    StackHalves(s, n, k);
    assert a in s.stack && 0 <= a < n;
    assert a == s.stack[k] || a !in gray + {s.stack[k]};
    assert s.idx[b] >= 0;
  }

  /** What is about to be popped reaches only itself and settled nodes. */
  lemma PoppedPartIsClosed(e: set<(int, int)>, s: Snap, n: nat, gray: set<int>, k: nat, y: int, x: int)
    requires ReadyToPop(e, s, n, gray, k) && y in s.stack[k..] && Reach(e, y, x)
    ensures 0 <= x < n && (x in s.stack[k..] || s.comp[x] >= 0)
  {
    hide Reach, Links, Anchored;
    var inside := set z: int | 0 <= z < n && (z in s.stack[k..] || s.comp[z] >= 0);
    forall a, b | (a, b) in e && a in inside ensures b in inside {
      if a in s.stack[k..] {
        PoppedPartEdge(e, s, n, gray, k, a, b);
      }
    }
    assert y in s.stack;
    ReachStaysInside(e, inside, y, x);
  }

  /** Everything popped together is mutually reachable through the component's oldest node. */
  lemma PoppedPartIsStrong(e: set<(int, int)>, s: Snap, n: nat, gray: set<int>, k: nat, y: int)
    requires ReadyToPop(e, s, n, gray, k) && y in s.stack[k..]
    ensures Reach(e, y, s.stack[k]) && Reach(e, s.stack[k], y)
  {
    hide Reach, Anchored, Settled;
    StackHalves(s, n, k);
    var v := s.stack[k];
    ReachSelf(e, v);
    var j :| k <= j < |s.stack| && s.stack[j] == y;
    var x := AnchorOf(e, s, n, gray + {v}, y);
    PoppedPartIsClosed(e, s, n, gray, k, y, x);
    assert s.on[x];
  }

  lemma PopKeeps(e: set<(int, int)>, s: Snap, n: nat, gray: set<int>, k: nat)
    requires ReadyToPop(e, s, n, gray, k)
    ensures Inv(e, Popped(s, k), n, gray)
  {
    PopShape(s, n, k);
    PopLinks(e, s, n, gray, k);
    PopSettles(e, s, n, gray, k);
  }

  lemma PopKeepsAnchor(e: set<(int, int)>, s: Snap, n: nat, gray: set<int>, k: nat, i: nat)
    requires i < k < |s.stack| && Shape(s, n) && Links(e, s, n, gray + {s.stack[k]})
    ensures Anchored(e, s, gray, s.stack[i])
  {
    hide Reach;
    var x := AnchorOf(e, s, n, gray + {s.stack[k]}, s.stack[i]);
    assert s.idx[s.stack[i]] < s.idx[s.stack[k]];
    assert x in gray && s.idx[x] <= s.idx[s.stack[i]] && Reach(e, s.stack[i], x);
  }

  /** An anchor depends on the numbers alone. */
  lemma AnchorMoves(e: set<(int, int)>, s: Snap, t: Snap, gray: set<int>, y: int)
    requires t.idx == s.idx && 0 <= y < |s.idx| && (forall x :: x in gray ==> 0 <= x < |s.idx|) && Anchored(e, s, gray, y)
    ensures Anchored(e, t, gray, y)
  {
    hide Reach;
  }

  /** What stays open is still on the stack, and what is finished still has all its references visited. */
  lemma PopKeepsFrame(e: set<(int, int)>, s: Snap, n: nat, gray: set<int>, k: nat)
    requires ReadyToPop(e, s, n, gray, k)
    ensures forall v :: v in gray ==> 0 <= v < n && Popped(s, k).on[v]
    ensures forall v, w :: (v, w) in e && 0 <= v < n && 0 <= w < n && s.idx[v] >= 0 && v !in gray ==> s.idx[w] >= 0
    ensures forall i, j :: 0 <= i < j < k ==> Reach(e, s.stack[i], s.stack[j])
  {
    hide Reach, Settled, Anchored;
    StackHalves(s, n, k);
    forall v | v in gray ensures 0 <= v < n && Popped(s, k).on[v] {
      assert v in gray + {s.stack[k]};
    }
  }

  lemma PopLinks(e: set<(int, int)>, s: Snap, n: nat, gray: set<int>, k: nat)
    requires ReadyToPop(e, s, n, gray, k)
    ensures Shape(Popped(s, k), n) && Links(e, Popped(s, k), n, gray)
  {
    hide Reach, Settled, Anchored;
    PopShape(s, n, k);
    PopKeepsFrame(e, s, n, gray, k);
    var t := Popped(s, k);
    assert Links(e, s, n, gray + {s.stack[k]});
    hide Shape, Links, ReadyToPop;
    PopLinksFrom(e, s, n, gray, k, t);
  }

  lemma PopLinksFrom(e: set<(int, int)>, s: Snap, n: nat, gray: set<int>, k: nat, t: Snap)
    requires k < |s.stack| && Shape(s, n) && Links(e, s, n, gray + {s.stack[k]}) && t == Popped(s, k) && Shape(t, n)
    requires forall v :: v in gray ==> 0 <= v < n && t.on[v]
    requires forall v, w :: (v, w) in e && 0 <= v < n && 0 <= w < n && s.idx[v] >= 0 && v !in gray ==> s.idx[w] >= 0
    requires forall i, j :: 0 <= i < j < k ==> Reach(e, s.stack[i], s.stack[j])
    ensures Links(e, t, n, gray)
  {
    hide Reach, Anchored;
    assert t.idx == s.idx && t.stack == s.stack[..k];
    forall i | 0 <= i < |t.stack| ensures 0 <= t.stack[i] < n && Anchored(e, t, gray, t.stack[i]) {
      PopKeepsAnchor(e, s, n, gray, k, i);
      AnchorMoves(e, s, t, gray, s.stack[i]);
    }
  }

  lemma PopSettlesEdge(e: set<(int, int)>, s: Snap, n: nat, gray: set<int>, k: nat, a: int, b: int)
    requires ReadyToPop(e, s, n, gray, k) && (a, b) in e && Popped(s, k).comp[a] >= 0
    ensures 0 <= Popped(s, k).comp[b] <= Popped(s, k).comp[a]
  {
    hide Reach, Links;
    if a in s.stack[k..] {
      PoppedPartEdge(e, s, n, gray, k, a, b);
    } else {
      assert 0 <= s.comp[b] <= s.comp[a];
      assert b in s.stack[k..] ==> b in s.stack;
    }
  }

  lemma PopSettlesPair(e: set<(int, int)>, s: Snap, n: nat, gray: set<int>, k: nat, a: int, b: int)
    requires ReadyToPop(e, s, n, gray, k) && 0 <= a < n && 0 <= b < n
    requires 0 <= Popped(s, k).comp[a] == Popped(s, k).comp[b]
    ensures Reach(e, a, b)
  {
    hide Reach, Links;
    if a in s.stack[k..] {
      PoppedPartIsStrong(e, s, n, gray, k, a);
      PoppedPartIsStrong(e, s, n, gray, k, b);
      ReachTrans(e, a, s.stack[k], b);
    }
  }

  lemma PopSettles(e: set<(int, int)>, s: Snap, n: nat, gray: set<int>, k: nat)
    requires ReadyToPop(e, s, n, gray, k)
    ensures Shape(Popped(s, k), n) && Settled(e, Popped(s, k), n)
  {
    hide Reach, Links, Popping;
    PopShape(s, n, k);
    var t := Popped(s, k);
    forall a, b | (a, b) in e && t.comp[a] >= 0 ensures 0 <= t.comp[b] <= t.comp[a] {
      PopSettlesEdge(e, s, n, gray, k, a, b);
    }
    forall a, b | 0 <= a < n && 0 <= b < n && 0 <= t.comp[a] == t.comp[b] ensures Reach(e, a, b) {
      PopSettlesPair(e, s, n, gray, k, a, b);
    }
  }

  // ----- the state during one call -----

  ghost function White(idx: seq<int>): set<int> {
    set x: int | 0 <= x < |idx| && idx[x] < 0
  }

  /** Visited nodes keep their number, component and place on the stack. */
  ghost predicate Extends(s: Snap, t: Snap) {
    && |t.idx| == |s.idx| == |s.comp| == |t.comp|
    && s.stack <= t.stack && s.visited <= t.visited
    && forall x :: 0 <= x < |s.idx| && s.idx[x] >= 0 ==> t.idx[x] == s.idx[x] && t.comp[x] == s.comp[x]
  }

  ghost predicate LowKept(s: Snap, low: seq<int>, low': seq<int>) {
    |low| == |low'| == |s.idx| && forall x :: 0 <= x < |low| && s.idx[x] >= 0 ==> low'[x] == low[x]
  }

  /** `low` is the number of some node on the stack that `v` reaches. */
  ghost predicate Attained(e: set<(int, int)>, t: Snap, low: int, v: int) {
    exists y :: y in t.stack && 0 <= y < |t.idx| && low == t.idx[y] && Reach(e, v, y)
  }

  /** No edge from above `base` to a node of `base` older than `low`, but for the edges of `v` still to scan. */
  ghost predicate Bounded(e: set<(int, int)>, base: seq<int>, t: Snap, low: int, v: int, todo: set<int>) {
    |base| <= |t.stack| &&
    forall x, y :: x in t.stack[|base|..] && y in base && (x, y) in e && !(x == v && y in todo)
      ==> 0 <= y < |t.idx| && low <= t.idx[y]
  }

  ghost predicate Scanning(e: set<(int, int)>, s: Snap, t: Snap, low: int, n: nat, gray: set<int>, v: int, todo: set<int>) {
    && Shape(s, n) && InRange(e, n) && 0 <= v < n && s.idx[v] < 0 && v !in gray
    && (forall g :: g in gray ==> g in s.stack)
    && Inv(e, t, n, gray + {v}) && Extends(Opened(s, v), t)
    && low <= t.idx[v] && Attained(e, t, low, v) && Bounded(e, s.stack, t, low, v, todo)
    && (forall w :: (v, w) in e && w !in todo ==> t.idx[w] >= 0)
  }

  /** What a finished call of `sc(v)` tells its caller. */
  ghost predicate Returned(e: set<(int, int)>, s: Snap, t: Snap, low: int, v: int) {
    && 0 <= v < |t.idx| == |t.on| && t.idx[v] == s.visited >= 0 && low <= t.idx[v] && s.stack <= t.stack
    && Bounded(e, s.stack, t, low, v, {})
    && (t.on[v] ==> Attained(e, t, low, v))
    && (!t.on[v] ==> low == t.idx[v] && t.stack == s.stack)
  }

  lemma WhiteShrinks(s: Snap, t: Snap, v: int)
    requires 0 <= v < |s.idx| == |s.on| && s.idx[v] < 0 && Extends(Opened(s, v), t)
    ensures White(t.idx) < White(s.idx)
  {
    assert v in White(s.idx) && v !in White(t.idx);
    forall x | x in White(t.idx) ensures x in White(s.idx) {
      assert Opened(s, v).idx[x] < 0;
    }
  }

  lemma ScanFacts(e: set<(int, int)>, s: Snap, t: Snap, low: int, n: nat, gray: set<int>, v: int, todo: set<int>)
    requires Scanning(e, s, t, low, n, gray, v, todo)
    ensures Inv(e, t, n, gray + {v}) && |t.idx| == |t.on| == n && t.idx[v] >= 0 && White(t.idx) < White(s.idx)
    ensures forall x :: 0 <= x < n && s.idx[x] >= 0 ==> x != v && t.idx[x] >= 0
  {
    hide Reach, Anchored, Links, Settled, Bounded, Attained;
    WhiteShrinks(s, t, v);
    forall x | 0 <= x < n && s.idx[x] >= 0 ensures t.idx[x] >= 0 {
      assert Opened(s, v).idx[x] == s.idx[x];
    }
  }

  lemma ScanStarts(e: set<(int, int)>, s: Snap, n: nat, gray: set<int>, v: int, todo: set<int>)
    requires Inv(e, s, n, gray) && InRange(e, n) && 0 <= v < n && s.idx[v] < 0
    requires forall x :: x in gray ==> Reach(e, x, v)
    requires forall w :: (v, w) in e ==> w in todo
    ensures Scanning(e, s, Opened(s, v), s.visited, n, gray, v, todo)
  {
    hide Reach, Anchored;
    OpenKeeps(e, s, n, gray, v);
    ReachSelf(e, v);
    var t := Opened(s, v);
    assert t.stack[|s.stack|..] == [v];
    assert v in t.stack && t.idx[v] == s.visited && Reach(e, v, v);
  }

  /** Scanning an edge to a node visited before. */
  lemma ScanVisited(e: set<(int, int)>, s: Snap, t: Snap, low: int, n: nat, gray: set<int>, v: int, todo: set<int>, w: int)
    requires Scanning(e, s, t, low, n, gray, v, todo) && (v, w) in e && w in todo && t.idx[w] >= 0
    ensures Scanning(e, s, t, if t.on[w] && t.idx[w] < low then t.idx[w] else low, n, gray, v, todo - {w})
  {
    hide Reach, Anchored, Links, Settled;
    ReachEdge(e, v, w);
    assert !t.on[w] ==> w !in s.stack;
  }

  /** Scanning an edge to a node the recursive call has just finished. */
  lemma ScanCalled(e: set<(int, int)>, s: Snap, t: Snap, t': Snap, low: int, lowW: int, n: nat, gray: set<int>, v: int, todo: set<int>, w: int)
    requires Scanning(e, s, t, low, n, gray, v, todo) && (v, w) in e && w in todo && t.idx[w] < 0
    requires Inv(e, t', n, gray + {v}) && Extends(t, t') && Returned(e, t, t', lowW, w)
    ensures Scanning(e, s, t', if lowW < low then lowW else low, n, gray, v, todo - {w})
  {
    hide Reach, Anchored, Links, Settled, Bounded, Attained;
    ReachEdge(e, v, w);
    CalledAttains(e, t, t', low, lowW, v, w);
    CalledBounds(e, s.stack, t, t', low, lowW, n, v, todo, w);
  }

  lemma CalledBounds(e: set<(int, int)>, base: seq<int>, t: Snap, t': Snap, low: int, lowW: int, n: nat, v: int, todo: set<int>, w: int)
    requires Shape(t, n) && base <= t.stack && Bounded(e, base, t, low, v, todo)
    requires 0 <= w < n && t.idx[w] < 0 && Extends(t, t') && Returned(e, t, t', lowW, w)
    ensures Bounded(e, base, t', if lowW < low then lowW else low, v, todo - {w})
  {
    var low' := if lowW < low then lowW else low;
    assert t'.stack[|base|..] == t.stack[|base|..] + t'.stack[|t.stack|..];
    forall x, y | x in t'.stack[|base|..] && y in base && (x, y) in e && !(x == v && y in todo - {w})
      ensures 0 <= y < |t'.idx| && low' <= t'.idx[y]
    {
      assert y in t.stack && t.idx[y] >= 0;
    }
  }

  lemma CalledAttains(e: set<(int, int)>, t: Snap, t': Snap, low: int, lowW: int, v: int, w: int)
    requires Attained(e, t, low, v) && Extends(t, t') && Returned(e, t, t', lowW, w)
    requires Reach(e, v, w) && low < t.visited
    requires forall y :: y in t.stack && 0 <= y < |t.idx| ==> t.idx[y] >= 0
    ensures Attained(e, t', if lowW < low then lowW else low, v)
  {
    hide Reach;
    if t'.on[w] && lowW < low {
      var y :| y in t'.stack && 0 <= y < |t'.idx| && lowW == t'.idx[y] && Reach(e, w, y);
      ReachTrans(e, v, w, y);
    } else {
      var y :| y in t.stack && 0 <= y < |t.idx| && low == t.idx[y] && Reach(e, v, y);
      assert y in t'.stack && low == t'.idx[y];
    }
  }

  /** All edges scanned and an older node attained: the call returns with `v` still on the stack. */
  lemma ScanCloses(e: set<(int, int)>, s: Snap, t: Snap, low: int, n: nat, gray: set<int>, v: int)
    requires Scanning(e, s, t, low, n, gray, v, {}) && low != t.idx[v]
    ensures Inv(e, t, n, gray) && Extends(s, t) && Returned(e, s, t, low, v)
  {
    hide Reach, Anchored;
    var y :| y in t.stack && 0 <= y < |t.idx| && low == t.idx[y] && Reach(e, v, y);
    CloseKeeps(e, t, n, gray, v, y);
  }

  /** All edges scanned and nothing older attained: the stack above `s.stack` is one component. */
  lemma ScanPops(e: set<(int, int)>, s: Snap, t: Snap, low: int, n: nat, gray: set<int>, v: int)
    requires Scanning(e, s, t, low, n, gray, v, {}) && low == t.idx[v]
    ensures |s.stack| < |t.stack| && t.stack[|s.stack|] == v
    ensures |t.on| == |t.comp| == |t.idx| && Shape(t, n)
    ensures Inv(e, Popped(t, |s.stack|), n, gray) && Extends(s, Popped(t, |s.stack|))
    ensures Returned(e, s, Popped(t, |s.stack|), low, v)
  {
    hide Reach, Anchored;
    var k := |s.stack|;
    assert Opened(s, v).stack[k] == v == t.stack[k] && t.stack[..k] == s.stack;
    forall a, b | a in t.stack[k..] && b in t.stack[..k] ensures (a, b) !in e {
      var i :| 0 <= i < k && t.stack[i] == b;
      assert t.idx[t.stack[i]] < t.idx[t.stack[k]];
    }
    PopKeeps(e, t, n, gray, k);
    StackHalves(t, n, k);
    PoppedReturns(e, s, t, n, v);
  }

  lemma PoppedReturns(e: set<(int, int)>, s: Snap, t: Snap, n: nat, v: int)
    requires Shape(s, n) && Shape(t, n) && 0 <= v < n && s.idx[v] < 0 && Extends(Opened(s, v), t)
    ensures Extends(s, Popped(t, |s.stack|)) && Returned(e, s, Popped(t, |s.stack|), t.idx[v], v)
  {
    var k := |s.stack|;
    StackHalves(t, n, k);
    assert t.stack[..k] == s.stack && t.stack[k] == v;
    assert v in t.stack[k..];
    forall x | 0 <= x < n && s.idx[x] >= 0 ensures x !in t.stack[k..] {
      assert s.on[x] ==> x in s.stack;
      assert !s.on[x] ==> t.comp[x] == s.comp[x] >= 0;
      assert x in t.stack ==> t.on[x];
    }
  }

  // ----- the algorithm -----

  class Tarjan {
    const refs: Refs
    var idx: seq<int>
    var low: seq<int>
    var on: seq<bool>
    var comp: seq<int>
    var stack: seq<int>
    var visited: nat
    var comps: nat

    ghost function Now(): Snap
      reads this
    {
      Snap(idx, on, comp, stack, visited, comps)
    }

    ghost predicate Valid(gray: set<int>)
      reads this
    {
      RefsInRange(refs) && |low| == |refs| && Inv(Edges(refs), Now(), |refs|, gray)
    }

    constructor (refs: Refs)
      requires RefsInRange(refs)
      ensures this.refs == refs && Valid({}) && |idx| == |refs|
      ensures forall v :: 0 <= v < |refs| ==> idx[v] < 0
    {
      this.refs := refs;
      var n := |refs|;
      idx, low, on, comp := seq(n, _ => -1), seq(n, _ => 0), seq(n, _ => false), seq(n, _ => -1);
      stack, visited, comps := [], 0, 0;
    }

    /** Everything from position `k` of the stack up becomes the next component. */
    method PopComponent(v: int, ghost k: nat)
      requires Shape(Now(), |refs|) && k < |stack| && stack[k] == v
      modifies this
      ensures Now() == Popped(old(Now()), k) && low == old(low)
    {
      hide Popping;
      ghost var t := Now();
      PopNone(t);
      while true
        invariant k < |stack| <= |t.stack| && stack == t.stack[..|stack|]
        invariant |on| == |comp| == |t.idx|
        invariant Now() == Popping(t, |stack|) && low == old(low)
        decreases |stack|
      {
        var m := |stack| - 1;
        var w := stack[m];
        PopOne(t, m, w);
        stack := stack[..m];
        on := on[w := false];
        comp := comp[w := comps];
        if w == v {
          break;
        }
      }
      comps := comps + 1;
    }

    method Open(v: int)
      requires 0 <= v < |idx| == |low| == |on|
      modifies this
      ensures Now() == Opened(old(Now()), v) && low == old(low)[v := old(visited)]
    {
      idx := idx[v := visited];
      low := low[v := visited];
      visited := visited + 1;
      stack := stack + [v];
      on := on[v := true];
    }

    /** The end of `sc(v)`: pop a component, or leave `v` on the stack for an older call. */
    method Close(v: int, ghost s: Snap, ghost gray: set<int>)
      requires RefsInRange(refs) && 0 <= v < |refs| == |low| == |idx|
      requires Scanning(Edges(refs), s, Now(), low[v], |refs|, gray, v, {})
      modifies this
      ensures Valid(gray) && low == old(low) && Extends(s, Now())
      ensures |idx| == |refs| && idx[v] >= 0 && Returned(Edges(refs), s, Now(), low[v], v)
    {
      hide Reach, Links, Settled, Shape, Inv, Bounded, Attained, Scanning, Extends, Returned, Edges, Popped;
      if low[v] == idx[v] {
        ScanPops(Edges(refs), s, Now(), low[v], |refs|, gray, v);
        PopComponent(v, |s.stack|);
      } else {
        ScanCloses(Edges(refs), s, Now(), low[v], |refs|, gray, v);
      }
      ReturnedSizes(Edges(refs), s, Now(), low[v], |refs|, gray, v);
    }

    /** `sc(v)`; `gray` is the path of unfinished calls, all of which reach `v`. */
    method Visit(v: int, ghost gray: set<int>)
      requires Valid(gray) && 0 <= v < |refs| && idx[v] < 0
      requires forall x :: x in gray ==> Reach(Edges(refs), x, v)
      modifies this
      ensures Valid(gray) && Extends(old(Now()), Now()) && LowKept(old(Now()), old(low), low)
      ensures |idx| == |refs| && idx[v] >= 0
      ensures 0 <= v < |low| && Returned(Edges(refs), old(Now()), Now(), low[v], v)
      decreases White(idx)
    {
      hide Reach, Links, Settled, Shape, Inv, Bounded, Attained, Scanning, Extends, Returned, Edges, InRange, White, Opened;
      ghost var e, n, s := Edges(refs), |refs|, Now();
      EdgesInRange(refs);
      SnapSizes(e, s, n, gray);
      var todo := refs[v];
      ScanStarts(e, s, n, gray, v, todo);
      Open(v);
      while todo != {}
        invariant todo <= refs[v] && |low| == n
        invariant Scanning(e, s, Now(), low[v], n, gray, v, todo)
        invariant LowKept(s, old(low), low)
        decreases todo
      {
        SomeMember(todo);
        var w :| w in todo;
        ghost var t := Now();
        ScanFacts(e, s, t, low[v], n, gray, v, todo);
        if idx[w] < 0 {
          CallPathReaches(e, gray, v, w);
          Visit(w, gray + {v});
          ScanCalled(e, s, t, Now(), low[v], low[w], n, gray, v, todo, w);
          low := low[v := Min(low[v], low[w])];
        } else {
          ScanVisited(e, s, t, low[v], n, gray, v, todo, w);
          if on[w] {
            low := low[v := Min(low[v], idx[w])];
          }
        }
        todo := todo - {w};
      }
      ScanFacts(e, s, Now(), low[v], n, gray, v, todo);
      Close(v, s, gray);
    }
  }

  lemma EdgesInRange(refs: Refs)
    requires RefsInRange(refs)
    ensures InRange(Edges(refs), |refs|)
    ensures forall v, w :: 0 <= v < |refs| && w in refs[v] ==> (v, w) in Edges(refs)
  {
  }

  lemma ReturnedSizes(e: set<(int, int)>, s: Snap, t: Snap, low: int, n: nat, gray: set<int>, v: int)
    requires Inv(e, t, n, gray) && Returned(e, s, t, low, v)
    ensures |t.idx| == n && 0 <= v < n && t.idx[v] >= 0
  {
  }

  lemma SnapSizes(e: set<(int, int)>, s: Snap, n: nat, gray: set<int>)
    requires Inv(e, s, n, gray)
    ensures |s.idx| == |s.on| == |s.comp| == n
  {
  }

  lemma CallPathReaches(e: set<(int, int)>, gray: set<int>, v: int, w: int)
    requires (v, w) in e && forall x :: x in gray ==> Reach(e, x, v)
    ensures forall x :: x in gray + {v} ==> Reach(e, x, w)
  {
    hide Reach;
    ReachEdge(e, v, w);
    forall x | x in gray ensures Reach(e, x, w) {
      ReachTrans(e, x, v, w);
    }
  }

  function Min(a: int, b: int): int {
    if b < a then b else a
  }

  /**
   * The whole of `scc`: equal numbers exactly for nodes that reach each other, and every
   * reference stays in its component or goes to a smaller number.
   */
  method Components(refs: Refs) returns (comp: seq<int>)
    requires RefsInRange(refs)
    ensures IsComponentNumbering(refs, comp)
  {
    hide Reach, Links, Settled, Shape, Inv, Returned, Edges, IsComponentNumbering;
    var t := new Tarjan(refs);
    var v := 0;
    while v < |refs|
      invariant 0 <= v <= |refs| && t.refs == refs && t.Valid({}) && |t.idx| == |refs|
      invariant forall x :: 0 <= x < v ==> t.idx[x] >= 0
    {
      if t.idx[v] < 0 {
        t.Visit(v, {});
      }
      v := v + 1;
    }
    comp := t.comp;
    NumberingIsExact(refs, t.Now());
  }

  ghost predicate IsComponentNumbering(refs: Refs, comp: seq<int>) {
    && |comp| == |refs| && (forall v :: 0 <= v < |refs| ==> 0 <= comp[v])
    && (forall v, w :: 0 <= v < |refs| && 0 <= w < |refs| ==>
          (comp[v] == comp[w] <==> Reach(Edges(refs), v, w) && Reach(Edges(refs), w, v)))
    && (forall v, w :: 0 <= v < |refs| && w in refs[v] && 0 <= w < |refs| ==> comp[w] <= comp[v])
  }

  /** Along any walk the component number never rises. */
  lemma NumberFalls(refs: Refs, comp: seq<int>, v: int, w: int)
    requires RefsInRange(refs) && |comp| == |refs| && 0 <= v < |refs| && Reach(Edges(refs), v, w)
    requires forall a, b :: 0 <= a < |refs| && b in refs[a] ==> comp[b] <= comp[a]
    ensures 0 <= w < |refs| && comp[w] <= comp[v]
  {
    hide Reach;
    var inside := set x: int | 0 <= x < |refs| && comp[x] <= comp[v];
    ReachStaysInside(Edges(refs), inside, v, w);
  }

  lemma NumberingIsExact(refs: Refs, s: Snap)
    requires RefsInRange(refs) && Inv(Edges(refs), s, |refs|, {})
    requires forall x :: 0 <= x < |refs| ==> s.idx[x] >= 0
    ensures IsComponentNumbering(refs, s.comp)
  {
    hide Reach;
    var e, n := Edges(refs), |refs|;
    assert s.stack == [] by {
      if s.stack != [] {
        var x := AnchorOf(e, s, n, {}, s.stack[0]);
      }
    }
    forall v, w | 0 <= v < n && 0 <= w < n
      ensures s.comp[v] == s.comp[w] <==> Reach(e, v, w) && Reach(e, w, v)
    {
      if Reach(e, v, w) && Reach(e, w, v) {
        NumberFalls(refs, s.comp, v, w);
        NumberFalls(refs, s.comp, w, v);
      }
    }
  }
}
