/** The Clippy ratchet of scripts/clippy_ratchet.py: warning counts that may only fall. */
module Ratchet {

  datatype Option<+T> = None | Some(value: T)

  /** Crate, then lint, then count. */
  type Counts = map<string, map<string, nat>>
  type Splits = map<string, string>

  /** `counts.get(crate, {}).get(lint, 0)`. */
  function Count(c: Counts, crate: string, lint: string): nat {
    if crate in c && lint in c[crate] then c[crate][lint] else 0
  }

  // ----- totals -----

  /** The count of one lint over a set of crates. */
  ghost function Sum(c: Counts, crates: set<string>, lint: string): nat {
    if crates == {} then 0
    else
      var x :| x in crates;
      Count(c, x, lint) + Sum(c, crates - {x}, lint)
  }

  /** The workspace total of one lint. */
  ghost function Total(c: Counts, lint: string): nat {
    Sum(c, c.Keys, lint)
  }

  /** Any crate may be taken out first. */
  lemma {:induction false} SumPick(c: Counts, crates: set<string>, lint: string, x: string)
    requires x in crates
    ensures Sum(c, crates, lint) == Count(c, x, lint) + Sum(c, crates - {x}, lint)
    decreases |crates|
  {
    var y :| y in crates && Sum(c, crates, lint) == Count(c, y, lint) + Sum(c, crates - {y}, lint);
    if y != x {
      SumPick(c, crates - {y}, lint, x);
      SumPick(c, crates - {x}, lint, y);
      assert crates - {y} - {x} == crates - {x} - {y};
    }
  }

  lemma {:induction false} SumSame(a: Counts, b: Counts, crates: set<string>, lint: string)
    requires forall x :: x in crates ==> Count(a, x, lint) == Count(b, x, lint)
    ensures Sum(a, crates, lint) == Sum(b, crates, lint)
    decreases |crates|
  {
    if crates != {} {
      var x :| x in crates;
      SumPick(a, crates, lint, x);
      SumPick(b, crates, lint, x);
      SumSame(a, b, crates - {x}, lint);
    }
  }

  lemma {:induction false} SumMono(a: Counts, b: Counts, crates: set<string>, lint: string)
    requires forall x :: x in crates ==> Count(a, x, lint) <= Count(b, x, lint)
    ensures Sum(a, crates, lint) <= Sum(b, crates, lint)
    decreases |crates|
  {
    if crates != {} {
      var x :| x in crates;
      SumPick(a, crates, lint, x);
      SumPick(b, crates, lint, x);
      SumMono(a, b, crates - {x}, lint);
    }
  }

  /** Crates without the lint add nothing. */
  lemma {:induction false} SumExtend(c: Counts, crates: set<string>, more: set<string>, lint: string)
    requires crates <= more && forall x :: x in more && x !in crates ==> Count(c, x, lint) == 0
    ensures Sum(c, more, lint) == Sum(c, crates, lint)
    decreases |more - crates|
  {
    if more <= crates {
      assert more == crates;
    } else {
      var x :| x in more && x !in crates;
      SumPick(c, more, lint, x);
      SumExtend(c, crates, more - {x}, lint);
    }
  }

  lemma TotalMono(a: Counts, b: Counts, lint: string)
    requires forall x :: Count(a, x, lint) <= Count(b, x, lint)
    ensures Total(a, lint) <= Total(b, lint)
  {
    var all := a.Keys + b.Keys;
    SumExtend(a, a.Keys, all, lint);
    SumExtend(b, b.Keys, all, lint);
    SumMono(a, b, all, lint);
  }

  // ----- folding split crates back -----

  /** The crate `k` splits back from `crate`. */
  function Origin(splits: Splits, crate: string, k: nat): Option<string> {
    if k == 0 then Some(crate)
    else
      var o := Origin(splits, crate, k - 1);
      if o.Some? && o.value in splits then Some(splits[o.value]) else None
  }

  /** Whether the walk passes this crate by: it was split out, and the base lacks it. */
  predicate Passes(splits: Splits, base: set<string>, crate: string) {
    crate in splits && crate !in base
  }

  /** `home` from `crate`, having seen `seen`. */
  function HomeFrom(splits: Splits, base: set<string>, crate: string, seen: set<string>): string
    decreases splits.Keys - seen
  {
    if Passes(splits, base, crate) && crate !in seen then HomeFrom(splits, base, splits[crate], seen + {crate}) else crate
  }

  function Home(splits: Splits, base: set<string>, crate: string): string {
    HomeFrom(splits, base, crate, {})
  }

  method FindHome(splits: Splits, base: set<string>, start: string) returns (crate: string)
    ensures crate == Home(splits, base, start)
  {
    crate := start;
    var seen: set<string> := {};
    while crate in splits && crate !in base && crate !in seen
      invariant HomeFrom(splits, base, crate, seen) == Home(splits, base, start)
      decreases splits.Keys - seen
    {
      seen := seen + {crate};
      crate := splits[crate];
    }
  }

  /** The walk cannot go on from the `n`-th origin: the base has it, nothing split it out, or the walk was there before. */
  ghost predicate StopsAt(splits: Splits, base: set<string>, crate: string, n: nat) {
    var o := Origin(splits, crate, n);
    o.Some? && (!Passes(splits, base, o.value) || exists j: nat :: j < n && Origin(splits, crate, j) == o)
  }

  /** `seen` are the first `n` origins, and no stop is among them. */
  ghost predicate Walked(splits: Splits, base: set<string>, crate: string, seen: set<string>, n: nat) {
    && (forall j: nat :: j < n ==> Origin(splits, crate, j).Some? && !StopsAt(splits, base, crate, j))
    && (forall x :: x in seen <==> exists j: nat :: j < n && Origin(splits, crate, j) == Some(x))
  }

  lemma WalkedOn(splits: Splits, base: set<string>, crate: string, at: string, seen: set<string>, n: nat)
    requires Walked(splits, base, crate, seen, n) && Origin(splits, crate, n) == Some(at) && Passes(splits, base, at) && at !in seen
    ensures Walked(splits, base, crate, seen + {at}, n + 1)
  {
    forall x ensures x in seen + {at} <==> exists j: nat :: j < n + 1 && Origin(splits, crate, j) == Some(x) {
      if x in seen {
        var j: nat :| j < n && Origin(splits, crate, j) == Some(x);
        assert j < n + 1 && Origin(splits, crate, j) == Some(x);
      } else if x == at {
        assert n < n + 1 && Origin(splits, crate, n) == Some(x);
      }
    }
  }

  lemma {:induction false} HomeWalk(splits: Splits, base: set<string>, crate: string, at: string, seen: set<string>, n: nat) returns (m: nat)
    requires Walked(splits, base, crate, seen, n) && Origin(splits, crate, n) == Some(at)
    ensures Origin(splits, crate, m) == Some(HomeFrom(splits, base, at, seen)) && StopsAt(splits, base, crate, m)
    ensures forall j: nat :: j < m ==> !StopsAt(splits, base, crate, j)
    decreases splits.Keys - seen
  {
    if Passes(splits, base, at) && at !in seen {
      WalkedOn(splits, base, crate, at, seen, n);
      m := HomeWalk(splits, base, crate, splits[at], seen + {at}, n + 1);
    } else {
      m := n;
    }
  }

  /** The home is the first place where the walk back cannot go on, which every chain has, cyclic or not. */
  lemma HomeIsFirstStop(splits: Splits, base: set<string>, crate: string) returns (n: nat)
    ensures Origin(splits, crate, n) == Some(Home(splits, base, crate)) && StopsAt(splits, base, crate, n)
    ensures forall j: nat :: j < n ==> !StopsAt(splits, base, crate, j)
  {
    n := HomeWalk(splits, base, crate, crate, {}, 0);
  }

  /** Past its first stop off the base a chain only repeats what came before, so it never meets the base. */
  lemma {:induction false} OffBaseForGood(splits: Splits, base: set<string>, crate: string, n: nat, k: nat)
    requires StopsAt(splits, base, crate, n) && Origin(splits, crate, n).value !in base
    requires forall j: nat :: j < n ==> !StopsAt(splits, base, crate, j)
    ensures Origin(splits, crate, k).Some? ==>
      exists j: nat :: j <= n && Origin(splits, crate, j) == Origin(splits, crate, k) && Origin(splits, crate, k).value !in base
  {
    if k <= n {
      OriginsBefore(splits, crate, k, n);
      assert k < n ==> !StopsAt(splits, base, crate, k);
      assert Origin(splits, crate, k).value !in base;
    } else if Origin(splits, crate, k).Some? {
      OffBaseForGood(splits, base, crate, n, k - 1);
      var j: nat :| j <= n && Origin(splits, crate, j) == Origin(splits, crate, k - 1);
      if j == n {
        var i: nat :| i < n && Origin(splits, crate, i) == Origin(splits, crate, n);
        j := i;
      }
      assert Origin(splits, crate, j + 1) == Origin(splits, crate, k);
      assert j + 1 < n ==> !StopsAt(splits, base, crate, j + 1);
    }
  }

  /** A chain that is long is defined all the way. */
  lemma {:induction false} OriginsBefore(splits: Splits, crate: string, k: nat, n: nat)
    requires k <= n && Origin(splits, crate, n).Some?
    ensures Origin(splits, crate, k).Some?
  {
    if k < n {
      OriginsBefore(splits, crate, k, n - 1);
    }
  }

  /** The chain of splits meets the base. */
  ghost predicate MeetsBase(splits: Splits, base: set<string>, crate: string) {
    exists k: nat :: Origin(splits, crate, k).Some? && Origin(splits, crate, k).value in base
  }

  /** A crate finds a home in the base exactly if its chain, however long or cyclic, meets the base; it is the first such crate then. */
  lemma HomeIsFirstInBase(splits: Splits, base: set<string>, crate: string) returns (n: nat)
    ensures Home(splits, base, crate) in base <==> MeetsBase(splits, base, crate)
    ensures Origin(splits, crate, n) == Some(Home(splits, base, crate))
    ensures forall j: nat :: j < n ==> Origin(splits, crate, j).Some? && Origin(splits, crate, j).value !in base
  {
    n := HomeIsFirstStop(splits, base, crate);
    forall j: nat | j < n ensures Origin(splits, crate, j).Some? && Origin(splits, crate, j).value !in base {
      OriginsBefore(splits, crate, j, n);
      assert !StopsAt(splits, base, crate, j);
    }
    if Home(splits, base, crate) !in base {
      forall k: nat ensures Origin(splits, crate, k).Some? ==> Origin(splits, crate, k).value !in base {
        OffBaseForGood(splits, base, crate, n, k);
      }
    }
  }

  /** A cycle of splits that the base does not have folds nowhere: each crate stays its own home. */
  lemma CycleOffBaseStays()
    ensures var splits: Splits := map["a" := "b", "b" := "a"];
      Home(splits, {}, "a") == "a" && Home(splits, {}, "b") == "b" && !MeetsBase(splits, {}, "a")
  {
    var splits: Splits := map["a" := "b", "b" := "a"];
    assert HomeFrom(splits, {}, "a", {"a", "b"}) == "a" && HomeFrom(splits, {}, "b", {"b", "a"}) == "b";
    assert HomeFrom(splits, {}, "b", {"a"}) == HomeFrom(splits, {}, "a", {"a"} + {"b"});
    assert HomeFrom(splits, {}, "a", {"b"}) == HomeFrom(splits, {}, "b", {"b"} + {"a"});
    assert {"a"} + {"b"} == {"a", "b"} && {} + {"a"} == {"a"} && {} + {"b"} == {"b"};
  }

  /** The crates of `done` whose home is `h`. */
  ghost function Housed(splits: Splits, base: set<string>, done: set<string>, h: string): set<string> {
    set c | c in done && Home(splits, base, c) == h
  }

  ghost predicate FoldedSoFar(counts: Counts, splits: Splits, base: set<string>, done: set<string>, result: Counts, lint: string) {
    && (forall h :: Count(result, h, lint) == Sum(counts, Housed(splits, base, done, h), lint))
    && Total(result, lint) == Sum(counts, done, lint)
  }

  /** Adding to one entry adds to the total and to nothing else. */
  lemma TotalOfUpdate(result: Counts, h: string, lints: map<string, nat>, lint: string)
    ensures Total(result[h := lints], lint) == Total(result, lint) - Count(result, h, lint) + if lint in lints then lints[lint] else 0
  {
    var after := result[h := lints];
    var all := result.Keys + {h};
    SumExtend(result, result.Keys, all, lint);
    assert after.Keys == all;
    SumPick(result, all, lint, h);
    SumPick(after, all, lint, h);
    SumSame(result, after, all - {h}, lint);
  }

  lemma FoldStep(counts: Counts, splits: Splits, base: set<string>, done: set<string>, result: Counts, crate: string, h: string, lints: map<string, nat>, lint: string)
    requires crate in counts && crate !in done && h == Home(splits, base, crate) && FoldedSoFar(counts, splits, base, done, result, lint)
    requires (if lint in lints then lints[lint] else 0) == Count(result, h, lint) + Count(counts, crate, lint)
    ensures FoldedSoFar(counts, splits, base, done + {crate}, result[h := lints], lint)
  {
    TotalOfUpdate(result, h, lints, lint);
    SumPick(counts, done + {crate}, lint, crate);
    assert done + {crate} - {crate} == done;
    forall g ensures Count(result[h := lints], g, lint) == Sum(counts, Housed(splits, base, done + {crate}, g), lint) {
      if g == h {
        var housed := Housed(splits, base, done + {crate}, h);
        SumPick(counts, housed, lint, crate);
        assert housed - {crate} == Housed(splits, base, done, h);
      } else {
        assert Housed(splits, base, done + {crate}, g) == Housed(splits, base, done, g);
      }
    }
  }

  /** `target[lint] = target.get(lint, 0) + count` for every lint. */
  method AddLints(target: map<string, nat>, lints: map<string, nat>) returns (sum: map<string, nat>)
    ensures sum.Keys == target.Keys + lints.Keys
    ensures forall l :: l in sum ==> sum[l] == (if l in target then target[l] else 0) + (if l in lints then lints[l] else 0)
  {
    sum := target;
    var todo := lints.Keys;
    while todo != {}
      invariant todo <= lints.Keys && sum.Keys == target.Keys + (lints.Keys - todo)
      invariant forall l :: l in sum ==> sum[l] == (if l in target then target[l] else 0) + (if l in lints.Keys - todo then lints[l] else 0)
      decreases todo
    {
      var l :| l in todo;
      sum := sum[l := (if l in sum then sum[l] else 0) + lints[l]];
      todo := todo - {l};
    }
  }

  /** `folded`: every count moves to its crate's home, and each lint keeps its workspace total. */
  method Folded(counts: Counts, splits: Splits, base: set<string>) returns (result: Counts)
    ensures forall lint :: FoldedSoFar(counts, splits, base, counts.Keys, result, lint)
    ensures forall lint :: Total(result, lint) == Total(counts, lint)
  {
    hide FoldedSoFar;
    result := map[];
    var todo := counts.Keys;
    ghost var done: set<string> := {};
    NothingFolded(counts, splits, base);
    while todo != {}
      invariant todo <= counts.Keys && done == counts.Keys - todo
      invariant forall lint :: FoldedSoFar(counts, splits, base, done, result, lint)
      decreases todo
    {
      var crate :| crate in todo;
      var h := FindHome(splits, base, crate);
      var target := if h in result then result[h] else map[];
      target := AddLints(target, counts[crate]);
      ghost var before := result;
      result := result[h := target];
      forall lint ensures FoldedSoFar(counts, splits, base, done + {crate}, result, lint) {
        FoldStep(counts, splits, base, done, before, crate, h, target, lint);
      }
      done := done + {crate};
      todo := todo - {crate};
    }
    assert done == counts.Keys;
    forall lint ensures Total(result, lint) == Total(counts, lint) {
      FoldedTotal(counts, splits, base, done, result, lint);
    }
  }

  lemma NothingFolded(counts: Counts, splits: Splits, base: set<string>)
    ensures forall lint :: FoldedSoFar(counts, splits, base, {}, map[], lint)
  {
    forall lint, h ensures Sum(counts, Housed(splits, base, {}, h), lint) == 0 {
      assert Housed(splits, base, {}, h) == {};
    }
  }

  lemma FoldedTotal(counts: Counts, splits: Splits, base: set<string>, done: set<string>, result: Counts, lint: string)
    requires FoldedSoFar(counts, splits, base, done, result, lint)
    ensures Total(result, lint) == Sum(counts, done, lint)
    ensures forall h :: Count(result, h, lint) == Sum(counts, Housed(splits, base, done, h), lint)
  {
  }

  // ----- the check -----

  datatype Baseline = Baseline(toolchain: string, counts: Counts)

  /** `increases` finds nothing. */
  ghost predicate NoIncrease(candidate: Counts, ceiling: Counts) {
    forall crate, lint :: Count(candidate, crate, lint) <= Count(ceiling, crate, lint)
  }

  method Increases(candidate: Counts, ceiling: Counts) returns (found: seq<(string, string)>)
    ensures found == [] <==> NoIncrease(candidate, ceiling)
    ensures forall i :: 0 <= i < |found| ==> Count(candidate, found[i].0, found[i].1) > Count(ceiling, found[i].0, found[i].1)
  {
    found := [];
    var crates := candidate.Keys;
    while crates != {}
      invariant crates <= candidate.Keys
      invariant forall i :: 0 <= i < |found| ==> Count(candidate, found[i].0, found[i].1) > Count(ceiling, found[i].0, found[i].1)
      invariant found == [] ==> forall c, l :: c !in crates ==> Count(candidate, c, l) <= Count(ceiling, c, l)
      decreases crates
    {
      var crate :| crate in crates;
      var lints := candidate[crate].Keys;
      while lints != {}
        invariant lints <= candidate[crate].Keys
        invariant forall i :: 0 <= i < |found| ==> Count(candidate, found[i].0, found[i].1) > Count(ceiling, found[i].0, found[i].1)
        invariant found == [] ==> forall c, l :: c !in crates || (c == crate && l !in lints) ==> Count(candidate, c, l) <= Count(ceiling, c, l)
        decreases lints
      {
        var lint :| lint in lints;
        if candidate[crate][lint] > Count(ceiling, crate, lint) {
          found := found + [(crate, lint)];
        }
        lints := lints - {lint};
      }
      crates := crates - {crate};
    }
    if found != [] {
      assert Count(candidate, found[0].0, found[0].1) > Count(ceiling, found[0].0, found[0].1);
    }
  }

  /** No crate of the base gets more of a lint than it had, counting what was split out of it. */
  ghost predicate NoHomeIncrease(baseline: Counts, previous: Counts, splits: Splits) {
    forall h, lint :: Sum(baseline, Housed(splits, previous.Keys, baseline.Keys, h), lint) <= Count(previous, h, lint)
  }

  /** What `check` accepts. */
  ghost predicate Passing(observed: Baseline, baseline: Baseline, previous: Option<Baseline>, splits: Splits) {
    && observed.toolchain == baseline.toolchain
    && (forall crate, lint :: Count(observed.counts, crate, lint) == Count(baseline.counts, crate, lint))
    && (previous.Some? ==> NoHomeIncrease(baseline.counts, previous.value.counts, splits))
  }

  lemma {:induction false} SumSplit(c: Counts, a: set<string>, b: set<string>, lint: string)
    requires a !! b
    ensures Sum(c, a + b, lint) == Sum(c, a, lint) + Sum(c, b, lint)
    decreases a
  {
    if a == {} {
      assert a + b == b;
    } else {
      var x :| x in a;
      SumPick(c, a, lint, x);
      SumPick(c, a + b, lint, x);
      assert a + b - {x} == (a - {x}) + b;
      SumSplit(c, a - {x}, b, lint);
    }
  }

  /** Crates sorted by home: if every home holds no more than its ceiling, neither do all of them together. */
  lemma {:induction false} HomesBoundTheSum(c: Counts, splits: Splits, base: set<string>, crates: set<string>, ceiling: Counts, homes: set<string>, lint: string)
    requires forall x :: x in crates ==> Home(splits, base, x) in homes
    requires forall h :: h in homes ==> Sum(c, Housed(splits, base, crates, h), lint) <= Count(ceiling, h, lint)
    ensures Sum(c, crates, lint) <= Sum(ceiling, homes, lint)
    decreases homes
  {
    hide Home;
    if homes == {} {
      assert crates == {};
    } else {
      var h :| h in homes;
      var here := Housed(splits, base, crates, h);
      var rest := crates - here;
      SumPick(ceiling, homes, lint, h);
      SumSplit(c, here, rest, lint);
      assert here + rest == crates;
      forall g | g in homes - {h} ensures Sum(c, Housed(splits, base, rest, g), lint) <= Count(ceiling, g, lint) {
        assert Housed(splits, base, rest, g) == Housed(splits, base, crates, g);
      }
      HomesBoundTheSum(c, splits, base, rest, ceiling, homes - {h}, lint);
    }
  }

  /** If no home's count rose, no lint's workspace total rose, whatever the splits map. */
  lemma HomesBoundTheTotal(baseline: Counts, previous: Counts, splits: Splits, lint: string)
    requires NoHomeIncrease(baseline, previous, splits)
    ensures Total(baseline, lint) <= Total(previous, lint)
  {
    hide Home;
    var homes := previous.Keys + set x | x in baseline.Keys :: Home(splits, previous.Keys, x);
    SumExtend(previous, previous.Keys, homes, lint);
    HomesBoundTheSum(baseline, splits, previous.Keys, baseline.Keys, previous, homes, lint);
  }

  /** `check`: passes exactly if observed and committed counts agree everywhere and no base crate's count rose. */
  method Check(observed: Baseline, baseline: Baseline, previous: Option<Baseline>, splits: Splits) returns (ok: bool)
    ensures ok <==> Passing(observed, baseline, previous, splits)
  {
    hide FoldedSoFar, Total;
    var failures := 0;
    if observed.toolchain != baseline.toolchain {
      failures := failures + 1;
    }
    if previous.Some? {
      var counts := Folded(baseline.counts, splits, previous.value.counts.Keys);
      forall h, lint ensures Count(counts, h, lint) == Sum(baseline.counts, Housed(splits, previous.value.counts.Keys, baseline.counts.Keys, h), lint) {
        FoldedTotal(baseline.counts, splits, previous.value.counts.Keys, baseline.counts.Keys, counts, lint);
      }
      var rows := Increases(counts, previous.value.counts);
      failures := failures + |rows|;
    }
    var more := Increases(observed.counts, baseline.counts);
    failures := failures + |more|;
    var fewer := Increases(baseline.counts, observed.counts);
    if fewer != [] {
      failures := failures + 1;
    }
    ok := failures == 0;
  }

  /** Along any chain of passing checks, each against the baseline before it and its own splits map, no lint's total ever rises. */
  lemma {:induction false} TotalsNeverRise(observed: seq<Baseline>, baselines: seq<Baseline>, splits: seq<Splits>, lint: string, i: nat, j: nat)
    requires |observed| == |baselines| == |splits| && i <= j < |baselines|
    requires forall k :: 0 < k < |baselines| ==> Passing(observed[k], baselines[k], Some(baselines[k - 1]), splits[k])
    ensures Total(baselines[j].counts, lint) <= Total(baselines[i].counts, lint)
    ensures 0 < j ==> Total(observed[j].counts, lint) <= Total(baselines[i].counts, lint)
    decreases j - i
  {
    hide NoHomeIncrease, Total;
    if 0 < j {
      assert Passing(observed[j], baselines[j], Some(baselines[j - 1]), splits[j]);
      TotalMono(observed[j].counts, baselines[j].counts, lint);
    }
    if i < j {
      HomesBoundTheTotal(baselines[j].counts, baselines[j - 1].counts, splits[j], lint);
      TotalsNeverRise(observed, baselines, splits, lint, i, j - 1);
    }
  }

  /** No zero counts and no empty crates, as `validate_baseline` demands. */
  ghost predicate Valid(c: Counts) {
    forall crate :: crate in c ==> c[crate] != map[] && forall lint :: lint in c[crate] ==> c[crate][lint] > 0
  }

  /** For validated counts, agreeing everywhere means being equal. */
  lemma AgreeingIsEqual(a: Counts, b: Counts)
    requires Valid(a) && Valid(b) && forall crate, lint :: Count(a, crate, lint) == Count(b, crate, lint)
    ensures a == b
  {
    forall crate ensures crate in a <==> crate in b {
      if crate in a {
        var lint :| lint in a[crate];
        assert Count(a, crate, lint) > 0;
      }
      if crate in b {
        var lint :| lint in b[crate];
        assert Count(b, crate, lint) > 0;
      }
    }
    forall crate | crate in a ensures a[crate] == b[crate] {
      forall lint ensures lint in a[crate] <==> lint in b[crate] {
        assert Count(a, crate, lint) == Count(b, crate, lint);
      }
      forall lint | lint in a[crate] ensures a[crate][lint] == b[crate][lint] {
        assert Count(a, crate, lint) == Count(b, crate, lint);
      }
    }
  }
}
