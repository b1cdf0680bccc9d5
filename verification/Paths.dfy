/** Slash-separated paths: `split('/').filter(Boolean)` and `join('/')` of apps/ios/agentsView.ts. */
module Paths {

  type Path = seq<string>

  predicate Clean(c: string) {
    c != "" && '/' !in c
  }

  ghost predicate CleanPath(p: Path) {
    forall i :: 0 <= i < |p| ==> Clean(p[i])
  }

  /** Length of the text before the first slash. */
  function Run(s: string): (n: nat)
    ensures n <= |s| && '/' !in s[..n] && (n < |s| ==> s[n] == '/')
  {
    if s == "" || s[0] == '/' then 0
    else
      var n := 1 + Run(s[1..]);
      assert s[..n] == [s[0]] + s[1..][..n - 1];
      n
  }

  /** The non-empty parts between slashes. */
  function Components(s: string): (p: Path)
    ensures CleanPath(p)
  {
    if s == "" then []
    else if s[0] == '/' then Components(s[1..])
    else [s[..Run(s)]] + Components(s[Run(s)..])
  }

  function Join(p: seq<string>): string {
    if p == [] then ""
    else if |p| == 1 then p[0]
    else p[0] + "/" + Join(p[1..])
  }

  function Flatten(names: seq<string>): Path {
    if names == [] then [] else Components(names[0]) + Flatten(names[1..])
  }

  lemma {:induction false} RunOf(c: string, s: string)
    requires '/' !in c && (s == "" || s[0] == '/')
    ensures Run(c + s) == |c|
  {
    if c == "" {
      assert c + s == s;
    } else {
      assert (c + s)[1..] == c[1..] + s;
      RunOf(c[1..], s);
    }
  }

  lemma ComponentsOfClean(c: string, s: string)
    requires Clean(c) && (s == "" || s[0] == '/')
    ensures Components(c + s) == [c] + Components(s)
  {
    RunOf(c, s);
    assert (c + s)[..|c|] == c && (c + s)[|c|..] == s;
  }

  /** A slash separates components wherever it stands. */
  lemma {:induction false} ComponentsSplit(a: string, b: string)
    ensures Components(a + "/" + b) == Components(a) + Components(b)
    decreases |a|
  {
    var s := a + "/" + b;
    if a == "" {
      assert s == "/" + b && s[1..] == b;
    } else if a[0] == '/' {
      assert s[1..] == a[1..] + "/" + b;
      ComponentsSplit(a[1..], b);
    } else {
      var n := Run(a);
      assert a == a[..n] + a[n..];
      assert s == a[..n] + (a[n..] + "/" + b);
      var rest := a[n..] + "/" + b;
      assert rest[0] == '/';
      ComponentsOfClean(a[..n], rest);
      ComponentsOfClean(a[..n], a[n..]);
      ComponentsSplit(a[n..], b);
    }
  }

  lemma {:induction false} ComponentsOfJoin(names: seq<string>)
    ensures Components(Join(names)) == Flatten(names)
  {
    if |names| > 1 {
      ComponentsOfJoin(names[1..]);
      ComponentsSplit(names[0], Join(names[1..]));
    } else if |names| == 1 {
      assert Flatten(names) == Components(names[0]) + Flatten([]);
      assert names[1..] == [];
    }
  }

  lemma {:induction false} FlattenClean(p: Path)
    requires CleanPath(p)
    ensures Flatten(p) == p
  {
    if p != [] {
      FlattenClean(p[1..]);
      ComponentsOfClean(p[0], "");
      assert p[0] + "" == p[0];
    }
  }

  lemma {:induction false} FlattenConcat(a: seq<string>, b: seq<string>)
    ensures Flatten(a + b) == Flatten(a) + Flatten(b)
  {
    if a == [] {
      assert a + b == b;
    } else {
      assert (a + b)[1..] == a[1..] + b;
      FlattenConcat(a[1..], b);
    }
  }

  /** Joining is undone by splitting. */
  lemma SplitJoin(p: Path)
    requires CleanPath(p)
    ensures Components(Join(p)) == p
  {
    ComponentsOfJoin(p);
    FlattenClean(p);
  }

  lemma JoinInjective(p: Path, q: Path)
    requires CleanPath(p) && CleanPath(q) && Join(p) == Join(q)
    ensures p == q
  {
    SplitJoin(p);
    SplitJoin(q);
  }

  // ----- order -----

  /** JavaScript's `<` on strings. */
  predicate StrLess(a: string, b: string) {
    b != "" && (a == "" || a[0] < b[0] || (a[0] == b[0] && StrLess(a[1..], b[1..])))
  }

  /** `a` ends first, or has the smaller character where the two first differ. */
  ghost predicate ComesBefore(a: string, b: string) {
    exists k: nat :: k <= |a| && k <= |b| && a[..k] == b[..k] && (k == |a| < |b| || (k < |a| && k < |b| && a[k] < b[k]))
  }

  /** The order is the ascending one. */
  lemma {:induction false} StrLessMeans(a: string, b: string)
    ensures StrLess(a, b) <==> ComesBefore(a, b)
    decreases |a|
  {
    if a == "" || b == "" || a[0] != b[0] {
      if StrLess(a, b) {
        assert a[..0] == b[..0];
      }
      forall k: nat | 0 < k <= |a| && k <= |b| ensures a[..k] != b[..k] {
        assert a[..k][0] == a[0] && b[..k][0] == b[0];
      }
    } else {
      StrLessMeans(a[1..], b[1..]);
      if StrLess(a, b) {
        var k: nat :| k <= |a[1..]| && k <= |b[1..]| && a[1..][..k] == b[1..][..k]
                      && (k == |a[1..]| < |b[1..]| || (k < |a[1..]| && k < |b[1..]| && a[1..][k] < b[1..][k]));
        assert a[..k + 1] == [a[0]] + a[1..][..k] == b[..k + 1];
      }
      if ComesBefore(a, b) {
        var k: nat :| k <= |a| && k <= |b| && a[..k] == b[..k] && (k == |a| < |b| || (k < |a| && k < |b| && a[k] < b[k]));
        assert a[1..][..k - 1] == a[..k][1..] == b[1..][..k - 1];
      }
    }
  }

  lemma {:induction false} StrOrder(a: string, b: string, c: string)
    ensures !(StrLess(a, b) && StrLess(b, a))
    ensures a != b ==> StrLess(a, b) || StrLess(b, a)
    ensures StrLess(a, b) && StrLess(b, c) ==> StrLess(a, c)
    ensures !StrLess(a, a)
    decreases |a|
  {
    if a != "" {
      StrOrder(a[1..], if b == "" then "" else b[1..], if c == "" then "" else c[1..]);
      if b != "" && a[0] == b[0] && a[1..] == b[1..] {
        assert a == [a[0]] + a[1..] == b;
      }
    }
  }

  /** The comparator of the sort: component by component, then the shorter path first. */
  predicate PathLe(a: Path, b: Path) {
    a == [] || (b != [] && (StrLess(a[0], b[0]) || (a[0] == b[0] && PathLe(a[1..], b[1..]))))
  }

  /** `a` is a prefix of `b`, or has the smaller component where the two first differ. */
  ghost predicate PathComesFirst(a: Path, b: Path) {
    exists k: nat :: k <= |a| && k <= |b| && a[..k] == b[..k] && (k == |a| || (k < |b| && ComesBefore(a[k], b[k])))
  }

  lemma {:induction false} PathLeMeans(a: Path, b: Path)
    ensures PathLe(a, b) <==> PathComesFirst(a, b)
    decreases |a|
  {
    hide ComesBefore, StrLess;
    if a == [] {
      assert a[..0] == b[..0];
    } else if b == [] {
    } else {
      StrLessMeans(a[0], b[0]);
      StrOrder(a[0], a[0], "");
      if a[0] != b[0] {
        if PathLe(a, b) {
          assert a[..0] == b[..0];
        }
        forall k: nat | 0 < k <= |a| && k <= |b| ensures a[..k] != b[..k] {
          assert a[..k][0] == a[0] && b[..k][0] == b[0];
        }
      } else {
        PathLeMeans(a[1..], b[1..]);
        if PathLe(a, b) {
          var k: nat :| k <= |a[1..]| && k <= |b[1..]| && a[1..][..k] == b[1..][..k]
                        && (k == |a[1..]| || (k < |b[1..]| && ComesBefore(a[1..][k], b[1..][k])));
          assert a[..k + 1] == [a[0]] + a[1..][..k] == b[..k + 1];
        }
        if PathComesFirst(a, b) {
          var k: nat :| k <= |a| && k <= |b| && a[..k] == b[..k] && (k == |a| || (k < |b| && ComesBefore(a[k], b[k])));
          assert a[1..][..k - 1] == a[..k][1..] == b[1..][..k - 1];
        }
      }
    }
  }

  lemma {:induction false} PathOrder(a: Path, b: Path, c: Path)
    ensures PathLe(a, b) || PathLe(b, a)
    ensures PathLe(a, b) && PathLe(b, c) ==> PathLe(a, c)
    decreases |a|
  {
    if a != [] && b != [] {
      StrOrder(a[0], b[0], if c == [] then "" else c[0]);
      PathOrder(a[1..], b[1..], if c == [] then [] else c[1..]);
    }
  }

  /** Between two paths with a common prefix, everything in order has that prefix and goes on after it. */
  lemma {:induction false} PrefixIsContiguous(f: Path, a: Path, b: Path, c: Path)
    requires f <= a && f <= c && |f| < |a| && PathLe(a, b) && PathLe(b, c)
    ensures f <= b && |f| < |b|
  {
    if f != [] {
      StrOrder(a[0], b[0], c[0]);
      StrOrder(b[0], c[0], a[0]);
      assert b[0] == f[0];
      assert f[1..] <= a[1..] && f[1..] <= c[1..];
      PrefixIsContiguous(f[1..], a[1..], b[1..], c[1..]);
      assert f == [f[0]] + f[1..] && b == [b[0]] + b[1..];
    }
  }
}
