/**
 * The outline of the agent tree in apps/ios/agentsView.ts: folders that hold only one folder are
 * joined on one line, and rows are listed under the folders of their path.
 */
module Outline {
  import opened Paths

  datatype Row = Row(id: string, unmanaged: bool, host: string, name: string, path: string)
  datatype Leaf = Leaf(path: Path, row: Row)

  datatype Line =
    | FolderLine(key: string, depth: nat, name: string)
    | RowLine(key: string, depth: nat, row: Row)

  function LeafOf(row: Row): (leaf: Leaf)
    ensures CleanPath(leaf.path) && leaf.row == row
  {
    Leaf(Components(if row.unmanaged then "found/" + row.host + "/" + row.name else row.path), row)
  }

  /** A managed row lies at the components of its path, and one that is only found lies under its host. */
  lemma LeafOfMeans(row: Row, p: Path)
    requires CleanPath(p)
    ensures !row.unmanaged && row.path == Join(p) ==> LeafOf(row).path == p
    ensures row.unmanaged && Clean(row.host) && Clean(row.name) ==> LeafOf(row).path == ["found", row.host, row.name]
  {
    SplitJoin(p);
    if row.unmanaged && Clean(row.host) && Clean(row.name) {
      var q := ["found", row.host, row.name];
      assert [row.host, row.name][1..] == [row.name] && q[1..] == [row.host, row.name];
      assert Join([row.host, row.name]) == row.host + "/" + Join([row.name]) == row.host + "/" + row.name;
      assert Join(q) == "found" + "/" + Join(q[1..]) == "found/" + row.host + "/" + row.name;
      SplitJoin(q);
    }
  }

  /** Everything but the last component. */
  function FoldersOf(p: Path): Path {
    if p == [] then [] else p[..|p| - 1]
  }

  ghost predicate CleanPaths(paths: seq<Path>) {
    forall i :: 0 <= i < |paths| ==> CleanPath(paths[i])
  }

  // ----- where folders are joined -----

  /** What folder `f` holds on the way to one path: the next folder, or "" for the row itself. */
  function Child(f: Path, folders: Path): string {
    if |f| < |folders| then folders[|f|] else ""
  }

  ghost function Children(paths: seq<Path>, f: Path): set<string> {
    set i | 0 <= i < |paths| && f <= FoldersOf(paths[i]) :: Child(f, FoldersOf(paths[i]))
  }

  /** Folder `f` ends its line: it holds a row, or more than one folder. A property of `f` alone. */
  ghost predicate Closed(paths: seq<Path>, f: Path) {
    forall c :: c != "" ==> Children(paths, f) != {c}
  }

  ghost function SegmentEnd(paths: seq<Path>, folders: Path, e: nat): (r: nat)
    requires e <= |folders|
    ensures e <= r <= |folders|
    decreases |folders| - e
  {
    if e == |folders| || Closed(paths, folders[..e]) then e else SegmentEnd(paths, folders, e + 1)
  }

  /** The compact names of `folders` from component `d` on. */
  ghost function Names(paths: seq<Path>, folders: Path, d: nat): seq<string>
    requires d <= |folders|
    decreases |folders| - d
  {
    if d == |folders| then []
    else
      var e := SegmentEnd(paths, folders, d + 1);
      [Join(folders[d..e])] + Names(paths, folders, e)
  }

  /** The component after the first `k` names. */
  ghost function EndOf(paths: seq<Path>, folders: Path, d: nat, k: nat): (e: nat)
    requires d <= |folders| && k <= |Names(paths, folders, d)|
    ensures d <= e <= |folders|
    decreases |folders| - d
  {
    if k == 0 || d == |folders| then d else EndOf(paths, folders, SegmentEnd(paths, folders, d + 1), k - 1)
  }

  /** The first `k` names spell the folders up to where they end. */
  lemma {:induction false} NamesSpell(paths: seq<Path>, folders: Path, d: nat, k: nat)
    requires CleanPath(folders) && d <= |folders| && k <= |Names(paths, folders, d)|
    ensures Flatten(Names(paths, folders, d)[..k]) == folders[d..EndOf(paths, folders, d, k)]
    decreases |folders| - d
  {
    hide Closed, Join, SegmentEnd, Components;
    var names := Names(paths, folders, d);
    if k == 0 || d == |folders| {
      assert names[..k] == [];
    } else {
      var e := SegmentEnd(paths, folders, d + 1);
      NamesSpell(paths, folders, e, k - 1);
      SplitJoin(folders[d..e]);
      assert names[..k][1..] == Names(paths, folders, e)[..k - 1];
    }
  }

  lemma {:induction false} AllNamesEnd(paths: seq<Path>, folders: Path, d: nat)
    requires d <= |folders|
    ensures EndOf(paths, folders, d, |Names(paths, folders, d)|) == |folders|
    decreases |folders| - d
  {
    if d < |folders| {
      AllNamesEnd(paths, folders, SegmentEnd(paths, folders, d + 1));
    }
  }

  /** Reading the compact names back gives the folders. */
  lemma NamesReadBack(paths: seq<Path>, folders: Path)
    requires CleanPath(folders)
    ensures Flatten(Names(paths, folders, 0)) == folders
  {
    var names := Names(paths, folders, 0);
    NamesSpell(paths, folders, 0, |names|);
    AllNamesEnd(paths, folders, 0);
    assert names[..|names|] == names && folders[0..|folders|] == folders;
  }

  lemma {:induction false} SegmentEndSame(paths: seq<Path>, a: Path, b: Path, e: nat)
    requires e <= |a| && Closed(paths, a)
    requires SegmentEnd(paths, a, e) <= |b| && a[..SegmentEnd(paths, a, e)] == b[..SegmentEnd(paths, a, e)]
    ensures SegmentEnd(paths, b, e) == SegmentEnd(paths, a, e)
    decreases |a| - e
  {
    hide Closed;
    var r := SegmentEnd(paths, a, e);
    assert a[..e] == a[..r][..e] == b[..r][..e] == b[..e];
    if e < |a| && !Closed(paths, a[..e]) {
      SegmentEndSame(paths, a, b, e + 1);
    } else {
      assert a[..|a|] == a;
    }
  }

  /** Names depend only on the folders they spell, not on what follows. */
  lemma {:induction false} SameStartSameNames(paths: seq<Path>, a: Path, b: Path, d: nat, k: nat)
    requires d <= |a| && d <= |b| && k <= |Names(paths, a, d)| && Closed(paths, a)
    requires EndOf(paths, a, d, k) <= |b| && a[..EndOf(paths, a, d, k)] == b[..EndOf(paths, a, d, k)]
    ensures Names(paths, a, d)[..k] <= Names(paths, b, d)
    decreases |a| - d
  {
    hide Closed;
    var names := Names(paths, a, d);
    if k > 0 && d < |a| {
      var e, end := SegmentEnd(paths, a, d + 1), EndOf(paths, a, d, k);
      assert a[..e] == a[..end][..e] == b[..end][..e] == b[..e];
      SegmentEndSame(paths, a, b, d + 1);
      SameStartSameNames(paths, a, b, e, k - 1);
      assert a[d..e] == a[..e][d..] == b[..e][d..] == b[d..e];
      assert names[..k] == [names[0]] + Names(paths, a, e)[..k - 1];
    } else {
      assert names[..k] == [];
    }
  }

  lemma OwnFoldersClosed(paths: seq<Path>, i: nat)
    requires i < |paths|
    ensures Closed(paths, FoldersOf(paths[i]))
  {
    var f := FoldersOf(paths[i]);
    assert Child(f, f) == "" && "" in Children(paths, f);
  }

  /** `e` is where one of the names ends. */
  ghost predicate EndsName(paths: seq<Path>, folders: Path, d: nat, e: nat)
    requires d <= |folders|
  {
    exists k: nat :: k <= |Names(paths, folders, d)| && EndOf(paths, folders, d, k) == e
  }

  /** `f` holds a row of its own, or two different folders. */
  ghost predicate Branches(paths: seq<Path>, f: Path) {
    || (exists i :: 0 <= i < |paths| && FoldersOf(paths[i]) == f)
    || (exists i, j :: 0 <= i < |paths| && 0 <= j < |paths| && Continues(paths[i], f) && Continues(paths[j], f)
                       && FoldersOf(paths[i])[|f|] != FoldersOf(paths[j])[|f|])
  }

  ghost predicate Continues(p: Path, f: Path) {
    f <= FoldersOf(p) && |f| < |FoldersOf(p)|
  }

  lemma ClosedMeansBranches(paths: seq<Path>, i: nat, f: Path)
    requires CleanPaths(paths) && i < |paths| && f <= FoldersOf(paths[i])
    ensures Closed(paths, f) <==> Branches(paths, f)
  {
    var folders := FoldersOf(paths[i]);
    var c := Child(f, folders);
    assert c in Children(paths, f);
    if Branches(paths, f) {
      if j :| 0 <= j < |paths| && FoldersOf(paths[j]) == f {
        assert Child(f, FoldersOf(paths[j])) == "" && "" in Children(paths, f);
      } else {
        var j, k :| 0 <= j < |paths| && 0 <= k < |paths| && Continues(paths[j], f) && Continues(paths[k], f)
                    && FoldersOf(paths[j])[|f|] != FoldersOf(paths[k])[|f|];
        assert Child(f, FoldersOf(paths[j])) in Children(paths, f) && Child(f, FoldersOf(paths[k])) in Children(paths, f);
      }
    } else {
      assert |f| < |folders| by { assert FoldersOf(paths[i]) != f; }
      assert Continues(paths[i], f) && CleanPath(paths[i]) && c != "";
      forall x | x in Children(paths, f) ensures x == c {
        var j :| 0 <= j < |paths| && f <= FoldersOf(paths[j]) && Child(f, FoldersOf(paths[j])) == x;
        assert FoldersOf(paths[j]) != f && Continues(paths[j], f);
      }
      assert Children(paths, f) == {c};
    }
  }

  lemma EndOfNext(paths: seq<Path>, folders: Path, d: nat, k: nat)
    requires d < |folders|
    ensures var n := SegmentEnd(paths, folders, d + 1);
      && (k < |Names(paths, folders, d)| <==> k <= |Names(paths, folders, n)|)
      && (k <= |Names(paths, folders, n)| ==> EndOf(paths, folders, d, k + 1) == EndOf(paths, folders, n, k))
  {
    hide Closed, Join, SegmentEnd;
  }

  /** The first name ends at `n`, and the others end where they end from there. */
  lemma EndsNameNext(paths: seq<Path>, folders: Path, d: nat, e: nat)
    requires d < e <= |folders|
    ensures EndsName(paths, folders, d, e) <==> EndsName(paths, folders, SegmentEnd(paths, folders, d + 1), e)
  {
    var n := SegmentEnd(paths, folders, d + 1);
    assert EndOf(paths, folders, d, 0) == d;
    hide Closed, SegmentEnd, Names, EndOf;
    if EndsName(paths, folders, d, e) {
      var k: nat :| k <= |Names(paths, folders, d)| && EndOf(paths, folders, d, k) == e;
      EndOfNext(paths, folders, d, k - 1);
      assert EndOf(paths, folders, n, k - 1) == e;
    } else {
      forall k: nat | k <= |Names(paths, folders, n)| ensures EndOf(paths, folders, n, k) != e {
        EndOfNext(paths, folders, d, k);
        assert EndOf(paths, folders, d, k + 1) != e;
      }
    }
  }

  lemma EndsNameFirst(paths: seq<Path>, folders: Path, d: nat, e: nat)
    requires d <= |folders| && e <= d
    ensures EndsName(paths, folders, d, e) <==> e == d
  {
    hide Names;
    assert EndOf(paths, folders, d, 0) == d;
  }

  lemma {:induction false} EndsNameStep(paths: seq<Path>, folders: Path, d: nat, e: nat)
    requires d < e < |folders|
    ensures EndsName(paths, folders, d, e) <==> Closed(paths, folders[..e])
    decreases |folders| - d
  {
    hide EndsName, Closed, SegmentEnd;
    var n := SegmentEnd(paths, folders, d + 1);
    SegmentEndIsFirst(paths, folders, d + 1, e);
    EndsNameNext(paths, folders, d, e);
    if e > n {
      EndsNameStep(paths, folders, n, e);
    } else {
      EndsNameFirst(paths, folders, n, e);
    }
  }

  lemma {:induction false} SegmentEndIsFirst(paths: seq<Path>, folders: Path, s: nat, e: nat)
    requires s <= e < |folders|
    ensures e < SegmentEnd(paths, folders, s) ==> !Closed(paths, folders[..e])
    ensures e == SegmentEnd(paths, folders, s) ==> Closed(paths, folders[..e])
    decreases |folders| - s
  {
    if s < |folders| && !Closed(paths, folders[..s]) && s < e {
      SegmentEndIsFirst(paths, folders, s + 1, e);
    }
  }

  /**
   * Exactly when folders are joined: a folder ends its line if and only if it holds a row or two
   * different folders, so one that holds a single folder and nothing else is always joined to it.
   */
  lemma JoinedExactlyIf(paths: seq<Path>, i: nat, e: nat)
    requires CleanPaths(paths) && i < |paths| && 0 < e < |FoldersOf(paths[i])|
    ensures EndsName(paths, FoldersOf(paths[i]), 0, e) <==> Branches(paths, FoldersOf(paths[i])[..e])
  {
    hide EndsName, Closed, Branches;
    EndsNameStep(paths, FoldersOf(paths[i]), 0, e);
    ClosedMeansBranches(paths, i, FoldersOf(paths[i])[..e]);
  }

  // ----- sorted leaves -----

  ghost predicate Sorted(leaves: seq<Leaf>) {
    forall i, j :: 0 <= i < j < |leaves| ==> PathLe(leaves[i].path, leaves[j].path)
  }

  /** Insert after everything that is not greater: the place a stable sort gives. */
  function Insert(leaves: seq<Leaf>, x: Leaf): seq<Leaf> {
    if leaves == [] || !PathLe(leaves[0].path, x.path) then [x] + leaves
    else [leaves[0]] + Insert(leaves[1..], x)
  }

  /** `leaves.sort(...)`. */
  function SortLeaves(leaves: seq<Leaf>): seq<Leaf> {
    if leaves == [] then [] else Insert(SortLeaves(leaves[..|leaves| - 1]), leaves[|leaves| - 1])
  }

  lemma {:induction false} InsertMembers(leaves: seq<Leaf>, x: Leaf)
    ensures multiset(Insert(leaves, x)) == multiset(leaves) + multiset{x}
  {
    if leaves != [] && PathLe(leaves[0].path, x.path) {
      InsertMembers(leaves[1..], x);
      assert leaves == [leaves[0]] + leaves[1..];
    }
  }

  lemma {:induction false} InsertSorted(leaves: seq<Leaf>, x: Leaf)
    requires Sorted(leaves)
    ensures Sorted(Insert(leaves, x))
  {
    if leaves == [] {
    } else if !PathLe(leaves[0].path, x.path) {
      forall j | 0 <= j < |leaves| ensures PathLe(x.path, leaves[j].path) {
        PathOrder(leaves[0].path, x.path, []);
        PathOrder(x.path, leaves[0].path, leaves[j].path);
      }
    } else {
      InsertSorted(leaves[1..], x);
      InsertMembers(leaves[1..], x);
      var r := Insert(leaves[1..], x);
      forall j | 0 <= j < |r| ensures PathLe(leaves[0].path, r[j].path) {
        assert r[j] in multiset(r);
        assert r[j] in leaves[1..] || r[j] == x;
      }
    }
  }

  /** The leaves of one path, in their order. */
  ghost function WithPath(leaves: seq<Leaf>, p: Path): seq<Leaf> {
    if leaves == [] then []
    else
      var rest := WithPath(leaves[1..], p);
      if leaves[0].path == p then [leaves[0]] + rest else rest
  }

  lemma {:induction false} WithPathConcat(a: seq<Leaf>, b: seq<Leaf>, p: Path)
    ensures WithPath(a + b, p) == WithPath(a, p) + WithPath(b, p)
  {
    if a == [] {
      assert a + b == b;
    } else {
      assert (a + b)[1..] == a[1..] + b;
      WithPathConcat(a[1..], b, p);
    }
  }

  lemma {:induction false} NoneAbove(leaves: seq<Leaf>, x: Leaf)
    requires forall i :: 0 <= i < |leaves| ==> leaves[i].path != x.path
    ensures WithPath(leaves, x.path) == []
  {
    if leaves != [] {
      NoneAbove(leaves[1..], x);
    }
  }

  lemma {:induction false} InsertIsStable(leaves: seq<Leaf>, x: Leaf, p: Path)
    requires Sorted(leaves)
    ensures WithPath(Insert(leaves, x), p) == WithPath(leaves, p) + WithPath([x], p)
  {
    if leaves == [] {
      assert [x][1..] == [];
    } else if PathLe(leaves[0].path, x.path) {
      InsertIsStable(leaves[1..], x, p);
      assert ([leaves[0]] + Insert(leaves[1..], x))[1..] == Insert(leaves[1..], x);
    } else {
      WithPathConcat([x], leaves, p);
      if x.path == p {
        assert forall i :: 0 <= i < |leaves| ==> PathLe(leaves[0].path, leaves[i].path) by {
          PathOrder(leaves[0].path, leaves[0].path, []);
        }
        NoneAbove(leaves, x);
      } else {
        assert [x][1..] == [] && WithPath([x], p) == [];
      }
    }
  }

  /** The sort gives a sorted permutation in which leaves of equal path keep their order. */
  lemma {:induction false} SortIsStableOrder(leaves: seq<Leaf>)
    ensures Sorted(SortLeaves(leaves)) && multiset(SortLeaves(leaves)) == multiset(leaves)
    ensures forall p :: WithPath(SortLeaves(leaves), p) == WithPath(leaves, p)
  {
    if leaves != [] {
      var k := |leaves| - 1;
      SortIsStableOrder(leaves[..k]);
      InsertSorted(SortLeaves(leaves[..k]), leaves[k]);
      InsertMembers(SortLeaves(leaves[..k]), leaves[k]);
      assert leaves == leaves[..k] + [leaves[k]];
      forall p ensures WithPath(SortLeaves(leaves), p) == WithPath(leaves, p) {
        InsertIsStable(SortLeaves(leaves[..k]), leaves[k], p);
        WithPathConcat(leaves[..k], [leaves[k]], p);
      }
    }
  }

  ghost function PathsOf(leaves: seq<Leaf>): seq<Path> {
    seq(|leaves|, i requires 0 <= i < |leaves| => leaves[i].path)
  }

  ghost predicate CleanLeaves(leaves: seq<Leaf>) {
    forall i :: 0 <= i < |leaves| ==> CleanPath(leaves[i].path)
  }

  /** The compact folders of one leaf among all of them. */
  ghost function CompactOf(leaves: seq<Leaf>, i: nat): seq<string>
    requires i < |leaves|
  {
    Names(PathsOf(leaves), FoldersOf(leaves[i].path), 0)
  }

  /** Leaves under one folder stand together. */
  lemma FolderIsContiguous(leaves: seq<Leaf>, i: nat, j: nat, k: nat, q: seq<string>)
    requires Sorted(leaves) && CleanLeaves(leaves) && i <= j <= k < |leaves| && q <= CompactOf(leaves, i) && q <= CompactOf(leaves, k)
    ensures q <= CompactOf(leaves, j)
  {
    hide Sorted, Closed, Names, EndOf, PathLe;
    var paths := PathsOf(leaves);
    var a, b, c := leaves[i].path, leaves[j].path, leaves[k].path;
    if i < j < k && q != [] {
      assert PathLe(a, b) && PathLe(b, c) by { SortedAt(leaves, i, j); SortedAt(leaves, j, k); }
      var fa, fc := FoldersOf(a), FoldersOf(c);
      assert q == Names(paths, fa, 0)[..|q|] == Names(paths, fc, 0)[..|q|];
      NamesSpell(paths, fa, 0, |q|);
      NamesSpell(paths, fc, 0, |q|);
      var f := Flatten(q);
      assert f <= fa <= a && f <= fc <= c;
      NoNamesAtRoot(paths);
      PrefixIsContiguous(f, a, b, c);
      assert paths[i] == a;
      OwnFoldersClosed(paths, i);
      SameStartSameNames(paths, fa, FoldersOf(b), 0, |q|);
    }
  }

  lemma NoNamesAtRoot(paths: seq<Path>)
    ensures Names(paths, [], 0) == []
  {
  }

  lemma SortedAt(leaves: seq<Leaf>, i: nat, j: nat)
    requires Sorted(leaves) && i < j < |leaves|
    ensures PathLe(leaves[i].path, leaves[j].path)
  {
  }

  /** Two open folders with one key are one folder. */
  lemma KeyNamesFolder(leaves: seq<Leaf>, i: nat, j: nat, q: seq<string>, r: seq<string>)
    requires CleanLeaves(leaves) && i < |leaves| && j < |leaves| && q <= CompactOf(leaves, i) && r <= CompactOf(leaves, j)
    requires Join(q) == Join(r)
    ensures q == r
  {
    hide Closed, Names, EndOf;
    var paths := PathsOf(leaves);
    var fa, fb := FoldersOf(leaves[i].path), FoldersOf(leaves[j].path);
    assert q == Names(paths, fa, 0)[..|q|] && r == Names(paths, fb, 0)[..|r|];
    ComponentsOfJoin(q);
    ComponentsOfJoin(r);
    NamesSpell(paths, fa, 0, |q|);
    NamesSpell(paths, fb, 0, |r|);
    assert paths[i] == leaves[i].path;
    OwnFoldersClosed(paths, i);
    SameStartSameNames(paths, fa, fb, 0, |q|);
    assert q == Names(paths, fb, 0)[..|q|];
    SpellingFixesLength(paths, fb, |q|, |r|);
  }

  lemma SpellingFixesLength(paths: seq<Path>, folders: Path, k: nat, l: nat)
    requires CleanPath(folders) && k <= |Names(paths, folders, 0)| && l <= |Names(paths, folders, 0)|
    requires Flatten(Names(paths, folders, 0)[..k]) == Flatten(Names(paths, folders, 0)[..l])
    ensures k == l
  {
    hide Names, EndOf;
    NamesSpell(paths, folders, 0, k);
    NamesSpell(paths, folders, 0, l);
    if k < l {
      MoreNamesEndLater(paths, folders, 0, k, l);
    } else if l < k {
      MoreNamesEndLater(paths, folders, 0, l, k);
    }
  }

  lemma {:induction false} MoreNamesEndLater(paths: seq<Path>, folders: Path, d: nat, k: nat, l: nat)
    requires d <= |folders| && k < l <= |Names(paths, folders, d)|
    ensures EndOf(paths, folders, d, k) < EndOf(paths, folders, d, l)
    decreases |folders| - d
  {
    hide Closed, Join, SegmentEnd;
    if d < |folders| && k > 0 {
      MoreNamesEndLater(paths, folders, SegmentEnd(paths, folders, d + 1), k - 1, l - 1);
    }
  }

  // ----- compactFolders -----

  /** The children recorded once the first `i` paths and the first `d` folders of path `i` are done. */
  ghost function Recorded(paths: seq<Path>, i: nat, d: nat, f: Path): set<string> {
    set m | 0 <= m < |paths| && f <= FoldersOf(paths[m]) && (m < i || (m == i && |f| <= d)) :: Child(f, FoldersOf(paths[m]))
  }

  ghost predicate HoldsRecorded(paths: seq<Path>, i: nat, d: nat, holds: map<string, set<string>>) {
    forall f: Path :: f != [] && CleanPath(f) ==>
      Recorded(paths, i, d, f) == if Join(f) in holds then holds[Join(f)] else {}
  }

  lemma RecordedStep(paths: seq<Path>, i: nat, d: nat, f: Path)
    requires i < |paths| && d < |FoldersOf(paths[i])|
    ensures var folders := FoldersOf(paths[i]);
      Recorded(paths, i, d + 1, f) == Recorded(paths, i, d, f) + if f == folders[..d + 1] then {Child(f, folders)} else {}
  {
    var folders := FoldersOf(paths[i]);
    var old', new' := Recorded(paths, i, d, f), Recorded(paths, i, d + 1, f);
    forall c | c in new' ensures c in old' || (f == folders[..d + 1] && c == Child(f, folders)) {
      var m :| 0 <= m < |paths| && f <= FoldersOf(paths[m]) && (m < i || (m == i && |f| <= d + 1)) && c == Child(f, FoldersOf(paths[m]));
      if m == i && |f| == d + 1 {
        assert f == folders[..d + 1];
      }
    }
    if f == folders[..d + 1] {
      assert f <= FoldersOf(paths[i]) && Child(f, folders) in new';
    }
  }

  lemma HoldsStep(paths: seq<Path>, i: nat, d: nat, holds: map<string, set<string>>, key: string, children: set<string>)
    requires i < |paths| && CleanPath(paths[i]) && d < |FoldersOf(paths[i])| && HoldsRecorded(paths, i, d, holds)
    requires key == Join(FoldersOf(paths[i])[..d + 1])
    requires children == (if key in holds then holds[key] else {}) + {Child(FoldersOf(paths[i])[..d + 1], FoldersOf(paths[i]))}
    ensures HoldsRecorded(paths, i, d + 1, holds[key := children])
  {
    hide Recorded, Join;
    var folders := FoldersOf(paths[i]);
    forall f: Path | f != [] && CleanPath(f)
      ensures Recorded(paths, i, d + 1, f) == if Join(f) in holds[key := children] then holds[key := children][Join(f)] else {}
    {
      RecordedStep(paths, i, d, f);
      if Join(f) == key {
        JoinInjective(f, folders[..d + 1]);
      }
    }
  }

  lemma HoldsNextPath(paths: seq<Path>, i: nat, holds: map<string, set<string>>)
    requires i < |paths| && HoldsRecorded(paths, i, |FoldersOf(paths[i])|, holds)
    ensures HoldsRecorded(paths, i + 1, 0, holds)
  {
    forall f: Path | f != [] && CleanPath(f)
      ensures Recorded(paths, i + 1, 0, f) == Recorded(paths, i, |FoldersOf(paths[i])|, f)
    {
    }
  }

  method RecordHolds(paths: seq<Path>) returns (holds: map<string, set<string>>)
    requires CleanPaths(paths)
    ensures HoldsRecorded(paths, |paths|, 0, holds)
  {
    hide HoldsRecorded, Join;
    holds := map[];
    NothingRecorded(paths);
    for i := 0 to |paths|
      invariant HoldsRecorded(paths, i, 0, holds)
    {
      var folders := FoldersOf(paths[i]);
      for depth := 0 to |folders|
        invariant HoldsRecorded(paths, i, depth, holds)
      {
        var key := Join(folders[..depth + 1]);
        var children := if key in holds then holds[key] else {};
        children := children + {Child(folders[..depth + 1], folders)};
        HoldsStep(paths, i, depth, holds, key, children);
        holds := holds[key := children];
      }
      HoldsNextPath(paths, i, holds);
    }
  }

  lemma NothingRecorded(paths: seq<Path>)
    ensures HoldsRecorded(paths, 0, 0, map[])
  {
  }

  /** `holds.get(...)?.size === 1` decides exactly whether the folder goes on. */
  lemma OneChildMeansOpen(paths: seq<Path>, i: nat, e: nat, holds: map<string, set<string>>)
    requires CleanPaths(paths) && i < |paths| && 0 < e < |FoldersOf(paths[i])| && HoldsRecorded(paths, |paths|, 0, holds)
    ensures var key := Join(FoldersOf(paths[i])[..e]);
      key in holds && (|holds[key]| == 1 <==> !Closed(paths, FoldersOf(paths[i])[..e]))
  {
    var folders := FoldersOf(paths[i]);
    var f := folders[..e];
    var children := Children(paths, f);
    assert Recorded(paths, |paths|, 0, f) == children;
    assert f <= folders && Child(f, folders) == folders[e] && folders[e] in children;
    if |children| == 1 {
      SingletonIs(children, folders[e]);
    }
  }

  lemma SingletonIs(s: set<string>, x: string)
    requires |s| == 1 && x in s
    ensures s == {x}
  {
    assert |s - {x}| == 0;
    assert s == (s - {x}) + {x};
  }

  lemma {:induction false} JoinSnoc(f: seq<string>, c: string)
    requires f != []
    ensures Join(f + [c]) == Join(f) + "/" + c
  {
    if |f| > 1 {
      JoinSnoc(f[1..], c);
      assert (f + [c])[1..] == f[1..] + [c];
    } else {
      assert (f + [c])[1..] == [c];
    }
  }

  /** One path's folders with only-child folders joined. */
  method CompactPath(paths: seq<Path>, i: nat, holds: map<string, set<string>>) returns (compact: seq<string>)
    requires CleanPaths(paths) && i < |paths| && HoldsRecorded(paths, |paths|, 0, holds)
    ensures compact == Names(paths, FoldersOf(paths[i]), 0)
  {
    hide Closed, HoldsRecorded, Join;
    var folders := FoldersOf(paths[i]);
    compact := [];
    var depth := 0;
    while depth < |folders|
      invariant depth <= |folders| && compact + Names(paths, folders, depth) == Names(paths, folders, 0)
    {
      ghost var start := depth;
      var name := folders[depth];
      SingleJoin(folders, depth);
      while depth + 1 < |folders| && Join(folders[..depth + 1]) in holds && |holds[Join(folders[..depth + 1])]| == 1
        invariant start <= depth < |folders| && name == Join(folders[start..depth + 1])
        invariant SegmentEnd(paths, folders, start + 1) == SegmentEnd(paths, folders, depth + 1)
      {
        OneChildMeansOpen(paths, i, depth + 1, holds);
        depth := depth + 1;
        JoinSnoc(folders[start..depth], folders[depth]);
        assert folders[start..depth] + [folders[depth]] == folders[start..depth + 1];
        name := name + "/" + folders[depth];
      }
      if depth + 1 < |folders| {
        OneChildMeansOpen(paths, i, depth + 1, holds);
      }
      compact := compact + [name];
      depth := depth + 1;
    }
  }

  lemma SingleJoin(folders: seq<string>, d: nat)
    requires d < |folders|
    ensures Join(folders[d..d + 1]) == folders[d]
  {
  }

  /** `compactFolders`. */
  method CompactFolders(paths: seq<Path>) returns (compact: seq<seq<string>>)
    requires CleanPaths(paths)
    ensures |compact| == |paths|
    ensures forall i :: 0 <= i < |paths| ==> compact[i] == Names(paths, FoldersOf(paths[i]), 0)
  {
    hide Names, HoldsRecorded;
    var holds := RecordHolds(paths);
    compact := [];
    for i := 0 to |paths|
      invariant |compact| == i
      invariant forall k :: 0 <= k < i ==> compact[k] == Names(paths, FoldersOf(paths[k]), 0)
    {
      var c := CompactPath(paths, i, holds);
      compact := compact + [c];
    }
  }

  // ----- reading the lines back -----

  /** The folders a reader has open after some lines: a folder line at depth `d` replaces everything from `d` on. */
  function StackAfter(lines: seq<Line>): seq<string> {
    if lines == [] then []
    else
      var stack, last := StackAfter(lines[..|lines| - 1]), lines[|lines| - 1];
      if last.FolderLine? then stack[..if last.depth <= |stack| then last.depth else |stack|] + [last.name] else stack
  }

  /** Each row line with the folders above it: the open ones down to the row's depth. */
  function RowsRead(lines: seq<Line>): seq<(Line, seq<string>)> {
    if lines == [] then []
    else
      var rest, last := lines[..|lines| - 1], lines[|lines| - 1];
      if last.FolderLine? then RowsRead(rest)
      else
        var stack := StackAfter(rest);
        RowsRead(rest) + [(last, stack[..if last.depth <= |stack| then last.depth else |stack|])]
  }

  function FolderKey(q: seq<string>): string {
    "folder:" + Join(q)
  }

  /** `key` opens a folder of one of the first `i` leaves, or one of the first `d` folders of leaf `i`. */
  ghost predicate OpensFolder(leaves: seq<Leaf>, i: nat, d: nat, key: string) {
    exists k: nat, q: seq<string> :: k < |leaves| && (k < i || (k == i && |q| <= d)) && q != [] && q <= CompactOf(leaves, k) && key == FolderKey(q)
  }

  /** The line of such a folder, with its own key, depth and name. */
  ghost predicate OpensLine(leaves: seq<Leaf>, i: nat, d: nat, line: Line) {
    exists k: nat, q: seq<string> :: k < |leaves| && (k < i || (k == i && |q| <= d)) && q != [] && q <= CompactOf(leaves, k)
                                     && line == FolderLine(FolderKey(q), |q| - 1, q[|q| - 1])
  }

  lemma LineOpensFolder(leaves: seq<Leaf>, i: nat, d: nat, line: Line)
    requires OpensLine(leaves, i, d, line)
    ensures line.FolderLine? && OpensFolder(leaves, i, d, line.key)
  {
    hide CompactOf, FolderKey;
  }

  lemma LineStaysOpen(leaves: seq<Leaf>, i: nat, d: nat, i': nat, d': nat, line: Line)
    requires OpensLine(leaves, i, d, line) && (i < i' || (i == i' && d <= d'))
    ensures OpensLine(leaves, i', d', line)
  {
    hide CompactOf, FolderKey;
  }

  /** Every folder line is that of a folder of some row. */
  ghost predicate FoldersHoldRows(leaves: seq<Leaf>, lines: seq<Line>) {
    forall a :: 0 <= a < |lines| && lines[a].FolderLine? ==> OpensLine(leaves, |leaves|, 0, lines[a])
  }

  ghost predicate EachFolderOnce(lines: seq<Line>) {
    forall a, b :: 0 <= a < b < |lines| && lines[a].FolderLine? && lines[b].FolderLine? ==> lines[a].key != lines[b].key
  }

  /** The line of a row: its own key, one level below its last folder. */
  ghost function RowOf(leaves: seq<Leaf>, k: nat): Line
    requires k < |leaves|
  {
    RowLine(leaves[k].row.id, |CompactOf(leaves, k)|, leaves[k].row)
  }

  ghost predicate ReadsBack(leaves: seq<Leaf>, i: nat, lines: seq<Line>) {
    && i <= |leaves| && |RowsRead(lines)| == i
    && forall k :: 0 <= k < i ==> RowsRead(lines)[k] == (RowOf(leaves, k), CompactOf(leaves, k))
  }

  ghost predicate Drawing(leaves: seq<Leaf>, i: nat, d: nat, lines: seq<Line>, open: seq<string>) {
    && ReadsBack(leaves, i, lines) && open <= StackAfter(lines) && EachFolderOnce(lines)
    && forall a :: 0 <= a < |lines| && lines[a].FolderLine? ==> OpensLine(leaves, i, d, lines[a])
  }

  ghost predicate StopsAt(open: seq<string>, folders: seq<string>, shared: nat) {
    shared >= |open| || shared >= |folders| || open[shared] != folders[shared]
  }

  /** The previous leaf's folders, of which `shared` are kept. */
  ghost predicate SharedIsMaximal(leaves: seq<Leaf>, i: nat, shared: nat)
    requires i < |leaves|
  {
    var folders := CompactOf(leaves, i);
    shared <= |folders| && (i > 0 ==> StopsAt(CompactOf(leaves, i - 1), folders, shared))
  }

  lemma NewFolderIsNew(leaves: seq<Leaf>, i: nat, shared: nat, d: nat)
    requires Sorted(leaves) && CleanLeaves(leaves) && i < |leaves| && SharedIsMaximal(leaves, i, shared)
    requires shared <= d < |CompactOf(leaves, i)|
    ensures !OpensFolder(leaves, i, d, FolderKey(CompactOf(leaves, i)[..d + 1]))
  {
    hide Sorted, CompactOf, CleanLeaves, Join;
    var q := CompactOf(leaves, i)[..d + 1];
    forall k: nat, r: seq<string> | k < |leaves| && (k < i || (k == i && |r| <= d)) && r != [] && r <= CompactOf(leaves, k)
      ensures FolderKey(q) != FolderKey(r)
    {
      if FolderKey(q) == FolderKey(r) {
        assert Join(q) == FolderKey(q)[7..] == FolderKey(r)[7..] == Join(r);
        KeyNamesFolder(leaves, i, k, q, r);
        if k < i {
          FolderIsContiguous(leaves, k, i - 1, i, q);
        }
      }
    }
  }

  lemma DrawFolder(leaves: seq<Leaf>, i: nat, shared: nat, d: nat, lines: seq<Line>, open: seq<string>)
    requires Sorted(leaves) && CleanLeaves(leaves) && i < |leaves| && SharedIsMaximal(leaves, i, shared)
    requires shared <= d < |CompactOf(leaves, i)| && open == CompactOf(leaves, i)[..d] && Drawing(leaves, i, d, lines, open)
    ensures var open' := CompactOf(leaves, i)[..d + 1];
      Drawing(leaves, i, d + 1, lines + [FolderLine(FolderKey(open'), d, open'[d])], open')
  {
    hide CompactOf, Sorted, CleanLeaves, FolderKey, SharedIsMaximal;
    var open' := CompactOf(leaves, i)[..d + 1];
    var line := FolderLine(FolderKey(open'), d, open'[d]);
    var lines' := lines + [line];
    assert lines'[..|lines|] == lines;
    assert open' == open + [open'[d]];
    NewFolderIsNew(leaves, i, shared, d);
    hide OpensFolder;
    forall a | 0 <= a < |lines| && lines[a].FolderLine? ensures lines[a].key != line.key {
      LineOpensFolder(leaves, i, d, lines[a]);
    }
    assert OpensLine(leaves, i, d + 1, line);
    hide OpensLine;
    forall a | 0 <= a < |lines'| && lines'[a].FolderLine? ensures OpensLine(leaves, i, d + 1, lines'[a]) {
      if a < |lines| {
        LineStaysOpen(leaves, i, d, i, d + 1, lines[a]);
      }
    }
  }

  lemma DrawRow(leaves: seq<Leaf>, i: nat, lines: seq<Line>, open: seq<string>)
    requires i < |leaves| && open == CompactOf(leaves, i) && Drawing(leaves, i, |open|, lines, open)
    ensures Drawing(leaves, i + 1, 0, lines + [RowLine(leaves[i].row.id, |open|, leaves[i].row)], open)
  {
    hide CompactOf, FolderKey, OpensLine;
    var lines' := lines + [RowLine(leaves[i].row.id, |open|, leaves[i].row)];
    assert lines'[..|lines|] == lines;
    assert StackAfter(lines)[..|open|] == open;
    assert RowsRead(lines') == RowsRead(lines) + [(RowOf(leaves, i), open)];
    forall a | 0 <= a < |lines'| && lines'[a].FolderLine? ensures OpensLine(leaves, i + 1, 0, lines'[a]) {
      LineStaysOpen(leaves, i, |open|, i + 1, 0, lines[a]);
    }
  }

  lemma DrawNext(leaves: seq<Leaf>, i: nat, shared: nat, lines: seq<Line>, open: seq<string>)
    requires i < |leaves| && shared <= |open| && Drawing(leaves, i, 0, lines, open)
    ensures Drawing(leaves, i, shared, lines, open[..shared])
  {
    hide CompactOf, FolderKey, OpensLine;
    forall a | 0 <= a < |lines| && lines[a].FolderLine? ensures OpensLine(leaves, i, shared, lines[a]) {
      LineStaysOpen(leaves, i, 0, i, shared, lines[a]);
    }
  }

  /** How many of the open folders the next leaf keeps. */
  method Shared(open: seq<string>, folders: seq<string>) returns (shared: nat)
    ensures shared <= |open| && shared <= |folders| && open[..shared] == folders[..shared]
    ensures StopsAt(open, folders, shared)
  {
    shared := 0;
    while shared < |open| && shared < |folders| && open[shared] == folders[shared]
      invariant shared <= |open| && shared <= |folders| && open[..shared] == folders[..shared]
    {
      shared := shared + 1;
    }
  }

  method DrawLeaves(leaves: seq<Leaf>, compact: seq<seq<string>>) returns (lines: seq<Line>)
    requires Sorted(leaves) && CleanLeaves(leaves) && |compact| == |leaves|
    requires forall i :: 0 <= i < |leaves| ==> compact[i] == CompactOf(leaves, i)
    ensures ReadsBack(leaves, |leaves|, lines) && EachFolderOnce(lines) && FoldersHoldRows(leaves, lines)
  {
    hide CompactOf, Sorted, CleanLeaves, FolderKey, OpensLine;
    lines := [];
    var open: seq<string> := [];
    for i := 0 to |leaves|
      invariant Drawing(leaves, i, 0, lines, open) && (i > 0 ==> open == CompactOf(leaves, i - 1))
    {
      var folders := compact[i];
      var shared := Shared(open, folders);
      DrawNext(leaves, i, shared, lines, open);
      open := open[..shared];
      hide Drawing;
      for depth := shared to |folders|
        invariant open == folders[..depth] && Drawing(leaves, i, depth, lines, open)
      {
        DrawFolder(leaves, i, shared, depth, lines, open);
        open := open + [folders[depth]];
        assert open == folders[..depth + 1];
        lines := lines + [FolderLine(FolderKey(open), depth, folders[depth])];
      }
      assert open == folders;
      DrawRow(leaves, i, lines, open);
      lines := lines + [RowLine(leaves[i].row.id, |folders|, leaves[i].row)];
    }
  }

  /**
   * `agentTreeLines`: the rows come in path order, each once, those of one path in their given
   * order; every folder of a row, and nothing else, is opened, and at most once; and a reader who keeps the open folders on a stack finds above each row exactly the folders of its path.
   */
  method AgentTreeLines(rows: seq<Row>) returns (lines: seq<Line>, ghost leaves: seq<Leaf>)
    ensures Sorted(leaves) && multiset(leaves) == multiset(seq(|rows|, i requires 0 <= i < |rows| => LeafOf(rows[i])))
    ensures forall i, j :: 0 <= i < j < |leaves| ==> PathComesFirst(leaves[i].path, leaves[j].path)
    ensures forall p :: WithPath(leaves, p) == WithPath(seq(|rows|, i requires 0 <= i < |rows| => LeafOf(rows[i])), p)
    ensures EachFolderOnce(lines) && FoldersHoldRows(leaves, lines) && ReadsBack(leaves, |leaves|, lines)
    ensures forall k :: 0 <= k < |leaves| ==> RowsRead(lines)[k].0 == RowLine(leaves[k].row.id, |RowsRead(lines)[k].1|, leaves[k].row)
    ensures forall k :: 0 <= k < |leaves| ==> Flatten(RowsRead(lines)[k].1) == FoldersOf(leaves[k].path)
  {
    hide PathComesFirst, Sorted, Names, EachFolderOnce, FoldersHoldRows, RowsRead, Flatten, SortLeaves, WithPath;
    var all := seq(|rows|, i requires 0 <= i < |rows| => LeafOf(rows[i]));
    SortIsStableOrder(all);
    var sorted := SortLeaves(all);
    SortKeepsClean(all);
    SortedMeans(sorted);
    var paths := seq(|sorted|, i requires 0 <= i < |sorted| => sorted[i].path);
    assert paths == PathsOf(sorted);
    var compact := CompactFolders(paths);
    lines := DrawLeaves(sorted, compact);
    leaves := sorted;
    forall k | 0 <= k < |leaves| ensures Flatten(RowsRead(lines)[k].1) == FoldersOf(leaves[k].path) {
      NamesReadBack(paths, FoldersOf(leaves[k].path));
    }
  }

  lemma SortedMeans(leaves: seq<Leaf>)
    requires Sorted(leaves)
    ensures forall i, j :: 0 <= i < j < |leaves| ==> PathComesFirst(leaves[i].path, leaves[j].path)
  {
    forall i, j | 0 <= i < j < |leaves| ensures PathComesFirst(leaves[i].path, leaves[j].path) {
      PathLeMeans(leaves[i].path, leaves[j].path);
    }
  }

  lemma SortKeepsClean(leaves: seq<Leaf>)
    requires CleanLeaves(leaves)
    ensures CleanLeaves(SortLeaves(leaves))
  {
    SortIsStableOrder(leaves);
    var sorted := SortLeaves(leaves);
    forall i | 0 <= i < |sorted| ensures CleanPath(sorted[i].path) {
      assert sorted[i] in multiset(sorted);
      assert sorted[i] in leaves;
    }
  }
}
