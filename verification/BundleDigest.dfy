/**
 * The byte stream of src/agent_publish.rs that a bundle digest is taken of: one length-prefixed
 * record per entry, directories before what they hold, names in byte order. Text and bytes are
 * both written as strings, one char per byte.
 */
module BundleDigest {
  import opened Paths

  datatype Option<+T> = None | Some(value: T)

  /** `Special` is a symlink or any entry that is neither a file nor a directory. */
  datatype Tree = File(executable: bool, bytes: string) | Dir(entries: map<string, Tree>) | Special

  /** What is recorded of one entry, apart from its path. */
  datatype Mark = DirMark | FileMark(executable: bool, bytes: string)

  datatype Record = Record(path: string, mark: Mark)

  // ----- lengths -----

  ghost function Pow256(k: nat): nat {
    if k == 0 then 1 else 256 * Pow256(k - 1)
  }

  /** `to_be_bytes` on `k` bytes. */
  function BigEndian(n: nat, k: nat): (s: string)
    ensures |s| == k
  {
    if k == 0 then "" else BigEndian(n / 256, k - 1) + [(n % 256) as char]
  }

  function FromBigEndian(s: string): nat {
    if s == "" then 0 else FromBigEndian(s[..|s| - 1]) * 256 + s[|s| - 1] as nat
  }

  lemma {:induction false} BigEndianRoundTrip(n: nat, k: nat)
    requires n < Pow256(k)
    ensures FromBigEndian(BigEndian(n, k)) == n
  {
    if k > 0 {
      BigEndianRoundTrip(n / 256, k - 1);
      var s := BigEndian(n, k);
      assert s[..|s| - 1] == BigEndian(n / 256, k - 1);
    }
  }

  // ----- records -----

  /** A length that fits the eight bytes it is written in. */
  ghost predicate Fits(s: string) {
    |s| < Pow256(8)
  }

  ghost predicate RecordFits(r: Record) {
    Fits(r.path) && (r.mark.FileMark? ==> Fits(r.mark.bytes))
  }

  function Sized(s: string): string {
    BigEndian(|s|, 8) + s
  }

  function Flag(b: bool): char {
    if b then 1 as char else 0 as char
  }

  /** `hash_record`. */
  function RecordBytes(r: Record): (s: string)
    ensures s != ""
  {
    match r.mark
    case DirMark => "d" + Sized(r.path) + [Flag(false)] + Sized("")
    case FileMark(executable, bytes) => "f" + Sized(r.path) + [Flag(executable)] + Sized(bytes)
  }

  /** Eight bytes for a length below 256: seven zeros and the length. */
  lemma {:induction false} ShortLength(n: nat, k: nat)
    requires n < 256 && k > 0
    ensures BigEndian(n, k) == seq(k - 1, _ => 0 as char) + [n as char]
  {
    if k > 1 {
      assert n / 256 == 0 && n % 256 == n;
      ShortLength(0, k - 1);
      assert BigEndian(0, k - 1) == seq(k - 1, _ => 0 as char);
    }
  }

  /** The format on a directory and on an executable file. */
  lemma FormatExample()
    ensures var zeros := seq(7, _ => 0 as char);
      && RecordBytes(Record("bin", DirMark)) == "d" + zeros + [3 as char] + "bin" + [0 as char] + zeros + [0 as char]
      && RecordBytes(Record("bin/st", FileMark(true, "hi"))) ==
         "f" + zeros + [6 as char] + "bin/st" + [1 as char] + zeros + [2 as char] + "hi"
      && RecordBytes(Record("a", FileMark(false, ""))) == "f" + zeros + [1 as char] + "a" + [0 as char] + zeros + [0 as char]
  {
    hide BigEndian;
    ShortLength(3, 8);
    ShortLength(0, 8);
    ShortLength(6, 8);
    ShortLength(2, 8);
    ShortLength(1, 8);
  }

  function Stream(rs: seq<Record>): string {
    if rs == [] then "" else RecordBytes(rs[0]) + Stream(rs[1..])
  }

  /** Read one sized string off the front. */
  function TakeSized(s: string): Option<(string, string)> {
    if |s| < 8 then None
    else
      var n := FromBigEndian(s[..8]);
      if |s| < 8 + n then None else Some((s[8..8 + n], s[8 + n..]))
  }

  function TakeRecord(s: string): (r: Option<(Record, string)>)
    ensures r.Some? ==> |r.value.1| < |s|
  {
    if s == "" then None
    else
      var path := TakeSized(s[1..]);
      if path.None? || path.value.1 == "" then None
      else
        var bytes := TakeSized(path.value.1[1..]);
        if bytes.None? then None
        else if s[0] == 'd' then Some((Record(path.value.0, DirMark), bytes.value.1))
        else Some((Record(path.value.0, FileMark(path.value.1[0] == Flag(true), bytes.value.0)), bytes.value.1))
  }

  /** The decoder: the record list a stream was written from. */
  function Decode(s: string): Option<seq<Record>>
    decreases |s|
  {
    if s == "" then Some([])
    else
      var r := TakeRecord(s);
      if r.None? then None
      else
        var rest := Decode(r.value.1);
        if rest.None? then None else Some([r.value.0] + rest.value)
  }

  lemma TakeSizedOf(s: string, rest: string)
    requires Fits(s)
    ensures TakeSized(Sized(s) + rest) == Some((s, rest))
  {
    var t := Sized(s) + rest;
    assert t[..8] == BigEndian(|s|, 8);
    BigEndianRoundTrip(|s|, 8);
    assert t[8..8 + |s|] == s && t[8 + |s|..] == rest;
  }

  lemma TakeRecordOf(r: Record, rest: string)
    requires RecordFits(r)
    ensures TakeRecord(RecordBytes(r) + rest) == Some((r, rest))
  {
    hide Sized, TakeSized, BigEndian, Fits;
    var executable := r.mark.FileMark? && r.mark.executable;
    var bytes := if r.mark.FileMark? then r.mark.bytes else "";
    EmptyFits();
    var s := RecordBytes(r) + rest;
    var afterPath := [Flag(executable)] + (Sized(bytes) + rest);
    assert s[1..] == Sized(r.path) + afterPath;
    TakeSizedOf(r.path, afterPath);
    assert afterPath[1..] == Sized(bytes) + rest;
    TakeSizedOf(bytes, rest);
  }

  lemma EmptyFits()
    ensures Fits("")
  {
  }

  lemma {:induction false} DecodeStream(rs: seq<Record>)
    requires forall i :: 0 <= i < |rs| ==> RecordFits(rs[i])
    ensures Decode(Stream(rs)) == Some(rs)
  {
    hide RecordBytes, TakeRecord, RecordFits;
    if rs != [] {
      DecodeStream(rs[1..]);
      TakeRecordOf(rs[0], Stream(rs[1..]));
      assert Stream(rs) != "" && [rs[0]] + rs[1..] == rs;
    }
  }

  // ----- trees -----

  /** Names are non-empty and hold no slash. */
  ghost predicate CleanTree(t: Tree) {
    t.Dir? ==> forall k :: k in t.entries ==> Clean(k) && CleanTree(t.entries[k])
  }

  function MarkOf(t: Tree): Mark {
    match t
    case File(executable, bytes) => FileMark(executable, bytes)
    case _ => DirMark
  }

  /** Files and directories all the way down. */
  ghost predicate Plain(t: Tree) {
    !t.Special? && (t.Dir? ==> forall k :: k in t.entries ==> Plain(t.entries[k]))
  }

  /** The entry at a relative path. */
  function Lookup(t: Tree, p: Path): Option<Mark> {
    if p == [] || !t.Dir? || p[0] !in t.entries then None
    else if |p| == 1 then Some(MarkOf(t.entries[p[0]]))
    else Lookup(t.entries[p[0]], p[1..])
  }

  ghost predicate IsLeast(x: string, names: set<string>) {
    x in names && forall y :: y in names && y != x ==> StrLess(x, y)
  }

  lemma {:induction false} LeastExists(names: set<string>) returns (x: string)
    requires names != {}
    ensures IsLeast(x, names)
    decreases |names|
  {
    x :| x in names;
    var rest := names - {x};
    if rest != {} {
      var y := LeastExists(rest);
      if StrLess(y, x) {
        x := y;
      } else {
        StrOrder(x, y, "");
        forall z | z in names && z != x ensures StrLess(x, z) {
          StrOrder(x, y, z);
        }
      }
    }
  }

  lemma LeastUnique(x: string, y: string, names: set<string>)
    requires IsLeast(x, names) && IsLeast(y, names)
    ensures x == y
  {
    StrOrder(x, y, "");
  }

  /** The least name: the next one in byte order. */
  ghost function Least(names: set<string>): (x: string)
    requires names != {}
    ensures IsLeast(x, names)
  {
    assert exists x :: IsLeast(x, names) by { var x := LeastExists(names); }
    var x :| IsLeast(x, names);
    x
  }

  /** The records of the entries `names` of directory `t`, which lies at `prefix`. */
  ghost function Records(t: Tree, names: set<string>, prefix: Path): seq<Record>
    requires t.Dir? && names <= t.entries.Keys
    decreases t, |names|
  {
    if names == {} then []
    else
      var x := Least(names);
      var child := t.entries[x];
      [Record(Join(prefix + [x]), MarkOf(child))]
      + (if child.Dir? then Records(child, child.entries.Keys, prefix + [x]) else [])
      + Records(t, names - {x}, prefix)
  }

  ghost function TreeRecords(t: Tree): seq<Record>
    requires t.Dir?
  {
    Records(t, t.entries.Keys, [])
  }

  ghost function BundleStream(t: Tree): string
    requires t.Dir?
  {
    Stream(TreeRecords(t))
  }

  /** Every record tells the truth about one entry. */
  ghost predicate RecordOf(t: Tree, prefix: Path, r: Record) {
    exists p :: CleanPath(p) && Lookup(t, p) == Some(r.mark) && r.path == Join(prefix + p)
  }

  lemma RecordOfChild(t: Tree, x: string, prefix: Path, r: Record)
    requires t.Dir? && x in t.entries && Clean(x) && RecordOf(t.entries[x], prefix + [x], r)
    ensures RecordOf(t, prefix, r)
  {
    hide Join, Clean;
    var p :| CleanPath(p) && Lookup(t.entries[x], p) == Some(r.mark) && r.path == Join(prefix + [x] + p);
    var q := [x] + p;
    assert prefix + [x] + p == prefix + q && q[1..] == p;
    assert CleanPath(q) && Lookup(t, q) == Some(r.mark) && r.path == Join(prefix + q);
  }

  lemma {:induction false} RecordsAreTrue(t: Tree, names: set<string>, prefix: Path, i: nat)
    requires t.Dir? && CleanTree(t) && names <= t.entries.Keys && i < |Records(t, names, prefix)|
    ensures RecordOf(t, prefix, Records(t, names, prefix)[i])
    decreases t, |names|
  {
    hide Join, Clean, RecordOf;
    var x := Least(names);
    var child := t.entries[x];
    var inner := if child.Dir? then Records(child, child.entries.Keys, prefix + [x]) else [];
    if i == 0 {
      RecordOfEntry(t, x, prefix);
    } else if i < 1 + |inner| {
      RecordsAreTrue(child, child.entries.Keys, prefix + [x], i - 1);
      RecordOfChild(t, x, prefix, inner[i - 1]);
    } else {
      RecordsAreTrue(t, names - {x}, prefix, i - 1 - |inner|);
    }
  }

  lemma RecordOfEntry(t: Tree, x: string, prefix: Path)
    requires t.Dir? && x in t.entries && Clean(x)
    ensures RecordOf(t, prefix, Record(Join(prefix + [x]), MarkOf(t.entries[x])))
  {
    hide Join, Clean;
    assert CleanPath([x]) && Lookup(t, [x]) == Some(MarkOf(t.entries[x]));
  }

  /** The records of what lies under the least entry. */
  ghost function Under(t: Tree, names: set<string>, prefix: Path): seq<Record>
    requires t.Dir? && names <= t.entries.Keys && names != {}
  {
    var child := t.entries[Least(names)];
    if child.Dir? then Records(child, child.entries.Keys, prefix + [Least(names)]) else []
  }

  /** Where a record comes from: the least entry, what lies under it, or the other entries. */
  lemma RecordAt(t: Tree, names: set<string>, prefix: Path, i: nat)
    requires t.Dir? && names <= t.entries.Keys && i < |Records(t, names, prefix)|
    ensures names != {}
    ensures var x, under, rest := Least(names), Under(t, names, prefix), Records(t, names - {Least(names)}, prefix);
      && |Records(t, names, prefix)| == 1 + |under| + |rest|
      && (i == 0 ==> Records(t, names, prefix)[i].path == Join(prefix + [x]))
      && (0 < i < 1 + |under| ==> t.entries[x].Dir? && Records(t, names, prefix)[i] == under[i - 1])
      && (i >= 1 + |under| ==> Records(t, names, prefix)[i] == rest[i - 1 - |under|])
  {
    hide Join;
  }

  ghost predicate HasPath(r: Record, prefix: Path, p: Path) {
    CleanPath(p) && r.path == Join(prefix + p)
  }

  lemma PathBelow(r: Record, prefix: Path, x: string, p: Path)
    requires Clean(x) && HasPath(r, prefix + [x], p)
    ensures HasPath(r, prefix, [x] + p)
  {
    hide Join, Clean;
    assert prefix + [x] + p == prefix + ([x] + p);
  }

  /** The path behind one record. */
  lemma {:induction false} RecordPath(t: Tree, names: set<string>, prefix: Path, i: nat) returns (p: Path)
    requires t.Dir? && CleanTree(t) && names <= t.entries.Keys && i < |Records(t, names, prefix)|
    ensures HasPath(Records(t, names, prefix)[i], prefix, p) && p != [] && p[0] in names
    ensures names != {} && (i == 0 ==> p == [Least(names)])
    ensures i >= 1 + |Under(t, names, prefix)| ==> p[0] != Least(names)
    ensures i < 1 + |Under(t, names, prefix)| ==> p[0] == Least(names)
    decreases t, |names|
  {
    hide Join, Clean, Records, Under;
    RecordAt(t, names, prefix, i);
    var x, under := Least(names), Under(t, names, prefix);
    if i == 0 {
      p := [x];
    } else if i < 1 + |under| {
      p := UnderPath(t, names, prefix, i - 1);
    } else {
      p := RecordPath(t, names - {x}, prefix, i - 1 - |under|);
    }
  }

  lemma {:induction false} UnderPath(t: Tree, names: set<string>, prefix: Path, i: nat) returns (p: Path)
    requires t.Dir? && CleanTree(t) && names <= t.entries.Keys && names != {} && i < |Under(t, names, prefix)|
    ensures |p| > 1 && p[0] == Least(names) && HasPath(Under(t, names, prefix)[i], prefix, p)
    decreases t, |names|, 0
  {
    hide Join, Clean, Records, HasPath;
    var x := Least(names);
    var child := t.entries[x];
    var below := RecordPath(child, child.entries.Keys, prefix + [x], i);
    p := [x] + below;
    PathBelow(Under(t, names, prefix)[i], prefix, x, below);
  }

  ghost predicate Ascends(a: Record, b: Record, prefix: Path, p: Path, q: Path) {
    HasPath(a, prefix, p) && HasPath(b, prefix, q) && PathLe(p, q) && p != q
  }

  /** Records come in strictly ascending order of their paths, a directory before what it holds. */
  lemma {:induction false} RecordsAscend(t: Tree, names: set<string>, prefix: Path, i: nat, j: nat) returns (p: Path, q: Path)
    requires t.Dir? && CleanTree(t) && names <= t.entries.Keys && i < j < |Records(t, names, prefix)|
    ensures Ascends(Records(t, names, prefix)[i], Records(t, names, prefix)[j], prefix, p, q)
    decreases t, |names|
  {
    hide Records, Under, HasPath, StrLess;
    RecordAt(t, names, prefix, i);
    RecordAt(t, names, prefix, j);
    var x, under := Least(names), Under(t, names, prefix);
    if i >= 1 + |under| {
      p, q := RecordsAscend(t, names - {x}, prefix, i - 1 - |under|, j - 1 - |under|);
    } else if 0 < i && j < 1 + |under| {
      p, q := UnderAscends(t, names, prefix, i - 1, j - 1);
    } else {
      p := RecordPath(t, names, prefix, i);
      if j < 1 + |under| {
        q := UnderPath(t, names, prefix, j - 1);
        assert p[1..] == [];
        assert PathLe(p, q) && p != q;
      } else {
        q := RecordPath(t, names, prefix, j);
        assert p[0] != q[0] && PathLe(p, q);
      }
    }
  }

  lemma {:induction false} UnderAscends(t: Tree, names: set<string>, prefix: Path, i: nat, j: nat) returns (p: Path, q: Path)
    requires t.Dir? && CleanTree(t) && names <= t.entries.Keys && names != {} && i < j < |Under(t, names, prefix)|
    ensures Ascends(Under(t, names, prefix)[i], Under(t, names, prefix)[j], prefix, p, q)
    decreases t, |names|, 0
  {
    hide Join, Clean, Records, HasPath, StrLess;
    var x := Least(names);
    var child := t.entries[x];
    var a, b := RecordsAscend(child, child.entries.Keys, prefix + [x], i, j);
    PathBelow(Under(t, names, prefix)[i], prefix, x, a);
    PathBelow(Under(t, names, prefix)[j], prefix, x, b);
    p, q := [x] + a, [x] + b;
    assert p[1..] == a && q[1..] == b;
  }

  /** So every path stands once, and where it stands is decided by the byte order of its components. */
  lemma RecordsAreOrdered(t: Tree, i: nat, j: nat)
    requires t.Dir? && CleanTree(t) && i < j < |TreeRecords(t)|
    ensures var a, b := Components(TreeRecords(t)[i].path), Components(TreeRecords(t)[j].path);
      PathComesFirst(a, b) && a != b
  {
    hide Join, Clean, PathComesFirst, Records;
    var p, q := RecordsAscend(t, t.entries.Keys, [], i, j);
    assert [] + p == p && [] + q == q;
    SplitJoin(p);
    SplitJoin(q);
    PathLeMeans(p, q);
  }

  lemma {:induction false} RecordsAreComplete(t: Tree, names: set<string>, prefix: Path, p: Path)
    requires t.Dir? && names <= t.entries.Keys && p != [] && p[0] in names && Lookup(t, p).Some?
    ensures Record(Join(prefix + p), Lookup(t, p).value) in Records(t, names, prefix)
    decreases t, |names|
  {
    hide Join;
    var x := Least(names);
    if p[0] != x {
      RecordsAreComplete(t, names - {x}, prefix, p);
    } else if |p| == 1 {
      assert p == [x];
    } else {
      var child := t.entries[x];
      assert prefix + [x] + p[1..] == prefix + p;
      RecordsAreComplete(child, child.entries.Keys, prefix + [x], p[1..]);
    }
  }

  /** The records of a tree decide every lookup. */
  lemma RecordsDecideLookup(a: Tree, b: Tree, p: Path)
    requires a.Dir? && b.Dir? && CleanTree(a) && CleanTree(b) && TreeRecords(a) == TreeRecords(b) && CleanPath(p)
    requires Lookup(a, p).Some?
    ensures Lookup(b, p) == Lookup(a, p)
  {
    hide Join, CleanTree, Records;
    RecordsAreComplete(a, a.entries.Keys, [], p);
    assert [] + p == p;
    var r := Record(Join(p), Lookup(a, p).value);
    var i :| 0 <= i < |TreeRecords(b)| && TreeRecords(b)[i] == r;
    RecordsAreTrue(b, b.entries.Keys, [], i);
    var q :| CleanPath(q) && Lookup(b, q) == Some(r.mark) && r.path == Join([] + q);
    assert [] + q == q;
    JoinInjective(p, q);
  }

  /** Trees that answer every lookup alike are equal. */
  lemma {:induction false} LookupDecidesTree(a: Tree, b: Tree)
    requires a.Dir? && b.Dir? && CleanTree(a) && CleanTree(b) && Plain(a) && Plain(b)
    requires forall p :: CleanPath(p) ==> Lookup(a, p) == Lookup(b, p)
    ensures a == b
    decreases a
  {
    hide Clean;
    forall k ensures k in a.entries <==> k in b.entries {
      if k in a.entries || k in b.entries {
        assert CleanPath([k]);
        assert Lookup(a, [k]) == Lookup(b, [k]);
      }
    }
    forall k | k in a.entries ensures a.entries[k] == b.entries[k] {
      assert CleanPath([k]) && Lookup(a, [k]) == Lookup(b, [k]);
      if a.entries[k].Dir? {
        forall p | CleanPath(p) ensures Lookup(a.entries[k], p) == Lookup(b.entries[k], p) {
          LookupBelow(a, k, p);
          LookupBelow(b, k, p);
          assert CleanPath([k] + p);
        }
        LookupDecidesTree(a.entries[k], b.entries[k]);
      }
    }
    assert a.entries == b.entries;
  }

  lemma LookupBelow(t: Tree, k: string, p: Path)
    requires t.Dir? && k in t.entries
    ensures p != [] ==> Lookup(t, [k] + p) == Lookup(t.entries[k], p)
  {
    if p != [] {
      assert ([k] + p)[1..] == p;
    }
  }

  /** The stream decides the tree: equal streams come from equal paths, kinds, executable bits and contents. */
  lemma StreamDecidesTree(a: Tree, b: Tree)
    requires a.Dir? && b.Dir? && CleanTree(a) && CleanTree(b) && Plain(a) && Plain(b) && BundleStream(a) == BundleStream(b)
    requires forall r :: r in TreeRecords(a) || r in TreeRecords(b) ==> RecordFits(r)
    ensures a == b
  {
    hide CleanTree, Plain, TreeRecords, Stream, Decode, RecordFits;
    DecodeStream(TreeRecords(a));
    DecodeStream(TreeRecords(b));
    forall p | CleanPath(p) ensures Lookup(a, p) == Lookup(b, p) {
      if Lookup(a, p).Some? {
        RecordsDecideLookup(a, b, p);
      } else if Lookup(b, p).Some? {
        RecordsDecideLookup(b, a, p);
      }
    }
    LookupDecidesTree(a, b);
  }

  // ----- feeding the hasher -----

  class Hasher {
    var fed: string

    constructor ()
      ensures fed == ""
    {
      fed := "";
    }

    method Update(bytes: string)
      modifies this
      ensures fed == old(fed) + bytes
    {
      fed := fed + bytes;
    }

    method HashRecord(kind: char, path: string, executable: bool, bytes: string)
      modifies this
      ensures fed == old(fed) + ([kind] + Sized(path) + [Flag(executable)] + Sized(bytes))
    {
      Update([kind]);
      Update(BigEndian(|path|, 8));
      Update(path);
      Update([Flag(executable)]);
      Update(BigEndian(|bytes|, 8));
      Update(bytes);
    }
  }

  /** `read_dir`: the names in whatever order the file system gives. */
  method ReadDir(t: Tree) returns (listing: seq<string>)
    requires t.Dir?
    ensures NameSet(listing) == t.entries.Keys && Distinct(listing)
  {
    listing := [];
    var rest := t.entries.Keys;
    while rest != {}
      invariant NameSet(listing) == t.entries.Keys - rest && rest <= t.entries.Keys && Distinct(listing)
      decreases rest
    {
      var x :| x in rest;
      assert x !in NameSet(listing);
      assert NameSet(listing + [x]) == NameSet(listing) + {x};
      listing := listing + [x];
      rest := rest - {x};
    }
  }

  ghost function NameSet(names: seq<string>): set<string> {
    set x | x in names
  }

  ghost predicate Distinct(names: seq<string>) {
    forall i, j :: 0 <= i < j < |names| ==> names[i] != names[j]
  }

  ghost predicate Ascending(names: seq<string>) {
    forall i, j :: 0 <= i < j < |names| ==> StrLess(names[i], names[j])
  }

  function InsertName(names: seq<string>, x: string): seq<string> {
    if names == [] || StrLess(x, names[0]) then [x] + names else [names[0]] + InsertName(names[1..], x)
  }

  /** `entries.sort_by_key(file_name)`. */
  function SortNames(names: seq<string>): seq<string> {
    if names == [] then [] else InsertName(SortNames(names[1..]), names[0])
  }

  lemma {:induction false} InsertNameSorted(names: seq<string>, x: string)
    requires Ascending(names) && x !in names
    ensures Ascending(InsertName(names, x)) && NameSet(InsertName(names, x)) == NameSet(names) + {x}
  {
    if names == [] {
    } else if StrLess(x, names[0]) {
      forall j | 0 <= j < |names| ensures StrLess(x, names[j]) {
        StrOrder(x, names[0], names[j]);
      }
      assert NameSet([x] + names) == NameSet(names) + {x};
    } else {
      StrOrder(x, names[0], "");
      var r := InsertName(names[1..], x);
      InsertNameSorted(names[1..], x);
      forall j | 0 <= j < |r| ensures StrLess(names[0], r[j]) {
        assert r[j] in NameSet(r);
        assert r[j] == x || r[j] in names[1..];
      }
      assert names == [names[0]] + names[1..];
      assert NameSet(names) == NameSet(names[1..]) + {names[0]};
      assert NameSet([names[0]] + r) == NameSet(r) + {names[0]};
    }
  }

  lemma SortNamesSorted(names: seq<string>)
    requires Distinct(names)
    ensures Ascending(SortNames(names)) && NameSet(SortNames(names)) == NameSet(names)
    ensures forall i, j :: 0 <= i < j < |SortNames(names)| ==> ComesBefore(SortNames(names)[i], SortNames(names)[j])
  {
    SortNamesAscend(names);
    var sorted := SortNames(names);
    forall i, j | 0 <= i < j < |sorted| ensures ComesBefore(sorted[i], sorted[j]) {
      StrLessMeans(sorted[i], sorted[j]);
    }
  }

  lemma {:induction false} SortNamesAscend(names: seq<string>)
    requires Distinct(names)
    ensures Ascending(SortNames(names)) && NameSet(SortNames(names)) == NameSet(names)
  {
    if names != [] {
      SortNamesAscend(names[1..]);
      assert names == [names[0]] + names[1..];
      assert NameSet(names) == NameSet(names[1..]) + {names[0]};
      assert names[0] !in NameSet(names[1..]);
      assert names[0] !in SortNames(names[1..]);
      InsertNameSorted(SortNames(names[1..]), names[0]);
    }
  }

  lemma FirstIsLeast(names: seq<string>)
    requires Ascending(names) && names != []
    ensures NameSet(names) != {} && Least(NameSet(names)) == names[0] && NameSet(names) - {names[0]} == NameSet(names[1..])
  {
    assert names[0] in NameSet(names);
    LeastUnique(names[0], Least(NameSet(names)), NameSet(names));
    assert names == [names[0]] + names[1..];
    assert names[0] !in names[1..] by { StrOrder(names[0], names[0], ""); }
  }

  lemma {:induction false} StreamConcat(a: seq<Record>, b: seq<Record>)
    ensures Stream(a + b) == Stream(a) + Stream(b)
  {
    if a == [] {
      assert a + b == b;
    } else {
      assert (a + b)[1..] == a[1..] + b;
      StreamConcat(a[1..], b);
    }
  }

  /** The stream of the remaining names starts with the first name's record and what lies below it. */
  lemma StreamStep(t: Tree, names: seq<string>, prefix: Path)
    requires t.Dir? && Ascending(names) && names != [] && NameSet(names) <= t.entries.Keys
    ensures names[0] in t.entries && NameSet(names[1..]) <= t.entries.Keys
    ensures var child := t.entries[names[0]];
      Stream(Records(t, NameSet(names), prefix)) == EntryStream(child, prefix + [names[0]]) + Stream(Records(t, NameSet(names[1..]), prefix))
  {
    hide RecordBytes, Join;
    FirstIsLeast(names);
    assert names[0] in NameSet(names);
    var x := names[0];
    var child := t.entries[x];
    var head := [Record(Join(prefix + [x]), MarkOf(child))];
    var inner := if child.Dir? then Records(child, child.entries.Keys, prefix + [x]) else [];
    var rest := Records(t, NameSet(names[1..]), prefix);
    assert Records(t, NameSet(names), prefix) == head + inner + rest;
    StreamConcat(head + inner, rest);
    StreamConcat(head, inner);
    assert head[1..] == [] && Stream(head) == RecordBytes(head[0]);
  }

  /** What one entry adds to the stream: its record, and for a directory what lies below it. */
  ghost function EntryStream(child: Tree, path: Path): string {
    RecordBytes(Record(Join(path), MarkOf(child))) + if child.Dir? then Stream(Records(child, child.entries.Keys, path)) else ""
  }

  /** The body of the loop in `hash_bundle_dir`. */
  method HashEntry(child: Tree, path: Path, hasher: Hasher) returns (ok: bool)
    modifies hasher
    ensures ok <==> Plain(child)
    ensures ok ==> hasher.fed == old(hasher.fed) + EntryStream(child, path)
    decreases child, 1
  {
    hide Records, Stream, RecordBytes, Join, Sized;
    var relative := Join(path);
    match child {
      case Dir(_) =>
        hasher.HashRecord('d', relative, false, "");
        DirRecordBytes(relative);
        hide Plain;
        ok := HashBundleDir(child, path, hasher);
      case File(executable, bytes) =>
        hasher.HashRecord('f', relative, executable, bytes);
        FileRecordBytes(relative, executable, bytes);
        ok := true;
      case Special =>
        ok := false;
    }
  }

  /**
   * `hash_bundle_dir`: whatever order the directory is read in, the hasher is fed exactly the
   * stream of the tree; a symlink or special entry anywhere fails the walk.
   */
  method HashBundleDir(t: Tree, prefix: Path, hasher: Hasher) returns (ok: bool)
    requires t.Dir?
    modifies hasher
    ensures ok <==> Plain(t)
    ensures ok ==> hasher.fed == old(hasher.fed) + Stream(Records(t, t.entries.Keys, prefix))
    decreases t, 0
  {
    hide Records, Stream, EntryStream, SortNames, Ascending, Distinct, Plain;
    PlainDir(t);
    var listing := ReadDir(t);
    SortNamesSorted(listing);
    var names := SortNames(listing);
    while names != []
      invariant Ascending(names) && NameSet(names) <= t.entries.Keys
      invariant forall k :: k in t.entries && k !in NameSet(names) ==> Plain(t.entries[k])
      invariant hasher.fed + Stream(Records(t, NameSet(names), prefix)) == old(hasher.fed) + Stream(Records(t, t.entries.Keys, prefix))
      decreases |names|
    {
      StreamStep(t, names, prefix);
      TailFacts(names);
      ghost var before := hasher.fed;
      ok := HashEntry(t.entries[names[0]], prefix + [names[0]], hasher);
      if !ok {
        return;
      }
      Associates(before, EntryStream(t.entries[names[0]], prefix + [names[0]]), Stream(Records(t, NameSet(names[1..]), prefix)));
      names := names[1..];
    }
    NoRecords(t, prefix);
    assert NameSet(names) == {};
    ok := true;
  }

  lemma Associates(a: string, b: string, c: string)
    ensures a + (b + c) == (a + b) + c
  {
  }

  lemma PlainDir(t: Tree)
    requires t.Dir?
    ensures Plain(t) <==> forall k :: k in t.entries ==> Plain(t.entries[k])
  {
  }

  lemma TailFacts(names: seq<string>)
    requires Ascending(names) && names != []
    ensures Ascending(names[1..]) && NameSet(names[1..]) == NameSet(names) - {names[0]}
  {
    FirstIsLeast(names);
  }

  lemma NoRecords(t: Tree, prefix: Path)
    requires t.Dir?
    ensures Stream(Records(t, {}, prefix)) == ""
  {
  }

  lemma DirRecordBytes(path: string)
    ensures RecordBytes(Record(path, DirMark)) == ['d'] + Sized(path) + [Flag(false)] + Sized("")
  {
  }

  lemma FileRecordBytes(path: string, executable: bool, bytes: string)
    ensures RecordBytes(Record(path, FileMark(executable, bytes))) == ['f'] + Sized(path) + [Flag(executable)] + Sized(bytes)
  {
  }
}
