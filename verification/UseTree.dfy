/**
 * The `use` trees of scripts/crate_cut.py: how `use_paths` reads one into its paths, how
 * `render_use` groups paths and writes one tree per prefix, which paths `prune_uses` keeps.
 */
module UseTree {

  datatype Option<+T> = None | Some(value: T)

  /** One imported path: its segments, and the name it is imported under. */
  datatype Use = Use(segs: seq<string>, alias: Option<string>)

  // ----- characters -----

  predicate IsSpace(c: char) {
    || c == ' ' || 9 as char <= c <= 13 as char || 28 as char <= c <= 31 as char || c == 0x85 as char || c == 0xA0 as char
    || c == 0x1680 as char || 0x2000 as char <= c <= 0x200A as char || c == 0x2028 as char || c == 0x2029 as char
    || c == 0x202F as char || c == 0x205F as char || c == 0x3000 as char
  }

  predicate IsStart(c: char) {
    'a' <= c <= 'z' || 'A' <= c <= 'Z' || c == '_'
  }

  predicate IsPart(c: char) {
    IsStart(c) || '0' <= c <= '9'
  }

  predicate IsIdent(s: string) {
    s != "" && IsStart(s[0]) && forall i :: 0 <= i < |s| ==> IsPart(s[i])
  }

  predicate IsSeg(s: string) {
    s == "*" || IsIdent(s)
  }

  // ----- the parser -----

  function Ws(s: string): (r: string)
    ensures |r| <= |s|
  {
    if s != "" && IsSpace(s[0]) then Ws(s[1..]) else s
  }

  function PartRun(s: string): (n: nat)
    ensures n <= |s|
  {
    if s != "" && IsPart(s[0]) then 1 + PartRun(s[1..]) else 0
  }

  function TakeIdent(s: string): (r: Option<(string, string)>)
    ensures r.Some? ==> |r.value.1| < |s|
  {
    if s == "" || !IsStart(s[0]) then None else Some((s[..PartRun(s)], s[PartRun(s)..]))
  }

  function TakeSeg(s: string): (r: Option<(string, string)>)
    ensures r.Some? ==> |r.value.1| < |s|
  {
    if s != "" && s[0] == '*' then Some(("*", s[1..])) else TakeIdent(s)
  }

  /** What follows the last segment: an alias, or nothing. */
  function ParseAlias(s: string): (r: Option<(Option<string>, string)>)
    ensures r.Some? ==> |r.value.1| <= |s|
  {
    if "as" <= s && |s| > 2 && IsSpace(s[2]) then
      var name := TakeIdent(Ws(s[2..]));
      if name.None? then None else Some((Some(name.value.0), name.value.1))
    else Some((None, s))
  }

  /** `parse(prefix)` once `segs` have been read. */
  function ParseSegs(s: string, path: seq<string>): (r: Option<(seq<Use>, string)>)
    ensures r.Some? ==> |r.value.1| < |s|
    decreases |s|, 0
  {
    var t := Ws(s);
    if t == "" then None
    else if t[0] == '{' then
      var list := ParseList(t[1..], path);
      if list.None? then None
      else
        var end := Ws(list.value.1);
        if end == "" || end[0] != '}' then None else Some((list.value.0, end[1..]))
    else
      var seg := TakeSeg(t);
      if seg.None? then None
      else
        var after := Ws(seg.value.1);
        if "::" <= after then ParseSegs(after[2..], path + [seg.value.0])
        else
          var alias := ParseAlias(after);
          if alias.None? then None else Some(([Use(path + [seg.value.0], alias.value.0)], alias.value.1))
  }

  /** The members of a brace group, up to its closing brace. */
  function ParseList(s: string, path: seq<string>): (r: Option<(seq<Use>, string)>)
    ensures r.Some? ==> |r.value.1| < |s|
    decreases |s|, 1
  {
    var item := ParseSegs(s, path);
    if item.None? then None
    else
      var after := Ws(item.value.1);
      if after == "" then None
      else if after[0] != ',' then Some((item.value.0, after))
      else
        var next := Ws(after[1..]);
        if next == "" then None
        else if next[0] == '}' then Some((item.value.0, next))
        else
          var rest := ParseList(next, path);
          if rest.None? then None else Some((item.value.0 + rest.value.0, rest.value.1))
  }

  /** `use_paths` of one tree. */
  function UsePaths(tree: string): Option<seq<Use>> {
    var r := ParseSegs(tree, []);
    if r.None? then None else Some(r.value.0)
  }

  // ----- the parser as it runs -----

  /** What a parsing method has done, against the function that specifies it. */
  ghost predicate Agrees(spec: Option<(seq<Use>, string)>, out: Option<seq<Use>>, rest: string) {
    if spec.None? then out.None? else out == Some(spec.value.0) && rest == spec.value.1
  }

  /** The rest of a list after `done` has been read from it. */
  ghost function After(done: seq<Use>, spec: Option<(seq<Use>, string)>): Option<(seq<Use>, string)> {
    if spec.None? then None else Some((done + spec.value.0, spec.value.1))
  }

  /** Reading one more item of a list. */
  lemma AfterMore(done: seq<Use>, item: seq<Use>, spec: Option<(seq<Use>, string)>)
    ensures After(done + item, spec) == After(done, After(item, spec))
    ensures After([], spec) == spec
  {
    if spec.Some? {
      assert done + (item + spec.value.0) == (done + item) + spec.value.0 && [] + spec.value.0 == spec.value.0;
    }
  }

  /** The closing brace of a group. */
  ghost function CloseGroup(list: Option<(seq<Use>, string)>): Option<(seq<Use>, string)> {
    if list.None? then None
    else
      var end := Ws(list.value.1);
      if end == "" || end[0] != '}' then None else Some((list.value.0, end[1..]))
  }

  /** `use_paths` on one tree; failing stands for the exceptions it catches. */
  class Parser {
    const tree: string
    var pos: nat

    constructor (tree: string)
      ensures this.tree == tree && pos == 0
    {
      this.tree := tree;
      pos := 0;
    }

    ghost function Rest(): string
      reads this
      requires pos <= |tree|
    {
      tree[pos..]
    }

    method SkipSpace()
      requires pos <= |tree|
      modifies this`pos
      ensures old(pos) <= pos <= |tree| && Rest() == Ws(old(Rest()))
      ensures pos < |tree| ==> Rest() != "" && Rest()[0] == tree[pos]
    {
      while pos < |tree| && IsSpace(tree[pos])
        invariant old(pos) <= pos <= |tree| && Ws(Rest()) == Ws(old(Rest()))
      {
        assert Rest()[1..] == tree[pos + 1..];
        pos := pos + 1;
      }
    }

    method ReadIdent() returns (r: Option<string>)
      requires pos <= |tree|
      modifies this`pos
      ensures old(pos) <= pos <= |tree|
      ensures r.None? <==> TakeIdent(old(Rest())).None?
      ensures r.Some? ==> old(pos) < pos && TakeIdent(old(Rest())) == Some((r.value, Rest()))
    {
      if pos == |tree| || !IsStart(tree[pos]) {
        return None;
      }
      var end := pos;
      while end < |tree| && IsPart(tree[end])
        invariant pos <= end <= |tree| && PartRun(tree[pos..]) == end - pos + PartRun(tree[end..])
      {
        assert tree[end..][1..] == tree[end + 1..];
        end := end + 1;
      }
      r := Some(tree[pos..end]);
      assert tree[pos..][..end - pos] == tree[pos..end] && tree[pos..][end - pos..] == tree[end..];
      pos := end;
    }

    method ReadSeg() returns (r: Option<string>)
      requires pos <= |tree|
      modifies this`pos
      ensures old(pos) <= pos <= |tree|
      ensures r.None? <==> TakeSeg(old(Rest())).None?
      ensures r.Some? ==> old(pos) < pos && TakeSeg(old(Rest())) == Some((r.value, Rest()))
    {
      hide TakeIdent;
      if pos < |tree| && tree[pos] == '*' {
        assert Rest()[1..] == tree[pos + 1..];
        pos := pos + 1;
        return Some("*");
      }
      r := ReadIdent();
    }

    method ReadAlias() returns (ok: bool, alias: Option<string>)
      requires pos <= |tree|
      modifies this`pos
      ensures old(pos) <= pos <= |tree|
      ensures ok <==> ParseAlias(old(Rest())).Some?
      ensures ok ==> ParseAlias(old(Rest())) == Some((alias, Rest()))
    {
      hide TakeIdent, IsSpace;
      if pos + 2 < |tree| && tree[pos..pos + 2] == "as" && IsSpace(tree[pos + 2]) {
        assert Rest()[..2] == tree[pos..pos + 2] && Rest()[2] == tree[pos + 2] && Rest()[2..] == tree[pos + 2..];
        pos := pos + 2;
        SkipSpace();
        alias := ReadIdent();
        ok := alias.Some?;
      } else {
        assert "as" <= Rest() && |Rest()| > 2 ==> tree[pos..pos + 2] == Rest()[..2] && Rest()[2] == tree[pos + 2];
        ok, alias := true, None;
      }
    }

    method Parse(prefix: seq<string>) returns (out: Option<seq<Use>>)
      requires pos <= |tree|
      modifies this`pos
      ensures old(pos) <= pos <= |tree| && Agrees(ParseSegs(old(Rest()), prefix), out, Rest())
      decreases |tree| - pos, 1
    {
      hide TakeSeg, ParseAlias, Ws, ParseList;
      var segs := [];
      assert prefix + segs == prefix;
      while true
        invariant old(pos) <= pos <= |tree|
        invariant ParseSegs(Rest(), prefix + segs) == ParseSegs(old(Rest()), prefix)
        decreases |tree| - pos
      {
        SkipSpace();
        if pos == |tree| {
          return None;
        }
        if tree[pos] == '{' {
          assert Rest()[1..] == tree[pos + 1..];
          pos := pos + 1;
          out := ParseGroup(prefix + segs);
          return;
        }
        var seg := ReadSeg();
        if seg.None? {
          return None;
        }
        assert prefix + segs + [seg.value] == prefix + (segs + [seg.value]);
        segs := segs + [seg.value];
        SkipSpace();
        if pos + 2 <= |tree| && tree[pos..pos + 2] == "::" {
          assert Rest()[..2] == tree[pos..pos + 2] && Rest()[2..] == tree[pos + 2..];
          pos := pos + 2;
        } else {
          assert !("::" <= Rest());
          var ok, alias := ReadAlias();
          return if ok then Some([Use(prefix + segs, alias)]) else None;
        }
      }
    }

    /** A brace group after its opening brace, with its closing brace. */
    method ParseGroup(path: seq<string>) returns (out: Option<seq<Use>>)
      requires pos <= |tree|
      modifies this`pos
      ensures old(pos) <= pos <= |tree| && Agrees(CloseGroup(ParseList(old(Rest()), path)), out, Rest())
      decreases |tree| - pos, 2
    {
      hide ParseSegs, Ws;
      var done: seq<Use> := [];
      AfterMore([], [], ParseList(Rest(), path));
      while true
        invariant old(pos) <= pos <= |tree|
        invariant ParseList(old(Rest()), path) == After(done, ParseList(Rest(), path))
        decreases |tree| - pos
      {
        ghost var before := done;
        var item := Parse(path);
        if item.None? {
          return None;
        }
        done := done + item.value;
        SkipSpace();
        if pos == |tree| {
          return None;
        }
        if tree[pos] == ',' {
          assert Rest()[1..] == tree[pos + 1..];
          pos := pos + 1;
          SkipSpace();
          if pos == |tree| {
            return None;
          }
          if tree[pos] == '}' {
            break;
          }
          AfterMore(before, item.value, ParseList(Rest(), path));
        } else {
          break;
        }
      }
      SkipSpace();
      if pos == |tree| || tree[pos] != '}' {
        return None;
      }
      assert Rest()[1..] == tree[pos + 1..];
      pos := pos + 1;
      out := Some(done);
    }
  }

  /** `use_paths` of one tree, as it runs. */
  method ReadUsePaths(tree: string) returns (paths: Option<seq<Use>>)
    ensures paths == UsePaths(tree)
  {
    hide ParseSegs;
    var parser := new Parser(tree);
    assert tree[0..] == tree;
    paths := parser.Parse([]);
  }

  // ----- the printer -----

  function Key(u: Use): seq<string>
    requires u.segs != []
  {
    u.segs[..|u.segs| - 1]
  }

  function LeafText(u: Use): string
    requires u.segs != []
  {
    u.segs[|u.segs| - 1] + if u.alias.Some? then " as " + u.alias.value else ""
  }

  /** Every segment of the prefix with its separator. */
  function KeyText(key: seq<string>): string {
    if key == [] then "" else key[0] + "::" + KeyText(key[1..])
  }

  function ListText(us: seq<Use>): string
    requires forall i :: 0 <= i < |us| ==> us[i].segs != []
  {
    if us == [] then "" else if |us| == 1 then LeafText(us[0]) else LeafText(us[0]) + ", " + ListText(us[1..])
  }

  /** One written tree: the paths of one prefix. */
  function GroupText(key: seq<string>, us: seq<Use>): string
    requires forall i :: 0 <= i < |us| ==> us[i].segs != []
  {
    KeyText(key) + if |us| == 1 then LeafText(us[0]) else "{" + ListText(us) + "}"
  }

  ghost predicate GoodUse(u: Use) {
    && u.segs != [] && (forall i :: 0 <= i < |u.segs| ==> IsSeg(u.segs[i]))
    && (u.alias.Some? ==> IsIdent(u.alias.value))
  }

  ghost predicate GoodUses(us: seq<Use>) {
    forall i :: 0 <= i < |us| ==> GoodUse(us[i])
  }

  // ----- reading back one tree -----

  lemma {:induction false} PartRunOf(name: string, tail: string)
    requires (forall i :: 0 <= i < |name| ==> IsPart(name[i])) && (tail == "" || !IsPart(tail[0]))
    ensures PartRun(name + tail) == |name|
  {
    if name == "" {
      assert name + tail == tail;
    } else {
      assert (name + tail)[1..] == name[1..] + tail;
      PartRunOf(name[1..], tail);
    }
  }

  lemma TakeIdentOf(name: string, tail: string)
    requires IsIdent(name) && (tail == "" || !IsPart(tail[0]))
    ensures TakeIdent(name + tail) == Some((name, tail))
  {
    PartRunOf(name, tail);
    assert (name + tail)[..|name|] == name && (name + tail)[|name|..] == tail;
  }

  lemma TakeSegOf(seg: string, tail: string)
    requires IsSeg(seg) && (tail == "" || !IsPart(tail[0]))
    ensures TakeSeg(seg + tail) == Some((seg, tail)) && Ws(seg + tail) == seg + tail
    ensures (seg + tail)[0] != '{'
  {
    if seg == "*" {
      assert (seg + tail)[1..] == tail;
    } else {
      TakeIdentOf(seg, tail);
    }
  }

  /** What may stand after a leaf: the end, a comma or a closing brace. */
  ghost predicate EndsLeaf(tail: string) {
    tail == "" || tail[0] == ',' || tail[0] == '}'
  }

  lemma ParseLeaf(u: Use, path: seq<string>, tail: string)
    requires GoodUse(u) && path == Key(u) && EndsLeaf(tail)
    ensures ParseSegs(LeafText(u) + tail, path) == Some(([u], tail))
  {
    hide IsSeg, IsIdent, TakeSeg, TakeIdent;
    var seg := u.segs[|u.segs| - 1];
    var aliasText := if u.alias.Some? then " as " + u.alias.value else "";
    var s := LeafText(u) + tail;
    assert s == seg + (aliasText + tail);
    assert u.segs == path + [seg];
    if u.alias.Some? {
      var after := "as " + u.alias.value + tail;
      assert aliasText + tail == " " + after && (" " + after)[1..] == after;
      TakeSegOf(seg, " " + after);
      assert Ws(" " + after) == Ws(after) == after;
      ParseAliasOf(u.alias.value, tail);
    } else {
      assert aliasText + tail == tail;
      TakeSegOf(seg, tail);
      assert Ws(tail) == tail;
    }
  }

  lemma ParseAliasOf(name: string, tail: string)
    requires IsIdent(name) && EndsLeaf(tail)
    ensures ParseAlias("as " + name + tail) == Some((Some(name), tail))
  {
    var s := "as " + name + tail;
    assert s[2..] == " " + (name + tail);
    assert (" " + (name + tail))[1..] == name + tail;
    assert Ws(" " + (name + tail)) == Ws(name + tail) == name + tail;
    TakeIdentOf(name, tail);
  }

  /** Prefix segments are read one by one and kept. */
  lemma {:induction false} ParseKey(key: seq<string>, path: seq<string>, body: string)
    requires forall i :: 0 <= i < |key| ==> IsSeg(key[i])
    ensures ParseSegs(KeyText(key) + body, path) == ParseSegs(body, path + key)
  {
    hide IsSeg, TakeSeg;
    if key == [] {
      assert KeyText(key) + body == body && path + key == path;
    } else {
      var rest := KeyText(key[1..]) + body;
      var s := KeyText(key) + body;
      assert s == key[0] + ("::" + rest);
      TakeSegOf(key[0], "::" + rest);
      assert Ws("::" + rest) == "::" + rest && ("::" + rest)[2..] == rest;
      ParseKey(key[1..], path + [key[0]], body);
      assert path + [key[0]] + key[1..] == path + key;
    }
  }

  lemma {:induction false} ParseListOf(us: seq<Use>, path: seq<string>, tail: string)
    requires us != [] && GoodUses(us) && forall i :: 0 <= i < |us| ==> Key(us[i]) == path
    ensures ParseList(ListText(us) + "}" + tail, path) == Some((us, "}" + tail))
  {
    hide ParseSegs, IsSeg, IsIdent, LeafText;
    assert forall i :: 0 <= i < |us| ==> GoodUse(us[i]);
    var close := "}" + tail;
    assert ListText(us) + "}" + tail == ListText(us) + close;
    if |us| == 1 {
      ParseLeaf(us[0], path, close);
      assert Ws(close) == close && us == [us[0]];
    } else {
      var rest := ListText(us[1..]) + close;
      var comma := ", " + rest;
      assert ListText(us) + close == LeafText(us[0]) + comma;
      ParseLeaf(us[0], path, comma);
      assert Ws(comma) == comma && comma[1..] == " " + rest && (" " + rest)[1..] == rest;
      ListStartsWithSeg(us[1..], close);
      assert Ws(" " + rest) == Ws(rest) == rest;
      ParseListOf(us[1..], path, tail);
      assert rest == ListText(us[1..]) + "}" + tail;
      assert [us[0]] + us[1..] == us;
    }
  }

  lemma ListStartsWithSeg(us: seq<Use>, close: string)
    requires us != [] && GoodUses(us)
    ensures ListText(us) + close != "" && (ListText(us) + close)[0] != '}' && Ws(ListText(us) + close) == ListText(us) + close
  {
    assert GoodUse(us[0]);
    var seg := us[0].segs[|us[0].segs| - 1];
    assert IsSeg(seg) && seg != "";
    assert LeafText(us[0])[0] == seg[0] && ListText(us)[0] == seg[0];
  }

  /** A written tree starts at once. */
  lemma GroupStarts(key: seq<string>, us: seq<Use>)
    requires us != [] && GoodUses(us) && forall i :: 0 <= i < |us| ==> Key(us[i]) == key
    ensures GroupText(key, us) != "" && !IsSpace(GroupText(key, us)[0])
  {
    assert GoodUse(us[0]);
    var segs := us[0].segs;
    assert IsSeg(segs[0]) && IsSeg(segs[|segs| - 1]);
    if key != [] {
      assert key[0] == segs[0] && KeyText(key)[0] == key[0][0];
    } else if |us| == 1 {
      assert LeafText(us[0])[0] == segs[|segs| - 1][0];
    }
  }

  /** A written tree is read back as exactly the paths it was written from. */
  lemma GroupReadsBack(key: seq<string>, us: seq<Use>)
    requires us != [] && GoodUses(us) && forall i :: 0 <= i < |us| ==> Key(us[i]) == key
    ensures UsePaths(GroupText(key, us)) == Some(us)
  {
    hide ParseSegs, ParseList, LeafText, ListText;
    assert GoodUse(us[0]) && Key(us[0]) == key;
    assert [] + key == key;
    if |us| == 1 {
      ParseKey(key, [], LeafText(us[0]));
      ParseLeaf(us[0], key, "");
      assert LeafText(us[0]) + "" == LeafText(us[0]) && us == [us[0]];
    } else {
      var body := "{" + ListText(us) + "}";
      ParseKey(key, [], body);
      ParseBraces(key, us);
    }
  }

  lemma ParseBraces(key: seq<string>, us: seq<Use>)
    requires us != [] && GoodUses(us) && forall i :: 0 <= i < |us| ==> Key(us[i]) == key
    ensures ParseSegs("{" + ListText(us) + "}", key) == Some((us, ""))
  {
    hide ParseList, ListText;
    var body := "{" + ListText(us) + "}";
    assert body[0] == '{' && body[1..] == ListText(us) + "}" + "";
    ParseListOf(us, key, "");
    assert "}" + "" == "}" && Ws("}") == "}" && "}"[1..] == "";
  }

  // ----- what the parser gives is well formed -----

  lemma {:induction false} PartRunIsParts(s: string)
    ensures forall i :: 0 <= i < PartRun(s) ==> IsPart(s[i])
    ensures s != "" && IsStart(s[0]) ==> PartRun(s) > 0
  {
    if s != "" && IsPart(s[0]) {
      PartRunIsParts(s[1..]);
      forall i | 0 <= i < PartRun(s) ensures IsPart(s[i]) {
        assert i > 0 ==> s[i] == s[1..][i - 1];
      }
    }
  }

  lemma TakeIdentIsIdent(s: string)
    requires TakeIdent(s).Some?
    ensures IsIdent(TakeIdent(s).value.0)
  {
    PartRunIsParts(s);
  }

  ghost predicate GoodPath(path: seq<string>) {
    forall i :: 0 <= i < |path| ==> IsSeg(path[i])
  }

  lemma {:induction false} ParsedSegsAreGood(s: string, path: seq<string>)
    requires GoodPath(path) && ParseSegs(s, path).Some?
    ensures GoodUses(ParseSegs(s, path).value.0)
    decreases |s|, 0
  {
    hide IsSeg, IsIdent, TakeIdent;
    var t := Ws(s);
    if t[0] == '{' {
      ParsedListIsGood(t[1..], path);
    } else {
      SegIsGood(t);
      var seg := TakeSeg(t).value;
      var after := Ws(seg.1);
      if "::" <= after {
        ParsedSegsAreGood(after[2..], path + [seg.0]);
      } else if "as" <= after && |after| > 2 && IsSpace(after[2]) {
        TakeIdentIsIdent(Ws(after[2..]));
      }
    }
  }

  lemma SegIsGood(t: string)
    requires TakeSeg(t).Some?
    ensures IsSeg(TakeSeg(t).value.0)
  {
    if t[0] != '*' {
      TakeIdentIsIdent(t);
    }
  }

  lemma {:induction false} ParsedListIsGood(s: string, path: seq<string>)
    requires GoodPath(path) && ParseList(s, path).Some?
    ensures GoodUses(ParseList(s, path).value.0)
    decreases |s|, 1
  {
    hide IsSeg, GoodUse, ParseSegs;
    ParsedSegsAreGood(s, path);
    var after := Ws(ParseSegs(s, path).value.1);
    if after[0] == ',' {
      var next := Ws(after[1..]);
      if next[0] != '}' {
        ParsedListIsGood(next, path);
      }
    }
  }

  // ----- grouping -----

  /** The prefixes in the order in which they first occur. */
  ghost function FirstSeen(us: seq<Use>): seq<seq<string>>
    requires GoodUses(us)
  {
    if us == [] then []
    else
      var seen, key := FirstSeen(us[..|us| - 1]), Key(us[|us| - 1]);
      if key in seen then seen else seen + [key]
  }

  function WithKey(us: seq<Use>, key: seq<string>): seq<Use>
    requires forall i :: 0 <= i < |us| ==> us[i].segs != []
  {
    if us == [] then []
    else
      var rest, last := WithKey(us[..|us| - 1], key), us[|us| - 1];
      if Key(last) == key then rest + [last] else rest
  }

  /** The paths of the given prefixes, one prefix after the other. */
  ghost function Gathered(us: seq<Use>, keys: seq<seq<string>>): seq<Use>
    requires GoodUses(us)
  {
    if keys == [] then [] else Gathered(us, keys[..|keys| - 1]) + WithKey(us, keys[|keys| - 1])
  }

  ghost predicate DistinctKeys(keys: seq<seq<string>>) {
    forall i, j :: 0 <= i < j < |keys| ==> keys[i] != keys[j]
  }

  lemma {:induction false} FirstSeenIsDistinct(us: seq<Use>)
    requires GoodUses(us)
    ensures DistinctKeys(FirstSeen(us))
  {
    if us != [] {
      FirstSeenIsDistinct(us[..|us| - 1]);
    }
  }

  lemma {:induction false} WithKeyMembers(us: seq<Use>, key: seq<string>)
    requires GoodUses(us)
    ensures GoodUses(WithKey(us, key)) && forall i :: 0 <= i < |WithKey(us, key)| ==> Key(WithKey(us, key)[i]) == key
    ensures WithKey(us, key) != [] <==> key in FirstSeen(us)
  {
    hide GoodUse;
    if us != [] {
      var k := |us| - 1;
      assert forall i :: 0 <= i < |us| ==> us[i].segs != [] by { forall i | 0 <= i < |us| ensures us[i].segs != [] { NonEmpty(us, i); } }
      WithKeyMembers(us[..k], key);
    }
  }

  lemma NonEmpty(us: seq<Use>, i: nat)
    requires GoodUses(us) && i < |us|
    ensures us[i].segs != []
  {
  }

  lemma WithKeyOneMore(us: seq<Use>, u: Use, key: seq<string>, x: Use)
    requires GoodUses(us) && GoodUses(us + [u]) && GoodUse(u)
    ensures multiset(WithKey(us + [u], key))[x] == multiset(WithKey(us, key))[x] + if x == u && Key(u) == key then 1 else 0
  {
    hide IsSeg, IsIdent;
    assert (us + [u])[..|us|] == us;
  }

  lemma {:induction false} GatherOneMore(us: seq<Use>, u: Use, keys: seq<seq<string>>, x: Use)
    requires GoodUses(us) && GoodUses(us + [u]) && GoodUse(u) && DistinctKeys(keys)
    ensures multiset(Gathered(us + [u], keys))[x] == multiset(Gathered(us, keys))[x] + if x == u && Key(u) in keys then 1 else 0
  {
    hide IsSeg, IsIdent, WithKey, Key;
    if keys != [] {
      var k := |keys| - 1;
      GatherOneMore(us, u, keys[..k], x);
      WithKeyOneMore(us, u, keys[k], x);
      assert Key(u) in keys <==> Key(u) in keys[..k] || Key(u) == keys[k];
      assert Key(u) == keys[k] ==> Key(u) !in keys[..k];
    }
  }

  /** The first occurrence of a prefix brings no earlier paths with it. */
  lemma NewKeyGathersNothing(us: seq<Use>, u: Use)
    requires GoodUses(us) && GoodUses(us + [u]) && GoodUse(u)
    ensures Gathered(us, FirstSeen(us + [u])) == Gathered(us, FirstSeen(us)) && Key(u) in FirstSeen(us + [u])
  {
    hide IsSeg, IsIdent;
    var keys, seen := FirstSeen(us + [u]), FirstSeen(us);
    assert (us + [u])[..|us|] == us;
    if Key(u) !in seen {
      WithKeyMembers(us, Key(u));
      assert keys[..|keys| - 1] == seen;
      assert keys[|keys| - 1] == Key(u);
    }
  }

  /** Grouping loses and adds nothing. */
  lemma {:induction false} GatheringKeepsCounts(us: seq<Use>, x: Use)
    requires GoodUses(us)
    ensures multiset(Gathered(us, FirstSeen(us)))[x] == multiset(us)[x]
  {
    hide IsSeg, IsIdent, Key, WithKey;
    if us != [] {
      var k := |us| - 1;
      var before, u := us[..k], us[k];
      assert us == before + [u];
      assert GoodUse(u) && GoodUses(before);
      GatheringKeepsCounts(before, x);
      FirstSeenIsDistinct(us);
      hide FirstSeen, Gathered;
      GatherOneMore(before, u, FirstSeen(us), x);
      NewKeyGathersNothing(before, u);
    }
  }

  // ----- render_use -----

  type Group = (seq<string>, seq<Use>)

  ghost predicate GroupsOf(us: seq<Use>, groups: seq<Group>) {
    GoodUses(us) && |groups| == |FirstSeen(us)|
    && forall i :: 0 <= i < |groups| ==> groups[i] == (FirstSeen(us)[i], WithKey(us, FirstSeen(us)[i]))
  }

  lemma GroupsStep(us: seq<Use>, u: Use, groups: seq<Group>, at: nat)
    requires GroupsOf(us, groups) && GoodUse(u) && at <= |groups| && (at < |groups| ==> groups[at].0 == Key(u))
    requires forall i :: 0 <= i < at ==> groups[i].0 != Key(u)
    ensures GroupsOf(us + [u], if at < |groups| then groups[at := (Key(u), groups[at].1 + [u])] else groups + [(Key(u), [u])])
  {
    hide IsSeg, IsIdent;
    var all := us + [u];
    assert all[..|us|] == us;
    assert GoodUses(all);
    FirstSeenIsDistinct(us);
    WithKeyMembers(us, Key(u));
    var seen := FirstSeen(us);
    if at < |groups| {
      assert seen[at] == Key(u);
    } else {
      assert forall i :: 0 <= i < |seen| ==> groups[i].0 == seen[i];
      assert Key(u) !in seen;
      assert FirstSeen(all) == seen + [Key(u)];
      assert WithKey(all, Key(u)) == [u];
    }
  }

  lemma NoGroups()
    ensures GroupsOf([], [])
  {
  }

  /** The ordered dictionary of `render_use`. */
  method GroupPaths(us: seq<Use>) returns (groups: seq<Group>)
    requires GoodUses(us)
    ensures GroupsOf(us, groups)
  {
    hide GoodUse, GroupsOf;
    groups := [];
    assert us[..0] == [];
    NoGroups();
    for n := 0 to |us|
      invariant GroupsOf(us[..n], groups)
    {
      var u := us[n];
      NonEmpty(us, n);
      var at := 0;
      while at < |groups| && groups[at].0 != Key(u)
        invariant at <= |groups| && forall i :: 0 <= i < at ==> groups[i].0 != Key(u)
      {
        at := at + 1;
      }
      GroupsStep(us[..n], u, groups, at);
      assert us[..n + 1] == us[..n] + [u];
      groups := if at < |groups| then groups[at := (Key(u), groups[at].1 + [u])] else groups + [(Key(u), [u])];
    }
    assert us[..|us|] == us;
  }

  lemma GroupCount(us: seq<Use>, groups: seq<Group>)
    requires GroupsOf(us, groups)
    ensures |groups| == |FirstSeen(us)|
  {
  }

  lemma GroupAt(us: seq<Use>, groups: seq<Group>, n: nat)
    requires GroupsOf(us, groups) && n < |groups|
    ensures groups[n] == (FirstSeen(us)[n], WithKey(us, FirstSeen(us)[n])) && groups[n].1 != [] && GoodUses(groups[n].1)
    ensures forall i :: 0 <= i < |groups[n].1| ==> groups[n].1[i].segs != [] && Key(groups[n].1[i]) == groups[n].0
  {
    WithKeyMembers(us, FirstSeen(us)[n]);
    assert FirstSeen(us)[n] in FirstSeen(us);
    forall i | 0 <= i < |groups[n].1| ensures groups[n].1[i].segs != [] {
      NonEmpty(groups[n].1, i);
    }
  }

  // ----- prune_uses -----

  /** The path names a moved item of this workspace. */
  predicate IsMoved(u: Use, moved: set<(Option<string>, string)>, external: set<string>) {
    var n := |u.segs|;
    n > 0 && (if n >= 2 then Some(u.segs[n - 2]) else None, u.segs[n - 1]) in moved && u.segs[0] !in external
  }

  /** A path is moved if its last two segments, or its only one, name a moved item and its first segment is no external crate. */
  lemma IsMovedMeans(front: seq<string>, mod: string, name: string, alias: Option<string>, moved: set<(Option<string>, string)>, external: set<string>)
    ensures IsMoved(Use([name], alias), moved, external) <==> (None, name) in moved && name !in external
    ensures IsMoved(Use(front + [mod, name], alias), moved, external) <==>
      (Some(mod), name) in moved && (if front == [] then mod else front[0]) !in external
    ensures !IsMoved(Use([], alias), moved, external)
  {
    var segs := front + [mod, name];
    assert segs[|segs| - 2] == mod && segs[|segs| - 1] == name && segs[0] == if front == [] then mod else front[0];
  }

  /** The paths that are not moved, in their order. */
  ghost function Kept(us: seq<Use>, moved: set<(Option<string>, string)>, external: set<string>): seq<Use> {
    if us == [] then []
    else
      var rest, last := Kept(us[..|us| - 1], moved, external), us[|us| - 1];
      if IsMoved(last, moved, external) then rest else rest + [last]
  }

  ghost predicate NoneMoved(us: seq<Use>, moved: set<(Option<string>, string)>, external: set<string>) {
    forall i :: 0 <= i < |us| ==> !IsMoved(us[i], moved, external)
  }

  lemma {:induction false} KeptShape(us: seq<Use>, moved: set<(Option<string>, string)>, external: set<string>)
    requires GoodUses(us)
    ensures GoodUses(Kept(us, moved, external)) && |Kept(us, moved, external)| <= |us|
    ensures |Kept(us, moved, external)| == |us| <==> NoneMoved(us, moved, external)
  {
    hide IsSeg, IsIdent, IsMoved;
    if us != [] {
      var k := |us| - 1;
      KeptShape(us[..k], moved, external);
      assert us == us[..k] + [us[k]];
      assert GoodUse(us[k]);
    }
  }

  /** A path is kept as often as it was there, or not at all. */
  lemma {:induction false} KeptMembers(us: seq<Use>, moved: set<(Option<string>, string)>, external: set<string>, u: Use)
    ensures multiset(Kept(us, moved, external))[u] == Remaining(us, u, moved, external)
  {
    hide IsMoved;
    if us != [] {
      var k := |us| - 1;
      KeptMembers(us[..k], moved, external, u);
      assert us == us[..k] + [us[k]];
    }
  }

  /** Moved paths are gone; every other path is there as often as before. */
  ghost predicate OnlyMovedGo(before: seq<Use>, after: seq<Use>, moved: set<(Option<string>, string)>, external: set<string>) {
    forall u: Use :: multiset(after)[u] == Remaining(before, u, moved, external)
  }

  ghost function Remaining(before: seq<Use>, u: Use, moved: set<(Option<string>, string)>, external: set<string>): nat {
    if IsMoved(u, moved, external) then 0 else multiset(before)[u]
  }
}
