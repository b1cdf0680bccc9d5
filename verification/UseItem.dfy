/**
 * Whole `use` items of scripts/crate_cut.py: `use_paths` reads comments, attributes, visibility
 * and tree of one item, `render_use` writes items, `prune_uses` replaces one.
 */
module UseItem {
  import opened UseTree

  // ----- runs of characters -----

  /** Number of leading blanks. */
  function SpaceRun(s: string): (n: nat)
    ensures n <= |s| && (forall i :: 0 <= i < n ==> IsSpace(s[i])) && (n < |s| ==> !IsSpace(s[n]))
  {
    if s != "" && IsSpace(s[0]) then 1 + SpaceRun(s[1..]) else 0
  }

  /** Where `c` stands first, or the length. */
  function IndexOf(s: string, c: char): (n: nat)
    ensures n <= |s| && (forall i :: 0 <= i < n ==> s[i] != c) && (n < |s| ==> s[n] == c)
  {
    if s == "" || s[0] == c then 0 else 1 + IndexOf(s[1..], c)
  }

  /** Length of `s` without its trailing blanks. */
  function TrimEnd(s: string): (n: nat)
    ensures n <= |s| && (n > 0 ==> !IsSpace(s[n - 1]))
  {
    if s == "" || !IsSpace(s[|s| - 1]) then |s| else TrimEnd(s[..|s| - 1])
  }

  function Strip(s: string): string {
    var t := s[SpaceRun(s)..];
    t[..TrimEnd(t)]
  }

  lemma SpaceRunIs(s: string, n: nat)
    requires n <= |s| && (forall i :: 0 <= i < n ==> IsSpace(s[i])) && (n < |s| ==> !IsSpace(s[n]))
    ensures SpaceRun(s) == n
  {
    hide IsSpace;
    var m := SpaceRun(s);
  }

  lemma IndexOfIs(s: string, c: char, n: nat)
    requires n <= |s| && (forall i :: 0 <= i < n ==> s[i] != c) && (n < |s| ==> s[n] == c)
    ensures IndexOf(s, c) == n
  {
    var m := IndexOf(s, c);
  }

  /** Blanks end where a word follows. */
  lemma SpaceBefore(a: string, rest: string)
    requires rest != "" && !IsSpace(rest[0])
    ensures SpaceRun(a + rest) == SpaceRun(a)
  {
    hide IsSpace;
    var s, n := a + rest, SpaceRun(a);
    assert forall i :: 0 <= i < |a| ==> s[i] == a[i];
    assert s[|a|] == rest[0];
    SpaceRunIs(s, n);
  }

  /** Cutting behind the blanks keeps them. */
  lemma SpaceCut(s: string, k: nat)
    requires SpaceRun(s) <= k <= |s|
    ensures SpaceRun(s[..k]) == SpaceRun(s)
  {
    hide IsSpace;
    var t := s[..k];
    assert forall i :: 0 <= i < k ==> t[i] == s[i];
    SpaceRunIs(t, SpaceRun(s));
  }

  lemma IndexBefore(a: string, rest: string, c: char)
    requires IndexOf(a, c) < |a|
    ensures IndexOf(a + rest, c) == IndexOf(a, c)
  {
    var s := a + rest;
    assert forall i :: 0 <= i < |a| ==> s[i] == a[i];
    IndexOfIs(s, c, IndexOf(a, c));
  }

  lemma IndexCut(s: string, k: nat, c: char)
    requires IndexOf(s, c) < k <= |s|
    ensures IndexOf(s[..k], c) == IndexOf(s, c)
  {
    var t := s[..k];
    assert forall i :: 0 <= i < k ==> t[i] == s[i];
    IndexOfIs(t, c, IndexOf(s, c));
  }

  // ----- the pieces of an item -----

  /** Where the block comment that starts `s` ends, or the length. */
  function CloseComment(s: string, from: nat): (n: nat)
    requires from <= |s|
    ensures from <= n <= |s| && (n < |s| ==> n + 2 <= |s|)
    decreases |s| - from
  {
    if from + 2 > |s| then |s| else if s[from] == '*' && s[from + 1] == '/' then from else CloseComment(s, from + 1)
  }

  /** Length of the comment that starts `t`: a line comment with its line end or a closed block comment; else 0. */
  function FirstComment(t: string): (n: nat)
    ensures n <= |t|
  {
    if "//" <= t && IndexOf(t, '\n') < |t| then IndexOf(t, '\n') + 1
    else if "/*" <= t && CloseComment(t, 2) < |t| then CloseComment(t, 2) + 2
    else 0
  }

  /** What is left when `use_paths` has dropped the leading comments. */
  function DropComments(s: string): string
    decreases |s|
  {
    var t := s[SpaceRun(s)..];
    if FirstComment(t) == 0 then s else DropComments(t[FirstComment(t)..])
  }

  /** Length of the first attribute with the blanks behind it, or 0. */
  function Attr(s: string): (n: nat)
    ensures n <= |s|
  {
    if !("#[" <= s) then 0
    else
      var close := 2 + IndexOf(s[2..], ']');
      if close == |s| then 0 else close + 1 + SpaceRun(s[close + 1..])
  }

  /** Length of all attributes in front. */
  function Attrs(s: string): (n: nat)
    ensures n <= |s|
    decreases |s|
  {
    var n := Attr(s);
    if n == 0 then 0 else n + Attrs(s[n..])
  }

  /** Length of the visibility in front; `None` if what starts like one is none. */
  function Vis(s: string): (r: Option<nat>)
    ensures r.Some? ==> r.value <= |s|
  {
    if !("pub" <= s) then Some(0)
    else
      var close := if |s| > 3 && s[3] == '(' then 3 + IndexOf(s[3..], ')') + 1 else 3;
      if close > |s| || SpaceRun(s[close..]) == 0 then None else Some(close + SpaceRun(s[close..]))
  }

  /** The tree between `use` and the final semicolon. */
  function TreeOf(s: string): Option<string> {
    if !("use" <= s) || SpaceRun(s[3..]) == 0 then None
    else
      var rest := s[3 + SpaceRun(s[3..])..];
      if rest == "" || rest[|rest| - 1] != ';' then None else Some(rest[..|rest| - 1])
  }

  datatype Header = Header(attrs: string, vis: string, tree: string)

  function ReadHeader(text: string): Option<Header> {
    var s := Strip(DropComments(text));
    var a := Attrs(s);
    var v := Vis(s[a..]);
    if v.None? then None
    else
      var tree := TreeOf(s[a + v.value..]);
      if tree.None? then None else Some(Header(s[..a], s[a..a + v.value], tree.value))
  }

  datatype Parsed = Parsed(attrs: string, vis: string, paths: seq<Use>)

  /** `use_paths`. */
  function ItemPaths(text: string): Option<Parsed> {
    var header := ReadHeader(text);
    if header.None? then None
    else
      var paths := UsePaths(header.value.tree);
      if paths.None? then None else Some(Parsed(header.value.attrs, header.value.vis, paths.value))
  }

  method ReadItem(text: string) returns (parsed: Option<Parsed>)
    ensures parsed == ItemPaths(text)
  {
    hide UsePaths;
    var header := ReadHeader(text);
    if header.None? {
      return None;
    }
    var paths := ReadUsePaths(header.value.tree);
    return if paths.None? then None else Some(Parsed(header.value.attrs, header.value.vis, paths.value));
  }

  // ----- headers read back -----

  /** Attributes and nothing else. */
  ghost predicate GoodAttrs(a: string) {
    Attrs(a) == |a|
  }

  /** A visibility with the blanks behind it, or nothing. */
  ghost predicate GoodVis(v: string) {
    v == "" || ("pub" <= v && Vis(v) == Some(|v|))
  }

  /** What follows the attributes or the visibility. */
  ghost predicate StartsWord(rest: string) {
    rest != "" && !IsSpace(rest[0]) && rest[0] != '#'
  }

  lemma AttrBefore(a: string, n: nat, rest: string)
    requires n == Attr(a) > 0 && StartsWord(rest)
    ensures Attr(a + rest) == n
  {
    hide IsSpace, SpaceRun, IndexOf;
    var s := a + rest;
    var close := 2 + IndexOf(a[2..], ']');
    assert s[..2] == a[..2] && s[2..] == a[2..] + rest;
    IndexBefore(a[2..], rest, ']');
    SpaceBefore(a[close + 1..], rest);
    assert s[close + 1..] == a[close + 1..] + rest;
  }

  lemma {:induction false} AttrsBefore(a: string, rest: string)
    requires GoodAttrs(a) && StartsWord(rest)
    ensures Attrs(a + rest) == |a|
    decreases |a|
  {
    hide IsSpace, IndexOf, SpaceRun;
    var n := Attr(a);
    if n == 0 {
      assert a + rest == rest;
    } else {
      AttrBefore(a, n, rest);
      assert (a + rest)[n..] == a[n..] + rest;
      AttrsBefore(a[n..], rest);
    }
  }

  /** The first attribute is the same when the text is cut behind it or later. */
  lemma AttrCut(s: string, k: nat)
    requires 0 < Attr(s) <= k <= |s|
    ensures Attr(s[..k]) == Attr(s)
  {
    hide IsSpace, SpaceRun, IndexOf;
    var n, t := Attr(s), s[..k];
    var close := 2 + IndexOf(s[2..], ']');
    assert t[..2] == s[..2] && t[2..] == s[2..][..k - 2];
    IndexCut(s[2..], k - 2, ']');
    assert t[close + 1..] == s[close + 1..][..k - close - 1];
    SpaceCut(s[close + 1..], k - close - 1);
  }

  lemma NoAttrs(s: string)
    requires s == ""
    ensures Attrs(s) == 0
  {
  }

  lemma {:induction false} AttrsAreGood(s: string)
    ensures GoodAttrs(s[..Attrs(s)])
    decreases |s|
  {
    hide Attr;
    var n := Attr(s);
    if n == 0 {
      NoAttrs(s[..0]);
    } else {
      var k := Attrs(s);
      AttrCut(s, k);
      AttrsAreGood(s[n..]);
      assert s[..k][n..] == s[n..][..k - n];
    }
  }

  lemma VisBefore(v: string, rest: string)
    requires GoodVis(v) && "use" <= rest
    ensures Vis(v + rest) == Some(|v|)
  {
    hide IsSpace, SpaceRun, IndexOf;
    assert rest[0] == 'u' && !IsSpace('u') by { UseIsNoSpace(); }
    var s := v + rest;
    if v == "" {
      assert s == rest;
    } else {
      assert s[..3] == v[..3] && |v| > 3 && s[3] == v[3];
      var close := if v[3] == '(' then 3 + IndexOf(v[3..], ')') + 1 else 3;
      assert close < |v|;
      if v[3] == '(' {
        IndexBefore(v[3..], rest, ')');
        assert s[3..] == v[3..] + rest;
      }
      SpaceBefore(v[close..], rest);
      assert s[close..] == v[close..] + rest;
    }
  }

  lemma UseIsNoSpace()
    ensures !IsSpace('u') && !IsSpace('p') && !IsSpace('#') && !IsSpace(';') && !IsSpace('/') && IsSpace(' ')
  {
  }

  lemma VisIsGood(s: string)
    requires Vis(s).Some?
    ensures GoodVis(s[..Vis(s).value])
  {
    hide IsSpace, SpaceRun, IndexOf;
    var n := Vis(s).value;
    if "pub" <= s {
      var v := s[..n];
      var close := if |s| > 3 && s[3] == '(' then 3 + IndexOf(s[3..], ')') + 1 else 3;
      assert v[..3] == s[..3] && |v| > 3 && v[3] == s[3];
      if s[3] == '(' {
        assert v[3..] == s[3..][..n - 3];
        IndexCut(s[3..], n - 3, ')');
      }
      assert v[close..] == s[close..][..n - close];
      SpaceCut(s[close..], n - close);
    }
  }

  /** Whatever header is read is one that can be written. */
  lemma HeaderIsGood(text: string)
    requires ReadHeader(text).Some?
    ensures GoodAttrs(ReadHeader(text).value.attrs) && GoodVis(ReadHeader(text).value.vis)
  {
    hide GoodAttrs, GoodVis, Attrs, Vis, TreeOf;
    var s := Strip(DropComments(text));
    var a := Attrs(s);
    AttrsAreGood(s);
    VisIsGood(s[a..]);
    assert s[a..][..Vis(s[a..]).value] == s[a..a + Vis(s[a..]).value];
  }

  /** One written item. */
  function ItemText(attrs: string, vis: string, tree: string): string {
    attrs + (vis + ("use " + tree + ";"))
  }

  lemma TreeReadsBack(tree: string)
    requires tree != "" && !IsSpace(tree[0])
    ensures TreeOf("use " + tree + ";") == Some(tree)
  {
    var s := "use " + tree + ";";
    assert s[..3] == "use" && s[3..] == " " + (tree + ";");
    SpaceRunIs(s[3..], 1);
    assert s[4..] == tree + ";" && (tree + ";")[..|tree|] == tree;
  }

  /** A text that starts and ends with a printing character and not with a comment is taken as it is. */
  lemma NothingToStrip(s: string)
    requires s != "" && !IsSpace(s[0]) && s[0] != '/' && !IsSpace(s[|s| - 1])
    ensures Strip(DropComments(s)) == s
  {
    hide IsSpace;
    SpaceRunIs(s, 0);
    assert s[0..] == s && s[..|s|] == s;
  }

  lemma ItemEnds(attrs: string, vis: string, tree: string)
    requires GoodAttrs(attrs) && GoodVis(vis)
    ensures var s := ItemText(attrs, vis, tree); s != "" && s[|s| - 1] == ';' && (s[0] == '#' || s[0] == 'p' || s[0] == 'u')
    ensures StartsWord(vis + ("use " + tree + ";"))
  {
    UseIsNoSpace();
    var rest := "use " + tree + ";";
    assert vis + rest == (if vis == "" then rest else vis + rest);
    assert vis != "" ==> vis[0] == vis[..3][0] == 'p';
    assert rest[0] == 'u';
    assert attrs != "" ==> Attr(attrs) > 0 && attrs[0] == attrs[..2][0] == '#';
  }

  lemma HeaderOfPieces(attrs: string, vis: string, rest: string, tree: string)
    requires var s := attrs + (vis + rest); Strip(DropComments(s)) == s && Attrs(s) == |attrs|
    requires Vis(vis + rest) == Some(|vis|) && TreeOf(rest) == Some(tree)
    ensures ReadHeader(attrs + (vis + rest)) == Some(Header(attrs, vis, tree))
  {
    hide Strip, DropComments, Attrs, Vis, TreeOf;
    var s := attrs + (vis + rest);
    assert s[|attrs|..] == vis + rest && s[|attrs| + |vis|..] == rest;
    assert s[..|attrs|] == attrs && s[|attrs|..|attrs| + |vis|] == vis;
  }

  lemma HeaderReadsBack(attrs: string, vis: string, tree: string)
    requires GoodAttrs(attrs) && GoodVis(vis) && tree != "" && !IsSpace(tree[0])
    ensures ReadHeader(ItemText(attrs, vis, tree)) == Some(Header(attrs, vis, tree))
  {
    hide Strip, DropComments, Attrs, Vis, TreeOf, GoodAttrs, GoodVis, StartsWord, ReadHeader;
    var rest := "use " + tree + ";";
    ItemEnds(attrs, vis, tree);
    UseIsNoSpace();
    hide IsSpace;
    NothingToStrip(ItemText(attrs, vis, tree));
    AttrsBefore(attrs, vis + rest);
    assert rest[..3] == "use";
    VisBefore(vis, rest);
    TreeReadsBack(tree);
    HeaderOfPieces(attrs, vis, rest, tree);
  }

  // ----- render_use -----

  /** Two written lines, to the character. */
  lemma LineExamples()
    ensures ItemText("", "pub ", GroupText(["a", "b"], [Use(["a", "b", "c"], None)])) == "pub use a::b::c;"
    ensures ItemText("#[x]\n", "", GroupText(["a"], [Use(["a", "b"], None), Use(["a", "c"], Some("d"))])) == "#[x]\nuse a::{b, c as d};"
  {
    var b, c, d := Use(["a", "b"], None), Use(["a", "c"], Some("d")), Use(["a", "b", "c"], None);
    assert KeyText(["b"]) == "b::" && ["a", "b"][1..] == ["b"];
    assert KeyText(["a", "b"]) == "a::b::" && KeyText(["a"]) == "a::";
    assert LeafText(b) == "b" && LeafText(c) == "c as d" && LeafText(d) == "c";
    assert [b, c][1..] == [c];
    assert ListText([b, c]) == "b, c as d";
  }

  /** The paths of all lines together, if each is an item with these attributes and this visibility. */
  function ReadLines(lines: seq<string>, attrs: string, vis: string): Option<seq<Use>> {
    if lines == [] then Some([])
    else
      var rest, last := ReadLines(lines[..|lines| - 1], attrs, vis), ItemPaths(lines[|lines| - 1]);
      if rest.None? || last.None? || last.value.attrs != attrs || last.value.vis != vis then None
      else Some(rest.value + last.value.paths)
  }

  lemma ItemReadsBack(attrs: string, vis: string, key: seq<string>, us: seq<Use>)
    requires GoodAttrs(attrs) && GoodVis(vis) && us != [] && GoodUses(us) && forall i :: 0 <= i < |us| ==> us[i].segs != [] && Key(us[i]) == key
    ensures ItemPaths(ItemText(attrs, vis, GroupText(key, us))) == Some(Parsed(attrs, vis, us))
  {
    hide UsePaths, GroupText, ReadHeader, ItemText, GoodUse;
    GroupStarts(key, us);
    GroupReadsBack(key, us);
    HeaderReadsBack(attrs, vis, GroupText(key, us));
  }

  /**
   * `render_use`: one line per prefix, each with the given attributes and visibility; reading the
   * lines back gives the paths grouped by prefix, prefixes in first-seen order.
   */
  method RenderUse(attrs: string, vis: string, us: seq<Use>) returns (lines: seq<string>)
    requires GoodAttrs(attrs) && GoodVis(vis) && GoodUses(us)
    ensures ReadLines(lines, attrs, vis) == Some(Gathered(us, FirstSeen(us))) && |lines| == |FirstSeen(us)|
  {
    hide GoodUse, ItemPaths, GroupText, GroupsOf, ItemText, GoodAttrs, GoodVis;
    var groups := GroupPaths(us);
    lines := [];
    GroupCount(us, groups);
    ghost var keys := FirstSeen(us);
    for n := 0 to |groups|
      invariant |lines| == n && ReadLines(lines, attrs, vis) == Some(Gathered(us, keys[..n]))
    {
      GroupAt(us, groups, n);
      var line := ItemText(attrs, vis, GroupText(groups[n].0, groups[n].1));
      ItemReadsBack(attrs, vis, groups[n].0, groups[n].1);
      assert (lines + [line])[..n] == lines && keys[..n + 1][..n] == keys[..n];
      lines := lines + [line];
    }
    assert keys[..|groups|] == keys;
  }

  // ----- prune_uses -----

  /** The loop that keeps the paths that are not moved. */
  method KeepUnmoved(us: seq<Use>, moved: set<(Option<string>, string)>, external: set<string>) returns (keep: seq<Use>)
    requires GoodUses(us)
    ensures GoodUses(keep) && keep == Kept(us, moved, external) && OnlyMovedGo(us, keep, moved, external)
    ensures |keep| == |us| <==> NoneMoved(us, moved, external)
  {
    hide GoodUse, IsMoved;
    keep := [];
    for n := 0 to |us|
      invariant keep == Kept(us[..n], moved, external)
    {
      assert us[..n + 1][..n] == us[..n];
      if !IsMoved(us[n], moved, external) {
        keep := keep + [us[n]];
      }
    }
    assert us[..|us|] == us;
    forall u: Use ensures multiset(keep)[u] == Remaining(us, u, moved, external) {
      KeptMembers(us, moved, external, u);
    }
    KeptShape(us, moved, external);
  }

  lemma GoodItem(text: string)
    requires ItemPaths(text).Some?
    ensures GoodAttrs(ItemPaths(text).value.attrs) && GoodVis(ItemPaths(text).value.vis) && GoodUses(ItemPaths(text).value.paths)
  {
    hide GoodAttrs, GoodVis, GoodUse, ReadHeader, ParseSegs;
    HeaderIsGood(text);
    ParsedSegsAreGood(ReadHeader(text).value.tree, []);
  }

  lemma ReadOneLine(text: string)
    requires ItemPaths(text).Some?
    ensures var p := ItemPaths(text).value; ReadLines([text], p.attrs, p.vis) == Some(p.paths)
  {
    hide ItemPaths;
    assert [text][..0] == [] && [] + ItemPaths(text).value.paths == ItemPaths(text).value.paths;
  }

  /** What `render_use` makes of the kept paths. */
  ghost predicate Rewritten(p: Parsed, keep: seq<Use>, lines: seq<string>) {
    GoodUses(keep) && ReadLines(lines, p.attrs, p.vis) == Some(Gathered(keep, FirstSeen(keep))) && |lines| == |FirstSeen(keep)|
  }

  /**
   * One item of `prune_uses`. An item that is not a plain `use`, or none of whose paths moved, stays
   * as it is; otherwise the lines that replace it carry its attributes and visibility and import
   * exactly the paths that are not moved, each as often as before, grouped by prefix.
   */
  method PruneUse(text: string, moved: set<(Option<string>, string)>, external: set<string>) returns (lines: seq<string>)
    ensures ItemPaths(text).None? ==> lines == [text]
    ensures ItemPaths(text).Some? ==>
      var p := ItemPaths(text).value;
      if NoneMoved(p.paths, moved, external) then lines == [text] else Rewritten(p, Kept(p.paths, moved, external), lines)
    ensures ItemPaths(text).Some? ==>
      var p := ItemPaths(text).value;
      var after := ReadLines(lines, p.attrs, p.vis);
      after.Some? && OnlyMovedGo(p.paths, after.value, moved, external)
  {
    hide ItemPaths, GoodUse, GoodAttrs, GoodVis, ReadLines, IsMoved, Kept;
    var parsed := ReadItem(text);
    if parsed.None? {
      return [text];
    }
    GoodItem(text);
    var p := parsed.value;
    var keep := KeepUnmoved(p.paths, moved, external);
    if |keep| != |p.paths| {
      lines := RenderUse(p.attrs, p.vis, keep);
      forall u: Use ensures multiset(Gathered(keep, FirstSeen(keep)))[u] == multiset(keep)[u] {
        GatheringKeepsCounts(keep, u);
      }
    } else {
      lines := [text];
      ReadOneLine(text);
    }
  }
}
