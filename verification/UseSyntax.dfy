/**
 * The grammar behind `use_paths` of scripts/crate_cut.py: concrete syntax trees with their white
 * space, aliases, nested groups and trailing commas. The parser reads exactly these.
 */
module UseSyntax {
  import opened UseTree

  /** `before` and `after` are the blanks around the word `as`. */
  datatype As = As(before: string, after: string, name: string)

  /** `pad` are the blanks in front, `gap` those before `::`, `close` those before the closing brace. */
  datatype Syntax =
    | Leaf(pad: string, seg: string, alias: Option<As>)
    | Step(pad: string, seg: string, gap: string, rest: Syntax)
    | Group(pad: string, items: Items, close: string)

  /** `gap` are the blanks before a comma; `comma` those before a trailing one, if there is one. */
  datatype Items = Last(item: Syntax, comma: Option<string>) | More(item: Syntax, gap: string, rest: Items)

  function AsText(alias: Option<As>): string {
    if alias.None? then "" else alias.value.before + ("as" + (alias.value.after + alias.value.name))
  }

  function Text(t: Syntax): string {
    match t
    case Leaf(pad, seg, alias) => pad + (seg + AsText(alias))
    case Step(pad, seg, gap, rest) => pad + (seg + (gap + ("::" + Text(rest))))
    case Group(pad, items, close) => pad + ("{" + (ItemsText(items) + (close + "}")))
  }

  function ItemsText(items: Items): string {
    match items
    case Last(item, comma) => Text(item) + if comma.None? then "" else comma.value + ","
    case More(item, gap, rest) => Text(item) + (gap + ("," + ItemsText(rest)))
  }

  /** The paths a tree stands for: every leaf with the segments above it. */
  function PathsOf(t: Syntax, prefix: seq<string>): seq<Use> {
    match t
    case Leaf(_, seg, alias) => [Use(prefix + [seg], if alias.None? then None else Some(alias.value.name))]
    case Step(_, seg, _, rest) => PathsOf(rest, prefix + [seg])
    case Group(_, items, _) => PathsOfItems(items, prefix)
  }

  function PathsOfItems(items: Items, prefix: seq<string>): seq<Use> {
    match items
    case Last(item, _) => PathsOf(item, prefix)
    case More(item, _, rest) => PathsOf(item, prefix) + PathsOfItems(rest, prefix)
  }

  predicate AllSpace(s: string) {
    forall i :: 0 <= i < |s| ==> IsSpace(s[i])
  }

  ghost predicate Good(t: Syntax) {
    match t
    case Leaf(pad, seg, alias) =>
      && AllSpace(pad) && IsSeg(seg)
      && (alias.Some? ==>
            && AllSpace(alias.value.before) && AllSpace(alias.value.after) && alias.value.after != "" && IsIdent(alias.value.name)
            && (alias.value.before != "" || seg == "*"))
    case Step(pad, seg, gap, rest) => AllSpace(pad) && IsSeg(seg) && AllSpace(gap) && Good(rest)
    case Group(pad, items, close) => AllSpace(pad) && GoodItems(items) && AllSpace(close)
  }

  ghost predicate GoodItems(items: Items) {
    match items
    case Last(item, comma) => Good(item) && (comma.Some? ==> AllSpace(comma.value))
    case More(item, gap, rest) => Good(item) && AllSpace(gap) && GoodItems(rest)
  }

  predicate EndsWord(tail: string) {
    tail == "" || !IsPart(tail[0])
  }

  predicate AliasStarts(s: string) {
    "as" <= s && |s| > 2 && IsSpace(s[2])
  }

  /** The tree ends where `tail` begins: its last word, its path and its leaf do not go on. */
  predicate Stops(t: Syntax, tail: string) {
    match t
    case Leaf(_, seg, None) => (seg == "*" || EndsWord(tail)) && !("::" <= Ws(tail)) && !AliasStarts(Ws(tail))
    case Leaf(_, _, Some(_)) => EndsWord(tail)
    case Step(_, _, _, rest) => Stops(rest, tail)
    case Group(_, _, _) => true
  }

  /** Where the parser stands then: a leaf without alias also takes the blanks behind it. */
  function Rest(t: Syntax, tail: string): string {
    match t
    case Leaf(_, _, alias) => if alias.None? then Ws(tail) else tail
    case Step(_, _, _, rest) => Rest(rest, tail)
    case Group(_, _, _) => tail
  }

  // ----- white space -----

  lemma {:induction false} WsSkips(w: string, s: string)
    requires AllSpace(w)
    ensures Ws(w + s) == Ws(s)
  {
    hide IsSpace;
    if w == "" {
      assert w + s == s;
    } else {
      assert (w + s)[1..] == w[1..] + s;
      WsSkips(w[1..], s);
    }
  }

  lemma {:induction false} WsSplits(s: string) returns (w: string)
    ensures AllSpace(w) && s == w + Ws(s) && (Ws(s) == "" || !IsSpace(Ws(s)[0]))
  {
    hide IsSpace;
    if s != "" && IsSpace(s[0]) {
      var v := WsSplits(s[1..]);
      w := [s[0]] + v;
      assert s == [s[0]] + s[1..];
    } else {
      w := "";
    }
  }

  lemma WsTwice(s: string)
    ensures Ws(Ws(s)) == Ws(s)
  {
    hide IsSpace;
    var w := WsSplits(s);
  }

  /** Blanks in front make no difference. */
  lemma ParseSkips(s: string, path: seq<string>)
    ensures ParseSegs(Ws(s), path) == ParseSegs(s, path) && ParseList(Ws(s), path) == ParseList(s, path)
  {
    hide IsSpace, TakeSeg, ParseAlias, Ws;
    WsTwice(s);
  }

  // ----- what is written is read -----

  /** Before a comma or a closing brace every tree ends. */
  lemma {:induction false} StopsBefore(t: Syntax, tail: string)
    requires Ws(tail) != "" && (Ws(tail)[0] == ',' || Ws(tail)[0] == '}')
    ensures Stops(t, tail)
  {
    match t
    case Step(_, _, _, rest) => StopsBefore(rest, tail);
    case _ =>
      var w := WsSplits(tail);
      assert tail[0] == if w == "" then Ws(tail)[0] else w[0];
      assert Ws(tail)[..1] == [Ws(tail)[0]];
  }

  lemma WsOfRest(t: Syntax, tail: string)
    ensures Ws(Rest(t, tail)) == Ws(tail)
  {
    WsTwice(tail);
    RestIs(t, tail);
  }

  lemma {:induction false} RestIs(t: Syntax, tail: string)
    ensures Rest(t, tail) == tail || Rest(t, tail) == Ws(tail)
  {
    match t
    case Step(_, _, _, rest) => RestIs(rest, tail);
    case _ =>
  }

  lemma SegIsTaken(seg: string, tail: string)
    requires IsSeg(seg) && (seg == "*" || EndsWord(tail))
    ensures TakeSeg(seg + tail) == Some((seg, tail)) && Ws(seg + tail) == seg + tail && seg + tail != "" && (seg + tail)[0] != '{'
  {
    if seg == "*" {
      assert (seg + tail)[1..] == tail;
    } else {
      TakeSegOf(seg, tail);
    }
  }

  lemma SpaceEndsWord(w: string, tail: string)
    requires AllSpace(w) && (w != "" || EndsWord(tail))
    ensures EndsWord(w + tail)
  {
  }

  /** A segment, then blanks, then `::`. */
  lemma ReadsStep(pad: string, seg: string, gap: string, rest: string, prefix: seq<string>)
    requires AllSpace(pad) && IsSeg(seg) && AllSpace(gap)
    ensures ParseSegs(pad + (seg + (gap + ("::" + rest))), prefix) == ParseSegs(rest, prefix + [seg])
  {
    var s, tail := seg + (gap + ("::" + rest)), gap + ("::" + rest);
    SpaceEndsWord(gap, "::" + rest);
    SegIsTaken(seg, tail);
    WsSkips(pad, s);
    WsSkips(gap, "::" + rest);
    assert Ws("::" + rest) == "::" + rest;
    hide IsSpace, IsSeg, TakeSeg, ParseAlias, ParseList, Ws;
    assert ("::" + rest)[2..] == rest && ("::" + rest)[..2] == "::";
  }

  /** A leaf, from its segment on. */
  lemma ReadsLeaf(t: Syntax, prefix: seq<string>, tail: string)
    requires t.Leaf? && Good(t) && Stops(t, tail)
    ensures ParseSegs(Text(t) + tail, prefix) == Some((PathsOf(t, prefix), Rest(t, tail)))
  {
    var Leaf(pad, seg, alias) := t;
    var after := AsText(alias) + tail;
    assert Text(t) + tail == pad + (seg + after);
    WsSkips(pad, seg + after);
    AliasIsRead(seg, alias, tail);
    SegIsTaken(seg, after);
    hide IsSpace, IsSeg, IsIdent, TakeSeg, ParseAlias, ParseList, Ws, AsText;
  }

  lemma AliasIsRead(seg: string, alias: Option<As>, tail: string)
    requires Good(Leaf("", seg, alias)) && Stops(Leaf("", seg, alias), tail)
    ensures var after := AsText(alias) + tail;
      && (seg == "*" || EndsWord(after)) && !("::" <= Ws(after))
      && ParseAlias(Ws(after)) ==
         Some((if alias.None? then None else Some(alias.value.name), if alias.None? then Ws(tail) else tail))
  {
    var after := AsText(alias) + tail;
    if alias.None? {
      assert after == tail;
    } else {
      var As(before, gap, name) := alias.value;
      var word := "as" + (gap + (name + tail));
      assert after == before + word;
      WsSkips(before, word);
      SpaceBeforeAs(seg, before, word);
      AsIsRead(gap, name, tail);
    }
  }

  lemma AsIsRead(gap: string, name: string, tail: string)
    requires AllSpace(gap) && gap != "" && IsIdent(name) && EndsWord(tail)
    ensures var word := "as" + (gap + (name + tail));
      Ws(word) == word && !("::" <= word) && ParseAlias(word) == Some((Some(name), tail))
  {
    var word := "as" + (gap + (name + tail));
    assert word[0] == 'a' && Ws(word) == word;
    assert word[..2] == "as" && word[2..] == gap + (name + tail) && word[2] == gap[0];
    WsSkips(gap, name + tail);
    assert (name + tail)[0] == name[0] && Ws(name + tail) == name + tail;
    TakeIdentOf(name, tail);
  }

  lemma SpaceBeforeAs(seg: string, before: string, word: string)
    requires AllSpace(before) && (before != "" || seg == "*")
    ensures seg == "*" || EndsWord(before + word)
  {
  }

  /** Every tree is read as its paths, up to where it ends. */
  lemma {:induction false} Reads(t: Syntax, prefix: seq<string>, tail: string)
    requires Good(t) && Stops(t, tail)
    ensures ParseSegs(Text(t) + tail, prefix) == Some((PathsOf(t, prefix), Rest(t, tail)))
    decreases t
  {
    hide ParseSegs, ParseList, IsSeg, Ws, AllSpace;
    match t
    case Leaf(_, _, _) => ReadsLeaf(t, prefix, tail);
    case Step(pad, seg, gap, rest) =>
      assert Text(t) + tail == pad + (seg + (gap + ("::" + (Text(rest) + tail))));
      ReadsStep(pad, seg, gap, Text(rest) + tail, prefix);
      Reads(rest, prefix + [seg], tail);
    case Group(pad, items, close) =>
      var inner := close + ("}" + tail);
      BraceFollows(close, tail);
      ReadsItems(items, prefix, inner);
      assert Text(t) + tail == pad + ("{" + (ItemsText(items) + inner));
      ReadsBraces(pad, ItemsText(items) + inner, prefix, PathsOfItems(items, prefix), inner, tail);
  }

  lemma BraceFollows(close: string, tail: string)
    requires AllSpace(close)
    ensures Ws(close + ("}" + tail)) == "}" + tail
  {
    WsSkips(close, "}" + tail);
  }

  lemma ReadsBraces(pad: string, list: string, prefix: seq<string>, us: seq<Use>, inner: string, tail: string)
    requires AllSpace(pad) && ParseList(list, prefix) == Some((us, Ws(inner))) && Ws(inner) == "}" + tail
    ensures ParseSegs(pad + ("{" + list), prefix) == Some((us, tail))
  {
    WsSkips(pad, "{" + list);
    assert Ws("{" + list) == "{" + list && ("{" + list)[1..] == list;
    WsTwice(inner);
    hide IsSpace, TakeSeg, ParseAlias, ParseList, Ws;
    assert ("}" + tail)[1..] == tail;
  }

  lemma TextOfItems(items: Items, tail: string)
    ensures ItemsText(items) + tail ==
      match items
      case Last(item, None) => Text(item) + tail
      case Last(item, Some(w)) => Text(item) + (w + ("," + tail))
      case More(item, gap, rest) => Text(item) + (gap + ("," + (ItemsText(rest) + tail)))
  {
    hide Text;
  }

  lemma {:induction false} ReadsItems(items: Items, path: seq<string>, tail: string)
    requires GoodItems(items) && Ws(tail) != "" && Ws(tail)[0] == '}'
    ensures ParseList(ItemsText(items) + tail, path) == Some((PathsOfItems(items, path), Ws(tail)))
    decreases items
  {
    hide ParseSegs, ParseList, Ws, AllSpace, Good, Stops, Rest, Text, ItemsText, PathsOf;
    TextOfItems(items, tail);
    match items
    case Last(item, None) =>
      StopsBefore(item, tail);
      Reads(item, path, tail);
      ItemEnds(item, Text(item) + tail, path, tail);
    case Last(item, Some(w)) =>
      var after := w + ("," + tail);
      CommaFollows(w, tail);
      StopsBefore(item, after);
      Reads(item, path, after);
      TrailingComma(item, Text(item) + after, path, after, tail);
    case More(item, gap, rest) =>
      var next := ItemsText(rest) + tail;
      var after := gap + ("," + next);
      CommaFollows(gap, next);
      StopsBefore(item, after);
      Reads(item, path, after);
      ReadsItems(rest, path, tail);
      ItemsStart(rest, tail);
      CommaThenMore(item, Text(item) + after, path, after, next);
  }

  lemma CommaFollows(gap: string, tail: string)
    requires AllSpace(gap)
    ensures Ws(gap + ("," + tail)) == "," + tail
  {
    WsSkips(gap, "," + tail);
  }

  lemma ItemEnds(item: Syntax, s: string, path: seq<string>, tail: string)
    requires ParseSegs(s, path) == Some((PathsOf(item, path), Rest(item, tail))) && Ws(tail) != "" && Ws(tail)[0] == '}'
    ensures ParseList(s, path) == Some((PathsOf(item, path), Ws(tail)))
  {
    hide ParseSegs, Ws;
    WsOfRest(item, tail);
  }

  lemma TrailingComma(item: Syntax, s: string, path: seq<string>, after: string, tail: string)
    requires ParseSegs(s, path) == Some((PathsOf(item, path), Rest(item, after))) && Ws(after) == "," + tail
    requires Ws(tail) != "" && Ws(tail)[0] == '}'
    ensures ParseList(s, path) == Some((PathsOf(item, path), Ws(tail)))
  {
    hide ParseSegs, Ws;
    WsOfRest(item, after);
    assert ("," + tail)[1..] == tail;
  }

  lemma CommaThenMore(item: Syntax, s: string, path: seq<string>, after: string, next: string)
    requires ParseSegs(s, path) == Some((PathsOf(item, path), Rest(item, after))) && Ws(after) == "," + next
    requires Ws(next) != "" && Ws(next)[0] != '}' && ParseList(next, path).Some?
    ensures ParseList(s, path) == Some((PathsOf(item, path) + ParseList(next, path).value.0, ParseList(next, path).value.1))
  {
    WsOfRest(item, after);
    assert ("," + next)[1..] == next;
    ParseSkips(next, path);
    hide ParseSegs, Ws;
  }

  lemma {:induction false} TreeStarts(t: Syntax, tail: string)
    requires Good(t)
    ensures Ws(Text(t) + tail) != "" && Ws(Text(t) + tail)[0] != '}'
  {
    match t
    case Leaf(pad, seg, alias) =>
      assert Text(t) + tail == pad + (seg + (AsText(alias) + tail));
      WordStarts(pad, seg, AsText(alias) + tail);
    case Step(pad, seg, gap, rest) =>
      assert Text(t) + tail == pad + (seg + (gap + ("::" + Text(rest)) + tail));
      WordStarts(pad, seg, gap + ("::" + Text(rest)) + tail);
    case Group(pad, items, close) =>
      var inner := ItemsText(items) + (close + "}") + tail;
      assert Text(t) + tail == pad + ("{" + inner);
      WsSkips(pad, "{" + inner);
      assert Ws("{" + inner) == "{" + inner;
  }

  lemma WordStarts(pad: string, seg: string, more: string)
    requires AllSpace(pad) && IsSeg(seg)
    ensures Ws(pad + (seg + more)) == seg + more && seg + more != "" && (seg + more)[0] != '}'
  {
    WsSkips(pad, seg + more);
    assert (seg + more)[0] == seg[0];
  }

  lemma ItemsStart(items: Items, tail: string)
    requires GoodItems(items)
    ensures Ws(ItemsText(items) + tail) != "" && Ws(ItemsText(items) + tail)[0] != '}'
  {
    hide Good, Ws;
    match items
    case Last(item, comma) =>
      var more := if comma.None? then "" else comma.value + ",";
      assert ItemsText(items) + tail == Text(item) + (more + tail);
      TreeStarts(item, more + tail);
    case More(item, gap, rest) =>
      assert ItemsText(items) + tail == Text(item) + (gap + ("," + ItemsText(rest)) + tail);
      TreeStarts(item, gap + ("," + ItemsText(rest)) + tail);
  }

  // ----- what is read was written -----

  lemma TakeIdentSplits(s: string)
    requires TakeIdent(s).Some?
    ensures s == TakeIdent(s).value.0 + TakeIdent(s).value.1 && EndsWord(TakeIdent(s).value.1) && IsIdent(TakeIdent(s).value.0)
  {
    TakeIdentIsIdent(s);
    PartRunEnds(s);
  }

  lemma {:induction false} PartRunEnds(s: string)
    ensures EndsWord(s[PartRun(s)..])
  {
    if s != "" && IsPart(s[0]) {
      PartRunEnds(s[1..]);
      assert s[1..][PartRun(s[1..])..] == s[PartRun(s)..];
    }
  }

  lemma TakeSegSplits(s: string)
    requires TakeSeg(s).Some?
    ensures var (seg, tail) := TakeSeg(s).value; s == seg + tail && IsSeg(seg) && (seg == "*" || EndsWord(tail))
  {
    if s != "" && s[0] == '*' {
      assert s == "*" + s[1..];
    } else {
      TakeIdentSplits(s);
    }
  }

  lemma TextOfGroup(pad: string, items: Items, close: string, tail: string)
    ensures Text(Group(pad, items, close)) + tail == pad + ("{" + (ItemsText(items) + (close + ("}" + tail))))
  {
    hide ItemsText;
  }

  lemma TextOfStep(pad: string, seg: string, gap: string, rest: Syntax, tail: string)
    ensures Text(Step(pad, seg, gap, rest)) + tail == pad + (seg + (gap + ("::" + (Text(rest) + tail))))
  {
  }

  lemma TextOfLeaf(pad: string, seg: string, alias: Option<As>, tail: string)
    ensures Text(Leaf(pad, seg, alias)) + tail == pad + (seg + (AsText(alias) + tail))
  {
    hide AsText;
  }

  lemma FirstAndRest(s: string, c: char)
    requires s != "" && s[0] == c
    ensures s == [c] + s[1..]
  {
  }

  /** Whatever the parser reads is a tree of the grammar, with these paths, that ends there. */
  lemma {:induction false} Denotes(s: string, prefix: seq<string>) returns (t: Syntax, tail: string)
    requires ParseSegs(s, prefix).Some?
    ensures Good(t) && Stops(t, tail) && s == Text(t) + tail
    ensures ParseSegs(s, prefix).value == (PathsOf(t, prefix), Rest(t, tail))
    decreases |s|, 0
  {
    hide IsSpace, IsSeg, IsIdent, TakeSeg, ParseAlias, Ws, AllSpace, TakeIdent, Text, ItemsText, AsText;
    var pad := WsSplits(s);
    var body := Ws(s);
    if body[0] == '{' {
      var items, inner := DenotesItems(body[1..], prefix);
      var close := WsSplits(inner);
      WsTwice(inner);
      tail := Ws(inner)[1..];
      t := Group(pad, items, close);
      FirstAndRest(Ws(inner), '}');
      FirstAndRest(body, '{');
      TextOfGroup(pad, items, close, tail);
    } else {
      TakeSegSplits(body);
      var (seg, behind) := TakeSeg(body).value;
      var gap := WsSplits(behind);
      var after := Ws(behind);
      if "::" <= after {
        var rest, end := Denotes(after[2..], prefix + [seg]);
        t, tail := Step(pad, seg, gap, rest), end;
        assert after == "::" + after[2..];
        TextOfStep(pad, seg, gap, rest, tail);
      } else {
        var alias, end := DenotesAlias(seg, gap, behind);
        t, tail := Leaf(pad, seg, alias), end;
        TextOfLeaf(pad, seg, alias, tail);
      }
    }
  }

  lemma AsSplits(after: string, w: string, name: string, end: string)
    requires AliasStarts(after) && after[2..] == w + (name + end) && IsIdent(name) && AllSpace(w)
    ensures after == "as" + (w + (name + end)) && w != "" && after[0] == 'a'
  {
    assert after == after[..2] + after[2..];
    var rest := after[2..];
    assert after[2] == rest[0];
    assert (name + end)[0] == name[0] && !IsSpace(name[0]);
    assert w == "" ==> rest == name + end;
  }

  /** What is read as an alias behind `after`. */
  lemma DenotesAs(after: string) returns (w: string, name: string, tail: string)
    requires AliasStarts(after) && ParseAlias(after).Some?
    ensures AllSpace(w) && w != "" && IsIdent(name) && EndsWord(tail) && after == "as" + (w + (name + tail)) && after[0] == 'a'
    ensures ParseAlias(after).value == (Some(name), tail)
  {
    w := WsSplits(after[2..]);
    var word := Ws(after[2..]);
    TakeIdentSplits(word);
    name, tail := TakeIdent(word).value.0, TakeIdent(word).value.1;
    hide TakeIdent, IsSpace, Ws;
    AsSplits(after, w, name, tail);
  }

  /** Between a word and what is no part of it, `as` stands only behind blanks. */
  lemma GapBeforeAs(seg: string, gap: string, behind: string)
    requires (seg == "*" || EndsWord(behind)) && behind == gap + Ws(behind) && Ws(behind) != "" && Ws(behind)[0] == 'a'
    ensures gap != "" || seg == "*"
  {
    hide Ws;
    assert behind != "" && behind[0] == if gap == "" then Ws(behind)[0] else gap[0];
  }

  lemma DenotesAlias(seg: string, gap: string, behind: string) returns (alias: Option<As>, tail: string)
    requires IsSeg(seg) && (seg == "*" || EndsWord(behind)) && AllSpace(gap) && behind == gap + Ws(behind)
    requires !("::" <= Ws(behind)) && ParseAlias(Ws(behind)).Some?
    ensures Good(Leaf("", seg, alias)) && Stops(Leaf("", seg, alias), tail) && behind == AsText(alias) + tail
    ensures ParseAlias(Ws(behind)).value == (if alias.None? then None else Some(alias.value.name), if alias.None? then Ws(tail) else tail)
  {
    var after := Ws(behind);
    hide IsSeg, IsIdent, IsSpace, Ws;
    if AliasStarts(after) {
      var w, name, end := DenotesAs(after);
      GapBeforeAs(seg, gap, behind);
      hide ParseAlias, EndsWord;
      alias, tail := Some(As(gap, w, name)), end;
      assert AsText(alias) + tail == gap + ("as" + (w + (name + end)));
    } else {
      alias, tail := None, behind;
      assert AsText(alias) + tail == behind;
    }
  }

  lemma {:induction false} DenotesItems(s: string, path: seq<string>) returns (items: Items, tail: string)
    requires ParseList(s, path).Some?
    ensures GoodItems(items) && s == ItemsText(items) + tail
    ensures ParseList(s, path).value == (PathsOfItems(items, path), Ws(tail))
    decreases |s|, 1
  {
    hide IsSpace, ParseSegs, Ws, AllSpace, Stops;
    var item, behind := Denotes(s, path);
    WsOfRest(item, behind);
    var gap := WsSplits(behind);
    var after := Ws(behind);
    if after[0] != ',' {
      items, tail := Last(item, None), behind;
      assert ItemsText(items) + tail == s;
    } else {
      assert after == "," + after[1..];
      var next := Ws(after[1..]);
      if next[0] == '}' {
        items, tail := Last(item, Some(gap)), after[1..];
        assert ItemsText(items) + tail == Text(item) + (gap + ("," + tail)) == s;
      } else {
        ParseSkips(after[1..], path);
        var rest, end := DenotesItems(after[1..], path);
        items, tail := More(item, gap, rest), end;
        assert ItemsText(items) + tail == Text(item) + (gap + ("," + (ItemsText(rest) + tail))) == s;
      }
    }
  }

  // ----- the grammar is exact -----

  /** `us` are the paths of a tree that the text starts with and that ends there. */
  ghost predicate IsRead(s: string, us: seq<Use>, t: Syntax, tail: string) {
    Good(t) && Stops(t, tail) && s == Text(t) + tail && us == PathsOf(t, [])
  }

  /** `use_paths` gives paths if and only if the text starts with a tree of the grammar, and exactly the paths of that tree. */
  lemma UsePathsExactly(s: string, us: seq<Use>)
    ensures UsePaths(s) == Some(us) <==> exists t, tail :: IsRead(s, us, t, tail)
  {
    hide ParseSegs, Good, Stops;
    if UsePaths(s) == Some(us) {
      var t, tail := Denotes(s, []);
      assert IsRead(s, us, t, tail);
    }
    forall t, tail | IsRead(s, us, t, tail) ensures UsePaths(s) == Some(us) {
      Reads(t, [], tail);
    }
  }

  /** A whole tree, with nothing behind it, is read as its paths. */
  lemma TreeIsRead(t: Syntax)
    requires Good(t)
    ensures UsePaths(Text(t)) == Some(PathsOf(t, []))
  {
    hide ParseSegs, Good;
    StopsAtEnd(t);
    Reads(t, [], "");
    assert Text(t) + "" == Text(t);
  }

  lemma {:induction false} StopsAtEnd(t: Syntax)
    ensures Stops(t, "")
  {
    match t
    case Step(_, _, _, rest) => StopsAtEnd(rest);
    case _ =>
  }
}
