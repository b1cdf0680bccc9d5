/**
 * The grammar of whole `use` items in scripts/crate_cut.py: leading comments, attributes,
 * visibility and tree, with their white space. `use_paths` takes exactly these apart.
 */
module ItemSyntax {
  import opened UseTree
  import opened UseSyntax
  import opened UseItem

  datatype Comment = LineComment(pad: string, body: string) | BlockComment(pad: string, body: string)

  /** `gap` are the blanks behind. */
  datatype Attribute = Attribute(body: string, gap: string)
  datatype Visibility = Private | Public(scope: Option<string>, gap: string)

  datatype Item = Item(comments: seq<Comment>, pad: string, attrs: seq<Attribute>, vis: Visibility, gap: string, tree: string, tail: string)

  function CommentText(c: Comment): string {
    match c
    case LineComment(pad, body) => pad + ("//" + (body + "\n"))
    case BlockComment(pad, body) => pad + ("/*" + (body + "*/"))
  }

  function CommentsText(cs: seq<Comment>): string {
    if cs == [] then "" else CommentText(cs[0]) + CommentsText(cs[1..])
  }

  function AttributesText(attrs: seq<Attribute>): string {
    if attrs == [] then "" else "#[" + (attrs[0].body + ("]" + attrs[0].gap)) + AttributesText(attrs[1..])
  }

  function VisibilityText(v: Visibility): string {
    if v.Private? then "" else "pub" + ((if v.scope.None? then "" else "(" + (v.scope.value + ")")) + v.gap)
  }

  function TreeText(gap: string, tree: string): string {
    "use" + (gap + (tree + ";"))
  }

  function CoreText(item: Item): string {
    AttributesText(item.attrs) + (VisibilityText(item.vis) + TreeText(item.gap, item.tree))
  }

  function WholeText(item: Item): string {
    CommentsText(item.comments) + (item.pad + (CoreText(item) + item.tail))
  }

  ghost predicate GoodComment(c: Comment) {
    && AllSpace(c.pad)
    && match c
       case LineComment(_, body) => '\n' !in body
       case BlockComment(_, body) => forall i :: 0 <= i < |body| ==> (body + "*/")[i] != '*' || (body + "*/")[i + 1] != '/'
  }

  ghost predicate GoodAttribute(a: Attribute) {
    ']' !in a.body && AllSpace(a.gap)
  }

  ghost predicate GoodVisibility(v: Visibility) {
    v.Public? ==> AllSpace(v.gap) && v.gap != "" && (v.scope.Some? ==> ')' !in v.scope.value)
  }

  ghost predicate GoodTree(gap: string, tree: string) {
    AllSpace(gap) && gap != "" && (tree == "" || !IsSpace(tree[0]))
  }

  ghost predicate GoodItem(item: Item) {
    && (forall i :: 0 <= i < |item.comments| ==> GoodComment(item.comments[i])) && AllSpace(item.pad)
    && (forall i :: 0 <= i < |item.attrs| ==> GoodAttribute(item.attrs[i])) && GoodVisibility(item.vis)
    && GoodTree(item.gap, item.tree) && AllSpace(item.tail)
  }

  // ----- pieces of text -----

  lemma StartsWith(p: string, rest: string)
    ensures p <= p + rest && (p + rest)[..|p|] == p && (p + rest)[|p|..] == rest
  {
  }

  lemma Cut(t: string, p: string, n: nat, mark: string)
    requires p <= t && |p| <= n && n + |mark| <= |t| && t[n..n + |mark|] == mark
    ensures t == p + (t[|p|..n] + (mark + t[n + |mark|..]))
  {
    assert t[..|p|] == p;
    assert t == t[..|p|] + (t[|p|..n] + (t[n..n + |mark|] + t[n + |mark|..]));
  }

  lemma Whole(p: string, t: string)
    requires p <= t
    ensures t == p + t[|p|..]
  {
  }

  lemma FirstOf(p: string, rest: string, c: char)
    requires c !in p
    ensures IndexOf(p + ([c] + rest), c) == |p| && (p + ([c] + rest))[|p| + 1..] == rest
  {
    var u := p + ([c] + rest);
    assert forall i :: 0 <= i < |p| ==> u[i] == p[i];
    assert u[|p|] == c;
    IndexOfIs(u, c, |p|);
  }

  lemma NotBefore(s: string, i: nat, n: nat, c: char)
    requires i <= n <= |s| && forall k :: i <= k < n ==> s[k] != c
    ensures c !in s[i..n]
  {
  }

  lemma SplitAt(s: string, n: nat)
    requires n < |s|
    ensures s == s[..n] + ([s[n]] + s[n + 1..])
  {
  }

  lemma SplitFirst(s: string, c: char) returns (before: string, behind: string)
    requires IndexOf(s, c) < |s|
    ensures c !in before && |before| == IndexOf(s, c) && behind == s[IndexOf(s, c) + 1..] && s == before + ([c] + behind)
  {
    hide IndexOf;
    var n := IndexOf(s, c);
    before, behind := s[..n], s[n + 1..];
    NotBefore(s, 0, n, c);
    SplitAt(s, n);
  }

  lemma FirstTwo(a: char, b: char, t: string)
    requires [a, b] <= t
    ensures |t| >= 2 && t[0] == a && t[1] == b
  {
    assert t[..2] == [a, b];
    assert t[0] == t[..2][0] && t[1] == t[..2][1];
  }

  // ----- blanks -----

  lemma SpacesThen(w: string, s: string)
    requires AllSpace(w) && (s == "" || !IsSpace(s[0]))
    ensures SpaceRun(w + s) == |w| && (w + s)[SpaceRun(w + s)..] == s
  {
    hide IsSpace;
    var u := w + s;
    assert forall i :: 0 <= i < |w| ==> u[i] == w[i];
    assert s != "" ==> u[|w|] == s[0];
    SpaceRunIs(u, |w|);
  }

  lemma SpacesSplit(s: string)
    ensures AllSpace(s[..SpaceRun(s)]) && s == s[..SpaceRun(s)] + s[SpaceRun(s)..]
    ensures s[SpaceRun(s)..] == "" || !IsSpace(s[SpaceRun(s)..][0])
  {
    hide IsSpace;
  }

  lemma SplitBlanks(s: string) returns (blanks: string, rest: string)
    ensures AllSpace(blanks) && |blanks| == SpaceRun(s) && rest == s[SpaceRun(s)..] && s == blanks + rest
    ensures rest == "" || !IsSpace(rest[0])
  {
    SpacesSplit(s);
    hide IsSpace, SpaceRun, AllSpace;
    blanks, rest := s[..SpaceRun(s)], s[SpaceRun(s)..];
  }

  lemma {:induction false} TrimSplits(s: string)
    ensures AllSpace(s[TrimEnd(s)..])
  {
    hide IsSpace;
    if s != "" && IsSpace(s[|s| - 1]) {
      TrimSplits(s[..|s| - 1]);
      var n := TrimEnd(s);
      assert s[n..] == s[..|s| - 1][n..] + [s[|s| - 1]];
    }
  }

  lemma {:induction false} TrimOf(s: string, tail: string)
    requires s != "" && !IsSpace(s[|s| - 1]) && AllSpace(tail)
    ensures TrimEnd(s + tail) == |s|
  {
    hide IsSpace;
    if tail == "" {
      assert s + tail == s;
    } else {
      var short := tail[..|tail| - 1];
      assert (s + tail)[..|s + tail| - 1] == s + short;
      TrimOf(s, short);
    }
  }

  lemma StripOf(pad: string, s: string, tail: string)
    requires AllSpace(pad) && AllSpace(tail) && s != "" && !IsSpace(s[0]) && !IsSpace(s[|s| - 1])
    ensures Strip(pad + (s + tail)) == s
  {
    hide IsSpace, SpaceRun, TrimEnd;
    assert (s + tail)[0] == s[0];
    SpacesThen(pad, s + tail);
    TrimOf(s, tail);
    assert (s + tail)[..|s|] == s;
  }

  lemma StripSplits(s: string) returns (pad: string, tail: string)
    ensures AllSpace(pad) && AllSpace(tail) && s == pad + (Strip(s) + tail)
  {
    SpacesSplit(s);
    var t := s[SpaceRun(s)..];
    pad, tail := s[..SpaceRun(s)], t[TrimEnd(t)..];
    TrimSplits(t);
    hide IsSpace, SpaceRun, TrimEnd;
    assert t == t[..TrimEnd(t)] + t[TrimEnd(t)..];
  }

  // ----- comments -----

  lemma {:induction false} CloseCommentIs(s: string, from: nat, n: nat)
    requires from <= n && n + 2 <= |s| && s[n] == '*' && s[n + 1] == '/'
    requires forall i :: from <= i < n ==> s[i] != '*' || s[i + 1] != '/'
    ensures CloseComment(s, from) == n
    decreases n - from
  {
    if from < n {
      CloseCommentIs(s, from + 1, n);
    }
  }

  lemma {:induction false} CloseCommentSplits(s: string, from: nat)
    requires from <= |s| && CloseComment(s, from) < |s|
    ensures var n := CloseComment(s, from); n + 2 <= |s| && s[n] == '*' && s[n + 1] == '/'
    ensures forall i :: from <= i < CloseComment(s, from) ==> s[i] != '*' || s[i + 1] != '/'
    decreases |s| - from
  {
    if from + 2 <= |s| && !(s[from] == '*' && s[from + 1] == '/') {
      CloseCommentSplits(s, from + 1);
    }
  }

  lemma DropFirst(pad: string, t: string)
    requires AllSpace(pad) && t != "" && !IsSpace(t[0]) && FirstComment(t) > 0
    ensures DropComments(pad + t) == DropComments(t[FirstComment(t)..])
  {
    hide IsSpace, SpaceRun, FirstComment;
    SpacesThen(pad, t);
  }

  lemma LineLength(t: string)
    requires "//" <= t && IndexOf(t, '\n') < |t|
    ensures FirstComment(t) == IndexOf(t, '\n') + 1 && !IsSpace(t[0])
  {
    hide IndexOf, CloseComment;
    UseIsNoSpace();
    FirstTwo('/', '/', t);
  }

  lemma BlockLength(t: string)
    requires "/*" <= t && CloseComment(t, 2) < |t|
    ensures FirstComment(t) == CloseComment(t, 2) + 2 && !IsSpace(t[0])
  {
    hide IndexOf, CloseComment;
    UseIsNoSpace();
    FirstTwo('/', '*', t);
  }

  /** One comment in front is dropped. */
  lemma DropsOne(c: Comment, rest: string)
    requires GoodComment(c)
    ensures DropComments(CommentText(c) + rest) == DropComments(rest)
  {
    hide DropComments, IsSpace, IndexOf, CloseComment, FirstComment;
    match c
    case LineComment(pad, body) =>
      var t := "//" + body + (['\n'] + rest);
      assert CommentText(c) + rest == pad + t;
      StartsWith("//", body + (['\n'] + rest));
      assert t == "//" + (body + (['\n'] + rest));
      FirstOf("//" + body, rest, '\n');
      LineLength(t);
      DropFirst(pad, t);
    case BlockComment(pad, body) =>
      var t := "/*" + (body + ("*/" + rest));
      assert CommentText(c) + rest == pad + t;
      StartsWith("/*", body + ("*/" + rest));
      BlockCloses(body, rest);
      BlockLength(t);
      DropFirst(pad, t);
      BehindBlock(body, rest);
  }

  lemma BehindBlock(body: string, rest: string)
    ensures ("/*" + (body + ("*/" + rest)))[|body| + 4..] == rest
  {
  }

  lemma BlockCloses(body: string, rest: string)
    requires GoodComment(BlockComment("", body))
    ensures CloseComment("/*" + (body + ("*/" + rest)), 2) == |body| + 2
  {
    var t, b := "/*" + (body + ("*/" + rest)), body + "*/";
    InBlock(body, rest);
    forall i | 2 <= i < |body| + 2 ensures t[i] != '*' || t[i + 1] != '/' {
      assert b[i - 2] != '*' || b[i - 2 + 1] != '/';
    }
    CloseCommentIs(t, 2, |body| + 2);
  }

  lemma InBlock(body: string, rest: string)
    ensures var t, b := "/*" + (body + ("*/" + rest)), body + "*/";
      (forall i :: 2 <= i < |b| + 2 ==> t[i] == b[i - 2]) && b[|body|] == '*' && b[|body| + 1] == '/'
  {
  }

  lemma {:induction false} DropsAll(cs: seq<Comment>, pad: string, rest: string)
    requires (forall i :: 0 <= i < |cs| ==> GoodComment(cs[i])) && AllSpace(pad) && rest != "" && !IsSpace(rest[0]) && rest[0] != '/'
    ensures DropComments(CommentsText(cs) + (pad + rest)) == pad + rest
  {
    hide GoodComment, CommentText;
    if cs == [] {
      assert CommentsText(cs) + (pad + rest) == pad + rest;
      SpacesThen(pad, rest);
      hide IsSpace, SpaceRun, IndexOf;
      assert !("//" <= rest) && !("/*" <= rest);
    } else {
      assert CommentsText(cs) + (pad + rest) == CommentText(cs[0]) + (CommentsText(cs[1..]) + (pad + rest));
      DropsOne(cs[0], CommentsText(cs[1..]) + (pad + rest));
      DropsAll(cs[1..], pad, rest);
    }
  }

  lemma {:induction false} CommentsDenote(s: string) returns (cs: seq<Comment>)
    ensures (forall i :: 0 <= i < |cs| ==> GoodComment(cs[i])) && s == CommentsText(cs) + DropComments(s)
    decreases |s|
  {
    hide IsSpace, SpaceRun, FirstComment, AllSpace, GoodComment, CommentText, DropComments;
    var pad, t := SplitBlanks(s);
    if FirstComment(t) == 0 {
      cs := [];
      NoComment(s);
    } else {
      var rest := t[FirstComment(t)..];
      DropFirst(pad, t);
      var c := FirstDenotes(pad, t);
      var more := CommentsDenote(rest);
      cs := [c] + more;
      Joined(c, more, rest, s);
    }
  }

  lemma NoComment(s: string)
    requires FirstComment(s[SpaceRun(s)..]) == 0
    ensures s == CommentsText([]) + DropComments(s)
  {
    hide IsSpace, SpaceRun, FirstComment;
  }

  lemma FirstDenotes(pad: string, t: string) returns (c: Comment)
    requires AllSpace(pad) && FirstComment(t) > 0
    ensures GoodComment(c) && pad + t == CommentText(c) + t[FirstComment(t)..]
  {
    hide AllSpace, GoodComment, CommentText, IndexOf, CloseComment;
    if "//" <= t && IndexOf(t, '\n') < |t| {
      LineLength(t);
      hide FirstComment;
      c := LineDenotes(pad, t);
    } else {
      BlockLength(t);
      hide FirstComment;
      c := BlockDenotes(pad, t);
    }
  }

  lemma LineDenotes(pad: string, t: string) returns (c: Comment)
    requires AllSpace(pad) && "//" <= t && IndexOf(t, '\n') < |t|
    ensures GoodComment(c) && pad + t == CommentText(c) + t[IndexOf(t, '\n') + 1..]
  {
    hide IndexOf, AllSpace;
    var n := IndexOf(t, '\n');
    LineSplits(t, n);
    c := LineComment(pad, t[2..n]);
    Regroup(pad, "//", t[2..n], "\n", t[n + 1..]);
  }

  lemma BlockDenotes(pad: string, t: string) returns (c: Comment)
    requires AllSpace(pad) && "/*" <= t && CloseComment(t, 2) < |t|
    ensures GoodComment(c) && pad + t == CommentText(c) + t[CloseComment(t, 2) + 2..]
  {
    hide CloseComment, IsSpace;
    var n := CloseComment(t, 2);
    BlockSplits(t, n);
    c := BlockComment(pad, t[2..n]);
    Regroup(pad, "/*", t[2..n], "*/", t[n + 2..]);
  }

  lemma Regroup(a: string, b: string, c: string, d: string, e: string)
    ensures a + (b + (c + (d + e))) == a + (b + (c + d)) + e
  {
  }

  lemma Joined(c: Comment, more: seq<Comment>, rest: string, s: string)
    requires s == CommentText(c) + rest && rest == CommentsText(more) + DropComments(rest)
    ensures s == CommentsText([c] + more) + DropComments(rest)
  {
    hide CommentText, DropComments;
    assert ([c] + more)[1..] == more;
  }

  lemma LineSplits(t: string, n: nat)
    requires "//" <= t && n == IndexOf(t, '\n') < |t|
    ensures 2 <= n && t == "//" + (t[2..n] + ("\n" + t[n + 1..])) && '\n' !in t[2..n]
  {
    hide IndexOf;
    FirstTwo('/', '/', t);
    assert t[n] == '\n' && n != 0 && n != 1;
    NotBefore(t, 2, n, '\n');
    OneChar(t, n);
    Cut(t, "//", n, "\n");
  }

  lemma OneChar(t: string, n: nat)
    requires n < |t|
    ensures t[n..n + 1] == [t[n]]
  {
  }

  lemma TwoChars(t: string, n: nat)
    requires n + 2 <= |t|
    ensures t[n..n + 2] == [t[n], t[n + 1]]
  {
  }

  lemma BlockSplits(t: string, n: nat)
    requires "/*" <= t && n == CloseComment(t, 2) < |t|
    ensures n + 2 <= |t| && t == "/*" + (t[2..n] + ("*/" + t[n + 2..])) && GoodComment(BlockComment("", t[2..n]))
  {
    hide CloseComment, GoodComment;
    CloseCommentSplits(t, 2);
    TwoChars(t, n);
    Cut(t, "/*", n, "*/");
    BodyCloses(t, t[2..n], n);
  }

  lemma BodyCloses(t: string, body: string, n: nat)
    requires 2 <= n && n + 2 <= |t| && body == t[2..n] && t[n..n + 2] == "*/"
    requires forall i :: 2 <= i < n ==> t[i] != '*' || t[i + 1] != '/'
    ensures GoodComment(BlockComment("", body))
  {
    var b := body + "*/";
    assert b == t[2..n + 2];
    forall i | 0 <= i < |body| ensures b[i] != '*' || b[i + 1] != '/' {
      assert t[i + 2] != '*' || t[i + 2 + 1] != '/';
    }
  }

  // ----- attributes -----

  lemma OneAttribute(a: Attribute, rest: string)
    requires GoodAttribute(a) && (rest == "" || !IsSpace(rest[0]))
    ensures var s := "#[" + (a.body + ("]" + a.gap)) + rest;
      Attr(s) == |a.body| + 3 + |a.gap| && s[Attr(s)..] == rest
  {
    var s := "#[" + (a.body + ("]" + a.gap)) + rest;
    var inner := a.body + ("]" + (a.gap + rest));
    assert s == "#[" + inner && s[..2] == "#[" && s[2..] == inner;
    assert forall i :: 0 <= i < |a.body| ==> inner[i] == a.body[i];
    assert inner[|a.body|] == ']';
    IndexOfIs(inner, ']', |a.body|);
    var close := 2 + |a.body|;
    assert s[close + 1..] == a.gap + rest;
    SpacesThen(a.gap, rest);
    hide IsSpace, SpaceRun, IndexOf;
  }

  lemma {:induction false} AttributesAreRead(attrs: seq<Attribute>, rest: string)
    requires (forall i :: 0 <= i < |attrs| ==> GoodAttribute(attrs[i])) && StartsWord(rest)
    ensures Attrs(AttributesText(attrs) + rest) == |AttributesText(attrs)|
  {
    if attrs == [] {
      assert AttributesText(attrs) + rest == rest;
    } else {
      var more := AttributesText(attrs[1..]) + rest;
      assert AttributesText(attrs) + rest == "#[" + (attrs[0].body + ("]" + attrs[0].gap)) + more;
      AttributesStart(attrs[1..], rest);
      OneAttribute(attrs[0], more);
      hide Attr, IsSpace;
      AttributesAreRead(attrs[1..], rest);
    }
  }

  lemma AttributesStart(attrs: seq<Attribute>, rest: string)
    requires StartsWord(rest)
    ensures var s := AttributesText(attrs) + rest; s != "" && !IsSpace(s[0])
  {
    if attrs != [] {
      var s := AttributesText(attrs) + rest;
      assert s[0] == '#';
    } else {
      assert AttributesText(attrs) + rest == rest;
    }
  }

  lemma AttrSplits(s: string) returns (a: Attribute)
    requires Attr(s) > 0
    ensures GoodAttribute(a) && s[..Attr(s)] == "#[" + (a.body + ("]" + a.gap))
  {
    AttrShape(s);
    hide Attr, IsSpace, SpaceRun, IndexOf;
    var inner := s[2..];
    var body, behind := SplitFirst(inner, ']');
    var gap, rest := SplitBlanks(behind);
    hide AllSpace;
    a := Attribute(body, gap);
    TakenPart(s, inner, body, gap, rest);
  }

  lemma TakenPart(s: string, inner: string, body: string, gap: string, rest: string)
    requires s == "#[" + inner && inner == body + ([']'] + (gap + rest))
    ensures s[..|body| + 3 + |gap|] == "#[" + (body + ("]" + gap))
  {
    assert s == "#[" + (body + ("]" + gap)) + rest;
  }

  lemma AttrShape(s: string)
    requires Attr(s) > 0
    ensures |s| >= 2 && s == "#[" + s[2..]
    ensures var n := IndexOf(s[2..], ']'); n < |s[2..]| && Attr(s) == n + 3 + SpaceRun(s[2..][n + 1..])
  {
    hide IsSpace, SpaceRun, IndexOf;
    Whole("#[", s);
    var n := IndexOf(s[2..], ']');
    assert n < |s[2..]| ==> s[2 + n + 1..] == s[2..][n + 1..];
  }

  lemma {:induction false} AttributesDenote(s: string) returns (attrs: seq<Attribute>)
    ensures (forall i :: 0 <= i < |attrs| ==> GoodAttribute(attrs[i])) && s[..Attrs(s)] == AttributesText(attrs)
    decreases |s|
  {
    hide Attr, GoodAttribute;
    var n := Attr(s);
    if n == 0 {
      attrs := [];
    } else {
      var a := AttrSplits(s);
      var more := AttributesDenote(s[n..]);
      attrs := [a] + more;
      assert attrs[1..] == more && attrs[0] == a;
      assert s[..Attrs(s)] == s[..n] + s[n..][..Attrs(s[n..])];
    }
  }

  // ----- visibility and tree -----

  lemma VisibilityIsRead(v: Visibility, rest: string)
    requires GoodVisibility(v) && "use" <= rest
    ensures Vis(VisibilityText(v) + rest) == Some(|VisibilityText(v)|)
  {
    UseIsNoSpace();
    UseNotPub(rest);
    hide IsSpace, AllSpace, Vis;
    if v.Private? {
      PrivateIsRead(rest);
    } else if v.scope.None? {
      PublicText(v.gap, rest);
      PublicIsRead(v.gap, rest);
    } else {
      ScopedText(v.scope.value, v.gap, rest);
      ScopedIsRead(v.scope.value, v.gap, rest);
    }
  }

  lemma PrivateIsRead(rest: string)
    requires !("pub" <= rest)
    ensures "" + rest == rest && Vis(rest) == Some(0)
  {
    hide IndexOf, SpaceRun;
  }

  lemma UseNotPub(rest: string)
    requires "use" <= rest
    ensures |rest| >= 3 && rest[0] == 'u' && !("pub" <= rest)
  {
    assert rest[0] == rest[..3][0];
  }

  lemma PublicText(gap: string, rest: string)
    ensures "pub" + ("" + gap) + rest == "pub" + (gap + rest) && |"pub" + ("" + gap)| == 3 + |gap|
  {
  }

  lemma ScopedText(scope: string, gap: string, rest: string)
    ensures "pub" + (("(" + (scope + ")")) + gap) + rest == "pub" + ("(" + scope + ([')'] + (gap + rest)))
  {
  }

  lemma PublicIsRead(gap: string, rest: string)
    requires AllSpace(gap) && gap != "" && rest != "" && !IsSpace(rest[0])
    ensures Vis("pub" + (gap + rest)) == Some(3 + |gap|)
  {
    var s := "pub" + (gap + rest);
    StartsWith("pub", gap + rest);
    assert s[3] == s[3..][0] == gap[0] && gap[0] != '(';
    SpacesThen(gap, rest);
    hide IsSpace, SpaceRun, IndexOf;
  }

  lemma ScopedIsRead(scope: string, gap: string, rest: string)
    requires ')' !in scope && AllSpace(gap) && gap != "" && rest != "" && !IsSpace(rest[0])
    ensures Vis("pub" + ("(" + scope + ([')'] + (gap + rest)))) == Some(3 + |scope| + 2 + |gap|)
  {
    var behind := gap + rest;
    var paren := "(" + scope + ([')'] + behind);
    var s := "pub" + paren;
    hide Vis, IndexOf, SpaceRun, IsSpace;
    StartsWith("pub", paren);
    FirstOf("(" + scope, behind, ')');
    SpacesThen(gap, rest);
    hide AllSpace;
    ScopedRun(s, paren, |scope| + 1, |gap|);
  }

  lemma ScopedRun(s: string, paren: string, n: nat, m: nat)
    requires "pub" <= s && s[3..] == paren && |paren| > 0 && paren[0] == '(' && n == IndexOf(paren, ')') < |paren|
    requires m == SpaceRun(paren[n + 1..])
    ensures Vis(s) == if m == 0 then None else Some(3 + n + 1 + m)
  {
    hide IsSpace, SpaceRun, IndexOf;
    assert s[3] == paren[0];
    assert s[3 + n + 1..] == paren[n + 1..];
  }

  lemma VisibilityDenotes(s: string) returns (v: Visibility)
    requires Vis(s).Some?
    ensures GoodVisibility(v) && s[..Vis(s).value] == VisibilityText(v)
  {
    hide IsSpace, SpaceRun, IndexOf;
    if !("pub" <= s) {
      v := Private;
    } else if |s| > 3 && s[3] == '(' {
      v := ScopedDenotes(s);
    } else {
      var gap, rest := SplitBlanks(s[3..]);
      hide AllSpace;
      v := Public(None, gap);
      PublicPart(s, gap, rest);
    }
  }

  lemma PublicPart(s: string, gap: string, rest: string)
    requires "pub" <= s && s[3..] == gap + rest
    ensures s[..3 + |gap|] == "pub" + ("" + gap)
  {
    Whole("pub", s);
    assert s == "pub" + gap + rest;
  }

  lemma ScopedDenotes(s: string) returns (v: Visibility)
    requires "pub" <= s && |s| > 3 && s[3] == '(' && Vis(s).Some?
    ensures GoodVisibility(v) && s[..Vis(s).value] == VisibilityText(v)
  {
    var paren := s[3..];
    ScopedCloses(s);
    hide IsSpace, SpaceRun, IndexOf;
    var opening, behind := SplitFirst(paren, ')');
    var gap, rest := SplitBlanks(behind);
    hide AllSpace;
    ScopedRun(s, paren, |opening|, |gap|);
    hide Vis;
    var scope := opening[1..];
    ScopedPart(s, paren, opening, gap, rest);
    v := Public(Some(scope), gap);
  }

  lemma ScopedPart(s: string, paren: string, opening: string, gap: string, rest: string)
    requires "pub" <= s && paren == s[3..] && paren == opening + ([')'] + (gap + rest)) && opening != "" && paren[0] == '('
    ensures s[..3 + |opening| + 1 + |gap|] == "pub" + (("(" + (opening[1..] + ")")) + gap)
    ensures ')' !in opening ==> ')' !in opening[1..]
  {
    Whole("pub", s);
    assert opening == "(" + opening[1..];
    ScopedText(opening[1..], gap, rest);
  }

  lemma ScopedCloses(s: string)
    requires |s| > 3 && s[3] == '(' && "pub" <= s && Vis(s).Some?
    ensures var n := IndexOf(s[3..], ')'); 0 < n < |s[3..]|
  {
    assert s[3..][0] == '(';
    hide IsSpace, SpaceRun, IndexOf;
  }

  lemma TreeIsTaken(gap: string, tree: string)
    requires GoodTree(gap, tree)
    ensures TreeOf(TreeText(gap, tree)) == Some(tree)
  {
    var s, rest := TreeText(gap, tree), tree + ";";
    UseIsNoSpace();
    assert rest[0] == if tree == "" then ';' else tree[0];
    assert s[..3] == "use" && s[3..] == gap + rest;
    SpacesThen(gap, rest);
    hide IsSpace, SpaceRun;
    assert s[3 + |gap|..] == rest && rest[..|tree|] == tree;
  }

  lemma TreeDenotes(s: string) returns (gap: string)
    requires TreeOf(s).Some?
    ensures GoodTree(gap, TreeOf(s).value) && s == TreeText(gap, TreeOf(s).value)
  {
    hide IsSpace, SpaceRun;
    var rest;
    gap, rest := SplitBlanks(s[3..]);
    hide AllSpace;
    TreeRest(s, gap, rest);
    hide TreeOf;
    Whole("use", s);
    var tree := TreeOf(s).value;
    assert tree != "" ==> tree[0] == rest[0];
  }

  lemma TreeRest(s: string, gap: string, rest: string)
    requires TreeOf(s).Some? && |gap| == SpaceRun(s[3..]) && s[3..] == gap + rest
    ensures gap != "" && rest == TreeOf(s).value + ";"
  {
    hide SpaceRun;
    assert s[3 + |gap|..] == s[3..][|gap|..] == rest;
  }

  // ----- the grammar is exact -----

  lemma CoreStarts(item: Item)
    requires GoodItem(item)
    ensures var s := CoreText(item); s != "" && !IsSpace(s[0]) && s[0] != '/' && !IsSpace(s[|s| - 1])
    ensures StartsWord(VisibilityText(item.vis) + TreeText(item.gap, item.tree)) && "use" <= TreeText(item.gap, item.tree)
  {
    UseIsNoSpace();
    var tree := TreeText(item.gap, item.tree);
    var rest := VisibilityText(item.vis) + tree;
    assert tree[..3] == "use" && tree[0] == 'u' && tree[|tree| - 1] == ';';
    assert rest[0] == if item.vis.Private? then 'u' else 'p';
    var s := CoreText(item);
    assert s[0] == if item.attrs == [] then rest[0] else '#';
    assert s[|s| - 1] == ';';
  }

  lemma HeaderOfCore(item: Item)
    requires GoodItem(item) && Strip(DropComments(WholeText(item))) == CoreText(item)
    ensures ReadHeader(WholeText(item)) == Some(Header(AttributesText(item.attrs), VisibilityText(item.vis), item.tree))
  {
    hide Strip, DropComments, Attrs, Vis, TreeOf, AttributesText, VisibilityText, TreeText, WholeText, StartsWord, IsSpace;
    CoreStarts(item);
    var a, v, rest := AttributesText(item.attrs), VisibilityText(item.vis), TreeText(item.gap, item.tree);
    AttributesAreRead(item.attrs, v + rest);
    VisibilityIsRead(item.vis, rest);
    TreeIsTaken(item.gap, item.tree);
    hide GoodItem;
    Pieces(a, v, rest);
  }

  lemma Pieces(a: string, v: string, rest: string)
    ensures var s := a + (v + rest);
      s[|a|..] == v + rest && s[|a| + |v|..] == rest && s[..|a|] == a && s[|a|..|a| + |v|] == v
  {
  }

  /** Every item of the grammar is taken apart as it was put together. */
  lemma ItemIsRead(item: Item)
    requires GoodItem(item)
    ensures ReadHeader(WholeText(item)) == Some(Header(AttributesText(item.attrs), VisibilityText(item.vis), item.tree))
  {
    CoreStarts(item);
    var core := CoreText(item);
    hide ReadHeader, IsSpace, CoreText, GoodComment, GoodAttribute, GoodVisibility, GoodTree, CommentsText;
    assert (core + item.tail)[0] == core[0];
    DropsAll(item.comments, item.pad, core + item.tail);
    StripOf(item.pad, core, item.tail);
    HeaderOfCore(item);
  }

  /** And whatever is taken apart is such an item. */
  lemma ItemDenotes(text: string) returns (item: Item)
    requires ReadHeader(text).Some?
    ensures GoodItem(item) && text == WholeText(item)
    ensures ReadHeader(text).value == Header(AttributesText(item.attrs), VisibilityText(item.vis), item.tree)
  {
    hide IsSpace, AllSpace, GoodComment, GoodAttribute, GoodVisibility, GoodTree, Attrs, Vis, TreeOf, Strip, DropComments;
    var s := Strip(DropComments(text));
    var a := Attrs(s);
    var n := Vis(s[a..]).value;
    var attrs, vis, gap := CoreDenotes(s, a, n);
    var comments := CommentsDenote(text);
    var pad, tail := StripSplits(DropComments(text));
    item := Item(comments, pad, attrs, vis, gap, TreeOf(s[a + n..]).value, tail);
    hide CommentsText, AttributesText, VisibilityText, TreeText;
  }

  lemma CoreDenotes(s: string, a: nat, n: nat) returns (attrs: seq<Attribute>, vis: Visibility, gap: string)
    requires a == Attrs(s) && Vis(s[a..]) == Some(n) && TreeOf(s[a + n..]).Some?
    ensures (forall i :: 0 <= i < |attrs| ==> GoodAttribute(attrs[i])) && GoodVisibility(vis) && GoodTree(gap, TreeOf(s[a + n..]).value)
    ensures s[..a] == AttributesText(attrs) && s[a..a + n] == VisibilityText(vis)
    ensures s == AttributesText(attrs) + (VisibilityText(vis) + TreeText(gap, TreeOf(s[a + n..]).value))
  {
    hide GoodAttribute, GoodVisibility, GoodTree, Attrs, Vis, TreeOf, AttributesText, VisibilityText, TreeText;
    attrs := AttributesDenote(s);
    vis := VisibilityDenotes(s[a..]);
    gap := TreeDenotes(s[a + n..]);
    Slices(s, a, n);
  }

  lemma Slices(s: string, a: nat, n: nat)
    requires a + n <= |s|
    ensures s[a..][..n] == s[a..a + n] && s == s[..a] + (s[a..a + n] + s[a + n..])
  {
  }

  ghost predicate IsHeader(text: string, header: Header, item: Item) {
    GoodItem(item) && text == WholeText(item) && header == Header(AttributesText(item.attrs), VisibilityText(item.vis), item.tree)
  }

  /** `use_paths` recognises a `use` item if and only if it is one of the grammar, with exactly its attributes, visibility and tree. */
  lemma HeaderExactly(text: string, header: Header)
    ensures ReadHeader(text) == Some(header) <==> exists item :: IsHeader(text, header, item)
  {
    hide ReadHeader, GoodItem, WholeText;
    if ReadHeader(text) == Some(header) {
      var item := ItemDenotes(text);
      assert IsHeader(text, header, item);
    }
    forall item | IsHeader(text, header, item) ensures ReadHeader(text) == Some(header) {
      ItemIsRead(item);
    }
  }

  ghost predicate IsItem(text: string, parsed: Parsed, item: Item, t: Syntax, tail: string) {
    IsHeader(text, Header(parsed.attrs, parsed.vis, item.tree), item) && IsRead(item.tree, parsed.paths, t, tail)
  }

  /** `use_paths` reads a text if and only if it is such an item over a tree of the grammar, and gives exactly its parts and paths. */
  lemma ItemExactly(text: string, parsed: Parsed)
    ensures ItemPaths(text) == Some(parsed) <==> exists item, t, tail :: IsItem(text, parsed, item, t, tail)
  {
    hide ReadHeader, UsePaths, IsRead;
    if ItemPaths(text) == Some(parsed) {
      var header := ReadHeader(text).value;
      HeaderExactly(text, header);
      UsePathsExactly(header.tree, parsed.paths);
      var item :| IsHeader(text, header, item);
      var t, tail :| IsRead(header.tree, parsed.paths, t, tail);
      assert IsItem(text, parsed, item, t, tail);
    }
    forall item, t, tail | IsItem(text, parsed, item, t, tail) ensures ItemPaths(text) == Some(parsed) {
      HeaderExactly(text, Header(parsed.attrs, parsed.vis, item.tree));
      UsePathsExactly(item.tree, parsed.paths);
    }
  }
}
