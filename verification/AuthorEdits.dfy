/**
 * The source-preserving edits of src/agent_author.rs: `insert_node` puts an authored node into a
 * declaration, `remove_field` takes a node out again. Offsets count characters; node spans come
 * from the KDL parser and exclude leading trivia and the terminator.
 */
module AuthorEdits {

  datatype Option<+T> = None | Some(value: T)

  /** Blanks that never end a line. */
  predicate IsBlank(c: char) {
    c == ' ' || c == '\t'
  }

  /** Unicode White_Space, which `trim_end` removes. */
  predicate IsSpace(c: char) {
    || 9 as char <= c <= 13 as char || c == ' ' || c == 0x85 as char || c == 0xA0 as char || c == 0x1680 as char
    || 0x2000 as char <= c <= 0x200A as char || c == 0x2028 as char || c == 0x2029 as char
    || c == 0x202F as char || c == 0x205F as char || c == 0x3000 as char
  }

  /** ASCII white space other than line ends, which `remove_field` takes along after a terminator. */
  predicate IsGap(c: char) {
    c == ' ' || c == '\t' || c == 12 as char
  }

  /** Start of the line that holds position `pos`. */
  function LineStart(text: string, pos: nat): (r: nat)
    requires pos <= |text|
    ensures r <= pos && (forall i :: r <= i < pos ==> text[i] != '\n') && (r == 0 || text[r - 1] == '\n')
  {
    if pos == 0 || text[pos - 1] == '\n' then pos else LineStart(text, pos - 1)
  }

  /** The next line end at or after `pos`, or the end of the text. */
  function LineEnd(text: string, pos: nat): (r: nat)
    requires pos <= |text|
    ensures pos <= r <= |text| && (forall i :: pos <= i < r ==> text[i] != '\n') && (r == |text| || text[r] == '\n')
    decreases |text| - pos
  {
    if pos == |text| || text[pos] == '\n' then pos else LineEnd(text, pos + 1)
  }

  /** Length of `s` without its trailing characters in `p`. */
  function TrimEnd(s: string, p: char -> bool): (n: nat)
    ensures n <= |s| && (forall i :: n <= i < |s| ==> p(s[i])) && (n > 0 ==> !p(s[n - 1]))
  {
    if s == "" || !p(s[|s| - 1]) then |s| else TrimEnd(s[..|s| - 1], p)
  }

  /** Number of leading characters of `s` in `p`. */
  function Skip(s: string, p: char -> bool): (n: nat)
    ensures n <= |s| && (forall i :: 0 <= i < n ==> p(s[i])) && (n < |s| ==> !p(s[n]))
  {
    if s == "" || !p(s[0]) then 0 else 1 + Skip(s[1..], p)
  }

  predicate AllBlank(s: string) {
    forall i :: 0 <= i < |s| ==> IsBlank(s[i])
  }

  predicate AllBlankOrReturn(s: string) {
    forall i :: 0 <= i < |s| ==> IsBlank(s[i]) || s[i] == '\r'
  }

  /** `is_line_tail_trivia`: blanks, then nothing or a line comment. */
  predicate IsLineTailTrivia(tail: string) {
    var rest := tail[Skip(tail, c => IsBlank(c) || c == '\r')..];
    rest == "" || "//" <= rest
  }

  /** `line_indent`: the blanks before `offset`, if nothing else is there. */
  function LineIndent(text: string, offset: nat): (r: Option<string>)
    ensures r.Some? ==> AllBlank(r.value)
  {
    if offset > |text| then None
    else
      var indent := text[LineStart(text, offset)..offset];
      if AllBlank(indent) then Some(indent) else None
  }

  /** `None` for a node without a child block; otherwise where the first child starts, if there is one. */
  type Children = Option<Option<nat>>

  /** Where `insert_node` inserts, and the text before and after the authored node. */
  datatype Insertion = Insertion(at: nat, before: string, after: string)

  /** The branch `insert_node` takes for the node at `start..end`; `None` stands for its refusals. */
  function PlanInsert(text: string, start: nat, end: nat, children: Children): (r: Option<Insertion>)
    ensures r.Some? ==> r.value.at <= |text|
  {
    if !(start <= end <= |text|) then None
    else if children.None? then Some(Insertion(end, " { ", " }"))
    else if start == end || text[end - 1] != '}' then None
    else
      var close := end - 1;
      var lineStart := LineStart(text, close);
      if lineStart > start then
        var closingIndent := text[lineStart..close];
        if !AllBlank(closingIndent) then None
        else
          var own := if children.value.Some? then LineIndent(text, children.value.value) else None;
          Some(Insertion(lineStart, if own.Some? then own.value else closingIndent + "  ", "\n"))
      else
        var trimmed := TrimEnd(text[start..close], IsSpace);
        var at := start + trimmed;
        if trimmed > 0 && text[at - 1] == '{' then Some(Insertion(at, " ", ""))
        else if trimmed > 0 && text[at - 1] == ';' then Some(Insertion(at, " ", ";"))
        else Some(Insertion(at, "; ", ""))
  }

  function Splice(text: string, at: nat, piece: string): string
    requires at <= |text|
  {
    text[..at] + piece + text[at..]
  }

  /** `insert_node`. */
  function InsertNode(text: string, start: nat, end: nat, children: Children, authored: string): Option<string> {
    var plan := PlanInsert(text, start, end, children);
    if plan.None? then None
    else Some(Splice(text, plan.value.at, plan.value.before + authored + plan.value.after))
  }

  function Cut(text: string, a: nat, b: nat): string
    requires a <= b <= |text|
  {
    text[..a] + text[b..]
  }

  /** What `remove_field` decides from the two ends of a node's line. */
  function RemoveOnLine(text: string, start: nat, end: nat, lineStart: nat, lineEnd: nat): Option<string>
    requires lineStart <= start <= end <= lineEnd <= |text|
  {
    if AllBlank(text[lineStart..start]) && IsLineTailTrivia(text[end..lineEnd]) then
      Some(Cut(text, lineStart, if lineEnd < |text| then lineEnd + 1 else lineEnd))
    else if AllBlankOrReturn(text[end..lineEnd]) then
      Some(Cut(text, lineStart + TrimEnd(text[lineStart..start], IsBlank), lineEnd))
    else
      RemoveInline(text, start, end, lineStart, lineEnd)
  }

  /** The compact form: a terminator after the node, else a separator before it. */
  function RemoveInline(text: string, start: nat, end: nat, lineStart: nat, lineEnd: nat): Option<string>
    requires lineStart <= start <= end <= lineEnd <= |text|
  {
    var afterContent := end + Skip(text[end..lineEnd], IsBlank);
    if afterContent < lineEnd && text[afterContent] == ';' then
      Some(Cut(text, start, afterContent + 1 + Skip(text[afterContent + 1..lineEnd], IsGap)))
    else
      var beforeContent := lineStart + TrimEnd(text[lineStart..start], IsBlank);
      if beforeContent == 0 then None
      else if text[beforeContent - 1] == ';' then Some(Cut(text, beforeContent - 1, end))
      else if text[beforeContent - 1] == '{' then Some(Cut(text, start, end))
      else None
  }

  /** `remove_field` for the node at `start..end`. */
  function RemoveField(text: string, start: nat, end: nat): Option<string> {
    if !(start <= end <= |text|) then None
    else
      RemoveOnLine(text, start, end, LineStart(text, start), LineEnd(text, end))
  }

  // ----- the line functions are fixed by what they promise -----

  lemma LineStartIs(text: string, pos: nat, r: nat)
    requires r <= pos <= |text| && (forall i :: r <= i < pos ==> text[i] != '\n') && (r == 0 || text[r - 1] == '\n')
    ensures LineStart(text, pos) == r
  {
    var s := LineStart(text, pos);
  }

  lemma LineEndIs(text: string, pos: nat, r: nat)
    requires pos <= r <= |text| && (forall i :: pos <= i < r ==> text[i] != '\n') && (r == |text| || text[r] == '\n')
    ensures LineEnd(text, pos) == r
  {
    var s := LineEnd(text, pos);
  }

  lemma TrimEndIs(s: string, p: char -> bool, n: nat)
    requires n <= |s| && (forall i :: n <= i < |s| ==> p(s[i])) && (n > 0 ==> !p(s[n - 1]))
    ensures TrimEnd(s, p) == n
  {
    var m := TrimEnd(s, p);
  }

  lemma SkipIs(s: string, p: char -> bool, n: nat)
    requires n <= |s| && (forall i :: 0 <= i < n ==> p(s[i])) && (n < |s| ==> !p(s[n]))
    ensures Skip(s, p) == n
  {
    var m := Skip(s, p);
  }

  // ----- what an insertion writes -----

  /** A line end at `p`, none between it and `close`. */
  ghost predicate LastLineEnd(text: string, p: nat, close: nat) {
    p < close <= |text| && text[p] == '\n' && forall i :: p < i < close ==> text[i] != '\n'
  }

  /** A node without a block gets one after it. */
  lemma InsertsNewBlock(text: string, start: nat, end: nat, authored: string)
    requires start <= end <= |text|
    ensures InsertNode(text, start, end, None, authored) == Some(text[..end] + (" { " + authored + " }") + text[end..])
  {
  }

  /**
   * In a block over several lines the authored node gets the line before the closing brace, indented
   * like the first child if that starts its line, and else two blanks deeper than the brace; a block
   * whose brace does not start its line is refused.
   */
  lemma InsertsOwnLine(text: string, start: nat, end: nat, child: Option<nat>, authored: string, p: nat, q: nat)
    requires start < end <= |text| && text[end - 1] == '}' && start <= p && LastLineEnd(text, p, end - 1)
    requires child.Some? ==> child.value <= |text| && StartsLine(text, q, child.value)
    ensures var brace := text[p + 1..end - 1];
      var indent := if child.Some? && AllBlank(text[q..child.value]) then text[q..child.value] else brace + "  ";
      InsertNode(text, start, end, Some(child), authored) ==
      if AllBlank(brace) then Some(text[..p + 1] + (indent + authored + "\n") + text[p + 1..]) else None
  {
    hide LineStart, AllBlank, TrimEnd;
    LineStartIs(text, end - 1, p + 1);
    if child.Some? {
      LineStartIs(text, child.value, q);
    }
  }

  /** The line that holds position `pos` starts at `q`. */
  ghost predicate StartsLine(text: string, q: nat, pos: nat) {
    q <= pos <= |text| && (q == 0 || text[q - 1] == '\n') && forall i :: q <= i < pos ==> text[i] != '\n'
  }

  /** In a block on one line it follows the last node, with the separator that node lacks. */
  lemma InsertsInline(text: string, start: nat, end: nat, child: Option<nat>, authored: string, at: nat)
    requires start <= at < end <= |text| && text[end - 1] == '}' && (forall i :: start <= i < end ==> text[i] != '\n')
    requires (forall i :: at <= i < end - 1 ==> IsSpace(text[i])) && (at > start ==> !IsSpace(text[at - 1]))
    ensures InsertNode(text, start, end, Some(child), authored) ==
      Some(text[..at]
           + (if at > start && text[at - 1] == '{' then " " + authored
              else if at > start && text[at - 1] == ';' then " " + authored + ";"
              else "; " + authored)
           + text[at..])
  {
    hide LineStart, TrimEnd, IsSpace;
    InlineLineStart(text, start, end - 1);
    var body := text[start..end - 1];
    assert forall i :: 0 <= i < |body| ==> body[i] == text[start + i];
    TrimEndIs(body, IsSpace, at - start);
    assert " " + authored + "" == " " + authored && "; " + authored + "" == "; " + authored;
  }

  lemma InlineLineStart(text: string, start: nat, close: nat)
    requires start <= close < |text| && forall i :: start <= i <= close ==> text[i] != '\n'
    ensures LineStart(text, close) <= start
  {
    var r := LineStart(text, close);
  }

  /** A block that does not end in its brace is refused. */
  lemma RefusesWithoutBrace(text: string, start: nat, end: nat, child: Option<nat>, authored: string)
    requires start == end || end > |text| || start > end || text[end - 1] != '}'
    ensures InsertNode(text, start, end, Some(child), authored) == None
  {
  }

  // ----- what a removal takes -----

  /** A node alone on its line goes with the whole line, and with a line comment behind it. */
  lemma RemovesOwnLine(a: string, indent: string, node: string, gap: string, comment: string, b: string)
    requires AllBlank(indent) && AllBlank(gap) && (a == "" || a[|a| - 1] == '\n') && '\n' !in comment && (comment == "" || "//" <= comment)
    ensures RemoveField(a + indent + node + (gap + comment + ("\n" + b)), |a + indent|, |a + indent + node|) == Some(a + b)
  {
    TailHasNoEnd(gap, comment);
    TailIsTrivia(gap, comment);
    hide RemoveField, IsLineTailTrivia;
    RemovesLineWithTail(a, indent, node, gap + comment, b);
  }

  lemma RemovesLineWithTail(a: string, indent: string, node: string, tail: string, b: string)
    requires AllBlank(indent) && (a == "" || a[|a| - 1] == '\n') && '\n' !in tail && IsLineTailTrivia(tail)
    ensures RemoveField(a + indent + node + (tail + ("\n" + b)), |a + indent|, |a + indent + node|) == Some(a + b)
  {
    hide LineStart, LineEnd, IsLineTailTrivia, RemoveField;
    var c := tail + ("\n" + b);
    var u := a + indent + node + c;
    var start, end := |a + indent|, |a + indent + node|;
    CharsOf(a, indent, node, c);
    CharsOfTail(tail, b);
    LineStartIs(u, start, |a|);
    LineEndIs(u, end, end + |tail|);
    hide AllBlank;
    SliceOf(u, end, c, |tail|);
    WholeLineGoes(u, start, end, |a|, end + |tail|);
  }

  lemma CharsOfTail(tail: string, b: string)
    ensures var c := tail + ("\n" + b);
      (forall i :: 0 <= i < |tail| ==> c[i] == tail[i]) && c[|tail|] == '\n' && c[..|tail|] == tail && c[|tail| + 1..] == b
  {
  }

  lemma SliceOf(u: string, end: nat, c: string, n: nat)
    requires end <= |u| && u[end..] == c && n < |c|
    ensures u[end..end + n] == c[..n] && u[end + n + 1..] == c[n + 1..]
  {
  }

  lemma WholeLineGoes(u: string, start: nat, end: nat, lineStart: nat, lineEnd: nat)
    requires lineStart <= start <= end <= lineEnd < |u| && LineStart(u, start) == lineStart && LineEnd(u, end) == lineEnd
    requires AllBlank(u[lineStart..start]) && IsLineTailTrivia(u[end..lineEnd])
    ensures RemoveField(u, start, end) == Some(u[..lineStart] + u[lineEnd + 1..])
  {
    hide LineStart, LineEnd, IsLineTailTrivia, AllBlank, TrimEnd, Skip;
  }

  lemma TailHasNoEnd(gap: string, comment: string)
    requires AllBlank(gap) && '\n' !in comment
    ensures '\n' !in gap + comment
  {
  }

  lemma TailIsTrivia(gap: string, comment: string)
    requires AllBlank(gap) && (comment == "" || "//" <= comment)
    ensures IsLineTailTrivia(gap + comment)
  {
    var tail := gap + comment;
    assert comment != "" ==> tail[|gap|] == comment[0] == comment[..2][0] == '/';
    SkipIs(tail, c => IsBlank(c) || c == '\r', |gap|);
    assert tail[|gap|..] == comment;
  }

  /** A node that ends its line behind other text goes with the blanks around it. */
  lemma RemovesLineEnd(a: string, blanks: string, node: string, tail: string, b: string)
    requires a != "" && a[|a| - 1] != '\n' && !IsBlank(a[|a| - 1]) && AllBlank(blanks) && AllBlankOrReturn(tail)
    ensures RemoveField(a + blanks + node + (tail + ("\n" + b)), |a + blanks|, |a + blanks + node|) == Some(a + ("\n" + b))
  {
    hide RemoveField;
    var c := tail + ("\n" + b);
    var u := a + blanks + node + c;
    CharsOf(a, blanks, node, c);
    CharsOfTail(tail, b);
    assert u[|a| - 1] == a[|a| - 1];
    EndBehind(u, |a|, |a + blanks|, |a + blanks + node|, c, |tail|);
    assert c[|tail|..] == "\n" + b;
  }

  lemma EndBehind(u: string, n: nat, start: nat, end: nat, c: string, m: nat)
    requires 0 < n <= start <= end <= |u| && u[n - 1] != '\n' && !IsBlank(u[n - 1]) && (forall i :: n <= i < start ==> IsBlank(u[i]))
    requires u[end..] == c && m < |c| && c[m] == '\n' && (forall i :: 0 <= i < m ==> IsBlank(c[i]) || c[i] == '\r')
    ensures RemoveField(u, start, end) == Some(u[..n] + c[m..])
  {
    hide RemoveField, LineStart, LineEnd, TrimEnd;
    assert forall i :: 0 <= i < |c| ==> u[end + i] == c[i];
    assert forall i :: end <= i < end + m ==> u[i] == c[i - end];
    var lineStart := LineStart(u, start);
    LineEndIs(u, end, end + m);
    assert lineStart > 0 ==> u[lineStart - 1] == '\n';
    assert lineStart < n;
    var before := u[lineStart..start];
    assert forall i :: 0 <= i < |before| ==> before[i] == u[lineStart + i];
    TrimEndIs(before, IsBlank, n - lineStart);
    assert forall i :: 0 <= i < m ==> u[end..end + m][i] == c[i];
    LineEndGoes(u, start, end, lineStart, end + m, n);
    assert u[end + m..] == c[m..];
  }

  lemma LineEndGoes(u: string, start: nat, end: nat, lineStart: nat, lineEnd: nat, n: nat)
    requires lineStart < n <= start <= end <= lineEnd <= |u| && LineStart(u, start) == lineStart && LineEnd(u, end) == lineEnd
    requires lineStart + TrimEnd(u[lineStart..start], IsBlank) == n && AllBlankOrReturn(u[end..lineEnd])
    ensures RemoveField(u, start, end) == Some(u[..n] + u[lineEnd..])
  {
    hide LineStart, LineEnd, IsLineTailTrivia, AllBlankOrReturn, Skip;
    assert !AllBlank(u[lineStart..start]) by { assert !IsBlank(u[lineStart..start][n - lineStart - 1]); }
  }

  /** A node with a terminator goes with it and with the gap behind it, whatever stands before. */
  lemma RemovesTerminator(a: string, node: string, blanks: string, gap: string, b: string)
    requires AllBlank(blanks) && (forall i :: 0 <= i < |gap| ==> IsGap(gap[i])) && (b == "" || !IsGap(b[0]))
    ensures RemoveField(a + node + (blanks + (";" + (gap + b))), |a|, |a + node|) == Some(a + b)
  {
    hide RemoveField;
    var c := blanks + (";" + (gap + b));
    var u := a + node + c;
    assert u[..|a|] == a && u[|a + node|..] == c;
    TerminatorChars(blanks, gap, b);
    TerminatorBehind(u, |a|, |a + node|, c, |blanks|, |gap|);
  }

  lemma TerminatorBehind(u: string, start: nat, end: nat, c: string, n: nat, m: nat)
    requires start <= end <= |u| && u[end..] == c && n + 1 + m <= |c|
    requires (forall i :: 0 <= i < n ==> IsBlank(c[i])) && c[n] == ';' && (forall i :: n < i <= n + m ==> IsGap(c[i]))
    requires n + 1 + m < |c| ==> !IsGap(c[n + 1 + m])
    ensures RemoveField(u, start, end) == Some(u[..start] + c[n + 1 + m..])
  {
    hide RemoveField, LineStart, LineEnd;
    assert forall i :: 0 <= i < |c| ==> u[end + i] == c[i];
    assert forall i :: end <= i < end + n ==> u[i] == c[i - end];
    assert forall i :: end + n < i <= end + n + m ==> u[i] == c[i - end];
    var lineStart, lineEnd := LineStart(u, start), LineEnd(u, end);
    assert lineEnd < |u| ==> u[lineEnd] == '\n';
    assert u[end + n] == c[n];
    assert lineEnd >= end + n + 1 + m;
    TerminatorGoes(u, start, end, lineStart, lineEnd, n, m);
    assert u[end + (n + 1 + m)..] == c[n + 1 + m..];
  }

  lemma TerminatorChars(blanks: string, gap: string, b: string)
    ensures var c := blanks + (";" + (gap + b));
      && (forall i :: 0 <= i < |blanks| ==> c[i] == blanks[i]) && c[|blanks|] == ';'
      && (forall i :: |blanks| < i <= |blanks| + |gap| ==> c[i] == gap[i - |blanks| - 1])
      && (b != "" ==> c[|blanks| + 1 + |gap|] == b[0]) && c[|blanks| + 1 + |gap|..] == b
  {
  }

  lemma TerminatorGoes(u: string, start: nat, end: nat, lineStart: nat, lineEnd: nat, n: nat, m: nat)
    requires lineStart <= start <= end <= end + n + 1 + m <= lineEnd <= |u| && LineStart(u, start) == lineStart && LineEnd(u, end) == lineEnd
    requires (forall i :: end <= i < end + n ==> IsBlank(u[i])) && u[end + n] == ';'
    requires (forall i :: end + n < i <= end + n + m ==> IsGap(u[i])) && (end + n + 1 + m < |u| ==> !IsGap(u[end + n + 1 + m]))
    ensures RemoveField(u, start, end) == Some(u[..start] + u[end + n + 1 + m..])
  {
    hide LineStart, LineEnd, Skip, TrimEnd, IsLineTailTrivia, AllBlank, RemoveField;
    var tail, behind := u[end..lineEnd], u[end + n + 1..lineEnd];
    assert tail[n] == ';';
    assert forall i :: 0 <= i < n ==> tail[i] == u[end + i];
    SkipIs(tail, IsBlank, n);
    NotTrivia(tail, n);
    GapBehind(u, end + n + 1, lineEnd, m);
    TerminatorBranch(u, start, end, lineStart, lineEnd, n, m);
  }

  lemma GapBehind(u: string, from: nat, lineEnd: nat, m: nat)
    requires from + m <= lineEnd <= |u| && (forall i :: from <= i < from + m ==> IsGap(u[i])) && (from + m < |u| ==> !IsGap(u[from + m]))
    ensures Skip(u[from..lineEnd], IsGap) == m
  {
    var behind := u[from..lineEnd];
    assert forall i :: 0 <= i < |behind| ==> behind[i] == u[from + i];
    SkipIs(behind, IsGap, m);
  }

  lemma TerminatorBranch(u: string, start: nat, end: nat, lineStart: nat, lineEnd: nat, n: nat, m: nat)
    requires lineStart <= start <= end <= end + n + 1 + m <= lineEnd <= |u| && LineStart(u, start) == lineStart && LineEnd(u, end) == lineEnd
    requires u[end + n] == ';' && Skip(u[end..lineEnd], IsBlank) == n && Skip(u[end + n + 1..lineEnd], IsGap) == m
    requires !IsLineTailTrivia(u[end..lineEnd]) && !AllBlankOrReturn(u[end..lineEnd])
    ensures RemoveField(u, start, end) == Some(u[..start] + u[end + n + 1 + m..])
  {
    hide LineStart, LineEnd, Skip, TrimEnd, IsLineTailTrivia, AllBlank, AllBlankOrReturn, IsGap, IsBlank;
  }

  lemma NotTrivia(tail: string, n: nat)
    requires n < |tail| && tail[n] == ';' && forall i :: 0 <= i < n ==> IsBlank(tail[i])
    ensures !IsLineTailTrivia(tail) && !AllBlankOrReturn(tail)
  {
    SkipIs(tail, c => IsBlank(c) || c == '\r', n);
    assert tail[n..][0] == ';' && "//"[0] != ';';
  }

  /** A node with nothing to hold on to on either side is refused. */
  lemma RefusesWithoutSeparator(a: string, node: string, b: string, s: nat)
    requires a != "" && a[|a| - 1] != '\n' && !IsBlank(a[|a| - 1]) && a[|a| - 1] != ';' && a[|a| - 1] != '{'
    requires s < |b| && (forall i :: 0 <= i < s ==> IsBlank(b[i])) && !IsBlank(b[s]) && b[s] != ';' && b[s] != '\r' && b[s] != '\n' && b[s] != '/'
    ensures RemoveField(a + node + b, |a|, |a + node|) == None
  {
    var u := a + "" + node + b;
    var start, end := |a|, |a + node|;
    assert u == a + node + b && |a + ""| == |a|;
    CharsOf(a, "", node, b);
    var lineStart, lineEnd := LineStart(u, start), LineEnd(u, end);
    hide LineStart, LineEnd, TrimEnd, Skip;
    assert u[start - 1] == a[|a| - 1] && u[end + s] == b[s];
    assert forall i :: end <= i <= end + s ==> u[i] != '\n';
    CompactBranch(u, start, end, start - 1, end + s, lineStart, lineEnd);
    hide RemoveField;
    BetweenBlanks(u, start, end, lineStart, lineEnd, s);
  }

  lemma BetweenBlanks(u: string, start: nat, end: nat, lineStart: nat, lineEnd: nat, s: nat)
    requires lineStart < start <= end <= end + s < lineEnd <= |u| && !IsBlank(u[start - 1]) && u[start - 1] != ';' && u[start - 1] != '{'
    requires (forall i :: end <= i < end + s ==> IsBlank(u[i])) && !IsBlank(u[end + s]) && u[end + s] != ';'
    ensures RemoveInline(u, start, end, lineStart, lineEnd) == None
  {
    hide TrimEnd, Skip, IsBlank;
    var after, before := u[end..lineEnd], u[lineStart..start];
    assert forall i :: 0 <= i <= s ==> after[i] == u[end + i];
    SkipIs(after, IsBlank, s);
    TrimEndIs(before, IsBlank, |before|);
  }

  // ----- insert, then remove -----

  /** The text after an insertion, with the span the parser gives the authored node. */
  datatype Edited = Edited(text: string, start: nat, end: nat)

  function Edit(text: string, plan: Insertion, authored: string): (e: Edited)
    requires plan.at <= |text|
    ensures e.start <= e.end <= |e.text|
  {
    Edited(Splice(text, plan.at, plan.before + authored + plan.after),
           plan.at + |plan.before|, plan.at + |plan.before| + |authored|)
  }

  lemma CharsOf(a: string, b: string, c: string, d: string)
    ensures var u := a + b + c + d;
      && (forall i :: 0 <= i < |a| ==> u[i] == a[i])
      && (forall i :: |a| <= i < |a + b| ==> u[i] == b[i - |a|])
      && (forall i :: |a + b + c| <= i < |u| ==> u[i] == d[i - |a + b + c|])
      && u[..|a|] == a && u[|a|..|a + b|] == b && u[..|a + b|] == a + b && u[|a + b + c|..] == d
  {
  }

  /** In a block that spans lines, the removal restores the text exactly. */
  lemma OwnLineRestores(a: string, indent: string, authored: string, b: string)
    requires AllBlank(indent) && (a == "" || a[|a| - 1] == '\n')
    ensures RemoveField(a + indent + authored + ("\n" + b), |a + indent|, |a + indent + authored|) == Some(a + b)
  {
    var c := "\n" + b;
    var u := a + indent + authored + c;
    var start, end := |a + indent|, |a + indent + authored|;
    CharsOf(a, indent, authored, c);
    LineStartIs(u, start, |a|);
    LineEndIs(u, end, end);
    hide LineStart, LineEnd;
    assert u[end..end] == "";
    assert u[end + 1..] == u[end..][1..] == c[1..] == b;
  }

  /** A node with more on both sides of its line is removed in compact form. */
  lemma CompactBranch(u: string, start: nat, end: nat, lead: nat, stop: nat, lineStart: nat, lineEnd: nat)
    requires lineStart <= lead < start <= end <= stop < lineEnd <= |u| && LineStart(u, start) == lineStart && LineEnd(u, end) == lineEnd
    requires !IsBlank(u[lead]) && !IsBlank(u[stop]) && u[stop] != '\r'
    ensures RemoveField(u, start, end) == RemoveInline(u, start, end, lineStart, lineEnd)
  {
    hide Skip, TrimEnd, Cut, LineStart, LineEnd, IsLineTailTrivia;
    assert !AllBlank(u[lineStart..start]) by { assert u[lineStart..start][lead - lineStart] == u[lead]; }
    assert !AllBlankOrReturn(u[end..lineEnd]) by { assert u[end..lineEnd][stop - end] == u[stop]; }
  }

  /** White space up to a closing brace on the same line. */
  ghost predicate ClosesAt(b: string, s: nat) {
    s < |b| && b[s] == '}' && forall i :: 0 <= i < s ==> IsSpace(b[i]) && b[i] != '\n'
  }

  /** An edit inside a line: the line starts where it did, and goes on to character `s` of what follows at least. */
  lemma EditedLine(a: string, pre: string, authored: string, c: string, lead: nat, s: nat)
    requires '\n' !in pre && s < |c| && !IsBlank(c[s]) && c[s] != '\r' && forall i :: 0 <= i <= s ==> c[i] != '\n'
    requires LineStart(a, |a|) <= lead < |a + pre| && !IsBlank((a + pre)[lead])
    ensures var u := a + pre + authored + c;
      var start, end := |a + pre|, |a + pre + authored|;
      && end + s < LineEnd(u, end)
      && RemoveField(u, start, end) == RemoveInline(u, start, end, LineStart(a, |a|), LineEnd(u, end))
  {
    var u := a + pre + authored + c;
    var start, end, lineStart := |a + pre|, |a + pre + authored|, LineStart(a, |a|);
    CharsOf(a, pre, authored, c);
    LineStartIs(u, start, lineStart);
    var lineEnd := LineEnd(u, end);
    assert forall i :: end <= i <= end + s ==> u[i] != '\n';
    assert u[lead] == (a + pre)[lead] && u[end + s] == c[s];
    CompactBranch(u, start, end, lead, end + s, lineStart, lineEnd);
  }

  /** No terminator follows the node before the closing brace. */
  lemma NoTerminator(u: string, end: nat, lineEnd: nat, c: string, s: nat)
    requires end <= end + s < lineEnd <= |u| && ClosesAt(c, s) && u[end..] == c
    ensures var afterContent := end + Skip(u[end..lineEnd], IsBlank); afterContent < lineEnd && u[afterContent] != ';'
  {
    var n := Skip(u[end..lineEnd], IsBlank);
    assert forall i :: 0 <= i <= s ==> u[end + i] == u[end..][i] == c[i] && u[end + i] != ';';
    assert u[end..lineEnd][s] == u[end + s] == '}';
    assert n <= s;
  }

  /** The part of an edited line before the node, without its trailing blanks. */
  lemma BeforeContent(a: string, pre: string, u: string, keep: nat)
    requires a + pre <= u && keep <= |pre| && (forall i :: keep <= i < |pre| ==> IsBlank(pre[i]))
    requires |a| + keep > LineStart(a, |a|) && !IsBlank((a + pre)[|a| + keep - 1])
    ensures LineStart(a, |a|) + TrimEnd(u[LineStart(a, |a|)..|a + pre|], IsBlank) == |a| + keep
  {
    var lineStart := LineStart(a, |a|);
    var line := u[lineStart..|a + pre|];
    assert forall i :: 0 <= i < |line| ==> line[i] == (a + pre)[lineStart + i];
    TrimEndIs(line, IsBlank, |a| + keep - lineStart);
  }

  /** With no terminator after the node, the character before it decides what goes. */
  lemma BackwardRemoval(a: string, pre: string, authored: string, c: string, keep: nat, s: nat)
    requires '\n' !in pre && ClosesAt(c, s) && keep <= |pre| && (forall i :: keep <= i < |pre| ==> IsBlank(pre[i]))
    requires |a| + keep > LineStart(a, |a|) && ((a + pre)[|a| + keep - 1] == ';' || (a + pre)[|a| + keep - 1] == '{')
    ensures var u := a + pre + authored + c;
      var start, end := |a + pre|, |a + pre + authored|;
      RemoveField(u, start, end) ==
      Some(Cut(u, if (a + pre)[|a| + keep - 1] == ';' then |a| + keep - 1 else start, end))
  {
    hide RemoveField, Cut, IsSpace, LineStart, LineEnd, Skip, TrimEnd;
    var u := a + pre + authored + c;
    var start, end := |a + pre|, |a + pre + authored|;
    CharsOf(a, pre, authored, c);
    EditedLine(a, pre, authored, c, |a| + keep - 1, s);
    NoTerminator(u, end, LineEnd(u, end), c, s);
    BeforeContent(a, pre, u, keep);
    assert u[|a| + keep - 1] == (a + pre)[|a| + keep - 1];
  }

  /** After a separator the removal restores the text exactly. */
  lemma SeparatorRestores(a: string, authored: string, b: string, s: nat)
    requires ClosesAt(b, s)
    ensures RemoveField(a + "; " + authored + b, |a| + 2, |a| + 2 + |authored|) == Some(a + b)
  {
    hide RemoveField;
    assert (a + "; ")[|a|] == ';';
    BackwardRemoval(a, "; ", authored, b, 1, s);
    CharsOf(a, "; ", authored, b);
  }

  /** In an empty block the removal leaves the blank it had inserted before the node. */
  lemma EmptyBlockKeepsABlank(a: string, authored: string, b: string, s: nat)
    requires ClosesAt(b, s) && a != "" && a[|a| - 1] == '{'
    ensures RemoveField(a + " " + authored + b, |a| + 1, |a| + 1 + |authored|) == Some(a + " " + b)
  {
    hide RemoveField;
    assert (a + " ")[|a| - 1] == '{';
    BackwardRemoval(a, " ", authored, b, 0, s);
    CharsOf(a, " ", authored, b);
  }

  /** A node without a block keeps the block it was given. */
  lemma NewBlockStays(a: string, authored: string, b: string)
    ensures RemoveField(a + " { " + authored + (" }" + b), |a| + 3, |a| + 3 + |authored|) == Some(a + " { " + (" }" + b))
  {
    hide RemoveField;
    var c := " }" + b;
    assert c[0] == ' ' && c[1] == '}' && ClosesAt(c, 1);
    assert (a + " { ")[|a| + 1] == '{';
    BackwardRemoval(a, " { ", authored, c, 2, 1);
    CharsOf(a, " { ", authored, c);
  }

  lemma ForwardRemoval(a: string, authored: string, b: string)
    requires a != "" && a[|a| - 1] == ';'
    ensures var u := a + " " + authored + (";" + b);
      var end := |a + " " + authored|;
      end + 1 + Skip(b, IsGap) <= |u| && RemoveField(u, |a + " "|, end) == Some(Cut(u, |a + " "|, end + 1 + Skip(b, IsGap)))
  {
    hide RemoveField, Cut, LineStart, LineEnd, Skip, TrimEnd;
    var c := ";" + b;
    var u := a + " " + authored + c;
    var end := |a + " " + authored|;
    CharsOf(a, " ", authored, c);
    assert (a + " ")[|a| - 1] == ';' && c[0] == ';' && u[end] == ';';
    EditedLine(a, " ", authored, c, |a| - 1, 0);
    TerminatorGap(u, end, LineEnd(u, end), b);
  }

  /** After a terminator the removal keeps one blank and takes the gap that stood there. */
  lemma TerminatorTakesTheGap(a: string, authored: string, b: string)
    requires a != "" && a[|a| - 1] == ';'
    ensures RemoveField(a + " " + authored + (";" + b), |a| + 1, |a| + 1 + |authored|) == Some(a + " " + b[Skip(b, IsGap)..])
  {
    hide RemoveField, Skip;
    var u, end, gap := a + " " + authored + (";" + b), |a| + 1 + |authored|, Skip(b, IsGap);
    ForwardRemoval(a, authored, b);
    assert u[..|a| + 1] == a + " ";
    assert u[end + 1 + gap..] == b[gap..];
  }

  lemma TerminatorGap(u: string, end: nat, lineEnd: nat, b: string)
    requires end < lineEnd <= |u| && u[end..] == ";" + b && LineEnd(u, end) == lineEnd
    ensures Skip(u[end..lineEnd], IsBlank) == 0 && Skip(u[end + 1..lineEnd], IsGap) == Skip(b, IsGap)
  {
    var tail, gap := u[end + 1..lineEnd], Skip(b, IsGap);
    assert u[end] == u[end..][0] == ';' && u[end..lineEnd][0] == u[end];
    SkipIs(u[end..lineEnd], IsBlank, 0);
    assert u[end + 1..] == u[end..][1..] == b;
    assert forall i :: 0 <= i < |b| ==> u[end + 1 + i] == u[end + 1..][i] == b[i];
    assert lineEnd < |u| ==> b[lineEnd - end - 1] == '\n';
    assert gap <= |tail|;
    SkipIs(tail, IsGap, gap);
  }

  // ----- exactly when the removal restores the text -----

  /** What a caller can tell beforehand: a block over several lines, a body with no trailing terminator, or one blank after it. */
  predicate Restorable(text: string, start: nat, end: nat, children: Children)
    requires start <= end <= |text|
  {
    children.Some? && start < end
    && (LineStart(text, end - 1) > start
        || (var at := start + TrimEnd(text[start..end - 1], IsSpace);
            if at > start && text[at - 1] == '{' then false
            else if at > start && text[at - 1] == ';' then Skip(text[at..], IsGap) == 1 && text[at] == ' '
            else true))
  }

  lemma BodyCloses(text: string, start: nat, close: nat)
    requires start <= close < |text| && text[close] == '}' && LineStart(text, close) <= start
    ensures var at := start + TrimEnd(text[start..close], IsSpace); at <= close && ClosesAt(text[at..], close - at)
  {
    var at := start + TrimEnd(text[start..close], IsSpace);
    assert forall i :: at <= i < close ==> text[start..close][i - start] == text[i];
  }

  /** Taking one blank for a gap changes the text unless the gap was that blank. */
  lemma GapIsOneBlank(text: string, at: nat)
    requires at <= |text|
    ensures text[..at] + " " + text[at..][Skip(text[at..], IsGap)..] == text <==> Skip(text[at..], IsGap) == 1 && text[at] == ' '
  {
    var b := text[at..];
    var gap := Skip(b, IsGap);
    var r := text[..at] + " " + b[gap..];
    assert |r| == |text| <==> gap == 1;
    assert r[at] == ' ';
    if gap == 1 && text[at] == ' ' {
      assert b == " " + b[1..];
      assert text == text[..at] + b;
    }
  }

  /**
   * For every insertion `insert_node` makes, `remove_field` on the authored node's span gives the
   * original text back exactly when the insertion point is restorable.
   */
  lemma RemoveUndoesInsert(text: string, start: nat, end: nat, children: Children, authored: string)
    requires start <= end <= |text| && PlanInsert(text, start, end, children).Some?
    ensures InsertNode(text, start, end, children, authored) == Some(Edit(text, PlanInsert(text, start, end, children).value, authored).text)
    ensures var e := Edit(text, PlanInsert(text, start, end, children).value, authored);
      RemoveField(e.text, e.start, e.end) == Some(text) <==> Restorable(text, start, end, children)
  {
    hide RemoveField, PlanInsert, Edit, Restorable;
    InsertIsEdit(text, start, end, children, authored);
    PlanFacts(text, start, end, children);
    var plan := PlanInsert(text, start, end, children).value;
    if children.None? {
      ChildlessCase(text, start, end, authored);
    } else if LineStart(text, end - 1) > start {
      OwnLineCase(text, start, end, children, plan, authored);
    } else {
      InlineCase(text, start, end, children, plan, authored);
    }
  }

  lemma InsertIsEdit(text: string, start: nat, end: nat, children: Children, authored: string)
    requires PlanInsert(text, start, end, children).Some?
    ensures InsertNode(text, start, end, children, authored) == Some(Edit(text, PlanInsert(text, start, end, children).value, authored).text)
  {
  }

  ghost predicate InlinePlan(text: string, start: nat, end: nat, plan: Insertion)
    requires start < end <= |text|
  {
    var at := start + TrimEnd(text[start..end - 1], IsSpace);
    plan == if at > start && text[at - 1] == '{' then Insertion(at, " ", "")
            else if at > start && text[at - 1] == ';' then Insertion(at, " ", ";")
            else Insertion(at, "; ", "")
  }

  lemma PlanFacts(text: string, start: nat, end: nat, children: Children)
    requires start <= end <= |text| && PlanInsert(text, start, end, children).Some?
    ensures var plan := PlanInsert(text, start, end, children).value;
      if children.None? then plan == Insertion(end, " { ", " }")
      else
        && start < end && text[end - 1] == '}'
        && if LineStart(text, end - 1) > start
           then plan.at == LineStart(text, end - 1) && AllBlank(plan.before) && plan.after == "\n"
           else InlinePlan(text, start, end, plan)
  {
    hide IsSpace, TrimEnd, LineIndent;
  }

  lemma EditText(text: string, plan: Insertion, authored: string)
    requires plan.at <= |text|
    ensures Edit(text, plan, authored).text == text[..plan.at] + plan.before + authored + (plan.after + text[plan.at..])
    ensures text == text[..plan.at] + text[plan.at..]
  {
  }

  lemma ChildlessCase(text: string, start: nat, end: nat, authored: string)
    requires start <= end <= |text|
    ensures var e := Edit(text, Insertion(end, " { ", " }"), authored);
      RemoveField(e.text, e.start, e.end) == Some(text) <==> Restorable(text, start, end, None)
  {
    hide RemoveField;
    EditText(text, Insertion(end, " { ", " }"), authored);
    NewBlockStays(text[..end], authored, text[end..]);
  }

  lemma OwnLineCase(text: string, start: nat, end: nat, children: Children, plan: Insertion, authored: string)
    requires start < end <= |text| && children.Some? && LineStart(text, end - 1) > start
    requires plan.at == LineStart(text, end - 1) && AllBlank(plan.before) && plan.after == "\n"
    ensures var e := Edit(text, plan, authored);
      RemoveField(e.text, e.start, e.end) == Some(text) <==> Restorable(text, start, end, children)
  {
    EditText(text, plan, authored);
    hide RemoveField, Edit, Splice, AllBlank, LineStart;
    OwnLineRestores(text[..plan.at], plan.before, authored, text[plan.at..]);
    EditSpan(text, plan, authored);
  }

  lemma EditSpan(text: string, plan: Insertion, authored: string)
    requires plan.at <= |text|
    ensures var e := Edit(text, plan, authored);
      e.start == |text[..plan.at] + plan.before| && e.end == |text[..plan.at] + plan.before + authored|
  {
  }

  lemma InlineCase(text: string, start: nat, end: nat, children: Children, plan: Insertion, authored: string)
    requires start < end <= |text| && children.Some? && text[end - 1] == '}' && LineStart(text, end - 1) <= start && InlinePlan(text, start, end, plan)
    ensures var e := Edit(text, plan, authored);
      RemoveField(e.text, e.start, e.end) == Some(text) <==> Restorable(text, start, end, children)
  {
    hide RemoveField, Edit, LineStart, IsSpace, TrimEnd, Skip, ClosesAt;
    BodyCloses(text, start, end - 1);
    InlineRestores(text, plan, authored, end - 1 - plan.at);
  }

  lemma InlineRestores(text: string, plan: Insertion, authored: string, s: nat)
    requires plan.at <= |text| && ClosesAt(text[plan.at..], s)
    requires plan == if plan.at > 0 && plan.before == " " && text[plan.at - 1] == '{' then Insertion(plan.at, " ", "")
                     else if plan.at > 0 && plan.before == " " && text[plan.at - 1] == ';' then Insertion(plan.at, " ", ";")
                     else Insertion(plan.at, "; ", "")
    ensures var e := Edit(text, plan, authored);
      RemoveField(e.text, e.start, e.end) == Some(text) <==>
      (plan.before == "; " || (plan.after == ";" && Skip(text[plan.at..], IsGap) == 1 && text[plan.at] == ' '))
  {
    hide RemoveField, Skip, ClosesAt;
    var a, b := text[..plan.at], text[plan.at..];
    var e := Edit(text, plan, authored);
    assert text == a + b;
    assert e.text == a + plan.before + authored + (plan.after + b);
    assert "" + b == b;
    if plan.after == ";" {
      TerminatorTakesTheGap(a, authored, b);
      GapIsOneBlank(text, plan.at);
    } else if plan.before == " " {
      EmptyBlockKeepsABlank(a, authored, b, s);
    } else {
      SeparatorRestores(a, authored, b, s);
    }
  }

  lemma EmptyBlockPlan()
    ensures PlanInsert("a {}", 0, 4, Some(None)) == Some(Insertion(3, " ", ""))
    ensures !Restorable("a {}", 0, 4, Some(None))
  {
    hide RemoveField, RemoveOnLine;
    var text := "a {}";
    assert text[0..3] == "a {" && "a {"[2] == '{';
    hide TrimEnd, LineStart;
    TrimEndIs("a {", IsSpace, 3);
    LineStartIs(text, 3, 0);
  }

  /** The restoration does fail: an empty block gains a blank. */
  lemma EmptyBlockIsNotRestored()
    ensures InsertNode("a {}", 0, 4, Some(None), "x") == Some("a { x}")
    ensures RemoveField("a { x}", 4, 5) == Some("a { }") && !Restorable("a {}", 0, 4, Some(None))
  {
    hide RemoveField, PlanInsert, Restorable;
    EmptyBlockPlan();
    assert Splice("a {}", 3, " " + "x" + "") == "a { x}";
    assert ClosesAt("}", 0);
    EmptyBlockKeepsABlank("a {", "x", "}", 0);
    assert "a {" + " " + "x" + "}" == "a { x}" && "a {" + " " + "}" == "a { }";
  }
}
