// The line scanner of `renderMarkdown`: a forward cursor over the lines of
// the text (after the block passes) that turns each line, or each run of
// lines, into one piece of output. The tests are tried in the order
// heading, blockquote run, list run, paragraph.

module Scanner {
  import opened Text
  import Inline
  import Blockquote
  import Lists

  /* ---------------- headings ---------------- */

  datatype Heading = Heading(level: nat, content: string)

  /** Number of leading `#` characters. */
  function HashRun(s: string): (n: nat)
    ensures n <= |s|
    ensures forall k :: 0 <= k < n ==> s[k] == '#'
    ensures n == |s| || s[n] != '#'
  {
    if s != [] && s[0] == '#' then 1 + HashRun(s[1..]) else 0
  }

  /** `/^(#{1,6})\s+(.+)$/`. The `#` group must take the whole run of `#`
   *  (a blank has to follow it), then `\s+` takes the whole blank run and
   *  `(.+)$` the rest, which must be free of line terminators. When nothing
   *  is left, `\s+` gives back its last character to `.+` if it has two or
   *  more and that last one is not a line terminator. */
  function HeadingOf(line: string): (r: Option<Heading>)
    ensures r.Some? ==> 1 <= r.value.level <= 6 && r.value.content != [] && NoLineTerminator(r.value.content)
  {
    var h := HashRun(line);
    if h < 1 || h > 6 then None
    else
      var w := LeadingSpaces(line[h..]);
      if w == 0 then None
      else if h + w < |line| then
        if NoLineTerminator(line[h + w..]) then Some(Heading(h, line[h + w..])) else None
      else if w >= 2 && !IsLineTerminator(line[|line| - 1]) then Some(Heading(h, line[|line| - 1..]))
      else None
  }

  function HeadingHtml(h: Heading): string {
    "<h" + Decimal(h.level) + ">" + Inline.ParseInline(h.content) + "</h" + Decimal(h.level) + ">"
  }

  function Hashes(n: nat): (r: string)
    ensures |r| == n && forall k :: 0 <= k < n ==> r[k] == '#'
  {
    if n == 0 then "" else "#" + Hashes(n - 1)
  }

  /** One to six `#`, blanks, and text that neither starts with a blank nor
   *  holds a line terminator: a heading of that level with that text. */
  lemma HeadingShape(level: nat, blanks: string, content: string)
    requires 1 <= level <= 6 && blanks != [] && AllSpace(blanks)
    requires content != [] && !IsSpace(content[0]) && NoLineTerminator(content)
    ensures HeadingOf(Hashes(level) + blanks + content) == Some(Heading(level, content))
  {
    var line := Hashes(level) + blanks + content;
    HeadingLine(level, blanks, content);
    HeadingAt(line, level, |blanks|);
  }

  /** The parts of such a line, seen from its front. */
  lemma HeadingLine(level: nat, blanks: string, content: string)
    requires 1 <= level <= 6 && blanks != [] && AllSpace(blanks)
    requires content != [] && !IsSpace(content[0]) && NoLineTerminator(content)
    ensures var line := Hashes(level) + blanks + content;
      level < |line| && line[level] != '#' && (forall k :: 0 <= k < level ==> line[k] == '#')
      && level + |blanks| < |line| && LeadingSpaces(line[level..]) == |blanks|
      && line[level + |blanks|..] == content
  {
    var line := Hashes(level) + blanks + content;
    var rest := blanks + content;
    assert line == Hashes(level) + rest;
    assert line[level..] == rest;
    BlanksThen(blanks, content);
    assert line[level + |blanks|..] == content;
  }

  /** The heading pattern's verdict when text follows the blank run. */
  lemma HeadingAt(line: string, h: nat, w: nat)
    requires 1 <= h <= 6 && h < |line| && line[h] != '#' && forall k :: 0 <= k < h ==> line[k] == '#'
    requires 0 < w && h + w < |line| && LeadingSpaces(line[h..]) == w
    requires NoLineTerminator(line[h + w..])
    ensures HeadingOf(line) == Some(Heading(h, line[h + w..]))
  {
    HashRunIs(line, h);
  }

  lemma {:induction false} HashRunIs(s: string, n: nat)
    requires n < |s| && s[n] != '#' && forall k :: 0 <= k < n ==> s[k] == '#'
    ensures HashRun(s) == n
    decreases n
  {
    if n > 0 {
      HashRunIs(s[1..], n - 1);
    }
  }

  /** Conversely, every heading is a run of its level's `#`, a non-empty
   *  blank run, and its text. */
  lemma HeadingParts(line: string)
    requires HeadingOf(line).Some?
    ensures var h := HeadingOf(line).value;
      var mid := line[h.level..|line| - |h.content|];
      h.level + |h.content| < |line|
      && line == Hashes(h.level) + mid + h.content
      && mid != [] && AllSpace(mid)
  {
    var n := HashRun(line);
    var w := LeadingSpaces(line[n..]);
    var c := HeadingOf(line).value.content;
    if n + w < |line| {
      assert c == line[n + w..];
      SplitHeading(line, n, n + w);
      BlankSpan(line, n, n + w);
    } else {
      assert c == line[|line| - 1..];
      SplitHeading(line, n, |line| - 1);
      BlankSpan(line, n, |line| - 1);
    }
  }

  /** A line that starts with `n` `#` characters is those, then its
   *  characters up to `e`, then the rest. */
  lemma SplitHeading(line: string, n: nat, e: nat)
    requires n <= e <= |line| && forall k :: 0 <= k < n ==> line[k] == '#'
    ensures line == Hashes(n) + line[n..e] + line[e..]
  {
    assert line[..n] == Hashes(n);
    assert line[..e] == line[..n] + line[n..e];
    assert line == line[..e] + line[e..];
  }

  /** Everything from `n` to `e` inside the blank run at `n` is blank. */
  lemma BlankSpan(line: string, n: nat, e: nat)
    requires n <= e <= |line| && e - n <= LeadingSpaces(line[n..])
    ensures AllSpace(line[n..e])
  {
    var r := line[n..];
    var l := LeadingSpaces(r);
    forall k | 0 <= k < e - n
      ensures IsSpace(line[n..e][k])
    {
      assert r[..l][k] == line[n..e][k];
    }
  }

  lemma {:induction false} BlanksThen(blanks: string, rest: string)
    requires AllSpace(blanks) && (rest == [] || !IsSpace(rest[0]))
    ensures LeadingSpaces(blanks + rest) == |blanks|
    decreases |blanks|
  {
    if blanks == [] {
      assert blanks + rest == rest;
    } else {
      BlanksThen(blanks[1..], rest);
      assert (blanks + rest)[1..] == blanks[1..] + rest;
    }
  }

  /* ---------------- the tests that start a run ---------------- */

  /** `/^>\s/` */
  predicate IsQuoteLine(s: string) {
    |s| >= 2 && s[0] == '>' && IsSpace(s[1])
  }

  /** `/^(\s*)[-*]\s/` */
  predicate IsBulletLine(s: string) {
    var w := LeadingSpaces(s);
    w + 1 < |s| && (s[w] == '-' || s[w] == '*') && IsSpace(s[w + 1])
  }

  /** `/^(\s*)- \[([ x])\]\s/` */
  predicate IsChecklistStart(s: string) {
    var w := LeadingSpaces(s);
    && w + 5 < |s| && s[w] == '-' && s[w + 1] == ' ' && s[w + 2] == '['
    && (s[w + 3] == ' ' || s[w + 3] == 'x') && s[w + 4] == ']' && IsSpace(s[w + 5])
  }

  /** The three tests the scanner uses for a list line. */
  predicate IsListLine(s: string) {
    IsBulletLine(s) || Lists.IsOrderedLine(s) || IsChecklistStart(s)
  }

  /** `/^(\s*)\S/` */
  predicate HasNonSpace(s: string) {
    LeadingSpaces(s) < |s|
  }

  /** The checklist test adds nothing: every line it accepts is a bullet
   *  line already. */
  lemma ChecklistIsBullet(s: string)
    requires IsChecklistStart(s)
    ensures IsBulletLine(s)
  {
  }

  /** The scanner's order of tests never matters: no line is two of a
   *  heading, a quote line and a list line. */
  lemma TestsExclusive(s: string)
    ensures !(HeadingOf(s).Some? && IsQuoteLine(s))
    ensures !(HeadingOf(s).Some? && IsListLine(s))
    ensures !(IsQuoteLine(s) && IsListLine(s))
  {
    if HeadingOf(s).Some? {
      assert s[0] == '#' && LeadingSpaces(s) == 0;
      assert s[LeadingSpaces(s)..][0] == '#';
    }
    if IsQuoteLine(s) {
      assert LeadingSpaces(s) == 0;
      assert s[LeadingSpaces(s)..][0] == '>';
    }
  }

  /* ---------------- runs ---------------- */

  /** The end of the run of quote lines from `i`: all lines before it are
   *  quote lines and the line at it, if any, is not. */
  function QuoteRunEnd(lines: seq<string>, i: nat): (e: nat)
    requires i <= |lines|
    ensures i <= e <= |lines|
    ensures forall j :: i <= j < e ==> IsQuoteLine(lines[j])
    ensures e == |lines| || !IsQuoteLine(lines[e])
    decreases |lines| - i
  {
    if i < |lines| && IsQuoteLine(lines[i]) then QuoteRunEnd(lines, i + 1) else i
  }

  /** The raw line before `j` ends with two spaces (and so is non-empty). */
  predicate Continues(lines: seq<string>, j: nat)
    requires j < |lines|
  {
    j > 0 && lines[j - 1] != "" && EndsWith(lines[j - 1], "  ")
  }

  /** A line after the first of a list run stays in the run when it is a
   *  list line, or a non-blank line after one ending in two spaces. */
  predicate InRun(lines: seq<string>, j: nat)
    requires j < |lines|
  {
    IsListLine(lines[j]) || (HasNonSpace(lines[j]) && Continues(lines, j))
  }

  /** The first line from `j` on that leaves the list run. */
  function ListRunEnd(lines: seq<string>, j: nat): (e: nat)
    requires j <= |lines|
    ensures j <= e <= |lines|
    ensures forall k :: j <= k < e ==> InRun(lines, k)
    ensures e == |lines| || !InRun(lines, e)
    decreases |lines| - j
  {
    if j < |lines| && InRun(lines, j) then ListRunEnd(lines, j + 1) else j
  }

  /** The raw items of the list run `lines[a..b]`: a list line starts a new
   *  item, any other line is appended to the last one after a `\n`. */
  function Grouped(lines: seq<string>, a: nat, b: nat): (r: seq<string>)
    requires a < b <= |lines| && IsListLine(lines[a])
    ensures r != []
    decreases b
  {
    if b == a + 1 then [lines[a]]
    else
      var g := Grouped(lines, a, b - 1);
      if IsListLine(lines[b - 1]) then g + [lines[b - 1]]
      else g[..|g| - 1] + [g[|g| - 1] + "\n" + lines[b - 1]]
  }

  /** Number of list lines in `lines[a..b]`. */
  function ListLines(lines: seq<string>, a: nat, b: nat): nat
    requires a <= b <= |lines|
    decreases b
  {
    if a == b then 0 else ListLines(lines, a, b - 1) + (if IsListLine(lines[b - 1]) then 1 else 0)
  }

  /** Grouping loses and reorders nothing: the items, joined with `\n`, are
   *  the run's lines joined with `\n`. */
  lemma {:induction false} GroupedJoin(lines: seq<string>, a: nat, b: nat)
    requires a < b <= |lines| && IsListLine(lines[a])
    ensures Join(Grouped(lines, a, b), "\n") == Join(lines[a..b], "\n")
    decreases b
  {
    if b == a + 1 {
      assert lines[a..b] == [lines[a]];
    } else {
      GroupedJoin(lines, a, b - 1);
      GroupedJoinStep(lines, a, b);
    }
  }

  lemma GroupedJoinStep(lines: seq<string>, a: nat, b: nat)
    requires a + 1 < b <= |lines| && IsListLine(lines[a])
    requires Join(Grouped(lines, a, b - 1), "\n") == Join(lines[a..b - 1], "\n")
    ensures Join(Grouped(lines, a, b), "\n") == Join(lines[a..b], "\n")
  {
    var g := Grouped(lines, a, b - 1);
    var x := lines[b - 1];
    assert Join(lines[a..b], "\n") == Join(lines[a..b - 1], "\n") + "\n" + x by {
      assert lines[a..b] == lines[a..b - 1] + [x];
      JoinSnoc(lines[a..b - 1], x, "\n");
    }
    if IsListLine(x) {
      assert Grouped(lines, a, b) == g + [x];
      JoinSnoc(g, x, "\n");
    } else {
      var front, last := g[..|g| - 1], g[|g| - 1];
      assert Grouped(lines, a, b) == front + [last + "\n" + x];
      assert g == front + [last];
      JoinGrowLast(front, last, x, "\n");
    }
  }

  /** Extending the last part by a separator and more text extends the
   *  joined text the same way. */
  lemma JoinGrowLast(front: seq<string>, last: string, x: string, sep: string)
    ensures Join(front + [last + sep + x], sep) == Join(front + [last], sep) + sep + x
  {
    if front == [] {
      assert front + [last] == [last];
      assert front + [last + sep + x] == [last + sep + x];
    } else {
      JoinSnoc(front, last, sep);
      JoinSnoc(front, last + sep + x, sep);
    }
  }

  /** One item per list line of the run. */
  lemma {:induction false} GroupedCount(lines: seq<string>, a: nat, b: nat)
    requires a < b <= |lines| && IsListLine(lines[a])
    ensures |Grouped(lines, a, b)| == ListLines(lines, a, b)
    decreases b
  {
    if b == a + 1 {
      assert ListLines(lines, a, a) == 0;
    } else {
      GroupedCount(lines, a, b - 1);
      var g := Grouped(lines, a, b - 1);
      if IsListLine(lines[b - 1]) {
        assert Grouped(lines, a, b) == g + [lines[b - 1]];
      } else {
        assert |Grouped(lines, a, b)| == |g[..|g| - 1]| + 1;
      }
    }
  }

  /** The checkbox ids of a run's items: the converter draws them at random,
   *  here item `k` of the run starting at line `i` gets `ids(i + k)`. */
  function IdsFrom(ids: nat -> string, i: nat, n: nat): (r: seq<string>)
    ensures |r| == n
  {
    seq(n, k requires 0 <= k < n => ids(i + k))
  }

  function ListHtml(lines: seq<string>, a: nat, b: nat, ids: nat -> string): string
    requires a < b <= |lines| && IsListLine(lines[a])
  {
    var items := Grouped(lines, a, b);
    Lists.ListBlock(items, IdsFrom(ids, a, |items|))
  }

  function Paragraph(line: string): string {
    "<p>" + Inline.ParseInline(line) + "</p>"
  }

  /* ---------------- the scanner ---------------- */

  /** One step of the scanner at line `i`: the piece of output and where the
   *  cursor goes next, which is always further on. */
  function Step(lines: seq<string>, i: nat, ids: nat -> string): (r: (string, nat))
    requires i < |lines|
    ensures i < r.1 <= |lines|
  {
    var line := lines[i];
    match HeadingOf(line)
    case Some(h) => (HeadingHtml(h), i + 1)
    case None =>
      if IsQuoteLine(line) then
        var e := QuoteRunEnd(lines, i);
        (Blockquote.QuoteBlock(lines[i..e]), e)
      else if IsListLine(line) then
        var e := ListRunEnd(lines, i + 1);
        (ListHtml(lines, i, e, ids), e)
      else (Paragraph(line), i + 1)
  }

  /** The output pieces of the lines from `i` on. */
  function Scan(lines: seq<string>, i: nat, ids: nat -> string): seq<string>
    requires i <= |lines|
    decreases |lines| - i
  {
    if i == |lines| then []
    else
      var (piece, next) := Step(lines, i, ids);
      [piece] + Scan(lines, next, ids)
  }

  /** The `while` loop over `lines` filling `processedLines`. */
  method ScanLines(lines: seq<string>, ids: nat -> string) returns (out: seq<string>)
    ensures out == Scan(lines, 0, ids)
  {
    out := [];
    var i := 0;
    while i < |lines|
      invariant i <= |lines|
      invariant Scan(lines, 0, ids) == out + Scan(lines, i, ids)
      decreases |lines| - i
    {
      var piece, next := ScanOne(lines, i, ids);
      ScanStep(lines, i, ids, out, piece, next);
      out, i := out + [piece], next;
    }
  }

  /** One pass of the loop body: the first test that matches line `i`
   *  decides the piece of output and how many lines it takes. */
  method ScanOne(lines: seq<string>, i: nat, ids: nat -> string) returns (piece: string, next: nat)
    requires i < |lines|
    ensures Step(lines, i, ids) == (piece, next)
  {
    var line := lines[i];
    var heading := HeadingOf(line);
    if heading.Some? {
      piece, next := HeadingHtml(heading.value), i + 1;
      StepHeading(lines, i, ids);
    } else if IsQuoteLine(line) {
      var quoteLines;
      quoteLines, next := QuoteRun(lines, i);
      piece := Blockquote.ParseNestedBlockquote(quoteLines);
      StepQuote(lines, i, ids);
    } else if IsListLine(line) {
      var listItems;
      listItems, next := ListRun(lines, i);
      piece := Lists.ParseList(listItems, IdsFrom(ids, i, |listItems|));
      StepList(lines, i, ids);
    } else {
      piece, next := Paragraph(line), i + 1;
      StepParagraph(lines, i, ids);
    }
  }

  lemma StepHeading(lines: seq<string>, i: nat, ids: nat -> string)
    requires i < |lines| && HeadingOf(lines[i]).Some?
    ensures Step(lines, i, ids) == (HeadingHtml(HeadingOf(lines[i]).value), i + 1)
  {
  }

  lemma StepQuote(lines: seq<string>, i: nat, ids: nat -> string)
    requires i < |lines| && HeadingOf(lines[i]).None? && IsQuoteLine(lines[i])
    ensures var e := QuoteRunEnd(lines, i);
      Step(lines, i, ids) == (Blockquote.QuoteBlock(lines[i..e]), e)
  {
  }

  lemma StepList(lines: seq<string>, i: nat, ids: nat -> string)
    requires i < |lines| && HeadingOf(lines[i]).None? && !IsQuoteLine(lines[i]) && IsListLine(lines[i])
    ensures var e := ListRunEnd(lines, i + 1);
      Step(lines, i, ids) == (ListHtml(lines, i, e, ids), e)
  {
  }

  lemma StepParagraph(lines: seq<string>, i: nat, ids: nat -> string)
    requires i < |lines| && HeadingOf(lines[i]).None? && !IsQuoteLine(lines[i]) && !IsListLine(lines[i])
    ensures Step(lines, i, ids) == (Paragraph(lines[i]), i + 1)
  {
  }

  /** Taking one step of the scanner keeps the loop's invariant. */
  lemma ScanStep(lines: seq<string>, i: nat, ids: nat -> string, out: seq<string>, piece: string, next: nat)
    requires i < |lines| && Step(lines, i, ids) == (piece, next)
    requires Scan(lines, 0, ids) == out + Scan(lines, i, ids)
    ensures next <= |lines| && Scan(lines, 0, ids) == (out + [piece]) + Scan(lines, next, ids)
  {
    assert Scan(lines, i, ids) == [piece] + Scan(lines, next, ids);
  }

  /** The inner loop collecting a run of quote lines. */
  method QuoteRun(lines: seq<string>, start: nat) returns (run: seq<string>, i: nat)
    requires start < |lines| && IsQuoteLine(lines[start])
    ensures i == QuoteRunEnd(lines, start)
    ensures run == lines[start..i]
  {
    run := [];
    i := start;
    while i < |lines| && IsQuoteLine(lines[i])
      invariant start <= i <= QuoteRunEnd(lines, start)
      invariant run == lines[start..i]
      decreases |lines| - i
    {
      run := run + [lines[i]];
      i := i + 1;
    }
  }

  /** The inner loop collecting a list run: a list line is pushed, a
   *  continuation line is appended to the last item, anything else ends
   *  the run. */
  method ListRun(lines: seq<string>, start: nat) returns (items: seq<string>, i: nat)
    requires start < |lines| && IsListLine(lines[start])
    ensures i == ListRunEnd(lines, start + 1)
    ensures items == Grouped(lines, start, i)
  {
    items := [];
    i := start;
    while i < |lines| && (IsListLine(lines[i]) || HasNonSpace(lines[i]))
      invariant start <= i <= ListRunEnd(lines, start + 1)
      invariant i == start ==> items == []
      invariant i > start ==> items == Grouped(lines, start, i)
      decreases |lines| - i
    {
      if IsListLine(lines[i]) {
        RunGoesOn(lines, start, i);
        items := items + [lines[i]];
      } else if |items| > 0 && lines[i - 1] != "" && EndsWith(lines[i - 1], "  ") {
        RunGoesOn(lines, start, i);
        items := items[..|items| - 1] + [items[|items| - 1] + "\n" + lines[i]];
      } else {
        RunStops(lines, start, i);
        break;
      }
      i := i + 1;
    }
    RunStops(lines, start, i);
  }

  lemma RunGoesOn(lines: seq<string>, start: nat, i: nat)
    requires start <= i < |lines|
    requires i <= ListRunEnd(lines, start + 1)
    requires i == start || InRun(lines, i)
    ensures i + 1 <= ListRunEnd(lines, start + 1)
  {
  }

  lemma RunStops(lines: seq<string>, start: nat, i: nat)
    requires start < |lines| && start < i
    requires i <= ListRunEnd(lines, start + 1)
    requires i == |lines| || !InRun(lines, i)
    ensures i == ListRunEnd(lines, start + 1)
  {
  }
}
