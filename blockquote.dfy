/**
 * `parseNestedBlockquote`: every line of a quote run gets a depth, the
 * number of leading `"> "` prefixes, and `buildQuoteHTML` folds the flat
 * (depth, content) sequence into nested `<blockquote>` elements.
 *
 * The fold is specified declaratively: a segment whose items are all at
 * depth `level` or deeper renders as one `<blockquote>` whose children,
 * joined with `<br>`, are the level's own lines and, for every maximal run
 * of deeper lines, the rendering of that run one level down.
 */
module Blockquote {
  import opened Text
  import Inline

  datatype QuoteItem = QuoteItem(level: nat, content: string)

  /** The depth of a line and what is left after its `"> "` prefixes. */
  function Depth(line: string): QuoteItem
    decreases |line|
  {
    if StartsWith(line, "> ") then
      var d := Depth(line[2..]);
      QuoteItem(d.level + 1, d.content)
    else QuoteItem(0, line)
  }

  /** The line is its depth's worth of `"> "` prefixes followed by a
   *  remainder that does not start with another one. */
  lemma {:induction false} DepthShape(line: string)
    ensures line == Repeat("> ", Depth(line).level) + Depth(line).content
    ensures !StartsWith(Depth(line).content, "> ")
    decreases |line|
  {
    if StartsWith(line, "> ") {
      DepthShape(line[2..]);
      assert line == "> " + line[2..];
    }
  }

  /** The prefix count and remainder are the only ones that describe the line. */
  lemma {:induction false} DepthUnique(line: string, level: nat, content: string)
    requires line == Repeat("> ", level) + content
    requires !StartsWith(content, "> ")
    ensures Depth(line) == QuoteItem(level, content)
    decreases level
  {
    if level > 0 {
      assert line == "> " + (Repeat("> ", level - 1) + content);
      assert line[2..] == Repeat("> ", level - 1) + content;
      DepthUnique(line[2..], level - 1, content);
    } else {
      assert line == content;
    }
  }

  /** A tab after `>` is not a prefix: such a line has depth 0. */
  lemma TabQuoteHasDepthZero(rest: string)
    ensures Depth(">\t" + rest).level == 0
  {
    var line := ">\t" + rest;
    assert line[1] == '\t';
    assert !StartsWith(line, "> ");
  }

  /** The per-line loop that counts and strips `"> "` prefixes. */
  method CountPrefixes(line: string) returns (item: QuoteItem)
    ensures item == Depth(line)
    ensures line == Repeat("> ", item.level) + item.content
    ensures !StartsWith(item.content, "> ")
  {
    DepthShape(line);
    var level := 0;
    var content := line;
    while StartsWith(content, "> ")
      invariant Depth(line) == QuoteItem(level + Depth(content).level, Depth(content).content)
      decreases |content|
    {
      level := level + 1;
      content := content[2..];
    }
    item := QuoteItem(level, content);
  }

  function Items(lines: seq<string>): (r: seq<QuoteItem>)
    ensures |r| == |lines|
    ensures forall j :: 0 <= j < |lines| ==> r[j] == Depth(lines[j])
  {
    if lines == [] then [] else [Depth(lines[0])] + Items(lines[1..])
  }

  /** Every item in `[a, b)` is at depth `level` or deeper. */
  predicate AtLeast(items: seq<QuoteItem>, a: nat, b: nat, level: nat)
    requires a <= b <= |items|
  {
    forall j :: a <= j < b ==> items[j].level >= level
  }

  /** The first index in `[a, b)` of an item shallower than `level`, or `b`. */
  function FirstBelow(items: seq<QuoteItem>, a: nat, b: nat, level: nat): (k: nat)
    requires a <= b <= |items|
    ensures a <= k <= b
    ensures AtLeast(items, a, k, level)
    ensures k < b ==> items[k].level < level
    decreases b - a
  {
    if a == b || items[a].level < level then a
    else FirstBelow(items, a + 1, b, level)
  }

  /** Any index with the first-shallower property is `FirstBelow`. */
  lemma {:induction false} FirstBelowUnique(items: seq<QuoteItem>, a: nat, b: nat, level: nat, k: nat)
    requires a <= k <= b <= |items|
    requires AtLeast(items, a, k, level)
    requires k < b ==> items[k].level < level
    ensures FirstBelow(items, a, b, level) == k
    decreases b - a
  {
    if a < k {
      FirstBelowUnique(items, a + 1, b, level, k);
    }
  }

  /** `FirstBelow` never passes a shallower item. */
  lemma {:induction false} FirstBelowBefore(items: seq<QuoteItem>, a: nat, b: nat, level: nat, j: nat)
    requires a <= j < b <= |items| && items[j].level < level
    ensures FirstBelow(items, a, b, level) <= j
    decreases b - a
  {
    if items[a].level >= level {
      FirstBelowBefore(items, a + 1, b, level, j);
    }
  }

  /** How far the deepest item of `[a, b)` lies below `level`. */
  function Height(items: seq<QuoteItem>, a: nat, b: nat, level: nat): nat
    requires a <= b <= |items|
    decreases b - a
  {
    if a == b then 0
    else
      var h := Height(items, a + 1, b, level);
      var here := if items[a].level > level then items[a].level - level else 0;
      if here >= h then here else h
  }

  /** `Height` is the depth of the deepest item: no item lies further
   *  below `level`, and, when it is positive, some item lies exactly that
   *  far below. */
  lemma {:induction false} HeightBounds(items: seq<QuoteItem>, a: nat, b: nat, level: nat)
    requires a <= b <= |items|
    ensures forall j :: a <= j < b ==> items[j].level <= level + Height(items, a, b, level)
    ensures Height(items, a, b, level) > 0 ==>
      exists j :: a <= j < b && items[j].level == level + Height(items, a, b, level)
    decreases b - a
  {
    if a < b {
      HeightBounds(items, a + 1, b, level);
      var h := Height(items, a, b, level);
      if h > 0 && h != Height(items, a + 1, b, level) {
        assert items[a].level == level + h;
      }
    }
  }

  lemma HeightDrops(items: seq<QuoteItem>, a: nat, k: nat, b: nat, level: nat)
    requires a < b <= |items| && a <= k <= b && items[a].level > level
    ensures Height(items, a, k, level + 1) < Height(items, a, b, level)
  {
    var h := Height(items, a, b, level);
    var h' := Height(items, a, k, level + 1);
    HeightBounds(items, a, b, level);
    HeightBounds(items, a, k, level + 1);
    assert items[a].level <= level + h;
    if h' > 0 {
      var j :| a <= j < k && items[j].level == level + 1 + h';
      assert items[j].level <= level + h;
    }
  }

  /** The inline-parsed content of every item, in order. */
  function Texts(items: seq<QuoteItem>): (texts: seq<string>)
    ensures |texts| == |items|
    decreases |items|
  {
    if items == [] then [] else [Inline.ParseInline(items[0].content)] + Texts(items[1..])
  }

  /** Entry `j` of `Texts` is item `j`'s content, inline-parsed. */
  lemma {:induction false} TextAt(items: seq<QuoteItem>, j: nat)
    requires j < |items|
    ensures Texts(items)[j] == Inline.ParseInline(items[j].content)
    decreases j
  {
    if j > 0 {
      TextAt(items[1..], j - 1);
    }
  }

  /** `parseInline(item.content)` for the line at `i`. */
  method QuoteText(items: seq<QuoteItem>, i: nat) returns (text: string)
    requires i < |items|
    ensures text == Texts(items)[i]
  {
    text := Inline.ParseInline(items[i].content);
    TextAt(items, i);
  }

  /** The children of the `<blockquote>` at `level` built from `[a, b)`,
   *  given each item's inline-parsed content `texts`: the text of each
   *  line of that depth, and for each maximal run of deeper lines its own
   *  element one level down. */
  function Children(items: seq<QuoteItem>, texts: seq<string>, a: nat, b: nat, level: nat): seq<string>
    requires a <= b <= |items| == |texts| && AtLeast(items, a, b, level)
    decreases b - a, Height(items, a, b, level), 0
  {
    if a == b then []
    else if items[a].level == level then
      [texts[a]] + Children(items, texts, a + 1, b, level)
    else
      var k := FirstBelow(items, a, b, level + 1);
      HeightDrops(items, a, k, b, level);
      [QuoteHtml(items, texts, a, k, level + 1)] + Children(items, texts, k, b, level)
  }

  /** The `<blockquote>` element for `[a, b)`, whose items are all at `level`
   *  or deeper. */
  function QuoteHtml(items: seq<QuoteItem>, texts: seq<string>, a: nat, b: nat, level: nat): string
    requires a <= b <= |items| == |texts| && AtLeast(items, a, b, level)
    decreases b - a, Height(items, a, b, level), 1
  {
    "<blockquote>" + Join(Children(items, texts, a, b, level), "<br>") + "</blockquote>"
  }

  /** Where the block of a quote run ends: at its first depth-0 line. */
  function QuoteEnd(lines: seq<string>): nat
    ensures QuoteEnd(lines) <= |lines|
  {
    FirstBelow(Items(lines), 0, |lines|, 1)
  }

  /** The whole blockquote of a run of quote lines: the fold at depth 1 of
   *  the lines before the first one of depth 0. */
  function QuoteBlock(lines: seq<string>): string {
    var items := Items(lines);
    QuoteHtml(items, Texts(items), 0, FirstBelow(items, 0, |items|, 1), 1)
  }

  /** `buildQuoteHTML`: consumes items from `start` while they are at depth
   *  `level` or deeper, recursing one level down for deeper runs. */
  method BuildQuote(items: seq<QuoteItem>, start: nat, level: nat) returns (html: string, next: nat)
    requires start <= |items|
    ensures next == FirstBelow(items, start, |items|, level)
    ensures start < |items| && items[start].level >= level ==> start < next
    ensures html == QuoteHtml(items, Texts(items), start, next, level)
    decreases Height(items, 0, |items|, 0) - level
  {
    ghost var texts := Texts(items);
    ghost var stop := FirstBelow(items, start, |items|, level);
    var contentLines: seq<string> := [];
    var i := start;
    while i < |items|
      invariant start <= i <= stop
      invariant Walked(items, texts, start, stop, level, contentLines, i)
      decreases |items| - i
    {
      var item := items[i];
      if item.level < level {
        break;
      }
      assert i < stop;
      if item.level == level {
        var text := QuoteText(items, i);
        StepLine(items, texts, start, stop, i, level, contentLines);
        contentLines := contentLines + [text];
        i := i + 1;
      } else {
        assert items[i].level <= Height(items, 0, |items|, 0) by {
          HeightBounds(items, 0, |items|, 0);
        }
        var childHtml, childNext := BuildQuote(items, i, level + 1);
        ChildRun(items, stop, i, level);
        StepRun(items, texts, start, stop, i, childNext, level, contentLines);
        contentLines := contentLines + [childHtml];
        i := childNext;
      }
    }
    Finished(items, texts, start, stop, level, contentLines, i);
    html := "<blockquote>" + Join(contentLines, "<br>") + "</blockquote>";
    next := i;
  }

  /** `done` holds the children of `[start, stop)` that come before `i`. */
  predicate Walked(items: seq<QuoteItem>, texts: seq<string>, start: nat, stop: nat, level: nat,
                   done: seq<string>, i: nat)
    requires start <= i <= stop <= |items| == |texts| && AtLeast(items, start, stop, level)
  {
    Children(items, texts, start, stop, level) == done + Children(items, texts, i, stop, level)
  }

  /** The loop invariant of `BuildQuote` across a line at the current depth. */
  lemma StepLine(items: seq<QuoteItem>, texts: seq<string>, start: nat, stop: nat, i: nat, level: nat, done: seq<string>)
    requires start <= i < stop <= |items| == |texts| && AtLeast(items, start, stop, level)
    requires items[i].level == level && Walked(items, texts, start, stop, level, done, i)
    ensures Walked(items, texts, start, stop, level, done + [texts[i]], i + 1)
  {
    assert Children(items, texts, i, stop, level) == [texts[i]] + Children(items, texts, i + 1, stop, level);
  }

  /** The loop invariant of `BuildQuote` across a deeper run. */
  lemma StepRun(items: seq<QuoteItem>, texts: seq<string>, start: nat, stop: nat, i: nat, k: nat, level: nat,
                done: seq<string>)
    requires start <= i < stop <= |items| == |texts| && AtLeast(items, start, stop, level)
    requires items[i].level > level && k == FirstBelow(items, i, stop, level + 1)
    requires Walked(items, texts, start, stop, level, done, i)
    ensures i < k <= stop
    ensures Walked(items, texts, start, stop, level, done + [QuoteHtml(items, texts, i, k, level + 1)], k)
  {
    assert Children(items, texts, i, stop, level)
        == [QuoteHtml(items, texts, i, k, level + 1)] + Children(items, texts, k, stop, level);
  }

  /** A walk that has reached the end of its run has collected every child. */
  lemma Finished(items: seq<QuoteItem>, texts: seq<string>, start: nat, stop: nat, level: nat,
                 done: seq<string>, i: nat)
    requires start <= i <= stop <= |items| == |texts| && AtLeast(items, start, stop, level)
    requires Walked(items, texts, start, stop, level, done, i)
    requires i == |items| || items[i].level < level
    ensures i == stop
    ensures QuoteHtml(items, texts, start, stop, level) == "<blockquote>" + Join(done, "<br>") + "</blockquote>"
  {
    assert i == stop;
    assert Children(items, texts, i, stop, level) == [];
    assert done == Children(items, texts, start, stop, level);
  }

  /** A deeper run found by the cursor is the run `Children` cuts off. */
  lemma ChildRun(items: seq<QuoteItem>, stop: nat, i: nat, level: nat)
    requires i < stop <= |items|
    requires AtLeast(items, i, stop, level)
    requires stop < |items| ==> items[stop].level < level
    requires items[i].level > level
    ensures FirstBelow(items, i, |items|, level + 1) == FirstBelow(items, i, stop, level + 1)
  {
    var f := FirstBelow(items, i, stop, level + 1);
    if f == stop && stop < |items| {
      assert items[stop].level < level + 1;
    }
    FirstBelowUnique(items, i, |items|, level + 1, f);
  }

  /** `parseNestedBlockquote`: the per-line prefix loop, then the fold from
   *  depth 1. */
  method ParseNestedBlockquote(lines: seq<string>) returns (html: string)
    ensures html == QuoteBlock(lines)
  {
    var items: seq<QuoteItem> := [];
    var j := 0;
    while j < |lines|
      invariant j <= |lines|
      invariant |items| == j
      invariant forall k :: 0 <= k < j ==> items[k] == Depth(lines[k])
    {
      var item := CountPrefixes(lines[j]);
      items := items + [item];
      j := j + 1;
    }
    assert items == Items(lines);
    var next;
    html, next := BuildQuote(items, 0, 1);
  }

  /** Lines that all have depth `level` render as one element holding their
   *  texts, in order, joined with `<br>`. */
  lemma {:induction false} FlatChildren(items: seq<QuoteItem>, texts: seq<string>, a: nat, b: nat, level: nat)
    requires a <= b <= |items| == |texts|
    requires forall j :: a <= j < b ==> items[j].level == level
    ensures Children(items, texts, a, b, level) == texts[a..b]
    decreases b - a
  {
    if a < b {
      FlatChildren(items, texts, a + 1, b, level);
      assert texts[a..b] == [texts[a]] + texts[a + 1..b];
    }
  }

  /** A depth-0 line ends the block: nothing from it on is rendered. */
  lemma DepthZeroEndsBlock(lines: seq<string>, j: nat)
    requires j < |lines| && Depth(lines[j]).level == 0
    ensures QuoteEnd(lines) <= j
  {
    FirstBelowBefore(Items(lines), 0, |lines|, 1, j);
  }

  /** Only lines that all have depth 1 or more end the block at its end. */
  lemma QuoteEndIsFirstDepthZero(lines: seq<string>)
    ensures forall j :: 0 <= j < QuoteEnd(lines) ==> Depth(lines[j]).level >= 1
    ensures QuoteEnd(lines) < |lines| ==> Depth(lines[QuoteEnd(lines)]).level == 0
  {
  }

  /** `k` texts, each one `<blockquote>` deeper than the one before: the
   *  first element holds the first text and, after a `<br>`, the element
   *  of the rest. */
  function Nest(texts: seq<string>): string
    requires texts != []
    decreases |texts|
  {
    if |texts| == 1 then "<blockquote>" + texts[0] + "</blockquote>"
    else "<blockquote>" + texts[0] + "<br>" + Nest(texts[1..]) + "</blockquote>"
  }

  /** A staircase of items, item `j` at depth `j + 1`, renders from `a` on
   *  as `Nest` of its texts. */
  lemma {:induction false} StaircaseHtml(items: seq<QuoteItem>, texts: seq<string>, a: nat, n: nat)
    requires a < n <= |items| == |texts|
    requires forall j :: a <= j < n ==> items[j].level == j + 1
    ensures AtLeast(items, a, n, a + 1)
    ensures QuoteHtml(items, texts, a, n, a + 1) == Nest(texts[a..n])
    decreases n - a
  {
    assert AtLeast(items, a, n, a + 1);
    if a + 1 == n {
      assert Children(items, texts, a, n, a + 1) == [texts[a]] by {
        assert Children(items, texts, a + 1, n, a + 1) == [];
      }
      JoinOne(texts[a], "<br>");
    } else {
      StaircaseHtml(items, texts, a + 1, n);
      var inner := QuoteHtml(items, texts, a + 1, n, a + 2);
      assert Children(items, texts, a + 1, n, a + 1) == [inner] by {
        FirstBelowUnique(items, a + 1, n, a + 2, n);
        assert Children(items, texts, n, n, a + 1) == [];
      }
      assert Children(items, texts, a, n, a + 1) == [texts[a]] + [inner];
      JoinOne(inner, "<br>");
      JoinCons(texts[a], [inner], "<br>");
      assert texts[a..n][1..] == texts[a + 1..n];
    }
  }

  /** Line `j` carries `j + 1` prefixes before `cs[j]`. */
  function Staircase(cs: seq<string>): (lines: seq<string>)
    ensures |lines| == |cs|
    ensures forall j :: 0 <= j < |cs| ==> lines[j] == Repeat("> ", j + 1) + cs[j]
  {
    seq(|cs|, j requires 0 <= j < |cs| => Repeat("> ", j + 1) + cs[j])
  }

  /** Each of `cs`, inline-parsed. */
  function ParsedEach(cs: seq<string>): (texts: seq<string>)
    ensures |texts| == |cs|
    ensures forall j :: 0 <= j < |cs| ==> texts[j] == Inline.ParseInline(cs[j])
  {
    seq(|cs|, j requires 0 <= j < |cs| => Inline.ParseInline(cs[j]))
  }

  /** `k` lines, line `j` carrying `j + 1` prefixes, give exactly `k`
   *  nested `<blockquote>` elements, one per line, each holding its
   *  line's inline-parsed remainder. */
  lemma NestedLevels(cs: seq<string>)
    requires cs != []
    requires forall j :: 0 <= j < |cs| ==> !StartsWith(cs[j], "> ")
    ensures QuoteBlock(Staircase(cs)) == Nest(ParsedEach(cs))
  {
    var lines := Staircase(cs);
    var items := Items(lines);
    StaircaseItems(lines, cs);
    StaircaseTexts(items, cs);
    StaircaseHtml(items, Texts(items), 0, |cs|);
    FirstBelowUnique(items, 0, |cs|, 1, |cs|);
    assert Texts(items)[0..|cs|] == Texts(items);
  }

  /** Line `j` of the staircase is an item at depth `j + 1`. */
  lemma StaircaseItems(lines: seq<string>, cs: seq<string>)
    requires |lines| == |cs| && forall j :: 0 <= j < |cs| ==> !StartsWith(cs[j], "> ")
    requires forall j :: 0 <= j < |cs| ==> lines[j] == Repeat("> ", j + 1) + cs[j]
    ensures forall j :: 0 <= j < |cs| ==> Items(lines)[j] == QuoteItem(j + 1, cs[j])
  {
    forall j | 0 <= j < |cs|
      ensures Items(lines)[j] == QuoteItem(j + 1, cs[j])
    {
      DepthUnique(lines[j], j + 1, cs[j]);
    }
  }

  /** Each item's text is its content, inline-parsed. */
  lemma StaircaseTexts(items: seq<QuoteItem>, cs: seq<string>)
    requires |items| == |cs| && forall j :: 0 <= j < |cs| ==> items[j].content == cs[j]
    ensures Texts(items) == ParsedEach(cs)
  {
    forall j | 0 <= j < |cs|
      ensures Texts(items)[j] == Inline.ParseInline(cs[j])
    {
      TextAt(items, j);
    }
  }

  /** A line `"> " + l1` followed by `"> > " + l2` nests the second line in
   *  a blockquote inside the first. */
  lemma TwoLevels(l1: string, l2: string)
    requires !StartsWith(l1, "> ") && !StartsWith(l2, "> ")
    ensures QuoteBlock(["> " + l1, "> " + ("> " + l2)])
         == "<blockquote>" + (Inline.ParseInline(l1) + "<br>"
          + ("<blockquote>" + Inline.ParseInline(l2) + "</blockquote>")) + "</blockquote>"
  {
    var items := Items(["> " + l1, "> " + ("> " + l2)]);
    TwoLevelsItems(l1, l2);
    assert FirstBelow(items, 0, 2, 1) == 2;
    var texts := Texts(items);
    TextAt(items, 0);
    TextAt(items, 1);
    TwoLevelsHtml(items, texts, l1, l2);
  }

  lemma TwoLevelsItems(l1: string, l2: string)
    requires !StartsWith(l1, "> ") && !StartsWith(l2, "> ")
    ensures Items(["> " + l1, "> " + ("> " + l2)]) == [QuoteItem(1, l1), QuoteItem(2, l2)]
  {
    ItemsPair("> " + l1, "> " + ("> " + l2));
    DepthPrefix(l1);
    DepthPrefix("> " + l2);
    DepthPrefix(l2);
  }

  lemma ItemsPair(x: string, y: string)
    ensures Items([x, y]) == [Depth(x), Depth(y)]
  {
  }

  /** One more prefix, one more level. */
  lemma DepthPrefix(s: string)
    ensures Depth("> " + s) == QuoteItem(Depth(s).level + 1, Depth(s).content)
  {
    assert ("> " + s)[2..] == s;
  }

  lemma TwoLevelsHtml(items: seq<QuoteItem>, texts: seq<string>, l1: string, l2: string)
    requires items == [QuoteItem(1, l1), QuoteItem(2, l2)] && |texts| == 2
    ensures QuoteHtml(items, texts, 0, 2, 1)
         == "<blockquote>" + (texts[0] + "<br>"
          + ("<blockquote>" + texts[1] + "</blockquote>")) + "</blockquote>"
  {
    var p1, p2 := texts[0], texts[1];
    var inner := "<blockquote>" + p2 + "</blockquote>";
    assert Children(items, texts, 1, 2, 1) == [inner] by {
      assert FirstBelow(items, 1, 2, 2) == 2;
      assert Children(items, texts, 1, 2, 2) == [p2];
      JoinOne(p2, "<br>");
      assert QuoteHtml(items, texts, 1, 2, 2) == inner;
    }
    assert Children(items, texts, 0, 2, 1) == [p1] + [inner];
    JoinOne(inner, "<br>");
    JoinCons(p1, [inner], "<br>");
  }
}
