/**
 * `parseList`: every raw item (a list line, possibly with continuation
 * lines appended) is classified into a nesting level, a kind and a content,
 * and `buildListHTML` folds the flat sequence into nested `<ul>`/`<ol>`.
 *
 * Checkbox ids come from `Math.random` in the converter; here they are an
 * input, one id per item.
 */
module Lists {
  import opened Text
  import Inline

  datatype Kind = Checklist(checked: bool) | Ordered | Unordered

  datatype ListItem = ListItem(level: nat, kind: Kind, content: string)

  /** Length of the run of ASCII digits at the front of `s`. */
  function DigitRun(s: string): (n: nat)
    ensures n <= |s|
    ensures forall k :: 0 <= k < n ==> IsDigit(s[k])
    ensures n == |s| || !IsDigit(s[n])
  {
    if s != [] && IsDigit(s[0]) then DigitRun(s[1..]) + 1 else 0
  }

  /** `^(\s*)- \[([ x])\]\s(.+)$`: the leading blanks are necessarily the
   *  longest run (a `-` follows), and `(.+)$` takes the whole rest, which must
   *  be non-empty and free of line terminators. */
  predicate IsChecklist(s: string) {
    var w := LeadingSpaces(s);
    && w + 6 < |s|
    && s[w] == '-' && s[w + 1] == ' ' && s[w + 2] == '['
    && (s[w + 3] == ' ' || s[w + 3] == 'x')
    && s[w + 4] == ']' && IsSpace(s[w + 5])
    && NoLineTerminator(s[w + 6..])
  }

  /** `^\s*\d+\.\s` */
  predicate IsOrderedLine(s: string) {
    var w := LeadingSpaces(s);
    var d := DigitRun(s[w..]);
    d >= 1 && w + d + 1 < |s| && s[w + d] == '.' && IsSpace(s[w + d + 1])
  }

  /** Length of the match of `^\s*(?:[-*]|\d+\.)\s`, or 0 when it does not match. */
  function MarkerEnd(s: string): (n: nat)
    ensures n <= |s|
  {
    var w := LeadingSpaces(s);
    if w + 1 < |s| && (s[w] == '-' || s[w] == '*') && IsSpace(s[w + 1]) then w + 2
    else if IsOrderedLine(s) then w + DigitRun(s[w..]) + 2
    else 0
  }

  /** Two trailing spaces before a line break become `<br>`. */
  function Breaks(s: string): string {
    ReplaceAll(s, "  \n", "<br>")
  }

  /** The kind of a raw item and where its content starts: the checklist
   *  pattern is tried first; otherwise the item is ordered when it starts
   *  with digits, a dot and a blank, and the content follows whatever list
   *  marker the item starts with. */
  function Marked(s: string): (r: (Kind, nat))
    ensures r.1 <= |s|
  {
    var w := LeadingSpaces(s);
    if IsChecklist(s) then (Checklist(s[w + 3] == 'x'), w + 6)
    else if IsOrderedLine(s) then (Ordered, MarkerEnd(s))
    else (Unordered, MarkerEnd(s))
  }

  /** The classification of one raw item. */
  function Classify(s: string): ListItem {
    var (kind, start) := Marked(s);
    ListItem(LeadingSpaces(s) / 2, kind, Breaks(s[start..]))
  }

  function ClassifyAll(raw: seq<string>): (r: seq<ListItem>)
    ensures |r| == |raw|
    ensures forall j :: 0 <= j < |raw| ==> r[j] == Classify(raw[j])
  {
    seq(|raw|, j requires 0 <= j < |raw| => Classify(raw[j]))
  }

  /** The marker a well-formed item line is written with. */
  function Marker(k: Kind): string {
    match k
    case Checklist(c) => if c then "- [x] " else "- [ ] "
    case Ordered => "1. "
    case Unordered => "* "
  }

  /** The raw line of an item: two blanks per level, the marker, the content. */
  function Format(x: ListItem): string {
    Repeat(" ", 2 * x.level) + Marker(x.kind) + x.content
  }

  /** Classification reads back every item written by `Format`, provided the
   *  content is one line (and, for a checklist, not empty). */
  lemma ClassifyFormat(x: ListItem)
    requires NoLineTerminator(x.content)
    requires x.kind.Checklist? ==> x.content != []
    ensures Classify(Format(x)) == x
  {
    var s := Format(x);
    var w := 2 * x.level;
    FormatShape(x);
    BreaksOneLine(x.content);
    var n: nat;
    match x.kind {
      case Checklist(c) => n := MarkedChecklist(s, w, c, x.content);
      case Ordered =>
        assert "1. " == "1" + "." + [' '];
        n := MarkedOrdered(s, w, "1", ' ', x.content);
      case Unordered =>
        assert s[w] == '*';
        n := MarkedBullet(s, w, '*', ' ', x.content);
    }
    assert Classify(s) == ListItem(w / 2, x.kind, Breaks(s[n..]));
  }

  lemma FormatShape(x: ListItem)
    ensures 2 * x.level <= |Format(x)|
    ensures LeadingSpaces(Format(x)) == 2 * x.level
    ensures Format(x)[2 * x.level..] == Marker(x.kind) + x.content
  {
    var w := 2 * x.level;
    var body := Marker(x.kind) + x.content;
    LeadingBlanks(w, body);
    assert Format(x) == Repeat(" ", w) + body;
  }

  lemma MarkedChecklist(s: string, w: nat, c: bool, content: string) returns (n: nat)
    requires NoLineTerminator(content) && content != []
    requires w <= |s| && LeadingSpaces(s) == w
    requires s[w..] == (if c then "- [x] " else "- [ ] ") + content
    ensures Marked(s) == (Checklist(c), n) && n <= |s| && s[n..] == content
  {
    var t := s[w..];
    assert t[0] == '-' && t[1] == ' ' && t[2] == '[' && t[3] == (if c then 'x' else ' ');
    assert t[4] == ']' && t[5] == ' ';
    assert s[w] == '-' && s[w + 1] == ' ' && s[w + 2] == '[' && s[w + 3] == t[3];
    assert s[w + 4] == ']' && s[w + 5] == ' ';
    assert s[w + 6..] == t[6..] == content;
    assert IsChecklist(s);
    n := w + 6;
  }

  /** An item whose marker is a run of digits, a dot and a blank is ordered,
   *  and its content follows the marker. */
  lemma MarkedOrdered(s: string, w: nat, d: string, b: char, content: string) returns (n: nat)
    requires w <= |s| && LeadingSpaces(s) == w
    requires d != [] && (forall k :: 0 <= k < |d| ==> IsDigit(d[k])) && IsSpace(b)
    requires s[w..] == d + "." + [b] + content
    ensures Marked(s) == (Ordered, n) && n <= |s| && s[n..] == content
  {
    var t := s[w..];
    DigitRunPrefix(d, "." + [b] + content);
    assert t[|d|] == '.' && t[|d| + 1] == b;
    assert s[w] == d[0] && IsDigit(s[w]);
    assert !IsChecklist(s);
    assert IsOrderedLine(s);
    assert MarkerEnd(s) == w + |d| + 2;
    assert s[w + |d| + 2..] == t[|d| + 2..] == content;
    n := w + |d| + 2;
  }

  /** The digit run of a text that starts with digits followed by a
   *  non-digit is exactly those digits. */
  lemma {:induction false} DigitRunPrefix(d: string, rest: string)
    requires forall k :: 0 <= k < |d| ==> IsDigit(d[k])
    requires rest == [] || !IsDigit(rest[0])
    ensures DigitRun(d + rest) == |d|
    decreases |d|
  {
    if d == [] {
      assert d + rest == rest;
    } else {
      assert (d + rest)[1..] == d[1..] + rest;
      DigitRunPrefix(d[1..], rest);
    }
  }

  /** An item whose marker is `-` or `*` followed by a blank, and which is
   *  not a checklist, is unordered, and its content follows the marker. */
  lemma MarkedBullet(s: string, w: nat, m: char, b: char, content: string) returns (n: nat)
    requires w <= |s| && LeadingSpaces(s) == w
    requires (m == '-' || m == '*') && IsSpace(b) && !IsChecklist(s)
    requires s[w..] == [m, b] + content
    ensures Marked(s) == (Unordered, n) && n <= |s| && s[n..] == content
  {
    var t := s[w..];
    assert t[0] == m && t[1] == b;
    assert DigitRun(t) == 0;
    assert s[w] == m && s[w + 1] == b;
    assert !IsOrderedLine(s);
    assert MarkerEnd(s) == w + 2;
    assert s[w + 2..] == t[2..] == content;
    n := w + 2;
  }

  lemma {:induction false} LeadingBlanks(n: nat, t: string)
    requires t != [] && !IsSpace(t[0])
    ensures LeadingSpaces(Repeat(" ", n) + t) == n
    decreases n
  {
    if n > 0 {
      var s := Repeat(" ", n) + t;
      assert s == " " + (Repeat(" ", n - 1) + t);
      assert s[1..] == Repeat(" ", n - 1) + t;
      LeadingBlanks(n - 1, t);
    } else {
      assert Repeat(" ", n) + t == t;
    }
  }

  lemma BreaksOneLine(s: string)
    requires NoLineTerminator(s)
    ensures Breaks(s) == s
  {
    forall k | 0 <= k < |s| ensures !OccursAt(s, "  \n", k) {
      if k + 3 <= |s| {
        assert s[k..][..3][2] == s[k + 2];
      }
    }
    ReplaceAllAbsent(s, "  \n", "<br>");
  }

  /** A checklist item that received a continuation line no longer matches
   *  the checklist pattern: it becomes a plain bullet whose content keeps the
   *  `[ ]` box as text. */
  lemma ChecklistWithContinuation(head: string, tail: string)
    ensures Classify("- [ ] " + head + "\n" + tail).kind == Unordered
    ensures Classify("- [ ] " + head + "\n" + tail).content == Breaks("[ ] " + head + "\n" + tail)
  {
    var s := "- [ ] " + head + "\n" + tail;
    assert !IsSpace(s[0]);
    assert LeadingSpaces(s) == 0;
    assert s[6..] == head + "\n" + tail;
    assert s[6..][|head|] == '\n';
    assert !IsChecklist(s);
    assert !IsOrderedLine(s) by {
      assert s[0..][0] == '-';
    }
    assert MarkerEnd(s) == 2;
    assert s[2..] == "[ ] " + head + "\n" + tail;
  }

  /** Every index of `[a, b)` holds an item deeper than `parent`. */
  predicate Above(items: seq<ListItem>, a: nat, b: nat, parent: int)
    requires a <= b <= |items|
  {
    forall j :: a <= j < b ==> items[j].level > parent
  }

  /** The first index in `[a, b)` whose item is at `parent` or shallower, or `b`. */
  function FirstAtMost(items: seq<ListItem>, a: nat, b: nat, parent: int): (k: nat)
    requires a <= b <= |items|
    ensures a <= k <= b
    ensures Above(items, a, k, parent)
    ensures k < b ==> items[k].level <= parent
    decreases b - a
  {
    if a == b || items[a].level <= parent then a
    else FirstAtMost(items, a + 1, b, parent)
  }

  lemma {:induction false} FirstAtMostUnique(items: seq<ListItem>, a: nat, b: nat, parent: int, k: nat)
    requires a <= k <= b <= |items|
    requires Above(items, a, k, parent)
    requires k < b ==> items[k].level <= parent
    ensures FirstAtMost(items, a, b, parent) == k
    decreases b - a
  {
    if a < k {
      FirstAtMostUnique(items, a + 1, b, parent, k);
    }
  }

  function ListTag(k: Kind): string {
    if k == Ordered then "ol" else "ul"
  }

  /** The opening of an `<li>`; a checklist box is always disabled and is
   *  checked exactly when the marker was `x`. */
  function LiOpen(item: ListItem, id: string): string {
    match item.kind
    case Checklist(checked) =>
      CheckboxHead + id + "\" " + (if checked then "checked" else "") + " disabled><label for=\"" + id + "\">"
      + Inline.ParseInline(item.content) + "</label></div>"
    case _ => "<li>" + Inline.ParseInline(item.content)
  }

  const CheckboxHead := "<li class=\"checklist-item\"><div class=\"checklist-content\"><input type=\"checkbox\" id=\""

  function SubList(tag: string, inner: string): string {
    "<" + tag + ">" + inner + "</" + tag + ">"
  }

  /** Where the entry starting at `a` ends: past its sub-list, if it opens
   *  one, otherwise right after it. */
  function Next(items: seq<ListItem>, a: nat, b: nat, parent: int): (k: nat)
    requires a < b <= |items|
    ensures a < k <= b
  {
    if items[a].level == parent + 1 && a + 1 < b && items[a + 1].level > items[a].level
    then FirstAtMost(items, a + 1, b, parent + 1)
    else a + 1
  }

  /** The opening of every item, by index. */
  function Openings(items: seq<ListItem>, ids: seq<string>): (opens: seq<string>)
    requires |ids| == |items|
    ensures |opens| == |items|
    ensures forall j :: 0 <= j < |items| ==> opens[j] == LiOpen(items[j], ids[j])
  {
    seq(|items|, j requires 0 <= j < |items| => LiOpen(items[j], ids[j]))
  }

  /** A checklist item opens with a checkbox carrying its id; the box is
   *  `checked` right after the id exactly when the item is checked, and is
   *  `disabled` either way. Any other item opens a plain `<li>` with its
   *  inline-parsed content, whatever the id. */
  lemma CheckboxState(item: ListItem, id: string, id': string)
    ensures item.kind.Checklist? ==>
      var o := LiOpen(item, id);
      var p := |CheckboxHead| + |id|;
      && StartsWith(o, CheckboxHead + id + "\"")
      && (item.kind.checked <==> OccursAt(o, " checked", p + 1))
      && OccursAt(o, " disabled>", if item.kind.checked then p + 9 else p + 2)
    ensures !item.kind.Checklist? ==>
      LiOpen(item, id) == LiOpen(item, id') == "<li>" + Inline.ParseInline(item.content)
  {
    if item.kind.Checklist? {
      var text := Inline.ParseInline(item.content);
      var tail := " disabled><label for=\"" + (id + "\">" + text + "</label></div>");
      OpeningTail(id, item.kind.checked, text);
      BoxLayout(LiOpen(item, id), id, item.kind.checked, tail);
    }
  }

  /** A checklist opening splits after the `checked` mark, before the
   *  `disabled` attribute. */
  lemma OpeningTail(id: string, c: bool, text: string)
    ensures var tail := " disabled><label for=\"" + (id + "\">" + text + "</label></div>");
      && StartsWith(tail, " disabled>")
      && CheckboxHead + id + "\" " + (if c then "checked" else "") + " disabled><label for=\"" + id + "\">"
           + text + "</label></div>"
         == CheckboxHead + id + "\" " + (if c then "checked" else "") + tail
  {
    var tail := " disabled><label for=\"" + (id + "\">" + text + "</label></div>");
    Regroup6(CheckboxHead + id + "\" " + (if c then "checked" else ""), " disabled><label for=\"", id, "\">",
             text, "</label></div>");
    assert tail[..10] == " disabled>";
  }

  lemma Regroup6(x: string, a: string, b: string, c: string, d: string, e: string)
    ensures x + a + b + c + d + e == x + (a + (b + c + d + e))
  {
  }

  /** Where the id, the `checked` mark and the `disabled` attribute sit in a
   *  checklist opening, given the part from `disabled` on. */
  lemma BoxLayout(o: string, id: string, c: bool, tail: string)
    requires o == CheckboxHead + id + "\" " + (if c then "checked" else "") + tail
    requires StartsWith(tail, " disabled>")
    ensures var p := |CheckboxHead| + |id|;
      && StartsWith(o, CheckboxHead + id + "\"")
      && (c <==> OccursAt(o, " checked", p + 1))
      && OccursAt(o, " disabled>", if c then p + 9 else p + 2)
  {
    var mark := if c then "checked" else "";
    var p := |CheckboxHead| + |id|;
    assert o == (CheckboxHead + id + "\"") + (" " + mark + tail);
    assert o[p + 1..] == " " + mark + tail;
    if c {
      assert o[p + 1..][..8] == " checked";
      assert o[p + 9..] == tail;
    } else {
      assert o[p + 1..][1] == ' ';
      assert o[p + 2..] == tail;
    }
  }

  /** The HTML for the item at `a` under a parent at level `parent`, given
   *  each item's opening: an item one level deeper opens an `<li>`, takes the
   *  run of deeper items right after it as its sub-list (whose tag comes from
   *  that run's first item), and closes the `<li>`; any other item gives
   *  nothing. */
  function Entry(items: seq<ListItem>, opens: seq<string>, a: nat, b: nat, parent: int): string
    requires a < b <= |items| == |opens|
    decreases b - a, 0
  {
    if items[a].level != parent + 1 then ""
    else if a + 1 < b && items[a + 1].level > items[a].level then
      opens[a]
      + SubList(ListTag(items[a + 1].kind), Entries(items, opens, a + 1, Next(items, a, b, parent), parent + 1))
      + "</li>"
    else opens[a] + "</li>"
  }

  /** The entries of `[a, b)` under a parent at level `parent`. */
  function Entries(items: seq<ListItem>, opens: seq<string>, a: nat, b: nat, parent: int): string
    requires a <= b <= |items| == |opens|
    decreases b - a, 1
  {
    if a == b then "" else Entry(items, opens, a, b, parent) + Entries(items, opens, Next(items, a, b, parent), b, parent)
  }

  /** `done` is the HTML of the entries of `[start, i)` within the run
   *  `[start, stop)`. */
  predicate Walked(items: seq<ListItem>, opens: seq<string>, start: nat, stop: nat, parent: int, done: string, i: nat)
    requires start <= i <= stop <= |items| == |opens|
  {
    Entries(items, opens, start, stop, parent) == done + Entries(items, opens, i, stop, parent)
  }

  /** `buildListHTML`: walks the items from `start` while they are deeper than
   *  `parent`, emitting the ones exactly one level deeper and recursing for
   *  the run that follows each of them. */
  method BuildList(items: seq<ListItem>, ids: seq<string>, start: nat, parent: int)
    returns (html: string, next: nat)
    requires start <= |items| == |ids|
    ensures next == FirstAtMost(items, start, |items|, parent)
    ensures start < |items| && items[start].level > parent ==> start < next
    ensures html == Entries(items, Openings(items, ids), start, next, parent)
    decreases |items| - start
  {
    ghost var stop := FirstAtMost(items, start, |items|, parent);
    ghost var opens := Openings(items, ids);
    html := "";
    var i := start;
    while i < |items|
      invariant start <= i <= stop
      invariant Walked(items, opens, start, stop, parent, html, i)
      decreases |items| - i
    {
      var item := items[i];
      if item.level <= parent {
        break;
      }
      ghost var after: nat;
      if item.level == parent + 1 {
        var piece := LiOpen(item, ids[i]);
        if i + 1 < |items| && items[i + 1].level > item.level {
          var childHtml, childNext := BuildList(items, ids, i + 1, item.level);
          var tag := ListTag(items[i + 1].kind);
          ChildRun(items, stop, i, parent);
          StepNested(items, opens, start, stop, i, parent, html, childNext);
          piece := piece + SubList(tag, childHtml) + "</li>";
          after := childNext;
          i := childNext - 1;
        } else {
          StepLeaf(items, opens, start, stop, i, parent, html);
          piece := piece + "</li>";
          after := i + 1;
        }
        html := html + piece;
      } else {
        StepSkip(items, opens, start, stop, i, parent, html);
        after := i + 1;
      }
      assert Walked(items, opens, start, stop, parent, html, after) && after == i + 1;
      i := i + 1;
      assert i == after && start <= i <= stop;
    }
    assert i == stop;
    Done(items, opens, start, stop, parent, html);
    next := i;
  }

  /** A finished walk has produced all the entries. */
  lemma Done(items: seq<ListItem>, opens: seq<string>, start: nat, stop: nat, parent: int, done: string)
    requires start <= stop <= |items| == |opens|
    requires Walked(items, opens, start, stop, parent, done, stop)
    ensures done == Entries(items, opens, start, stop, parent)
  {
  }

  /** The entries from `i` are the entry at `i` followed by the entries from
   *  where that entry ends. */
  lemma Unfold(items: seq<ListItem>, opens: seq<string>, i: nat, stop: nat, parent: int, piece: string, k: nat)
    requires i < stop <= |items| == |opens|
    requires piece == Entry(items, opens, i, stop, parent)
    requires k == Next(items, i, stop, parent)
    ensures Entries(items, opens, i, stop, parent) == piece + Entries(items, opens, k, stop, parent)
  {
  }

  /** The loop invariant of `BuildList` across an item it skips. */
  lemma StepSkip(items: seq<ListItem>, opens: seq<string>, start: nat, stop: nat, i: nat, parent: int, done: string)
    requires start <= i < stop <= |items| == |opens|
    requires items[i].level != parent + 1
    requires Walked(items, opens, start, stop, parent, done, i)
    ensures Walked(items, opens, start, stop, parent, done, i + 1)
  {
    Unfold(items, opens, i, stop, parent, "", i + 1);
    assert Entries(items, opens, i, stop, parent) == Entries(items, opens, i + 1, stop, parent);
  }

  /** The loop invariant of `BuildList` across an item without a sub-list. */
  lemma StepLeaf(items: seq<ListItem>, opens: seq<string>, start: nat, stop: nat, i: nat, parent: int, done: string)
    requires start <= i < stop <= |items| == |opens|
    requires items[i].level == parent + 1
    requires !(i + 1 < |items| && items[i + 1].level > items[i].level)
    requires Walked(items, opens, start, stop, parent, done, i)
    ensures Walked(items, opens, start, stop, parent, done + (opens[i] + "</li>"), i + 1)
  {
    Unfold(items, opens, i, stop, parent, opens[i] + "</li>", i + 1);
  }

  /** The loop invariant of `BuildList` across an item with a sub-list that
   *  ends at `childNext`. */
  lemma StepNested(items: seq<ListItem>, opens: seq<string>, start: nat, stop: nat, i: nat, parent: int,
                   done: string, childNext: nat)
    requires start <= i < stop <= |items| == |opens|
    requires items[i].level == parent + 1
    requires i + 1 < stop && items[i + 1].level > items[i].level
    requires childNext == Next(items, i, stop, parent)
    requires Walked(items, opens, start, stop, parent, done, i)
    ensures Walked(items, opens, start, stop, parent,
                   done + (opens[i] + SubList(ListTag(items[i + 1].kind), Entries(items, opens, i + 1, childNext, parent + 1)) + "</li>"),
                   childNext)
  {
    EntryNested(items, opens, i, stop, parent);
    Unfold(items, opens, i, stop, parent, Entry(items, opens, i, stop, parent), childNext);
  }

  lemma EntryNested(items: seq<ListItem>, opens: seq<string>, a: nat, b: nat, parent: int)
    requires a + 1 < b <= |items| == |opens|
    requires items[a].level == parent + 1
    requires items[a + 1].level > items[a].level
    ensures Entry(items, opens, a, b, parent)
         == opens[a] + SubList(ListTag(items[a + 1].kind), Entries(items, opens, a + 1, Next(items, a, b, parent), parent + 1)) + "</li>"
  {
  }

  /** The run a recursive call of `BuildList` covers is the one `Next` cuts
   *  off, whether it is bounded by the end of the items or by the parent's
   *  own end. */
  lemma ChildRun(items: seq<ListItem>, stop: nat, i: nat, parent: int)
    requires i < stop <= |items|
    requires Above(items, i, stop, parent)
    requires stop < |items| ==> items[stop].level <= parent
    requires items[i].level == parent + 1
    requires i + 1 < |items| && items[i + 1].level > items[i].level
    ensures i + 1 < stop
    ensures FirstAtMost(items, i + 1, |items|, parent + 1) == Next(items, i, stop, parent)
  {
    var k := FirstAtMost(items, i + 1, stop, parent + 1);
    if stop < |items| {
      assert items[stop].level <= parent;
    }
    assert i + 1 < stop;
    FirstAtMostUnique(items, i + 1, |items|, parent + 1, k);
  }

  /** The whole list: the root tag follows the first item's kind. */
  function ListBlock(raw: seq<string>, ids: seq<string>): string
    requires |raw| >= 1 && |ids| == |raw|
  {
    var items := ClassifyAll(raw);
    SubList(ListTag(items[0].kind), Entries(items, Openings(items, ids), 0, |items|, -1))
  }

  /** The list is an `<ol>` exactly when its first item is ordered; a
   *  checklist or bullet first item makes it a `<ul>`. */
  lemma RootTag(raw: seq<string>, ids: seq<string>)
    requires |raw| >= 1 && |ids| == |raw|
    ensures StartsWith(ListBlock(raw, ids), "<ol>") <==> Classify(raw[0]).kind == Ordered
    ensures StartsWith(ListBlock(raw, ids), "<ul>") <==> Classify(raw[0]).kind != Ordered
  {
    var items := ClassifyAll(raw);
    TagOpens(items[0].kind, Entries(items, Openings(items, ids), 0, |items|, -1));
  }

  lemma TagOpens(k: Kind, inner: string)
    ensures StartsWith(SubList(ListTag(k), inner), "<ol>") <==> k == Ordered
    ensures StartsWith(SubList(ListTag(k), inner), "<ul>") <==> k != Ordered
  {
    var s := SubList(ListTag(k), inner);
    assert s[..4] == "<" + ListTag(k) + ">";
    assert s[1] == ListTag(k)[0];
  }

  /** `parseList`; the converter only calls it with at least one item (an
   *  empty list would fail on the first item's kind). */
  method ParseList(raw: seq<string>, ids: seq<string>) returns (html: string)
    requires |raw| >= 1 && |ids| == |raw|
    ensures html == ListBlock(raw, ids)
  {
    var items := ClassifyAll(raw);
    var rootTag := ListTag(items[0].kind);
    var body, next := BuildList(items, ids, 0, -1);
    FirstAtMostUnique(items, 0, |items|, -1, |items|);
    html := SubList(rootTag, body);
  }

  /** Items deeper than the next level that do not follow an emitted item
   *  are dropped without trace. */
  lemma {:induction false} OrphansSkipped(items: seq<ListItem>, opens: seq<string>, a: nat, c: nat, b: nat, parent: int)
    requires a <= c <= b <= |items| == |opens|
    requires forall j :: a <= j < c ==> items[j].level > parent + 1
    ensures Entries(items, opens, a, b, parent) == Entries(items, opens, c, b, parent)
    decreases c - a
  {
    if a < c {
      OrphansSkipped(items, opens, a + 1, c, b, parent);
    }
  }

  /** One `<li>` per item, in order, without sub-lists. */
  function Leaves(opens: seq<string>, a: nat, b: nat): string
    requires a <= b <= |opens|
    decreases b - a
  {
    if a == b then "" else opens[a] + "</li>" + Leaves(opens, a + 1, b)
  }

  /** Items all at the next level give one `<li>` each, in order. */
  lemma {:induction false} FlatEntries(items: seq<ListItem>, opens: seq<string>, a: nat, b: nat, parent: int)
    requires a <= b <= |items| == |opens|
    requires forall j :: a <= j < b ==> items[j].level == parent + 1
    ensures Entries(items, opens, a, b, parent) == Leaves(opens, a, b)
    decreases b - a
  {
    if a < b {
      FlatEntries(items, opens, a + 1, b, parent);
    }
  }

  /** An item followed by a deeper one nests it, with the tag of the deeper
   *  item's own kind whatever the outer item's kind is. */
  lemma NestedPair(x: ListItem, y: ListItem, ox: string, oy: string)
    requires y.level == x.level + 1
    ensures Entries([x, y], [ox, oy], 0, 2, x.level as int - 1)
         == ox + SubList(ListTag(y.kind), oy + "</li>") + "</li>"
  {
    var items, opens := [x, y], [ox, oy];
    var p := x.level as int - 1;
    assert FirstAtMost(items, 1, 2, p + 1) == 2;
    assert Next(items, 0, 2, p) == 2;
    assert Next(items, 1, 2, p + 1) == 2;
    assert Entries(items, opens, 1, 2, p + 1) == oy + "</li>";
  }
}
