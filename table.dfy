/**
 * The table pass: the pattern
 * `(\|[^\n]+\|(\[([^\]]*)\])?\n(?:\|[^\n]+\|\n?)+)` written as a scanner
 * with the regex's backtracking order, and the callback that renders one
 * matched table.
 *
 * A match starts at a `|`. The header line's closing bar is searched from
 * the end of the first line backwards (the greedy `[^\n]+`); at each bar the
 * bracketed caption is tried before the plain line break, and a candidate is
 * accepted only when at least one row follows. Each row is a `|`, then the
 * rest of its line up to the last `|` on it, then an optional line break.
 */
module Table {
  import opened Text
  import opened HtmlEscape
  import opened Inline

  /** The last `|` in `s[lo..hi]`, if any. */
  function LastBar(s: string, lo: nat, hi: nat): (r: Option<nat>)
    requires lo <= hi <= |s|
    ensures r.Some? ==> lo <= r.value < hi && s[r.value] == '|'
    ensures r.Some? ==> forall k :: r.value < k < hi ==> s[k] != '|'
    ensures r.None? ==> forall k :: lo <= k < hi ==> s[k] != '|'
    decreases hi - lo
  {
    if hi == lo then None
    else if s[hi - 1] == '|' then Some(hi - 1)
    else LastBar(s, lo, hi - 1)
  }

  /** Where the line through `e` ends: the next line break, or the end of
   *  the text. */
  function LineEnd(s: string, e: nat): (n: nat)
    requires e <= |s|
    ensures e <= n <= |s|
    decreases |s| - e
  {
    if e == |s| || s[e] == '\n' then e else LineEnd(s, e + 1)
  }

  /** `LineEnd` is the first line break from `e` on, or the end of the text. */
  lemma {:induction false} LineEndShape(s: string, e: nat)
    requires e <= |s|
    ensures LineEnd(s, e) < |s| ==> s[LineEnd(s, e)] == '\n'
    ensures forall k :: e <= k < LineEnd(s, e) ==> s[k] != '\n'
    decreases |s| - e
  {
    if e < |s| && s[e] != '\n' {
      LineEndShape(s, e + 1);
    }
  }

  /** Any position with the first-line-break property is `LineEnd`. */
  lemma {:induction false} LineEndAt(s: string, e: nat, n: nat)
    requires e <= n <= |s| && (n < |s| ==> s[n] == '\n')
    requires forall k :: e <= k < n ==> s[k] != '\n'
    ensures LineEnd(s, e) == n
    decreases n - e
  {
    if e < n {
      LineEndAt(s, e + 1, n);
    }
  }

  /** `(?:\|[^\n]+\|\n?)*` from `r`: where the greedy run of rows ends
   *  (`r` itself when no row starts there). */
  function RowsEnd(s: string, r: nat): (e: nat)
    requires r <= |s|
    ensures r <= e <= |s|
    decreases |s| - r
  {
    if r < |s| && s[r] == '|' then
      var le := LineEnd(s, r);
      if le < r + 2 then r
      else match LastBar(s, r + 2, le)
        case None => r
        case Some(l) => RowsEnd(s, if l + 1 < |s| && s[l + 1] == '\n' then l + 2 else l + 1)
    else r
  }

  /** Where the rows begin, and the caption text between the brackets if the
   *  optional group took part. */
  datatype Header = Header(rowsStart: nat, caption: Option<string>)

  /** `(\[([^\]]*)\])?\n` taken with the bracket, after the bar at `q`. */
  function CaptionAfter(s: string, q: nat): (r: Option<Header>)
    requires q < |s|
    ensures r.Some? ==> q + 3 < r.value.rowsStart <= |s| && r.value.caption.Some?
    ensures r.Some? ==> ']' !in r.value.caption.value
    ensures r.Some? ==> r.value.rowsStart == q + |r.value.caption.value| + 4
    ensures r.Some? ==> s[q + 1] == '[' && s[r.value.rowsStart - 2] == ']' && s[r.value.rowsStart - 1] == '\n'
  {
    if q + 1 < |s| && s[q + 1] == '[' then
      var r := q + 2 + IndexOf(s[q + 2..], ']');
      if r + 1 < |s| && s[r + 1] == '\n' then Some(Header(r + 2, Some(s[q + 2..r]))) else None
    else None
  }

  /** The bar at `q` as the header's closing bar: with the caption group
   *  when a row follows it, otherwise with a plain line break when a row
   *  follows that, otherwise not at all. */
  function FitAt(s: string, q: nat): (r: Option<Header>)
    requires q < |s|
    ensures r.Some? ==> s[q] == '|' && r.value.rowsStart <= |s| && r.value.rowsStart < RowsEnd(s, r.value.rowsStart)
  {
    var captioned := CaptionAfter(s, q);
    if s[q] == '|' && captioned.Some? && RowsEnd(s, captioned.value.rowsStart) > captioned.value.rowsStart then
      captioned
    else if s[q] == '|' && q + 1 < |s| && s[q + 1] == '\n' && RowsEnd(s, q + 2) > q + 2 then
      Some(Header(q + 2, None))
    else None
  }

  /** Tries the bars at `q`, `q - 1`, ..., `2` of the first line as the
   *  header's closing bar, in the regex's backtracking order. */
  function HeaderAt(s: string, q: nat): (r: Option<Header>)
    requires q < |s|
    ensures r.Some? ==> r.value.rowsStart <= |s| && r.value.rowsStart < RowsEnd(s, r.value.rowsStart)
    decreases q
  {
    if q < 2 then None
    else if FitAt(s, q).Some? then FitAt(s, q)
    else HeaderAt(s, q - 1)
  }

  /** The whole match (`len` characters) and the inner caption text. */
  datatype TableMatch = TableMatch(len: nat, caption: Option<string>)

  /** The table pattern at the front of `s`. */
  function MatchTable(s: string): (r: Option<TableMatch>)
    ensures r.Some? ==> 0 < r.value.len <= |s| && s[0] == '|'
  {
    if s == [] || s[0] != '|' then None
    else
      var e := IndexOf(s, '\n');
      if e < 3 then None
      else match HeaderAt(s, e - 1)
        case None => None
        case Some(h) => Some(TableMatch(RowsEnd(s, h.rowsStart), h.caption))
  }

  /** `\|[^\n]+\|`: a bar, at least one character, a bar, all on one line. */
  predicate RowLine(x: string) {
    |x| >= 3 && x[0] == '|' && x[|x| - 1] == '|' && '\n' !in x
  }

  /** The optional caption group as written. */
  function CaptionText(caption: Option<string>): string {
    if caption.Some? then "[" + caption.value + "]" else ""
  }

  /** What a match `m` at the front of `s` looks like, with `q` the header's
   *  closing bar and `rows` the rows: a header line `|h|` (`h` on one line),
   *  the caption group if it took part (its text free of `]`), a line break,
   *  then the rows, each a row line, separated by line breaks and with an
   *  optional line break after the last. The closing bar is the last bar of
   *  the first line that lets a match through; the last row closes at the
   *  last bar on its line; and no further row starts where the match ends. */
  predicate TableShape(s: string, m: TableMatch, q: nat, rows: seq<string>) {
    HeadShape(s, q, m.caption) && RunShape(s, q + 2 + |CaptionText(m.caption)|, m.len, rows)
  }

  /** The header line `|h|` closing at the bar `q`, then the caption group
   *  with a `]`-free text if `caption` is present, then a line break; no
   *  later bar of the first line lets a match through. */
  predicate HeadShape(s: string, q: nat, caption: Option<string>) {
    var rs := q + 2 + |CaptionText(caption)|;
    && 2 <= q && rs <= |s|
    && '\n' !in s[1..q]
    && (caption.Some? ==> ']' !in caption.value)
    && s[..rs] == "|" + s[1..q] + "|" + CaptionText(caption) + "\n"
    && (forall k :: q < k < IndexOf(s, '\n') ==> FitAt(s, k).None?)
  }

  /** `s[rs..e]` is a maximal greedy run of the row lines `rows`. */
  predicate RunShape(s: string, rs: nat, e: nat, rows: seq<string>) {
    && rs < e <= |s|
    && rows != [] && RowLines(rows)
    && RowsText(s[rs..e], rows)
    && RowsEnd(s, e) == e
    && (s[e - 1] == '|' ==> NoBarToLineEnd(s, e))
  }

  /** Every table match has that shape. */
  lemma TableParts(s: string, m: TableMatch) returns (q: nat, rows: seq<string>)
    requires MatchTable(s) == Some(m)
    ensures TableShape(s, m, q, rows)
  {
    var e := IndexOf(s, '\n');
    q := HeaderAtParts(s, e - 1);
    var h := FitAt(s, q).value;
    rows := ShapeFrom(s, m, e, q, h);
  }

  /** The shape of the match that the bar at `q` yields. */
  lemma ShapeFrom(s: string, m: TableMatch, e: nat, q: nat, h: Header) returns (rows: seq<string>)
    requires e == IndexOf(s, '\n') && 2 <= q < e && s[0] == '|'
    requires FitAt(s, q) == Some(h) && m == TableMatch(RowsEnd(s, h.rowsStart), h.caption)
    requires forall k :: q < k <= e - 1 ==> FitAt(s, k).None?
    ensures TableShape(s, m, q, rows)
  {
    HeadShapeOf(s, e, q, h);
    rows := RunShapeOf(s, h.rowsStart);
  }

  /** The header part of the shape, from the bar that fits. */
  lemma HeadShapeOf(s: string, e: nat, q: nat, h: Header)
    requires e == IndexOf(s, '\n') && 2 <= q < e && s[0] == '|'
    requires FitAt(s, q) == Some(h)
    requires forall k :: q < k <= e - 1 ==> FitAt(s, k).None?
    ensures h.rowsStart == q + 2 + |CaptionText(h.caption)|
    ensures HeadShape(s, q, h.caption)
  {
    HeadLine(s, e, q);
    HeadParts(s, q, h);
  }

  /** The rows part of the shape, for a run that holds a row. */
  lemma RunShapeOf(s: string, rs: nat) returns (rows: seq<string>)
    requires rs <= |s| && rs < RowsEnd(s, rs)
    ensures RunShape(s, rs, RowsEnd(s, rs), rows)
  {
    rows := RowsParts(s, rs);
    RowsMaximal(s, rs);
    RowsGreedy(s, rs);
  }

  /** The header text lies within the first line. */
  lemma HeadLine(s: string, e: nat, q: nat)
    requires e <= |s| && '\n' !in s[..e] && 1 <= q < e
    ensures '\n' !in s[1..q]
  {
    assert s[1..q] == s[..e][1..q];
  }

  /** The header line up to the bar at `q` and what follows it up to the
   *  rows, when that bar fits. */
  lemma HeadParts(s: string, q: nat, h: Header)
    requires 2 <= q < |s| && s[0] == '|' && FitAt(s, q) == Some(h)
    ensures h.rowsStart == q + 2 + |CaptionText(h.caption)|
    ensures h.caption.Some? ==> ']' !in h.caption.value
    ensures s[..h.rowsStart] == "|" + s[1..q] + "|" + CaptionText(h.caption) + "\n"
  {
    if h.caption.Some? {
      assert Some(h) == CaptionAfter(s, q);
      CaptionParts(s, q);
      HeadLayout(s, q, "[" + h.caption.value + "]", h.rowsStart);
    } else {
      assert s[q + 1..h.rowsStart - 1] == "";
      HeadLayout(s, q, "", h.rowsStart);
    }
  }

  /** The first line up to the header's closing bar, the text after it and
   *  the line break, as pieces. */
  lemma HeadLayout(s: string, q: nat, c: string, rs: nat)
    requires 2 <= q && q + 1 < rs <= |s| && s[0] == '|' && s[q] == '|' && s[rs - 1] == '\n'
    requires s[q + 1..rs - 1] == c
    ensures s[..rs] == "|" + s[1..q] + "|" + c + "\n"
  {
    assert s[..rs] == s[..1] + s[1..q] + s[q..q + 1] + s[q + 1..rs - 1] + s[rs - 1..rs];
  }

  /** `HeaderAt` settles on the last bar that fits. */
  lemma {:induction false} HeaderAtParts(s: string, q0: nat) returns (q: nat)
    requires q0 < |s| && HeaderAt(s, q0).Some?
    ensures 2 <= q <= q0 && FitAt(s, q).Some? && HeaderAt(s, q0) == FitAt(s, q)
    ensures forall k :: q < k <= q0 ==> FitAt(s, k).None?
    decreases q0
  {
    if FitAt(s, q0).Some? {
      q := q0;
    } else {
      q := HeaderAtParts(s, q0 - 1);
    }
  }

  /** Every one of `rows` is a row line. */
  predicate RowLines(rows: seq<string>) {
    forall k :: 0 <= k < |rows| ==> RowLine(rows[k])
  }

  /** `t` is `rows` separated by line breaks, with an optional line break
   *  after the last. */
  predicate RowsText(t: string, rows: seq<string>) {
    t == Join(rows, "\n") || t == Join(rows, "\n") + "\n"
  }

  /** No bar from `e` to the end of its line. */
  predicate NoBarToLineEnd(s: string, e: nat)
    requires e <= |s|
  {
    LastBar(s, e, LineEnd(s, e)).None?
  }

  /** The greedy run of rows from `r`: rows separated by line breaks, with
   *  an optional line break after the last. */
  lemma {:induction false} RowsParts(s: string, r: nat) returns (rows: seq<string>)
    requires r <= |s|
    ensures rows == [] <==> RowsEnd(s, r) == r
    ensures RowLines(rows) && RowsText(s[r..RowsEnd(s, r)], rows)
    decreases |s| - r
  {
    var e := RowsEnd(s, r);
    if e == r {
      rows := [];
    } else {
      var l, next := RowsStep(s, r);
      var rest := RowsParts(s, next);
      var row := s[r..l + 1];
      rows := [row] + rest;
      RowLinesCons(row, rest);
      if next == l + 2 {
        RowsAfterBreak(s, r, l, e, row, rest);
      } else {
        assert s[r..e] == row;
        JoinOne(row, "\n");
      }
    }
  }

  /** The run is maximal: no further row starts where it ends. */
  lemma {:induction false} RowsMaximal(s: string, r: nat)
    requires r <= |s|
    ensures RowsEnd(s, RowsEnd(s, r)) == RowsEnd(s, r)
    decreases |s| - r
  {
    if RowsEnd(s, r) > r {
      var l, next := RowsStep(s, r);
      RowsMaximal(s, next);
    }
  }

  /** The last row of a run that does not end in a line break closes at the
   *  last bar on its line. */
  lemma {:induction false} RowsGreedy(s: string, r: nat)
    requires r <= |s|
    ensures var e := RowsEnd(s, r);
      r < e && s[e - 1] == '|' ==> NoBarToLineEnd(s, e)
    decreases |s| - r
  {
    var e := RowsEnd(s, r);
    if e > r {
      var l, next := RowsStep(s, r);
      if next == l + 2 {
        RowsGreedy(s, next);
        if next == e {
          assert s[e - 1] == '\n';
        }
      }
    }
  }

  /** One row of a run that does not end at `r`: it closes at the last bar
   *  `l` of its line, and the run goes on after it, past the line break
   *  when one follows. */
  lemma RowsStep(s: string, r: nat) returns (l: nat, next: nat)
    requires r <= |s| && RowsEnd(s, r) > r
    ensures r + 2 <= l < |s| && RowLine(s[r..l + 1])
    ensures (next == l + 2 && l + 1 < |s| && s[l + 1] == '\n') || (next == l + 1 && RowsEnd(s, next) == next)
    ensures next == l + 1 ==> NoBarToLineEnd(s, next)
    ensures next <= |s| && RowsEnd(s, r) == RowsEnd(s, next)
  {
    var le := LineEnd(s, r);
    l := LastBar(s, r + 2, le).value;
    next := if l + 1 < |s| && s[l + 1] == '\n' then l + 2 else l + 1;
    assert RowLine(s[r..l + 1]) by {
      LineEndShape(s, r);
      var x := s[r..l + 1];
      forall k | 0 <= k < |x| ensures x[k] != '\n' {
        assert x[k] == s[r + k];
      }
    }
    if next == l + 1 {
      RowEndsLine(s, r, le, l);
    }
  }

  lemma RowLinesCons(row: string, rest: seq<string>)
    requires RowLine(row) && RowLines(rest)
    ensures RowLines([row] + rest)
  {
  }

  /** A row followed by a line break, then the run after it. */
  lemma RowsAfterBreak(s: string, r: nat, l: nat, e: nat, row: string, rest: seq<string>)
    requires r < l + 2 <= e <= |s| && s[l + 1] == '\n' && row == s[r..l + 1]
    requires rest == [] <==> e == l + 2
    requires RowsText(s[l + 2..e], rest)
    ensures RowsText(s[r..e], [row] + rest)
  {
    assert s[r..e] == row + "\n" + s[l + 2..e];
    if rest == [] {
      assert [row] + rest == [row];
      JoinOne(row, "\n");
    } else {
      JoinCons(row, rest, "\n");
    }
  }

  /** A row whose last bar is not followed by a line break ends its line's
   *  bars and the run. */
  lemma RowEndsLine(s: string, r: nat, le: nat, l: nat)
    requires r + 2 <= l < le <= |s| && le == LineEnd(s, r)
    requires LastBar(s, r + 2, le) == Some(l)
    requires !(l + 1 < |s| && s[l + 1] == '\n')
    ensures RowsEnd(s, l + 1) == l + 1
    ensures NoBarToLineEnd(s, l + 1)
  {
    LineEndShape(s, r);
    if le < |s| {
      assert s[le] == '\n';
    }
    assert l + 1 < le || l + 1 == |s|;
    LineEndAt(s, l + 1, le);
    NoBarIn(s, l + 1, le);
  }

  /** A range without bars has no last bar. */
  lemma {:induction false} NoBarIn(s: string, lo: nat, hi: nat)
    requires lo <= hi <= |s| && forall k :: lo <= k < hi ==> s[k] != '|'
    ensures LastBar(s, lo, hi).None?
    decreases hi - lo
  {
    if lo < hi {
      NoBarIn(s, lo, hi - 1);
    }
  }

  /** Conversely, a bar at the front, a last bar at `q` on the first line
   *  followed by a bracketed caption or directly by the line break at `e`,
   *  and a run of rows on the next line make exactly this match. */
  lemma TableAt(s: string, q: nat, e: nat, cap: Option<string>)
    requires 2 <= q < e < |s| && s[0] == '|' && s[q] == '|' && IndexOf(s, '\n') == e
    requires forall k :: q < k < e ==> s[k] != '|'
    requires RowsEnd(s, e + 1) > e + 1
    requires cap.Some? ==> q + 3 <= e && s[q + 1] == '[' && s[e - 1] == ']' && cap.value == s[q + 2..e - 1] && ']' !in cap.value
    requires cap.None? ==> e == q + 1
    ensures MatchTable(s) == Some(TableMatch(RowsEnd(s, e + 1), cap))
  {
    HeaderFits(s, q, e, cap);
    TableFromFit(s, q, e, cap);
  }

  /** The bar at `q` fits, with the caption or the bare line break after it. */
  lemma HeaderFits(s: string, q: nat, e: nat, cap: Option<string>)
    requires q < e < |s| && s[q] == '|' && s[e] == '\n'
    requires RowsEnd(s, e + 1) > e + 1
    requires cap.Some? ==> q + 3 <= e && s[q + 1] == '[' && s[e - 1] == ']' && cap.value == s[q + 2..e - 1] && ']' !in cap.value
    requires cap.None? ==> e == q + 1
    ensures FitAt(s, q) == Some(Header(e + 1, cap))
  {
    if cap.Some? {
      CaptionHere(s, q, e, cap.value);
      FitHere(s, q, e + 1, Some(cap.value));
    } else {
      FitHere(s, q, e + 1, None);
    }
  }

  /** A fitting header on the first line, past its last bar, makes the table. */
  lemma TableFromFit(s: string, q: nat, e: nat, cap: Option<string>)
    requires 2 <= q < e < |s| && s[0] == '|' && IndexOf(s, '\n') == e
    requires forall k :: q < k < e ==> s[k] != '|'
    requires FitAt(s, q) == Some(Header(e + 1, cap))
    ensures MatchTable(s) == Some(TableMatch(RowsEnd(s, e + 1), cap))
  {
    HeaderSkip(s, e - 1, q);
    MatchFromHeader(s, e, e + 1, cap);
  }

  /** The table a header found on the first line yields. */
  lemma MatchFromHeader(s: string, e: nat, rs: nat, cap: Option<string>)
    requires 3 <= e < |s| && rs <= |s| && s[0] == '|' && IndexOf(s, '\n') == e
    requires HeaderAt(s, e - 1) == Some(Header(rs, cap))
    ensures MatchTable(s) == Some(TableMatch(RowsEnd(s, rs), cap))
  {
  }

  /** The bar at `q` fits the header that `cap` and the line break after it describe. */
  lemma FitHere(s: string, q: nat, rs: nat, cap: Option<string>)
    requires q < |s| && rs <= |s| && s[q] == '|' && RowsEnd(s, rs) > rs
    requires cap.Some? ==> CaptionAfter(s, q) == Some(Header(rs, cap))
    requires cap.None? ==> rs == q + 2 && s[q + 1] == '\n'
    ensures FitAt(s, q) == Some(Header(rs, cap))
  {
  }

  /** The bracketed caption closing just before the line break at `e`. */
  lemma CaptionHere(s: string, q: nat, e: nat, c: string)
    requires q + 3 <= e < |s| && s[e] == '\n'
    requires s[q + 1] == '[' && s[e - 1] == ']' && c == s[q + 2..e - 1] && ']' !in c
    ensures CaptionAfter(s, q) == Some(Header(e + 1, Some(c)))
  {
    assert s[q + 2..] == c + [']'] + s[e..];
    IndexOfPrefix(c, ']', s[e..]);
  }

  /** A caption group is the bracketed text right after the bar. */
  lemma CaptionParts(s: string, q: nat)
    requires q < |s| && CaptionAfter(s, q).Some?
    ensures var h := CaptionAfter(s, q).value;
      s[q + 1..h.rowsStart - 1] == "[" + h.caption.value + "]"
  {
    var h := CaptionAfter(s, q).value;
    var r := h.rowsStart - 2;
    assert s[q + 2..r] == h.caption.value;
    assert s[q + 1..r + 1] == [s[q + 1]] + s[q + 2..r] + [s[r]];
  }

  /** `HeaderAt` passes over positions that hold no bar. */
  lemma {:induction false} HeaderSkip(s: string, q0: nat, q: nat)
    requires 2 <= q <= q0 < |s|
    requires forall k :: q < k <= q0 ==> s[k] != '|'
    ensures HeaderAt(s, q0) == HeaderAt(s, q)
    decreases q0
  {
    if q < q0 {
      HeaderSkip(s, q0 - 1, q);
    }
  }

  /** A row at `rs` makes the run reach at least to its closing bar. */
  lemma FirstRow(s: string, rs: nat, b: string)
    requires b != [] && '\n' !in b && rs <= |s| && StartsWith(s[rs..], "|" + b + "|")
    ensures RowsEnd(s, rs) >= rs + |b| + 2
  {
    var le := LineEnd(s, rs);
    LineEndShape(s, rs);
    var x := "|" + b + "|";
    assert s[rs..][..|x|] == x;
    assert forall k :: rs <= k < rs + |x| ==> s[k] != '\n' by {
      forall k | rs <= k < rs + |x| ensures s[k] != '\n' {
        assert s[k] == x[k - rs];
      }
    }
    assert le >= rs + |b| + 2;
    assert s[rs + |b| + 1] == '|';
    var lb := LastBar(s, rs + 2, le);
    assert lb.Some?;
  }

  /** `line.trim()` is truthy: the line is not all white space. */
  predicate Filled(line: string) {
    !AllSpace(line)
  }

  /** `filter(line => line.trim())`. */
  function NonBlank(parts: seq<string>): (r: seq<string>)
    ensures |r| <= |parts|
  {
    if parts == [] then []
    else (if Filled(parts[0]) then [parts[0]] else []) + NonBlank(parts[1..])
  }

  /** `map(c => c.trim())`. */
  function TrimEach(parts: seq<string>): (r: seq<string>)
    ensures |r| == |parts|
    ensures forall k :: 0 <= k < |r| ==> r[k] == Trim(parts[k])
  {
    if parts == [] then [] else [Trim(parts[0])] + TrimEach(parts[1..])
  }

  /** `row.split('|').filter(cell => cell.trim()).map(c => c.trim())`. */
  function Cells(row: string): seq<string> {
    TrimEach(NonBlank(Split(row, '|')))
  }

  /** The alignment of one cell of the second line. */
  function AlignOf(cell: string): string {
    var t := Trim(cell);
    if StartsWith(t, ":") && EndsWith(t, ":") then "center"
    else if EndsWith(t, ":") then "right"
    else "left"
  }

  function AlignEach(cells: seq<string>): (r: seq<string>)
    ensures |r| == |cells|
  {
    seq(|cells|, k requires 0 <= k < |cells| => AlignOf(cells[k]))
  }

  /** The alignments of the second line's non-blank cells. */
  function Aligns(line: string): seq<string> {
    AlignEach(NonBlank(Split(line, '|')))
  }

  /** `aligns[i] || 'left'`. */
  function AlignAt(aligns: seq<string>, i: nat): string {
    if i < |aligns| then aligns[i] else "left"
  }

  function Th(cell: string, align: string): string {
    "<th style=\"text-align: " + align + "\">" + ParseInline(cell) + "</th>"
  }

  function Td(cell: string, align: string): string {
    "<td style=\"text-align: " + align + "\">" + ParseInline(cell) + "</td>"
  }

  function Ths(cells: seq<string>, aligns: seq<string>): (r: seq<string>)
    ensures |r| == |cells|
  {
    seq(|cells|, i requires 0 <= i < |cells| => Th(cells[i], AlignAt(aligns, i)))
  }

  function Tds(cells: seq<string>, aligns: seq<string>): (r: seq<string>)
    ensures |r| == |cells|
  {
    seq(|cells|, i requires 0 <= i < |cells| => Td(cells[i], AlignAt(aligns, i)))
  }

  function RowHtml(row: string, aligns: seq<string>): string {
    "<tr>" + Concat(Tds(Cells(row), aligns)) + "</tr>"
  }

  function Trs(rows: seq<string>, aligns: seq<string>): (r: seq<string>)
    ensures |r| == |rows|
  {
    seq(|rows|, r requires 0 <= r < |rows| => RowHtml(rows[r], aligns))
  }

  /** `tableContent.trim().split('\n').filter(line => line.trim())`. */
  function TableLines(content: string): seq<string> {
    NonBlank(Split(Trim(content), '\n'))
  }

  /** The inner caption text, empty when the group did not take part. */
  function InnerCaption(caption: Option<string>): string {
    if caption.Some? then caption.value else ""
  }

  /** The header line with every `[caption]` removed. */
  function HeaderLine(lines: seq<string>, caption: Option<string>): string {
    if |lines| > 0 then ReplaceAll(lines[0], "[" + InnerCaption(caption) + "]", "") else ""
  }

  function AlignLine(lines: seq<string>): string {
    if |lines| > 1 then lines[1] else ""
  }

  function DataLines(lines: seq<string>): seq<string> {
    if |lines| > 2 then lines[2..] else []
  }

  function CaptionHtml(caption: Option<string>): string {
    if caption.Some? then "<caption>" + EscapeHtml(caption.value) + "</caption>" else ""
  }

  /** The table the callback builds. */
  function TableHtml(content: string, caption: Option<string>): string {
    "<table>" + CaptionHtml(caption) + TableBody(content, caption)
  }

  /** Everything after the caption: header row, then data rows. */
  function TableBody(content: string, caption: Option<string>): string {
    var lines := TableLines(content);
    var aligns := Aligns(AlignLine(lines));
    "<thead><tr>" + Concat(Ths(Cells(HeaderLine(lines, caption)), aligns)) + "</tr></thead><tbody>"
    + Concat(Trs(DataLines(lines), aligns)) + "</tbody></table>"
  }

  /** The callback's accumulation of `tableHtml`. */
  method RenderTable(content: string, caption: Option<string>) returns (html: string)
    ensures html == TableHtml(content, caption)
  {
    var lines := TableLines(content);
    var headers := Cells(HeaderLine(lines, caption));
    var aligns := Aligns(AlignLine(lines));
    var rows := DataLines(lines);
    html := "<table>";
    if caption.Some? {
      html := html + "<caption>" + EscapeHtml(caption.value) + "</caption>";
    }
    assert html == "<table>" + CaptionHtml(caption);
    html := html + "<thead><tr>";
    html := AppendAll(html, Ths(headers, aligns));
    html := html + "</tr></thead><tbody>";
    html := AppendAll(html, Trs(rows, aligns));
    html := html + "</tbody></table>";
    TableInOrder(content, caption, headers, aligns, rows);
  }

  /** The table's pieces in the order the callback appends them. */
  lemma TableInOrder(content: string, caption: Option<string>, headers: seq<string>, aligns: seq<string>,
                     rows: seq<string>)
    requires headers == Cells(HeaderLine(TableLines(content), caption))
    requires aligns == Aligns(AlignLine(TableLines(content)))
    requires rows == DataLines(TableLines(content))
    ensures TableHtml(content, caption)
         == "<table>" + CaptionHtml(caption) + "<thead><tr>" + Concat(Ths(headers, aligns))
          + "</tr></thead><tbody>" + Concat(Trs(rows, aligns)) + "</tbody></table>"
  {
    AppendAssoc("<table>" + CaptionHtml(caption), "<thead><tr>", Concat(Ths(headers, aligns)),
                "</tr></thead><tbody>", Concat(Trs(rows, aligns)), "</tbody></table>");
  }

  /** `forEach(... => tableHtml += piece)`: the pieces appended in order. */
  method AppendAll(start: string, pieces: seq<string>) returns (html: string)
    ensures html == start + Concat(pieces)
  {
    html := start;
    for i := 0 to |pieces|
      invariant html == start + Concat(pieces[..i])
    {
      ConcatStep(pieces, i);
      html := html + pieces[i];
    }
    assert pieces[..|pieces|] == pieces;
  }

  /** Appending five pieces one by one appends their concatenation. */
  lemma AppendAssoc(h: string, a: string, b: string, c: string, d: string, e: string)
    ensures h + a + b + c + d + e == h + (a + b + c + d + e)
  {
  }

  /** Every alignment is one of the three CSS values, the missing ones
   *  included. */
  lemma AlignAtValues(line: string, i: nat)
    ensures AlignAt(Aligns(line), i) in {"left", "center", "right"}
  {
  }

  /** An alignment cell reads `center` exactly when its trimmed text starts
   *  and ends with `:`, `right` exactly when it only ends with one. */
  lemma AlignOfCases(cell: string)
    ensures AlignOf(cell) == "center" <==> StartsWith(Trim(cell), ":") && EndsWith(Trim(cell), ":")
    ensures AlignOf(cell) == "right" <==> !StartsWith(Trim(cell), ":") && EndsWith(Trim(cell), ":")
    ensures AlignOf(cell) == "left" <==> !EndsWith(Trim(cell), ":")
  {
  }

  /** A cell as a writer would put it in a row: non-empty, free of `|`,
   *  and neither starting nor ending with a space. */
  predicate PlainCell(c: string) {
    c != [] && !IsSpace(c[0]) && !IsSpace(c[|c| - 1]) && '|' !in c
  }

  /** A row written as `|c1|c2|...|` is split back into exactly its cells. */
  lemma CellsOfRow(cs: seq<string>)
    requires cs != []
    requires forall k :: 0 <= k < |cs| ==> PlainCell(cs[k])
    ensures Cells("|" + Join(cs, "|") + "|") == cs
  {
    FramedJoin(cs);
    FramedNoBar(cs);
    SplitJoin([""] + cs + [""], '|');
    CellsOfParts("|" + Join(cs, "|") + "|", cs);
  }

  lemma FramedNoBar(cs: seq<string>)
    requires forall k :: 0 <= k < |cs| ==> PlainCell(cs[k])
    ensures forall k :: 0 <= k < |cs| + 2 ==> '|' !in ([""] + cs + [""])[k]
  {
    var parts := [""] + cs + [""];
    forall k | 0 <= k < |parts| ensures '|' !in parts[k] {
      if 0 < k < |parts| - 1 {
        assert parts[k] == cs[k - 1];
      }
    }
  }

  /** Splitting gives the cells between an empty first and last part. */
  lemma CellsOfParts(row: string, cs: seq<string>)
    requires forall k :: 0 <= k < |cs| ==> PlainCell(cs[k])
    requires Split(row, '|') == [""] + cs + [""]
    ensures Cells(row) == cs
  {
    assert NonBlank(Split(row, '|')) == cs by {
      forall k | 0 <= k < |cs| ensures Filled(cs[k]) {
        assert !IsSpace(cs[k][0]);
      }
      NonBlankFrame(cs);
    }
    assert TrimEach(cs) == cs by {
      forall k | 0 <= k < |cs| ensures Trim(cs[k]) == cs[k] {
        TrimKeeps(cs[k]);
      }
      TrimEachTrimmed(cs);
    }
  }

  lemma FramedJoin(cs: seq<string>)
    requires cs != []
    ensures Join([""] + cs + [""], "|") == "|" + Join(cs, "|") + "|"
  {
    JoinCons("", cs + [""], "|");
    JoinSnoc(cs, "", "|");
    assert [""] + cs + [""] == [""] + (cs + [""]);
  }

  lemma {:induction false} NonBlankFrame(cs: seq<string>)
    requires forall k :: 0 <= k < |cs| ==> Filled(cs[k])
    ensures NonBlank([""] + cs + [""]) == cs
  {
    assert AllSpace("");
    assert ([""] + cs + [""])[1..] == cs + [""];
    NonBlankKeeps(cs, [""]);
    assert NonBlank([""]) == [] by {
      assert [""][1..] == [];
    }
    assert cs + [] == cs;
  }

  lemma {:induction false} NonBlankKeeps(cs: seq<string>, tail: seq<string>)
    requires forall k :: 0 <= k < |cs| ==> Filled(cs[k])
    ensures NonBlank(cs + tail) == cs + NonBlank(tail)
    decreases |cs|
  {
    if cs != [] {
      assert (cs + tail)[1..] == cs[1..] + tail;
      NonBlankKeeps(cs[1..], tail);
    } else {
      assert cs + tail == tail;
    }
  }

  lemma TrimEachTrimmed(cs: seq<string>)
    requires forall k :: 0 <= k < |cs| ==> Trim(cs[k]) == cs[k]
    ensures TrimEach(cs) == cs
  {
  }

  /** A `<caption>` is emitted exactly when the bracket group took part. */
  lemma CaptionIff(content: string, caption: Option<string>)
    ensures StartsWith(TableHtml(content, caption), "<table><caption>") <==> caption.Some?
  {
    var lines := TableLines(content);
    var aligns := Aligns(AlignLine(lines));
    BodyStart(Concat(Ths(Cells(HeaderLine(lines, caption)), aligns)), Concat(Trs(DataLines(lines), aligns)));
    CaptionPrefix(caption, TableBody(content, caption));
  }

  lemma BodyStart(headers: string, rows: string)
    ensures ("<thead><tr>" + headers + "</tr></thead><tbody>" + rows + "</tbody></table>")[1] == 't'
  {
  }

  lemma CaptionPrefix(caption: Option<string>, b: string)
    requires |b| > 1 && b[1] == 't'
    ensures StartsWith("<table>" + CaptionHtml(caption) + b, "<table><caption>") <==> caption.Some?
  {
    if caption.Some? {
      var e := EscapeHtml(caption.value);
      assert "<table>" + CaptionHtml(caption) + b == "<table>" + ("<caption>" + e + "</caption>") + b;
      CaptionRegroup(e, b);
      PrefixOf("<table><caption>", e + "</caption>" + b);
    } else {
      var h := "<table>" + CaptionHtml(caption) + b;
      assert h[8] == b[1];
      Differ(h, "<table><caption>", 8);
    }
  }

  lemma CaptionRegroup(e: string, b: string)
    ensures "<table>" + ("<caption>" + e + "</caption>") + b == "<table><caption>" + (e + "</caption>" + b)
  {
  }

  lemma Differ(s: string, pat: string, i: nat)
    requires i < |pat| && i < |s| && s[i] != pat[i]
    ensures !StartsWith(s, pat)
  {
    if |pat| <= |s| {
      assert s[..|pat|][i] == s[i];
    }
  }

  /** A header line and one row, without caption, form one whole table. */
  lemma TwoLineTable(a: string, b: string)
    requires a != [] && b != [] && '\n' !in a && '\n' !in b
    ensures var s := "|" + a + "|\n|" + b + "|";
      MatchTable(s) == Some(TableMatch(|s|, None))
  {
    var s := "|" + a + "|\n|" + b + "|";
    var q := |a| + 1;
    TwoLineParts(a, b);
    LastRow(s, q + 2);
    assert HeaderAt(s, q) == Some(Header(q + 2, None));
  }

  /** Where the bars and the line break of such a text sit. */
  lemma TwoLineParts(a: string, b: string)
    requires a != [] && b != [] && '\n' !in a && '\n' !in b
    ensures var s, q := "|" + a + "|\n|" + b + "|", |a| + 1;
      q + 4 < |s| && s[0] == '|' && s[q] == '|' && s[q + 1] == '\n' && s[q + 2] == '|' && s[|s| - 1] == '|'
      && IndexOf(s, '\n') == q + 1 && '\n' !in s[q + 2..]
  {
    var s := "|" + a + "|\n|" + b + "|";
    var q := |a| + 1;
    assert s[..q + 1] == "|" + a + "|" && s[q + 1] == '\n';
    IndexOfPrefix("|" + a + "|", '\n', "|" + b + "|");
    assert s[q + 2..] == "|" + b + "|";
  }

  /** A row that runs to the end of the text ends the run of rows there. */
  lemma LastRow(s: string, r: nat)
    requires r + 2 < |s| && s[r] == '|' && s[|s| - 1] == '|'
    requires '\n' !in s[r..]
    ensures RowsEnd(s, r) == |s|
  {
    assert forall k :: r <= k < |s| ==> s[k] != '\n' by {
      forall k | r <= k < |s| ensures s[k] != '\n' {
        assert s[k] == s[r..][k - r];
      }
    }
    LineEndAt(s, r, |s|);
    assert LastBar(s, r + 2, |s|) == Some(|s| - 1);
    assert RowsEnd(s, |s|) == |s|;
  }
}
