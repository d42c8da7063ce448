/**
 * String helpers with the JavaScript semantics the converter relies on:
 * the `\s` class (also what `String.prototype.trim` removes), the `.` class,
 * `split` on one character, `join`, literal global and first-occurrence
 * replacement, and decimal rendering of counters.
 *
 * Strings are sequences of Unicode scalar values; every pattern of the
 * converter treats UTF-16 surrogate halves the same way as whole characters,
 * so the difference to JavaScript's code-unit strings is never observable.
 */
module Text {

  datatype Option<T> = None | Some(value: T)

  /** JavaScript's `\s`, which is also the set `trim()` removes. */
  predicate IsSpace(c: char) {
    || c == ' ' || c == '\t' || c == '\n' || c == '\r' || c == '\U{000B}' || c == '\U{000C}'
    || c == '\U{00A0}' || c == '\U{1680}' || ('\U{2000}' <= c <= '\U{200A}')
    || c == '\U{2028}' || c == '\U{2029}' || c == '\U{202F}' || c == '\U{205F}'
    || c == '\U{3000}' || c == '\U{FEFF}'
  }

  /** The characters JavaScript's `.` refuses to match. */
  predicate IsLineTerminator(c: char) {
    c == '\n' || c == '\r' || c == '\U{2028}' || c == '\U{2029}'
  }

  predicate IsDigit(c: char) {
    '0' <= c <= '9'
  }

  predicate StartsWith(s: string, p: string) {
    |p| <= |s| && s[..|p|] == p
  }

  predicate EndsWith(s: string, p: string) {
    |p| <= |s| && s[|s| - |p|..] == p
  }

  /** `pat` occurs in `s` starting at index `k`. */
  predicate OccursAt(s: string, pat: string, k: int) {
    0 <= k <= |s| && StartsWith(s[k..], pat)
  }

  predicate AllSpace(s: string) {
    forall k :: 0 <= k < |s| ==> IsSpace(s[k])
  }

  predicate NoLineTerminator(s: string) {
    forall k :: 0 <= k < |s| ==> !IsLineTerminator(s[k])
  }

  /** Number of leading characters matched by `^\s*`. */
  function LeadingSpaces(s: string): (n: nat)
    ensures n <= |s|
    ensures AllSpace(s[..n])
    ensures n == |s| || !IsSpace(s[n])
  {
    if s != [] && IsSpace(s[0]) then
      var m := LeadingSpaces(s[1..]);
      assert s[..m + 1] == [s[0]] + s[1..][..m];
      m + 1
    else 0
  }

  /** `trimStart()`: drops the longest all-space prefix. */
  function TrimStart(s: string): (r: string)
    ensures r == s[LeadingSpaces(s)..]
  {
    s[LeadingSpaces(s)..]
  }

  /** `trimEnd()`: drops the longest all-space suffix. */
  function TrimEnd(s: string): (r: string)
    ensures |r| <= |s| && r == s[..|r|]
    ensures AllSpace(s[|r|..])
    ensures r == [] || !IsSpace(r[|r| - 1])
  {
    if s != [] && IsSpace(s[|s| - 1]) then
      var r := TrimEnd(s[..|s| - 1]);
      assert s[|r|..] == s[..|s| - 1][|r|..] + [s[|s| - 1]];
      r
    else s
  }

  /** `trim()`. */
  function Trim(s: string): (r: string)
    ensures |r| <= |s|
  {
    TrimEnd(TrimStart(s))
  }

  lemma PrefixOf(p: string, rest: string)
    ensures StartsWith(p + rest, p)
  {
    assert (p + rest)[..|p|] == p;
  }

  /** `trim()` leaves a text alone when it neither starts nor ends with a
   *  space. */
  lemma TrimKeeps(s: string)
    requires s != [] && !IsSpace(s[0]) && !IsSpace(s[|s| - 1])
    ensures Trim(s) == s
  {
    assert LeadingSpaces(s) == 0;
    assert TrimStart(s) == s;
  }

  /** `trim()` empties exactly the all-space texts, and otherwise keeps a
   *  text that neither starts nor ends with a space. */
  lemma TrimShape(s: string)
    ensures Trim(s) == [] <==> AllSpace(s)
    ensures Trim(s) != [] ==> !IsSpace(Trim(s)[0]) && !IsSpace(Trim(s)[|Trim(s)| - 1])
  {
    var t := TrimStart(s);
    var r := TrimEnd(t);
    assert t != [] ==> t[0] == s[LeadingSpaces(s)];
    assert r == [] ==> AllSpace(t);
    assert r == [] ==> t == [] by {
      assert t != [] ==> IsSpace(t[0]) || r != [];
    }
    assert t == [] ==> s == s[..LeadingSpaces(s)];
    assert AllSpace(s) ==> AllSpace(t);
    assert r != [] ==> r[0] == t[0];
  }

  /** Index of the first `c` in `s`, or `|s|` when there is none. */
  function IndexOf(s: string, c: char): (r: nat)
    ensures r <= |s|
    ensures r < |s| ==> s[r] == c
    ensures c !in s[..r]
  {
    if s == [] then 0
    else if s[0] == c then 0
    else
      var r := IndexOf(s[1..], c) + 1;
      assert s[..r] == [s[0]] + s[1..][..r - 1];
      r
  }

  /** `s.split(c)` for a one-character separator. */
  function Split(s: string, c: char): (parts: seq<string>)
    ensures |parts| >= 1
    ensures forall k :: 0 <= k < |parts| ==> c !in parts[k]
    decreases |s|
  {
    var i := IndexOf(s, c);
    if i == |s| then
      assert s == s[..i];
      [s]
    else [s[..i]] + Split(s[i + 1..], c)
  }

  /** `parts.join(sep)`. */
  function Join(parts: seq<string>, sep: string): string {
    if |parts| == 0 then ""
    else if |parts| == 1 then parts[0]
    else parts[0] + sep + Join(parts[1..], sep)
  }

  lemma JoinOne(x: string, sep: string)
    ensures Join([x], sep) == x
  {
  }

  lemma JoinCons(x: string, rest: seq<string>, sep: string)
    requires rest != []
    ensures Join([x] + rest, sep) == x + sep + Join(rest, sep)
  {
    assert ([x] + rest)[1..] == rest;
  }

  /** Joining one more part adds a separator and that part. */
  lemma {:induction false} JoinSnoc(xs: seq<string>, y: string, sep: string)
    requires xs != []
    ensures Join(xs + [y], sep) == Join(xs, sep) + sep + y
    decreases |xs|
  {
    if |xs| == 1 {
      assert xs + [y] == [xs[0], y];
    } else {
      JoinSnoc(xs[1..], y, sep);
      assert (xs + [y])[1..] == xs[1..] + [y];
    }
  }

  /** Splitting then joining with the same separator gives the text back. */
  lemma {:induction false} JoinSplit(s: string, c: char)
    ensures Join(Split(s, c), [c]) == s
    decreases |s|
  {
    var i := IndexOf(s, c);
    if i < |s| {
      var rest := Split(s[i + 1..], c);
      JoinSplit(s[i + 1..], c);
      assert Split(s, c) == [s[..i]] + rest;
      assert (s[..i] + [c] + s[i + 1..]) == s;
    } else {
      assert s == s[..i];
    }
  }

  /** Splitting a join of separator-free parts gives the parts back. */
  lemma {:induction false} SplitJoin(parts: seq<string>, c: char)
    requires |parts| >= 1
    requires forall k :: 0 <= k < |parts| ==> c !in parts[k]
    ensures Split(Join(parts, [c]), c) == parts
    decreases |parts|
  {
    var s := Join(parts, [c]);
    if |parts| == 1 {
      assert IndexOf(s, c) == |s|;
    } else {
      SplitJoin(parts[1..], c);
      var p := parts[0];
      assert s == p + [c] + Join(parts[1..], [c]);
      IndexOfPrefix(p, c, Join(parts[1..], [c]));
      assert s[|p| + 1..] == Join(parts[1..], [c]);
      assert s[..|p|] == p;
    }
  }

  lemma IndexOfPrefix(p: string, c: char, rest: string)
    requires c !in p
    ensures IndexOf(p + [c] + rest, c) == |p|
  {
    var s := p + [c] + rest;
    var i := IndexOf(s, c);
    assert s[|p|] == c;
    assert forall j :: 0 <= j < i ==> s[j] != c by {
      forall j | 0 <= j < i ensures s[j] != c {
        assert s[j] == s[..i][j];
      }
    }
    assert forall j :: 0 <= j < |p| ==> s[j] == p[j];
  }

  /** Literal global replacement, scanning left to right without overlap
   *  (what `replace(/pat/g, rep)` does for a pattern with no special
   *  characters and a replacement with no `$`). */
  function ReplaceAll(s: string, pat: string, rep: string): string
    requires pat != []
    decreases |s|
  {
    if s == [] then []
    else if StartsWith(s, pat) then rep + ReplaceAll(s[|pat|..], pat, rep)
    else [s[0]] + ReplaceAll(s[1..], pat, rep)
  }

  /** Global replacement of a pattern that never occurs changes nothing. */
  lemma {:induction false} ReplaceAllAbsent(s: string, pat: string, rep: string)
    requires pat != []
    requires forall k :: 0 <= k < |s| ==> !OccursAt(s, pat, k)
    ensures ReplaceAll(s, pat, rep) == s
  {
    ReplaceAllSkip(s, |s|, pat, rep);
    assert s[..|s|] == s && s[|s|..] == [];
  }

  lemma ShiftOccurs(s: string, pat: string)
    requires s != []
    ensures forall k :: 0 <= k <= |s[1..]| ==> OccursAt(s[1..], pat, k) == OccursAt(s, pat, k + 1)
    ensures s == [s[0]] + s[1..]
  {
    forall k | 0 <= k <= |s[1..]| ensures OccursAt(s[1..], pat, k) == OccursAt(s, pat, k + 1) {
      assert s[1..][k..] == s[k + 1..];
    }
  }

  lemma ShiftOccursBack(s: string, pat: string)
    requires s != []
    ensures forall k :: 1 <= k <= |s| ==> OccursAt(s, pat, k) == OccursAt(s[1..], pat, k - 1)
  {
    forall k | 1 <= k <= |s| ensures OccursAt(s, pat, k) == OccursAt(s[1..], pat, k - 1) {
      assert s[1..][k - 1..] == s[k..];
    }
  }

  /** One step of the scan where no occurrence starts at the front. */
  lemma ReplaceAllStep(s: string, pat: string, rep: string)
    requires pat != [] && s != []
    requires !OccursAt(s, pat, 0)
    ensures ReplaceAll(s, pat, rep) == [s[0]] + ReplaceAll(s[1..], pat, rep)
  {
    assert s[0..] == s;
  }

  /** Where no occurrence starts before index `n`, global replacement
   *  leaves the first `n` characters alone. */
  lemma {:induction false} ReplaceAllSkip(s: string, n: nat, pat: string, rep: string)
    requires pat != [] && n <= |s|
    requires forall k :: 0 <= k < n ==> !OccursAt(s, pat, k)
    ensures ReplaceAll(s, pat, rep) == s[..n] + ReplaceAll(s[n..], pat, rep)
    decreases n
  {
    if n > 0 {
      var t := s[1..];
      ReplaceAllStep(s, pat, rep);
      assert forall k :: 0 <= k < n - 1 ==> !OccursAt(t, pat, k) by {
        ShiftOccurs(s, pat);
      }
      ReplaceAllSkip(t, n - 1, pat, rep);
      calc {
        ReplaceAll(s, pat, rep);
        [s[0]] + ReplaceAll(t, pat, rep);
        [s[0]] + (t[..n - 1] + ReplaceAll(t[n - 1..], pat, rep));
        { assert t[n - 1..] == s[n..]; }
        [s[0]] + (t[..n - 1] + ReplaceAll(s[n..], pat, rep));
        ([s[0]] + t[..n - 1]) + ReplaceAll(s[n..], pat, rep);
        { assert [s[0]] + t[..n - 1] == s[..n]; }
        s[..n] + ReplaceAll(s[n..], pat, rep);
      }
    }
  }

  /** A single occurrence at the front is replaced. */
  lemma ReplaceAllFront(y: string, pat: string, rep: string)
    requires pat != []
    ensures ReplaceAll(pat + y, pat, rep) == rep + ReplaceAll(y, pat, rep)
  {
    assert (pat + y)[..|pat|] == pat;
    assert (pat + y)[|pat|..] == y;
  }

  /** Replacing every occurrence of a single character is a per-character map. */
  function MapChar(s: string, c: char, rep: string): (r: string)
    ensures c !in rep ==> c !in r
  {
    if s == [] then [] else (if s[0] == c then rep else [s[0]]) + MapChar(s[1..], c, rep)
  }

  lemma {:induction false} ReplaceAllOneChar(s: string, c: char, rep: string)
    ensures ReplaceAll(s, [c], rep) == MapChar(s, c, rep)
    decreases |s|
  {
    if s != [] {
      ReplaceAllOneChar(s[1..], c, rep);
      assert s[..1] == [s[0]];
    }
  }

  lemma {:induction false} MapCharConcat(a: string, b: string, c: char, rep: string)
    ensures MapChar(a + b, c, rep) == MapChar(a, c, rep) + MapChar(b, c, rep)
    decreases |a|
  {
    if a == [] {
      assert a + b == b;
    } else {
      assert (a + b)[1..] == a[1..] + b;
      MapCharConcat(a[1..], b, c, rep);
    }
  }

  lemma {:induction false} MapCharAbsent(s: string, c: char, rep: string)
    requires c !in s
    ensures MapChar(s, c, rep) == s
    decreases |s|
  {
    if s != [] {
      MapCharAbsent(s[1..], c, rep);
    }
  }

  /** `indexOf(pat)`: the first index at which `pat` occurs. */
  function Find(s: string, pat: string): (r: Option<nat>)
    requires pat != []
    ensures r.Some? ==> r.value + |pat| <= |s|
    decreases |s|
  {
    if |s| < |pat| then None
    else if StartsWith(s, pat) then Some(0)
    else match Find(s[1..], pat)
      case None => None
      case Some(k) => Some(k + 1)
  }

  /** `Find` gives the first occurrence, and none when there is none. */
  lemma {:induction false} FindFirst(s: string, pat: string)
    requires pat != []
    ensures Find(s, pat).Some? ==> OccursAt(s, pat, Find(s, pat).value)
    ensures Find(s, pat).Some? ==> forall k :: 0 <= k < Find(s, pat).value ==> !OccursAt(s, pat, k)
    ensures Find(s, pat).None? ==> forall k :: 0 <= k <= |s| ==> !OccursAt(s, pat, k)
    decreases |s|
  {
    assert s[0..] == s;
    if |s| < |pat| {
      forall k | 0 <= k <= |s| ensures !OccursAt(s, pat, k) {
        assert |s[k..]| < |pat|;
      }
    } else if !StartsWith(s, pat) {
      FindFirst(s[1..], pat);
      ShiftOccursBack(s, pat);
    }
  }

  /** An occurrence with none before it is the one `Find` reports. */
  lemma FindAt(s: string, pat: string, j: nat)
    requires pat != []
    requires OccursAt(s, pat, j)
    requires forall k :: 0 <= k < j ==> !OccursAt(s, pat, k)
    ensures Find(s, pat) == Some(j)
  {
    FindFirst(s, pat);
  }

  /** `x + pat` holds `pat` at its end and nowhere earlier. */
  predicate FirstAtEnd(x: string, pat: string) {
    forall k :: 0 <= k < |x| ==> !OccursAt(x + pat, pat, k)
  }

  /** An occurrence that ends inside `x` is unaffected by what follows `x`. */
  lemma OccursExtend(x: string, rest: string, pat: string, k: nat)
    requires k + |pat| <= |x|
    ensures OccursAt(x + rest, pat, k) == OccursAt(x, pat, k)
  {
    assert (x + rest)[k..][..|pat|] == x[k..][..|pat|];
  }

  /** The lazy match `x` of `([\s\S]*?)pat`: the text before the first
   *  occurrence, whatever follows it. */
  lemma FindAfter(x: string, pat: string, rest: string)
    requires pat != [] && FirstAtEnd(x, pat)
    ensures Find(x + pat + rest, pat) == Some(|x|)
  {
    var s := x + pat + rest;
    assert s == (x + pat) + rest;
    assert s[|x|..] == pat + rest;
    forall k | 0 <= k < |x| ensures !OccursAt(s, pat, k) {
      OccursExtend(x + pat, rest, pat, k);
    }
    FindAt(s, pat, |x|);
  }

  /** Conversely, what `Find` skips before the first occurrence. */
  lemma FoundFirst(s: string, pat: string)
    requires pat != [] && Find(s, pat).Some?
    ensures var v := Find(s, pat).value;
      s == s[..v] + pat + s[v + |pat|..] && FirstAtEnd(s[..v], pat)
  {
    var v := Find(s, pat).value;
    FindFirst(s, pat);
    assert s[v..][..|pat|] == pat;
    assert s == s[..v] + s[v..][..|pat|] + s[v + |pat|..];
    forall k | 0 <= k < v ensures !OccursAt(s[..v] + pat, pat, k) {
      assert s[..v] + pat == s[..v + |pat|];
      OccursExtend(s[..v + |pat|], s[v + |pat|..], pat, k);
      assert s[..v + |pat|] + s[v + |pat|..] == s;
    }
  }

  /** `s.replace(pat, rep)` with a string pattern: the first occurrence only
   *  (a replacement containing `$` is taken literally here). */
  function ReplaceFirst(s: string, pat: string, rep: string): string
    requires pat != []
    decreases |s|
  {
    if |s| < |pat| then s
    else if StartsWith(s, pat) then rep + s[|pat|..]
    else [s[0]] + ReplaceFirst(s[1..], pat, rep)
  }

  /** The occurrence replaced is the one `Find` reports. */
  lemma {:induction false} ReplaceFirstFind(s: string, pat: string, rep: string)
    requires pat != []
    ensures Find(s, pat).None? ==> ReplaceFirst(s, pat, rep) == s
    ensures Find(s, pat).Some? ==>
      var k := Find(s, pat).value;
      ReplaceFirst(s, pat, rep) == s[..k] + rep + s[k + |pat|..]
    decreases |s|
  {
    if |s| >= |pat| && !StartsWith(s, pat) {
      var t := s[1..];
      ReplaceFirstFind(t, pat, rep);
      if Find(t, pat).Some? {
        var k := Find(t, pat).value;
        assert Find(s, pat) == Some(k + 1);
        calc {
          ReplaceFirst(s, pat, rep);
          [s[0]] + ReplaceFirst(t, pat, rep);
          [s[0]] + ((t[..k] + rep) + t[k + |pat|..]);
          { Regroup([s[0]], t[..k] + rep, t[k + |pat|..]);
            Regroup([s[0]], t[..k], rep); }
          (([s[0]] + t[..k]) + rep) + t[k + |pat|..];
          { assert [s[0]] + t[..k] == s[..k + 1];
            assert t[k + |pat|..] == s[k + 1 + |pat|..]; }
          (s[..k + 1] + rep) + s[k + 1 + |pat|..];
        }
      } else {
        assert s == [s[0]] + t;
      }
    }
  }

  /** Replacing the first occurrence passes over a text in which the
   *  pattern's first character does not appear. */
  lemma {:induction false} ReplaceFirstSkip(t: string, x: string, pat: string, rep: string)
    requires pat != [] && pat[0] !in t
    ensures ReplaceFirst(t + x, pat, rep) == t + ReplaceFirst(x, pat, rep)
    decreases |t|
  {
    if t == [] {
      assert t + x == x;
    } else {
      var y := t[1..] + x;
      assert t + x == [t[0]] + y;
      ReplaceFirstSkip(t[1..], x, pat, rep);
      ReplaceFirstOne(t[0], y, pat, rep);
      calc {
        ReplaceFirst(t + x, pat, rep);
        ReplaceFirst([t[0]] + y, pat, rep);
        [t[0]] + ReplaceFirst(y, pat, rep);
        [t[0]] + (t[1..] + ReplaceFirst(x, pat, rep));
        { Regroup([t[0]], t[1..], ReplaceFirst(x, pat, rep)); }
        ([t[0]] + t[1..]) + ReplaceFirst(x, pat, rep);
        { assert [t[0]] + t[1..] == t; }
        t + ReplaceFirst(x, pat, rep);
      }
    }
  }

  lemma Regroup(a: string, b: string, c: string)
    ensures a + (b + c) == (a + b) + c
  {
  }

  lemma ReplaceFirstOne(c: char, y: string, pat: string, rep: string)
    requires pat != [] && c != pat[0]
    ensures ReplaceFirst([c] + y, pat, rep) == [c] + ReplaceFirst(y, pat, rep)
  {
    var s := [c] + y;
    assert s[1..] == y;
    if |s| >= |pat| {
      assert s[..|pat|][0] == c;
    }
  }

  /** An occurrence at the very front is the one replaced. */
  lemma ReplaceFirstFront(pat: string, x: string, rep: string)
    requires pat != []
    ensures ReplaceFirst(pat + x, pat, rep) == rep + x
  {
    PrefixOf(pat, x);
    assert (pat + x)[|pat|..] == x;
  }

  function DigitChar(d: nat): (c: char)
    requires d < 10
    ensures IsDigit(c)
  {
    (48 + d) as char
  }

  /** Decimal rendering of a counter, as `${n}` produces it. */
  function Decimal(n: nat): (r: string)
    ensures r != []
    ensures forall k :: 0 <= k < |r| ==> IsDigit(r[k])
  {
    if n < 10 then [DigitChar(n)] else Decimal(n / 10) + [DigitChar(n % 10)]
  }

  /** Distinct counters render to distinct strings. */
  lemma {:induction false} DecimalInjective(a: nat, b: nat)
    requires Decimal(a) == Decimal(b)
    ensures a == b
    decreases a
  {
    assert a >= 10 ==> |Decimal(a)| == |Decimal(a / 10)| + 1 >= 2;
    assert b >= 10 ==> |Decimal(b)| == |Decimal(b / 10)| + 1 >= 2;
    if a >= 10 && b >= 10 {
      var da, db := Decimal(a), Decimal(b);
      assert da[|da| - 1] == DigitChar(a % 10) && db[|db| - 1] == DigitChar(b % 10);
      assert da[..|da| - 1] == Decimal(a / 10) && db[..|db| - 1] == Decimal(b / 10);
      DecimalInjective(a / 10, b / 10);
    }
  }

  /** The pieces one after another. */
  function Concat(pieces: seq<string>): string {
    if pieces == [] then "" else Concat(pieces[..|pieces| - 1]) + pieces[|pieces| - 1]
  }

  /** Appending the next piece extends the concatenation of a prefix. */
  lemma ConcatStep(pieces: seq<string>, i: nat)
    requires i < |pieces|
    ensures Concat(pieces[..i + 1]) == Concat(pieces[..i]) + pieces[i]
  {
    assert pieces[..i + 1][..i] == pieces[..i];
  }

  function Repeat(s: string, n: nat): (r: string)
    ensures |r| == n * |s|
  {
    if n == 0 then "" else s + Repeat(s, n - 1)
  }
}
