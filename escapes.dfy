/**
 * Escape protection (`\X` to a numbered key before any other processing)
 * and escape restoration (each key back to its character, after all
 * processing), and the placeholder shape `!!NAME!n!!` that the block
 * passes use as well.
 *
 * The escape map of the converter is keyed by `!!ESCAPE!n!!` with n counting
 * 0, 1, 2, ... in order of occurrence, and iterated in insertion order; it is
 * therefore modelled as the sequence `chars` with `chars[n]` the value of key n.
 */
module Escapes {
  import opened Text

  /** `!!NAME!n!!`, the n-th entry of a placeholder family. */
  function Placeholder(name: string, n: nat): string {
    "!!" + name + "!" + Decimal(n) + "!!"
  }

  const EscapeName := "ESCAPE"

  function Key(n: nat): string {
    Placeholder(EscapeName, n)
  }

  /** What `/\\(.)/g` cuts a text into: a backslash with the character it
   *  escapes (any but a line terminator), or a character left alone. */
  datatype Piece = Plain(c: char) | Escaped(c: char)

  function Pieces(s: string): seq<Piece>
    decreases |s|
  {
    if s == [] then []
    else if s[0] == '\\' && |s| >= 2 && !IsLineTerminator(s[1]) then [Escaped(s[1])] + Pieces(s[2..])
    else [Plain(s[0])] + Pieces(s[1..])
  }

  /** The escaped characters, in order of occurrence. */
  function EscapedChars(ps: seq<Piece>): seq<char> {
    if ps == [] then []
    else (if ps[0].Escaped? then [ps[0].c] else []) + EscapedChars(ps[1..])
  }

  /** The text with every escaping backslash dropped. */
  function Literal(ps: seq<Piece>): string {
    if ps == [] then [] else [ps[0].c] + Literal(ps[1..])
  }

  /** The text with the escaped piece numbered `n` (counting from `k`) shown
   *  as its character when `n < r` and as its key otherwise. */
  function Show(ps: seq<Piece>, k: nat, r: nat): string {
    if ps == [] then []
    else match ps[0]
      case Plain(c) => [c] + Show(ps[1..], k, r)
      case Escaped(c) => (if k < r then [c] else Key(k)) + Show(ps[1..], k + 1, r)
  }

  predicate NoBang(ps: seq<Piece>) {
    forall i :: 0 <= i < |ps| ==> ps[i].c != '!'
  }

  /** The replacement pass at the start of rendering: the protected text and
   *  the recorded characters. */
  method ProtectEscapes(md: string) returns (out: string, chars: seq<char>)
    ensures out == Show(Pieces(md), 0, 0)
    ensures chars == EscapedChars(Pieces(md))
  {
    out, chars := "", [];
    var i := 0;
    assert md[0..] == md;
    while i < |md|
      invariant 0 <= i <= |md|
      invariant ProtectedUpTo(md, i, out, chars)
      decreases |md| - i
    {
      ProtectStep(md, i, out, chars);
      if md[i] == '\\' && i + 1 < |md| && !IsLineTerminator(md[i + 1]) {
        out := out + Key(|chars|);
        chars := chars + [md[i + 1]];
        i := i + 2;
      } else {
        out := out + [md[i]];
        i := i + 1;
      }
    }
    assert md[i..] == [];
  }

  /** The protected text so far is `out`, with `chars` recorded, and the
   *  rest of the input still to scan from `i`. */
  predicate ProtectedUpTo(md: string, i: nat, out: string, chars: seq<char>)
    requires i <= |md|
  {
    && Show(Pieces(md), 0, 0) == out + Show(Pieces(md[i..]), |chars|, 0)
    && EscapedChars(Pieces(md)) == chars + EscapedChars(Pieces(md[i..]))
  }

  lemma ProtectStep(md: string, i: nat, out: string, chars: seq<char>)
    requires i < |md| && ProtectedUpTo(md, i, out, chars)
    ensures md[i] == '\\' && i + 1 < |md| && !IsLineTerminator(md[i + 1]) ==>
      ProtectedUpTo(md, i + 2, out + Key(|chars|), chars + [md[i + 1]])
    ensures !(md[i] == '\\' && i + 1 < |md| && !IsLineTerminator(md[i + 1])) ==>
      ProtectedUpTo(md, i + 1, out + [md[i]], chars)
  {
    PiecesFront(md, i);
    if md[i] == '\\' && i + 1 < |md| && !IsLineTerminator(md[i + 1]) {
      ProtectEscaped(md, i, out, chars, Pieces(md[i + 2..]));
    } else {
      ProtectPlain(md, i, out, chars, Pieces(md[i + 1..]));
    }
  }

  lemma ProtectEscaped(md: string, i: nat, out: string, chars: seq<char>, rest: seq<Piece>)
    requires i + 1 < |md| && ProtectedUpTo(md, i, out, chars)
    requires Pieces(md[i..]) == [Escaped(md[i + 1])] + rest && rest == Pieces(md[i + 2..])
    ensures ProtectedUpTo(md, i + 2, out + Key(|chars|), chars + [md[i + 1]])
  {
    var k, c := |chars|, md[i + 1];
    ShowEscaped(c, rest, k);
    assert Show(Pieces(md), 0, 0) == (out + Key(k)) + Show(rest, k + 1, 0);
    assert EscapedChars(Pieces(md)) == (chars + [c]) + EscapedChars(rest);
  }

  lemma ProtectPlain(md: string, i: nat, out: string, chars: seq<char>, rest: seq<Piece>)
    requires i < |md| && ProtectedUpTo(md, i, out, chars)
    requires Pieces(md[i..]) == [Plain(md[i])] + rest && rest == Pieces(md[i + 1..])
    ensures ProtectedUpTo(md, i + 1, out + [md[i]], chars)
  {
    var k := |chars|;
    ShowPlain(md[i], rest, k);
    assert Show(Pieces(md), 0, 0) == (out + [md[i]]) + Show(rest, k, 0);
    assert EscapedChars(Pieces(md)) == chars + EscapedChars(rest);
  }

  /** The pieces from index `i` on: one piece at the front, then the rest. */
  lemma PiecesFront(md: string, i: nat)
    requires i < |md|
    ensures md[i] == '\\' && i + 1 < |md| && !IsLineTerminator(md[i + 1]) ==>
      Pieces(md[i..]) == [Escaped(md[i + 1])] + Pieces(md[i + 2..])
    ensures !(md[i] == '\\' && i + 1 < |md| && !IsLineTerminator(md[i + 1])) ==>
      Pieces(md[i..]) == [Plain(md[i])] + Pieces(md[i + 1..])
  {
    var s := md[i..];
    assert s[0] == md[i];
    assert |s| >= 2 ==> s[1] == md[i + 1] && s[2..] == md[i + 2..];
    assert s[1..] == md[i + 1..];
  }

  lemma ShowEscaped(c: char, rest: seq<Piece>, k: nat)
    ensures Show([Escaped(c)] + rest, k, 0) == Key(k) + Show(rest, k + 1, 0)
    ensures EscapedChars([Escaped(c)] + rest) == [c] + EscapedChars(rest)
  {
    assert ([Escaped(c)] + rest)[1..] == rest;
  }

  lemma ShowPlain(c: char, rest: seq<Piece>, k: nat)
    ensures Show([Plain(c)] + rest, k, 0) == [c] + Show(rest, k, 0)
    ensures EscapedChars([Plain(c)] + rest) == EscapedChars(rest)
  {
    assert ([Plain(c)] + rest)[1..] == rest;
  }

  /** The first `n` restorations, in key order. */
  function RestoreUpTo(html: string, chars: seq<char>, n: nat): string
    requires n <= |chars|
  {
    if n == 0 then html
    else ReplaceAll(RestoreUpTo(html, chars, n - 1), Key(n - 1), [chars[n - 1]])
  }

  /** The restoration loop at the end of rendering. */
  method RestoreEscapes(html: string, chars: seq<char>) returns (out: string)
    ensures out == RestoreUpTo(html, chars, |chars|)
  {
    out := html;
    for n := 0 to |chars|
      invariant out == RestoreUpTo(html, chars, n)
    {
      out := ReplaceAll(out, Key(n), [chars[n]]);
    }
  }

  /** The characters of a placeholder, position by position. */
  lemma PlaceholderLayout(name: string, n: nat)
    ensures var p, m, d := Placeholder(name, n), |name|, Decimal(n);
      && |p| == m + |d| + 5
      && p[0] == '!' && p[1] == '!'
      && p[2..2 + m] == name
      && p[2 + m] == '!'
      && p[3 + m..3 + m + |d|] == d
      && p[3 + m + |d|] == '!' && p[4 + m + |d|] == '!'
  {
  }

  /** A text whose character at `i` differs from the pattern's (or which is
   *  too short to have one) does not start with the pattern. */
  lemma Differ(s: string, pat: string, i: nat)
    requires i < |pat| && (i >= |s| || s[i] != pat[i])
    ensures !StartsWith(s, pat)
  {
    if |pat| <= |s| {
      assert s[..|pat|][i] == s[i];
    }
  }

  lemma DifferAt(s: string, pat: string, q: nat, i: nat)
    requires q <= |s|
    requires i < |pat| && (q + i >= |s| || s[q + i] != pat[i])
    ensures !OccursAt(s, pat, q)
  {
    if q + i < |s| {
      assert s[q..][i] == s[q + i];
    }
    Differ(s[q..], pat, i);
  }

  /** Two entries of one family never start alike: neither is a prefix of
   *  the other, whatever follows. */
  lemma PlaceholderDistinct(name: string, a: nat, b: nat, rest: string)
    requires a != b
    ensures !StartsWith(Placeholder(name, a) + rest, Placeholder(name, b))
  {
    var pa, pb := Placeholder(name, a), Placeholder(name, b);
    var s := pa + rest;
    var m, da, db := |name|, Decimal(a), Decimal(b);
    PlaceholderLayout(name, a);
    PlaceholderLayout(name, b);
    assert da[..] == pa[3 + m..3 + m + |da|] && db[..] == pb[3 + m..3 + m + |db|];
    if |da| == |db| {
      assert da != db by {
        if da == db {
          DecimalInjective(a, b);
        }
      }
      var i :| 0 <= i < |da| && da[i] != db[i];
      assert s[3 + m + i] == pa[3 + m + i] == da[i];
      assert pb[3 + m + i] == db[i];
      Differ(s, pb, 3 + m + i);
    } else if |da| < |db| {
      assert s[3 + m + |da|] == pa[3 + m + |da|] == '!';
      assert pb[3 + m + |da|] == db[|da|];
      Differ(s, pb, 3 + m + |da|);
    } else {
      assert s[3 + m + |db|] == pa[3 + m + |db|] == da[|db|];
      assert pb[3 + m + |db|] == '!';
      Differ(s, pb, 3 + m + |db|);
    }
  }

  /** An entry starting at the second `!` of another's closing `!!` needs
   *  the text after it to continue with `NAME!` and a digit. */
  lemma AtClosingBangs(name: string, a: nat, b: nat, rest: string)
    ensures var pa, pb := Placeholder(name, a), Placeholder(name, b);
      OccursAt(pa + rest, pb, |pa| - 2) ==> StartsWith(rest, name + "!" + [Decimal(b)[0]])
  {
    var pa, pb := Placeholder(name, a), Placeholder(name, b);
    var s, q := pa + rest, |pa| - 2;
    if OccursAt(s, pb, q) {
      var w := name + "!" + [Decimal(b)[0]];
      PlaceholderFront(name, b);
      forall i | 0 <= i < |w| ensures rest[i] == w[i] {
        assert s[q..][2 + i] == pb[2 + i];
      }
      assert rest[..|w|] == w;
    }
  }

  /** A placeholder's text from its third character on: the family name,
   *  a `!` and the number's first digit. */
  lemma PlaceholderFront(name: string, n: nat)
    ensures var p, w := Placeholder(name, n), name + "!" + [Decimal(n)[0]];
      |w| + 2 <= |p| && forall i :: 0 <= i < |w| ==> p[2 + i] == w[i]
  {
    var p, w := Placeholder(name, n), name + "!" + [Decimal(n)[0]];
    assert p == "!!" + w + Decimal(n)[1..] + "!!";
  }

  /** An entry starting at the last `!` of another needs the text after it
   *  to continue with `!` and the family name's first character. */
  lemma AtLastBang(name: string, a: nat, b: nat, rest: string)
    requires name != []
    ensures var pa, pb := Placeholder(name, a), Placeholder(name, b);
      OccursAt(pa + rest, pb, |pa| - 1) ==> StartsWith(rest, "!" + [name[0]])
  {
    var pa, pb := Placeholder(name, a), Placeholder(name, b);
    var s, q := pa + rest, |pa| - 1;
    PlaceholderLayout(name, a);
    PlaceholderLayout(name, b);
    if OccursAt(s, pb, q) {
      assert forall i :: 0 <= i < |pb| ==> s[q + i] == pb[i];
      assert rest[0] == s[q + 1] == pb[1];
      assert rest[1] == s[q + 2] == pb[2] == name[0];
      assert rest[..2] == "!" + [name[0]];
    }
  }

  /** No entry of the family starts strictly inside another entry, provided
   *  the text after it does not continue a partial placeholder. */
  lemma NoOccurrenceInside(name: string, a: nat, b: nat, rest: string, q: nat)
    requires name != [] && '!' !in name && a != b
    requires !StartsWith(rest, name + "!" + [Decimal(b)[0]])
    requires !StartsWith(rest, "!" + [name[0]])
    requires q < |Placeholder(name, a)|
    ensures !OccursAt(Placeholder(name, a) + rest, Placeholder(name, b), q)
  {
    var pa, pb := Placeholder(name, a), Placeholder(name, b);
    var s := pa + rest;
    var m, d := |name|, Decimal(a);
    assert |pa| == m + |d| + 5;
    if q == 0 {
      PlaceholderDistinct(name, a, b, rest);
      assert s[0..] == s;
    } else if q < 3 + m + |d| {
      var i := if q == 1 || q == 2 + m then 1 else 0;
      assert s[q + i] != pb[i] by {
        PlaceholderLayout(name, a);
        PlaceholderLayout(name, b);
        if q == 1 {
          assert s[2] == name[0];
        } else if q < 2 + m {
          assert s[q] == name[q - 2];
        } else if q == 2 + m {
          assert s[q + 1] == d[0];
        } else {
          assert s[q] == d[q - 3 - m];
        }
      }
      DifferAt(s, pb, q, i);
    } else if q == 3 + m + |d| {
      AtClosingBangs(name, a, b, rest);
    } else {
      AtLastBang(name, a, b, rest);
    }
  }

  /** Global replacement of one entry passes over a different entry in front. */
  lemma PlaceholderSkip(name: string, a: nat, b: nat, rest: string, rep: string)
    requires name != [] && '!' !in name && a != b
    requires !StartsWith(rest, name + "!" + [Decimal(b)[0]])
    requires !StartsWith(rest, "!" + [name[0]])
    ensures ReplaceAll(Placeholder(name, a) + rest, Placeholder(name, b), rep)
         == Placeholder(name, a) + ReplaceAll(rest, Placeholder(name, b), rep)
  {
    var pa, pb := Placeholder(name, a), Placeholder(name, b);
    var s := pa + rest;
    forall q | 0 <= q < |pa| ensures !OccursAt(s, pb, q) {
      NoOccurrenceInside(name, a, b, rest, q);
    }
    ReplaceAllSkip(s, |pa|, pb, rep);
    assert s[..|pa|] == pa && s[|pa|..] == rest;
  }

  /** A shown text without `!` in its pieces never continues a partial key:
   *  it does not start with `w!x` for `w` free of `!` and `x` not `!`. */
  lemma {:induction false} ShowNoFalseStart(ps: seq<Piece>, k: nat, r: nat, w: string, x: char)
    requires NoBang(ps)
    requires '!' !in w && x != '!'
    ensures !StartsWith(Show(ps, k, r), w + "!" + [x])
    decreases |ps|
  {
    var pat := w + "!" + [x];
    if ps != [] {
      var s := Show(ps, k, r);
      var k' := if ps[0].Escaped? then k + 1 else k;
      var tail := Show(ps[1..], k', r);
      if ps[0].Escaped? && k >= r {
        PlaceholderLayout(EscapeName, k);
        assert s == Key(k) + tail;
        if w == [] {
          assert pat[1] == x && s[1] == '!';
          Differ(s, pat, 1);
        } else {
          assert pat[0] == w[0] && s[0] == '!';
          Differ(s, pat, 0);
        }
      } else {
        var c := ps[0].c;
        assert s == [c] + tail;
        if w == [] {
          assert pat[0] == '!' && s[0] == c;
          Differ(s, pat, 0);
        } else if StartsWith(s, pat) {
          assert pat[1..] == w[1..] + "!" + [x];
          assert tail[..|pat| - 1] == pat[1..] by {
            assert s[1..] == tail;
            assert s[..|pat|] == pat;
            assert tail[..|pat| - 1] == s[..|pat|][1..];
          }
          ShowNoFalseStart(ps[1..], k', r, w[1..], x);
        }
      }
    }
  }

  /** One restoration step: replacing key `j` turns the text with keys below
   *  `j` restored into the text with keys up to `j` restored. */
  lemma {:induction false} RestoreStep(ps: seq<Piece>, k: nat, j: nat, c: char)
    requires NoBang(ps)
    requires k <= j < k + |EscapedChars(ps)| ==> EscapedChars(ps)[j - k] == c
    ensures ReplaceAll(Show(ps, k, j), Key(j), [c]) == Show(ps, k, j + 1)
    decreases |ps|
  {
    var key := Key(j);
    if ps != [] {
      var head := ps[0];
      var k' := if head.Escaped? then k + 1 else k;
      var ec := EscapedChars(ps);
      assert ec == (if head.Escaped? then [head.c] else []) + EscapedChars(ps[1..]);
      RestoreStep(ps[1..], k', j, c);
      var tail := Show(ps[1..], k', j);
      PlaceholderLayout(EscapeName, j);
      if head.Escaped? && k == j {
        assert ec[0] == head.c;
        assert Show(ps, k, j) == key + tail;
        ReplaceAllFront(tail, key, [c]);
      } else if head.Escaped? && k > j {
        assert Show(ps, k, j) == Key(k) + tail;
        ShowNoFalseStart(ps[1..], k', j, EscapeName, Decimal(j)[0]);
        ShowNoFalseStart(ps[1..], k', j, [], EscapeName[0]);
        assert [] + "!" + [EscapeName[0]] == "!" + [EscapeName[0]];
        PlaceholderSkip(EscapeName, k, j, tail, [c]);
      } else {
        var s := Show(ps, k, j);
        assert s == [head.c] + tail;
        assert !OccursAt(s, key, 0) by {
          assert s[0] == head.c && key[0] == '!';
        }
        ReplaceAllStep(s, key, [c]);
        assert s[1..] == tail;
      }
    }
  }

  /** After the first `n` restorations, exactly the first `n` keys are back. */
  lemma {:induction false} RestoreUpToShow(ps: seq<Piece>, n: nat)
    requires NoBang(ps)
    requires n <= |EscapedChars(ps)|
    ensures RestoreUpTo(Show(ps, 0, 0), EscapedChars(ps), n) == Show(ps, 0, n)
  {
    if n > 0 {
      RestoreUpToShow(ps, n - 1);
      RestoreStep(ps, 0, n - 1, EscapedChars(ps)[n - 1]);
    }
  }

  /** With every key restored, the shown text is the literal text. */
  lemma {:induction false} ShowAllRestored(ps: seq<Piece>, k: nat, r: nat)
    requires k + |EscapedChars(ps)| <= r
    ensures Show(ps, k, r) == Literal(ps)
    decreases |ps|
  {
    if ps != [] {
      var k' := if ps[0].Escaped? then k + 1 else k;
      assert EscapedChars(ps) == (if ps[0].Escaped? then [ps[0].c] else []) + EscapedChars(ps[1..]);
      ShowAllRestored(ps[1..], k', r);
    }
  }

  lemma {:induction false} PiecesNoBang(md: string)
    requires '!' !in md
    ensures NoBang(Pieces(md))
    decreases |md|
  {
    if md != [] {
      if md[0] == '\\' && |md| >= 2 && !IsLineTerminator(md[1]) {
        assert md[1] in md && md[2..] <= md[2..];
        assert forall c :: c in md[2..] ==> c in md;
        PiecesNoBang(md[2..]);
      } else {
        assert forall c :: c in md[1..] ==> c in md;
        PiecesNoBang(md[1..]);
      }
    }
  }

  /** Protection followed by restoration gives back the text with each
   *  escaping backslash dropped and each escaped character in its place. */
  lemma EscapeRoundTrip(md: string)
    requires '!' !in md
    ensures RestoreUpTo(Show(Pieces(md), 0, 0), EscapedChars(Pieces(md)), |EscapedChars(Pieces(md))|)
         == Literal(Pieces(md))
  {
    var ps := Pieces(md);
    PiecesNoBang(md);
    RestoreUpToShow(ps, |EscapedChars(ps)|);
    ShowAllRestored(ps, 0, |EscapedChars(ps)|);
  }

  /** A text without backslashes is neither changed by protection nor by
   *  dropping escapes. */
  lemma {:induction false} NoBackslash(md: string, k: nat, r: nat)
    requires '\\' !in md
    ensures Show(Pieces(md), k, r) == md && Literal(Pieces(md)) == md
    ensures EscapedChars(Pieces(md)) == []
    decreases |md|
  {
    if md != [] {
      assert forall c :: c in md[1..] ==> c in md;
      NoBackslash(md[1..], k, r);
    }
  }

  /** Text that already spells a key is restored as if it had been escaped:
   *  `\a!!ESCAPE!0!!` comes back as `aa`. */
  lemma ForgedKey()
    ensures var md := "\\a" + Key(0);
      RestoreUpTo(Show(Pieces(md), 0, 0), EscapedChars(Pieces(md)), 1) == "aa"
  {
    var md := "\\a" + Key(0);
    var k := Key(0);
    NoBackslash(k, 1, 0);
    assert md[2..] == k;
    assert Pieces(md) == [Escaped('a')] + Pieces(k);
    assert EscapedChars(Pieces(md)) == ['a'];
    assert Show(Pieces(md), 0, 0) == k + k;
    ReplaceAllFront(k, k, "a");
    ReplaceAllFront([], k, "a");
    assert k + [] == k;
  }
}
