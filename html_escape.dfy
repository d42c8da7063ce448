/**
 * `escapeHtml` outside the browser: five global replacements, `&` first.
 * The replacements compose into an independent per-character entity map,
 * which is what makes the output free of raw markup characters and
 * exactly invertible.
 */
module HtmlEscape {
  import opened Text

  /** The five replacements in source order. */
  function EscapeHtml(s: string): string {
    var amp := ReplaceAll(s, "&", "&amp;");
    var lt := ReplaceAll(amp, "<", "&lt;");
    var gt := ReplaceAll(lt, ">", "&gt;");
    var quot := ReplaceAll(gt, "\"", "&quot;");
    ReplaceAll(quot, "'", "&#039;")
  }

  /** The entity of one character. */
  function EscapeChar(c: char): string {
    if c == '&' then "&amp;"
    else if c == '<' then "&lt;"
    else if c == '>' then "&gt;"
    else if c == '"' then "&quot;"
    else if c == '\'' then "&#039;"
    else [c]
  }

  /** Character-by-character escaping. */
  function EscapeEach(s: string): string {
    if s == [] then [] else EscapeChar(s[0]) + EscapeEach(s[1..])
  }

  predicate IsMarkupChar(c: char) {
    c == '<' || c == '>' || c == '"' || c == '\''
  }

  /** Reads the five entities back, left to right; any other character is kept. */
  function Unescape(s: string): string
    decreases |s|
  {
    if s == [] then []
    else if StartsWith(s, "&amp;") then ['&'] + Unescape(s[5..])
    else if StartsWith(s, "&lt;") then ['<'] + Unescape(s[4..])
    else if StartsWith(s, "&gt;") then ['>'] + Unescape(s[4..])
    else if StartsWith(s, "&quot;") then ['"'] + Unescape(s[6..])
    else if StartsWith(s, "&#039;") then ['\''] + Unescape(s[6..])
    else [s[0]] + Unescape(s[1..])
  }

  /** The five passes written as per-character maps. */
  function Passes(s: string): string {
    var amp := MapChar(s, '&', "&amp;");
    var lt := MapChar(amp, '<', "&lt;");
    var gt := MapChar(lt, '>', "&gt;");
    var quot := MapChar(gt, '"', "&quot;");
    MapChar(quot, '\'', "&#039;")
  }

  lemma PassesAreMaps(s: string)
    ensures EscapeHtml(s) == Passes(s)
  {
    var amp := MapChar(s, '&', "&amp;");
    var lt := MapChar(amp, '<', "&lt;");
    var gt := MapChar(lt, '>', "&gt;");
    var quot := MapChar(gt, '"', "&quot;");
    ReplaceAllOneChar(s, '&', "&amp;");
    ReplaceAllOneChar(amp, '<', "&lt;");
    ReplaceAllOneChar(lt, '>', "&gt;");
    ReplaceAllOneChar(gt, '"', "&quot;");
    ReplaceAllOneChar(quot, '\'', "&#039;");
  }

  lemma PassesConcat(a: string, b: string)
    ensures Passes(a + b) == Passes(a) + Passes(b)
  {
    var a1, b1 := MapChar(a, '&', "&amp;"), MapChar(b, '&', "&amp;");
    MapCharConcat(a, b, '&', "&amp;");
    var a2, b2 := MapChar(a1, '<', "&lt;"), MapChar(b1, '<', "&lt;");
    MapCharConcat(a1, b1, '<', "&lt;");
    var a3, b3 := MapChar(a2, '>', "&gt;"), MapChar(b2, '>', "&gt;");
    MapCharConcat(a2, b2, '>', "&gt;");
    var a4, b4 := MapChar(a3, '"', "&quot;"), MapChar(b3, '"', "&quot;");
    MapCharConcat(a3, b3, '"', "&quot;");
    MapCharConcat(a4, b4, '\'', "&#039;");
  }

  /** No pass rewrites what an earlier pass produced: one character at a
   *  time, the chain yields exactly that character's entity. */
  lemma PassesOneChar(c: char)
    ensures Passes([c]) == EscapeChar(c)
  {
    var amp := MapChar([c], '&', "&amp;");
    MapCharOne(c, '&', "&amp;");
    if c == '&' {
      LaterPassesKeep(amp, 4);
    } else {
      var lt := MapChar(amp, '<', "&lt;");
      MapCharOne(c, '<', "&lt;");
      if c == '<' {
        LaterPassesKeep(lt, 3);
      } else {
        var gt := MapChar(lt, '>', "&gt;");
        MapCharOne(c, '>', "&gt;");
        if c == '>' {
          LaterPassesKeep(gt, 2);
        } else {
          var quot := MapChar(gt, '"', "&quot;");
          MapCharOne(c, '"', "&quot;");
          if c == '"' {
            LaterPassesKeep(quot, 1);
          } else {
            MapCharOne(c, '\'', "&#039;");
          }
        }
      }
    }
  }

  /** The last `n` passes leave a text without raw markup characters alone. */
  lemma LaterPassesKeep(s: string, n: nat)
    requires n <= 4
    requires forall k :: 0 <= k < |s| ==> !IsMarkupChar(s[k])
    ensures n == 4 ==> MapChar(MapChar(MapChar(MapChar(s, '<', "&lt;"), '>', "&gt;"), '"', "&quot;"), '\'', "&#039;") == s
    ensures n == 3 ==> MapChar(MapChar(MapChar(s, '>', "&gt;"), '"', "&quot;"), '\'', "&#039;") == s
    ensures n == 2 ==> MapChar(MapChar(s, '"', "&quot;"), '\'', "&#039;") == s
    ensures n == 1 ==> MapChar(s, '\'', "&#039;") == s
  {
    MapCharAbsent(s, '<', "&lt;");
    MapCharAbsent(s, '>', "&gt;");
    MapCharAbsent(s, '"', "&quot;");
    MapCharAbsent(s, '\'', "&#039;");
  }

  lemma MapCharOne(x: char, c: char, rep: string)
    ensures MapChar([x], c, rep) == if x == c then rep else [x]
  {
    assert [x][1..] == [];
  }

  /** The chained replacements equal the per-character entity map. */
  lemma {:induction false} EscapeHtmlIsPerChar(s: string)
    ensures EscapeHtml(s) == EscapeEach(s)
    decreases |s|
  {
    PassesAreMaps(s);
    if s != [] {
      assert s == [s[0]] + s[1..];
      PassesConcat([s[0]], s[1..]);
      PassesOneChar(s[0]);
      EscapeHtmlIsPerChar(s[1..]);
      PassesAreMaps(s[1..]);
    }
  }

  /** Escaped text holds no raw `<`, `>`, `"` or `'`. */
  lemma {:induction false} EscapeHasNoMarkup(s: string)
    ensures forall k :: 0 <= k < |EscapeHtml(s)| ==> !IsMarkupChar(EscapeHtml(s)[k])
  {
    EscapeHtmlIsPerChar(s);
    EscapeEachNoMarkup(s);
  }

  lemma {:induction false} EscapeEachNoMarkup(s: string)
    ensures forall k :: 0 <= k < |EscapeEach(s)| ==> !IsMarkupChar(EscapeEach(s)[k])
    decreases |s|
  {
    if s != [] {
      EscapeEachNoMarkup(s[1..]);
      var head := EscapeChar(s[0]);
      assert forall k :: 0 <= k < |head| ==> !IsMarkupChar(head[k]);
      assert EscapeEach(s) == head + EscapeEach(s[1..]);
    }
  }

  lemma UnescapeOne(c: char, rest: string)
    ensures Unescape(EscapeChar(c) + rest) == [c] + Unescape(rest)
  {
    if c == '&' {
      UnescapeEntity("&amp;", c, rest);
    } else if c == '<' {
      UnescapeEntity("&lt;", c, rest);
    } else if c == '>' {
      UnescapeEntity("&gt;", c, rest);
    } else if c == '"' {
      UnescapeEntity("&quot;", c, rest);
    } else if c == '\'' {
      UnescapeEntity("&#039;", c, rest);
    } else {
      UnescapePlain(c, rest);
    }
  }

  /** An entity decodes to its character; the five differ in their second character. */
  lemma UnescapeEntity(ent: string, c: char, rest: string)
    requires (ent, c) in {("&amp;", '&'), ("&lt;", '<'), ("&gt;", '>'), ("&quot;", '"'), ("&#039;", '\'')}
    ensures Unescape(ent + rest) == [c] + Unescape(rest)
  {
    var e := ent + rest;
    assert e[..|ent|] == ent && e[|ent|..] == rest;
    assert e[1] == ent[1];
  }

  lemma UnescapePlain(c: char, rest: string)
    requires c != '&'
    ensures Unescape([c] + rest) == [c] + Unescape(rest)
  {
    var e := [c] + rest;
    assert e[0] == c && e[1..] == rest;
  }

  /** Escaping loses nothing: decoding the entities gives the text back,
   *  so no entity is ever encoded twice. */
  lemma {:induction false} UnescapeEscape(s: string)
    ensures Unescape(EscapeHtml(s)) == s
  {
    EscapeHtmlIsPerChar(s);
    UnescapeEach(s);
  }

  lemma {:induction false} UnescapeEach(s: string)
    ensures Unescape(EscapeEach(s)) == s
    decreases |s|
  {
    if s != [] {
      UnescapeOne(s[0], EscapeEach(s[1..]));
      UnescapeEach(s[1..]);
    }
  }

  /** Distinct texts escape to distinct texts. */
  lemma EscapeInjective(a: string, b: string)
    requires EscapeHtml(a) == EscapeHtml(b)
    ensures a == b
  {
    UnescapeEscape(a);
    UnescapeEscape(b);
  }
}
