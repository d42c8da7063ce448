/**
 * The stages of `renderMarkdown` that work on the whole text before it is
 * cut into lines: blank-line marking, the five extraction passes that lift
 * code blocks, images, internal links, admonitions and tables out of the
 * text into numbered lists (leaving a `!!NAME!n!!` placeholder behind), and
 * the in-order restoration that later puts each block back.
 *
 * Each pass is `html.replace(/pattern/g, callback)`: the text is searched
 * left to right; where the pattern matches, the match is replaced by the
 * placeholder numbered by the current length of the pass's list and the
 * rendered block is pushed; the search resumes after the match. The
 * patterns are written as scanners that try to match at the front of a
 * text, each following the regex's own (greedy or lazy) choice.
 */
module Blocks {
  import opened Text
  import opened HtmlEscape
  import Escapes
  import Table

  /* ---------------- blank-line marking ---------------- */

  const BrMarker := "!!BR!!"

  /** `line.trim() === ''`. */
  predicate Blank(line: string) {
    Trim(line) == ""
  }

  /** The `map((line, i) => ...)`: every blank line but the last becomes
   *  a line break followed by the `!!BR!!` marker. */
  function MarkLines(lines: seq<string>): (r: seq<string>)
    ensures |r| == |lines|
  {
    seq(|lines|, i requires 0 <= i < |lines| =>
      if Blank(lines[i]) && i < |lines| - 1 then "\n" + BrMarker else lines[i])
  }

  function MarkBlankLines(md: string): string {
    Join(MarkLines(Split(md, '\n')), "\n")
  }

  /** The lines of the marked text: each blank line but the last is
   *  replaced by an empty line and a `!!BR!!` line. */
  function Expanded(lines: seq<string>): (r: seq<string>)
    ensures |r| >= |lines|
  {
    if |lines| <= 1 then lines
    else (if Blank(lines[0]) then ["", BrMarker] else [lines[0]]) + Expanded(lines[1..])
  }

  lemma MarkLinesTail(lines: seq<string>)
    requires |lines| >= 2
    ensures MarkLines(lines) == [MarkLines(lines)[0]] + MarkLines(lines[1..])
  {
    assert MarkLines(lines)[1..] == MarkLines(lines[1..]);
  }

  lemma {:induction false} JoinMarked(lines: seq<string>)
    ensures Join(MarkLines(lines), "\n") == Join(Expanded(lines), "\n")
    decreases |lines|
  {
    if |lines| <= 1 {
      assert MarkLines(lines) == lines;
    } else {
      var m, e := MarkLines(lines[1..]), Expanded(lines[1..]);
      MarkLinesTail(lines);
      JoinMarked(lines[1..]);
      var head := MarkLines(lines)[0];
      JoinCons(head, m, "\n");
      assert Join(MarkLines(lines), "\n") == head + "\n" + Join(e, "\n");
      if Blank(lines[0]) {
        var tail := [BrMarker] + e;
        assert Expanded(lines) == [""] + tail;
        JoinCons(BrMarker, e, "\n");
        JoinCons("", tail, "\n");
        BreakThenMarker(BrMarker, Join(e, "\n"));
      } else {
        assert Expanded(lines) == [lines[0]] + e;
        JoinCons(lines[0], e, "\n");
      }
    }
  }

  lemma BreakThenMarker(marker: string, rest: string)
    ensures ("\n" + marker) + "\n" + rest == "" + "\n" + (marker + "\n" + rest)
  {
  }

  lemma {:induction false} ExpandedNoBreak(lines: seq<string>)
    requires forall k :: 0 <= k < |lines| ==> '\n' !in lines[k]
    ensures forall k :: 0 <= k < |Expanded(lines)| ==> '\n' !in Expanded(lines)[k]
    decreases |lines|
  {
    if |lines| > 1 {
      ExpandedNoBreak(lines[1..]);
    }
  }

  /** Reading the marked text back as lines gives the original lines with
   *  every blank line but the last turned into an empty line and a
   *  `!!BR!!` line. */
  lemma MarkedLines(md: string)
    ensures Split(MarkBlankLines(md), '\n') == Expanded(Split(md, '\n'))
  {
    var lines := Split(md, '\n');
    JoinMarked(lines);
    ExpandedNoBreak(lines);
    SplitJoin(Expanded(lines), '\n');
  }

  /** A text without blank lines (the last line aside) is left as it is. */
  lemma MarkingKeeps(md: string)
    requires forall i :: 0 <= i < |Split(md, '\n')| - 1 ==> !Blank(Split(md, '\n')[i])
    ensures MarkBlankLines(md) == md
  {
    var lines := Split(md, '\n');
    forall i | 0 <= i < |lines| ensures MarkLines(lines)[i] == lines[i] {
      if i < |lines| - 1 {
        assert !Blank(lines[i]);
      }
    }
    assert MarkLines(lines) == lines;
    JoinSplit(md, '\n');
  }

  /* ---------------- the extraction passes ---------------- */

  datatype Admonition = Info | Warn | Alert

  datatype Pass = CodePass | ImagePass | InternalPass | InfoPass(kind: Admonition) | TablePass

  /** The placeholder family, which is also the list the pass fills. */
  function Family(p: Pass): string {
    match p
    case CodePass => "CODEBLOCK"
    case ImagePass => "IMAGE"
    case InternalPass => "INTERNAL"
    case InfoPass(_) => "INFOBLOCK"
    case TablePass => "TABLE"
  }

  /** A match at the front of a text: its length and the block it renders. */
  datatype Found = Found(len: nat, block: string)

  function Spaces(n: nat): string {
    Repeat(" ", n)
  }

  /** A code block with a program part and an output part, in the
   *  template's own layout. */
  function OutputBlock(program: string, output: string): string {
    "\n" + Spaces(16) + "<div class=\"code-block-container\">\n"
    + Spaces(20) + "<pre class=\"code-program\"><code>" + EscapeHtml(program) + "</code></pre>\n"
    + Spaces(20) + "<pre class=\"code-output\"><code>" + EscapeHtml(output) + "</code></pre>\n"
    + Spaces(16) + "</div>\n" + Spaces(12)
  }

  /** `.replace(/!!BR!!\n/g, '')`. */
  function DropBreaks(s: string): string {
    ReplaceAll(s, BrMarker + "\n", "")
  }

  /** `code.match(/([\s\S]*?):::output\n([\s\S]*?)\n:::/)`: the program up
   *  to the first `:::output` line opener and the output up to the first
   *  `\n:::` after it. */
  function OutputSplit(code: string): Option<(string, string)> {
    match Find(code, ":::output\n")
    case None => None
    case Some(u) =>
      match Find(code[u + 10..], "\n:::")
      case None => None
      case Some(v) => Some((code[..u], code[u + 10..u + 10 + v]))
  }

  /** The code pass's callback. */
  function CodeBlock(code: string): string {
    match OutputSplit(code)
    case Some((program, output)) => OutputBlock(DropBreaks(Trim(program)), Trim(output))
    case None => "<pre><code>" + EscapeHtml(DropBreaks(Trim(code))) + "</code></pre>"
  }

  /** What a pattern captured at the front of a text: the length of the
   *  whole match and its two groups (the second is empty for patterns with
   *  one group). */
  datatype Capture = Capture(len: nat, first: string, second: string)

  /** ```` /```([^\n]*)\n([\s\S]*?)```/ ````: a fence, the rest of its line,
   *  and the code up to the first closing fence. */
  function CodeScan(s: string): (r: Option<Capture>)
    ensures r.Some? ==> 7 <= r.value.len <= |s|
  {
    if !StartsWith(s, "```") then None
    else
      var nl := 3 + IndexOf(s[3..], '\n');
      if nl == |s| then None
      else match Find(s[nl + 1..], "```")
        case None => None
        case Some(c) => Some(Capture(nl + 4 + c, s[3..nl], s[nl + 1..nl + 1 + c]))
  }

  function MatchCode(s: string): (r: Option<Found>)
    ensures r.Some? ==> 7 <= r.value.len <= |s|
  {
    match CodeScan(s)
    case None => None
    case Some(g) => Some(Found(g.len, CodeBlock(g.second)))
  }

  function ImageBlock(alt: string, url: string): string {
    "<figure class=\"article-image\"><img src=\"" + EscapeHtml(url) + "\" alt=\"" + EscapeHtml(alt) + "\" />"
    + (if alt != "" then "<figcaption>" + EscapeHtml(alt) + "</figcaption>" else "")
    + "</figure>"
  }

  /** `/!\[([^\]]*)\]\(([^)]+)\)/`: the alt text and the URL. */
  function ImageScan(s: string): (r: Option<Capture>)
    ensures r.Some? ==> 6 <= r.value.len <= |s|
  {
    if |s| < 2 || s[0] != '!' || s[1] != '[' then None
    else
      var a := 2 + IndexOf(s[2..], ']');
      if a + 1 >= |s| || s[a + 1] != '(' then None
      else
        var b := a + 2 + IndexOf(s[a + 2..], ')');
        if b == |s| || b == a + 2 then None
        else Some(Capture(b + 1, s[2..a], s[a + 2..b]))
  }

  function MatchImage(s: string): (r: Option<Found>)
    ensures r.Some? ==> 6 <= r.value.len <= |s|
  {
    match ImageScan(s)
    case None => None
    case Some(g) => Some(Found(g.len, ImageBlock(g.first, g.second)))
  }

  /** The inline style the link span carries, closing its opening tag. */
  const LinkStyle := "\" style=\"color: var(--accent); text-decoration: none; border-bottom: 1px solid var(--accent); cursor: pointer;\">"

  function LinkBlock(text: string, path: string): string {
    "<span class=\"internal-link\" data-path=\"" + EscapeHtml(path)
    + LinkStyle
    + EscapeHtml(text) + "</span>"
  }

  /** `/!!([^!]+)!!\(([^)]+)\)/`: the link text and the path. */
  function InternalScan(s: string): (r: Option<Capture>)
    ensures r.Some? ==> 8 <= r.value.len <= |s|
  {
    if |s| < 2 || s[0] != '!' || s[1] != '!' then None
    else
      var t := 2 + IndexOf(s[2..], '!');
      if t == 2 || t + 2 >= |s| || s[t + 1] != '!' || s[t + 2] != '(' then None
      else
        var b := t + 3 + IndexOf(s[t + 3..], ')');
        if b == |s| || b == t + 3 then None
        else Some(Capture(b + 1, s[2..t], s[t + 3..b]))
  }

  function MatchInternal(s: string): (r: Option<Found>)
    ensures r.Some? ==> 8 <= r.value.len <= |s|
  {
    match InternalScan(s)
    case None => None
    case Some(g) => Some(Found(g.len, LinkBlock(g.first, g.second)))
  }

  function Opener(k: Admonition): string {
    match k
    case Info => ":::info\n"
    case Warn => ":::warn\n"
    case Alert => ":::alert\n"
  }

  function KindName(k: Admonition): string {
    match k
    case Info => "info"
    case Warn => "warn"
    case Alert => "alert"
  }

  function Heading(k: Admonition): string {
    match k
    case Info => "インフォメーション"
    case Warn => "注意"
    case Alert => "警告"
  }

  function InfoBlock(k: Admonition, content: string): string {
    "<div class=\"info-block info-type-" + KindName(k) + "\"><div class=\"info-header\">" + Heading(k)
    + "</div><div class=\"info-content\">" + EscapeHtml(Trim(content)) + "</div></div>"
  }

  const Closer := "\n:::"

  /** `/:::KIND\n([\s\S]*?)\n:::/`: the content between the opener and
   *  the first closer. */
  function InfoScan(k: Admonition, s: string): (r: Option<Capture>)
    ensures r.Some? ==> |Opener(k)| + 4 <= r.value.len <= |s|
  {
    var o := |Opener(k)|;
    if !StartsWith(s, Opener(k)) then None
    else match Find(s[o..], Closer)
      case None => None
      case Some(v) => Some(Capture(o + v + 4, s[o..o + v], ""))
  }

  function MatchInfo(k: Admonition, s: string): (r: Option<Found>)
    ensures r.Some? ==> |Opener(k)| + 4 <= r.value.len <= |s|
  {
    match InfoScan(k, s)
    case None => None
    case Some(g) => Some(Found(g.len, InfoBlock(k, g.first)))
  }

  /** The table pattern; the block is the one `RenderTable` builds. */
  function MatchTableBlock(s: string): (r: Option<Found>)
    ensures r.Some? ==> 0 < r.value.len <= |s|
  {
    match Table.MatchTable(s)
    case None => None
    case Some(t) => Some(Found(t.len, Table.TableHtml(s[..t.len], t.caption)))
  }

  function MatchAt(p: Pass, s: string): (r: Option<Found>)
    ensures r.Some? ==> 0 < r.value.len <= |s|
  {
    match p
    case CodePass => MatchCode(s)
    case ImagePass => MatchImage(s)
    case InternalPass => MatchInternal(s)
    case InfoPass(k) => MatchInfo(k, s)
    case TablePass => MatchTableBlock(s)
  }

  /* ---------------- what each pattern recognises ---------------- */

  /** A fence, a language line and code free of fences is recognised up to
   *  the first closing fence. */
  lemma CodeAt(lang: string, code: string, rest: string)
    requires '\n' !in lang && FirstAtEnd(code, "```")
    ensures CodeScan("```" + lang + "\n" + code + "```" + rest)
         == Some(Capture(|lang| + |code| + 7, lang, code))
  {
    var s := "```" + lang + "\n" + code + "```" + rest;
    assert s[3..] == lang + ['\n'] + (code + "```" + rest);
    IndexOfPrefix(lang, '\n', code + "```" + rest);
    var nl := 3 + |lang|;
    assert s[nl + 1..] == code + "```" + rest;
    FindAfter(code, "```", rest);
    assert s[3..nl] == lang;
    assert s[nl + 1..nl + 1 + |code|] == code;
    assert s[..3] == "```";
    CodeScanOf(s, nl, |code|);
  }

  /** The code pattern's verdict, given where its pieces end. */
  lemma CodeScanOf(s: string, nl: nat, c: nat)
    requires StartsWith(s, "```") && 3 <= nl < |s| && IndexOf(s[3..], '\n') == nl - 3
    requires Find(s[nl + 1..], "```") == Some(c)
    ensures CodeScan(s) == Some(Capture(nl + 4 + c, s[3..nl], s[nl + 1..nl + 1 + c]))
  {
  }

  /** Every code match has that shape. */
  lemma CodeParts(s: string)
    requires CodeScan(s).Some?
    ensures var g := CodeScan(s).value;
      '\n' !in g.first && FirstAtEnd(g.second, "```")
      && s == "```" + g.first + "\n" + g.second + "```" + s[g.len..]
  {
    var nl := 3 + IndexOf(s[3..], '\n');
    assert s[3..][..nl - 3] == s[3..nl];
    FencedParts(s, nl, Find(s[nl + 1..], "```").value);
  }

  /** A fence line ending at `nl` and code of length `c` after it. */
  lemma FencedParts(s: string, nl: nat, c: nat)
    requires StartsWith(s, "```") && 3 <= nl < |s| && s[nl] == '\n'
    requires Find(s[nl + 1..], "```") == Some(c)
    ensures FirstAtEnd(s[nl + 1..nl + 1 + c], "```")
    ensures s == "```" + s[3..nl] + "\n" + s[nl + 1..nl + 1 + c] + "```" + s[nl + 4 + c..]
  {
    var t := s[nl + 1..];
    FoundFirst(t, "```");
    assert t[..c] == s[nl + 1..nl + 1 + c];
    assert s[nl + 1 + c..nl + 4 + c] == t[c..c + 3];
    assert s[nl..nl + 1] == "\n";
    assert s[..3] == "```";
    Pieces(s, 3, nl, nl + 1, nl + 1 + c, nl + 4 + c);
  }

  /** A text cut at five points is the concatenation of its six pieces. */
  lemma Pieces(s: string, a: nat, b: nat, c: nat, d: nat, e: nat)
    requires a <= b <= c <= d <= e <= |s|
    ensures s == s[..a] + s[a..b] + s[b..c] + s[c..d] + s[d..e] + s[e..]
  {
  }

  /** An image with its alt text and a non-empty URL is recognised whole. */
  lemma ImageAt(alt: string, url: string, rest: string)
    requires ']' !in alt && url != [] && ')' !in url
    ensures ImageScan("![" + alt + "](" + url + ")" + rest)
         == Some(Capture(|alt| + |url| + 5, alt, url))
  {
    var s := "![" + alt + "](" + url + ")" + rest;
    var a, b := 2 + |alt|, 4 + |alt| + |url|;
    assert IndexOf(s[2..], ']') == |alt| by {
      assert s[2..] == alt + [']'] + ("(" + url + ")" + rest);
      IndexOfPrefix(alt, ']', "(" + url + ")" + rest);
    }
    assert IndexOf(s[a + 2..], ')') == |url| by {
      assert s[a + 2..] == url + [')'] + rest;
      IndexOfPrefix(url, ')', rest);
    }
    assert s[2..a] == alt && s[a + 2..b] == url;
    ImageScanOf(s, a, b);
  }

  /** The image pattern's verdict, given where its pieces end. */
  lemma ImageScanOf(s: string, a: nat, b: nat)
    requires |s| >= 2 && s[0] == '!' && s[1] == '['
    requires a == 2 + IndexOf(s[2..], ']') && a + 1 < |s| && s[a + 1] == '('
    requires b == a + 2 + IndexOf(s[a + 2..], ')') && a + 2 < b < |s|
    ensures ImageScan(s) == Some(Capture(b + 1, s[2..a], s[a + 2..b]))
  {
  }

  /** Every image match has that shape. */
  lemma ImageParts(s: string)
    requires ImageScan(s).Some?
    ensures var g := ImageScan(s).value;
      ']' !in g.first && g.second != [] && ')' !in g.second
      && s == "![" + g.first + "](" + g.second + ")" + s[g.len..]
  {
    var a := 2 + IndexOf(s[2..], ']');
    var b := a + 2 + IndexOf(s[a + 2..], ')');
    assert s[2..][..a - 2] == s[2..a];
    assert s[a + 2..][..b - a - 2] == s[a + 2..b];
    ImageScanOf(s, a, b);
    Bracketed(s, "![", "](", ")", a, b);
  }

  /** A text made of an opener, a first group, a separator, a second group
   *  and a closer at the given positions. */
  lemma Bracketed(s: string, opener: string, sep: string, closer: string, a: nat, b: nat)
    requires |opener| <= a && a + |sep| <= b && b + |closer| <= |s|
    requires s[..|opener|] == opener && s[a..a + |sep|] == sep && s[b..b + |closer|] == closer
    ensures s == opener + s[|opener|..a] + sep + s[a + |sep|..b] + closer + s[b + |closer|..]
  {
    Pieces(s, |opener|, a, a + |sep|, b, b + |closer|);
  }

  /** An internal link with non-empty text and path is recognised whole. */
  lemma InternalAt(text: string, path: string, rest: string)
    requires text != [] && '!' !in text && path != [] && ')' !in path
    ensures InternalScan("!!" + text + "!!(" + path + ")" + rest)
         == Some(Capture(|text| + |path| + 6, text, path))
  {
    var s := "!!" + text + "!!(" + path + ")" + rest;
    assert s[2..] == text + ['!'] + ("!(" + path + ")" + rest);
    IndexOfPrefix(text, '!', "!(" + path + ")" + rest);
    var t := 2 + |text|;
    assert s[t + 3..] == path + [')'] + rest;
    IndexOfPrefix(path, ')', rest);
    assert s[2..t] == text;
    assert s[t + 3..t + 3 + |path|] == path;
    InternalScanOf(s, t, t + 3 + |path|);
  }

  /** The internal-link pattern's verdict, given where its pieces end. */
  lemma InternalScanOf(s: string, t: nat, b: nat)
    requires 2 < t && t + 3 < b < |s| && s[0] == '!' && s[1] == '!' && s[t + 1] == '!' && s[t + 2] == '('
    requires IndexOf(s[2..], '!') == t - 2 && IndexOf(s[t + 3..], ')') == b - t - 3
    ensures InternalScan(s) == Some(Capture(b + 1, s[2..t], s[t + 3..b]))
  {
  }

  /** Every internal-link match has that shape. */
  lemma InternalParts(s: string)
    requires InternalScan(s).Some?
    ensures var g := InternalScan(s).value;
      g.first != [] && '!' !in g.first && g.second != [] && ')' !in g.second
      && s == "!!" + g.first + "!!(" + g.second + ")" + s[g.len..]
  {
    var t := 2 + IndexOf(s[2..], '!');
    var b := t + 3 + IndexOf(s[t + 3..], ')');
    assert s[2..][..t - 2] == s[2..t];
    assert s[t + 3..][..b - t - 3] == s[t + 3..b];
    InternalScanOf(s, t, b);
    Bracketed(s, "!!", "!!(", ")", t, b);
  }

  /** An admonition is recognised up to the first closer after its opener. */
  lemma InfoAt(k: Admonition, content: string, rest: string)
    requires FirstAtEnd(content, Closer)
    ensures InfoScan(k, Opener(k) + content + Closer + rest)
         == Some(Capture(|Opener(k)| + |content| + 4, content, ""))
  {
    LazyFront(Opener(k), content, rest);
  }

  /** The opener, then the lazy content up to the first closer. */
  lemma LazyFront(opener: string, content: string, rest: string)
    requires FirstAtEnd(content, Closer)
    ensures var s := opener + content + Closer + rest;
      StartsWith(s, opener) && Find(s[|opener|..], Closer) == Some(|content|)
      && s[|opener|..|opener| + |content|] == content
  {
    var s := opener + content + Closer + rest;
    assert s[|opener|..] == content + Closer + rest;
    FindAfter(content, Closer, rest);
    assert s[..|opener|] == opener;
  }

  /** Every admonition match has that shape. */
  lemma InfoParts(k: Admonition, s: string)
    requires InfoScan(k, s).Some?
    ensures var g := InfoScan(k, s).value;
      FirstAtEnd(g.first, Closer) && s == Opener(k) + g.first + Closer + s[g.len..]
  {
    LazyParts(Opener(k), s);
  }

  /** What follows an opener, cut at the first closer. */
  lemma LazyParts(opener: string, s: string)
    requires StartsWith(s, opener) && Find(s[|opener|..], Closer).Some?
    ensures var o, v := |opener|, Find(s[|opener|..], Closer).value;
      FirstAtEnd(s[o..o + v], Closer) && s == opener + s[o..o + v] + Closer + s[o + v + 4..]
  {
    var o := |opener|;
    var t := s[o..];
    FoundFirst(t, Closer);
    var v := Find(t, Closer).value;
    assert t[..v] == s[o..o + v];
    assert t[v + 4..] == s[o + v + 4..];
    assert s == s[..o] + t;
  }

  /** A code block with a `:::output` line splits at the first such line and
   *  at the first closer after it. */
  lemma OutputAt(program: string, output: string, tail: string)
    requires FirstAtEnd(program, ":::output\n") && FirstAtEnd(output, Closer)
    ensures OutputSplit(program + ":::output\n" + output + Closer + tail) == Some((program, output))
  {
    var code := program + ":::output\n" + output + Closer + tail;
    FindAfter(program, ":::output\n", output + Closer + tail);
    assert code == program + ":::output\n" + (output + Closer + tail);
    var u := |program|;
    assert code[u + 10..] == output + Closer + tail;
    FindAfter(output, Closer, tail);
    assert code[..u] == program;
    assert code[u + 10..u + 10 + |output|] == output;
  }

  /* ------- the text after a pass, and the blocks it lifted out ------- */

  /** A pattern tried at the front of a text. The definitions below hold for
   *  any pattern whose matches are non-empty. */
  type Matcher = string -> Option<Found>

  ghost predicate Advances(f: Matcher) {
    forall s :: f(s).Some? ==> 0 < f(s).value.len <= |s|
  }

  function PassMatcher(p: Pass): (f: Matcher)
    ensures Advances(f)
  {
    s => MatchAt(p, s)
  }

  /** The text with the match numbered `n` (counting from `k`) shown as its
   *  block when `n < r` and as its placeholder otherwise. With `r = 0` this
   *  is the text a pass leaves behind. */
  function Render(f: Matcher, family: string, s: string, k: nat, r: nat): string
    requires Advances(f)
    decreases |s|
  {
    if s == [] then ""
    else match f(s)
      case Some(m) => (if k < r then m.block else Escapes.Placeholder(family, k)) + Render(f, family, s[m.len..], k + 1, r)
      case None => [s[0]] + Render(f, family, s[1..], k, r)
  }

  /** The blocks of the matches, left to right. */
  function FoundBlocks(f: Matcher, s: string): seq<string>
    requires Advances(f)
    decreases |s|
  {
    if s == [] then []
    else match f(s)
      case Some(m) => [m.block] + FoundBlocks(f, s[m.len..])
      case None => FoundBlocks(f, s[1..])
  }

  /** Every match replaced by its block in one go: what a pass followed by
   *  its restoration is meant to produce. */
  function Direct(f: Matcher, s: string): string
    requires Advances(f)
    decreases |s|
  {
    if s == [] then ""
    else match f(s)
      case Some(m) => m.block + Direct(f, s[m.len..])
      case None => [s[0]] + Direct(f, s[1..])
  }

  /** No `!` in the text outside the matches nor in any block. */
  predicate Quiet(f: Matcher, s: string)
    requires Advances(f)
    decreases |s|
  {
    s == [] ||
    match f(s)
    case Some(m) => '!' !in m.block && Quiet(f, s[m.len..])
    case None => s[0] != '!' && Quiet(f, s[1..])
  }

  /** One `html.replace(/pattern/g, callback)`, with the pass's list
   *  `blocks` as it stands before the pass. */
  method ExtractPass(p: Pass, html: string, blocks: seq<string>) returns (out: string, found: seq<string>)
    ensures out == Render(PassMatcher(p), Family(p), html, |blocks|, 0)
    ensures found == blocks + FoundBlocks(PassMatcher(p), html)
  {
    out, found := Extract(PassMatcher(p), Family(p), html, blocks);
  }

  /** The replacement loop for any pattern: at each position either a match
   *  is replaced by the next placeholder and its block pushed, or one
   *  character is kept. `rest` is the text not yet scanned. */
  method Extract(f: Matcher, family: string, html: string, blocks: seq<string>) returns (out: string, found: seq<string>)
    requires Advances(f)
    ensures out == Render(f, family, html, |blocks|, 0)
    ensures found == blocks + FoundBlocks(f, html)
  {
    out, found := "", blocks;
    var rest := html;
    while rest != []
      invariant Extracted(f, family, html, blocks, rest, out, found)
      decreases |rest|
    {
      var m := f(rest);
      if m.Some? {
        var hit := m.value;
        ExtractHit(f, family, html, blocks, rest, out, found, hit);
        out, found, rest := out + Escapes.Placeholder(family, |found|), found + [hit.block], rest[hit.len..];
      } else {
        ExtractMiss(f, family, html, blocks, rest, out, found);
        out, rest := out + [rest[0]], rest[1..];
      }
    }
    assert out + "" == out && found + [] == found;
  }

  /** The loop's invariant: what is left of the text still renders to the
   *  rest of the output and holds the rest of the blocks. */
  predicate Extracted(f: Matcher, family: string, html: string, blocks: seq<string>, rest: string, out: string, found: seq<string>)
    requires Advances(f)
  {
    && Render(f, family, html, |blocks|, 0) == out + Render(f, family, rest, |found|, 0)
    && blocks + FoundBlocks(f, html) == found + FoundBlocks(f, rest)
  }

  lemma ExtractHit(f: Matcher, family: string, html: string, blocks: seq<string>, rest: string, out: string, found: seq<string>, m: Found)
    requires Advances(f)
    requires Extracted(f, family, html, blocks, rest, out, found) && rest != [] && f(rest) == Some(m)
    ensures Extracted(f, family, html, blocks, rest[m.len..], out + Escapes.Placeholder(family, |found|), found + [m.block])
  {
    var t := rest[m.len..];
    var p := Escapes.Placeholder(family, |found|);
    RenderHit(f, family, rest, |found|, 0);
    Shift(Render(f, family, html, |blocks|, 0), out, p, Render(f, family, rest, |found|, 0), Render(f, family, t, |found| + 1, 0));
    SeqShift(blocks + FoundBlocks(f, html), found, [m.block], FoundBlocks(f, rest), FoundBlocks(f, t));
  }

  lemma ExtractMiss(f: Matcher, family: string, html: string, blocks: seq<string>, rest: string, out: string, found: seq<string>)
    requires Advances(f)
    requires Extracted(f, family, html, blocks, rest, out, found) && rest != [] && f(rest).None?
    ensures Extracted(f, family, html, blocks, rest[1..], out + [rest[0]], found)
  {
    RenderMiss(f, family, rest, |found|, 0);
    Shift(Render(f, family, html, |blocks|, 0), out, [rest[0]], Render(f, family, rest, |found|, 0), Render(f, family, rest[1..], |found|, 0));
  }

  /** Moving a piece from the front of the rest to the end of the output. */
  lemma Shift(whole: string, out: string, piece: string, rest: string, rest': string)
    requires whole == out + rest && rest == piece + rest'
    ensures whole == (out + piece) + rest'
  {
  }

  lemma SeqShift(whole: seq<string>, done: seq<string>, piece: seq<string>, rest: seq<string>, rest': seq<string>)
    requires whole == done + rest && rest == piece + rest'
    ensures whole == (done + piece) + rest'
  {
  }

  /* ---------------- restoration ---------------- */

  /** The first `n` restorations of a family: `html.replace(P(j), block)`
   *  for j = 0, ..., n - 1. */
  function Fill(html: string, family: string, blocks: seq<string>, n: nat): string
    requires n <= |blocks|
  {
    if n == 0 then html
    else ReplaceFirst(Fill(html, family, blocks, n - 1), Escapes.Placeholder(family, n - 1), blocks[n - 1])
  }

  /** `blocks.forEach((block, i) => html = html.replace(P(i), block))`. */
  method RestoreBlocks(html: string, family: string, blocks: seq<string>) returns (out: string)
    ensures out == Fill(html, family, blocks, |blocks|)
  {
    out := html;
    for n := 0 to |blocks|
      invariant out == Fill(html, family, blocks, n)
    {
      out := ReplaceFirst(out, Escapes.Placeholder(family, n), blocks[n]);
    }
  }

  /* ------- a pass followed by its restoration ------- */

  /** Below `k`, how many matches show their block makes no difference. */
  lemma {:induction false} RenderBelow(f: Matcher, family: string, s: string, k: nat, r: nat, r': nat)
    requires Advances(f)
    requires r <= k && r' <= k
    ensures Render(f, family, s, k, r) == Render(f, family, s, k, r')
    decreases |s|
  {
    if s != [] {
      match f(s)
      case Some(m) => RenderBelow(f, family, s[m.len..], k + 1, r, r');
      case None => RenderBelow(f, family, s[1..], k, r, r');
    }
  }

  /** Once every match is numbered below `r`, all of them show their block. */
  lemma {:induction false} RenderAll(f: Matcher, family: string, s: string, k: nat, r: nat)
    requires Advances(f)
    requires k + |FoundBlocks(f, s)| <= r
    ensures Render(f, family, s, k, r) == Direct(f, s)
    decreases |s|
  {
    if s != [] {
      match f(s)
      case Some(m) => RenderAll(f, family, s[m.len..], k + 1, r);
      case None => RenderAll(f, family, s[1..], k, r);
    }
  }

  lemma RenderMiss(f: Matcher, family: string, s: string, k: nat, r: nat)
    requires Advances(f) && s != [] && f(s).None?
    ensures Render(f, family, s, k, r) == [s[0]] + Render(f, family, s[1..], k, r)
    ensures FoundBlocks(f, s) == FoundBlocks(f, s[1..])
  {
  }

  lemma RenderHit(f: Matcher, family: string, s: string, k: nat, r: nat)
    requires Advances(f) && s != [] && f(s).Some?
    ensures var m := f(s).value;
      Render(f, family, s, k, r)
        == (if k < r then m.block else Escapes.Placeholder(family, k)) + Render(f, family, s[m.len..], k + 1, r)
    ensures FoundBlocks(f, s) == [f(s).value.block] + FoundBlocks(f, s[f(s).value.len..])
  {
  }

  lemma QuietStep(f: Matcher, s: string)
    requires Advances(f) && s != [] && Quiet(f, s)
    ensures f(s).None? ==> s[0] != '!' && Quiet(f, s[1..])
    ensures f(s).Some? ==> '!' !in f(s).value.block && Quiet(f, s[f(s).value.len..])
  {
  }

  lemma PlaceholderBang(family: string, n: nat)
    ensures Escapes.Placeholder(family, n) != [] && Escapes.Placeholder(family, n)[0] == '!'
  {
  }

  /** Restoring entry `r` turns the first placeholder left into its block. */
  lemma {:induction false} FillStep(f: Matcher, family: string, s: string, k: nat, r: nat)
    requires Advances(f) && Quiet(f, s)
    requires k <= r < k + |FoundBlocks(f, s)|
    ensures ReplaceFirst(Render(f, family, s, k, r), Escapes.Placeholder(family, r), FoundBlocks(f, s)[r - k])
         == Render(f, family, s, k, r + 1)
    decreases |s|, 1
  {
    QuietStep(f, s);
    if f(s).None? {
      FillMiss(f, family, s, k, r);
    } else if k < r {
      FillPast(f, family, s, k, r, f(s).value);
    } else {
      PlaceholderBang(family, r);
      RenderHit(f, family, s, k, r);
      FillHere(f, family, s, k, FoundBlocks(f, s)[0]);
    }
  }

  /** No match at the front: the first character stays as it is. */
  lemma {:induction false} FillMiss(f: Matcher, family: string, s: string, k: nat, r: nat)
    requires Advances(f) && s != [] && f(s).None? && s[0] != '!' && Quiet(f, s[1..])
    requires k <= r < k + |FoundBlocks(f, s)|
    ensures ReplaceFirst(Render(f, family, s, k, r), Escapes.Placeholder(family, r), FoundBlocks(f, s)[r - k])
         == Render(f, family, s, k, r + 1)
    decreases |s|, 0
  {
    var pat := Escapes.Placeholder(family, r);
    PlaceholderBang(family, r);
    RenderMiss(f, family, s, k, r);
    RenderMiss(f, family, s, k, r + 1);
    FillStep(f, family, s[1..], k, r);
    ReplaceFirstOne(s[0], Render(f, family, s[1..], k, r), pat, FoundBlocks(f, s)[r - k]);
  }

  /** A match whose block is already restored: it is skipped over. */
  lemma {:induction false} FillPast(f: Matcher, family: string, s: string, k: nat, r: nat, m: Found)
    requires Advances(f) && s != [] && f(s) == Some(m) && '!' !in m.block && Quiet(f, s[m.len..])
    requires k < r < k + |FoundBlocks(f, s)|
    ensures ReplaceFirst(Render(f, family, s, k, r), Escapes.Placeholder(family, r), FoundBlocks(f, s)[r - k])
         == Render(f, family, s, k, r + 1)
    decreases |s|, 0
  {
    var pat := Escapes.Placeholder(family, r);
    var t := s[m.len..];
    PlaceholderBang(family, r);
    RenderHit(f, family, s, k, r);
    RenderHit(f, family, s, k, r + 1);
    ConsIndex(m.block, FoundBlocks(f, t), r - k);
    FillStep(f, family, t, k + 1, r);
    ReplaceFirstSkip(m.block, Render(f, family, t, k + 1, r), pat, FoundBlocks(f, s)[r - k]);
  }

  lemma ConsIndex(x: string, ys: seq<string>, i: nat)
    requires 1 <= i <= |ys|
    ensures ([x] + ys)[i] == ys[i - 1]
  {
  }

  lemma FillHere(f: Matcher, family: string, s: string, k: nat, b: string)
    requires Advances(f) && s != [] && f(s).Some? && b == f(s).value.block
    requires Escapes.Placeholder(family, k) != []
    ensures ReplaceFirst(Render(f, family, s, k, k), Escapes.Placeholder(family, k), b) == Render(f, family, s, k, k + 1)
  {
    var pat, m := Escapes.Placeholder(family, k), f(s).value;
    var t := s[m.len..];
    RenderHit(f, family, s, k, k);
    RenderHit(f, family, s, k, k + 1);
    ReplaceFirstFront(pat, Render(f, family, t, k + 1, k), b);
    RenderBelow(f, family, t, k + 1, k, k + 1);
  }

  lemma {:induction false} FillRender(f: Matcher, family: string, s: string, n: nat)
    requires Advances(f) && Quiet(f, s)
    requires n <= |FoundBlocks(f, s)|
    ensures Fill(Render(f, family, s, 0, 0), family, FoundBlocks(f, s), n) == Render(f, family, s, 0, n)
  {
    if n > 0 {
      FillRender(f, family, s, n - 1);
      FillStep(f, family, s, 0, n - 1);
    }
  }

  /** A pass followed by the restoration of its family puts every block
   *  exactly where its match was, provided no `!` outside the matches or
   *  inside a block can be mistaken for a placeholder. */
  lemma PassRoundTrip(p: Pass, s: string)
    requires Quiet(PassMatcher(p), s)
    ensures var f := PassMatcher(p);
      Fill(Render(f, Family(p), s, 0, 0), Family(p), FoundBlocks(f, s), |FoundBlocks(f, s)|) == Direct(f, s)
  {
    var f := PassMatcher(p);
    FillRender(f, Family(p), s, |FoundBlocks(f, s)|);
    RenderAll(f, Family(p), s, 0, |FoundBlocks(f, s)|);
  }
}
