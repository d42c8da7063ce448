/**
 * `renderMarkdown`: escape protection, blank-line marking, the five
 * extraction passes, the line scanner, the ordered restoration of the
 * lifted blocks, the `!!BR!!` markers, escape restoration and the wrapper.
 *
 * The option `includeCSS` is a boolean here (the converter treats every
 * value but `false` as true), the style sheet is a parameter, and the
 * checkbox ids that the list builder draws at random are the function
 * `ids`, indexed by the line a list run starts on.
 */
module Render {
  import opened Text
  import Escapes
  import Blocks
  import Scanner

  /* ---------------- the stages as values ---------------- */

  /** The text after the extraction passes, and each pass's list. */
  datatype Lifted = Lifted(html: string, code: seq<string>, images: seq<string>,
                           links: seq<string>, infos: seq<string>, tables: seq<string>)

  /** One pass over `html` with the list `blocks` as it stands. */
  function Lift1(p: Blocks.Pass, html: string, blocks: seq<string>): (string, seq<string>) {
    var f := Blocks.PassMatcher(p);
    (Blocks.Render(f, Blocks.Family(p), html, |blocks|, 0), blocks + Blocks.FoundBlocks(f, html))
  }

  /** One pass applied to the text and to the list of its family. */
  function Apply(p: Blocks.Pass, l: Lifted): Lifted {
    match p
    case CodePass => var (h, b) := Lift1(p, l.html, l.code); l.(html := h, code := b)
    case ImagePass => var (h, b) := Lift1(p, l.html, l.images); l.(html := h, images := b)
    case InternalPass => var (h, b) := Lift1(p, l.html, l.links); l.(html := h, links := b)
    case InfoPass(_) => var (h, b) := Lift1(p, l.html, l.infos); l.(html := h, infos := b)
    case TablePass => var (h, b) := Lift1(p, l.html, l.tables); l.(html := h, tables := b)
  }

  /** The passes applied one after the other. */
  function Lifting(passes: seq<Blocks.Pass>, l: Lifted): Lifted
    decreases |passes|
  {
    if passes == [] then l else Lifting(passes[1..], Apply(passes[0], l))
  }

  /** The converter's order; the three admonition passes share one list, so
   *  their placeholders are numbered on from each other. */
  const PassOrder := [Blocks.CodePass, Blocks.ImagePass, Blocks.InternalPass,
                      Blocks.InfoPass(Blocks.Info), Blocks.InfoPass(Blocks.Warn), Blocks.InfoPass(Blocks.Alert),
                      Blocks.TablePass]

  /** Every list starts empty. */
  function Lift(marked: string): Lifted {
    Lifting(PassOrder, Lifted(marked, [], [], [], [], []))
  }

  /** The restorations, family by family in the converter's order. */
  function Restore(html: string, l: Lifted): string {
    var h1 := Blocks.Fill(html, "CODEBLOCK", l.code, |l.code|);
    var h2 := Blocks.Fill(h1, "IMAGE", l.images, |l.images|);
    var h3 := Blocks.Fill(h2, "INTERNAL", l.links, |l.links|);
    var h4 := Blocks.Fill(h3, "INFOBLOCK", l.infos, |l.infos|);
    Blocks.Fill(h4, "TABLE", l.tables, |l.tables|)
  }

  /** The lines of the lifted text, scanned and joined again. */
  function Scanned(html: string, ids: nat -> string): string {
    Join(Scanner.Scan(Split(html, '\n'), 0, ids), "\n")
  }

  /** The `!!BR!!` markers turned into `<br>`, then the escapes restored. */
  function Finish(html: string, chars: seq<char>): string {
    Escapes.RestoreUpTo(ReplaceAll(html, Blocks.BrMarker, "<br>"), chars, |chars|)
  }

  /** The converted text before it is wrapped. */
  function Body(markdown: string, ids: nat -> string): string {
    var ps := Escapes.Pieces(markdown);
    var l := Lift(Blocks.MarkBlankLines(Escapes.Show(ps, 0, 0)));
    Finish(Restore(Scanned(l.html, ids), l), Escapes.EscapedChars(ps))
  }

  /* ---------------- the result object ---------------- */

  /** `{ html, css, fullHTML }`. */
  datatype Rendered = Rendered(html: string, css: string, fullHtml: string)

  const BodyOpen := "<div class=\"monomd-body\">"
  const BodyClose := "</div>"

  function Package(body: string, includeCss: bool, css: string): Rendered {
    var wrapped := BodyOpen + body + BodyClose;
    var sheet := if includeCss then css else "";
    Rendered(wrapped, sheet, if includeCss then "<style>" + sheet + "</style>" + wrapped else wrapped)
  }

  /** The body back from the wrapper, if `html` is wrapped at all. */
  function Unwrap(html: string): (r: Option<string>)
    ensures r.Some? ==> |r.value| + |BodyOpen| + |BodyClose| == |html|
  {
    if |html| >= |BodyOpen| + |BodyClose| && StartsWith(html, BodyOpen) && EndsWith(html, BodyClose)
    then Some(html[|BodyOpen|..|html| - |BodyClose|])
    else None
  }

  /** The wrapper is undone by `Unwrap`: the `html` field holds the body
   *  unchanged between the opening and the closing tag. */
  lemma UnwrapPackage(body: string, includeCss: bool, css: string)
    ensures Unwrap(Package(body, includeCss, css).html) == Some(body)
  {
    var w := BodyOpen + body + BodyClose;
    assert w[..|BodyOpen|] == BodyOpen;
    assert w[|w| - |BodyClose|..] == BodyClose;
    assert w[|BodyOpen|..|w| - |BodyClose|] == body;
  }

  /** The style sheet is part of the result exactly when it is asked for:
   *  `css` is empty otherwise, and `fullHTML` starts with a `<style>`
   *  element holding it if and only if `includeCss` holds; either way
   *  `fullHTML` ends with the wrapped body. */
  lemma PackageStyle(body: string, includeCss: bool, css: string)
    ensures var r := Package(body, includeCss, css);
      && (!includeCss ==> r.css == "")
      && (includeCss ==> r.css == css)
      && (StartsWith(r.fullHtml, "<style>" + css + "</style>") <==> includeCss)
      && EndsWith(r.fullHtml, r.html)
  {
    var r := Package(body, includeCss, css);
    if includeCss {
      assert r.fullHtml == ("<style>" + css + "</style>") + r.html;
      assert r.fullHtml[..|"<style>" + css + "</style>"|] == "<style>" + css + "</style>";
      assert r.fullHtml[|r.fullHtml| - |r.html|..] == r.html;
    } else {
      assert r.fullHtml == r.html;
      assert r.fullHtml[1] == 'd';
      assert ("<style>" + css + "</style>")[1] == 's';
    }
  }

  /* ---------------- the converter ---------------- */

  /** `renderMarkdown(markdown, { includeCSS })`. */
  method RenderMarkdown(markdown: string, includeCss: bool, css: string, ids: nat -> string) returns (r: Rendered)
    ensures r == Package(Body(markdown, ids), includeCss, css)
  {
    var protected, chars := Escapes.ProtectEscapes(markdown);
    var html := Blocks.MarkBlankLines(protected);
    var lifted := LiftBlocks(html);
    var processed := Scanner.ScanLines(Split(lifted.html, '\n'), ids);
    html := Join(processed, "\n");
    html := RestoreAll(html, lifted);
    html := ReplaceAll(html, Blocks.BrMarker, "<br>");
    html := Escapes.RestoreEscapes(html, chars);
    r := Package(html, includeCss, css);
  }

  /** The seven `html.replace(pattern, callback)` passes, each list
   *  starting empty. */
  method LiftBlocks(marked: string) returns (l: Lifted)
    ensures l == Lift(marked)
  {
    l := Lifted(marked, [], [], [], [], []);
    l := ApplyPass(Blocks.CodePass, l);
    l := ApplyPass(Blocks.ImagePass, l);
    l := ApplyPass(Blocks.InternalPass, l);
    l := ApplyPass(Blocks.InfoPass(Blocks.Info), l);
    l := ApplyPass(Blocks.InfoPass(Blocks.Warn), l);
    l := ApplyPass(Blocks.InfoPass(Blocks.Alert), l);
    l := ApplyPass(Blocks.TablePass, l);
    InOrder(Lifted(marked, [], [], [], [], []));
  }

  /** One pass, pushing the blocks it lifts onto the list of its family. */
  method ApplyPass(p: Blocks.Pass, l: Lifted) returns (r: Lifted)
    ensures r == Apply(p, l)
  {
    var html, blocks;
    match p
    case CodePass =>
      html, blocks := Blocks.ExtractPass(p, l.html, l.code);
      r := l.(html := html, code := blocks);
    case ImagePass =>
      html, blocks := Blocks.ExtractPass(p, l.html, l.images);
      r := l.(html := html, images := blocks);
    case InternalPass =>
      html, blocks := Blocks.ExtractPass(p, l.html, l.links);
      r := l.(html := html, links := blocks);
    case InfoPass(_) =>
      html, blocks := Blocks.ExtractPass(p, l.html, l.infos);
      r := l.(html := html, infos := blocks);
    case TablePass =>
      html, blocks := Blocks.ExtractPass(p, l.html, l.tables);
      r := l.(html := html, tables := blocks);
  }

  /** The seven passes of `PassOrder`, spelled out. */
  lemma InOrder(l: Lifted)
    ensures Lifting(PassOrder, l)
         == Apply(Blocks.TablePass, Apply(Blocks.InfoPass(Blocks.Alert), Apply(Blocks.InfoPass(Blocks.Warn),
              Apply(Blocks.InfoPass(Blocks.Info), Apply(Blocks.InternalPass, Apply(Blocks.ImagePass,
              Apply(Blocks.CodePass, l)))))))
  {
    var ps := PassOrder;
    assert ps[1..][1..][1..][1..][1..][1..][1..] == [];
  }

  /** The five `forEach` restoration loops, in order. */
  method RestoreAll(html: string, l: Lifted) returns (out: string)
    ensures out == Restore(html, l)
  {
    out := Blocks.RestoreBlocks(html, "CODEBLOCK", l.code);
    out := Blocks.RestoreBlocks(out, "IMAGE", l.images);
    out := Blocks.RestoreBlocks(out, "INTERNAL", l.links);
    out := Blocks.RestoreBlocks(out, "INFOBLOCK", l.infos);
    out := Blocks.RestoreBlocks(out, "TABLE", l.tables);
  }

  /* ------- text that no pass touches ------- */

  /** The character every match of a pass starts with. */
  function Trigger(p: Blocks.Pass): char {
    match p
    case CodePass => '`'
    case ImagePass => '!'
    case InternalPass => '!'
    case InfoPass(_) => ':'
    case TablePass => '|'
  }

  /** A text that does not start with a pass's trigger character is not
   *  matched by that pass. */
  lemma NeedsTrigger(p: Blocks.Pass, t: string)
    requires t == [] || t[0] != Trigger(p)
    ensures Blocks.MatchAt(p, t).None?
  {
    match p
    case CodePass =>
      assert !StartsWith(t, "```") by {
        if |t| >= 3 { assert t[..3][0] != "```"[0]; }
      }
    case ImagePass =>
    case InternalPass =>
    case InfoPass(k) =>
      assert !StartsWith(t, Blocks.Opener(k)) by {
        if |t| >= |Blocks.Opener(k)| { assert t[..|Blocks.Opener(k)|][0] != Blocks.Opener(k)[0]; }
      }
    case TablePass =>
  }

  /** A pass over text without its trigger character finds nothing and
   *  leaves the text as it is. */
  lemma PassIdle(p: Blocks.Pass, c: char, s: string, blocks: seq<string>)
    requires c == Trigger(p) && c !in s
    ensures Lift1(p, s, blocks) == (s, blocks)
  {
    assert blocks + [] == blocks;
    var f := Blocks.PassMatcher(p);
    assert Blocks.Render(f, Blocks.Family(p), s, |blocks|, 0) == s && Blocks.FoundBlocks(f, s) == [] by {
      Misses(p, c, s);
      Untouched(f, Blocks.Family(p), s, |blocks|);
    }
  }

  lemma Misses(p: Blocks.Pass, c: char, s: string)
    requires c == Trigger(p) && c !in s
    ensures forall j :: 0 <= j < |s| ==> Blocks.PassMatcher(p)(s[j..]).None?
  {
    forall j | 0 <= j < |s|
      ensures Blocks.MatchAt(p, s[j..]).None?
    {
      assert s[j..][0] == s[j] && s[j] in s;
      NeedsTrigger(p, s[j..]);
    }
  }

  lemma {:induction false} Untouched(f: Blocks.Matcher, family: string, s: string, k: nat)
    requires Blocks.Advances(f)
    requires forall j :: 0 <= j < |s| ==> f(s[j..]).None?
    ensures Blocks.Render(f, family, s, k, 0) == s
    ensures Blocks.FoundBlocks(f, s) == []
    decreases |s|
  {
    if s != [] {
      assert f(s[0..]).None? && s[0..] == s;
      forall j | 0 <= j < |s| - 1
        ensures f(s[1..][j..]).None?
      {
        assert s[1..][j..] == s[j + 1..];
      }
      Untouched(f, family, s[1..], k);
      assert [s[0]] + s[1..] == s;
    }
  }

  lemma ApplyIdle(p: Blocks.Pass, l: Lifted)
    requires Trigger(p) !in l.html
    ensures Apply(p, l) == l
  {
    match p
    case CodePass => PassIdle(p, '`', l.html, l.code);
    case ImagePass => PassIdle(p, '!', l.html, l.images);
    case InternalPass => PassIdle(p, '!', l.html, l.links);
    case InfoPass(_) => PassIdle(p, ':', l.html, l.infos);
    case TablePass => PassIdle(p, '|', l.html, l.tables);
  }

  /** Passes whose triggers do not occur in the text leave it and the lists
   *  as they are. */
  lemma {:induction false} LiftingIdle(passes: seq<Blocks.Pass>, l: Lifted)
    requires forall i :: 0 <= i < |passes| ==> Trigger(passes[i]) !in l.html
    ensures Lifting(passes, l) == l
    decreases |passes|
  {
    if passes != [] {
      ApplyIdle(passes[0], l);
      LiftingIdle(passes[1..], l);
    }
  }

  /** None of the seven passes touches text without `` ` ``, `!`, `:` and `|`. */
  lemma LiftIdle(md: string)
    requires '`' !in md && '!' !in md && ':' !in md && '|' !in md
    ensures Lift(md) == Lifted(md, [], [], [], [], [])
  {
    forall i | 0 <= i < |PassOrder|
      ensures Trigger(PassOrder[i]) !in md
    {
    }
    LiftingIdle(PassOrder, Lifted(md, [], [], [], [], []));
  }

  /** Text free of backslashes, of the characters that open a code block, an
   *  image or internal link, an admonition or a table, and of blank lines
   *  (but the last) reaches the line scanner unchanged: what is rendered is
   *  the scanner's output with the `!!BR!!` markers turned into `<br>`. */
  lemma PlainText(md: string, ids: nat -> string)
    requires '\\' !in md && '`' !in md && '!' !in md && ':' !in md && '|' !in md
    requires forall i :: 0 <= i < |Split(md, '\n')| - 1 ==> !Blocks.Blank(Split(md, '\n')[i])
    ensures Body(md, ids) == ReplaceAll(Scanned(md, ids), Blocks.BrMarker, "<br>")
  {
    var ps := Escapes.Pieces(md);
    assert Escapes.Show(ps, 0, 0) == md && Escapes.EscapedChars(ps) == [] by {
      Escapes.NoBackslash(md, 0, 0);
    }
    assert Blocks.MarkBlankLines(md) == md by {
      Blocks.MarkingKeeps(md);
    }
    assert Lift(md) == Lifted(md, [], [], [], [], []) by {
      LiftIdle(md);
    }
  }
}
