/**
 * `parseInline`: five global rewrites applied in a fixed order, each a
 * left-to-right scan for one delimiter pattern. Each pattern is deterministic
 * (its body is a maximal run free of the closing delimiter's first
 * character), so a direct scanner has exactly the regex's behaviour.
 */
module Inline {
  import opened Text

  /** A delimited span `open body close` where `body` is a non-empty run free of
   *  `stop`, rewritten to `before body after`. */
  datatype Delim = Delim(open: string, stop: char, close: string, before: string, after: string)

  predicate ValidDelim(d: Delim) {
    d.open != [] && d.close != [] && d.close[0] == d.stop
  }

  /** `` `([^`]+)` `` */
  const CodeSpan := Delim("`", '`', "`", "<code>", "</code>")
  /** `\*\*([^*]+)\*\*` */
  const Bold := Delim("**", '*', "**", "<b>", "</b>")
  /** `__([^_]+)__` */
  const Underline := Delim("__", '_', "__", "<u>", "</u>")
  /** `~~([^~]+)~~` */
  const Strike := Delim("~~", '~', "~~", "<s>", "</s>")

  datatype Span = Span(body: string, len: nat)

  /** The delimited span at the front of `s`, if any. */
  function MatchDelim(s: string, d: Delim): (r: Option<Span>)
    requires ValidDelim(d)
    ensures r.Some? ==> r.value.len <= |s| && s[..r.value.len] == d.open + r.value.body + d.close
    ensures r.Some? ==> r.value.body != [] && d.stop !in r.value.body
  {
    if !StartsWith(s, d.open) then None
    else
      var rest := s[|d.open|..];
      var j := IndexOf(rest, d.stop);
      if j == 0 || !StartsWith(rest[j..], d.close) then None
      else
        assert s[..|d.open| + j + |d.close|] == d.open + rest[..j] + d.close by {
          assert s == d.open + rest;
          assert rest[j..][..|d.close|] == d.close;
        }
        Some(Span(rest[..j], |d.open| + j + |d.close|))
  }

  /** One global rewrite pass. */
  function Rewrite(s: string, d: Delim): string
    requires ValidDelim(d)
    decreases |s|
  {
    if s == [] then []
    else match MatchDelim(s, d)
      case Some(m) => d.before + m.body + d.after + Rewrite(s[m.len..], d)
      case None => [s[0]] + Rewrite(s[1..], d)
  }

  datatype LinkMatch = LinkMatch(text: string, url: string, len: nat)

  /** `\[([^\]]+)\]\(([^)]+)\)` at the front of `s`, if present. */
  function MatchLink(s: string): (r: Option<LinkMatch>)
    ensures r.Some? ==> r.value.len <= |s|
    ensures r.Some? ==> s[..r.value.len] == "[" + r.value.text + "](" + r.value.url + ")"
    ensures r.Some? ==> r.value.text != [] && ']' !in r.value.text
    ensures r.Some? ==> r.value.url != [] && ')' !in r.value.url
  {
    if s == [] || s[0] != '[' then None
    else
      var j := IndexOf(s[1..], ']') + 1;
      if j == 1 || j + 1 >= |s| || s[j + 1] != '(' then None
      else
        var k := IndexOf(s[j + 2..], ')') + j + 2;
        if k == j + 2 || k == |s| then None
        else
          assert s[..k + 1] == "[" + s[1..j] + "](" + s[j + 2..k] + ")" by {
            assert s[1..][..j - 1] == s[1..j];
            assert s[j + 2..][..k - j - 2] == s[j + 2..k];
          }
          Some(LinkMatch(s[1..j], s[j + 2..k], k + 1))
  }

  function LinkHtml(text: string, url: string): string {
    "<a href=\"" + url + "\" target=\"_blank\" style=\"color: var(--accent); "
    + "text-decoration: none; border-bottom: 1px solid var(--accent);\">" + text + "</a>"
  }

  function RewriteLinks(s: string): string
    decreases |s|
  {
    if s == [] then []
    else match MatchLink(s)
      case Some(m) => LinkHtml(m.text, m.url) + RewriteLinks(s[m.len..])
      case None => [s[0]] + RewriteLinks(s[1..])
  }

  /** The five rewrites in source order. */
  function ParseInline(s: string): string {
    var code := Rewrite(s, CodeSpan);
    var bold := Rewrite(code, Bold);
    var underline := Rewrite(bold, Underline);
    var strike := Rewrite(underline, Strike);
    RewriteLinks(strike)
  }

  /** Any well-formed span at the front is recognised, with exactly its body. */
  lemma MatchDelimShape(d: Delim, body: string, rest: string)
    requires ValidDelim(d)
    requires body != [] && d.stop !in body
    ensures MatchDelim(d.open + body + d.close + rest, d)
         == Some(Span(body, |d.open| + |body| + |d.close|))
  {
    var s := d.open + body + d.close + rest;
    assert s[..|d.open|] == d.open;
    var r := s[|d.open|..];
    assert r == body + [d.stop] + (d.close[1..] + rest);
    IndexOfPrefix(body, d.stop, d.close[1..] + rest);
    assert r[|body|..] == d.close + rest;
    assert r[..|body|] == body;
  }

  /** A well-formed span is rewritten to its tags around the unchanged body. */
  lemma RewriteSpan(d: Delim, body: string, rest: string)
    requires ValidDelim(d)
    requires body != [] && d.stop !in body
    ensures Rewrite(d.open + body + d.close + rest, d) == d.before + body + d.after + Rewrite(rest, d)
  {
    var s := d.open + body + d.close + rest;
    MatchDelimShape(d, body, rest);
    assert s[|d.open| + |body| + |d.close|..] == rest;
  }

  /** Text without the delimiter's first character passes through unchanged. */
  lemma {:induction false} RewriteAbsent(s: string, d: Delim)
    requires ValidDelim(d)
    requires d.open[0] !in s
    ensures Rewrite(s, d) == s
    decreases |s|
  {
    if s != [] {
      assert s[0] != d.open[0];
      RewriteAbsent(s[1..], d);
    }
  }

  /** Any well-formed link at the front is recognised, with its text and target. */
  lemma MatchLinkShape(text: string, url: string, rest: string)
    requires text != [] && ']' !in text
    requires url != [] && ')' !in url
    ensures MatchLink("[" + text + "](" + url + ")" + rest)
         == Some(LinkMatch(text, url, |text| + |url| + 4))
  {
    var s := "[" + text + "](" + url + ")" + rest;
    var j := |text| + 1;
    LinkParts(text, url, rest);
    IndexOfPrefix(text, ']', s[j + 1..]);
    IndexOfPrefix(url, ')', rest);
  }

  lemma LinkParts(text: string, url: string, rest: string)
    ensures var s := "[" + text + "](" + url + ")" + rest;
      var j := |text| + 1;
      && s[0] == '['
      && s[1..] == text + [']'] + s[j + 1..]
      && s[j + 1] == '('
      && s[j + 2..] == url + [')'] + rest
      && s[1..j] == text
      && s[j + 2..j + 2 + |url|] == url
  {
  }

  /** A well-formed link is rewritten to an anchor carrying text and target. */
  lemma RewriteLinkShape(text: string, url: string, rest: string)
    requires text != [] && ']' !in text
    requires url != [] && ')' !in url
    ensures RewriteLinks("[" + text + "](" + url + ")" + rest) == LinkHtml(text, url) + RewriteLinks(rest)
  {
    var s := "[" + text + "](" + url + ")" + rest;
    MatchLinkShape(text, url, rest);
    assert s[|text| + |url| + 4..] == rest;
  }

  /** Text without `[` has no link. */
  lemma {:induction false} RewriteLinksAbsent(s: string)
    requires '[' !in s
    ensures RewriteLinks(s) == s
    decreases |s|
  {
    if s != [] {
      RewriteLinksAbsent(s[1..]);
    }
  }

  /** Text free of all five delimiter characters is left as it is; in
   *  particular an escape sentinel can never start a format. */
  lemma ParseInlinePlain(s: string)
    requires '`' !in s && '*' !in s && '_' !in s && '~' !in s && '[' !in s
    ensures ParseInline(s) == s
  {
    RewriteAbsent(s, CodeSpan);
    RewriteAbsent(s, Bold);
    RewriteAbsent(s, Underline);
    RewriteAbsent(s, Strike);
    RewriteLinksAbsent(s);
  }

  /** `**bold**` becomes `<b>bold</b>`. */
  lemma ParseInlineBold(body: string)
    requires body != []
    requires '`' !in body && '*' !in body && '_' !in body && '~' !in body && '[' !in body
    ensures ParseInline("**" + body + "**") == "<b>" + body + "</b>"
  {
    var s := Bold.open + body + Bold.close;
    var b := Bold.before + body + Bold.after;
    BoldChars(body);
    RewriteAbsent(s, CodeSpan);
    RewriteSpan(Bold, body, "");
    assert s + "" == s;
    assert Rewrite("", Bold) == [];
    assert Rewrite(s, Bold) == b;
    RewriteAbsent(b, Underline);
    RewriteAbsent(b, Strike);
    RewriteLinksAbsent(b);
    assert ParseInline(s) == b;
  }

  lemma BoldChars(body: string)
    requires '`' !in body && '_' !in body && '~' !in body && '[' !in body
    ensures '`' !in Bold.open + body + Bold.close
    ensures var b := Bold.before + body + Bold.after; '_' !in b && '~' !in b && '[' !in b
  {
  }
}
