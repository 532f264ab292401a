/** The plain fallback of the documentation site's code highlighter
    (packages/jenpress/src/node/markdown/highlight.ts): HTML escaping and
    the `<pre><code>` wrapper. */
module Highlight {
  import opened Wrappers

  /** The characters `escapeHtml` replaces. */
  predicate Special(c: char) {
    c == '&' || c == '<' || c == '>' || c == '"' || c == '\''
  }

  /** The lookup map of `escapeHtml`. */
  function Entity(c: char): (r: string)
    requires Special(c)
    ensures |r| >= 4 && r[0] == '&' && r[|r| - 1] == ';'
  {
    match c
    case '&' => "&amp;"
    case '<' => "&lt;"
    case '>' => "&gt;"
    case '"' => "&quot;"
    case _ => "&#039;"
  }

  /** `text.replace(/[&<>"']/g, char => map[char])`: one pass, each
      special character replaced by its entity. */
  function EscapeHtml(text: string): (r: string)
    ensures |r| >= |text|
    ensures forall i :: 0 <= i < |r| ==> r[i] != '<' && r[i] != '>' && r[i] != '"' && r[i] != '\''
    decreases |text|
  {
    if |text| == 0 then ""
    else
      var rest := EscapeHtml(text[1..]);
      var head := if Special(text[0]) then Entity(text[0]) else [text[0]];
      assert forall i :: 0 <= i < |head| ==> head[i] != '<' && head[i] != '>' && head[i] != '"' && head[i] != '\'';
      head + rest
  }

  /** A text without special characters is left as it is. */
  lemma {:induction false} EscapePlain(text: string)
    requires forall i :: 0 <= i < |text| ==> !Special(text[i])
    ensures EscapeHtml(text) == text
    decreases |text|
  {
    if |text| > 0 {
      EscapePlain(text[1..]);
    }
  }

  /** Escaping works piece by piece: what it produces for one part is not
      looked at again. */
  lemma {:induction false} EscapeAppend(a: string, b: string)
    ensures EscapeHtml(a + b) == EscapeHtml(a) + EscapeHtml(b)
    decreases |a|
  {
    if |a| > 0 {
      assert (a + b)[0] == a[0] && (a + b)[1..] == a[1..] + b;
      var h := if Special(a[0]) then Entity(a[0]) else [a[0]];
      assert EscapeHtml(a + b) == h + EscapeHtml(a[1..] + b);
      assert EscapeHtml(a) == h + EscapeHtml(a[1..]);
      EscapeAppend(a[1..], b);
    } else {
      assert a + b == b;
    }
  }

  /** The reverse of `EscapeHtml`: the five entities decoded, everything
      else copied. */
  function Unescape(s: string): string
    decreases |s|
  {
    if |s| == 0 then ""
    else if s[0] != '&' then [s[0]] + Unescape(s[1..])
    else if |s| >= 5 && s[1] == 'a' && s[2] == 'm' && s[3] == 'p' && s[4] == ';' then "&" + Unescape(s[5..])
    else if |s| >= 4 && s[1] == 'l' && s[2] == 't' && s[3] == ';' then "<" + Unescape(s[4..])
    else if |s| >= 4 && s[1] == 'g' && s[2] == 't' && s[3] == ';' then ">" + Unescape(s[4..])
    else if |s| >= 6 && s[1] == 'q' && s[2] == 'u' && s[3] == 'o' && s[4] == 't' && s[5] == ';' then "\"" + Unescape(s[6..])
    else if |s| >= 6 && s[1] == '#' && s[2] == '0' && s[3] == '3' && s[4] == '9' && s[5] == ';' then "'" + Unescape(s[6..])
    else "&" + Unescape(s[1..])
  }

  /** An entity in front of text decodes to its character. */
  lemma UnescapeEntity(c: char, rest: string)
    requires Special(c)
    ensures Unescape(Entity(c) + rest) == [c] + Unescape(rest)
  {
    var e := Entity(c);
    var s := e + rest;
    assert s[..|e|] == e && s[|e|..] == rest;
  }

  /** A character other than `&` in front of text is copied. */
  lemma UnescapeOther(c: char, rest: string)
    requires c != '&'
    ensures Unescape([c] + rest) == [c] + Unescape(rest)
  {
    var s := [c] + rest;
    assert s[0] == c && s[1..] == rest;
  }

  /** Unescaping gives back the text that was escaped. */
  lemma {:induction false} UnescapeEscape(text: string)
    ensures Unescape(EscapeHtml(text)) == text
    decreases |text|
  {
    if |text| > 0 {
      UnescapeEscape(text[1..]);
      if Special(text[0]) {
        UnescapeEntity(text[0], EscapeHtml(text[1..]));
      } else {
        UnescapeOther(text[0], EscapeHtml(text[1..]));
      }
      assert text == [text[0]] + text[1..];
    }
  }

  /** Different texts escape differently. */
  lemma EscapeInjective(a: string, b: string)
    requires EscapeHtml(a) == EscapeHtml(b)
    ensures a == b
  {
    UnescapeEscape(a);
    UnescapeEscape(b);
  }

  // ---------------------------------------------------------------------
  // highlightSync

  /** The opening tags for language `lang`. */
  function OpenTag(lang: string): string {
    "<pre><code class=\"language-" + lang + "\">"
  }

  const CloseTag := "</code></pre>"

  /** The default parameter: `undefined` (`None`) becomes `text`. */
  function LangOrDefault(lang: Option<string>): string {
    lang.GetOr("text")
  }

  /** `highlightSync(code, lang = 'text')`. */
  function HighlightSync(code: string, lang: Option<string>): (r: string)
    ensures |r| >= |code| + |CloseTag|
  {
    OpenTag(LangOrDefault(lang)) + EscapeHtml(code) + CloseTag
  }

  /** The code sits escaped between the opening and closing tags, and is
      read back from there; a missing language is `text`. */
  lemma HighlightReadsBack(code: string, lang: Option<string>)
    ensures var r := HighlightSync(code, lang); var o := OpenTag(LangOrDefault(lang));
      && |o| + |CloseTag| <= |r| && r[..|o|] == o && r[|r| - |CloseTag|..] == CloseTag
      && Unescape(r[|o|..|r| - |CloseTag|]) == code
      && forall i :: |o| <= i < |r| - |CloseTag| ==> r[i] != '<'
    ensures lang.None? ==> HighlightSync(code, lang) == HighlightSync(code, Some("text"))
  {
    var r := HighlightSync(code, lang);
    var o := OpenTag(LangOrDefault(lang));
    var e := EscapeHtml(code);
    assert r[..|o|] == o;
    assert r[|o|..|r| - |CloseTag|] == e;
    assert r[|r| - |CloseTag|..] == CloseTag;
    UnescapeEscape(code);
    forall i | |o| <= i < |r| - |CloseTag|
      ensures r[i] != '<'
    {
      assert r[i] == e[i - |o|];
    }
  }

  /** The language handed to Shiki: `lang || 'text'`. */
  function ShikiLang(lang: Option<string>): string {
    var l := LangOrDefault(lang);
    if l == "" then "text" else l
  }

  /** `highlight`: Shiki's output when it loads and succeeds, otherwise the
      same text `highlightSync` gives. */
  function Highlight(code: string, lang: Option<string>, shiki: (string, string) -> Result<string>): (r: string)
    ensures shiki(code, ShikiLang(lang)).Ok? ==> r == shiki(code, ShikiLang(lang)).value
    ensures shiki(code, ShikiLang(lang)).Err? ==> r == HighlightSync(code, lang)
  {
    match shiki(code, ShikiLang(lang))
    case Ok(html) => html
    case Err(_) => OpenTag(LangOrDefault(lang)) + EscapeHtml(code) + CloseTag
  }
}
