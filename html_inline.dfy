/** Putting extracted styles and scripts back into a page
    (`HtmlProcessor::inline_assets`, jenpack/src/html.rs). */
module HtmlInline {
  import opened Wrappers
  import opened Text

  function StyleTag(styles: seq<string>): string {
    "<style>" + Join(styles, "\n") + "</style>"
  }

  function ScriptTag(scripts: seq<string>): string {
    "<script>" + Join(scripts, "\n") + "</script>"
  }

  /** `insert_str(k, t)`. */
  function InsertAt(s: string, k: nat, t: string): (r: string)
    requires k <= |s|
    ensures |r| == |s| + |t|
    ensures r[..k] == s[..k] && r[k + |t|..] == s[k..] && IsAt(r, t, k)
  {
    var r := s[..k] + t + s[k..];
    assert r[k..k + |t|] == t;
    r
  }

  /** The page after the style step: one `<style>` tag before the first
      `</head>`, or a whole head in front when there is none. */
  function WithStyles(html: string, styles: seq<string>): string {
    if |styles| == 0 then html
    else
      match Find(html, "</head>")
      case Some(k) => InsertAt(html, k, StyleTag(styles))
      case None => "<head>" + StyleTag(styles) + "</head>" + html
  }

  /** The page after the script step: one `<script>` tag before the first
      `</body>`, or the tag and a `</body>` at the end when there is none. */
  function WithScripts(html: string, scripts: seq<string>): string {
    if |scripts| == 0 then html
    else
      match Find(html, "</body>")
      case Some(k) => InsertAt(html, k, ScriptTag(scripts))
      case None => html + ScriptTag(scripts) + "</body>"
  }

  /** `inline_assets`: `result` is changed in place, styles first. */
  method InlineAssets(html: string, scripts: seq<string>, styles: seq<string>) returns (result: string)
    ensures result == WithScripts(WithStyles(html, styles), scripts)
    ensures |scripts| == 0 && |styles| == 0 ==> result == html
  {
    result := html;
    if |styles| > 0 {
      var styleTag := "<style>" + Join(styles, "\n") + "</style>";
      var headEnd := Find(result, "</head>");
      if headEnd.Some? {
        result := result[..headEnd.value] + styleTag + result[headEnd.value..];
      } else {
        result := "<head>" + styleTag + "</head>" + result;
      }
    }
    assert result == WithStyles(html, styles);
    if |scripts| > 0 {
      var scriptTag := "<script>" + Join(scripts, "\n") + "</script>";
      var bodyEnd := Find(result, "</body>");
      if bodyEnd.Some? {
        result := result[..bodyEnd.value] + scriptTag + result[bodyEnd.value..];
      } else {
        result := result + scriptTag + "</body>";
      }
    }
  }

  /** Text inserted at an occurrence of `m` pushes that occurrence right
      behind it. */
  lemma InsertBefore(s: string, m: string, t: string, k: nat)
    requires IsAt(s, m, k)
    ensures IsAt(InsertAt(s, k, t), m, k + |t|)
  {
    var r := InsertAt(s, k, t);
    assert r[k + |t|..k + |t| + |m|] == r[k + |t|..][..|m|];
    assert s[k..k + |m|] == s[k..][..|m|];
  }

  /** With a `</head>` present the style tag sits immediately before the
      first one, and the page around it is kept in order. */
  lemma StylesBeforeHead(html: string, styles: seq<string>, k: nat)
    requires |styles| > 0 && Find(html, "</head>") == Some(k)
    ensures var r := WithStyles(html, styles); var t := StyleTag(styles);
      && r[..k] == html[..k] && IsAt(r, t, k) && IsAt(r, "</head>", k + |t|)
      && r[k + |t|..] == html[k..]
    ensures forall j :: 0 <= j < k ==> !IsAt(html, "</head>", j)
  {
    InsertBefore(html, "</head>", StyleTag(styles), k);
  }

  /** Without a `</head>` the styles come first, in a head of their own. */
  lemma StylesWithoutHead(html: string, styles: seq<string>)
    requires |styles| > 0 && Find(html, "</head>").None?
    ensures WithStyles(html, styles) == "<head>" + StyleTag(styles) + "</head>" + html
    ensures forall j :: 0 <= j <= |html| ==> !IsAt(html, "</head>", j)
  {
  }

  /** With a `</body>` present the script tag sits immediately before the
      first one, and the page around it is kept in order. */
  lemma ScriptsBeforeBody(html: string, scripts: seq<string>, k: nat)
    requires |scripts| > 0 && Find(html, "</body>") == Some(k)
    ensures var r := WithScripts(html, scripts); var t := ScriptTag(scripts);
      && r[..k] == html[..k] && IsAt(r, t, k) && IsAt(r, "</body>", k + |t|)
      && r[k + |t|..] == html[k..]
    ensures forall j :: 0 <= j < k ==> !IsAt(html, "</body>", j)
  {
    InsertBefore(html, "</body>", ScriptTag(scripts), k);
  }

  /** Without a `</body>` the scripts and a closing tag are appended. */
  lemma ScriptsWithoutBody(html: string, scripts: seq<string>)
    requires |scripts| > 0 && Find(html, "</body>").None?
    ensures WithScripts(html, scripts) == html + ScriptTag(scripts) + "</body>"
    ensures WithScripts(html, scripts)[..|html|] == html
  {
    AppendedPrefix(html, ScriptTag(scripts), "</body>");
  }
}
