/** The bundler's path helpers (jenpack/src/utils.rs): the extension of a
    path and the file-kind tests built on it, and separator normalisation.
    Paths follow the Unix rules of Rust's `std::path`. */
module JenpackUtils {
  import opened Wrappers
  import opened Text

  /** The components `Path::components` yields for a relative or absolute
      Unix path, as far as `file_name` depends on them: empty pieces
      (repeated or trailing `/`) and `.` pieces are dropped. */
  function Components(path: string): (cs: seq<string>)
    ensures forall i :: 0 <= i < |cs| ==> cs[i] != "" && cs[i] != "." && '/' !in cs[i]
  {
    var pieces := Split(path, '/');
    Keep(pieces, |pieces|)
  }

  function Keep(pieces: seq<string>, n: nat): (cs: seq<string>)
    requires n <= |pieces|
    requires forall i :: 0 <= i < |pieces| ==> '/' !in pieces[i]
    ensures forall i :: 0 <= i < |cs| ==> cs[i] != "" && cs[i] != "." && '/' !in cs[i]
  {
    if n == 0 then []
    else
      var p := pieces[n - 1];
      Keep(pieces, n - 1) + (if p == "" || p == "." then [] else [p])
  }

  /** `Path::file_name`: the last component, unless there is none or it is
      `..`. */
  function FileName(path: string): (r: Option<string>)
    ensures r.Some? ==> r.value != "" && r.value != "." && r.value != ".." && '/' !in r.value
  {
    var cs := Components(path);
    if |cs| == 0 || cs[|cs| - 1] == ".." then None else Some(cs[|cs| - 1])
  }

  /** `Path::extension` of a file name: what follows its last `.`, unless
      there is no `.` or the only one starts the name. */
  function NameExtension(name: string): (r: Option<string>)
    ensures r.Some? ==> '.' !in r.value && exists k :: 0 < k < |name| && name[k] == '.' && r.value == name[k + 1..]
    ensures r.None? ==> forall k :: 0 < k < |name| ==> name[k] != '.'
  {
    match LastIndexOf(name, '.')
    case None => None
    case Some(k) =>
      if k == 0 then None
      else
        Some(name[k + 1..])
  }

  /** `get_extension`: the lower-cased extension of the final component. */
  function GetExtension(path: string): (r: Option<string>)
    ensures r.Some? ==> '.' !in r.value && '/' !in r.value
    ensures r.Some? ==> forall i :: 0 <= i < |r.value| ==> !IsAsciiUpper(r.value[i])
  {
    match FileName(path)
    case None => None
    case Some(name) =>
      match NameExtension(name)
      case None => None
      case Some(ext) =>
        assert forall i :: 0 <= i < |ext| ==> ext[i] != '.';
        var lower := AsciiLower(ext);
        assert forall i :: 0 <= i < |lower| ==> lower[i] == AsciiLowerChar(ext[i]);
        Some(lower)
  }

  predicate HasExtensionIn(path: string, exts: set<string>) {
    GetExtension(path).Some? && GetExtension(path).value in exts
  }

  /** `is_js_ts_file`. */
  predicate IsJsTsFile(path: string) {
    HasExtensionIn(path, {"js", "ts", "jsx", "tsx"})
  }

  /** `is_html_file`. */
  predicate IsHtmlFile(path: string) {
    HasExtensionIn(path, {"html", "htm"})
  }

  /** `is_sass_file`. */
  predicate IsSassFile(path: string) {
    HasExtensionIn(path, {"sass", "scss"})
  }

  /** `is_css_file`. */
  predicate IsCssFile(path: string) {
    HasExtensionIn(path, {"css"})
  }

  /** A path is of at most one kind. */
  lemma KindsDisjoint(path: string)
    ensures !(IsJsTsFile(path) && IsHtmlFile(path))
    ensures !(IsJsTsFile(path) && IsSassFile(path))
    ensures !(IsJsTsFile(path) && IsCssFile(path))
    ensures !(IsHtmlFile(path) && IsSassFile(path))
    ensures !(IsHtmlFile(path) && IsCssFile(path))
    ensures !(IsSassFile(path) && IsCssFile(path))
  {
  }

  /** The kind tests ignore letter case in the extension. */
  lemma CaseInsensitive(path: string, upper: string)
    requires FileName(path) == Some("App." + upper)
    requires |upper| == 3 && AsciiLower(upper) == "tsx"
    ensures IsJsTsFile(path)
  {
    var name := "App." + upper;
    assert name[3] == '.';
    assert forall j :: 4 <= j < |name| ==> name[j] != '.' by {
      forall j | 4 <= j < |name| ensures name[j] != '.' {
        assert name[j] == upper[j - 4];
        assert AsciiLowerChar(upper[j - 4]) == "tsx"[j - 4];
      }
    }
    assert LastIndexOf(name, '.') == Some(3);
    assert name[4..] == upper;
  }

  /** `normalize_path`: every `\` becomes `/`, nothing else changes. */
  function NormalizePath(path: string): (r: string)
    ensures |r| == |path|
    ensures forall i :: 0 <= i < |path| ==> r[i] == (if path[i] == '\\' then '/' else path[i])
    ensures '\\' !in r
  {
    ReplaceChar(path, '\\', '/')
  }

  /** Normalising twice is normalising once, and a path with no `\` is
      already normal. */
  lemma NormalizeIdempotent(path: string)
    ensures NormalizePath(NormalizePath(path)) == NormalizePath(path)
    ensures '\\' !in path ==> NormalizePath(path) == path
  {
  }
}
