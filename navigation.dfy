/** The breadcrumbs and the previous and next pages that the documentation
    theme's `Navigation` component shows
    (packages/jenpress/src/client/navigation.tsx). */
module Navigation {
  import opened Wrappers
  import opened Text

  datatype NavItem = NavItem(path: string, title: string)

  /** A breadcrumb: its `label` segment and its `path`. */
  datatype Crumb = Crumb(segment: string, path: string)

  /** What the component renders from: the crumbs and the neighbours of
      the current page. */
  datatype NavState = NavState(breadcrumbs: seq<Crumb>, prev: Option<NavItem>, next: Option<NavItem>)

  // ---------------------------------------------------------------------
  // Breadcrumbs

  /** `currentPath.split('/').filter(p => p)`. */
  function Segments(currentPath: string): (r: seq<string>)
    ensures forall i :: 0 <= i < |r| ==> r[i] != "" && '/' !in r[i]
  {
    var parts := Split(currentPath, '/');
    var r := NonEmpty(parts);
    assert forall i :: 0 <= i < |r| ==> r[i] in parts;
    r
  }

  /** The `reduce` over the first `n` segments: one crumb per segment, whose
      path is `/` and the segments up to it joined by `/`. */
  function CrumbsOf(segs: seq<string>, n: nat): (r: seq<Crumb>)
    requires n <= |segs|
    ensures |r| == n
  {
    if n == 0 then [] else CrumbsOf(segs, n - 1) + [Crumb(segs[n - 1], "/" + Join(segs[..n], "/"))]
  }

  function Breadcrumbs(currentPath: string): seq<Crumb> {
    var segs := Segments(currentPath);
    CrumbsOf(segs, |segs|)
  }

  /** Crumb `i` is labelled with segment `i` and its path is `/` followed by
      the first `i + 1` segments joined by `/`. */
  lemma {:induction false} CrumbsOfShape(segs: seq<string>, n: nat)
    requires n <= |segs|
    ensures var b := CrumbsOf(segs, n);
      |b| == n && forall i :: 0 <= i < n ==> b[i] == Crumb(segs[i], "/" + Join(segs[..i + 1], "/"))
  {
    if n > 0 {
      CrumbsOfShape(segs, n - 1);
    }
  }

  /** Joining one more piece appends a separator and the piece. */
  lemma {:induction false} JoinSnoc(parts: seq<string>, x: string, sep: string)
    requires |parts| > 0
    ensures Join(parts + [x], sep) == Join(parts, sep) + sep + x
    decreases |parts|
  {
    if |parts| == 1 {
      assert (parts + [x])[1..] == [x];
    } else {
      assert (parts + [x])[1..] == parts[1..] + [x];
      JoinSnoc(parts[1..], x, sep);
    }
  }

  /** Each crumb's path extends the one before it by `/` and its own
      segment. */
  lemma CrumbPathsExtend(segs: seq<string>)
    ensures var b := CrumbsOf(segs, |segs|);
      && (|b| > 0 ==> b[0].path == "/" + b[0].segment)
      && forall i :: 0 < i < |b| ==> b[i].path == b[i - 1].path + "/" + b[i].segment
  {
    var b := CrumbsOf(segs, |segs|);
    CrumbsOfShape(segs, |segs|);
    if |b| > 0 {
      assert segs[..1] == [segs[0]];
    }
    forall i | 0 < i < |b|
      ensures b[i].path == b[i - 1].path + "/" + b[i].segment
    {
      assert segs[..i + 1] == segs[..i] + [segs[i]];
      JoinSnoc(segs[..i], segs[i], "/");
    }
  }

  /** One crumb per non-empty segment, in order; the first crumb's path is
      `/` and its segment, and each further crumb's path extends the one
      before it by `/` and its own segment. */
  lemma BreadcrumbsShape(currentPath: string)
    ensures var segs := Segments(currentPath); var b := Breadcrumbs(currentPath);
      && |b| == |segs|
      && (forall i :: 0 <= i < |b| ==> b[i].segment == segs[i] && b[i].segment != "" && '/' !in b[i].segment)
      && (|b| > 0 ==> b[0].path == "/" + b[0].segment)
      && forall i :: 0 < i < |b| ==> b[i].path == b[i - 1].path + "/" + b[i].segment
  {
    CrumbsOfShape(Segments(currentPath), |Segments(currentPath)|);
    CrumbPathsExtend(Segments(currentPath));
  }

  /** Every piece in `parts` is non-empty, so none is filtered out. */
  lemma {:induction false} NonEmptyKeepsAll(parts: seq<string>)
    requires forall i :: 0 <= i < |parts| ==> parts[i] != ""
    ensures NonEmpty(parts) == parts
  {
    if |parts| > 0 {
      NonEmptyKeepsAll(parts[1..]);
    }
  }

  /** For a path in canonical form (`/` and non-empty segments separated by
      single slashes) the segments are read back and the last crumb leads to
      the path itself. */
  lemma CanonicalPath(segs: seq<string>)
    requires |segs| > 0 && forall i :: 0 <= i < |segs| ==> segs[i] != "" && '/' !in segs[i]
    ensures var p := "/" + Join(segs, "/");
      Segments(p) == segs && Breadcrumbs(p)[|segs| - 1].path == p
  {
    var p := "/" + Join(segs, "/");
    SegmentsOfCanonical(segs);
    CrumbsOfShape(segs, |segs|);
    assert segs[..|segs|] == segs;
  }

  /** The segments of a canonical path are the ones joined into it. */
  lemma SegmentsOfCanonical(segs: seq<string>)
    requires |segs| > 0 && forall i :: 0 <= i < |segs| ==> segs[i] != "" && '/' !in segs[i]
    ensures Segments("/" + Join(segs, "/")) == segs
  {
    var j := Join(segs, "/");
    assert "/" + j == "" + ['/'] + j;
    SplitCons("", '/', j);
    SplitJoin(segs, '/');
    NonEmptyKeepsAll(segs);
    assert ([""] + segs)[1..] == segs;
  }

  // ---------------------------------------------------------------------
  // Previous and next page

  /** `allPages.findIndex(p => p.path === currentPath)` from index `from`:
      the first page with that path, or -1. */
  function FindIndex(pages: seq<NavItem>, currentPath: string, from: nat := 0): (r: int)
    requires from <= |pages|
    ensures -1 <= r < |pages|
    ensures r >= 0 ==> from <= r && pages[r].path == currentPath
    ensures r >= 0 ==> forall j :: from <= j < r ==> pages[j].path != currentPath
    ensures r == -1 ==> forall j :: from <= j < |pages| ==> pages[j].path != currentPath
    decreases |pages| - from
  {
    if from == |pages| then -1
    else if pages[from].path == currentPath then from
    else FindIndex(pages, currentPath, from + 1)
  }

  /** `currentIndex > 0 ? allPages[currentIndex - 1] : null`. */
  function PrevPage(pages: seq<NavItem>, index: int): Option<NavItem>
    requires -1 <= index < |pages|
  {
    if index > 0 then Some(pages[index - 1]) else None
  }

  /** `currentIndex >= 0 && currentIndex < allPages.length - 1 ?
      allPages[currentIndex + 1] : null`. */
  function NextPage(pages: seq<NavItem>, index: int): Option<NavItem>
    requires -1 <= index < |pages|
  {
    if index >= 0 && index < |pages| - 1 then Some(pages[index + 1]) else None
  }

  /** The values `Navigation` computes before rendering. */
  function Navigation(currentPath: string, allPages: seq<NavItem>): (r: NavState)
    ensures r.breadcrumbs == Breadcrumbs(currentPath)
  {
    var currentIndex := FindIndex(allPages, currentPath);
    NavState(Breadcrumbs(currentPath), PrevPage(allPages, currentIndex), NextPage(allPages, currentIndex))
  }

  /** The neighbours in terms of the page list: with `k` the first page
      whose path is the current one, `prev` is page `k - 1` when `k > 0`
      and `next` is page `k + 1` when that exists; an unknown path gives
      neither. */
  lemma Neighbours(currentPath: string, allPages: seq<NavItem>, k: nat)
    requires k < |allPages| && allPages[k].path == currentPath
    requires forall j :: 0 <= j < k ==> allPages[j].path != currentPath
    ensures var r := Navigation(currentPath, allPages);
      && (r.prev.Some? <==> k > 0) && (k > 0 ==> r.prev == Some(allPages[k - 1]))
      && (r.next.Some? <==> k + 1 < |allPages|) && (k + 1 < |allPages| ==> r.next == Some(allPages[k + 1]))
  {
  }

  lemma UnknownPath(currentPath: string, allPages: seq<NavItem>)
    requires forall j :: 0 <= j < |allPages| ==> allPages[j].path != currentPath
    ensures Navigation(currentPath, allPages).prev.None? && Navigation(currentPath, allPages).next.None?
  {
  }

  /** A page found has a neighbour on each side unless it is first or last,
      so `prev` and `next` are both missing only for an unknown path or a
      one-page list. */
  lemma SomeNeighbour(currentPath: string, allPages: seq<NavItem>)
    requires |allPages| >= 2 && exists j :: 0 <= j < |allPages| && allPages[j].path == currentPath
    ensures Navigation(currentPath, allPages).prev.Some? || Navigation(currentPath, allPages).next.Some?
  {
  }
}
