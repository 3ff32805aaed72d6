/** apps/web/src/components/ui/Breadcrumb.tsx: the trail of links built from
    the current path, and which part of it the component shows. Icons are
    kept as a tag; rendering is not modelled. */
module Breadcrumb {
  import opened Wrappers
  import opened Text

  datatype Icon = HomeIcon
  datatype RouteEntry = RouteEntry(title: string, icon: Option<Icon>)

  /** A trail item; an absent `path` is an item without a link. */
  datatype Crumb = Crumb(title: string, path: Option<string>, icon: Option<Icon>)

  const DASHBOARD_PATH := "/dashboard"
  const HOME_CRUMB := Crumb("Dashboard", Some(DASHBOARD_PATH), Some(HomeIcon))

  /** `routeConfig`. Every key starts with `/`, so no key is a property every
      JavaScript object inherits. */
  const ROUTE_CONFIG: map<string, RouteEntry> := map[
    "/dashboard" := RouteEntry("Dashboard", Some(HomeIcon)),
    "/projects" := RouteEntry("Projects", None),
    "/team" := RouteEntry("Team", None),
    "/scope" := RouteEntry("Scope", None)]

  /** `pathname.split('/').filter(Boolean)`. */
  function Segments(pathname: string): (segs: seq<string>)
    ensures forall seg <- segs :: seg != [] && '/' !in seg
    ensures |segs| <= |pathname| + 1
  {
    var parts := Split(pathname, '/');
    assert forall seg <- NonEmpty(parts) :: seg in parts;
    NonEmpty(parts)
  }

  /** The `currentPath` after the given segments. */
  function PathOf(segs: seq<string>): (p: string)
    ensures |segs| > 0 ==> |p| > 0 && p[0] == '/'
  {
    if |segs| == 0 then "" else PathOf(segs[..|segs| - 1]) + "/" + segs[|segs| - 1]
  }

  /** Splitting a path assembled from slash-free pieces drops exactly the
      empty pieces, so empty runs between slashes never become segments. */
  lemma SegmentsOfJoin(parts: seq<string>)
    requires |parts| >= 1
    requires forall p <- parts :: '/' !in p
    ensures Segments(Join(parts, '/')) == NonEmpty(parts)
  {
    SplitJoin(parts, '/');
  }

  /** The cumulative path of segments is the segments joined after a
      leading slash. */
  lemma {:induction false} PathOfIsJoin(segs: seq<string>)
    requires |segs| >= 1
    ensures PathOf(segs) == Join([""] + segs, '/')
  {
    if |segs| == 1 {
      assert ([""] + segs)[1..] == segs;
    } else {
      var init := segs[..|segs| - 1];
      PathOfIsJoin(init);
      assert [""] + segs == ([""] + init) + [segs[|segs| - 1]];
      JoinAppend([""] + init, segs[|segs| - 1], '/');
    }
  }

  /** Round trip: the segments of a cumulative path are the segments it was
      built from. */
  lemma SegmentsOfPath(segs: seq<string>)
    requires |segs| >= 1
    requires forall seg <- segs :: seg != [] && '/' !in seg
    ensures Segments(PathOf(segs)) == segs
  {
    PathOfIsJoin(segs);
    SegmentsOfJoin([""] + segs);
    NonEmptyAppend([""], segs);
    NonEmptyKeepsAll(segs);
  }

  /** Doubled and trailing slashes add no segments: `/a//b/` has the
      segments `a` and `b`. */
  lemma SegmentsSkipEmptyRuns(a: string, b: string)
    requires a != [] && '/' !in a && b != [] && '/' !in b
    ensures Segments("/" + a + "//" + b + "/") == [a, b]
  {
    var parts := ["", a, "", b, ""];
    JoinAppend(["", a, "", b], "", '/');
    JoinAppend(["", a, ""], b, '/');
    JoinAppend(["", a], "", '/');
    JoinAppend([""], a, '/');
    assert ["", a] == [""] + [a] && ["", a, ""] == ["", a] + [""];
    assert ["", a, "", b] == ["", a, ""] + [b] && parts == ["", a, "", b] + [""];
    assert Join(parts, '/') == "/" + a + "//" + b + "/";
    SegmentsOfJoin(parts);
    assert parts == [""] + [a] + [""] + [b] + [""];
    NonEmptyAppend([""] + [a] + [""] + [b], [""]);
    NonEmptyAppend([""] + [a] + [""], [b]);
    NonEmptyAppend([""] + [a], [""]);
    NonEmptyAppend([""], [a]);
  }

  /** The item segment `i` adds, if any: one when its cumulative path is a
      configured route other than the dashboard, linked unless it is the
      last segment. */
  function CrumbAt(segs: seq<string>, i: nat): (r: seq<Crumb>)
    requires i < |segs|
    ensures |r| <= 1
    ensures r != [] ==> r[0] != HOME_CRUMB && r[0].path != Some(DASHBOARD_PATH)
    ensures r != [] ==> (r[0].path.None? <==> i == |segs| - 1)
  {
    var path := PathOf(segs[..i + 1]);
    if path in ROUTE_CONFIG && path != DASHBOARD_PATH then
      [Crumb(ROUTE_CONFIG[path].title, if i == |segs| - 1 then None else Some(path), ROUTE_CONFIG[path].icon)]
    else []
  }

  /** The items the first `n` segments add. */
  function SegmentCrumbs(segs: seq<string>, n: nat): (r: seq<Crumb>)
    requires n <= |segs|
    ensures |r| <= n
  {
    if n == 0 then [] else SegmentCrumbs(segs, n - 1) + CrumbAt(segs, n - 1)
  }

  /** The trail `generateBreadcrumbsFromRoute` returns. */
  function Breadcrumbs(pathname: string): (r: seq<Crumb>)
    ensures |r| >= 1 && r[0] == HOME_CRUMB
    ensures |r| <= 1 + |Segments(pathname)|
  {
    var segs := Segments(pathname);
    [HOME_CRUMB] + SegmentCrumbs(segs, |segs|)
  }

  /** `generateBreadcrumbsFromRoute`: the dashboard first, then one item per
      segment whose cumulative path is a configured route. */
  method GenerateBreadcrumbsFromRoute(pathname: string) returns (crumbs: seq<Crumb>)
    ensures crumbs == Breadcrumbs(pathname)
  {
    var segments := Segments(pathname);
    crumbs := [HOME_CRUMB];
    var currentPath := "";
    var index := 0;
    while index < |segments|
      invariant 0 <= index <= |segments|
      invariant currentPath == PathOf(segments[..index])
      invariant crumbs == [HOME_CRUMB] + SegmentCrumbs(segments, index)
    {
      var segment := segments[index];
      currentPath := currentPath + "/" + segment;
      assert segments[..index + 1][..index] == segments[..index];
      assert currentPath == PathOf(segments[..index + 1]);
      ghost var added := CrumbAt(segments, index);
      assert SegmentCrumbs(segments, index + 1) == SegmentCrumbs(segments, index) + added;
      if currentPath in ROUTE_CONFIG && currentPath != DASHBOARD_PATH {
        var config := ROUTE_CONFIG[currentPath];
        crumbs := crumbs + [Crumb(config.title, if index == |segments| - 1 then None else Some(currentPath), config.icon)];
        assert crumbs == [HOME_CRUMB] + SegmentCrumbs(segments, index) + added;
      } else {
        assert added == [];
      }
      index := index + 1;
    }
    assert segments[..|segments|] == segments;
  }

  /** A path of two or more segments has a `/` after its first character. */
  lemma DeepPathHasInnerSlash(segs: seq<string>)
    requires |segs| >= 2
    ensures '/' in PathOf(segs)[1..]
  {
    var init := PathOf(segs[..|segs| - 1]);
    var p := PathOf(segs);
    assert p == init + "/" + segs[|segs| - 1];
    assert p[|init|] == '/';
    assert p[1..][|init| - 1] == '/';
  }

  /** No configured route has a `/` after its first character. */
  lemma RoutesAreOneSegment(path: string)
    requires path in ROUTE_CONFIG
    ensures |path| > 0 && '/' !in path[1..]
  {
    assert "/dashboard"[1..] == "dashboard" && "/projects"[1..] == "projects";
    assert "/team"[1..] == "team" && "/scope"[1..] == "scope";
  }

  /** A path of two or more segments is no configured route. */
  lemma DeepPathIsNoRoute(segs: seq<string>)
    requires |segs| >= 2
    ensures PathOf(segs) !in ROUTE_CONFIG
  {
    DeepPathHasInnerSlash(segs);
    if PathOf(segs) in ROUTE_CONFIG {
      RoutesAreOneSegment(PathOf(segs));
    }
  }

  /** Only the first segment can add an item. */
  lemma {:induction false} OnlyFirstSegmentCounts(segs: seq<string>, n: nat)
    requires 1 <= n <= |segs|
    ensures SegmentCrumbs(segs, n) == CrumbAt(segs, 0)
  {
    if n > 1 {
      OnlyFirstSegmentCounts(segs, n - 1);
      DeepPathIsNoRoute(segs[..n]);
      assert CrumbAt(segs, n - 1) == [];
    } else {
      assert SegmentCrumbs(segs, 0) == [];
    }
  }

  /** The first segment's path is `/` and the segment. */
  lemma FirstPath(segs: seq<string>)
    requires |segs| > 0
    ensures PathOf(segs[..1]) == "/" + segs[0]
  {
    assert segs[..1][..0] == [];
    assert PathOf(segs[..1]) == PathOf(segs[..1][..0]) + "/" + segs[..1][0];
  }

  /** The whole trail in closed form: the dashboard, then at most one item,
      for the first segment, when `/<first segment>` is a configured route
      other than the dashboard; that item is linked exactly when more
      segments follow. */
  lemma BreadcrumbsShape(pathname: string)
    ensures var segs := Segments(pathname);
      var first := if |segs| > 0 then "/" + segs[0] else "";
      Breadcrumbs(pathname) == [HOME_CRUMB] +
        if |segs| > 0 && first in ROUTE_CONFIG && first != DASHBOARD_PATH
        then [Crumb(ROUTE_CONFIG[first].title, if |segs| == 1 then None else Some(first), ROUTE_CONFIG[first].icon)]
        else []
  {
    var segs := Segments(pathname);
    if |segs| > 0 {
      OnlyFirstSegmentCounts(segs, |segs|);
      FirstPath(segs);
    }
  }

  /** No item after the first repeats the dashboard, and the trail has at
      most two items. */
  lemma DashboardNeverRepeats(pathname: string)
    ensures var r := Breadcrumbs(pathname);
      && |r| <= 2
      && forall k :: 1 <= k < |r| ==> r[k] != HOME_CRUMB && r[k].path != Some(DASHBOARD_PATH)
  {
    BreadcrumbsShape(pathname);
  }

  /** The last segment's item carries no link; the item of an earlier
      segment links to its cumulative path. */
  lemma LinksAreCumulativePaths(pathname: string, k: nat)
    requires 1 <= k < |Breadcrumbs(pathname)|
    ensures var segs := Segments(pathname);
      (Breadcrumbs(pathname)[k].path.None? <==> |segs| == 1)
      && (|segs| > 1 ==> Breadcrumbs(pathname)[k].path == Some(PathOf(segs[..1])))
  {
    BreadcrumbsShape(pathname);
    var segs := Segments(pathname);
    if |segs| > 0 {
      FirstPath(segs);
    }
  }

  /** `items || generateBreadcrumbsFromRoute(pathname)`: given items win,
      even an empty list, which JavaScript counts as truthy. */
  function TrailItems(items: Option<seq<Crumb>>, pathname: string): (r: seq<Crumb>)
    ensures items.Some? ==> r == items.value
    ensures items.None? ==> r == Breadcrumbs(pathname)
  {
    if items.Some? then items.value else Breadcrumbs(pathname)
  }

  /** `displayItems`: without `showHome` the first item is dropped. */
  function DisplayItems(trail: seq<Crumb>, showHome: bool): (r: seq<Crumb>)
    ensures showHome ==> r == trail
    ensures !showHome && trail != [] ==> r == trail[1..]
    ensures !showHome && trail == [] ==> r == []
  {
    if showHome then trail else if trail == [] then [] else trail[1..]
  }

  /** The component renders nothing exactly when there is nothing to display. */
  predicate RendersNothing(items: Option<seq<Crumb>>, pathname: string, showHome: bool) {
    |DisplayItems(TrailItems(items, pathname), showHome)| == 0
  }

  /** A generated trail is always shown with the home item; without it, it
      is shown exactly when the path adds an item of its own. */
  lemma GeneratedTrailRenders(pathname: string)
    ensures !RendersNothing(None, pathname, true)
    ensures RendersNothing(None, pathname, false) <==> |Breadcrumbs(pathname)| == 1
    ensures !RendersNothing(None, pathname, false) ==>
      DisplayItems(Breadcrumbs(pathname), false)[0] != HOME_CRUMB
  {
    DashboardNeverRepeats(pathname);
  }
}
