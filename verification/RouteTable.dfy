/** `gte_all_uris`: the flat list of endpoints under an app, collected through two shared lists. */
module RouteTable {
  import opened Optional

  datatype Dependency = TokenRequired | ApiPermissionCheck | OtherDependency

  /** A leaf route or a mounted app. `methods` is the order in which the route's method set is iterated. */
  datatype Route =
    | Http(path: string, name: string, methods: seq<string>, dependencies: Option<seq<Dependency>>)
    | Mount(path: string, name: string, routes: seq<Route>)

  datatype Uri = Uri(verb: string, path: string, name: string)

  type RouteFilter = Route -> bool

  /** The filter of the permission script: mounts, and routes that check a token or a permission. */
  function FilterUri(r: Route): bool {
    match r
    case Mount(_, _, _) => true
    case Http(_, _, _, None) => false
    case Http(_, _, _, Some(ds)) => TokenRequired in ds || ApiPermissionCheck in ds
  }

  function FullPath(u: Uri): string {
    u.verb + ":" + u.path
  }

  predicate Skipped(verb: string) {
    verb in ["HEAD", "OPTIONS"]
  }

  // ------------------------------------------------ the simple recursive form

  function MethodUris(methods: seq<string>, path: string, name: string): seq<Uri> {
    if methods == [] then []
    else (if Skipped(methods[0]) then [] else [Uri(methods[0], path, name)]) + MethodUris(methods[1..], path, name)
  }

  function RouteUris(r: Route, prefix: string, filter: RouteFilter): seq<Uri>
    decreases r, 0
  {
    if !filter(r) then []
    else match r
      case Http(path, name, methods, _) => MethodUris(methods, prefix + path, name)
      case Mount(path, _, routes) => Flatten(routes, prefix + path, filter)
  }

  function Flatten(routes: seq<Route>, prefix: string, filter: RouteFilter): seq<Uri>
    decreases routes, 1
  {
    if routes == [] then [] else RouteUris(routes[0], prefix, filter) + Flatten(routes[1..], prefix, filter)
  }

  function Keys(us: seq<Uri>): seq<string> {
    seq(|us|, i requires 0 <= i < |us| => FullPath(us[i]))
  }

  /** Appends what is new, by method and full path. */
  function Dedup(acc: seq<Uri>, more: seq<Uri>): seq<Uri>
    decreases more
  {
    if more == [] then acc
    else if FullPath(more[0]) in Keys(acc) then Dedup(acc, more[1..])
    else Dedup(acc + [more[0]], more[1..])
  }

  function AllUris(routes: seq<Route>, filter: RouteFilter): seq<Uri> {
    Dedup([], Flatten(routes, "", filter))
  }

  lemma {:induction false} DedupConcat(acc: seq<Uri>, a: seq<Uri>, b: seq<Uri>)
    ensures Dedup(acc, a + b) == Dedup(Dedup(acc, a), b)
    decreases a
  {
    if a == [] {
      assert a + b == b;
    } else {
      assert (a + b)[0] == a[0] && (a + b)[1..] == a[1..] + b;
      DedupConcat(if FullPath(a[0]) in Keys(acc) then acc else acc + [a[0]], a[1..], b);
    }
  }

  lemma KeysAppend(us: seq<Uri>, u: Uri)
    ensures Keys(us + [u]) == Keys(us) + [FullPath(u)]
  {
  }

  // ------------------------------------------------------- the collecting form

  class UriCollector {
    var uriList: seq<Uri>
    var paths: seq<string>
    const filter: RouteFilter

    constructor (filter: RouteFilter)
      ensures this.filter == filter && uriList == [] && paths == []
    {
      this.filter, uriList, paths := filter, [], [];
    }

    /** Tries to add one endpoint. */
    method Add(u: Uri)
      requires paths == Keys(uriList)
      modifies this`uriList, this`paths
      ensures paths == Keys(uriList)
      ensures uriList == Dedup(old(uriList), if Skipped(u.verb) then [] else [u])
    {
      var fullPath := u.verb + ":" + u.path;
      if Skipped(u.verb) || fullPath in paths {
        return;
      }
      KeysAppend(uriList, u);
      uriList := uriList + [u];
      paths := paths + [fullPath];
    }

    method GetUriList(routes: seq<Route>, prefix: string)
      requires paths == Keys(uriList)
      modifies this`uriList, this`paths
      ensures paths == Keys(uriList)
      ensures uriList == Dedup(old(uriList), Flatten(routes, prefix, filter))
      decreases routes, 1
    {
      for i := 0 to |routes|
        invariant paths == Keys(uriList)
        invariant Dedup(old(uriList), Flatten(routes, prefix, filter)) == Dedup(uriList, Flatten(routes[i..], prefix, filter))
      {
        assert routes[i..][0] == routes[i] && routes[i..][1..] == routes[i + 1..];
        DedupConcat(uriList, RouteUris(routes[i], prefix, filter), Flatten(routes[i + 1..], prefix, filter));
        VisitRoute(routes[i], prefix);
      }
    }

    method VisitRoute(r: Route, prefix: string)
      requires paths == Keys(uriList)
      modifies this`uriList, this`paths
      ensures paths == Keys(uriList)
      ensures uriList == Dedup(old(uriList), RouteUris(r, prefix, filter))
      decreases r, 0
    {
      if !filter(r) {
        return;
      }
      if r.Mount? {
        GetUriList(r.routes, prefix + r.path);
        return;
      }
      var path := prefix + r.path;
      for j := 0 to |r.methods|
        invariant paths == Keys(uriList)
        invariant Dedup(old(uriList), MethodUris(r.methods, path, r.name)) ==
                  Dedup(uriList, MethodUris(r.methods[j..], path, r.name))
      {
        assert r.methods[j..][0] == r.methods[j] && r.methods[j..][1..] == r.methods[j + 1..];
        var u := Uri(r.methods[j], path, r.name);
        DedupConcat(uriList, if Skipped(u.verb) then [] else [u], MethodUris(r.methods[j + 1..], path, r.name));
        Add(u);
      }
    }
  }

  method GteAllUris(routes: seq<Route>, filter: RouteFilter) returns (uris: seq<Uri>)
    ensures uris == AllUris(routes, filter)
  {
    var collector := new UriCollector(filter);
    collector.GetUriList(routes, "");
    uris := collector.uriList;
  }

  // ---------------------------------------------------- what the list contains

  /** A way down: mounts, each inside the one before, ending in an endpoint route; every step passes the filter. */
  ghost predicate Leads(routes: seq<Route>, trail: seq<Route>, filter: RouteFilter)
    decreases trail
  {
    && trail != [] && trail[0] in routes && filter(trail[0])
    && if |trail| == 1 then trail[0].Http? else trail[0].Mount? && Leads(trail[0].routes, trail[1..], filter)
  }

  function Joined(trail: seq<Route>): string {
    if trail == [] then "" else trail[0].path + Joined(trail[1..])
  }

  /** `u` is the endpoint at the end of `trail`. */
  ghost predicate Exposes(trail: seq<Route>, prefix: string, u: Uri)
    requires trail != []
  {
    var last := trail[|trail| - 1];
    && last.Http? && u.verb in last.methods && u.verb != "HEAD" && u.verb != "OPTIONS"
    && u.name == last.name && u.path == prefix + Joined(trail)
  }

  ghost predicate Exposed(routes: seq<Route>, prefix: string, filter: RouteFilter, u: Uri) {
    exists trail :: Leads(routes, trail, filter) && Exposes(trail, prefix, u)
  }

  lemma {:induction false} MethodUrisMeaning(methods: seq<string>, path: string, name: string, u: Uri)
    ensures u in MethodUris(methods, path, name) <==>
              u.verb in methods && !Skipped(u.verb) && u.path == path && u.name == name
  {
    if methods != [] {
      MethodUrisMeaning(methods[1..], path, name, u);
      assert methods == [methods[0]] + methods[1..];
    }
  }

  lemma HttpTrail(r: Route, trail: seq<Route>, filter: RouteFilter)
    requires r.Http?
    ensures Leads([r], trail, filter) <==> trail == [r] && filter(r)
  {
  }

  lemma MountTrail(r: Route, rest: seq<Route>, filter: RouteFilter, prefix: string, u: Uri)
    requires r.Mount? && rest != []
    ensures Leads([r], [r] + rest, filter) <==> filter(r) && Leads(r.routes, rest, filter)
    ensures Exposes([r] + rest, prefix, u) <==> Exposes(rest, prefix + r.path, u)
  {
  }

  lemma HttpUrisMeaning(r: Route, prefix: string, filter: RouteFilter, u: Uri)
    requires r.Http?
    ensures u in RouteUris(r, prefix, filter) <==> Exposed([r], prefix, filter, u)
  {
    MethodUrisMeaning(r.methods, prefix + r.path, r.name, u);
    HttpTrail(r, [r], filter);
    assert Joined([r]) == r.path + Joined([]) == r.path;
    if Exposed([r], prefix, filter, u) {
      var trail :| Leads([r], trail, filter) && Exposes(trail, prefix, u);
      HttpTrail(r, trail, filter);
    }
    if u in RouteUris(r, prefix, filter) {
      assert Leads([r], [r], filter) && Exposes([r], prefix, u);
    }
  }

  lemma {:induction false} RouteUrisMeaning(r: Route, prefix: string, filter: RouteFilter, u: Uri)
    ensures u in RouteUris(r, prefix, filter) <==> Exposed([r], prefix, filter, u)
    decreases r, 0
  {
    match r
    case Http(_, _, _, _) => HttpUrisMeaning(r, prefix, filter, u);
    case Mount(path, _, routes) =>
      FlattenMeaning(routes, prefix + path, filter, u);
      if u in RouteUris(r, prefix, filter) {
        var rest :| Leads(routes, rest, filter) && Exposes(rest, prefix + path, u);
        MountTrail(r, rest, filter, prefix, u);
      }
      if Exposed([r], prefix, filter, u) {
        var trail :| Leads([r], trail, filter) && Exposes(trail, prefix, u);
        assert trail == [r] + trail[1..];
        MountTrail(r, trail[1..], filter, prefix, u);
      }
  }

  lemma LeadsInPart(routes: seq<Route>, more: seq<Route>, trail: seq<Route>, filter: RouteFilter)
    requires Leads(routes, trail, filter) && trail[0] in more
    ensures Leads(more, trail, filter)
  {
  }

  /** The flat list holds exactly the endpoints some filtered way down leads to, under the paths of all its mounts. */
  lemma {:induction false} FlattenMeaning(routes: seq<Route>, prefix: string, filter: RouteFilter, u: Uri)
    ensures u in Flatten(routes, prefix, filter) <==> Exposed(routes, prefix, filter, u)
    decreases routes, 1
  {
    if routes != [] {
      var r, rest := routes[0], routes[1..];
      RouteUrisMeaning(r, prefix, filter, u);
      FlattenMeaning(rest, prefix, filter, u);
      if Exposed([r], prefix, filter, u) {
        var trail :| Leads([r], trail, filter) && Exposes(trail, prefix, u);
        LeadsInPart([r], routes, trail, filter);
      }
      if Exposed(rest, prefix, filter, u) {
        var trail :| Leads(rest, trail, filter) && Exposes(trail, prefix, u);
        LeadsInPart(rest, routes, trail, filter);
      }
      if Exposed(routes, prefix, filter, u) {
        var trail :| Leads(routes, trail, filter) && Exposes(trail, prefix, u);
        LeadsInPart(routes, if trail[0] == r then [r] else rest, trail, filter);
      }
    }
  }

  // ------------------------------------------------------------- earlier wins

  ghost predicate NoRepeats(s: seq<string>) {
    forall i, j :: 0 <= i < j < |s| ==> s[i] != s[j]
  }

  /** `more[i]` is the first of its method and full path. */
  ghost predicate FirstOfKey(more: seq<Uri>, i: int) {
    0 <= i < |more| && forall j :: 0 <= j < i ==> FullPath(more[j]) != FullPath(more[i])
  }

  ghost predicate IsFirst(more: seq<Uri>, u: Uri) {
    exists i :: FirstOfKey(more, i) && more[i] == u
  }

  lemma KeysMeaning(us: seq<Uri>, k: string)
    ensures k in Keys(us) <==> exists u :: u in us && FullPath(u) == k
  {
    if u :| u in us && FullPath(u) == k {
      var i :| 0 <= i < |us| && us[i] == u;
      assert Keys(us)[i] == k;
    }
    if k in Keys(us) {
      var i :| 0 <= i < |us| && Keys(us)[i] == k;
      assert us[i] in us;
    }
  }

  lemma {:induction false} DedupMeaning(acc: seq<Uri>, more: seq<Uri>, u: Uri)
    requires NoRepeats(Keys(acc))
    ensures NoRepeats(Keys(Dedup(acc, more)))
    ensures u in Dedup(acc, more) <==> u in acc || (FullPath(u) !in Keys(acc) && IsFirst(more, u))
    decreases more
  {
    if more != [] {
      var x, rest := more[0], more[1..];
      FirstSplits(x, rest, u);
      KeysMeaning(acc, FullPath(u));
      assert more == [x] + rest;
      if FullPath(x) in Keys(acc) {
        DedupMeaning(acc, rest, u);
      } else {
        KeysAppend(acc, x);
        DedupMeaning(acc + [x], rest, u);
      }
    }
  }

  lemma FirstShifts(x: Uri, rest: seq<Uri>, i: nat)
    requires i < |rest|
    ensures FirstOfKey([x] + rest, i + 1) <==> FullPath(rest[i]) != FullPath(x) && FirstOfKey(rest, i)
  {
    var more := [x] + rest;
    if FirstOfKey(more, i + 1) {
      assert FullPath(more[0]) != FullPath(more[i + 1]);
      forall j | 0 <= j < i ensures FullPath(rest[j]) != FullPath(rest[i]) {
        assert more[j + 1] == rest[j];
      }
    }
  }

  lemma FirstSplits(x: Uri, rest: seq<Uri>, u: Uri)
    ensures IsFirst([x] + rest, u) <==> u == x || (FullPath(u) != FullPath(x) && IsFirst(rest, u))
  {
    var more := [x] + rest;
    if u == x {
      assert FirstOfKey(more, 0);
    } else if IsFirst(more, u) {
      var i :| FirstOfKey(more, i) && more[i] == u;
      FirstShifts(x, rest, i - 1);
    } else if IsFirst(rest, u) {
      var i :| FirstOfKey(rest, i) && rest[i] == u;
      FirstShifts(x, rest, i);
      assert more[i + 1] == u;
    }
  }

  /**
   The collected list: no method and full path twice, every entry an exposed endpoint
   that is not HEAD or OPTIONS, and of two endpoints with the same method and path the
   earlier one is the entry.
   */
  lemma AllUrisMeaning(routes: seq<Route>, filter: RouteFilter, u: Uri)
    ensures NoRepeats(Keys(AllUris(routes, filter)))
    ensures u in AllUris(routes, filter) <==> IsFirst(Flatten(routes, "", filter), u)
    ensures u in AllUris(routes, filter) ==> Exposed(routes, "", filter, u) && u.verb != "HEAD" && u.verb != "OPTIONS"
    ensures Exposed(routes, "", filter, u) ==> FullPath(u) in Keys(AllUris(routes, filter))
  {
    var all := Flatten(routes, "", filter);
    DedupMeaning([], all, u);
    FlattenMeaning(routes, "", filter, u);
    if IsFirst(all, u) {
      var i :| FirstOfKey(all, i) && all[i] == u;
      assert u in all;
    }
    if u in all {
      var i :| 0 <= i < |all| && all[i] == u;
      var k := FirstIndex(all, i);
      DedupMeaning([], all, all[k]);
      assert IsFirst(all, all[k]);
      KeysMeaning(AllUris(routes, filter), FullPath(u));
    }
  }

  lemma FirstIndex(more: seq<Uri>, i: nat) returns (k: nat)
    requires i < |more|
    ensures FirstOfKey(more, k) && FullPath(more[k]) == FullPath(more[i])
    decreases i
  {
    if FirstOfKey(more, i) {
      k := i;
    } else {
      var j :| 0 <= j < i && FullPath(more[j]) == FullPath(more[i]);
      k := FirstIndex(more, j);
    }
  }

  /** HTTP methods hold no ':', so the joined key loses nothing. */
  lemma FullPathIsInjective(u: Uri, v: Uri)
    requires ':' !in u.verb && ':' !in v.verb && FullPath(u) == FullPath(v)
    ensures u.verb == v.verb && u.path == v.path
  {
    var whole := FullPath(u);
    assert forall k :: 0 <= k < |u.verb| ==> whole[k] == u.verb[k] != ':';
    assert forall k :: 0 <= k < |v.verb| ==> whole[k] == v.verb[k] != ':';
    assert whole[|u.verb|] == ':' && whole[|v.verb|] == ':';
    assert whole[..|u.verb|] == u.verb && whole[..|v.verb|] == v.verb;
    assert whole[|u.verb| + 1..] == u.path && whole[|v.verb| + 1..] == v.path;
  }
}
