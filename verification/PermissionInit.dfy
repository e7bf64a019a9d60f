/** `permission_init`: every mounted app upserts the codes of its routes and deprecates its stale ones. */
module PermissionInit {
  import opened Optional
  import opened RouteTable

  type Code = string

  datatype PermissionRow = PermissionRow(name: string, deprecated: bool)

  type Permissions = map<Code, PermissionRow>

  datatype App = App(code: string, routes: seq<Route>)

  function CodeOf(app: App, u: Uri): Code {
    app.code + ":" + u.verb + ":" + u.path
  }

  function Uris(app: App): seq<Uri> {
    AllUris(app.routes, FilterUri)
  }

  /** The codes of the endpoints, with the labels the upserts leave. */
  function Labels(app: App, us: seq<Uri>): map<Code, string> {
    if us == [] then map[]
    else
      var rest := Labels(app, us[..|us| - 1]);
      var u := us[|us| - 1];
      if u.verb == "" then rest else rest[CodeOf(app, u) := u.name]
  }

  function RouteLabels(app: App): map<Code, string> {
    Labels(app, Uris(app))
  }

  function RouteCodes(app: App): set<Code> {
    RouteLabels(app).Keys
  }

  predicate Claims(app: App, c: Code) {
    app.code <= c
  }

  // ------------------------------------------------ one app, one code at a time

  /** What processing `app` does to the row of `c`. */
  function RowAfter(app: App, c: Code, row: Option<PermissionRow>): Option<PermissionRow> {
    if c in RouteCodes(app) then Some(PermissionRow(RouteLabels(app)[c], false))
    else if Claims(app, c) && row.Some? then Some(row.value.(deprecated := true))
    else row
  }

  function RowAfterAll(apps: seq<App>, c: Code, row: Option<PermissionRow>): Option<PermissionRow> {
    if apps == [] then row else RowAfter(apps[|apps| - 1], c, RowAfterAll(apps[..|apps| - 1], c, row))
  }

  function RowIn(table: Permissions, c: Code): Option<PermissionRow> {
    if c in table then Some(table[c]) else None
  }

  /** The two tables agree, the second after `apps`. */
  ghost predicate Initialised(before: Permissions, apps: seq<App>, after: Permissions) {
    forall c :: RowIn(after, c) == RowAfterAll(apps, c, RowIn(before, c))
  }

  // ---------------------------------------------------------------- methods

  /** The permission table. */
  class PermissionTable {
    var rows: Permissions

    constructor (rows: Permissions)
      ensures this.rows == rows
    {
      this.rows := rows;
    }

    method UpsertCodes(app: App, urls: seq<Uri>) returns (latestCodes: set<Code>)
      modifies this
      ensures latestCodes == Labels(app, urls).Keys
      ensures forall c :: RowIn(rows, c) == if c in Labels(app, urls) then Some(PermissionRow(Labels(app, urls)[c], false))
                                            else RowIn(old(rows), c)
    {
      latestCodes := {};
      for i := 0 to |urls|
        invariant latestCodes == Labels(app, urls[..i]).Keys
        invariant forall c :: RowIn(rows, c) == if c in Labels(app, urls[..i]) then Some(PermissionRow(Labels(app, urls[..i])[c], false))
                                                else RowIn(old(rows), c)
      {
        assert urls[..i + 1][..i] == urls[..i];
        if urls[i].verb != "" {
          var code := app.code + ":" + urls[i].verb + ":" + urls[i].path;
          rows := rows[code := PermissionRow(urls[i].name, false)];
          latestCodes := latestCodes + {code};
        }
      }
      assert urls[..|urls|] == urls;
    }

    method DeprecateStale(prefix: string, latestCodes: set<Code>)
      modifies this
      ensures forall c :: RowIn(rows, c) ==
                if c in old(rows) && prefix <= c && c !in latestCodes then Some(old(rows)[c].(deprecated := true))
                else RowIn(old(rows), c)
    {
      var found := set c | c in rows && prefix <= c;
      var todo := found;
      while todo != {}
        invariant todo <= found && rows.Keys == old(rows).Keys
        invariant forall c :: c in rows ==>
                    rows[c] == if c in found - todo && c !in latestCodes then old(rows)[c].(deprecated := true) else old(rows)[c]
        decreases todo
      {
        var code :| code in todo;
        todo := todo - {code};
        if code !in latestCodes {
          rows := rows[code := rows[code].(deprecated := true)];
        }
      }
    }

    method UpdateOrCreatePermCode(app: App)
      modifies this
      ensures Initialised(old(rows), [app], rows)
    {
      var urls := GteAllUris(app.routes, FilterUri);
      var latestCodes := UpsertCodes(app, urls);
      DeprecateStale(app.code, latestCodes);
      forall c ensures RowIn(rows, c) == RowAfterAll([app], c, RowIn(old(rows), c)) {
        assert RowAfterAll([app], c, RowIn(old(rows), c)) == RowAfter(app, c, RowIn(old(rows), c));
      }
    }

    method PermissionInit(apps: seq<App>)
      modifies this
      ensures Initialised(old(rows), apps, rows)
    {
      for i := 0 to |apps|
        invariant Initialised(old(rows), apps[..i], rows)
      {
        ghost var before := rows;
        UpdateOrCreatePermCode(apps[i]);
        forall c ensures RowIn(rows, c) == RowAfterAll(apps[..i + 1], c, RowIn(old(rows), c)) {
          assert apps[..i + 1][..i] == apps[..i];
          assert RowAfterAll([apps[i]], c, RowIn(before, c)) == RowAfter(apps[i], c, RowIn(before, c));
        }
      }
      assert apps[..|apps|] == apps;
    }
  }

  // ------------------------------------------------------ what a run decides

  /** The codes of an app start with its code. */
  lemma {:induction false} LabelsAreClaimed(app: App, us: seq<Uri>)
    ensures forall c :: c in Labels(app, us) ==> Claims(app, c)
    ensures forall u :: u in us && u.verb != "" ==> CodeOf(app, u) in Labels(app, us)
  {
    if us != [] {
      var front, u := us[..|us| - 1], us[|us| - 1];
      LabelsAreClaimed(app, front);
      assert us == front + [u];
      assert app.code <= CodeOf(app, u);
    }
  }

  lemma RouteCodesAreClaimed(app: App, c: Code)
    requires c in RouteCodes(app)
    ensures Claims(app, c)
  {
    LabelsAreClaimed(app, Uris(app));
  }

  // -------------------------------------------------- which codes an app serves

  predicate IsGuarded(r: Route) {
    r.Http? && r.dependencies.Some? && (TokenRequired in r.dependencies.value || ApiPermissionCheck in r.dependencies.value)
  }

  /** A way down through mounts, each inside the one before, to a route that checks a token or a permission. */
  ghost predicate LeadsToGuarded(routes: seq<Route>, trail: seq<Route>)
    decreases trail
  {
    && trail != [] && trail[0] in routes
    && if |trail| == 1 then IsGuarded(trail[0]) else trail[0].Mount? && LeadsToGuarded(trail[0].routes, trail[1..])
  }

  /** The way down ends at a route with this method. */
  predicate EndsIn(trail: seq<Route>, verb: string)
    requires trail != []
  {
    trail[|trail| - 1].Http? && verb in trail[|trail| - 1].methods
  }

  /** `c` is the code of an endpoint of `app` at the end of a guarded way down. */
  ghost predicate Serves(app: App, c: Code) {
    exists trail: seq<Route>, verb: string :: ServesBy(app, c, trail, verb)
  }

  ghost predicate ServesBy(app: App, c: Code, trail: seq<Route>, verb: string) {
    && LeadsToGuarded(app.routes, trail) && EndsIn(trail, verb)
    && verb != "" && verb != "HEAD" && verb != "OPTIONS"
    && c == app.code + ":" + verb + ":" + Joined(trail)
  }

  /** HTTP methods are tokens, so none starts with ':'. */
  ghost predicate PlainMethods(routes: seq<Route>) {
    forall trail: seq<Route>, verb: string :: LeadsToGuarded(routes, trail) && EndsIn(trail, verb) && verb != "" ==> verb[0] != ':'
  }

  lemma {:induction false} FilterLeadsToGuarded(routes: seq<Route>, trail: seq<Route>)
    ensures Leads(routes, trail, FilterUri) <==> LeadsToGuarded(routes, trail)
    decreases trail
  {
    if |trail| > 1 && trail[0].Mount? {
      FilterLeadsToGuarded(trail[0].routes, trail[1..]);
    }
  }

  lemma CodeIsPrefixedKey(app: App, u: Uri)
    ensures CodeOf(app, u) == app.code + ":" + FullPath(u)
  {
  }

  lemma SameCodeSameKey(app: App, u: Uri, v: Uri)
    ensures CodeOf(app, u) == CodeOf(app, v) <==> FullPath(u) == FullPath(v)
  {
    CodeIsPrefixedKey(app, u);
    CodeIsPrefixedKey(app, v);
    var p := app.code + ":";
    assert CodeOf(app, u)[|p|..] == FullPath(u) && CodeOf(app, v)[|p|..] == FullPath(v);
  }

  /** With no method and full path twice, every endpoint keeps its own label. */
  lemma {:induction false} LabelsMeaning(app: App, us: seq<Uri>)
    requires NoRepeats(Keys(us))
    ensures forall c :: c in Labels(app, us) <==> exists u :: u in us && u.verb != "" && CodeOf(app, u) == c
    ensures forall u :: u in us && u.verb != "" ==> CodeOf(app, u) in Labels(app, us) && Labels(app, us)[CodeOf(app, u)] == u.name
  {
    if us != [] {
      var front, last := us[..|us| - 1], us[|us| - 1];
      assert us == front + [last];
      assert forall i :: 0 <= i < |front| ==> Keys(us)[i] == Keys(front)[i];
      LabelsMeaning(app, front);
      forall u | u in front ensures CodeOf(app, u) != CodeOf(app, last) {
        var i :| 0 <= i < |front| && front[i] == u;
        assert Keys(us)[i] == FullPath(u) && Keys(us)[|front|] == FullPath(last);
        SameCodeSameKey(app, u, last);
      }
    }
  }

  /** The labels of an app are those of its collected endpoints. */
  lemma RouteLabelsMeaning(app: App)
    ensures forall c :: c in RouteCodes(app) <==> exists u :: u in Uris(app) && u.verb != "" && CodeOf(app, u) == c
    ensures forall u :: u in Uris(app) && u.verb != "" ==> CodeOf(app, u) in RouteLabels(app) && RouteLabels(app)[CodeOf(app, u)] == u.name
  {
    AllUrisMeaning(app.routes, FilterUri, Uri("", "", ""));
    LabelsMeaning(app, Uris(app));
  }

  lemma CodeIsServed(app: App, c: Code)
    requires c in RouteCodes(app)
    ensures Serves(app, c)
  {
    RouteLabelsMeaning(app);
    var u :| u in Uris(app) && u.verb != "" && CodeOf(app, u) == c;
    AllUrisMeaning(app.routes, FilterUri, u);
    var trail :| Leads(app.routes, trail, FilterUri) && Exposes(trail, "", u);
    FilterLeadsToGuarded(app.routes, trail);
    assert "" + Joined(trail) == Joined(trail);
    assert ServesBy(app, c, trail, u.verb);
  }

  lemma KeyStart(u: Uri)
    ensures FullPath(u) != "" && FullPath(u)[0] == if u.verb == "" then ':' else u.verb[0]
  {
  }

  lemma ServedIsCode(app: App, c: Code)
    requires Serves(app, c) && PlainMethods(app.routes)
    ensures c in RouteCodes(app)
  {
    var trail: seq<Route>, verb: string :| ServesBy(app, c, trail, verb);
    var u := Uri(verb, Joined(trail), trail[|trail| - 1].name);
    FilterLeadsToGuarded(app.routes, trail);
    assert "" + Joined(trail) == Joined(trail);
    assert Exposes(trail, "", u);
    AllUrisMeaning(app.routes, FilterUri, u);
    KeysMeaning(Uris(app), FullPath(u));
    var v :| v in Uris(app) && FullPath(v) == FullPath(u);
    SameCodeSameKey(app, u, v);
    KeyStart(u);
    KeyStart(v);
    RouteLabelsMeaning(app);
  }

  /**
   The codes an app registers are exactly those of its guarded endpoints: a non-empty
   method, neither HEAD nor OPTIONS, of a route that checks a token or a permission,
   under the paths of all its mounts.
   */
  lemma RouteCodesMeaning(app: App, c: Code)
    requires PlainMethods(app.routes)
    ensures c in RouteCodes(app) <==> Serves(app, c)
  {
    if c in RouteCodes(app) {
      CodeIsServed(app, c);
    }
    if Serves(app, c) {
      ServedIsCode(app, c);
    }
  }

  // ------------------------------------------------------------ who decides

  ghost predicate Claimed(apps: seq<App>, c: Code) {
    exists i :: 0 <= i < |apps| && Claims(apps[i], c)
  }

  ghost predicate Routed(apps: seq<App>, c: Code) {
    exists i :: 0 <= i < |apps| && c in RouteCodes(apps[i])
  }

  /** App `i` is the last whose code is a prefix of `c`. */
  ghost predicate LastClaim(apps: seq<App>, i: int, c: Code) {
    0 <= i < |apps| && Claims(apps[i], c) && forall j :: i < j < |apps| ==> !Claims(apps[j], c)
  }

  lemma RoutedSplits(front: seq<App>, last: App, c: Code)
    ensures Routed(front + [last], c) <==> Routed(front, c) || c in RouteCodes(last)
    ensures Claimed(front + [last], c) <==> Claimed(front, c) || Claims(last, c)
  {
    var apps := front + [last];
    assert apps[|front|] == last;
    assert forall i :: 0 <= i < |front| ==> apps[i] == front[i];
    if Routed(front, c) {
      var i :| 0 <= i < |front| && c in RouteCodes(front[i]);
      assert c in RouteCodes(apps[i]);
    }
    if Claimed(front, c) {
      var i :| 0 <= i < |front| && Claims(front[i], c);
      assert Claims(apps[i], c);
    }
  }

  lemma LastClaimSplits(front: seq<App>, last: App, c: Code, i: int)
    ensures LastClaim(front + [last], i, c) <==>
              if Claims(last, c) then i == |front| else LastClaim(front, i, c)
  {
    var apps := front + [last];
    assert apps[|front|] == last;
    assert forall j :: 0 <= j < |front| ==> apps[j] == front[j];
  }

  /** Rows appear for route codes only, and unclaimed rows are left alone. */
  lemma {:induction false} RowAppearsForRoutes(apps: seq<App>, c: Code, row: Option<PermissionRow>)
    ensures RowAfterAll(apps, c, row).Some? <==> row.Some? || Routed(apps, c)
    ensures !Claimed(apps, c) ==> RowAfterAll(apps, c, row) == row
  {
    if apps != [] {
      var front, last := apps[..|apps| - 1], apps[|apps| - 1];
      RowAppearsForRoutes(front, c, row);
      assert apps == front + [last];
      RoutedSplits(front, last, c);
      if c in RouteCodes(last) {
        RouteCodesAreClaimed(last, c);
      }
    }
  }

  /** The last app claiming a code decides whether it stays active. */
  lemma {:induction false} LastClaimDecides(apps: seq<App>, c: Code, row: Option<PermissionRow>, i: int)
    requires LastClaim(apps, i, c) && RowAfterAll(apps, c, row).Some?
    ensures RowAfterAll(apps, c, row).value.deprecated <==> c !in RouteCodes(apps[i])
  {
    var front, last := apps[..|apps| - 1], apps[|apps| - 1];
    assert apps == front + [last];
    LastClaimSplits(front, last, c, i);
    if !Claims(last, c) {
      if c in RouteCodes(last) {
        RouteCodesAreClaimed(last, c);
      }
      LastClaimDecides(front, c, row, i);
    }
  }

  lemma {:induction false} ClaimedHasLast(apps: seq<App>, c: Code) returns (i: int)
    requires Claimed(apps, c)
    ensures LastClaim(apps, i, c)
  {
    var front, last := apps[..|apps| - 1], apps[|apps| - 1];
    if Claims(last, c) {
      i := |apps| - 1;
    } else {
      var j :| 0 <= j < |apps| && Claims(apps[j], c);
      assert front[j] == apps[j];
      i := ClaimedHasLast(front, c);
      assert apps[i] == front[i];
    }
  }

  lemma NoRowIsLost(before: Permissions, apps: seq<App>, after: Permissions)
    requires Initialised(before, apps, after)
    ensures before.Keys <= after.Keys
    ensures forall c :: c in after ==> c in before || Routed(apps, c)
  {
    forall c ensures c in before ==> c in after
             ensures c in after ==> c in before || Routed(apps, c) {
      RowAppearsForRoutes(apps, c, RowIn(before, c));
      assert RowIn(after, c) == RowAfterAll(apps, c, RowIn(before, c));
    }
  }

  // -------------------------------------------------- the promised agreement

  function ActiveCodes(table: Permissions): set<Code> {
    set c | c in table && !table[c].deprecated
  }

  /** The active codes the apps claim are exactly the codes of their routes. */
  ghost predicate ActiveIsRouted(after: Permissions, apps: seq<App>) {
    forall c :: c in ActiveCodes(after) && Claimed(apps, c) <==> Routed(apps, c)
  }

  /** No later app claims a route code it does not serve itself. */
  ghost predicate ClaimsAreServed(apps: seq<App>) {
    forall c, i :: Routed(apps, c) && LastClaim(apps, i, c) ==> c in RouteCodes(apps[i])
  }

  lemma RoutedIsClaimed(apps: seq<App>, c: Code)
    requires Routed(apps, c)
    ensures Claimed(apps, c)
  {
    var i :| 0 <= i < |apps| && c in RouteCodes(apps[i]);
    RouteCodesAreClaimed(apps[i], c);
  }

  /** Agreement fails exactly when an app processed later claims, by its prefix, a route code it does not serve. */
  lemma ActiveIsRoutedIffClaimsAreServed(before: Permissions, apps: seq<App>, after: Permissions)
    requires Initialised(before, apps, after)
    ensures ActiveIsRouted(after, apps) <==> ClaimsAreServed(apps)
  {
    forall c
      ensures (c in ActiveCodes(after) && Claimed(apps, c) <==> Routed(apps, c)) <==>
              (forall i :: Routed(apps, c) && LastClaim(apps, i, c) ==> c in RouteCodes(apps[i]))
    {
      var row := RowIn(before, c);
      assert RowIn(after, c) == RowAfterAll(apps, c, row);
      RowAppearsForRoutes(apps, c, row);
      if Routed(apps, c) {
        RoutedIsClaimed(apps, c);
      }
      if Claimed(apps, c) {
        var i := ClaimedHasLast(apps, c);
        assert c in RouteCodes(apps[i]) ==> Routed(apps, c);
        if c in after {
          LastClaimDecides(apps, c, row, i);
        }
        forall j | LastClaim(apps, j, c) ensures j == i {
        }
      }
    }
  }

  ghost predicate PrefixFree(apps: seq<App>) {
    forall i, j :: 0 <= i < |apps| && 0 <= j < |apps| && i != j ==> !(apps[i].code <= apps[j].code)
  }

  /** Two prefixes of one text are prefixes of each other. */
  lemma PrefixFreeClaimsOnce(apps: seq<App>, c: Code, i: int, j: int)
    requires PrefixFree(apps) && 0 <= i < |apps| && 0 <= j < |apps|
    requires Claims(apps[i], c) && Claims(apps[j], c)
    ensures i == j
  {
  }

  ghost predicate ServedByOne(apps: seq<App>, c: Code) {
    exists i :: 0 <= i < |apps| && Serves(apps[i], c)
  }

  /** The active codes that start with an app's code are exactly the codes of the apps' guarded endpoints. */
  ghost predicate ActiveIsServed(after: Permissions, apps: seq<App>) {
    forall c :: (c in after && !after[c].deprecated && exists i :: 0 <= i < |apps| && apps[i].code <= c) <==> ServedByOne(apps, c)
  }

  lemma RoutedIsServed(apps: seq<App>, c: Code)
    requires forall i :: 0 <= i < |apps| ==> PlainMethods(apps[i].routes)
    ensures Routed(apps, c) <==> ServedByOne(apps, c)
  {
    if Routed(apps, c) {
      var i :| 0 <= i < |apps| && c in RouteCodes(apps[i]);
      RouteCodesMeaning(apps[i], c);
    }
    if ServedByOne(apps, c) {
      var i :| 0 <= i < |apps| && Serves(apps[i], c);
      RouteCodesMeaning(apps[i], c);
    }
  }

  /** When no app code is a prefix of another, the active codes are the route codes, and so the codes of the guarded endpoints. */
  lemma PrefixFreeAppsAgree(before: Permissions, apps: seq<App>, after: Permissions)
    requires Initialised(before, apps, after) && PrefixFree(apps)
    ensures ActiveIsRouted(after, apps)
    ensures (forall i :: 0 <= i < |apps| ==> PlainMethods(apps[i].routes)) ==> ActiveIsServed(after, apps)
  {
    PrefixFreeActiveIsRouted(before, apps, after);
    if forall i :: 0 <= i < |apps| ==> PlainMethods(apps[i].routes) {
      forall c ensures (c in after && !after[c].deprecated && exists i :: 0 <= i < |apps| && apps[i].code <= c) <==> ServedByOne(apps, c) {
        RoutedIsServed(apps, c);
        assert Claimed(apps, c) <==> exists i :: 0 <= i < |apps| && apps[i].code <= c by {
          if Claimed(apps, c) {
            var i :| 0 <= i < |apps| && Claims(apps[i], c);
            assert apps[i].code <= c;
          }
          if i :| 0 <= i < |apps| && apps[i].code <= c {
            assert Claims(apps[i], c);
          }
        }
      }
    }
  }

  lemma PrefixFreeActiveIsRouted(before: Permissions, apps: seq<App>, after: Permissions)
    requires Initialised(before, apps, after) && PrefixFree(apps)
    ensures ActiveIsRouted(after, apps)
  {
    forall c, i | Routed(apps, c) && LastClaim(apps, i, c) ensures c in RouteCodes(apps[i]) {
      var j :| 0 <= j < |apps| && c in RouteCodes(apps[j]);
      RouteCodesAreClaimed(apps[j], c);
      PrefixFreeClaimsOnce(apps, c, i, j);
    }
    ActiveIsRoutedIffClaimsAreServed(before, apps, after);
  }

  const OPEN := Http("/x", "x", ["GET"], Some([TokenRequired]))
  const CENTER := App("UserCenter", [OPEN])

  lemma CenterServes()
    ensures "UserCenter:GET:/x" in RouteCodes(CENTER)
  {
    var u := Uri("GET", "/x", "x");
    assert Joined([OPEN]) == "/x" + Joined([]) == "/x" && "" + "/x" == "/x";
    assert MethodUris(["GET"], "/x", "x") == [u] + MethodUris([], "/x", "x") == [u];
    assert Flatten([OPEN], "", FilterUri) == [u] + Flatten([], "", FilterUri) == [u];
    assert FullPath([u][0]) !in Keys([]) && [u][1..] == [] && [] + [u] == [u];
    assert AllUris([OPEN], FilterUri) == Dedup([], [u]) == Dedup([u], []) == [u];
    LabelsAreClaimed(CENTER, Uris(CENTER));
    assert CodeOf(CENTER, u) == "UserCenter:GET:/x";
  }

  /** An app named by a prefix of another, processed after it, deprecates the other's live routes. */
  lemma PrefixedAppLosesRoutes(before: Permissions, after: Permissions)
    requires Initialised(before, [CENTER, App("User", [])], after)
    ensures "UserCenter:GET:/x" in after && after["UserCenter:GET:/x"].deprecated
  {
    var apps, c := [CENTER, App("User", [])], "UserCenter:GET:/x";
    CenterServes();
    assert c in RouteCodes(apps[0]) && Routed(apps, c);
    assert Uris(apps[1]) == [] && RouteCodes(apps[1]) == {};
    assert LastClaim(apps, 1, c);
    assert RowIn(after, c) == RowAfterAll(apps, c, RowIn(before, c));
    RowAppearsForRoutes(apps, c, RowIn(before, c));
    LastClaimDecides(apps, c, RowIn(before, c), 1);
  }

  // ----------------------------------------------- order and repetition

  /** Under prefix-free codes only the one app claiming `c` touches its row. */
  lemma {:induction false} OneClaimActs(apps: seq<App>, c: Code, row: Option<PermissionRow>, i: int)
    requires PrefixFree(apps) && 0 <= i < |apps| && Claims(apps[i], c)
    ensures RowAfterAll(apps, c, row) == RowAfter(apps[i], c, row)
  {
    var front, last := apps[..|apps| - 1], apps[|apps| - 1];
    if i < |front| {
      assert front[i] == apps[i];
      assert PrefixFree(front);
      OneClaimActs(front, c, row, i);
      if Claims(last, c) { PrefixFreeClaimsOnce(apps, c, i, |apps| - 1); }
      if c in RouteCodes(last) { RouteCodesAreClaimed(last, c); }
    } else {
      forall j | 0 <= j < |front| ensures !Claims(front[j], c) {
        if Claims(front[j], c) { PrefixFreeClaimsOnce(apps, c, i, j); }
      }
      RowAppearsForRoutes(front, c, row);
    }
  }

  /**
   Row by row, when no app code is a prefix of another: a code that starts with an app's
   code becomes active if the app serves it, keeps its label and becomes deprecated if
   not, and is not created; a code that starts with no app's code is left alone.
   */
  lemma EveryRowAfterwards(before: Permissions, apps: seq<App>, after: Permissions, c: Code)
    requires Initialised(before, apps, after) && PrefixFree(apps)
    requires forall i :: 0 <= i < |apps| ==> PlainMethods(apps[i].routes)
    ensures forall i :: 0 <= i < |apps| && apps[i].code <= c ==>
              if Serves(apps[i], c) then c in after && !after[c].deprecated
              else (c in after <==> c in before) && (c in before ==> after[c] == PermissionRow(before[c].name, true))
    ensures (forall i :: 0 <= i < |apps| ==> !(apps[i].code <= c)) ==> (c in after <==> c in before) && (c in before ==> after[c] == before[c])
  {
    assert RowIn(after, c) == RowAfterAll(apps, c, RowIn(before, c));
    forall i | 0 <= i < |apps| && apps[i].code <= c
      ensures if Serves(apps[i], c) then c in after && !after[c].deprecated
              else (c in after <==> c in before) && (c in before ==> after[c] == PermissionRow(before[c].name, true))
    {
      OneClaimActs(apps, c, RowIn(before, c), i);
      RouteCodesMeaning(apps[i], c);
    }
    if forall i :: 0 <= i < |apps| ==> !(apps[i].code <= c) {
      RowAppearsForRoutes(apps, c, RowIn(before, c));
    }
  }

  /** A served endpoint's row carries the name of the first endpoint of its method and path. */
  lemma ServedRowIsLabelled(before: Permissions, apps: seq<App>, after: Permissions, i: int, u: Uri)
    requires Initialised(before, apps, after) && PrefixFree(apps) && 0 <= i < |apps|
    requires IsFirst(Flatten(apps[i].routes, "", FilterUri), u) && u.verb != ""
    ensures var c := apps[i].code + ":" + u.verb + ":" + u.path;
            c in after && after[c] == PermissionRow(u.name, false)
  {
    var c := CodeOf(apps[i], u);
    AllUrisMeaning(apps[i].routes, FilterUri, u);
    RouteLabelsMeaning(apps[i]);
    RouteCodesAreClaimed(apps[i], c);
    OneClaimActs(apps, c, RowIn(before, c), i);
    assert RowIn(after, c) == RowAfterAll(apps, c, RowIn(before, c));
  }

  /** The mount order does not matter when no app code is a prefix of another. */
  lemma OrderDoesNotMatter(before: Permissions, apps: seq<App>, after: Permissions, apps': seq<App>, after': Permissions)
    requires Initialised(before, apps, after) && Initialised(before, apps', after')
    requires PrefixFree(apps) && PrefixFree(apps') && forall a :: a in apps <==> a in apps'
    ensures after == after'
  {
    forall c ensures RowIn(after, c) == RowIn(after', c) {
      var row := RowIn(before, c);
      assert RowIn(after, c) == RowAfterAll(apps, c, row) && RowIn(after', c) == RowAfterAll(apps', c, row);
      RowAppearsForRoutes(apps, c, row);
      RowAppearsForRoutes(apps', c, row);
      if i :| 0 <= i < |apps| && Claims(apps[i], c) {
        assert apps[i] in apps';
        var j :| 0 <= j < |apps'| && apps'[j] == apps[i];
        OneClaimActs(apps, c, row, i);
        OneClaimActs(apps', c, row, j);
      } else if j :| 0 <= j < |apps'| && Claims(apps'[j], c) {
        assert apps'[j] in apps;
      }
    }
    SameRowsSameTable(after, after');
  }

  lemma SameRowsSameTable(a: Permissions, b: Permissions)
    requires forall c :: RowIn(a, c) == RowIn(b, c)
    ensures a == b
  {
    assert forall c :: c in a ==> RowIn(a, c) == Some(a[c]) && RowIn(b, c) == RowIn(a, c);
    assert forall c :: c in b ==> RowIn(b, c) == Some(b[c]) && RowIn(b, c) == RowIn(a, c);
    assert a.Keys == b.Keys;
  }

  /** Once some app serves a code its row no longer depends on the old one; otherwise a claim only marks it. */
  lemma {:induction false} RowAfterAllForm(apps: seq<App>, c: Code, row: Option<PermissionRow>)
    ensures Routed(apps, c) ==> forall other :: RowAfterAll(apps, c, other) == RowAfterAll(apps, c, row)
    ensures !Routed(apps, c) && row.Some? ==>
              RowAfterAll(apps, c, row) == Some(row.value.(deprecated := row.value.deprecated || Claimed(apps, c)))
    ensures !Routed(apps, c) && row.None? ==> RowAfterAll(apps, c, row) == None
  {
    if apps != [] {
      var front, last := apps[..|apps| - 1], apps[|apps| - 1];
      assert apps == front + [last];
      RowAfterAllForm(front, c, row);
      RoutedSplits(front, last, c);
    }
  }

  /** A second run changes nothing. */
  lemma SecondRunChangesNothing(before: Permissions, apps: seq<App>, once: Permissions, twice: Permissions)
    requires Initialised(before, apps, once) && Initialised(once, apps, twice)
    ensures twice == once
  {
    forall c ensures RowIn(once, c) == RowIn(twice, c) {
      var row := RowIn(before, c);
      assert RowIn(once, c) == RowAfterAll(apps, c, row);
      assert RowIn(twice, c) == RowAfterAll(apps, c, RowIn(once, c));
      RowAfterAllForm(apps, c, row);
      RowAfterAllForm(apps, c, RowIn(once, c));
    }
    SameRowsSameTable(once, twice);
  }
}
