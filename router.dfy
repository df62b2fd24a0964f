/** The web front end's route table: the paths the single-page app knows,
    the view each shows, and the one redirect. */
module Router {
  import opened Wrappers

  /** The view components the table refers to. */
  datatype View = NetworkConfig | NFTRules | Rules | TestMode | Logs

  /** A route record: a redirect, or a named route showing a view. */
  datatype RouteRecord =
    | Redirect(path: string, target: string)
    | Named(path: string, name: string, component: View)

  const Routes: seq<RouteRecord> := [
    Redirect("/", "/network"),
    Named("/network", "Network", NetworkConfig),
    Named("/nftrules", "NFTRules", NFTRules),
    Named("/rules", "Rules", Rules),
    Named("/test", "Test", TestMode),
    Named("/logs", "Logs", Logs)
  ]

  /** The first record of `routes` for `path`, if any. */
  function Match(routes: seq<RouteRecord>, path: string): (r: Option<RouteRecord>)
    ensures r.Some? ==> r.value in routes && r.value.path == path
    ensures r.None? <==> forall i :: 0 <= i < |routes| ==> routes[i].path != path
  {
    if routes == [] then None
    else if routes[0].path == path then Some(routes[0])
    else
      var rest := Match(routes[1..], path);
      assert forall i :: 1 <= i < |routes| ==> routes[i] == routes[1..][i - 1];
      rest
  }

  /** The view a path shows: a named route directly, a redirect through its
      target. A redirect whose target is not a named route shows nothing. */
  function Resolve(path: string): Option<View> {
    match Match(Routes, path)
    case None => None
    case Some(Named(_, _, view)) => Some(view)
    case Some(Redirect(_, target)) =>
      (match Match(Routes, target)
       case Some(Named(_, _, view)) => Some(view)
       case _ => None)
  }

  /** The first named record of `routes` called `name`, if any. */
  function ByName(routes: seq<RouteRecord>, name: string): (r: Option<RouteRecord>)
    ensures r.Some? ==> r.value in routes && r.value.Named? && r.value.name == name
    ensures r.None? <==> forall i :: 0 <= i < |routes| && routes[i].Named? ==> routes[i].name != name
  {
    if routes == [] then None
    else if routes[0].Named? && routes[0].name == name then Some(routes[0])
    else
      var rest := ByName(routes[1..], name);
      assert forall i :: 1 <= i < |routes| ==> routes[i] == routes[1..][i - 1];
      rest
  }

  /** `router.push({ name })`: the path of the route of that name. */
  function PathOfName(name: string): Option<string> {
    match ByName(Routes, name)
    case Some(r) => Some(r.path)
    case None => None
  }

  /** The paths the table declares. */
  function Paths(): set<string> {
    set i | 0 <= i < |Routes| :: Routes[i].path
  }

  /** The root redirects to the network page. */
  lemma RootShowsNetwork()
    ensures Match(Routes, "/") == Some(Redirect("/", "/network"))
    ensures Resolve("/") == Some(NetworkConfig)
  {
  }

  /** Each named route shows its own view. */
  lemma NamedRoutesShowTheirViews()
    ensures Resolve("/network") == Some(NetworkConfig)
    ensures Resolve("/nftrules") == Some(NFTRules)
    ensures Resolve("/rules") == Some(Rules)
    ensures Resolve("/test") == Some(TestMode)
    ensures Resolve("/logs") == Some(Logs)
  {
    MatchDeclared(1);
    MatchDeclared(2);
    MatchDeclared(3);
    MatchDeclared(4);
    MatchDeclared(5);
  }

  /** A declared path shows a view. */
  lemma DeclaredResolves(k: nat)
    requires k < |Routes|
    ensures Resolve(Routes[k].path).Some?
  {
    MatchDeclared(k);
    if k == 0 {
      MatchDeclared(1);
    }
  }

  /** A declared path matches its own record. */
  lemma MatchDeclared(k: nat)
    requires k < |Routes|
    ensures Match(Routes, Routes[k].path) == Some(Routes[k])
  {
    PathsAndNamesDistinct();
    var m := Match(Routes, Routes[k].path);
    var j :| 0 <= j < |Routes| && Routes[j] == m.value;
    assert j == k;
  }

  /** No two records share a path, and no two named routes share a name. */
  lemma PathsAndNamesDistinct()
    ensures forall i, j :: 0 <= i < j < |Routes| ==> Routes[i].path != Routes[j].path
    ensures forall i, j :: 0 <= i < j < |Routes| && Routes[i].Named? && Routes[j].Named? ==> Routes[i].name != Routes[j].name
  {
  }

  /** Every redirect lands on a named route, so resolving follows at most
      one redirect. */
  lemma RedirectsLandOnNamedRoutes()
    ensures forall i :: 0 <= i < |Routes| && Routes[i].Redirect? ==>
      Match(Routes, Routes[i].target).Some? && Match(Routes, Routes[i].target).value.Named?
  {
    forall i | 0 <= i < |Routes| && Routes[i].Redirect?
      ensures Match(Routes, Routes[i].target).Some? && Match(Routes, Routes[i].target).value.Named?
    {
      assert i == 0;
      MatchDeclared(1);
    }
  }

  /** There is no catch-all record: exactly the declared paths show a view. */
  lemma OnlyDeclaredPathsResolve(path: string)
    ensures Resolve(path).Some? <==> path in Paths()
  {
    if path in Paths() {
      var i :| 0 <= i < |Routes| && Routes[i].path == path;
      DeclaredResolves(i);
    } else {
      forall i | 0 <= i < |Routes| ensures Routes[i].path != path {
        assert Routes[i].path in Paths();
      }
      assert Match(Routes, path).None?;
    }
  }

  /** Pushing a route by name reaches the record of that name, which shows
      its view. */
  lemma NamesResolve(name: string)
    requires PathOfName(name).Some?
    ensures Match(Routes, PathOfName(name).value) == ByName(Routes, name)
    ensures Resolve(PathOfName(name).value) == Some(ByName(Routes, name).value.component)
  {
    PathsAndNamesDistinct();
    var r := ByName(Routes, name).value;
    var i :| 0 <= i < |Routes| && Routes[i] == r;
    var m := Match(Routes, r.path).value;
    var j :| 0 <= j < |Routes| && Routes[j] == m;
    assert i == j;
  }
}
