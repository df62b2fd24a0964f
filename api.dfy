/** The web front end's HTTP client: its configuration, the request each
    client operation issues, and the server's route table those requests
    must reach. */
module Api {
  import opened Wrappers
  import opened GoText

  // ---------------------------------------------------------------------------
  // Client configuration
  // ---------------------------------------------------------------------------

  const DefaultBaseUrl: string := "/api"
  const TimeoutMillis: nat := 10000

  datatype ClientConfig = ClientConfig(baseUrl: string, timeout: nat)

  /** The client instance: the build-time base URL when it is set and
      non-empty (a truthy string), else the default; a fixed timeout. */
  function Config(envBaseUrl: Option<string>): (c: ClientConfig)
    ensures c.timeout == TimeoutMillis
    ensures envBaseUrl.Some? && envBaseUrl.value != "" ==> c.baseUrl == envBaseUrl.value
    ensures envBaseUrl.None? || envBaseUrl.value == "" ==> c.baseUrl == DefaultBaseUrl
    ensures c.baseUrl != ""
  {
    match envBaseUrl
    case Some(u) => if u != "" then ClientConfig(u, TimeoutMillis) else ClientConfig(DefaultBaseUrl, TimeoutMillis)
    case None => ClientConfig(DefaultBaseUrl, TimeoutMillis)
  }

  /** How a relative request URL is placed under the base URL: up to two
      trailing slashes of the base and every leading slash of the relative
      URL give way to a single slash. */
  function CombineUrls(base: string, relative: string): string {
    if relative == [] then base
    else DropTrailingSlashes(base) + ['/'] + DropLeadingSlashes(relative)
  }

  function DropTrailingSlashes(s: string): string {
    if |s| >= 2 && s[|s| - 2..] == "//" then s[..|s| - 2]
    else if |s| >= 1 && s[|s| - 1] == '/' then s[..|s| - 1]
    else s
  }

  function DropLeadingSlashes(s: string): (r: string)
    ensures r == [] || r[0] != '/'
    ensures |r| <= |s| && r == s[|s| - |r|..]
  {
    if s != [] && s[0] == '/' then DropLeadingSlashes(s[1..]) else s
  }

  // ---------------------------------------------------------------------------
  // Requests
  // ---------------------------------------------------------------------------

  datatype HttpMethod = GET | POST | PUT | DELETE

  /** A request as the client issues it: method, URL relative to the base,
      query parameters, and whether a body is sent. */
  datatype Request = Request(verb: HttpMethod, path: string, query: seq<(string, string)>, hasBody: bool)

  /** The client operations, with the arguments that reach the URL. A body
      argument (`data`) is not modelled beyond its presence. */
  datatype Call =
    | ListInterfaces | GetInterface(name: string) | ConfigureVlan | GetVlanConfig(interfaceName: string)
    | AddVlanIp | RemoveVlanIp(interfaceName: string) | SetInterfaceStatus
    | ListFields | GetField(id: string) | CreateField | UpdateField(id: string) | DeleteField(id: string)
    | ListRules | GetRule(id: string) | CreateRule | UpdateRule(id: string) | DeleteRule(id: string)
    | ToggleRule(id: string)
    | ListNftRules | GetNftRule(id: string) | CreateNftRule | UpdateNftRule(id: string)
    | DeleteNftRule(id: string) | ToggleNftRule(id: string) | ApplyNftRules
    | TestRule
    | ListLogs(params: seq<(string, string)>) | GetLog(id: string) | ClearLogs(days: string)

  function Get(path: string): Request { Request(GET, path, [], false) }
  function Post(path: string): Request { Request(POST, path, [], true) }
  function PostEmpty(path: string): Request { Request(POST, path, [], false) }
  function Put(path: string): Request { Request(PUT, path, [], true) }
  function Delete(path: string): Request { Request(DELETE, path, [], false) }

  /** The request each client operation issues. */
  function RequestOf(c: Call): Request {
    match c
    case ListInterfaces => Get("/interfaces")
    case GetInterface(name) => Get("/interfaces/" + name)
    case ConfigureVlan => Post("/vlan")
    case GetVlanConfig(n) => Get("/vlan/" + n)
    case AddVlanIp => Post("/vlan/ip")
    case RemoveVlanIp(n) => Delete("/vlan/ip/" + n)
    case SetInterfaceStatus => Post("/interface/status")
    case ListFields => Get("/fields")
    case GetField(id) => Get("/fields/" + id)
    case CreateField => Post("/fields")
    case UpdateField(id) => Put("/fields/" + id)
    case DeleteField(id) => Delete("/fields/" + id)
    case ListRules => Get("/rules")
    case GetRule(id) => Get("/rules/" + id)
    case CreateRule => Post("/rules")
    case UpdateRule(id) => Put("/rules/" + id)
    case DeleteRule(id) => Delete("/rules/" + id)
    case ToggleRule(id) => PostEmpty("/rules/" + id + "/toggle")
    case ListNftRules => Get("/nftrules")
    case GetNftRule(id) => Get("/nftrules/" + id)
    case CreateNftRule => Post("/nftrules")
    case UpdateNftRule(id) => Put("/nftrules/" + id)
    case DeleteNftRule(id) => Delete("/nftrules/" + id)
    case ToggleNftRule(id) => PostEmpty("/nftrules/" + id + "/toggle")
    case ApplyNftRules => PostEmpty("/nftrules/apply")
    case TestRule => Post("/test")
    case ListLogs(params) => Request(GET, "/logs", params, false)
    case GetLog(id) => Get("/logs/" + id)
    case ClearLogs(days) => Request(DELETE, "/logs", [("days", days)], false)
  }

  /** The identifier or interface name a call puts into its URL, if any. */
  function Arg(c: Call): Option<string> {
    match c
    case GetInterface(n) => Some(n)
    case GetVlanConfig(n) => Some(n)
    case RemoveVlanIp(n) => Some(n)
    case GetField(id) => Some(id)
    case UpdateField(id) => Some(id)
    case DeleteField(id) => Some(id)
    case GetRule(id) => Some(id)
    case UpdateRule(id) => Some(id)
    case DeleteRule(id) => Some(id)
    case ToggleRule(id) => Some(id)
    case GetNftRule(id) => Some(id)
    case UpdateNftRule(id) => Some(id)
    case DeleteNftRule(id) => Some(id)
    case ToggleNftRule(id) => Some(id)
    case GetLog(id) => Some(id)
    case _ => None
  }

  /** An argument fits in one path segment: non-empty and slash-free. */
  predicate Plain(c: Call) {
    Arg(c).Some? ==> Arg(c).value != "" && '/' !in Arg(c).value
  }

  /** The resource-table operations grouped by what they do. */
  datatype Kind = List | Read | Create | Update | Remove | Toggle | Other

  function KindOf(c: Call): Kind {
    match c
    case ListFields => List
    case ListRules => List
    case ListNftRules => List
    case ListLogs(_) => List
    case GetField(_) => Read
    case GetRule(_) => Read
    case GetNftRule(_) => Read
    case GetLog(_) => Read
    case CreateField => Create
    case CreateRule => Create
    case CreateNftRule => Create
    case UpdateField(_) => Update
    case UpdateRule(_) => Update
    case UpdateNftRule(_) => Update
    case DeleteField(_) => Remove
    case DeleteRule(_) => Remove
    case DeleteNftRule(_) => Remove
    case ToggleRule(_) => Toggle
    case ToggleNftRule(_) => Toggle
    case _ => Other
  }

  // ---------------------------------------------------------------------------
  // Server routes
  // ---------------------------------------------------------------------------

  /** The group every server route is registered under. */
  const GroupPrefix: string := "/api"

  /** A server route: method, the segments of its path pattern relative to
      the group (a `:name` segment is a parameter), and the handler it runs. */
  datatype ServerRoute = ServerRoute(verb: HttpMethod, pattern: seq<string>, handler: string)

  const ListInterfacesRoute := ServerRoute(GET, ["interfaces"], "ListInterfaces")
  const GetInterfaceRoute := ServerRoute(GET, ["interfaces", ":name"], "GetInterface")
  const ConfigureVLANRoute := ServerRoute(POST, ["vlan"], "ConfigureVLAN")
  const GetVLANConfigRoute := ServerRoute(GET, ["vlan", ":interface"], "GetVLANConfig")
  const AddVLANIPRoute := ServerRoute(POST, ["vlan", "ip"], "AddVLANIP")
  const RemoveVLANIPRoute := ServerRoute(DELETE, ["vlan", "ip", ":interface"], "RemoveVLANIP")
  const SetInterfaceStatusRoute := ServerRoute(POST, ["interface", "status"], "SetInterfaceStatus")
  const ListFieldsRoute := ServerRoute(GET, ["fields"], "ListFields")
  const GetFieldRoute := ServerRoute(GET, ["fields", ":id"], "GetField")
  const CreateFieldRoute := ServerRoute(POST, ["fields"], "CreateField")
  const UpdateFieldRoute := ServerRoute(PUT, ["fields", ":id"], "UpdateField")
  const DeleteFieldRoute := ServerRoute(DELETE, ["fields", ":id"], "DeleteField")
  const ListRulesRoute := ServerRoute(GET, ["rules"], "ListRules")
  const GetRuleRoute := ServerRoute(GET, ["rules", ":id"], "GetRule")
  const CreateRuleRoute := ServerRoute(POST, ["rules"], "CreateRule")
  const UpdateRuleRoute := ServerRoute(PUT, ["rules", ":id"], "UpdateRule")
  const DeleteRuleRoute := ServerRoute(DELETE, ["rules", ":id"], "DeleteRule")
  const ToggleRuleRoute := ServerRoute(POST, ["rules", ":id", "toggle"], "ToggleRule")
  const ListNFTRulesRoute := ServerRoute(GET, ["nftrules"], "ListNFTRules")
  const GetNFTRuleRoute := ServerRoute(GET, ["nftrules", ":id"], "GetNFTRule")
  const CreateNFTRuleRoute := ServerRoute(POST, ["nftrules"], "CreateNFTRule")
  const UpdateNFTRuleRoute := ServerRoute(PUT, ["nftrules", ":id"], "UpdateNFTRule")
  const DeleteNFTRuleRoute := ServerRoute(DELETE, ["nftrules", ":id"], "DeleteNFTRule")
  const ToggleNFTRuleRoute := ServerRoute(POST, ["nftrules", ":id", "toggle"], "ToggleNFTRule")
  const ApplyNFTRulesRoute := ServerRoute(POST, ["nftrules", "apply"], "ApplyNFTRulesAPI")
  const TestRuleRoute := ServerRoute(POST, ["test"], "TestRule")
  const ListLogsRoute := ServerRoute(GET, ["logs"], "ListLogs")
  const GetLogRoute := ServerRoute(GET, ["logs", ":id"], "GetLog")
  const ClearLogsRoute := ServerRoute(DELETE, ["logs"], "ClearLogs")

  /** The routes in registration order. */
  const ServerRoutes: seq<ServerRoute> := [
    ListInterfacesRoute,
    GetInterfaceRoute,
    ConfigureVLANRoute,
    GetVLANConfigRoute,
    AddVLANIPRoute,
    RemoveVLANIPRoute,
    SetInterfaceStatusRoute,
    ListFieldsRoute,
    GetFieldRoute,
    CreateFieldRoute,
    UpdateFieldRoute,
    DeleteFieldRoute,
    ListRulesRoute,
    GetRuleRoute,
    CreateRuleRoute,
    UpdateRuleRoute,
    DeleteRuleRoute,
    ToggleRuleRoute,
    ListNFTRulesRoute,
    GetNFTRuleRoute,
    CreateNFTRuleRoute,
    UpdateNFTRuleRoute,
    DeleteNFTRuleRoute,
    ToggleNFTRuleRoute,
    ApplyNFTRulesRoute,
    TestRuleRoute,
    ListLogsRoute,
    GetLogRoute,
    ClearLogsRoute
  ]

  /** The handler each client operation is meant to reach. */
  function HandlerOf(c: Call): string {
    match c
    case ListInterfaces => "ListInterfaces"
    case GetInterface(_) => "GetInterface"
    case ConfigureVlan => "ConfigureVLAN"
    case GetVlanConfig(_) => "GetVLANConfig"
    case AddVlanIp => "AddVLANIP"
    case RemoveVlanIp(_) => "RemoveVLANIP"
    case SetInterfaceStatus => "SetInterfaceStatus"
    case ListFields => "ListFields"
    case GetField(_) => "GetField"
    case CreateField => "CreateField"
    case UpdateField(_) => "UpdateField"
    case DeleteField(_) => "DeleteField"
    case ListRules => "ListRules"
    case GetRule(_) => "GetRule"
    case CreateRule => "CreateRule"
    case UpdateRule(_) => "UpdateRule"
    case DeleteRule(_) => "DeleteRule"
    case ToggleRule(_) => "ToggleRule"
    case ListNftRules => "ListNFTRules"
    case GetNftRule(_) => "GetNFTRule"
    case CreateNftRule => "CreateNFTRule"
    case UpdateNftRule(_) => "UpdateNFTRule"
    case DeleteNftRule(_) => "DeleteNFTRule"
    case ToggleNftRule(_) => "ToggleNFTRule"
    case ApplyNftRules => "ApplyNFTRulesAPI"
    case TestRule => "TestRule"
    case ListLogs(_) => "ListLogs"
    case GetLog(_) => "GetLog"
    case ClearLogs(_) => "ClearLogs"
  }

  /** The segments of a path that starts with a slash. */
  function Segments(path: string): seq<string> {
    if path != [] && path[0] == '/' then Split(path[1..], '/') else Split(path, '/')
  }

  /** The path whose segments are `segs`. */
  function PathOf(segs: seq<string>): string {
    ['/'] + Join(segs, '/')
  }

  predicate IsParam(seg: string) {
    seg != [] && seg[0] == ':'
  }

  /** A pattern segment matches a path segment: a parameter matches any
      non-empty segment, a literal only itself. */
  predicate SegmentMatches(pattern: string, seg: string) {
    if IsParam(pattern) then seg != [] else pattern == seg
  }

  /** Path segments `segs` fill the pattern `ps`: one slash-free segment per
      pattern segment, each matching it. */
  predicate Fits(ps: seq<string>, segs: seq<string>) {
    |ps| == |segs| && forall i :: 0 <= i < |ps| ==> '/' !in segs[i] && SegmentMatches(ps[i], segs[i])
  }

  /** A path fills a pattern when it is made of segments that fill it. */
  ghost predicate Fills(ps: seq<string>, path: string) {
    exists segs :: Fits(ps, segs) && PathOf(segs) == path
  }

  /** The router's matcher: split the path at its slashes and compare
      segment by segment. */
  predicate PathMatches(ps: seq<string>, path: string) {
    Fits(ps, Segments(path))
  }

  ghost predicate Serves(r: ServerRoute, req: Request) {
    r.verb == req.verb && Fills(r.pattern, req.path)
  }

  /** Route `r` serves the call's request and runs the call's handler. */
  ghost predicate RoutedTo(c: Call, r: ServerRoute) {
    Serves(r, RequestOf(c)) && r.handler == HandlerOf(c)
  }

  // ---------------------------------------------------------------------------
  // Properties
  // ---------------------------------------------------------------------------

  /** A path built from slash-free segments splits back into them. */
  lemma PathSegments(segs: seq<string>)
    requires |segs| >= 1
    requires forall i :: 0 <= i < |segs| ==> '/' !in segs[i]
    ensures Segments(PathOf(segs)) == segs
  {
    assert PathOf(segs)[1..] == Join(segs, '/');
    SplitJoin(segs, '/');
  }

  /** Splitting a path at its slashes matches a pattern exactly when the
      path is built from segments that fill it. */
  lemma MatchesIffFills(ps: seq<string>, path: string)
    requires |ps| >= 1 && path != [] && path[0] == '/'
    ensures PathMatches(ps, path) <==> Fills(ps, path)
  {
    if PathMatches(ps, path) {
      var segs := Segments(path);
      JoinSplit(path[1..], '/');
      assert PathOf(segs) == path;
    }
    if Fills(ps, path) {
      var segs :| Fits(ps, segs) && PathOf(segs) == path;
      PathSegments(segs);
    }
  }

  /** Paths of one, two and three segments. */
  lemma Path1(a: string)
    ensures PathOf([a]) == ['/'] + a
  {
  }

  lemma Path2(a: string, b: string)
    ensures PathOf([a, b]) == ['/'] + a + ['/'] + b
  {
    assert [a, b][1..] == [b];
    assert Join([b], '/') == b;
    assert Join([a, b], '/') == a + ['/'] + b;
  }

  lemma Path3(a: string, b: string, c: string)
    ensures PathOf([a, b, c]) == ['/'] + a + ['/'] + b + ['/'] + c
  {
    assert [a, b, c][1..] == [b, c];
    assert [b, c][1..] == [c];
    assert Join([c], '/') == c;
    assert Join([b, c], '/') == b + ['/'] + c;
    assert Join([a, b, c], '/') == a + ['/'] + (b + ['/'] + c);
  }

  /** The interface and VLAN calls. */
  predicate InterfaceCall(c: Call) {
    c.ListInterfaces? || c.GetInterface? || c.ConfigureVlan? || c.GetVlanConfig? || c.AddVlanIp? || c.RemoveVlanIp? || c.SetInterfaceStatus?
  }

  /** The field calls. */
  predicate FieldCall(c: Call) {
    c.ListFields? || c.GetField? || c.CreateField? || c.UpdateField? || c.DeleteField?
  }

  /** The rule calls. */
  predicate RuleCall(c: Call) {
    c.ListRules? || c.GetRule? || c.CreateRule? || c.UpdateRule? || c.DeleteRule? || c.ToggleRule?
  }

  /** The nftables rule calls. */
  predicate NftRuleCall(c: Call) {
    c.ListNftRules? || c.GetNftRule? || c.CreateNftRule? || c.UpdateNftRule? || c.DeleteNftRule? || c.ToggleNftRule? || c.ApplyNftRules?
  }

  /** Every client path starts with exactly one slash. */
  lemma PathShape(c: Call)
    ensures SlashPath(RequestOf(c).path)
  {
    if InterfaceCall(c) {
      InterfacePathShape(c);
    } else if FieldCall(c) {
      FieldPathShape(c);
    } else if RuleCall(c) {
      RulePathShape(c);
    } else if NftRuleCall(c) {
      NftRulePathShape(c);
    } else {
      OtherPathShape(c);
    }
  }

  /** A path of at least two characters that starts with one slash. */
  predicate SlashPath(p: string) {
    |p| >= 2 && p[0] == '/' && p[1] != '/'
  }

  /** The interface and VLAN calls' paths start with one slash. */
  lemma InterfacePathShape(c: Call)
    requires InterfaceCall(c)
    ensures SlashPath(RequestOf(c).path)
  {
  }

  /** The field calls' paths start with one slash. */
  lemma FieldPathShape(c: Call)
    requires FieldCall(c)
    ensures SlashPath(RequestOf(c).path)
  {
  }

  /** The rule calls' paths start with one slash. */
  lemma RulePathShape(c: Call)
    requires RuleCall(c)
    ensures SlashPath(RequestOf(c).path)
  {
  }

  /** The nftables rule calls' paths start with one slash. */
  lemma NftRulePathShape(c: Call)
    requires NftRuleCall(c)
    ensures SlashPath(RequestOf(c).path)
  {
  }

  /** The test and log calls' paths start with one slash. */
  lemma OtherPathShape(c: Call)
    requires !InterfaceCall(c) && !FieldCall(c) && !RuleCall(c) && !NftRuleCall(c)
    ensures SlashPath(RequestOf(c).path)
  {
  }

  /** Under the default configuration every request goes to the server's
      route group followed by the client path. */
  lemma DefaultBaseReachesGroup(c: Call)
    ensures CombineUrls(Config(None).baseUrl, RequestOf(c).path) == GroupPrefix + RequestOf(c).path
  {
    PathShape(c);
    DefaultBaseJoins(RequestOf(c).path);
  }

  /** The default base URL and a path with one leading slash combine into
      the base followed by the path. */
  lemma DefaultBaseJoins(p: string)
    requires SlashPath(p)
    ensures CombineUrls(DefaultBaseUrl, p) == GroupPrefix + p
  {
    assert DropLeadingSlashes(p[1..]) == p[1..];
    assert DropLeadingSlashes(p) == p[1..];
    assert DropTrailingSlashes(DefaultBaseUrl) == DefaultBaseUrl;
    assert DefaultBaseUrl + ['/'] + p[1..] == DefaultBaseUrl + p;
  }

  /** Reads and lists use GET, creates POST with a body, updates PUT with a
      body, deletes DELETE, and toggles POST to `/toggle` under the record's
      path without a body. */
  lemma KindMethods(c: Call)
    ensures KindOf(c) in {List, Read} ==> RequestOf(c).verb == GET && !RequestOf(c).hasBody
    ensures KindOf(c) == Create ==> RequestOf(c).verb == POST && RequestOf(c).hasBody
    ensures KindOf(c) == Update ==> RequestOf(c).verb == PUT && RequestOf(c).hasBody
    ensures KindOf(c) == Remove ==> RequestOf(c).verb == DELETE && !RequestOf(c).hasBody
    ensures KindOf(c) == Toggle ==>
      RequestOf(c).verb == POST && !RequestOf(c).hasBody && HasSuffix(RequestOf(c).path, "/toggle")
  {
  }

  /** The record operations of a table share one URL, its table's URL
      followed by the record's identifier; a toggle posts below it. */
  lemma FieldPathsAgree(id: string)
    ensures RequestOf(GetField(id)).path == RequestOf(UpdateField(id)).path == RequestOf(DeleteField(id)).path
      == RequestOf(ListFields).path + ['/'] + id
  {
    assert "/fields/" + id == "/fields" + ['/'] + id;
  }

  lemma RulePathsAgree(id: string)
    ensures RequestOf(GetRule(id)).path == RequestOf(UpdateRule(id)).path == RequestOf(DeleteRule(id)).path
      == RequestOf(ListRules).path + ['/'] + id
  {
    assert "/rules/" + id == "/rules" + ['/'] + id;
  }

  lemma NftRulePathsAgree(id: string)
    ensures RequestOf(GetNftRule(id)).path == RequestOf(UpdateNftRule(id)).path == RequestOf(DeleteNftRule(id)).path
      == RequestOf(ListNftRules).path + ['/'] + id
  {
    assert "/nftrules/" + id == "/nftrules" + ['/'] + id;
  }

  lemma TogglePathsBelowRecords(id: string)
    ensures RequestOf(ToggleRule(id)).path == RequestOf(GetRule(id)).path + "/toggle"
    ensures RequestOf(ToggleNftRule(id)).path == RequestOf(GetNftRule(id)).path + "/toggle"
  {
  }

  lemma LogPathsAgree(id: string)
    ensures RequestOf(GetLog(id)).path == RequestOf(ListLogs([])).path + ['/'] + id
  {
    assert "/logs/" + id == "/logs" + ['/'] + id;
  }

  /** Applying the nft rules takes no input and posts to `/nftrules/apply`;
      clearing the logs deletes `/logs` with the age in days as its only
      query parameter. */
  lemma ApplyAndClear(days: string)
    ensures RequestOf(ApplyNftRules) == Request(POST, "/nftrules/apply", [], false)
    ensures RequestOf(ClearLogs(days)).verb == DELETE && RequestOf(ClearLogs(days)).path == "/logs"
    ensures RequestOf(ClearLogs(days)).query == [("days", days)]
    ensures RequestOf(ClearLogs(days)).path == RequestOf(ListLogs([])).path
  {
  }

  /** Two slash-free heads around a slash determine both sides. */
  lemma {:induction false} SplitAtFirstSlash(a: string, b: string, c: string, d: string)
    requires '/' !in a && '/' !in c
    requires a + ['/'] + b == c + ['/'] + d
    ensures a == c && b == d
  {
    if a == [] && c == [] {
      assert b == (a + ['/'] + b)[1..];
      assert d == (c + ['/'] + d)[1..];
    } else if a != [] && c != [] {
      assert a[0] == (a + ['/'] + b)[0] == (c + ['/'] + d)[0] == c[0];
      assert (a + ['/'] + b)[1..] == a[1..] + ['/'] + b;
      assert (c + ['/'] + d)[1..] == c[1..] + ['/'] + d;
      SplitAtFirstSlash(a[1..], b, c[1..], d);
      assert a == [a[0]] + a[1..];
      assert c == [c[0]] + c[1..];
    } else {
      FirstChar(a, b);
      FirstChar(c, d);
    }
  }

  lemma TogglePath(table: string, id: string)
    ensures (['/'] + table + ['/']) + id + (['/'] + "toggle") == ['/'] + table + ['/'] + id + ['/'] + "toggle"
  {
  }

  lemma FirstChar(x: string, y: string)
    ensures (x + ['/'] + y)[0] == if x == [] then '/' else x[0]
  {
  }

  /** An argument holding a slash does not fill a record route's parameter:
      the route a record call is meant for does not serve it. */
  lemma SlashedArgNotServed(table: string, id: string)
    requires '/' !in table && '/' in id
    ensures !Fills([table, ":id"], ['/'] + table + ['/'] + id)
  {
    if Fills([table, ":id"], ['/'] + table + ['/'] + id) {
      var segs :| Fits([table, ":id"], segs) && PathOf(segs) == ['/'] + table + ['/'] + id;
      assert segs == [segs[0], segs[1]];
      Path2(segs[0], segs[1]);
      assert (['/'] + segs[0] + ['/'] + segs[1])[1..] == segs[0] + ['/'] + segs[1];
      assert (['/'] + table + ['/'] + id)[1..] == table + ['/'] + id;
      SplitAtFirstSlash(segs[0], segs[1], table, id);
    }
  }

  // Each client operation, the route that serves it, and the handler it
  // reaches (the routes are numbered in registration order).

  lemma ListInterfacesServed()
    ensures RoutedTo(ListInterfaces, ServerRoutes[0])
  {
    assert ServerRoutes[0] == ListInterfacesRoute;
    Path1("interfaces");
    assert "/interfaces" == ['/'] + "interfaces";
    assert PathOf(["interfaces"]) == RequestOf(ListInterfaces).path;
    assert Fits(ListInterfacesRoute.pattern, ["interfaces"]);
  }

  lemma GetInterfaceServed(n: string)
    requires n != "" && '/' !in n
    ensures RoutedTo(GetInterface(n), ServerRoutes[1])
  {
    assert ServerRoutes[1] == GetInterfaceRoute;
    Path2("interfaces", n);
    assert "/interfaces/" + n == ['/'] + "interfaces" + ['/'] + n;
    assert PathOf(["interfaces", n]) == RequestOf(GetInterface(n)).path;
    assert Fits(GetInterfaceRoute.pattern, ["interfaces", n]);
  }

  lemma ConfigureVlanServed()
    ensures RoutedTo(ConfigureVlan, ServerRoutes[2])
  {
    assert ServerRoutes[2] == ConfigureVLANRoute;
    Path1("vlan");
    assert "/vlan" == ['/'] + "vlan";
    assert PathOf(["vlan"]) == RequestOf(ConfigureVlan).path;
    assert Fits(ConfigureVLANRoute.pattern, ["vlan"]);
  }

  lemma GetVlanConfigServed(n: string)
    requires n != "" && '/' !in n
    ensures RoutedTo(GetVlanConfig(n), ServerRoutes[3])
  {
    assert ServerRoutes[3] == GetVLANConfigRoute;
    Path2("vlan", n);
    assert "/vlan/" + n == ['/'] + "vlan" + ['/'] + n;
    assert PathOf(["vlan", n]) == RequestOf(GetVlanConfig(n)).path;
    assert Fits(GetVLANConfigRoute.pattern, ["vlan", n]);
  }

  lemma AddVlanIpServed()
    ensures RoutedTo(AddVlanIp, ServerRoutes[4])
  {
    assert ServerRoutes[4] == AddVLANIPRoute;
    Path2("vlan", "ip");
    assert "/vlan/ip" == ['/'] + "vlan" + ['/'] + "ip";
    assert PathOf(["vlan", "ip"]) == RequestOf(AddVlanIp).path;
    assert Fits(AddVLANIPRoute.pattern, ["vlan", "ip"]);
  }

  lemma RemoveVlanIpServed(n: string)
    requires n != "" && '/' !in n
    ensures RoutedTo(RemoveVlanIp(n), ServerRoutes[5])
  {
    assert ServerRoutes[5] == RemoveVLANIPRoute;
    Path3("vlan", "ip", n);
    assert "/vlan/ip/" + n == ['/'] + "vlan" + ['/'] + "ip" + ['/'] + n;
    assert PathOf(["vlan", "ip", n]) == RequestOf(RemoveVlanIp(n)).path;
    assert Fits(RemoveVLANIPRoute.pattern, ["vlan", "ip", n]);
  }

  lemma SetInterfaceStatusServed()
    ensures RoutedTo(SetInterfaceStatus, ServerRoutes[6])
  {
    assert ServerRoutes[6] == SetInterfaceStatusRoute;
    Path2("interface", "status");
    assert "/interface/status" == ['/'] + "interface" + ['/'] + "status";
    assert PathOf(["interface", "status"]) == RequestOf(SetInterfaceStatus).path;
    assert Fits(SetInterfaceStatusRoute.pattern, ["interface", "status"]);
  }

  lemma ListFieldsServed()
    ensures RoutedTo(ListFields, ServerRoutes[7])
  {
    assert ServerRoutes[7] == ListFieldsRoute;
    Path1("fields");
    assert "/fields" == ['/'] + "fields";
    assert PathOf(["fields"]) == RequestOf(ListFields).path;
    assert Fits(ListFieldsRoute.pattern, ["fields"]);
  }

  lemma GetFieldServed(id: string)
    requires id != "" && '/' !in id
    ensures RoutedTo(GetField(id), ServerRoutes[8])
  {
    assert ServerRoutes[8] == GetFieldRoute;
    Path2("fields", id);
    assert "/fields/" + id == ['/'] + "fields" + ['/'] + id;
    assert PathOf(["fields", id]) == RequestOf(GetField(id)).path;
    assert Fits(GetFieldRoute.pattern, ["fields", id]);
  }

  lemma CreateFieldServed()
    ensures RoutedTo(CreateField, ServerRoutes[9])
  {
    assert ServerRoutes[9] == CreateFieldRoute;
    Path1("fields");
    assert "/fields" == ['/'] + "fields";
    assert PathOf(["fields"]) == RequestOf(CreateField).path;
    assert Fits(CreateFieldRoute.pattern, ["fields"]);
  }

  lemma UpdateFieldServed(id: string)
    requires id != "" && '/' !in id
    ensures RoutedTo(UpdateField(id), ServerRoutes[10])
  {
    assert ServerRoutes[10] == UpdateFieldRoute;
    Path2("fields", id);
    assert "/fields/" + id == ['/'] + "fields" + ['/'] + id;
    assert PathOf(["fields", id]) == RequestOf(UpdateField(id)).path;
    assert Fits(UpdateFieldRoute.pattern, ["fields", id]);
  }

  lemma DeleteFieldServed(id: string)
    requires id != "" && '/' !in id
    ensures RoutedTo(DeleteField(id), ServerRoutes[11])
  {
    assert ServerRoutes[11] == DeleteFieldRoute;
    Path2("fields", id);
    assert "/fields/" + id == ['/'] + "fields" + ['/'] + id;
    assert PathOf(["fields", id]) == RequestOf(DeleteField(id)).path;
    assert Fits(DeleteFieldRoute.pattern, ["fields", id]);
  }

  lemma ListRulesServed()
    ensures RoutedTo(ListRules, ServerRoutes[12])
  {
    assert ServerRoutes[12] == ListRulesRoute;
    Path1("rules");
    assert "/rules" == ['/'] + "rules";
    assert PathOf(["rules"]) == RequestOf(ListRules).path;
    assert Fits(ListRulesRoute.pattern, ["rules"]);
  }

  lemma GetRuleServed(id: string)
    requires id != "" && '/' !in id
    ensures RoutedTo(GetRule(id), ServerRoutes[13])
  {
    assert ServerRoutes[13] == GetRuleRoute;
    Path2("rules", id);
    assert "/rules/" + id == ['/'] + "rules" + ['/'] + id;
    assert PathOf(["rules", id]) == RequestOf(GetRule(id)).path;
    assert Fits(GetRuleRoute.pattern, ["rules", id]);
  }

  lemma CreateRuleServed()
    ensures RoutedTo(CreateRule, ServerRoutes[14])
  {
    assert ServerRoutes[14] == CreateRuleRoute;
    Path1("rules");
    assert "/rules" == ['/'] + "rules";
    assert PathOf(["rules"]) == RequestOf(CreateRule).path;
    assert Fits(CreateRuleRoute.pattern, ["rules"]);
  }

  lemma UpdateRuleServed(id: string)
    requires id != "" && '/' !in id
    ensures RoutedTo(UpdateRule(id), ServerRoutes[15])
  {
    assert ServerRoutes[15] == UpdateRuleRoute;
    Path2("rules", id);
    assert "/rules/" + id == ['/'] + "rules" + ['/'] + id;
    assert PathOf(["rules", id]) == RequestOf(UpdateRule(id)).path;
    assert Fits(UpdateRuleRoute.pattern, ["rules", id]);
  }

  lemma DeleteRuleServed(id: string)
    requires id != "" && '/' !in id
    ensures RoutedTo(DeleteRule(id), ServerRoutes[16])
  {
    assert ServerRoutes[16] == DeleteRuleRoute;
    Path2("rules", id);
    assert "/rules/" + id == ['/'] + "rules" + ['/'] + id;
    assert PathOf(["rules", id]) == RequestOf(DeleteRule(id)).path;
    assert Fits(DeleteRuleRoute.pattern, ["rules", id]);
  }

  lemma ToggleRuleServed(id: string)
    requires id != "" && '/' !in id
    ensures RoutedTo(ToggleRule(id), ServerRoutes[17])
  {
    assert ServerRoutes[17] == ToggleRuleRoute;
    ToggleRuleFills(id);
  }

  lemma ToggleRuleFills(id: string)
    requires id != "" && '/' !in id
    ensures Fills(ToggleRuleRoute.pattern, RequestOf(ToggleRule(id)).path)
  {
    Path3("rules", id, "toggle");
    assert "/rules/" == ['/'] + "rules" + ['/'] && "/toggle" == ['/'] + "toggle";
    TogglePath("rules", id);
    assert PathOf(["rules", id, "toggle"]) == RequestOf(ToggleRule(id)).path;
    assert Fits(ToggleRuleRoute.pattern, ["rules", id, "toggle"]);
  }

  lemma ListNftRulesServed()
    ensures RoutedTo(ListNftRules, ServerRoutes[18])
  {
    assert ServerRoutes[18] == ListNFTRulesRoute;
    Path1("nftrules");
    assert "/nftrules" == ['/'] + "nftrules";
    assert PathOf(["nftrules"]) == RequestOf(ListNftRules).path;
    assert Fits(ListNFTRulesRoute.pattern, ["nftrules"]);
  }

  lemma GetNftRuleServed(id: string)
    requires id != "" && '/' !in id
    ensures RoutedTo(GetNftRule(id), ServerRoutes[19])
  {
    assert ServerRoutes[19] == GetNFTRuleRoute;
    Path2("nftrules", id);
    assert "/nftrules/" + id == ['/'] + "nftrules" + ['/'] + id;
    assert PathOf(["nftrules", id]) == RequestOf(GetNftRule(id)).path;
    assert Fits(GetNFTRuleRoute.pattern, ["nftrules", id]);
  }

  lemma CreateNftRuleServed()
    ensures RoutedTo(CreateNftRule, ServerRoutes[20])
  {
    assert ServerRoutes[20] == CreateNFTRuleRoute;
    Path1("nftrules");
    assert "/nftrules" == ['/'] + "nftrules";
    assert PathOf(["nftrules"]) == RequestOf(CreateNftRule).path;
    assert Fits(CreateNFTRuleRoute.pattern, ["nftrules"]);
  }

  lemma UpdateNftRuleServed(id: string)
    requires id != "" && '/' !in id
    ensures RoutedTo(UpdateNftRule(id), ServerRoutes[21])
  {
    assert ServerRoutes[21] == UpdateNFTRuleRoute;
    Path2("nftrules", id);
    assert "/nftrules/" + id == ['/'] + "nftrules" + ['/'] + id;
    assert PathOf(["nftrules", id]) == RequestOf(UpdateNftRule(id)).path;
    assert Fits(UpdateNFTRuleRoute.pattern, ["nftrules", id]);
  }

  lemma DeleteNftRuleServed(id: string)
    requires id != "" && '/' !in id
    ensures RoutedTo(DeleteNftRule(id), ServerRoutes[22])
  {
    assert ServerRoutes[22] == DeleteNFTRuleRoute;
    Path2("nftrules", id);
    assert "/nftrules/" + id == ['/'] + "nftrules" + ['/'] + id;
    assert PathOf(["nftrules", id]) == RequestOf(DeleteNftRule(id)).path;
    assert Fits(DeleteNFTRuleRoute.pattern, ["nftrules", id]);
  }

  lemma ToggleNftRuleServed(id: string)
    requires id != "" && '/' !in id
    ensures RoutedTo(ToggleNftRule(id), ServerRoutes[23])
  {
    assert ServerRoutes[23] == ToggleNFTRuleRoute;
    ToggleNftRuleFills(id);
  }

  lemma ToggleNftRuleFills(id: string)
    requires id != "" && '/' !in id
    ensures Fills(ToggleNFTRuleRoute.pattern, RequestOf(ToggleNftRule(id)).path)
  {
    Path3("nftrules", id, "toggle");
    assert "/nftrules/" == ['/'] + "nftrules" + ['/'] && "/toggle" == ['/'] + "toggle";
    TogglePath("nftrules", id);
    assert PathOf(["nftrules", id, "toggle"]) == RequestOf(ToggleNftRule(id)).path;
    assert Fits(ToggleNFTRuleRoute.pattern, ["nftrules", id, "toggle"]);
  }

  lemma ApplyNftRulesServed()
    ensures RoutedTo(ApplyNftRules, ServerRoutes[24])
  {
    assert ServerRoutes[24] == ApplyNFTRulesRoute;
    Path2("nftrules", "apply");
    assert "/nftrules/apply" == ['/'] + "nftrules" + ['/'] + "apply";
    assert PathOf(["nftrules", "apply"]) == RequestOf(ApplyNftRules).path;
    assert Fits(ApplyNFTRulesRoute.pattern, ["nftrules", "apply"]);
  }

  lemma TestRuleServed()
    ensures RoutedTo(TestRule, ServerRoutes[25])
  {
    assert ServerRoutes[25] == TestRuleRoute;
    Path1("test");
    assert "/test" == ['/'] + "test";
    assert PathOf(["test"]) == RequestOf(TestRule).path;
    assert Fits(TestRuleRoute.pattern, ["test"]);
  }

  lemma ListLogsServed(params: seq<(string, string)>)
    ensures RoutedTo(ListLogs(params), ServerRoutes[26])
  {
    assert ServerRoutes[26] == ListLogsRoute;
    Path1("logs");
    assert "/logs" == ['/'] + "logs";
    assert PathOf(["logs"]) == RequestOf(ListLogs(params)).path;
    assert Fits(ListLogsRoute.pattern, ["logs"]);
  }

  lemma GetLogServed(id: string)
    requires id != "" && '/' !in id
    ensures RoutedTo(GetLog(id), ServerRoutes[27])
  {
    assert ServerRoutes[27] == GetLogRoute;
    Path2("logs", id);
    assert "/logs/" + id == ['/'] + "logs" + ['/'] + id;
    assert PathOf(["logs", id]) == RequestOf(GetLog(id)).path;
    assert Fits(GetLogRoute.pattern, ["logs", id]);
  }

  lemma ClearLogsServed(days: string)
    ensures RoutedTo(ClearLogs(days), ServerRoutes[28])
  {
    assert ServerRoutes[28] == ClearLogsRoute;
    Path1("logs");
    assert "/logs" == ['/'] + "logs";
    assert PathOf(["logs"]) == RequestOf(ClearLogs(days)).path;
    assert Fits(ClearLogsRoute.pattern, ["logs"]);
  }

  /** Every client request has a server route that serves it and runs the
      handler meant for it, provided identifiers fit in one segment. */
  lemma EveryCallServed(c: Call)
    requires Plain(c)
    ensures exists k :: 0 <= k < |ServerRoutes| && RoutedTo(c, ServerRoutes[k])
  {
    if InterfaceCall(c) {
      InterfaceCallServed(c);
    } else if FieldCall(c) {
      FieldCallServed(c);
    } else if RuleCall(c) {
      RuleCallServed(c);
    } else if NftRuleCall(c) {
      NftRuleCallServed(c);
    } else {
      OtherCallServed(c);
    }
  }

  lemma InterfaceCallServed(c: Call)
    requires Plain(c) && InterfaceCall(c)
    ensures exists k :: 0 <= k < |ServerRoutes| && RoutedTo(c, ServerRoutes[k])
  {
    if c.ListInterfaces? {
      ListInterfacesServed();
    } else if c.GetInterface? {
      GetInterfaceServed(c.name);
    } else if c.ConfigureVlan? {
      ConfigureVlanServed();
    } else if c.GetVlanConfig? {
      GetVlanConfigServed(c.interfaceName);
    } else if c.AddVlanIp? {
      AddVlanIpServed();
    } else if c.RemoveVlanIp? {
      RemoveVlanIpServed(c.interfaceName);
    } else {
      SetInterfaceStatusServed();
    }
  }

  lemma FieldCallServed(c: Call)
    requires Plain(c) && FieldCall(c)
    ensures exists k :: 0 <= k < |ServerRoutes| && RoutedTo(c, ServerRoutes[k])
  {
    if c.ListFields? {
      ListFieldsServed();
    } else if c.GetField? {
      GetFieldServed(c.id);
    } else if c.CreateField? {
      CreateFieldServed();
    } else if c.UpdateField? {
      UpdateFieldServed(c.id);
    } else {
      DeleteFieldServed(c.id);
    }
  }

  lemma RuleCallServed(c: Call)
    requires Plain(c) && RuleCall(c)
    ensures exists k :: 0 <= k < |ServerRoutes| && RoutedTo(c, ServerRoutes[k])
  {
    if c.ListRules? {
      ListRulesServed();
    } else if c.GetRule? {
      GetRuleServed(c.id);
    } else if c.CreateRule? {
      CreateRuleServed();
    } else if c.UpdateRule? {
      UpdateRuleServed(c.id);
    } else if c.DeleteRule? {
      DeleteRuleServed(c.id);
    } else {
      ToggleRuleServed(c.id);
    }
  }

  lemma NftRuleCallServed(c: Call)
    requires Plain(c) && NftRuleCall(c)
    ensures exists k :: 0 <= k < |ServerRoutes| && RoutedTo(c, ServerRoutes[k])
  {
    if c.ListNftRules? {
      ListNftRulesServed();
    } else if c.GetNftRule? {
      GetNftRuleServed(c.id);
    } else if c.CreateNftRule? {
      CreateNftRuleServed();
    } else if c.UpdateNftRule? {
      UpdateNftRuleServed(c.id);
    } else if c.DeleteNftRule? {
      DeleteNftRuleServed(c.id);
    } else if c.ToggleNftRule? {
      ToggleNftRuleServed(c.id);
    } else {
      ApplyNftRulesServed();
    }
  }

  lemma OtherCallServed(c: Call)
    requires Plain(c) && !InterfaceCall(c) && !FieldCall(c) && !RuleCall(c) && !NftRuleCall(c)
    ensures exists k :: 0 <= k < |ServerRoutes| && RoutedTo(c, ServerRoutes[k])
  {
    if c.TestRule? {
      TestRuleServed();
    } else if c.ListLogs? {
      ListLogsServed(c.params);
    } else if c.GetLog? {
      GetLogServed(c.id);
    } else {
      ClearLogsServed(c.days);
    }
  }
}
