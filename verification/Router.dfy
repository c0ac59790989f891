/**
 URL routing: a request path is split on '/', matched item by item against the end
 points of each handler in turn, and `{name}` items are bound. The first handler
 that matches wins; for the external router the order turns out not to matter.
 */
module Router {
  import opened Text

  type Bindings = map<string, string>

  // ---------------------------------------------------------------- matching one end point

  predicate IsParam(item: string) {
    item != "" && item[0] == '{'
  }

  function ParamName(item: string): string {
    ToLower(if |item| >= 2 then item[1..|item| - 1] else "")
  }

  predicate ItemMatches(path: string, param: string) {
    path == param || IsParam(param)
  }

  predicate Matches(path: seq<string>, params: seq<string>) {
    |path| == |params| && forall i :: 0 <= i < |path| ==> ItemMatches(path[i], params[i])
  }

  /** Bindings after the first `n` items, each of which matched. */
  function BindFirst(b: Bindings, path: seq<string>, params: seq<string>, n: nat): Bindings
    requires n <= |path| && |path| == |params|
  {
    if n == 0 then b
    else
      var c := BindFirst(b, path, params, n - 1);
      if path[n - 1] == params[n - 1] then c else c[ParamName(params[n - 1]) := path[n - 1]]
  }

  /** Index of the first item that does not match, or the number of items. */
  function FirstMismatch(path: seq<string>, params: seq<string>, from: nat): (r: nat)
    requires |path| == |params| && from <= |path|
    ensures from <= r <= |path|
    ensures forall i :: from <= i < r ==> ItemMatches(path[i], params[i])
    ensures r < |path| ==> !ItemMatches(path[r], params[r])
    decreases |path| - from
  {
    if from == |path| || !ItemMatches(path[from], params[from]) then from
    else FirstMismatch(path, params, from + 1)
  }

  datatype Parsed = Parsed(matched: bool, bindings: Bindings)

  /** End points in order; a partial match leaves its bindings behind for the next one. */
  function ParseItems(path: seq<string>, endPoints: seq<seq<string>>, b: Bindings): Parsed
    decreases |endPoints|
  {
    if endPoints == [] then Parsed(false, b)
    else
      var params := endPoints[0];
      if |path| != |params| then ParseItems(path, endPoints[1..], b)
      else
        var k := FirstMismatch(path, params, 0);
        var c := BindFirst(b, path, params, k);
        if k == |path| then Parsed(true, c) else ParseItems(path, endPoints[1..], c)
  }

  /** End points are given as their items; the source splits these constants the same way as the request. */
  method ParseBindings(request: string, endPoints: seq<seq<string>>) returns (matched: bool, bindings: Bindings)
    ensures Parsed(matched, bindings) == ParseItems(Split(request, '/'), endPoints, map[])
  {
    bindings := map[];
    var path := Split(request, '/');
    var e := 0;
    while e < |endPoints|
      invariant 0 <= e <= |endPoints|
      invariant ParseItems(path, endPoints, map[]) == ParseItems(path, endPoints[e..], bindings)
    {
      var params := endPoints[e];
      assert endPoints[e..][1..] == endPoints[e + 1..];
      e := e + 1;
      if |path| == |params| {
        ghost var before := bindings;
        matched := true;
        var i := 0;
        while i < |path|
          invariant 0 <= i <= |path| && matched
          invariant forall j :: 0 <= j < i ==> ItemMatches(path[j], params[j])
          invariant bindings == BindFirst(before, path, params, i)
        {
          if path[i] != params[i] {
            if IsParam(params[i]) {
              bindings := bindings[ParamName(params[i]) := path[i]];
            } else {
              matched := false;
              break;
            }
          }
          i := i + 1;
        }
        assert FirstMismatch(path, params, 0) == i;
        if matched {
          return;
        }
      }
    }
    matched := false;
  }

  // ---------------------------------------------------------------- bindings give the path back

  /** The pattern with every bound parameter replaced. */
  function Substitute(params: seq<string>, b: Bindings): seq<string> {
    seq(|params|, i requires 0 <= i < |params| =>
      if IsParam(params[i]) && ParamName(params[i]) in b then b[ParamName(params[i])] else params[i])
  }

  predicate DistinctParams(params: seq<string>) {
    forall i, j :: 0 <= i < j < |params| && IsParam(params[i]) && IsParam(params[j]) ==>
      ParamName(params[i]) != ParamName(params[j])
  }

  lemma {:induction false} BoundNames(path: seq<string>, params: seq<string>, n: nat, name: string)
    requires Matches(path, params) && n <= |path| && DistinctParams(params)
    ensures var b := BindFirst(map[], path, params, n);
            && (name in b ==> exists i :: 0 <= i < n && IsParam(params[i]) && ParamName(params[i]) == name
                                          && path[i] != params[i] && b[name] == path[i])
            && (forall i :: 0 <= i < n && IsParam(params[i]) && ParamName(params[i]) == name && path[i] != params[i] ==>
                  name in b)
    decreases n
  {
    if n > 0 { BoundNames(path, params, n - 1, name); }
  }

  /** Substituting the bindings of a match restores the requested items. */
  lemma SubstituteRestores(path: seq<string>, params: seq<string>)
    requires Matches(path, params) && DistinctParams(params)
    ensures Substitute(params, BindFirst(map[], path, params, |path|)) == path
  {
    var b := BindFirst(map[], path, params, |path|);
    forall i | 0 <= i < |path| ensures Substitute(params, b)[i] == path[i] {
      BoundNames(path, params, |path|, ParamName(params[i]));
    }
  }

  // ---------------------------------------------------------------- the external router

  datatype Handler =
    | WifiClients | WiredClients | Subscriber | SubscriberDevices | OAuth2 | Action | Mfa | Claim
    | SystemCommand | SystemConfiguration | Stats | Topology | WebSocket
    | GroupsList | Groups | SchedulesList | Schedules
    | GroupDevicesList | GroupDevicesListV2 | GroupDevices
    | GroupSchedulesList | GroupSchedules | ScheduleGroupsList | SubscriberLocation

  /** The last item of a handler whose one end point is "/api/v1/<word>". */
  function CollectionWord(h: Handler): Option<string> {
    match h
    case WifiClients => Some("wificlients")
    case WiredClients => Some("wiredclients")
    case Subscriber => Some("subscriber")
    case Action => Some("action")
    case Mfa => Some("submfa")
    case Claim => Some("claim")
    case SystemCommand => Some("system")
    case SystemConfiguration => Some("systemConfiguration")
    case Topology => Some("topology")
    case WebSocket => Some("ws")
    case GroupsList => Some("groups")
    case SchedulesList => Some("schedules")
    case _ => None
  }

  /** The end point of a handler below a collection, when it has only one. */
  function NestedPath(h: Handler): seq<string> {
    match h
    case SubscriberDevices => ["", "api", "v1", "subscriber", "devices", "{mac}"]
    case Stats => ["", "api", "v1", "stats", "{mac}"]
    case Groups => ["", "api", "v1", "groups", "{group_id}"]
    case Schedules => ["", "api", "v1", "schedules", "{schedule_id}"]
    case GroupDevicesList => ["", "api", "v1", "groups", "{group_id}", "devices"]
    case GroupDevicesListV2 => ["", "api", "v2", "groups", "{group_id}", "devices"]
    case GroupDevices => ["", "api", "v1", "groups", "{group_id}", "devices", "{client_mac}"]
    case GroupSchedulesList => ["", "api", "v1", "groups", "{group_id}", "schedules"]
    case GroupSchedules => ["", "api", "v1", "groups", "{group_id}", "schedules", "{schedule_id}"]
    case ScheduleGroupsList => ["", "api", "v1", "schedules", "{schedule_id}", "groups"]
    case _ => ["", "api", "v1", "subscriber", "location"]
  }

  /** The end points of a handler, as the items between slashes. */
  function PathName(h: Handler): seq<seq<string>> {
    match CollectionWord(h)
    case Some(word) => [["", "api", "v1", word]]
    case None =>
      if h == OAuth2 then [["", "api", "v1", "oauth2", "{token}"], ["", "api", "v1", "oauth2"]]
      else [NestedPath(h)]
  }

  const EXTERNAL_ORDER: seq<Handler> :=
    [WifiClients, WiredClients, Subscriber, SubscriberDevices, OAuth2, Action, Mfa, Claim,
     SystemCommand, SystemConfiguration, Stats, Topology, WebSocket,
     GroupsList, Groups, SchedulesList, Schedules,
     GroupDevicesList, GroupDevicesListV2, GroupDevices,
     GroupSchedulesList, GroupSchedules, ScheduleGroupsList, SubscriberLocation]

  datatype Routed = Unknown | Routed(handler: Handler, bindings: Bindings)

  /** First handler that parses; `Unknown` is the fallback handler. */
  function Route(request: string, handlers: seq<Handler>): Routed {
    if handlers == [] then Unknown
    else
      var p := ParseItems(Split(request, '/'), PathName(handlers[0]), map[]);
      if p.matched then Routed(handlers[0], p.bindings) else Route(request, handlers[1..])
  }

  predicate Prefixed(p: seq<string>, version: string) {
    |p| >= 4 && p[0] == "" && p[1] == "api" && p[2] == version
  }

  /** The decision, without any order: by version, number of items and the fixed ones among them. */
  function Decide(p: seq<string>): Option<Handler> {
    if Prefixed(p, "v1") then
      if |p| == 4 then DecideTop(p[3])
      else if |p| == 5 then DecideFive(p[3], p[4])
      else if |p| == 6 then DecideSix(p[3], p[4], p[5])
      else if |p| == 7 then DecideSeven(p[3], p[5])
      else None
    else if Prefixed(p, "v2") && |p| == 6 && p[3] == "groups" && p[5] == "devices" then Some(GroupDevicesListV2)
    else None
  }

  function DecideFive(a: string, b: string): (h: Option<Handler>)
    ensures h.Some? ==> ItemsOf(h.value) == 5 && h.value != GroupDevicesListV2
  {
    if a == "subscriber" then (if b == "location" then Some(SubscriberLocation) else None)
    else if a == "groups" then Some(Groups)
    else if a == "schedules" then Some(Schedules)
    else if a == "oauth2" then Some(OAuth2)
    else if a == "stats" then Some(Stats)
    else None
  }

  function DecideSix(a: string, b: string, c: string): (h: Option<Handler>)
    ensures h.Some? ==> ItemsOf(h.value) == 6 && h.value != GroupDevicesListV2
  {
    if a == "subscriber" then (if b == "devices" then Some(SubscriberDevices) else None)
    else if a == "schedules" then (if c == "groups" then Some(ScheduleGroupsList) else None)
    else if a != "groups" then None
    else if c == "devices" then Some(GroupDevicesList)
    else if c == "schedules" then Some(GroupSchedulesList)
    else None
  }

  function DecideSeven(a: string, c: string): (h: Option<Handler>)
    ensures h.Some? ==> ItemsOf(h.value) == 7 && h.value != GroupDevicesListV2
  {
    if a != "groups" then None
    else if c == "devices" then Some(GroupDevices)
    else if c == "schedules" then Some(GroupSchedules)
    else None
  }

  function DecideTop(word: string): Option<Handler> {
    if word == "wificlients" then Some(WifiClients)
    else if word == "wiredclients" then Some(WiredClients)
    else if word == "subscriber" then Some(Subscriber)
    else if word == "oauth2" then Some(OAuth2)
    else if word == "action" then Some(Action)
    else if word == "submfa" then Some(Mfa)
    else if word == "claim" then Some(Claim)
    else if word == "system" then Some(SystemCommand)
    else if word == "systemConfiguration" then Some(SystemConfiguration)
    else if word == "topology" then Some(Topology)
    else if word == "ws" then Some(WebSocket)
    else if word == "groups" then Some(GroupsList)
    else if word == "schedules" then Some(SchedulesList)
    else None
  }

  // ---------------------------------------------------------------- routing is the decision

  predicate MatchesSome(path: seq<string>, endPoints: seq<seq<string>>) {
    exists k :: 0 <= k < |endPoints| && Matches(path, endPoints[k])
  }

  predicate DistinctLengths(endPoints: seq<seq<string>>) {
    forall j, k :: 0 <= j < k < |endPoints| ==> |endPoints[j]| != |endPoints[k]|
  }

  /** End points of different lengths: parsing finds the one that matches and binds for it alone. */
  lemma {:induction false} ParseFinds(path: seq<string>, endPoints: seq<seq<string>>)
    requires DistinctLengths(endPoints)
    ensures var p := ParseItems(path, endPoints, map[]);
            && (p.matched <==> MatchesSome(path, endPoints))
            && (p.matched ==> exists k :: 0 <= k < |endPoints| && Matches(path, endPoints[k])
                                          && p.bindings == BindFirst(map[], path, endPoints[k], |path|))
    decreases |endPoints|
  {
    if endPoints != [] {
      var params, rest := endPoints[0], endPoints[1..];
      if |path| == |params| {
        var k := FirstMismatch(path, params, 0);
        if k == |path| {
          assert Matches(path, endPoints[0]);
        } else {
          NoLengthNoMatch(path, rest, BindFirst(map[], path, params, k));
        }
      } else {
        ParseFinds(path, rest);
        var p := ParseItems(path, endPoints, map[]);
        if p.matched {
          var k :| 0 <= k < |rest| && Matches(path, rest[k]) && p.bindings == BindFirst(map[], path, rest[k], |path|);
          assert Matches(path, endPoints[k + 1]) && p.bindings == BindFirst(map[], path, endPoints[k + 1], |path|);
        }
        if MatchesSome(path, endPoints) {
          var k :| 0 <= k < |endPoints| && Matches(path, endPoints[k]);
          assert Matches(path, rest[k - 1]);
        }
      }
    }
  }

  lemma {:induction false} NoLengthNoMatch(path: seq<string>, endPoints: seq<seq<string>>, b: Bindings)
    requires forall k :: 0 <= k < |endPoints| ==> |endPoints[k]| != |path|
    ensures !ParseItems(path, endPoints, b).matched
    decreases |endPoints|
  {
    if endPoints != [] {
      assert |endPoints[0]| != |path|;
      NoLengthNoMatch(path, endPoints[1..], b);
    }
  }

  lemma WordIsNoParam(h: Handler)
    requires CollectionWord(h).Some?
    ensures !IsParam(CollectionWord(h).value)
  {
  }

  /** The fixed items before the resource are no parameters. */
  lemma PlainPrefix(q: seq<string>)
    requires Prefixed(q, "v1") || Prefixed(q, "v2")
    ensures !IsParam(q[0]) && !IsParam(q[1]) && !IsParam(q[2])
  {
  }

  lemma OneParam(q: seq<string>, k: nat)
    requires k < |q| && forall i :: 0 <= i < |q| && i != k ==> !IsParam(q[i])
    ensures DistinctParams(q)
  {
  }

  lemma NamesDiffer(a: string, b: string)
    requires |a| >= 3 && |b| >= 3 && LowerChar(a[1]) != LowerChar(b[1])
    ensures ParamName(a) != ParamName(b)
  {
    assert ParamName(a)[0] == LowerChar(a[1]) && ParamName(b)[0] == LowerChar(b[1]);
  }

  lemma TwoParams(q: seq<string>, j: nat, k: nat)
    requires j < k < |q| && ParamName(q[j]) != ParamName(q[k])
    requires forall i :: 0 <= i < |q| && i != j && i != k ==> !IsParam(q[i])
    ensures DistinctParams(q)
  {
  }

  lemma BelowGroup(group: string, word: string, name: string)
    requires !IsParam(word) && |group| >= 3 && |name| >= 3 && LowerChar(group[1]) != LowerChar(name[1])
    ensures DistinctParams(["", "api", "v1", "groups", group, word, name])
  {
    var q := ["", "api", "v1", "groups", group, word, name];
    PlainPrefix(q);
    assert !IsParam(q[3]);
    NamesDiffer(group, name);
    TwoParams(q, 4, 6);
  }

  lemma GroupParams(h: Handler, q: seq<string>)
    requires (h == GroupDevices || h == GroupSchedules) && q == NestedPath(h)
    ensures DistinctParams(q)
  {
    assert q == ["", "api", "v1", "groups", q[4], q[5], q[6]];
    BelowGroup(q[4], q[5], q[6]);
  }

  /** Where the one parameter of a nested end point is, if it has one. */
  function ParamAt(h: Handler): nat {
    if h == SubscriberDevices then 5 else 4
  }

  lemma PlainItems(h: Handler)
    requires CollectionWord(h).None? && h != OAuth2 && h != GroupDevices && h != GroupSchedules
    ensures forall i :: 3 <= i < |NestedPath(h)| && i != ParamAt(h) ==> !IsParam(NestedPath(h)[i])
  {
  }

  lemma NestedParams(h: Handler)
    requires CollectionWord(h).None? && h != OAuth2
    ensures DistinctParams(NestedPath(h))
  {
    if h == GroupDevices || h == GroupSchedules {
      GroupParams(h, NestedPath(h));
    } else {
      PlainPrefix(NestedPath(h));
      PlainItems(h);
      OneParam(NestedPath(h), ParamAt(h));
    }
  }

  lemma TokenParams()
    ensures forall k :: 0 <= k < 2 ==> DistinctParams(PathName(OAuth2)[k])
  {
    PlainPrefix(PathName(OAuth2)[0]);
    PlainPrefix(PathName(OAuth2)[1]);
    assert !IsParam("oauth2");
  }

  lemma WordParams(word: string)
    requires !IsParam(word)
    ensures DistinctParams(["", "api", "v1", word])
  {
    PlainPrefix(["", "api", "v1", word]);
  }

  lemma CollectionParams(h: Handler)
    requires CollectionWord(h).Some?
    ensures DistinctParams(PathName(h)[0])
  {
    WordIsNoParam(h);
    WordParams(CollectionWord(h).value);
  }

  /** The end points of one handler differ in length and name their parameters differently. */
  lemma PathNamesAreRegular(h: Handler)
    ensures DistinctLengths(PathName(h))
    ensures forall k :: 0 <= k < |PathName(h)| ==> DistinctParams(PathName(h)[k])
  {
    if CollectionWord(h).Some? { CollectionParams(h); }
    else if h == OAuth2 { TokenParams(); }
    else { NestedParams(h); }
  }

  // ---------------------------------------------------------------- what each handler matches

  lemma MatchesBelow(p: seq<string>, q: seq<string>, version: string)
    requires Prefixed(q, version) && (version == "v1" || version == "v2")
    ensures Matches(p, q) <==>
            |p| == |q| && Prefixed(p, version) && forall i :: 3 <= i < |q| ==> ItemMatches(p[i], q[i])
  {
    PlainPrefix(q);
    if |p| == |q| && Prefixed(p, version) && forall i :: 3 <= i < |q| ==> ItemMatches(p[i], q[i]) {
      assert forall i :: 0 <= i < 3 ==> p[i] == q[i];
    }
  }

  lemma OneEndPoint(p: seq<string>, q: seq<string>)
    ensures MatchesSome(p, [q]) <==> Matches(p, q)
  {
    assert [q][0] == q;
  }

  lemma VersionsDiffer(p: seq<string>)
    ensures !(Prefixed(p, "v1") && Prefixed(p, "v2"))
  {
  }

  lemma TopWordOf(h: Handler)
    requires CollectionWord(h).Some?
    ensures DecideTop(CollectionWord(h).value) == Some(h)
  {
  }

  lemma OfTopWord(word: string)
    ensures match DecideTop(word)
            case None => true
            case Some(h) => CollectionWord(h) == Some(word) || (h == OAuth2 && word == "oauth2")
  {
  }

  lemma CollectionMatches(h: Handler, p: seq<string>)
    requires CollectionWord(h).Some?
    ensures MatchesSome(p, PathName(h)) <==> Decide(p) == Some(h)
  {
    var word := CollectionWord(h).value;
    var q := ["", "api", "v1", word];
    WordIsNoParam(h);
    OneEndPoint(p, q);
    MatchesBelow(p, q, "v1");
    if Decide(p) == Some(h) { DecideByLength(p, h); }
    TopWordOf(h);
    if |p| == 4 { OfTopWord(p[3]); }
  }

  /** How many items a path of this handler has; a bare "oauth2" aside. */
  function ItemsOf(h: Handler): nat {
    match h
    case Stats => 5
    case Groups => 5
    case Schedules => 5
    case SubscriberLocation => 5
    case OAuth2 => 5
    case SubscriberDevices => 6
    case ScheduleGroupsList => 6
    case GroupDevicesList => 6
    case GroupDevicesListV2 => 6
    case GroupSchedulesList => 6
    case GroupDevices => 7
    case GroupSchedules => 7
    case _ => 4
  }

  /** Only the branch of its own length can decide for a handler. */
  lemma DecideByLength(p: seq<string>, h: Handler)
    requires Decide(p) == Some(h)
    ensures |p| == ItemsOf(h) || (h == OAuth2 && |p| == 4)
    ensures Prefixed(p, if h == GroupDevicesListV2 then "v2" else "v1")
  {
    if |p| == 4 { OfTopWord(p[3]); }
  }

  lemma ItemsMatch(p: seq<string>, q: seq<string>, version: string)
    requires 5 <= |q| <= 7 && Prefixed(q, version) && (version == "v1" || version == "v2")
    ensures Matches(p, q) <==>
            && |p| == |q| && Prefixed(p, version) && ItemMatches(p[3], q[3]) && ItemMatches(p[4], q[4])
            && (|q| > 5 ==> ItemMatches(p[5], q[5])) && (|q| > 6 ==> ItemMatches(p[6], q[6]))
  {
    MatchesBelow(p, q, version);
  }

  lemma FiveMatches(h: Handler, a: string, b: string)
    requires h == Stats || h == Groups || h == Schedules || h == SubscriberLocation
    ensures DecideFive(a, b) == Some(h) <==> ItemMatches(a, NestedPath(h)[3]) && ItemMatches(b, NestedPath(h)[4])
  {
  }

  lemma SixMatches(h: Handler, a: string, b: string, c: string)
    requires h == SubscriberDevices || h == ScheduleGroupsList || h == GroupDevicesList || h == GroupSchedulesList
    ensures DecideSix(a, b, c) == Some(h)
            <==> ItemMatches(a, NestedPath(h)[3]) && ItemMatches(b, NestedPath(h)[4]) && ItemMatches(c, NestedPath(h)[5])
  {
  }

  lemma SevenMatches(h: Handler, a: string, b: string, c: string, d: string)
    requires h == GroupDevices || h == GroupSchedules
    ensures DecideSeven(a, c) == Some(h)
            <==> ItemMatches(a, NestedPath(h)[3]) && ItemMatches(b, NestedPath(h)[4]) && ItemMatches(c, NestedPath(h)[5])
                 && ItemMatches(d, NestedPath(h)[6])
  {
  }

  lemma NestedLength(h: Handler)
    requires CollectionWord(h).None? && h != OAuth2
    ensures |NestedPath(h)| == ItemsOf(h)
    ensures Prefixed(NestedPath(h), if h == GroupDevicesListV2 then "v2" else "v1")
  {
  }

  lemma NestedMatches(h: Handler, p: seq<string>)
    requires CollectionWord(h).None? && h != OAuth2
    ensures MatchesSome(p, PathName(h)) <==> Decide(p) == Some(h)
  {
    OneEndPoint(p, NestedPath(h));
    NestedLength(h);
    ItemsMatch(p, NestedPath(h), if h == GroupDevicesListV2 then "v2" else "v1");
    VersionsDiffer(p);
    if Decide(p) == Some(h) { DecideByLength(p, h); }
    if |p| == ItemsOf(h) && h != GroupDevicesListV2 {
      if |p| == 5 { FiveMatches(h, p[3], p[4]); }
      else if |p| == 6 { SixMatches(h, p[3], p[4], p[5]); }
      else { SevenMatches(h, p[3], p[4], p[5], p[6]); }
    }
  }

  lemma TokenMatches(p: seq<string>)
    ensures MatchesSome(p, PathName(OAuth2)) <==> Decide(p) == Some(OAuth2)
  {
    var q, r := PathName(OAuth2)[0], PathName(OAuth2)[1];
    MatchesBelow(p, q, "v1");
    MatchesBelow(p, r, "v1");
    assert MatchesSome(p, PathName(OAuth2)) <==> Matches(p, q) || Matches(p, r);
    if |p| == 4 { OfTopWord(p[3]); }
  }

  /** A handler matches exactly the paths the decision gives it. */
  lemma HandlerMatchesDecision(h: Handler, p: seq<string>)
    ensures MatchesSome(p, PathName(h)) <==> Decide(p) == Some(h)
  {
    if CollectionWord(h).Some? { CollectionMatches(h, p); }
    else if h == OAuth2 { TokenMatches(p); }
    else { NestedMatches(h, p); }
  }

  /** No path is claimed by two handlers. */
  lemma AtMostOneHandler(p: seq<string>, g: Handler, h: Handler)
    requires MatchesSome(p, PathName(g)) && MatchesSome(p, PathName(h))
    ensures g == h
  {
    HandlerMatchesDecision(g, p);
    HandlerMatchesDecision(h, p);
  }

  /** Routing, stated without order: the decided handler with its own bindings, if it is in the list. */
  lemma {:induction false} RouteIsDecision(request: string, handlers: seq<Handler>)
    ensures var p := Split(request, '/');
            Route(request, handlers)
            == if Decide(p).Some? && Decide(p).value in handlers
               then Routed(Decide(p).value, ParseItems(p, PathName(Decide(p).value), map[]).bindings)
               else Unknown
  {
    if handlers != [] {
      var p := Split(request, '/');
      var h := handlers[0];
      PathNamesAreRegular(h);
      ParseFinds(p, PathName(h));
      HandlerMatchesDecision(h, p);
      RouteIsDecision(request, handlers[1..]);
      assert handlers == [h] + handlers[1..];
    }
  }

  /** Any reordering, even with repetitions, of the handler list routes every request alike. */
  lemma OrderIsIrrelevant(request: string, a: seq<Handler>, b: seq<Handler>)
    requires forall h :: h in a <==> h in b
    ensures Route(request, a) == Route(request, b)
  {
    RouteIsDecision(request, a);
    RouteIsDecision(request, b);
  }

  /** The bindings of a routed request, put back into one of the handler's end points, spell the request. */
  lemma RoutedPathIsRestored(request: string, handlers: seq<Handler>)
    requires Route(request, handlers).Routed?
    ensures var r := Route(request, handlers);
            exists k :: 0 <= k < |PathName(r.handler)|
                        && Join(Substitute(PathName(r.handler)[k], r.bindings), '/') == request
  {
    var p := Split(request, '/');
    var r := Route(request, handlers);
    RouteIsDecision(request, handlers);
    PathNamesAreRegular(r.handler);
    HandlerMatchesDecision(r.handler, p);
    ParseFinds(p, PathName(r.handler));
    var k :| 0 <= k < |PathName(r.handler)| && Matches(p, PathName(r.handler)[k])
             && r.bindings == BindFirst(map[], p, PathName(r.handler)[k], |p|);
    SubstituteRestores(p, PathName(r.handler)[k]);
    JoinOfSplit(request, '/');
  }

  /** The declared order lists every handler, so the external router is the decision itself. */
  lemma ExternalRouterIsDecision(request: string)
    ensures var r := Route(request, EXTERNAL_ORDER);
            match Decide(Split(request, '/'))
            case None => r.Unknown?
            case Some(h) => r.Routed? && r.handler == h
  {
    RouteIsDecision(request, EXTERNAL_ORDER);
    if Decide(Split(request, '/')).Some? { AllListed(Decide(Split(request, '/')).value); }
  }

  lemma AllListed(h: Handler)
    ensures h in EXTERNAL_ORDER
  {
    match h
    case WifiClients => assert EXTERNAL_ORDER[0] == WifiClients;
    case WiredClients => assert EXTERNAL_ORDER[1] == WiredClients;
    case Subscriber => assert EXTERNAL_ORDER[2] == Subscriber;
    case SubscriberDevices => assert EXTERNAL_ORDER[3] == SubscriberDevices;
    case OAuth2 => assert EXTERNAL_ORDER[4] == OAuth2;
    case Action => assert EXTERNAL_ORDER[5] == Action;
    case Mfa => assert EXTERNAL_ORDER[6] == Mfa;
    case Claim => assert EXTERNAL_ORDER[7] == Claim;
    case SystemCommand => assert EXTERNAL_ORDER[8] == SystemCommand;
    case SystemConfiguration => assert EXTERNAL_ORDER[9] == SystemConfiguration;
    case Stats => assert EXTERNAL_ORDER[10] == Stats;
    case Topology => assert EXTERNAL_ORDER[11] == Topology;
    case WebSocket => assert EXTERNAL_ORDER[12] == WebSocket;
    case GroupsList => assert EXTERNAL_ORDER[13] == GroupsList;
    case Groups => assert EXTERNAL_ORDER[14] == Groups;
    case SchedulesList => assert EXTERNAL_ORDER[15] == SchedulesList;
    case Schedules => assert EXTERNAL_ORDER[16] == Schedules;
    case GroupDevicesList => assert EXTERNAL_ORDER[17] == GroupDevicesList;
    case GroupDevicesListV2 => assert EXTERNAL_ORDER[18] == GroupDevicesListV2;
    case GroupDevices => assert EXTERNAL_ORDER[19] == GroupDevices;
    case GroupSchedulesList => assert EXTERNAL_ORDER[20] == GroupSchedulesList;
    case GroupSchedules => assert EXTERNAL_ORDER[21] == GroupSchedules;
    case ScheduleGroupsList => assert EXTERNAL_ORDER[22] == ScheduleGroupsList;
    case SubscriberLocation => assert EXTERNAL_ORDER[23] == SubscriberLocation;
  }

  // ---------------------------------------------------------------- the names handlers look up

  /** An item bound to a name; an item that repeats the pattern text itself binds nothing. */
  function Bound(b: Bindings, name: string, pattern: string, item: string): Bindings {
    if item == pattern then b else b[name := item]
  }

  /** The name of the only parameter of a nested end point. */
  function NameOf(h: Handler): string {
    match h
    case SubscriberDevices => "mac"
    case Stats => "mac"
    case Schedules => "schedule_id"
    case ScheduleGroupsList => "schedule_id"
    case _ => "group_id"
  }

  /** What a handler finds in its bindings. */
  function NamedItems(h: Handler, p: seq<string>): Bindings
    requires |p| == ItemsOf(h) || (h == OAuth2 && |p| == 4)
  {
    if CollectionWord(h).Some? || h == SubscriberLocation || |p| == 4 then map[]
    else if h == OAuth2 then Bound(map[], "token", "{token}", p[4])
    else if h == GroupDevices then Bound(Bound(map[], "group_id", "{group_id}", p[4]), "client_mac", "{client_mac}", p[6])
    else if h == GroupSchedules then Bound(Bound(map[], "group_id", "{group_id}", p[4]), "schedule_id", "{schedule_id}", p[6])
    else if h == SubscriberDevices then Bound(map[], "mac", "{mac}", p[5])
    else Bound(map[], NameOf(h), NestedPath(h)[4], p[4])
  }

  lemma NameInside(item: string, name: string)
    requires |item| == |name| + 2 && forall i :: 0 <= i < |name| ==> LowerChar(item[i + 1]) == name[i]
    ensures ParamName(item) == name
  {
  }

  lemma ShortNames()
    ensures ParamName("{mac}") == "mac" && ParamName("{token}") == "token"
  {
    NameInside("{mac}", "mac");
    NameInside("{token}", "token");
  }

  lemma GroupName()
    ensures ParamName("{group_id}") == "group_id"
  {
    NameInside("{group_id}", "group_id");
  }

  lemma ScheduleName()
    ensures ParamName("{schedule_id}") == "schedule_id"
  {
    NameInside("{schedule_id}", "schedule_id");
  }

  lemma ClientName()
    ensures ParamName("{client_mac}") == "client_mac"
  {
    NameInside("{client_mac}", "client_mac");
  }

  lemma {:induction false} BindSkip(b: Bindings, p: seq<string>, q: seq<string>, m: nat, n: nat)
    requires |p| == |q| && m <= n <= |p| && forall i :: m <= i < n ==> p[i] == q[i]
    ensures BindFirst(b, p, q, n) == BindFirst(b, p, q, m)
    decreases n
  {
    if m < n { BindSkip(b, p, q, m, n - 1); }
  }

  lemma BindNext(b: Bindings, p: seq<string>, q: seq<string>, k: nat)
    requires |p| == |q| && k < |p|
    ensures BindFirst(b, p, q, k + 1) == Bound(BindFirst(b, p, q, k), ParamName(q[k]), q[k], p[k])
  {
  }

  lemma BindPlain(p: seq<string>, q: seq<string>, m: nat, n: nat, b: Bindings)
    requires Matches(p, q) && m <= n <= |p| && (forall i :: m <= i < n ==> !IsParam(q[i]))
    requires BindFirst(map[], p, q, m) == b
    ensures BindFirst(map[], p, q, n) == b
  {
    forall i | m <= i < n ensures p[i] == q[i] {
      assert ItemMatches(p[i], q[i]);
    }
    BindSkip(map[], p, q, m, n);
  }

  /** From item `m` on only item `k` is a parameter. */
  lemma BindFrom(p: seq<string>, q: seq<string>, m: nat, k: nat, b: Bindings)
    requires Matches(p, q) && m <= k < |q| && BindFirst(map[], p, q, m) == b
    requires forall i :: m <= i < |q| && i != k ==> !IsParam(q[i])
    ensures BindFirst(map[], p, q, |p|) == Bound(b, ParamName(q[k]), q[k], p[k])
  {
    BindPlain(p, q, m, k, b);
    BindNext(map[], p, q, k);
    BindPlain(p, q, k + 1, |p|, Bound(b, ParamName(q[k]), q[k], p[k]));
  }

  lemma BindOne(p: seq<string>, q: seq<string>, k: nat)
    requires Matches(p, q) && k < |q| && forall i :: 0 <= i < |q| && i != k ==> !IsParam(q[i])
    ensures BindFirst(map[], p, q, |p|) == Bound(map[], ParamName(q[k]), q[k], p[k])
  {
    BindFrom(p, q, 0, k, map[]);
  }

  lemma BindTwo(p: seq<string>, q: seq<string>, j: nat, k: nat)
    requires Matches(p, q) && j < k < |q| && forall i :: 0 <= i < |q| && i != j && i != k ==> !IsParam(q[i])
    ensures BindFirst(map[], p, q, |p|)
            == Bound(Bound(map[], ParamName(q[j]), q[j], p[j]), ParamName(q[k]), q[k], p[k])
  {
    BindPlain(p, q, 0, j, map[]);
    BindNext(map[], p, q, j);
    BindFrom(p, q, j + 1, k, Bound(map[], ParamName(q[j]), q[j], p[j]));
  }

  lemma NameSpelled(h: Handler)
    requires CollectionWord(h).None? && h !in {OAuth2, GroupDevices, GroupSchedules, SubscriberLocation}
    ensures |NestedPath(h)| > ParamAt(h) && ParamName(NestedPath(h)[ParamAt(h)]) == NameOf(h)
  {
    ShortNames();
    GroupName();
    ScheduleName();
  }

  lemma GroupItems(h: Handler, q: seq<string>)
    requires (h == GroupDevices || h == GroupSchedules) && q == NestedPath(h)
    ensures |q| == 7 && forall i :: 0 <= i < |q| && i != 4 && i != 6 ==> !IsParam(q[i])
  {
    PlainPrefix(q);
  }

  lemma GroupNames(h: Handler, p: seq<string>)
    requires (h == GroupDevices || h == GroupSchedules) && Matches(p, NestedPath(h)) && |p| == ItemsOf(h)
    ensures BindFirst(map[], p, NestedPath(h), |p|) == NamedItems(h, p)
  {
    GroupItems(h, NestedPath(h));
    BindTwo(p, NestedPath(h), 4, 6);
    GroupName();
    if h == GroupDevices { ClientName(); } else { ScheduleName(); }
  }

  lemma PlainBut(h: Handler, q: seq<string>)
    requires CollectionWord(h).None? && h !in {OAuth2, GroupDevices, GroupSchedules} && q == NestedPath(h)
    ensures |q| == ItemsOf(h) && forall i :: 0 <= i < |q| && i != ParamAt(h) ==> !IsParam(q[i])
  {
    NestedLength(h);
    PlainPrefix(q);
    PlainItems(h);
  }

  lemma OneNamedItem(h: Handler, p: seq<string>)
    requires CollectionWord(h).None? && h !in {OAuth2, GroupDevices, GroupSchedules, SubscriberLocation}
    requires |p| == ItemsOf(h)
    ensures ParamAt(h) < |NestedPath(h)| == |p|
    ensures NamedItems(h, p) == Bound(map[], NameOf(h), NestedPath(h)[ParamAt(h)], p[ParamAt(h)])
  {
    NestedLength(h);
  }

  lemma NestedNames(h: Handler, p: seq<string>)
    requires CollectionWord(h).None? && h !in {OAuth2, GroupDevices, GroupSchedules, SubscriberLocation}
    requires Matches(p, NestedPath(h)) && |p| == ItemsOf(h)
    ensures BindFirst(map[], p, NestedPath(h), |p|) == NamedItems(h, p)
  {
    PlainBut(h, NestedPath(h));
    OneNamedItem(h, p);
    NameSpelled(h);
    BindOne(p, NestedPath(h), ParamAt(h));
  }

  lemma LocationNames(p: seq<string>, q: seq<string>)
    requires q == NestedPath(SubscriberLocation) && Matches(p, q)
    ensures BindFirst(map[], p, q, |p|) == map[]
  {
    PlainBut(SubscriberLocation, q);
    assert !IsParam(q[4]);
    BindPlain(p, q, 0, |p|, map[]);
  }

  lemma TokenNames(p: seq<string>, q: seq<string>)
    requires q in PathName(OAuth2) && Matches(p, q)
    ensures BindFirst(map[], p, q, |p|) == if |p| == 4 then map[] else Bound(map[], "token", "{token}", p[4])
    ensures |p| == 4 || |p| == 5
  {
    PlainPrefix(q);
    assert !IsParam("oauth2");
    if |q| == 4 {
      BindPlain(p, q, 0, 4, map[]);
    } else {
      BindOne(p, q, 4);
      ShortNames();
    }
  }

  lemma CollectionNames(h: Handler, p: seq<string>)
    requires CollectionWord(h).Some? && Matches(p, PathName(h)[0])
    ensures BindFirst(map[], p, PathName(h)[0], |p|) == map[]
  {
    WordIsNoParam(h);
    PlainPrefix(PathName(h)[0]);
    BindPlain(p, PathName(h)[0], 0, |p|, map[]);
  }

  /** Each handler finds the items of the request under the names of its end point. */
  lemma RoutedNames(request: string, handlers: seq<Handler>)
    requires Route(request, handlers).Routed?
    ensures var r, p := Route(request, handlers), Split(request, '/');
            (|p| == ItemsOf(r.handler) || (r.handler == OAuth2 && |p| == 4)) && r.bindings == NamedItems(r.handler, p)
  {
    var p := Split(request, '/');
    var r := Route(request, handlers);
    var h := r.handler;
    RouteIsDecision(request, handlers);
    DecideByLength(p, h);
    PathNamesAreRegular(h);
    HandlerMatchesDecision(h, p);
    ParseFinds(p, PathName(h));
    var k :| 0 <= k < |PathName(h)| && Matches(p, PathName(h)[k])
             && r.bindings == BindFirst(map[], p, PathName(h)[k], |p|);
    NamesOfMatch(h, p, PathName(h)[k]);
  }

  lemma NamesOfMatch(h: Handler, p: seq<string>, q: seq<string>)
    requires q in PathName(h) && Matches(p, q) && (|p| == ItemsOf(h) || (h == OAuth2 && |p| == 4))
    ensures BindFirst(map[], p, q, |p|) == NamedItems(h, p)
  {
    if CollectionWord(h).Some? { CollectionNames(h, p); }
    else if h == OAuth2 { TokenNames(p, q); }
    else if h == GroupDevices || h == GroupSchedules { GroupNames(h, p); }
    else if h == SubscriberLocation { LocationNames(p, q); }
    else { NestedNames(h, p); }
  }
}
