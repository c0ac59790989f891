/**
 The schedule PUT pipeline: authorise, parse, resolve the zone, convert to UTC, send
 the update, apply a returned snapshot to the gateway, and show the schedule in local
 time. Every path answers the client exactly once.
 */
module ScheduleUpdate {
  import opened Text
  import opened FirewallRules
  import opened Json
  import opened Schedules
  import opened ScheduleConversion

  // ---------------------------------------------------------------- the parties

  /** HTTP status and, on success, the returned object. */
  datatype Response = Failure(status: int) | Document(fields: Object)

  class Handler {
    /** Everything sent to the client. */
    var sent: seq<Response>

    method Send(r: Response)
      modifies this
      ensures sent == old(sent) + [r]
    {
      sent := sent + [r];
    }
  }

  datatype Push = Push(serial: string, configuration: Object)

  class Gateway {
    /** Configuration documents the controller can return, by serial number. */
    var documents: map<string, Object>
    /** Configurations that reached a gateway. */
    var pushed: seq<Push>
  }

  /** Whose schedule is updated, which one, and the new content. */
  datatype Update = Update(subscriber: string, schedule: string, body: Object)

  class ScheduleService {
    /** Updates received. */
    var received: seq<Update>
  }

  datatype Venues = VenuesFail(status: int) | Venues(locations: seq<string>)
  datatype Location = LocationFail(status: int) | Location(timezone: string)

  /** How the remote services answer during one request. */
  datatype Remote = Remote(
    venues: Venues, places: map<string, Location>,
    updateSucceeds: bool, updateStatus: int, updateResponse: Option<Object>,
    devices: Option<seq<(string, string)>>, getConfigWorks: bool, configureWorks: bool)

  /** The answer to the lookup of one location. */
  function LocationAt(remote: Remote, id: string): Location {
    if id in remote.places then remote.places[id] else LocationFail(404)
  }

  // ---------------------------------------------------------------- parsing the request

  const KNOWN_FIELDS: set<string> :=
    {"name", "description", "enabled", "action_type", "target_kind", "target_value", "start_time", "stop_time", "weekdays"}

  predicate AcceptedHead(b: Object) {
    b.Keys <= KNOWN_FIELDS && HasStr(b, "name") && Trim(b["name"].s) != "" && IsStr(b, "action_type", "BLOCK")
  }

  predicate AcceptedTarget(b: Object) {
    HasStr(b, "target_kind") &&
    if b["target_kind"].s == "APP" then HasStr(b, "target_value") && Trim(b["target_value"].s) != ""
    else b["target_kind"].s == "INTERNET" && ("target_value" in b ==> b["target_value"].Null?)
  }

  predicate AcceptedTimes(b: Object) {
    && "start_time" in b && ParseTimeString(b["start_time"]).Some?
    && "stop_time" in b && ParseTimeString(b["stop_time"]).Some?
    && ParseTimeString(b["start_time"]) != ParseTimeString(b["stop_time"])
    && HasArr(b, "weekdays") && ValidWeekdays(b["weekdays"].items)
  }

  /** The request schema, as one condition. */
  predicate Accepted(b: Object, enabledRequired: bool) {
    AcceptedHead(b) && AcceptedTarget(b) && AcceptedTimes(b) && AcceptedOptions(b, enabledRequired)
  }

  predicate AcceptedOptions(b: Object, enabledRequired: bool) {
    && (enabledRequired ==> "enabled" in b) && ("enabled" in b ==> b["enabled"].Bool?)
    && ("description" in b ==> b["description"].Null? || b["description"].Str?)
  }

  predicate TargetFilled(out: ScheduleRequest, b: Object)
    requires AcceptedTarget(b)
    reads out
  {
    && out.targetKind == b["target_kind"].s
    && out.hasTargetValue == (out.targetKind == "APP" || "target_value" in b)
    && out.targetValue == if out.targetKind == "APP" then Trim(b["target_value"].s) else ""
  }

  predicate TimesFilled(out: ScheduleRequest, b: Object)
    requires AcceptedTimes(b)
    reads out
  {
    && out.startMinute == ParseTimeString(b["start_time"]).value
    && out.stopMinute == ParseTimeString(b["stop_time"]).value
    && out.weekdays == b["weekdays"].items
  }

  predicate OptionsFilled(out: ScheduleRequest, b: Object, enabledRequired: bool)
    requires AcceptedOptions(b, enabledRequired)
    reads out
  {
    && out.enabled == (if "enabled" in b then b["enabled"].b else true)
    && out.hasDescription == ("description" in b)
    && out.description == if HasStr(b, "description") then Some(Trim(b["description"].s)) else None
  }

  /** The parsed request is what the accepted body says. */
  predicate Filled(out: ScheduleRequest, b: Object, enabledRequired: bool)
    requires Accepted(b, enabledRequired)
    reads out
  {
    out.name == Trim(b["name"].s) && TargetFilled(out, b) && TimesFilled(out, b) && OptionsFilled(out, b, enabledRequired)
  }

  /** Accepts exactly the schema; a refusal answers 400 once. */
  method ParseAndValidateScheduleRequest(handler: Handler, body: Object, enabledRequired: bool, out: ScheduleRequest)
      returns (ok: bool)
    modifies handler, out
    ensures ok <==> Accepted(body, enabledRequired)
    ensures handler.sent == if ok then old(handler.sent) else old(handler.sent) + [Failure(400)]
    ensures ok ==> Filled(out, body, enabledRequired)
  {
    ok := body.Keys <= KNOWN_FIELDS && HasStr(body, "name") && Trim(body["name"].s) != ""
          && IsStr(body, "action_type", "BLOCK");
    if ok {
      out.name := Trim(body["name"].s);
      ok := FillTarget(body, out);
    }
    if ok {
      ok := FillTimes(body, out);
    }
    if ok {
      ok := FillOptions(body, enabledRequired, out);
    }
    if !ok {
      handler.Send(Failure(400));
    }
  }

  method FillTarget(body: Object, out: ScheduleRequest) returns (ok: bool)
    modifies out`targetKind, out`targetValue, out`hasTargetValue
    ensures ok <==> AcceptedTarget(body)
    ensures ok ==> TargetFilled(out, body)
  {
    if !HasStr(body, "target_kind") {
      return false;
    }
    out.targetKind := body["target_kind"].s;
    if out.targetKind != "INTERNET" && out.targetKind != "APP" {
      return false;
    }
    if out.targetKind == "APP" {
      out.hasTargetValue := true;
      if !HasStr(body, "target_value") || Trim(body["target_value"].s) == "" {
        return false;
      }
      out.targetValue := Trim(body["target_value"].s);
    } else {
      out.hasTargetValue := "target_value" in body;
      if "target_value" in body && !body["target_value"].Null? {
        return false;
      }
      out.targetValue := "";
    }
    return true;
  }

  method FillOptions(body: Object, enabledRequired: bool, out: ScheduleRequest) returns (ok: bool)
    modifies out`enabled, out`hasDescription, out`description
    ensures ok <==> AcceptedOptions(body, enabledRequired)
    ensures ok ==> OptionsFilled(out, body, enabledRequired)
  {
    if "enabled" in body {
      if !body["enabled"].Bool? {
        return false;
      }
      out.enabled := body["enabled"].b;
    } else {
      if enabledRequired {
        return false;
      }
      out.enabled := true;
    }
    out.hasDescription := "description" in body;
    out.description := None;
    if "description" in body && !body["description"].Null? {
      if !body["description"].Str? {
        return false;
      }
      out.description := Some(Trim(body["description"].s));
    }
    return true;
  }

  method FillTimes(body: Object, out: ScheduleRequest) returns (ok: bool)
    modifies out`startMinute, out`stopMinute, out`weekdays
    ensures ok <==> AcceptedTimes(body)
    ensures ok ==> TimesFilled(out, body)
  {
    if "start_time" !in body || ParseTimeString(body["start_time"]).None? {
      return false;
    }
    out.startMinute := ParseTimeString(body["start_time"]).value;
    if "stop_time" !in body || ParseTimeString(body["stop_time"]).None? {
      return false;
    }
    out.stopMinute := ParseTimeString(body["stop_time"]).value;
    if out.startMinute == out.stopMinute || !HasArr(body, "weekdays") {
      return false;
    }
    ok := ValidateWeekdays(body["weekdays"].items);
    if ok {
      out.weekdays := body["weekdays"].items;
    }
  }

  // ---------------------------------------------------------------- zone, body, snapshot

  /** The subscriber's zone, when every lookup answers and the zone is known. */
  function ZoneOf(remote: Remote, zones: Zones): Option<string> {
    if remote.venues.Venues? && remote.venues.locations != [] && remote.venues.locations[0] != "" then
      match LocationAt(remote, remote.venues.locations[0])
      case Location(timezone) => if KnownZone(zones, timezone) then Some(timezone) else None
      case LocationFail(_) => None
    else None
  }

  /** A failed lookup is forwarded unless it claims success. */
  function Forwarded(status: int): int {
    if status != 200 then status else 500
  }

  /** The answer to a request whose zone is not found: no venue, location or zone is the caller's fault. */
  function ZoneFailure(remote: Remote): int {
    match remote.venues
    case VenuesFail(status) => Forwarded(status)
    case Venues(locations) =>
      if locations == [] || locations[0] == "" then 400
      else
        match LocationAt(remote, locations[0])
        case LocationFail(status) => Forwarded(status)
        case Location(timezone) => if timezone == "" then 400 else 500
  }

  method ResolveSubscriberTimezone(handler: Handler, remote: Remote, zones: Zones) returns (zone: Option<string>)
    modifies handler
    ensures zone == ZoneOf(remote, zones)
    ensures handler.sent == if zone.Some? then old(handler.sent) else old(handler.sent) + [Failure(ZoneFailure(remote))]
    ensures zone.Some? ==>
              && remote.venues.Venues? && remote.venues.locations != [] && remote.venues.locations[0] in remote.places
              && remote.places[remote.venues.locations[0]] == Location(zone.value) && zone.value in zones
    ensures remote.venues.Venues? && (remote.venues.locations == [] || remote.venues.locations[0] == "") ==>
              handler.sent == old(handler.sent) + [Failure(400)]
    ensures remote.venues.VenuesFail? && remote.venues.status != 200 ==>
              handler.sent == old(handler.sent) + [Failure(remote.venues.status)]
  {
    var status := 400;
    if remote.venues.VenuesFail? {
      status := if remote.venues.status != 200 then remote.venues.status else 500;
    } else if remote.venues.locations != [] && remote.venues.locations[0] != "" {
      var location := LocationAt(remote, remote.venues.locations[0]);
      if location.LocationFail? {
        status := if location.status != 200 then location.status else 500;
      } else if location.timezone != "" {
        if location.timezone in zones {
          return Some(location.timezone);
        }
        status := 500;
      }
    }
    handler.Send(Failure(status));
    return None;
  }

  function BuildScheduleRequestBody(req: ScheduleRequest): Object
    reads req
  {
    var head := map["name" := Str(req.name), "enabled" := Bool(req.enabled), "action_type" := Str("BLOCK"),
                    "target_kind" := Str(req.targetKind), "start_minute" := Int(req.startMinute),
                    "stop_minute" := Int(req.stopMinute), "weekdays" := Arr(req.weekdays)];
    var described := if req.hasDescription
                     then head["description" := if req.description.Some? then Str(req.description.value) else Null]
                     else head;
    if req.targetKind == "APP" then described["target_value" := Str(req.targetValue)]
    else if req.hasTargetValue then described["target_value" := Null]
    else described
  }

  /** A command list the gateway understands: arrays of two or three strings. */
  predicate WellFormedSnapshot(items: seq<Value>) {
    forall i :: 0 <= i < |items| ==> IsCommand(items[i])
  }

  predicate IsCommand(v: Value) {
    v.Arr? && (|v.items| == 2 || |v.items| == 3) && forall j :: 0 <= j < |v.items| ==> v.items[j].Str?
  }

  /** None: malformed. Some(None): nothing to apply. */
  function SnapshotIn(response: Option<Object>, required: bool): (r: Option<Option<seq<Value>>>)
    ensures r.Some? && r.value.Some? ==>
              WellFormedSnapshot(r.value.value) && response.Some? && HasArr(response.value, "config-raw")
              && r.value.value == response.value["config-raw"].items
  {
    if response.None? || "config-raw" !in response.value then (if required then None else Some(None))
    else
      match response.value["config-raw"]
      case Null => Some(None)
      case Arr(items) => if WellFormedSnapshot(items) then Some(Some(items)) else None
      case _ => None
  }

  method ExtractConfigRawSnapshot(response: Option<Object>, required: bool) returns (r: Option<Option<seq<Value>>>)
    ensures r == SnapshotIn(response, required)
    ensures r.Some? && r.value.Some? <==>
            && response.Some? && HasArr(response.value, "config-raw")
            && forall i :: 0 <= i < |response.value["config-raw"].items| ==> IsCommand(response.value["config-raw"].items[i])
  {
    if response.None? || "config-raw" !in response.value {
      return if required then None else Some(None);
    }
    var raw := response.value["config-raw"];
    if raw.Null? {
      return Some(None);
    }
    if !raw.Arr? {
      return None;
    }
    for i := 0 to |raw.items|
      invariant WellFormedSnapshot(raw.items[..i])
    {
      var cmd := raw.items[i];
      if !cmd.Arr? || (|cmd.items| != 2 && |cmd.items| != 3) {
        return None;
      }
      for j := 0 to |cmd.items|
        invariant forall k :: 0 <= k < j ==> cmd.items[k].Str?
      {
        if !cmd.items[j].Str? {
          return None;
        }
      }
      assert raw.items[..i + 1] == raw.items[..i] + [cmd];
    }
    assert raw.items[..|raw.items|] == raw.items;
    return Some(Some(raw.items));
  }

  // ---------------------------------------------------------------- applying a snapshot

  datatype ApplyResult = NoConfigApplyNeeded | Applied | MissingOperatorId | ProvisioningLookupFailed
    | MissingGatewaySerial | GatewayConfigLoadFailed | GatewayConfigMalformed | GatewayConfigureFailed

  predicate IsGateway(device: (string, string)) {
    ToLower(device.1) == "olg"
  }

  predicate IsFirstGateway(devices: seq<(string, string)>, i: nat) {
    i < |devices| && IsGateway(devices[i]) && forall j :: 0 <= j < i ==> !IsGateway(devices[j])
  }

  /** Serial of the first device of group "olg"; empty when there is none. */
  function GatewaySerial(devices: seq<(string, string)>): (serial: string)
    ensures forall i: nat :: IsFirstGateway(devices, i) ==> serial == devices[i].0
    ensures (forall i :: 0 <= i < |devices| ==> !IsGateway(devices[i])) ==> serial == ""
  {
    if devices == [] then ""
    else if IsGateway(devices[0]) then devices[0].0
    else
      assert forall i: nat :: IsFirstGateway(devices, i) ==> IsFirstGateway(devices[1..], i - 1);
      GatewaySerial(devices[1..])
  }

  method FindGateway(devices: seq<(string, string)>) returns (serial: string)
    ensures serial == GatewaySerial(devices)
  {
    serial := "";
    var i := 0;
    while i < |devices|
      invariant 0 <= i <= |devices| && serial == ""
      invariant GatewaySerial(devices) == GatewaySerial(devices[i..])
    {
      if IsGateway(devices[i]) {
        return devices[i].0;
      }
      assert devices[i..][1..] == devices[i + 1..];
      i := i + 1;
    }
  }

  /** The subscriber's gateway can be found, read and written. */
  predicate CanReceive(documents: map<string, Object>, owner: string, remote: Remote) {
    && owner != "" && remote.devices.Some?
    && var serial := GatewaySerial(remote.devices.value);
       && serial != "" && remote.getConfigWorks && serial in documents
       && HasObj(documents[serial], "configuration") && remote.configureWorks
  }

  /** The subscriber's gateway and its own fetched configuration with only config-raw replaced. */
  function Replacement(documents: map<string, Object>, owner: string, remote: Remote, snapshot: seq<Value>): Push
    requires CanReceive(documents, owner, remote)
  {
    var serial := GatewaySerial(remote.devices.value);
    Push(serial, documents[serial]["configuration"].fields["config-raw" := Arr(snapshot)])
  }

  /** Nothing but config-raw can tell the two apart, and only the second surely has it. */
  predicate OnlyConfigRawDiffers(own: Object, sent: Object) {
    sent.Keys == own.Keys + {"config-raw"} && forall k :: k in own && k != "config-raw" ==> sent[k] == own[k]
  }

  /** The subscriber's gateway was sent its own configuration with this command list. */
  predicate SentOwn(documents: map<string, Object>, devices: seq<(string, string)>, p: Push, commands: Value) {
    && p.serial == GatewaySerial(devices) && p.serial in documents && HasObj(documents[p.serial], "configuration")
    && OnlyConfigRawDiffers(documents[p.serial]["configuration"].fields, p.configuration)
    && p.configuration["config-raw"] == commands
  }

  method ApplyConfigRaw(gateway: Gateway, owner: string, snapshot: Option<seq<Value>>, remote: Remote)
      returns (result: ApplyResult)
    modifies gateway`pushed
    ensures result == NoConfigApplyNeeded <==> snapshot.None?
    ensures result == MissingOperatorId <==> snapshot.Some? && owner == ""
    ensures result == ProvisioningLookupFailed <==> snapshot.Some? && owner != "" && remote.devices.None?
    ensures result == MissingGatewaySerial <==>
            snapshot.Some? && owner != "" && remote.devices.Some? && GatewaySerial(remote.devices.value) == ""
    ensures result == Applied <==> snapshot.Some? && CanReceive(gateway.documents, owner, remote)
    ensures gateway.pushed ==
            if result == Applied then old(gateway.pushed) + [Replacement(gateway.documents, owner, remote, snapshot.value)]
            else old(gateway.pushed)
    ensures result == Applied ==>
              OneMore(old(gateway.pushed), gateway.pushed)
              && SentOwn(gateway.documents, remote.devices.value, gateway.pushed[|old(gateway.pushed)|], Arr(snapshot.value))
  {
    if snapshot.None? {
      return NoConfigApplyNeeded;
    }
    if owner == "" {
      return MissingOperatorId;
    }
    if remote.devices.None? {
      return ProvisioningLookupFailed;
    }
    var serial := FindGateway(remote.devices.value);
    if serial == "" {
      return MissingGatewaySerial;
    }
    if !remote.getConfigWorks || serial !in gateway.documents {
      return GatewayConfigLoadFailed;
    }
    var document := gateway.documents[serial];
    if !HasObj(document, "configuration") {
      return GatewayConfigMalformed;
    }
    var configuration := document["configuration"].fields["config-raw" := Arr(snapshot.value)];
    if !remote.configureWorks {
      return GatewayConfigureFailed;
    }
    gateway.pushed := gateway.pushed + [Push(serial, configuration)];
    return Applied;
  }

  method HandleApplyConfigRawResult(handler: Handler, result: ApplyResult) returns (ok: bool)
    modifies handler
    ensures ok <==> result == NoConfigApplyNeeded || result == Applied
    ensures handler.sent == if ok then old(handler.sent)
                            else old(handler.sent) + [Failure(if result == MissingOperatorId then 403 else 500)]
  {
    match result
    case NoConfigApplyNeeded => return true;
    case Applied => return true;
    case MissingOperatorId => handler.Send(Failure(403)); return false;
    case _ => handler.Send(Failure(500)); return false;
  }

  /** The update's answer carries a snapshot to apply. */
  predicate HasSnapshot(response: Option<Object>) {
    SnapshotIn(response, false).Some? && SnapshotIn(response, false).value.Some?
  }

  /** ... and the gateway takes it. */
  predicate Applies(documents: map<string, Object>, owner: string, remote: Remote) {
    HasSnapshot(remote.updateResponse) && CanReceive(documents, owner, remote)
  }

  /** Nothing is left to apply. */
  predicate Settles(documents: map<string, Object>, owner: string, remote: Remote) {
    SnapshotIn(remote.updateResponse, false) == Some(None) || Applies(documents, owner, remote)
  }

  /** What has reached gateways after a successful update. */
  function PushedAfter(documents: map<string, Object>, before: seq<Push>, owner: string, remote: Remote): seq<Push> {
    if Applies(documents, owner, remote)
    then before + [Replacement(documents, owner, remote, SnapshotIn(remote.updateResponse, false).value.value)]
    else before
  }

  /** What has reached the gateway, in terms of the parties' own documents. */
  predicate ReachedOwn(documents: map<string, Object>, before: seq<Push>, after: seq<Push>, remote: Remote) {
    && OneMore(before, after) && remote.devices.Some?
    && remote.updateResponse.Some? && HasArr(remote.updateResponse.value, "config-raw")
    && WellFormedSnapshot(remote.updateResponse.value["config-raw"].items)
    && SentOwn(documents, remote.devices.value, after[|before|], remote.updateResponse.value["config-raw"])
  }

  lemma PushedIsOwn(documents: map<string, Object>, before: seq<Push>, owner: string, remote: Remote)
    requires Applies(documents, owner, remote)
    ensures ReachedOwn(documents, before, PushedAfter(documents, before, owner, remote), remote)
  {
    var snapshot := SnapshotIn(remote.updateResponse, false).value.value;
    var own := documents[GatewaySerial(remote.devices.value)]["configuration"].fields;
    assert own["config-raw" := Arr(snapshot)].Keys == own.Keys + {"config-raw"};
  }

  /** A snapshot without an operator to apply it for is refused; every other trouble is internal. */
  function RefusalStatus(owner: string, remote: Remote): int {
    if HasSnapshot(remote.updateResponse) && owner == "" then 403 else 500
  }

  method ApplyConfigRawFromMutationResponse(handler: Handler, gateway: Gateway, owner: string, remote: Remote)
      returns (ok: bool)
    modifies handler, gateway`pushed
    ensures ok <==> Settles(gateway.documents, owner, remote)
    ensures gateway.pushed == PushedAfter(gateway.documents, old(gateway.pushed), owner, remote)
    ensures handler.sent == if ok then old(handler.sent) else old(handler.sent) + [Failure(RefusalStatus(owner, remote))]
  {
    var snapshot := ExtractConfigRawSnapshot(remote.updateResponse, false);
    if snapshot.None? {
      handler.Send(Failure(500));
      return false;
    }
    if snapshot.value.None? {
      return true;
    }
    var result := ApplyConfigRaw(gateway, owner, snapshot.value, remote);
    ok := HandleApplyConfigRawResult(handler, result);
  }

  /** The returned schedule in local time, when the update returned one that can be shown. */
  function Shown(remote: Remote, offset: int): Option<Object> {
    if remote.updateResponse.None? then None else NormalizedFields(remote.updateResponse.value, offset)
  }

  /** The one answer and the gateway, after an update was sent. */
  predicate AnswerIsTrue(answer: Response, gateway: Gateway, before: seq<Push>, owner: string, remote: Remote, offset: int)
    reads gateway
  {
    if !remote.updateSucceeds then
      answer == Failure(remote.updateStatus) && gateway.pushed == before
    else
      && gateway.pushed == PushedAfter(gateway.documents, before, owner, remote)
      && (answer.Document? <==> Settles(gateway.documents, owner, remote) && Shown(remote, offset).Some?)
      && match answer
         case Document(fields) => Shown(remote, offset) == Some(fields) && "config-raw" !in fields
         case Failure(status) => status == RefusalStatus(owner, remote)
  }

  /** An error is answered although the gateway was changed: only an unshowable schedule does that. */
  predicate FailsAfterChange(documents: map<string, Object>, owner: string, remote: Remote, offset: int) {
    remote.updateSucceeds && Applies(documents, owner, remote) && Shown(remote, offset).None?
  }

  predicate OneMore<T(==)>(before: seq<T>, after: seq<T>) {
    |after| == |before| + 1 && after[..|before|] == before
  }

  /** The last step of a PUT: forward an error, or apply, normalise and return. */
  method HandleMutationResult(handler: Handler, gateway: Gateway, owner: string, zones: Zones, timezone: string, now: int,
                              remote: Remote)
    requires KnownZone(zones, timezone)
    modifies handler, gateway`pushed
    ensures OneMore(old(handler.sent), handler.sent)
    ensures AnswerIsTrue(handler.sent[|old(handler.sent)|], gateway, old(gateway.pushed), owner, remote, zones[timezone])
    ensures handler.sent[|old(handler.sent)|].Failure? && gateway.pushed != old(gateway.pushed)
            <==> FailsAfterChange(gateway.documents, owner, remote, zones[timezone])
    ensures gateway.pushed == old(gateway.pushed)
            || ReachedOwn(gateway.documents, old(gateway.pushed), gateway.pushed, remote)
  {
    if !remote.updateSucceeds {
      handler.Send(Failure(remote.updateStatus));
      return;
    }
    var applied := ApplyConfigRawFromMutationResponse(handler, gateway, owner, remote);
    if Applies(gateway.documents, owner, remote) { PushedIsOwn(gateway.documents, old(gateway.pushed), owner, remote); }
    if !applied {
      return;
    }
    if remote.updateResponse.None? {
      handler.Send(Failure(500));
      return;
    }
    var response := new JsonObject(remote.updateResponse.value);
    var ok := NormalizeScheduleResponse(response, zones, timezone, now);
    if !ok {
      handler.Send(Failure(500));
      return;
    }
    handler.Send(Document(response.fields));
  }

  // ---------------------------------------------------------------- the request as a whole

  predicate ValidUuid(id: string) {
    |id| <= 36 && (forall i :: 0 <= i < |id| ==> id[i] == '-' || IsHexDigit(id[i])) && '-' in id
  }

  /** Times and weekdays of an accepted request, moved to UTC. */
  predicate IsConverted(start: int, stop: int, weekdays: seq<Value>, b: Object, offset: int)
    requires AcceptedTimes(b)
  {
    var utc := Rebase(ParseTimeString(b["start_time"]).value, ParseTimeString(b["stop_time"]).value, -offset);
    start == utc.start && stop == utc.stop && ShiftedWeekdays(b["weekdays"].items, utc.dayShift) == Some(weekdays)
  }

  /** The update body carries the request, with times and weekdays moved to UTC. */
  predicate CarriesRequest(sent: Object, b: Object, offset: int)
    requires Accepted(b, true)
  {
    && CarriesTimes(sent, b, offset) && CarriesRest(sent, b)
  }

  predicate CarriesTimes(sent: Object, b: Object, offset: int)
    requires AcceptedTimes(b)
  {
    && "start_minute" in sent && sent["start_minute"].Int? && "stop_minute" in sent && sent["stop_minute"].Int?
    && HasArr(sent, "weekdays")
    && IsConverted(sent["start_minute"].n, sent["stop_minute"].n, sent["weekdays"].items, b, offset)
  }

  predicate CarriesRest(sent: Object, b: Object)
    requires Accepted(b, true)
  {
    && IsStr(sent, "name", Trim(b["name"].s)) && IsStr(sent, "target_kind", b["target_kind"].s)
    && IsStr(sent, "action_type", "BLOCK") && "enabled" in sent && sent["enabled"] == b["enabled"]
    && Optional(sent, "target_value") == (if b["target_kind"].s == "APP" then Some(Str(Trim(b["target_value"].s)))
                                          else Optional(b, "target_value"))
    && Optional(sent, "description") == (if HasStr(b, "description") then Some(Str(Trim(b["description"].s)))
                                         else Optional(b, "description"))
  }

  function Optional(o: Object, key: string): Option<Value> {
    if key in o then Some(o[key]) else None
  }

  datatype User = User(id: string, owner: string)

  /** The update is sent exactly for an authorised, well-formed request of a subscriber with a zone. */
  predicate Reaches(user: User, scheduleId: string, body: Option<Object>, remote: Remote, zones: Zones) {
    user.id != "" && scheduleId != "" && ValidUuid(scheduleId) && body.Some? && Accepted(body.value, true)
    && ZoneOf(remote, zones).Some?
  }

  /** The answer to a request that never reaches the update. */
  function EarlyStatus(user: User, scheduleId: string, body: Option<Object>, remote: Remote): int {
    if user.id == "" then 403
    else if scheduleId != "" && ValidUuid(scheduleId) && body.Some? && Accepted(body.value, true) then ZoneFailure(remote)
    else 400
  }

  /** Everything before the update: one failure answered, or a UTC body and a zone. */
  method PrepareUpdate(handler: Handler, body: Object, remote: Remote, zones: Zones, now: int)
      returns (zone: Option<string>, update: Object)
    modifies handler
    ensures zone == if Accepted(body, true) then ZoneOf(remote, zones) else None
    ensures zone.Some? ==> handler.sent == old(handler.sent) && CarriesRequest(update, body, zones[zone.value])
    ensures zone.None? ==>
              handler.sent == old(handler.sent) + [Failure(if Accepted(body, true) then ZoneFailure(remote) else 400)]
  {
    update := map[];
    var req := new ScheduleRequest();
    var parsed := ParseAndValidateScheduleRequest(handler, body, true, req);
    if !parsed {
      return None, update;
    }
    zone := ResolveSubscriberTimezone(handler, remote, zones);
    if zone.None? {
      return;
    }
    update := ConvertAndBuild(req, body, zones, zone.value, now);
  }

  method ConvertAndBuild(req: ScheduleRequest, ghost body: Object, zones: Zones, zone: string, now: int)
      returns (update: Object)
    requires Accepted(body, true) && Filled(req, body, true) && KnownZone(zones, zone)
    modifies req
    ensures CarriesRequest(update, body, zones[zone])
  {
    var converted := ConvertScheduleTimesToUtc(zones, zone, now, req);
    if !converted {
      // accepted weekdays always convert, so the 500 reply of this branch is never sent
      assert false;
    }
    update := BuildScheduleRequestBody(req);
    BodyCarriesTimes(req, body, zones[zone]);
    BodyCarriesRest(req, body);
  }

  lemma BodyCarriesTimes(req: ScheduleRequest, b: Object, offset: int)
    requires AcceptedTimes(b) && IsConverted(req.startMinute, req.stopMinute, req.weekdays, b, offset)
    ensures CarriesTimes(BuildScheduleRequestBody(req), b, offset)
  {
  }

  lemma BodyCarriesRest(req: ScheduleRequest, b: Object)
    requires Accepted(b, true) && req.name == Trim(b["name"].s) && TargetFilled(req, b) && OptionsFilled(req, b, true)
    ensures CarriesRest(BuildScheduleRequestBody(req), b)
  {
  }

  /** One PUT, from the first check to the one answer. */
  method DoPut(handler: Handler, gateway: Gateway, service: ScheduleService, user: User, scheduleId: string,
               body: Option<Object>, remote: Remote, zones: Zones, convertedAt: int, normalizedAt: int)
    modifies handler, gateway`pushed, service
    ensures OneMore(old(handler.sent), handler.sent)
    ensures var answer := handler.sent[|old(handler.sent)|];
            if Reaches(user, scheduleId, body, remote, zones) then
              var offset := zones[ZoneOf(remote, zones).value];
              && OneMore(old(service.received), service.received)
              && service.received[|old(service.received)|].subscriber == user.id
              && service.received[|old(service.received)|].schedule == scheduleId
              && CarriesRequest(service.received[|old(service.received)|].body, body.value, offset)
              && AnswerIsTrue(answer, gateway, old(gateway.pushed), user.owner, remote, offset)
              && (answer.Failure? && gateway.pushed != old(gateway.pushed)
                  <==> FailsAfterChange(gateway.documents, user.owner, remote, offset))
              && (gateway.pushed == old(gateway.pushed)
                  || ReachedOwn(gateway.documents, old(gateway.pushed), gateway.pushed, remote))
            else
              && service.received == old(service.received) && gateway.pushed == old(gateway.pushed)
              && answer == Failure(EarlyStatus(user, scheduleId, body, remote))
              && (user.id == "" ==> answer == Failure(403))
              && (user.id != "" && (scheduleId == "" || body.None? || !Accepted(body.value, true)) ==> answer == Failure(400))
  {
    if user.id == "" {
      handler.Send(Failure(403));
      return;
    }
    if scheduleId == "" || !ValidUuid(scheduleId) || body.None? {
      handler.Send(Failure(400));
      return;
    }
    var zone, update := PrepareUpdate(handler, body.value, remote, zones, convertedAt);
    if zone.None? {
      return;
    }
    service.received := service.received + [Update(user.id, scheduleId, update)];
    HandleMutationResult(handler, gateway, user.owner, zones, zone.value, normalizedAt, remote);
  }

  // ---------------------------------------------------------------- what the update means

  lemma ShiftedDaySet(days: seq<Value>, shift: int)
    requires ValidWeekdays(days)
    ensures ShiftedWeekdays(days, shift).Some?
    ensures var there := ShiftedWeekdays(days, shift).value;
            AllInts(there) && DaySet(there) == ShiftSet(DaySet(days), shift)
  {
    var s := DaySet(days);
    assert forall d :: d in s ==> 0 <= d <= 6;
    if shift == 0 {
      assert forall d :: d in s ==> MoveDay(d, 0) == d;
      assert ShiftSet(s, 0) == s;
    } else {
      var moved := ShiftSet(s, shift);
      AscendingDays(moved, 7);
      assert (set d | d in moved && 0 <= d < 7) == moved;
    }
  }

  /**
   The update a PUT sends, stored as a rule, blocks at an instant if and only if the
   subscriber's clock is then inside a window of the request.
   */
  lemma UpdateMeansRequest(sent: Object, b: Object, offset: int, macs: seq<string>, t: int)
    requires Accepted(b, true) && CarriesRequest(sent, b, offset) && macs != [] && ClockInRange(t)
    ensures MinuteOfDay(sent["start_minute"].n) && MinuteOfDay(sent["stop_minute"].n) && AllInts(sent["weekdays"].items)
    ensures Evaluate(RuleOfSchedule(sent["start_minute"].n, sent["stop_minute"].n, DaySet(sent["weekdays"].items), macs), t).active
            <==> Covers(ParseTimeString(b["start_time"]).value * 60, ParseTimeString(b["stop_time"]).value * 60,
                        DaySet(b["weekdays"].items), t + offset * 60_000_000)
  {
    var start, stop := ParseTimeString(b["start_time"]).value, ParseTimeString(b["stop_time"]).value;
    ShiftedDaySet(b["weekdays"].items, Rebase(start, stop, -offset).dayShift);
    ConvertPreservesMeaning(start, stop, DaySet(b["weekdays"].items), offset, macs, t);
  }

  // ---------------------------------------------------------------- an error that hides a change

  const SOME_BODY: Object :=
    map["name" := Str("n"), "enabled" := Bool(true), "action_type" := Str("BLOCK"), "target_kind" := Str("INTERNET"),
        "start_time" := Str("08:00"), "stop_time" := Str("09:00"), "weekdays" := Arr([Int(1)])]

  /** Everything works, and the returned object has an empty snapshot and no minutes. */
  const NO_MINUTES: Remote :=
    Remote(Venues(["home"]), map["home" := Location("UTC")], true, 200, Some(map["config-raw" := Arr([])]), Some([("gw", "olg")]), true, true)

  lemma SomeBodyIsAccepted()
    ensures Accepted(SOME_BODY, true)
  {
    assert Trim("n") == "n";
    assert ParseTimeString(Str("08:00")) == Some(480) && ParseTimeString(Str("09:00")) == Some(540);
    assert SOME_BODY["weekdays"].items == [Int(1)];
  }

  const ONE_GATEWAY: map<string, Object> := map["gw" := map["configuration" := Obj(map["radios" := Arr([Null])])]]
  const EMPTIED := Push("gw", map["radios" := Arr([Null]), "config-raw" := Arr([])])

  lemma SomeBodyReaches()
    ensures Reaches(User("u", "o"), "-", Some(SOME_BODY), NO_MINUTES, map["UTC" := 0])
  {
    SomeBodyIsAccepted();
  }

  /** The gateway takes the snapshot, and the schedule cannot be shown. */
  lemma NoMinutesFailsAfterChange()
    ensures FailsAfterChange(ONE_GATEWAY, "o", NO_MINUTES, 0)
    ensures PushedAfter(ONE_GATEWAY, [], "o", NO_MINUTES) == [EMPTIED]
  {
    assert ToLower("olg") == "olg";
    assert GatewaySerial([("gw", "olg")]) == "gw";
  }

  /** Any such request, served by new parties. */
  method FirstPut(documents: map<string, Object>, user: User, scheduleId: string, body: Option<Object>, remote: Remote,
                  zones: Zones) returns (handler: Handler, gateway: Gateway)
    requires Reaches(user, scheduleId, body, remote, zones)
    requires FailsAfterChange(documents, user.owner, remote, zones[ZoneOf(remote, zones).value])
    ensures handler.sent == [Failure(RefusalStatus(user.owner, remote))]
    ensures gateway.pushed == PushedAfter(documents, [], user.owner, remote)
  {
    handler := new Handler;
    handler.sent := [];
    gateway := new Gateway;
    gateway.documents, gateway.pushed := documents, [];
    var service := new ScheduleService;
    DoPut(handler, gateway, service, user, scheduleId, body, remote, zones, 0, 0);
  }

  /** The property "an error leaves the gateway alone" fails here: 500 is answered and the gateway was written. */
  method ErrorAfterChange() returns (handler: Handler, gateway: Gateway)
    ensures handler.sent == [Failure(500)] && gateway.pushed == [EMPTIED]
  {
    SomeBodyReaches();
    NoMinutesFailsAfterChange();
    handler, gateway := FirstPut(ONE_GATEWAY, User("u", "o"), "-", Some(SOME_BODY), NO_MINUTES, map["UTC" := 0]);
  }
}
