/**
 Adding and removing subscriber devices: a sequence of remote calls, any of which
 may fail, ending in at most one change to the provisioning store.
 */
module Onboarding {
  import opened Text
  import opened Json
  import RuleTable
  import C = ConfigMaker

  datatype Device = Device(name: string, serial: string, subscriber: string, group: string,
                           configuration: seq<C.Element>)

  class Store {
    /** Provisioning records in creation order; nothing here forces serials to differ. */
    var devices: seq<Device>
  }

  datatype LookupReply = LookupAnswered | LookupFailed
  /** `CreatedUnreadable`: the record exists but its echo could not be parsed, so the call reports failure. */
  datatype CreateReply = Rejected | Created | CreatedUnreadable

  /** How the remote services behave during one request; failures have no effect. */
  datatype Remote = Remote(list: LookupReply, lookup: LookupReply, inInventory: bool,
                           configs: map<string, Object>, create: CreateReply, deletes: bool)

  /** The configuration the controller returns for a serial, if the call works. */
  function Fetched(remote: Remote, serial: string): Option<Object> {
    if serial in remote.configs then Some(remote.configs[serial]) else None
  }

  datatype Reply = Ok | UnAuthorized | BadRequest | InternalError | Forwarded

  // ---------------------------------------------------------------- views of the store

  function DevicesOf(devices: seq<Device>, subscriber: string): seq<Device> {
    if devices == [] then []
    else
      var front := DevicesOf(devices[..|devices| - 1], subscriber);
      if devices[|devices| - 1].subscriber == subscriber then front + [devices[|devices| - 1]] else front
  }

  predicate HasSerial(devices: seq<Device>, serial: string) {
    exists i :: 0 <= i < |devices| && devices[i].serial == serial
  }

  predicate IsGateway(d: Device) {
    ToLower(d.group) == "olg"
  }

  predicate HasGateway(devices: seq<Device>, subscriber: string) {
    exists i :: 0 <= i < |devices| && devices[i].subscriber == subscriber && IsGateway(devices[i])
  }

  function Without(devices: seq<Device>, serial: string): seq<Device> {
    if devices == [] then []
    else
      var front := Without(devices[..|devices| - 1], serial);
      if devices[|devices| - 1].serial == serial then front else front + [devices[|devices| - 1]]
  }

  lemma {:induction false} DevicesOfMembers(devices: seq<Device>, subscriber: string, d: Device)
    ensures d in DevicesOf(devices, subscriber) <==> d in devices && d.subscriber == subscriber
  {
    if devices != [] {
      DevicesOfMembers(devices[..|devices| - 1], subscriber, d);
      assert devices == devices[..|devices| - 1] + [devices[|devices| - 1]];
    }
  }

  // ---------------------------------------------------------------- what one request may do

  /** The store grew by `d`: a new serial, and a gateway exactly when it is the subscriber's first device. */
  predicate Adds(before: seq<Device>, after: seq<Device>, d: Device) {
    && after == before + [d]
    && !HasSerial(before, d.serial)
    && (if DevicesOf(before, d.subscriber) == [] then d.group == "olg"
        else d.group == "ap" && HasGateway(before, d.subscriber))
  }

  predicate IsFirstGateway(devices: seq<Device>, i: nat) {
    i < |devices| && IsGateway(devices[i]) && forall j :: 0 <= j < i ==> !IsGateway(devices[j])
  }

  /** A gateway's sections come from its own fetched configuration, rewritten for its serial. */
  predicate GatewaySections(config: Option<Object>, mac: string, sections: seq<C.Element>) {
    && C.ValidConfig(config)
    && var rewritten := C.RewriteDevice(config.value, C.CredentialsFor(mac));
       HasObj(rewritten, "configuration") && C.IsSectionList(rewritten["configuration"].fields, sections)
  }

  /** An access point's sections are the mesh form of an accepted gateway configuration. */
  predicate MeshSections(config: Option<Object>, sections: seq<C.Element>) {
    C.ValidConfig(config) && C.MeshConfig(config).Some? && C.IsSectionList(C.MeshConfig(config).value, sections)
  }

  /** The subscriber's first gateway has a serial and an accepted configuration. */
  ghost predicate MeshReady(existing: seq<Device>, remote: Remote) {
    exists i: nat :: IsFirstGateway(existing, i) && existing[i].serial != ""
                     && C.ValidConfig(Fetched(remote, existing[i].serial))
  }

  /** The stored sections come from the device's own configuration or from that of the subscriber's first gateway. */
  ghost predicate Configured(d: Device, existing: seq<Device>, remote: Remote) {
    if d.group == "olg" then GatewaySections(Fetched(remote, d.serial), d.serial, d.configuration)
    else exists i: nat :: IsFirstGateway(existing, i) && MeshSections(Fetched(remote, existing[i].serial), d.configuration)
  }

  /** Exactly the add requests that reach the store. */
  ghost predicate Admissible(devices: seq<Device>, user: string, mac: Option<string>, remote: Remote) {
    && user != "" && mac.Some?
    && remote.list.LookupAnswered? && remote.lookup.LookupAnswered? && !HasSerial(devices, mac.value) && remote.inInventory
    && (if DevicesOf(devices, user) == [] then C.ValidConfig(Fetched(remote, mac.value))
        else MeshReady(DevicesOf(devices, user), remote))
    && !remote.create.Rejected?
  }

  class AddDeviceContext {
    var mac: string
    var deviceName: string
    var deviceGroup: string
    var existing: seq<Device>
    const sub: C.SubscriberDevice

    constructor (mac: string)
      ensures this.mac == mac && existing == [] && fresh(sub)
    {
      this.mac, deviceName, deviceGroup, existing := mac, "", "", [];
      sub := new C.SubscriberDevice();
    }
  }

  method FetchSubscriberDevices(ctx: AddDeviceContext, store: Store, user: string, remote: Remote) returns (ok: bool)
    modifies ctx`existing
    ensures ok == remote.list.LookupAnswered?
    ensures ok ==> ctx.existing == DevicesOf(store.devices, user)
  {
    if remote.list.LookupFailed? {
      return false;
    }
    ctx.existing := DevicesOf(store.devices, user);
    return true;
  }

  /** A refusal when the serial is taken, or when that could not be found out. */
  method IsDeviceAlreadyProvisioned(ctx: AddDeviceContext, store: Store, user: string, remote: Remote)
      returns (refusal: Option<Reply>)
    requires ctx.existing == DevicesOf(store.devices, user)
    ensures refusal.Some? <==> HasSerial(store.devices, ctx.mac) || remote.lookup.LookupFailed?
    ensures refusal.Some? ==> refusal.value == BadRequest || refusal.value == Forwarded
  {
    for i := 0 to |ctx.existing|
      invariant forall k :: 0 <= k < i ==> ctx.existing[k].serial != ctx.mac
    {
      if ctx.existing[i].serial == ctx.mac {
        DevicesOfMembers(store.devices, user, ctx.existing[i]);
        assert ctx.existing[i] in store.devices;
        return Some(BadRequest);
      }
    }
    if remote.lookup.LookupFailed? {
      return Some(Forwarded);
    }
    return if HasSerial(store.devices, ctx.mac) then Some(BadRequest) else None;
  }

  method InitializeSubscriberDevice(ctx: AddDeviceContext)
    modifies ctx`deviceGroup, ctx`deviceName
    ensures ctx.deviceGroup == if ctx.existing == [] then "olg" else "ap"
    ensures ctx.deviceName == "Device-" + Decimal(|ctx.existing| + 1)
  {
    ctx.deviceGroup := if ctx.existing == [] then "olg" else "ap";
    ctx.deviceName := "Device-" + Decimal(|ctx.existing| + 1);
  }

  method PrepareGatewayConfiguration(ctx: AddDeviceContext, remote: Remote) returns (refusal: Option<Reply>)
    modifies ctx.sub
    ensures refusal.None? <==> C.ValidConfig(Fetched(remote, ctx.mac))
    ensures refusal == Some(Forwarded) <==> ctx.mac !in remote.configs
    ensures refusal.Some? ==> refusal.value == Forwarded || refusal.value == InternalError
    ensures refusal.None? ==> GatewaySections(Fetched(remote, ctx.mac), ctx.mac, ctx.sub.configuration)
  {
    if Fetched(remote, ctx.mac).None? {
      return Some(Forwarded);
    }
    var config := new JsonObject(Fetched(remote, ctx.mac).value);
    var ok := C.BuildGatewayConfig(config, ctx.mac, ctx.sub);
    return if ok then None else Some(InternalError);
  }

  /** Needs a gateway among the existing devices and that gateway's accepted configuration. */
  method PrepareMeshConfiguration(ctx: AddDeviceContext, remote: Remote) returns (ok: bool)
    modifies ctx.sub
    ensures ok <==> MeshReady(ctx.existing, remote)
    ensures ok ==> exists i: nat :: IsFirstGateway(ctx.existing, i)
                                    && MeshSections(Fetched(remote, ctx.existing[i].serial), ctx.sub.configuration)
  {
    var gatewayMac := "";
    var i := 0;
    while i < |ctx.existing|
      invariant 0 <= i <= |ctx.existing| && gatewayMac == ""
      invariant forall j :: 0 <= j < i ==> !IsGateway(ctx.existing[j])
    {
      if ToLower(ctx.existing[i].group) == "olg" {
        gatewayMac := ctx.existing[i].serial;
        break;
      }
      i := i + 1;
    }
    assert i < |ctx.existing| ==> IsFirstGateway(ctx.existing, i);
    if gatewayMac == "" {
      return false;
    }
    var config := Fetched(remote, gatewayMac);
    if config.None? {
      return false;
    }
    var valid := C.ValidateConfig(config);
    if !valid {
      return false;
    }
    C.MeshIsLocal(config.value);
    var meshConfig := C.BuildMeshConfig(config);
    if meshConfig.None? {
      return false;
    }
    ok := C.AppendWeightedSections(meshConfig, ctx.sub);
  }

  /** The add request: the store grows by one admissible and configured device exactly when it can. */
  method DoPost(store: Store, user: string, macBinding: string, remote: Remote) returns (reply: Reply)
    modifies store
    ensures var mac := RuleTable.NormalizeMac(macBinding);
            if Admissible(old(store.devices), user, mac, remote) then
              && |store.devices| > 0
              && var d := store.devices[|store.devices| - 1];
                 && Adds(old(store.devices), store.devices, d)
                 && d.subscriber == user && d.serial == mac.value
                 && d.name == "Device-" + Decimal(|DevicesOf(old(store.devices), user)| + 1)
                 && Configured(d, DevicesOf(old(store.devices), user), remote)
            else store.devices == old(store.devices)
    ensures reply == Ok <==> Admissible(old(store.devices), user, RuleTable.NormalizeMac(macBinding), remote)
                             && remote.create == Created
    ensures reply == UnAuthorized <==> user == ""
    ensures Step(old(store.devices), store.devices)
  {
    if user == "" {
      return UnAuthorized;
    }
    var mac := RuleTable.NormalizeMac(macBinding);
    if mac.None? {
      return BadRequest;
    }
    var ctx := new AddDeviceContext(mac.value);
    var fetched := FetchSubscriberDevices(ctx, store, user, remote);
    if !fetched {
      return InternalError;
    }
    var refusal := IsDeviceAlreadyProvisioned(ctx, store, user, remote);
    if refusal.Some? {
      return refusal.value;
    }
    if !remote.inInventory {
      return BadRequest;
    }
    refusal := PrepareDevice(ctx, store, user, remote);
    if refusal.Some? {
      return refusal.value;
    }
    if remote.create.Rejected? {
      return Forwarded;
    }
    var d := Device(ctx.deviceName, ctx.mac, user, ctx.deviceGroup, ctx.sub.configuration);
    AddedAtEnd(store.devices, d);
    store.devices := store.devices + [d];
    return if remote.create.Created? then Ok else Forwarded;
  }

  /** Group, name and configuration of the device to be added. */
  method PrepareDevice(ctx: AddDeviceContext, store: Store, user: string, remote: Remote) returns (refusal: Option<Reply>)
    requires ctx.existing == DevicesOf(store.devices, user)
    modifies ctx`deviceGroup, ctx`deviceName, ctx.sub
    ensures refusal.None? <==> if ctx.existing == [] then C.ValidConfig(Fetched(remote, ctx.mac))
                               else MeshReady(ctx.existing, remote)
    ensures refusal.Some? ==> refusal.value != Ok && refusal.value != UnAuthorized
    ensures ctx.deviceGroup == (if ctx.existing == [] then "olg" else "ap")
    ensures ctx.deviceName == "Device-" + Decimal(|ctx.existing| + 1)
    ensures refusal.None? ==>
              var d := Device(ctx.deviceName, ctx.mac, user, ctx.deviceGroup, ctx.sub.configuration);
              Configured(d, ctx.existing, remote) && (ctx.existing != [] ==> HasGateway(store.devices, user))
  {
    InitializeSubscriberDevice(ctx);
    if ctx.deviceGroup == "olg" {
      refusal := PrepareGatewayConfiguration(ctx, remote);
    } else {
      var prepared := PrepareMeshConfiguration(ctx, remote);
      refusal := if prepared then None else Some(InternalError);
      if prepared { ReadyMeansGateway(store.devices, user, remote); }
    }
  }

  lemma ReadyMeansGateway(devices: seq<Device>, user: string, remote: Remote)
    requires MeshReady(DevicesOf(devices, user), remote)
    ensures HasGateway(devices, user)
  {
    var mine := DevicesOf(devices, user);
    var i: nat :| IsFirstGateway(mine, i);
    DevicesOfMembers(devices, user, mine[i]);
    var k :| 0 <= k < |devices| && devices[k] == mine[i];
  }

  lemma AddedAtEnd(before: seq<Device>, d: Device)
    requires !HasSerial(before, d.serial)
    requires if DevicesOf(before, d.subscriber) == [] then d.group == "olg"
             else d.group == "ap" && HasGateway(before, d.subscriber)
    ensures (before + [d])[|before|] == d && Adds(before, before + [d], d) && Step(before, before + [d])
  {
  }

  /** The delete request: the serial's records go, whoever owns them, exactly when Ok is answered. */
  method DoDelete(store: Store, user: string, macBinding: string, remote: Remote) returns (reply: Reply)
    modifies store
    ensures reply == Ok <==> user != "" && RuleTable.NormalizeMac(macBinding).Some? && remote.deletes
    ensures reply == UnAuthorized <==> user == ""
    ensures reply == BadRequest <==> user != "" && RuleTable.NormalizeMac(macBinding).None?
    ensures store.devices == if reply == Ok then Without(old(store.devices), RuleTable.NormalizeMac(macBinding).value)
                             else old(store.devices)
    ensures Step(old(store.devices), store.devices)
  {
    if user == "" {
      return UnAuthorized;
    }
    var mac := RuleTable.NormalizeMac(macBinding);
    if mac.None? {
      return BadRequest;
    }
    if !remote.deletes {
      return Forwarded;
    }
    store.devices := Without(store.devices, mac.value);
    return Ok;
  }

  // ---------------------------------------------------------------- every run keeps the store sound

  /** Different serials, and not two gateways of one subscriber. */
  predicate Compatible(d: Device, e: Device) {
    d.serial != e.serial && (d.subscriber == e.subscriber ==> !(IsGateway(d) && IsGateway(e)))
  }

  /** Serials are unique and no subscriber has two gateways. */
  predicate Sound(devices: seq<Device>) {
    forall i, j :: 0 <= i < j < |devices| ==> Compatible(devices[i], devices[j])
  }

  /** What any add or delete request, successful or not, does to the store. */
  ghost predicate Step(before: seq<Device>, after: seq<Device>) {
    || after == before
    || (|after| > 0 && Adds(before, after, after[|after| - 1]))
    || (exists serial :: after == Without(before, serial))
  }

  /** A delete removes exactly the records of its serial. */
  lemma {:induction false} WithoutMember(devices: seq<Device>, serial: string, d: Device)
    ensures d in Without(devices, serial) <==> d in devices && d.serial != serial
  {
    if devices != [] {
      WithoutMember(devices[..|devices| - 1], serial, d);
      assert devices == devices[..|devices| - 1] + [devices[|devices| - 1]];
    }
  }

  lemma SoundAppend(devices: seq<Device>, d: Device)
    requires Sound(devices) && forall e :: e in devices ==> Compatible(e, d)
    ensures Sound(devices + [d])
  {
  }

  lemma {:induction false} WithoutKeepsSound(devices: seq<Device>, serial: string)
    requires Sound(devices)
    ensures Sound(Without(devices, serial))
  {
    if devices != [] {
      var front, d := devices[..|devices| - 1], devices[|devices| - 1];
      WithoutKeepsSound(front, serial);
      forall e | e in Without(front, serial) ensures Compatible(e, d) {
        WithoutMember(front, serial, e);
      }
      SoundAppend(Without(front, serial), d);
    }
  }

  lemma StepKeepsSound(before: seq<Device>, after: seq<Device>)
    requires Sound(before) && Step(before, after)
    ensures Sound(after)
  {
    if after == before {
    } else if |after| > 0 && Adds(before, after, after[|after| - 1]) {
      AddKeepsSound(before, after[|after| - 1]);
    } else {
      var serial :| after == Without(before, serial);
      WithoutKeepsSound(before, serial);
    }
  }

  lemma AddKeepsSound(before: seq<Device>, d: Device)
    requires Sound(before) && Adds(before, before + [d], d)
    ensures Sound(before + [d])
  {
    assert ToLower("ap")[0] == 'a';
    forall e | e in before ensures Compatible(e, d) {
      DevicesOfMembers(before, d.subscriber, e);
    }
    SoundAppend(before, d);
  }

  lemma {:induction false} StatesAreSound(states: seq<seq<Device>>)
    requires states != [] && Sound(states[0])
    requires forall i :: 0 <= i < |states| - 1 ==> Step(states[i], states[i + 1])
    ensures forall i :: 0 <= i < |states| ==> Sound(states[i])
  {
    var n := |states| - 1;
    if n > 0 {
      StatesAreSound(states[..n]);
      assert Step(states[n - 1], states[n]) && Sound(states[..n][n - 1]);
      StepKeepsSound(states[n - 1], states[n]);
    }
  }

  /** Over any run: every state is sound, and a non-gateway appears only where a gateway already is. */
  lemma RunsAreSound(states: seq<seq<Device>>)
    requires states != [] && Sound(states[0])
    requires forall i :: 0 <= i < |states| - 1 ==> Step(states[i], states[i + 1])
    ensures forall i :: 0 <= i < |states| ==> Sound(states[i])
    ensures forall i, d :: 0 <= i < |states| - 1 && d in states[i + 1] && d !in states[i] && !IsGateway(d) ==>
              HasGateway(states[i], d.subscriber)
  {
    StatesAreSound(states);
    forall i, d | 0 <= i < |states| - 1 && d in states[i + 1] && d !in states[i] && !IsGateway(d)
      ensures HasGateway(states[i], d.subscriber)
    {
      NewcomersAreAdded(states[i], states[i + 1], d);
    }
  }

  lemma NewcomersAreAdded(before: seq<Device>, after: seq<Device>, d: Device)
    requires Step(before, after) && d in after && d !in before
    ensures Adds(before, after, d)
    ensures IsGateway(d) || HasGateway(before, d.subscriber)
  {
    if |after| > 0 && Adds(before, after, after[|after| - 1]) {
      assert ToLower("olg") == "olg";
    } else {
      var serial :| after == Without(before, serial);
      WithoutMember(before, serial, d);
    }
  }
}
