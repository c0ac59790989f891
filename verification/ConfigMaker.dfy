/**
 Device configurations: the validator, the gateway rewrite that sets default SSIDs
 and keys, the mesh rewrite, and the weighted sections stored in provisioning.
 */
module ConfigMaker {
  import opened Text
  import opened Json

  const DEFAULT_SSID_PREFIX := "OpenWifi-"

  // ---------------------------------------------------------------- what a valid configuration is

  predicate HasMode(ssid: Value, mode: string) {
    ssid.Obj? && IsStr(ssid.fields, "bss-mode", mode)
  }

  predicate ValidSsids(ssids: seq<Value>) {
    && ssids != []
    && (forall j :: 0 <= j < |ssids| ==> ssids[j].Obj? && HasStr(ssids[j].fields, "bss-mode"))
    && (exists j :: 0 <= j < |ssids| && HasMode(ssids[j], "ap"))
    && (exists j :: 0 <= j < |ssids| && HasMode(ssids[j], "mesh"))
  }

  predicate ValidUpstream(f: Object) {
    IsStr(f, "role", "upstream") && (HasArr(f, "ssids") ==> f["ssids"].items == [])
  }

  predicate ValidDownstream(f: Object) {
    && IsStr(f, "role", "downstream")
    && HasObj(f, "ipv4") && IsStr(f["ipv4"].fields, "addressing", "static")
    && HasObj(f, "tunnel") && IsStr(f["tunnel"].fields, "proto", "mesh")
    && HasArr(f, "ssids") && ValidSsids(f["ssids"].items)
  }

  predicate IsDownstream(v: Value) {
    v.Obj? && IsStr(v.fields, "role", "downstream")
  }

  predicate ValidInterfaces(ifaces: seq<Value>) {
    && (forall i :: 0 <= i < |ifaces| ==>
          ifaces[i].Obj? && (ValidUpstream(ifaces[i].fields) || ValidDownstream(ifaces[i].fields)))
    && (exists i :: 0 <= i < |ifaces| && IsDownstream(ifaces[i]))
  }

  /** Every interface is a clean upstream or a static mesh downstream with both SSID kinds, and one is downstream. */
  predicate ValidConfig(c: Option<Object>) {
    && c.Some? && HasObj(c.value, "configuration")
    && HasArr(c.value["configuration"].fields, "interfaces")
    && ValidInterfaces(c.value["configuration"].fields["interfaces"].items)
  }

  // ---------------------------------------------------------------- the validator

  method CheckSsids(ssids: seq<Value>) returns (ok: bool)
    ensures ok <==> ValidSsids(ssids)
  {
    if |ssids| == 0 {
      return false;
    }
    var meshSsidFound, apSsidFound := false, false;
    for j := 0 to |ssids|
      invariant forall k :: 0 <= k < j ==> ssids[k].Obj? && HasStr(ssids[k].fields, "bss-mode")
      invariant apSsidFound <==> exists k :: 0 <= k < j && HasMode(ssids[k], "ap")
      invariant meshSsidFound <==> exists k :: 0 <= k < j && HasMode(ssids[k], "mesh")
    {
      if !ssids[j].Obj? || !HasStr(ssids[j].fields, "bss-mode") {
        return false;
      }
      var mode := ssids[j].fields["bss-mode"].s;
      if mode == "ap" {
        apSsidFound := true;
      } else if mode == "mesh" {
        meshSsidFound := true;
      }
    }
    return apSsidFound && meshSsidFound;
  }

  method CheckDownstream(f: Object) returns (ok: bool)
    requires IsStr(f, "role", "downstream")
    ensures ok <==> ValidDownstream(f)
  {
    if !HasObj(f, "ipv4") || !IsStr(f["ipv4"].fields, "addressing", "static") {
      return false;
    }
    if !HasObj(f, "tunnel") || !IsStr(f["tunnel"].fields, "proto", "mesh") {
      return false;
    }
    if !HasArr(f, "ssids") {
      return false;
    }
    ok := CheckSsids(f["ssids"].items);
  }

  method ValidateConfig(deviceConfig: Option<Object>) returns (ok: bool)
    ensures ok <==> ValidConfig(deviceConfig)
  {
    if deviceConfig.None? || !HasObj(deviceConfig.value, "configuration") {
      return false;
    }
    var configuration := deviceConfig.value["configuration"].fields;
    if !HasArr(configuration, "interfaces") {
      return false;
    }
    ok := CheckInterfaces(configuration["interfaces"].items);
  }

  method CheckInterfaces(interfaces: seq<Value>) returns (ok: bool)
    ensures ok <==> ValidInterfaces(interfaces)
  {
    if |interfaces| == 0 {
      return false;
    }
    var downstreamFound := false;
    for i := 0 to |interfaces|
      invariant forall k :: 0 <= k < i ==>
                  interfaces[k].Obj? && (ValidUpstream(interfaces[k].fields) || ValidDownstream(interfaces[k].fields))
      invariant downstreamFound <==> exists k :: 0 <= k < i && IsDownstream(interfaces[k])
    {
      if !interfaces[i].Obj? || !HasStr(interfaces[i].fields, "role") {
        return false;
      }
      var f := interfaces[i].fields;
      var role := f["role"].s;
      if role == "upstream" {
        if HasArr(f, "ssids") && |f["ssids"].items| != 0 {
          return false;
        }
      } else {
        if role != "downstream" {
          return false;
        }
        downstreamFound := true;
        var good := CheckDownstream(f);
        if !good {
          return false;
        }
      }
    }
    return downstreamFound;
  }

  // ---------------------------------------------------------------- gateway rewrite

  function BuildDefaultSsid(mac: string): string {
    DEFAULT_SSID_PREFIX + (if |mac| > 8 then mac[8..] else mac)
  }

  datatype Credentials = Credentials(ssid: string, key: string)

  function CredentialsFor(mac: string): Credentials {
    Credentials(BuildDefaultSsid(mac), ToUpper(mac))
  }

  /** A new key for ap and mesh, a new name for ap; nothing without an encryption object. */
  function RewriteSsid(v: Value, c: Credentials): Value {
    if !v.Obj? || !HasStr(v.fields, "bss-mode") || !HasObj(v.fields, "encryption") then v
    else
      var keyed := Obj(v.fields["encryption"].fields["key" := Str(c.key)]);
      if v.fields["bss-mode"].s == "ap" then Obj(v.fields["name" := Str(c.ssid)]["encryption" := keyed])
      else if v.fields["bss-mode"].s == "mesh" then Obj(v.fields["encryption" := keyed])
      else v
  }

  function RewriteSsids(s: seq<Value>, c: Credentials): seq<Value> {
    seq(|s|, j requires 0 <= j < |s| => RewriteSsid(s[j], c))
  }

  function RewriteInterface(v: Value, c: Credentials): Value {
    if !v.Obj? || !HasArr(v.fields, "ssids") then v
    else Obj(v.fields["ssids" := Arr(RewriteSsids(v.fields["ssids"].items, c))])
  }

  function RewriteInterfaces(s: seq<Value>, c: Credentials): seq<Value> {
    seq(|s|, i requires 0 <= i < |s| => RewriteInterface(s[i], c))
  }

  /** The whole device document after the in-place edits. */
  function RewriteDevice(d: Object, c: Credentials): Object
    requires ValidConfig(Some(d))
  {
    var cfg := d["configuration"].fields;
    d["configuration" := Obj(cfg["interfaces" := Arr(RewriteInterfaces(cfg["interfaces"].items, c))])]
  }

  method RewriteAll(interfaces: seq<Value>, c: Credentials) returns (r: seq<Value>)
    ensures r == RewriteInterfaces(interfaces, c)
  {
    r := interfaces;
    var i := 0;
    while i < |interfaces|
      invariant 0 <= i <= |interfaces| && |r| == |interfaces|
      invariant forall k :: 0 <= k < i ==> r[k] == RewriteInterface(interfaces[k], c)
      invariant forall k :: i <= k < |r| ==> r[k] == interfaces[k]
    {
      if r[i].Obj? && HasArr(r[i].fields, "ssids") {
        var ssids := EditSsids(r[i].fields["ssids"].items, c);
        r := r[i := Obj(r[i].fields["ssids" := Arr(ssids)])];
      }
      i := i + 1;
    }
  }

  method EditSsids(items: seq<Value>, c: Credentials) returns (ssids: seq<Value>)
    ensures ssids == RewriteSsids(items, c)
  {
    ssids := items;
    var j := 0;
    while j < |items|
      invariant 0 <= j <= |items| && |ssids| == |items|
      invariant forall k :: 0 <= k < j ==> ssids[k] == RewriteSsid(items[k], c)
      invariant forall k :: j <= k < |ssids| ==> ssids[k] == items[k]
    {
      if ssids[j].Obj? && HasStr(ssids[j].fields, "bss-mode") && HasObj(ssids[j].fields, "encryption") {
        var ssid := ssids[j].fields;
        var bssMode := ssid["bss-mode"].s;
        var encryption := ssid["encryption"].fields;
        if bssMode == "ap" {
          ssid := ssid["name" := Str(c.ssid)];
          encryption := encryption["key" := Str(c.key)];
          ssid := ssid["encryption" := Obj(encryption)];
        } else if bssMode == "mesh" {
          encryption := encryption["key" := Str(c.key)];
          ssid := ssid["encryption" := Obj(encryption)];
        }
        ssids := ssids[j := Obj(ssid)];
      }
      j := j + 1;
    }
  }

  // ---------------------------------------------------------------- weighted sections

  datatype Element = Element(name: string, weight: int, configuration: Object)

  class SubscriberDevice {
    var configuration: seq<Element>

    constructor ()
      ensures configuration == []
    {
      configuration := [];
    }
  }

  predicate IsSection(cfg: Object, name: string) {
    HasObj(cfg, name) || HasArr(cfg, name)
  }

  function NamesOf(list: seq<Element>): seq<string> {
    seq(|list|, i requires 0 <= i < |list| => list[i].name)
  }

  predicate WrapsMember(cfg: Object, e: Element) {
    IsSection(cfg, e.name) && e == Element(e.name, 1, map[e.name := cfg[e.name]])
  }

  /** One element per object or array member, in name order, each wrapping its member under its name. */
  predicate IsSectionList(cfg: Object, list: seq<Element>) {
    && InOrder(NamesOf(list))
    && (forall i :: 0 <= i < |list| ==> WrapsMember(cfg, list[i]))
    && (forall n :: n in cfg && IsSection(cfg, n) ==> n in NamesOf(list))
  }

  /** The sections among the given members, in their order. */
  function SectionsAmong(cfg: Object, keys: seq<string>): seq<Element> {
    if keys == [] then []
    else
      var front, n := SectionsAmong(cfg, keys[..|keys| - 1]), keys[|keys| - 1];
      if IsSection(cfg, n) then front + [Element(n, 1, map[n := cfg[n]])] else front
  }

  lemma {:induction false} SectionsAreList(cfg: Object, keys: seq<string>)
    requires InOrder(keys)
    ensures var list := SectionsAmong(cfg, keys);
            && InOrder(NamesOf(list))
            && (forall i :: 0 <= i < |list| ==> WrapsMember(cfg, list[i]))
            && (forall n :: n in NamesOf(list) <==> n in keys && IsSection(cfg, n))
  {
    if keys != [] {
      var before, n := keys[..|keys| - 1], keys[|keys| - 1];
      SectionsAreList(cfg, before);
      var front, list := SectionsAmong(cfg, before), SectionsAmong(cfg, keys);
      assert keys == before + [n];
      if IsSection(cfg, n) {
        assert NamesOf(list) == NamesOf(front) + [n];
        forall i | 0 <= i < |front| ensures Less(NamesOf(front)[i], n) {
          assert NamesOf(front)[i] in before;
        }
      }
    }
  }

  /** Clears what an earlier attempt may have left, then appends in name order. */
  method AppendWeightedSections(config: Option<Object>, device: SubscriberDevice) returns (ok: bool)
    modifies device
    ensures ok == config.Some?
    ensures ok ==> IsSectionList(config.value, device.configuration)
    ensures !ok ==> unchanged(device)
  {
    if config.None? {
      return false;
    }
    device.configuration := [];
    var cfg := config.value;
    var keys := SortedKeys(cfg.Keys);
    for k := 0 to |keys|
      invariant device.configuration == SectionsAmong(cfg, keys[..k])
    {
      var name := keys[k];
      assert keys[..k + 1][..k] == keys[..k];
      if HasObj(cfg, name) || HasArr(cfg, name) {
        device.configuration := device.configuration + [Element(name, 1, map[name := cfg[name]])];
      }
    }
    assert keys[..|keys|] == keys;
    SectionsAreList(cfg, keys);
    return true;
  }

  /** Validation, in-place rewrite, sections; an invalid source is left alone. */
  method BuildGatewayConfig(deviceConfig: JsonObject?, mac: string, device: SubscriberDevice) returns (ok: bool)
    modifies deviceConfig, device
    ensures deviceConfig == null ==> !ok
    ensures deviceConfig != null ==> ok == ValidConfig(Some(old(deviceConfig.fields)))
    ensures !ok ==> unchanged(device) && (deviceConfig != null ==> unchanged(deviceConfig))
    ensures ok ==> deviceConfig.fields == RewriteDevice(old(deviceConfig.fields), CredentialsFor(mac))
    ensures ok ==> HasCredentials(deviceConfig.fields, mac)
    ensures ok ==> HasObj(deviceConfig.fields, "configuration")
                   && IsSectionList(deviceConfig.fields["configuration"].fields, device.configuration)
  {
    if deviceConfig == null {
      return false;
    }
    var good := ValidateConfig(Some(deviceConfig.fields));
    if !good {
      return false;
    }
    var newConfig := deviceConfig.fields["configuration"].fields;
    var interfaces := RewriteAll(newConfig["interfaces"].items, CredentialsFor(mac));
    RewriteSetsCredentials(deviceConfig.fields, mac);
    newConfig := newConfig["interfaces" := Arr(interfaces)];
    deviceConfig.fields := deviceConfig.fields["configuration" := Obj(newConfig)];
    ok := AppendWeightedSections(Some(newConfig), device);
  }

  // ---------------------------------------------------------------- mesh rewrite

  const DYNAMIC_IPV4: Value := Obj(map["addressing" := Str("dynamic")])

  /** Indexing null makes an object; indexing any other non-object throws. */
  function MeshInterface(v: Value): Option<Value> {
    match v
    case Obj(f) => Some(Obj(f["ipv4" := DYNAMIC_IPV4]))
    case Null => Some(Obj(map["ipv4" := DYNAMIC_IPV4]))
    case _ => None
  }

  predicate Indexable(v: Value) { v.Obj? || v.Null? }

  function MeshInterfaces(s: seq<Value>): seq<Value>
    requires forall i :: 0 <= i < |s| ==> Indexable(s[i])
  {
    seq(|s|, i requires 0 <= i < |s| && Indexable(s[i]) => MeshInterface(s[i]).value)
  }

  /** The mesh configuration of a gateway document, or None where the source reports failure. */
  function MeshConfig(input: Option<Object>): Option<Object> {
    if input.None? || !HasObj(input.value, "configuration") then None
    else
      var cfg := input.value["configuration"].fields;
      if HasArr(cfg, "interfaces") then
        var ifaces := cfg["interfaces"].items;
        if forall i :: 0 <= i < |ifaces| ==> Indexable(ifaces[i])
        then Some(cfg["interfaces" := Arr(MeshInterfaces(ifaces))] - {"config-raw"})
        else None
      else Some(cfg - {"config-raw"})
  }

  method BuildMeshConfig(inputConfig: Option<Object>) returns (outputConfig: Option<Object>)
    ensures outputConfig == MeshConfig(inputConfig)
  {
    if inputConfig.None? || !HasObj(inputConfig.value, "configuration") {
      return None;
    }
    var cfg := inputConfig.value["configuration"].fields;
    if HasArr(cfg, "interfaces") && cfg["interfaces"].items != [] {
      var ifaces := cfg["interfaces"].items;
      var meshInterfaces: seq<Value> := [];
      for i := 0 to |ifaces|
        invariant |meshInterfaces| == i
        invariant forall k :: 0 <= k < i ==> Indexable(ifaces[k]) && meshInterfaces[k] == MeshInterface(ifaces[k]).value
      {
        var m := MeshInterface(ifaces[i]);
        if m.None? {
          return None;
        }
        meshInterfaces := meshInterfaces + [m.value];
      }
      assert meshInterfaces == MeshInterfaces(ifaces);
      cfg := cfg["interfaces" := Arr(meshInterfaces)];
    } else if HasArr(cfg, "interfaces") {
      assert MeshInterfaces([]) == [];
      assert cfg == cfg["interfaces" := Arr([])];
    }
    return Some(cfg - {"config-raw"});
  }

  // ---------------------------------------------------------------- what the rewrites change

  /** Same members outside `except`. */
  predicate Agree(a: Object, b: Object, except: set<string>) {
    && (forall k :: k in a && k !in except ==> k in b && b[k] == a[k])
    && (forall k :: k in b && k !in except ==> k in a)
  }

  /** An SSID keeps everything but its ap name and, inside an encryption object, the key. */
  predicate OnlyCredentialsDiffer(v: Value, w: Value) {
    v == w ||
    (&& v.Obj? && w.Obj? && HasObj(v.fields, "encryption") && HasObj(w.fields, "encryption")
     && Agree(v.fields, w.fields, if HasMode(v, "ap") then {"name", "encryption"} else {"encryption"})
     && Agree(v.fields["encryption"].fields, w.fields["encryption"].fields, {"key"})
     && (HasMode(v, "ap") || HasMode(v, "mesh")))
  }

  /** The gateway rewrite touches SSID names and keys only, keeps the shape, and reads back as written. */
  lemma RewriteIsLocal(d: Object, c: Credentials)
    requires ValidConfig(Some(d))
    ensures var e := RewriteDevice(d, c);
            var f, g := d["configuration"].fields, e["configuration"].fields;
            && Agree(d, e, {"configuration"}) && Agree(f, g, {"interfaces"})
            && var s, t := f["interfaces"].items, g["interfaces"].items;
               |s| == |t| && forall i :: 0 <= i < |s| ==> InterfaceIsLocal(s[i], t[i])
  {
    var s := d["configuration"].fields["interfaces"].items;
    forall i | 0 <= i < |s| ensures InterfaceIsLocal(s[i], RewriteInterfaces(s, c)[i]) {
      RewriteInterfaceIsLocal(s[i], c);
    }
  }

  predicate InterfaceIsLocal(v: Value, w: Value) {
    v == w ||
    (&& v.Obj? && w.Obj? && HasArr(v.fields, "ssids") && HasArr(w.fields, "ssids")
     && Agree(v.fields, w.fields, {"ssids"})
     && |v.fields["ssids"].items| == |w.fields["ssids"].items|
     && forall j :: 0 <= j < |v.fields["ssids"].items| ==>
          OnlyCredentialsDiffer(v.fields["ssids"].items[j], w.fields["ssids"].items[j]))
  }

  lemma RewriteInterfaceIsLocal(v: Value, c: Credentials)
    ensures InterfaceIsLocal(v, RewriteInterface(v, c))
  {
    if v.Obj? && HasArr(v.fields, "ssids") {
      var s := v.fields["ssids"].items;
      forall j | 0 <= j < |s| ensures OnlyCredentialsDiffer(s[j], RewriteSsids(s, c)[j]) {
        RewriteSsidIsLocal(s[j], c);
      }
    }
  }

  lemma RewriteSsidIsLocal(v: Value, c: Credentials)
    ensures OnlyCredentialsDiffer(v, RewriteSsid(v, c))
  {
  }

  // ---------------------------------------------------------------- what the credentials become

  /** The name ends with what follows the eighth character of a longer MAC, or with the whole of a shorter one. */
  predicate IsDefaultName(v: Value, mac: string) {
    v == Str("OpenWifi-" + if |mac| > 8 then mac[8..] else mac)
  }

  /** An SSID with an encryption object: the name of an ap, the key of an ap or a mesh. */
  predicate SsidHasCredentials(v: Value, mac: string) {
    v.Obj? && HasObj(v.fields, "encryption") ==>
      && (HasMode(v, "ap") ==> "name" in v.fields && IsDefaultName(v.fields["name"], mac))
      && (HasMode(v, "ap") || HasMode(v, "mesh") ==> IsStr(v.fields["encryption"].fields, "key", ToUpper(mac)))
  }

  predicate InterfaceHasCredentials(v: Value, mac: string) {
    v.Obj? && HasArr(v.fields, "ssids") ==>
      forall j :: 0 <= j < |v.fields["ssids"].items| ==> SsidHasCredentials(v.fields["ssids"].items[j], mac)
  }

  /** Every SSID of every interface carries the device's default name and key. */
  predicate HasCredentials(d: Object, mac: string) {
    && HasObj(d, "configuration") && HasArr(d["configuration"].fields, "interfaces")
    && var s := d["configuration"].fields["interfaces"].items;
       forall i :: 0 <= i < |s| ==> InterfaceHasCredentials(s[i], mac)
  }

  lemma RewriteSetsSsid(v: Value, mac: string)
    ensures SsidHasCredentials(RewriteSsid(v, CredentialsFor(mac)), mac)
  {
  }

  lemma RewriteSetsInterface(v: Value, mac: string)
    ensures InterfaceHasCredentials(RewriteInterface(v, CredentialsFor(mac)), mac)
  {
    if v.Obj? && HasArr(v.fields, "ssids") {
      var s := v.fields["ssids"].items;
      forall j | 0 <= j < |s| ensures SsidHasCredentials(RewriteSsids(s, CredentialsFor(mac))[j], mac) {
        RewriteSetsSsid(s[j], mac);
      }
    }
  }

  /** The rewrite gives every SSID the default name and key of the MAC. */
  lemma RewriteSetsCredentials(d: Object, mac: string)
    requires ValidConfig(Some(d))
    ensures HasCredentials(RewriteDevice(d, CredentialsFor(mac)), mac)
  {
    var s := d["configuration"].fields["interfaces"].items;
    forall i | 0 <= i < |s| ensures InterfaceHasCredentials(RewriteInterfaces(s, CredentialsFor(mac))[i], mac) {
      RewriteSetsInterface(s[i], mac);
    }
  }

  // ---------------------------------------------------------------- the rewrite respects the validator

  lemma RewriteSsidKeepsMode(v: Value, c: Credentials, mode: string)
    ensures RewriteSsid(v, c).Obj? == v.Obj?
    ensures HasMode(RewriteSsid(v, c), mode) <==> HasMode(v, mode)
    ensures v.Obj? ==> (HasStr(RewriteSsid(v, c).fields, "bss-mode") <==> HasStr(v.fields, "bss-mode"))
  {
  }

  lemma RewriteKeepsSsidsValid(s: seq<Value>, c: Credentials)
    ensures ValidSsids(RewriteSsids(s, c)) <==> ValidSsids(s)
  {
    var t := RewriteSsids(s, c);
    forall j | 0 <= j < |s|
      ensures t[j].Obj? == s[j].Obj? && (HasMode(t[j], "ap") <==> HasMode(s[j], "ap"))
      ensures HasMode(t[j], "mesh") <==> HasMode(s[j], "mesh")
      ensures s[j].Obj? ==> (HasStr(t[j].fields, "bss-mode") <==> HasStr(s[j].fields, "bss-mode"))
    {
      RewriteSsidKeepsMode(s[j], c, "ap");
      RewriteSsidKeepsMode(s[j], c, "mesh");
    }
  }

  lemma RewriteKeepsInterfaceValid(v: Value, c: Credentials)
    ensures RewriteInterface(v, c).Obj? == v.Obj?
    ensures IsDownstream(RewriteInterface(v, c)) <==> IsDownstream(v)
    ensures v.Obj? ==> (ValidUpstream(RewriteInterface(v, c).fields) <==> ValidUpstream(v.fields))
    ensures v.Obj? ==> (ValidDownstream(RewriteInterface(v, c).fields) <==> ValidDownstream(v.fields))
  {
    if v.Obj? && HasArr(v.fields, "ssids") { RewriteKeepsSsidsValid(v.fields["ssids"].items, c); }
  }

  /** An accepted configuration stays accepted, whatever the credentials. */
  lemma RewriteKeepsValid(d: Object, c: Credentials)
    requires ValidConfig(Some(d))
    ensures ValidConfig(Some(RewriteDevice(d, c)))
  {
    var s := d["configuration"].fields["interfaces"].items;
    var t := RewriteInterfaces(s, c);
    forall i | 0 <= i < |s|
      ensures t[i].Obj? && (ValidUpstream(t[i].fields) || ValidDownstream(t[i].fields))
      ensures IsDownstream(t[i]) <==> IsDownstream(s[i])
    {
      RewriteKeepsInterfaceValid(s[i], c);
    }
  }

  lemma RewriteSsidTwice(v: Value, b: Credentials, c: Credentials)
    ensures RewriteSsid(RewriteSsid(v, b), c) == RewriteSsid(v, c)
  {
    if v.Obj? && HasStr(v.fields, "bss-mode") && HasObj(v.fields, "encryption") {
      var e := v.fields["encryption"].fields;
      assert e["key" := Str(b.key)]["key" := Str(c.key)] == e["key" := Str(c.key)];
      var w := RewriteSsid(RewriteSsid(v, b), c);
      assert w.fields == RewriteSsid(v, c).fields;
    }
  }

  lemma RewriteInterfaceTwice(v: Value, b: Credentials, c: Credentials)
    ensures RewriteInterface(RewriteInterface(v, b), c) == RewriteInterface(v, c)
  {
    if v.Obj? && HasArr(v.fields, "ssids") {
      var s := v.fields["ssids"].items;
      var t := RewriteSsids(s, b);
      forall j | 0 <= j < |s| ensures RewriteSsids(t, c)[j] == RewriteSsids(s, c)[j] {
        RewriteSsidTwice(s[j], b, c);
      }
      assert RewriteSsids(t, c) == RewriteSsids(s, c);
      assert v.fields["ssids" := Arr(t)]["ssids" := Arr(RewriteSsids(s, c))] == v.fields["ssids" := Arr(RewriteSsids(s, c))];
    }
  }

  /** A second rewrite leaves no trace of the first; with the same MAC it changes nothing. */
  lemma RewriteTwice(d: Object, b: Credentials, c: Credentials)
    requires ValidConfig(Some(d))
    ensures ValidConfig(Some(RewriteDevice(d, b)))
    ensures RewriteDevice(RewriteDevice(d, b), c) == RewriteDevice(d, c)
  {
    RewriteKeepsValid(d, b);
    var f := d["configuration"].fields;
    var s := f["interfaces"].items;
    var t := RewriteInterfaces(s, b);
    forall i | 0 <= i < |s| ensures RewriteInterfaces(t, c)[i] == RewriteInterfaces(s, c)[i] {
      RewriteInterfaceTwice(s[i], b, c);
    }
    assert RewriteInterfaces(t, c) == RewriteInterfaces(s, c);
    var g := f["interfaces" := Arr(t)];
    assert g["interfaces" := Arr(RewriteInterfaces(s, c))] == f["interfaces" := Arr(RewriteInterfaces(s, c))];
  }

  // ---------------------------------------------------------------- the mesh rewrite leaves the gateway form

  function Wrap(cfg: Object): Object {
    map["configuration" := Obj(cfg)]
  }

  /** Only each interface's ipv4 and config-raw change. */
  lemma MeshIsLocal(d: Object)
    requires ValidConfig(Some(d))
    ensures MeshConfig(Some(d)).Some?
    ensures var f, g := d["configuration"].fields, MeshConfig(Some(d)).value;
            && "config-raw" !in g && Agree(f, g, {"interfaces", "config-raw"}) && HasArr(g, "interfaces")
            && var s, t := f["interfaces"].items, g["interfaces"].items;
               |s| == |t| && forall i :: 0 <= i < |s| ==>
                 t[i].Obj? && Agree(s[i].fields, t[i].fields, {"ipv4"}) && "ipv4" in t[i].fields
                 && t[i].fields["ipv4"] == Obj(map["addressing" := Str("dynamic")])
  {
  }

  /** A mesh configuration never passes the validator, whatever it was built from. */
  lemma MeshIsRejected(input: Option<Object>)
    requires MeshConfig(input).Some?
    ensures !ValidConfig(Some(Wrap(MeshConfig(input).value)))
  {
    var g := MeshConfig(input).value;
    if HasArr(g, "interfaces") {
      var t := g["interfaces"].items;
      forall i | 0 <= i < |t| ensures t[i].Obj? && !ValidDownstream(t[i].fields) {
        assert t[i].fields["ipv4"] == DYNAMIC_IPV4;
      }
    }
  }

  lemma MeshTwice(input: Option<Object>)
    requires MeshConfig(input).Some?
    ensures MeshConfig(Some(Wrap(MeshConfig(input).value))) == MeshConfig(input)
  {
    var g := MeshConfig(input).value;
    if HasArr(g, "interfaces") {
      var t := g["interfaces"].items;
      forall i | 0 <= i < |t| ensures Indexable(t[i]) && MeshInterface(t[i]).value == t[i] {
        assert t[i].fields["ipv4" := DYNAMIC_IPV4] == t[i].fields;
      }
      assert MeshInterfaces(t) == t;
      assert g["interfaces" := Arr(t)] == g;
    }
    assert g - {"config-raw"} == g;
  }

  // ---------------------------------------------------------------- sections determine and restore

  lemma ListedNames(cfg: Object, list: seq<Element>, n: string)
    requires IsSectionList(cfg, list)
    ensures n in NamesOf(list) <==> n in cfg && IsSection(cfg, n)
  {
    if n in NamesOf(list) {
      var i :| 0 <= i < |list| && NamesOf(list)[i] == n;
      assert WrapsMember(cfg, list[i]);
    }
  }

  /** Repeating the call yields the same list: the description fixes it. */
  lemma SectionListIsUnique(cfg: Object, a: seq<Element>, b: seq<Element>)
    requires IsSectionList(cfg, a) && IsSectionList(cfg, b)
    ensures a == b
  {
    forall n ensures n in NamesOf(a) <==> n in NamesOf(b) {
      ListedNames(cfg, a, n);
      ListedNames(cfg, b, n);
    }
    InOrderUnique(NamesOf(a), NamesOf(b));
    forall i | 0 <= i < |a| ensures a[i] == b[i] {
      assert NamesOf(a)[i] == NamesOf(b)[i];
      assert WrapsMember(cfg, a[i]) && WrapsMember(cfg, b[i]);
    }
  }

  function Recombine(list: seq<Element>): Object {
    if list == [] then map[] else Recombine(list[..|list| - 1]) + list[|list| - 1].configuration
  }

  lemma {:induction false} RecombinedMember(cfg: Object, list: seq<Element>, k: string)
    requires forall i :: 0 <= i < |list| ==> WrapsMember(cfg, list[i])
    ensures var r := Recombine(list);
            (k in r <==> k in NamesOf(list)) && (k in r ==> k in cfg && r[k] == cfg[k])
  {
    if list != [] {
      var front, e := list[..|list| - 1], list[|list| - 1];
      RecombinedMember(cfg, front, k);
      assert WrapsMember(cfg, e);
      assert NamesOf(list) == NamesOf(front) + [e.name];
    }
  }

  /** Putting the sections back together gives the configuration without its scalar members. */
  lemma SectionsRestore(cfg: Object, list: seq<Element>)
    requires IsSectionList(cfg, list)
    ensures Recombine(list) == map k | k in cfg && (cfg[k].Obj? || cfg[k].Arr?) :: cfg[k]
  {
    var r := Recombine(list);
    forall k ensures (k in r <==> k in cfg && IsSection(cfg, k)) && (k in r ==> r[k] == cfg[k]) {
      RecombinedMember(cfg, list, k);
      ListedNames(cfg, list, k);
    }
  }
}
