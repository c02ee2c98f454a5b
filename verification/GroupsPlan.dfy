/** The device-groups planner as functions on values: what undo and Plan compute.
    GroupsPlanner has the same steps on configs updated in place. */
module GroupsPlan {
  import opened Wrappers
  import opened Text
  import opened UciConfig

  datatype Station = Station(key: string, vid: int, macs: seq<string>)

  datatype Desired = Desired(revision: int, confirmSeconds: int, trunk: string,
                             ssids: seq<string>, vlans: seq<int>, stations: seq<Station>)

  datatype Conversion = Conversion(bridge: string, untagged: int, moved: map<string, string>)

  /** `owned` is None for a ledger written before names were recorded. */
  datatype Ledger = Ledger(owned: Option<seq<string>>, dynamicVlan: map<string, string>,
                           converted: Option<Conversion>)

  datatype Refusal =
    | BadParams | NoManagedIface | TrunkUnknown | UntaggedVlanConflict | ConversionConflict
    | NoUntaggedVlan | BridgeEmpty | NameTaken
    | Busy(reason: string) | Uncommitted | ConfigUnreadable | ApplyFailed | NotPending | UnsafeBinding

  datatype Issue =
    | NoPassphrase(section: string)
    | AnonymousSection(section: string)
    | AlreadyCarried(vid: int)
    | NotTagged(vid: int)
    | KeyEqualsOwn(section: string)
    | NoUsableKey(section: string)

  const MAX_VLANS := 256
  const MAX_STATIONS := 4096
  const PREFIX := "perch_"
  const BVU := PREFIX + "bvu"

  // ---- names the engine creates ----

  predicate IsWordChar(c: char) {
    'a' <= c <= 'z' || 'A' <= c <= 'Z' || '0' <= c <= '9' || c == '_'
  }

  predicate AllWordChars(s: string) {
    forall i | 0 <= i < |s| :: IsWordChar(s[i])
  }

  predicate NumberedWith(rest: string, p: string) {
    HasPrefix(rest, p) && AllDigits(rest[|p|..])
  }

  predicate WifiVlanRest(rest: string) {
    HasPrefix(rest, "wv") &&
    var n := rest[2..];
    var cut := IndexOf(n, '_');
    cut < |n| && AllDigits(n[..cut]) && n[cut + 1..] != [] && AllWordChars(n[cut + 1..])
  }

  predicate OwnedRest(rest: string) {
    || rest == "bvu"
    || NumberedWith(rest, "ws") || NumberedWith(rest, "bv") || NumberedWith(rest, "dv")
    || NumberedWith(rest, "bd") || NumberedWith(rest, "v")
    || WifiVlanRest(rest)
  }

  predicate OwnedName(name: string) {
    HasPrefix(name, PREFIX) && OwnedRest(name[|PREFIX|..])
  }

  function ShortName(s: string): string { ShortNameUpTo(s, 24) }

  function ShortNameUpTo(s: string, room: nat): string {
    if s == [] || room == 0 then ""
    else if IsWordChar(s[0]) then [s[0]] + ShortNameUpTo(s[1..], room - 1)
    else ShortNameUpTo(s[1..], room)
  }

  function StationName(k: nat): string { PREFIX + "ws" + Itoa(k) }
  function WifiVlanName(v: int, iface: string): string { PREFIX + "wv" + Itoa(v) + "_" + ShortName(iface) }
  function NetworkName(v: int): string { PREFIX + "v" + Itoa(v) }
  function BridgeVlanName(v: int): string { PREFIX + "bv" + Itoa(v) }
  function VlanDeviceName(v: int): string { PREFIX + "dv" + Itoa(v) }
  function VlanBridgeName(v: int): string { PREFIX + "bd" + Itoa(v) }

  function Dotted(device: string, v: int): string { device + "." + Itoa(v) }

  // ---- Validate ----

  predicate ValidMac(s: string) {
    |s| == 17 &&
    forall i | 0 <= i < 17 ::
      if i % 3 == 2 then s[i] == ':' else '0' <= s[i] <= '9' || 'a' <= s[i] <= 'f'
  }

  predicate ValidKey(k: string) {
    8 <= |k| <= 63 && forall i | 0 <= i < |k| :: ' ' <= k[i] <= '~'
  }

  predicate ValidIfname(s: string) {
    1 <= |s| <= 15 &&
    forall i | 0 <= i < |s| :: IsWordChar(s[i]) || s[i] == '.' || s[i] == '-' || s[i] == '@'
  }

  function MacCount(stations: seq<Station>): nat {
    if stations == [] then 0 else |stations[0].macs| + MacCount(stations[1..])
  }

  predicate ValidStation(st: Station, vlans: seq<int>) {
    && st.vid in vlans
    && (st.key != "" ==> ValidKey(st.key))
    && (st.key == "" ==> st.macs != [])
    && (forall i | 0 <= i < |st.macs| :: ValidMac(st.macs[i]))
  }

  predicate Valid(d: Desired) {
    && d.revision >= 1
    && |d.vlans| <= MAX_VLANS && |d.stations| <= MAX_STATIONS && MacCount(d.stations) <= MAX_STATIONS
    && (forall i | 0 <= i < |d.vlans| :: 1 <= d.vlans[i] <= 4094)
    && (forall i, j | 0 <= i < j < |d.vlans| :: d.vlans[i] != d.vlans[j])
    && (forall i | 0 <= i < |d.stations| :: ValidStation(d.stations[i], d.vlans))
    && (forall i | 0 <= i < |d.ssids| :: 1 <= |d.ssids[i]| <= 32)
    && (d.trunk == "" || d.trunk == "auto" || ValidIfname(d.trunk))
  }

  // ---- undo ----

  function OwnedSet(prev: Ledger, w: Config, n: Config): set<string> {
    match prev.owned
    case Some(names) => set x | x in names
    case None =>
      (set i | 0 <= i < |w| && !w[i].anonymous && OwnedName(w[i].name) :: w[i].name) +
      (set i | 0 <= i < |n| && !n[i].anonymous && OwnedName(n[i].name) :: n[i].name)
  }

  predicate OnBridge(s: Section, bridge: string) {
    s.typ == "bridge-vlan" && s.Text("device") == bridge
  }

  predicate CarriesForeignVlan(n: Config, bridge: string, owned: set<string>) {
    exists i | 0 <= i < |n| :: OnBridge(n[i], bridge) && n[i].name !in owned
  }

  /** What is left of a recorded conversion: none once only owned VLANs are on its bridge. */
  function KeptConversion(n: Config, owned: set<string>, converted: Option<Conversion>): Option<Conversion> {
    if converted.Some? && CarriesForeignVlan(n, converted.value.bridge, owned) then converted else None
  }

  function RestoreDyn(s: Section, dyn: map<string, string>): Section {
    if s.name !in dyn then s
    else if dyn[s.name] == "" then s.Delete("dynamic_vlan")
    else s.Set("dynamic_vlan", Str(dyn[s.name]))
  }

  function RestoreDynAll(w: Config, dyn: map<string, string>): Config {
    seq(|w|, i requires 0 <= i < |w| => RestoreDyn(w[i], dyn))
  }

  function MoveBack(s: Section, c: Conversion): Section {
    if s.name in c.moved && s.Text("device") == Dotted(c.bridge, c.untagged)
    then s.Set("device", Str(c.moved[s.name])) else s
  }

  function MoveBackAll(n: Config, c: Conversion): Config {
    seq(|n|, i requires 0 <= i < |n| => MoveBack(n[i], c))
  }

  /** The configs without the groups, and the conversion that had to stay. */
  datatype Base = Base(w: Config, n: Config, kept: Option<Conversion>)

  function Undo(w: Config, n: Config, prev: Ledger): Base {
    var all := OwnedSet(prev, w, n);
    var kept := KeptConversion(n, all, prev.converted);
    var owned := if kept.Some? then all - {BVU} else all;
    var n1 := Drop(n, owned);
    Base(RestoreDynAll(Drop(w, owned), prev.dynamicVlan),
         if prev.converted.Some? && kept.None? then MoveBackAll(n1, prev.converted.value) else n1,
         kept)
  }

  /** A converted bridge's own VLAN is owned: every ledger Plan writes is like this. */
  ghost predicate WellFormed(prev: Ledger, w: Config, n: Config) {
    prev.converted.Some? ==> BVU in OwnedSet(prev, w, n)
  }

  // ---- managed interfaces ----

  datatype Iface = Iface(name: string, key: string)

  predicate PskEncryption(enc: string) { HasPrefix(enc, "psk") || HasPrefix(enc, "sae") }

  /** An access point on a listed SSID, with or without a passphrase. */
  predicate Candidate(s: Section, ssids: seq<string>) {
    s.typ == "wifi-iface" && s.Text("mode") == "ap" && s.Text("ssid") in ssids && s.Text("disabled") != "1"
  }

  predicate Managed(s: Section, ssids: seq<string>) {
    Candidate(s, ssids) && PskEncryption(s.Text("encryption"))
  }

  function OneIface(s: Section, ssids: seq<string>): seq<Iface> {
    if Managed(s, ssids) then [Iface(s.name, s.Text("key"))] else []
  }

  function ManagedIfaces(w: Config, ssids: seq<string>): seq<Iface> {
    if w == [] then [] else OneIface(w[0], ssids) + ManagedIfaces(w[1..], ssids)
  }

  function IfaceIssue(s: Section, ssids: seq<string>): seq<Issue> {
    if !Candidate(s, ssids) then []
    else if !PskEncryption(s.Text("encryption")) then [NoPassphrase(s.name)]
    else if s.anonymous then [AnonymousSection(s.name)]
    else []
  }

  function IfaceIssues(w: Config, ssids: seq<string>): seq<Issue> {
    if w == [] then [] else IfaceIssue(w[0], ssids) + IfaceIssues(w[1..], ssids)
  }

  // ---- the network side ----

  function TrunkPort(d: Desired, detected: string): string {
    if d.trunk != "" && d.trunk != "auto" then d.trunk else detected
  }

  predicate IsBridgeOf(s: Section, port: string) {
    s.typ == "device" && s.Text("type") == "bridge" && port in s.Items("ports")
  }

  function BridgeOf(n: Config, port: string): Option<Section> {
    if n == [] then None
    else if IsBridgeOf(n[0], port) then Some(n[0])
    else BridgeOf(n[1..], port)
  }

  predicate HasBridgeVlans(n: Config, bridge: string) {
    exists i | 0 <= i < |n| :: OnBridge(n[i], bridge)
  }

  /** The first such entry of the file. */
  function RouterVlan(n: Config, bridge: string, vid: int): Option<Section> {
    if n == [] then None
    else if OnBridge(n[0], bridge) && n[0].Text("vlan") == Itoa(vid) then Some(n[0])
    else RouterVlan(n[1..], bridge, vid)
  }

  /** An entry is a port, or a port, a colon and flags; untagged only by a u in the flags. */
  predicate TaggedEntry(p: string, port: string) {
    var cut := IndexOf(p, ':');
    p[..cut] == port && 'u' !in p[cut..]
  }

  predicate TaggedMember(s: Section, port: string) {
    exists i | 0 <= i < |s.Items("ports")| :: TaggedEntry(s.Items("ports")[i], port)
  }

  function UntaggedStart(vids: seq<int>, bridge: string, prev: Option<Conversion>): int {
    if prev.Some? && prev.value.bridge == bridge && prev.value.untagged !in vids
    then prev.value.untagged else 1
  }

  /** The first number from u on that is not used. */
  function NextFree(used: set<int>, u: int): int
    decreases |used|
  {
    if u in used then NextFree(used - {u}, u + 1) else u
  }

  function UntaggedVlan(vids: seq<int>, bridge: string, prev: Option<Conversion>): int {
    NextFree((set v | v in vids), UntaggedStart(vids, bridge, prev))
  }

  function Untagged(ports: seq<string>): seq<string> {
    seq(|ports|, i requires 0 <= i < |ports| => ports[i] + ":u*")
  }

  predicate OnBareBridge(s: Section, bridge: string) {
    s.typ == "interface" && s.Text("device") == bridge
  }

  function Move(s: Section, bridge: string, untagged: int): Section {
    if OnBareBridge(s, bridge) then s.Set("device", Str(Dotted(bridge, untagged))) else s
  }

  function MoveAll(n: Config, bridge: string, untagged: int): Config {
    seq(|n|, i requires 0 <= i < |n| => Move(n[i], bridge, untagged))
  }

  function BareNames(n: Config, bridge: string): set<string> {
    set i | 0 <= i < |n| && OnBareBridge(n[i], bridge) :: n[i].name
  }

  function MovedFrom(n: Config, bridge: string): map<string, string> {
    map x | x in BareNames(n, bridge) :: bridge
  }

  function UntaggedSection(bridge: string, untagged: int, ports: seq<string>): Section {
    Section(BVU, "bridge-vlan", false,
            [Opt("device", Str(bridge)), Opt("vlan", Str(Itoa(untagged))), Opt("ports", List(Untagged(ports)))])
  }

  function BridgeVlanSection(bridge: string, v: int, port: string): Section {
    Section(BridgeVlanName(v), "bridge-vlan", false,
            [Opt("device", Str(bridge)), Opt("vlan", Str(Itoa(v))), Opt("ports", List([port + ":t"]))])
  }

  function NetworkSection(v: int, device: string): Section {
    Section(NetworkName(v), "interface", false, [Opt("proto", Str("none")), Opt("device", Str(device))])
  }

  function VlanDeviceSection(port: string, v: int): Section {
    Section(VlanDeviceName(v), "device", false,
            [Opt("type", Str("8021q")), Opt("ifname", Str(port)), Opt("vid", Str(Itoa(v))),
             Opt("name", Str(Dotted(port, v)))])
  }

  function PerVlanBridge(v: int): string { "br-pv" + Itoa(v) }

  function VlanBridgeSection(port: string, v: int): Section {
    Section(VlanBridgeName(v), "device", false,
            [Opt("type", Str("bridge")), Opt("name", Str(PerVlanBridge(v))), Opt("ports", List([Dotted(port, v)]))])
  }

  function BridgeVlanSections(n: Config, bridge: string, vids: seq<int>, port: string): seq<Section> {
    if vids == [] then []
    else (if RouterVlan(n, bridge, vids[0]).Some? then [] else [BridgeVlanSection(bridge, vids[0], port)]) +
         BridgeVlanSections(n, bridge, vids[1..], port)
  }

  function CarriedIssue(n: Config, bridge: string, v: int, port: string): seq<Issue> {
    match RouterVlan(n, bridge, v)
    case None => []
    case Some(s) => [AlreadyCarried(v)] + if TaggedMember(s, port) then [] else [NotTagged(v)]
  }

  function CarriedIssues(n: Config, bridge: string, vids: seq<int>, port: string): seq<Issue> {
    if vids == [] then []
    else CarriedIssue(n, bridge, vids[0], port) + CarriedIssues(n, bridge, vids[1..], port)
  }

  function NetworkSections(bridge: string, vids: seq<int>): seq<Section> {
    seq(|vids|, i requires 0 <= i < |vids| => NetworkSection(vids[i], Dotted(bridge, vids[i])))
  }

  function StandaloneSections(port: string, vids: seq<int>): seq<Section> {
    if vids == [] then []
    else [VlanDeviceSection(port, vids[0]), VlanBridgeSection(port, vids[0]),
          NetworkSection(vids[0], PerVlanBridge(vids[0]))] + StandaloneSections(port, vids[1..])
  }

  /** The network side of a plan: the sections it starts from (interfaces moved by a
      conversion), what it adds, and the conversion in force. */
  datatype NetPlan = NetPlan(n: Config, adds: seq<Section>, converted: Option<Conversion>,
                             bridge: string, issues: seq<Issue>)

  function OnVlanBridge(base: Base, bridge: string, port: string, vids: seq<int>): NetPlan {
    NetPlan(base.n, BridgeVlanSections(base.n, bridge, vids, port) + NetworkSections(bridge, vids),
            base.kept, bridge, CarriedIssues(base.n, bridge, vids, port))
  }

  function OnConvertedBridge(base: Base, bridge: string, port: string, ports: seq<string>, vids: seq<int>, untagged: int): NetPlan {
    NetPlan(MoveAll(base.n, bridge, untagged),
            [UntaggedSection(bridge, untagged, ports)] +
            (BridgeVlanSections(base.n, bridge, vids, port) + NetworkSections(bridge, vids)),
            Some(Conversion(bridge, untagged, MovedFrom(base.n, bridge))), bridge, [])
  }

  function PlanNetwork(base: Base, port: string, vids: seq<int>, prev: Option<Conversion>): Result<NetPlan, Refusal> {
    match BridgeOf(base.n, port)
    case None =>
      Ok(NetPlan(base.n, StandaloneSections(port, vids), base.kept,
                 if base.kept.Some? then base.kept.value.bridge else "", []))
    case Some(b) =>
      var bridge := b.Text("name");
      if base.kept.Some? && base.kept.value.bridge == bridge then
        if base.kept.value.untagged in vids then Err(UntaggedVlanConflict)
        else Ok(OnVlanBridge(base, bridge, port, vids))
      else if !HasBridgeVlans(base.n, bridge) then
        if base.kept.Some? then Err(ConversionConflict)
        else
          var u := UntaggedVlan(vids, bridge, prev);
          if u > 4094 then Err(NoUntaggedVlan)
          else if b.Items("ports") == [] then Err(BridgeEmpty)
          else Ok(OnConvertedBridge(base, bridge, port, b.Items("ports"), vids, u))
      else Ok(OnVlanBridge(base, bridge, port, vids))
  }

  // ---- the wireless side ----

  function MarkDyn(s: Section, names: set<string>): Section {
    if s.name in names && s.Text("dynamic_vlan") != "1" then s.Set("dynamic_vlan", Str("1")) else s
  }

  function MarkDynAll(w: Config, names: set<string>): Config {
    seq(|w|, i requires 0 <= i < |w| => MarkDyn(w[i], names))
  }

  /** The old dynamic_vlan of every interface the plan sets it on. */
  function DynBefore(w: Config, managed: seq<Iface>): map<string, string> {
    map x | x in IfaceNames(managed) && SectionAt(w, x) < |w| && w[SectionAt(w, x)].Text("dynamic_vlan") != "1"
      :: w[SectionAt(w, x)].Text("dynamic_vlan")
  }

  function IfaceNames(managed: seq<Iface>): set<string> {
    set i | 0 <= i < |managed| :: managed[i].name
  }

  function WifiVlanSection(v: int, iface: string): Section {
    Section(WifiVlanName(v, iface), "wifi-vlan", false,
            [Opt("iface", Str(iface)), Opt("name", Str("g" + Itoa(v))), Opt("vid", Str(Itoa(v))),
             Opt("network", Str(NetworkName(v)))])
  }

  function WifiVlansOf(iface: string, vids: seq<int>): seq<Section> {
    seq(|vids|, i requires 0 <= i < |vids| => WifiVlanSection(vids[i], iface))
  }

  function WifiVlanSections(managed: seq<Iface>, vids: seq<int>): seq<Section> {
    if managed == [] then []
    else WifiVlansOf(managed[0].name, vids) + WifiVlanSections(managed[1..], vids)
  }

  /** A wifi-station before it has a name; "" is no MAC. */
  datatype Entry = Entry(iface: string, key: string, vid: int, mac: string)

  function StationSection(k: nat, e: Entry): Section {
    Section(StationName(k), "wifi-station", false,
            [Opt("iface", Str(e.iface)), Opt("key", Str(e.key)), Opt("vid", Str(Itoa(e.vid)))] +
            if e.mac == "" then [] else [Opt("mac", Str(e.mac))])
  }

  /** The passphrase a station gets on an interface; None: skipped with an issue. */
  function StationKey(st: Station, m: Iface): Result<string, Issue> {
    if st.key != "" && st.key == m.key then Err(KeyEqualsOwn(m.name))
    else if st.key != "" then Ok(st.key)
    else if !ValidKey(m.key) then Err(NoUsableKey(m.name))
    else Ok(m.key)
  }

  function EntriesFor(st: Station, m: Iface): seq<Entry> {
    match StationKey(st, m)
    case Err(_) => []
    case Ok(key) =>
      var macs := SortStrings(st.macs);
      if macs == [] then [Entry(m.name, key, st.vid, "")]
      else seq(|macs|, i requires 0 <= i < |macs| => Entry(m.name, key, st.vid, macs[i]))
  }

  function EntriesOf(st: Station, managed: seq<Iface>): seq<Entry> {
    if managed == [] then [] else EntriesFor(st, managed[0]) + EntriesOf(st, managed[1..])
  }

  function Entries(stations: seq<Station>, managed: seq<Iface>): seq<Entry> {
    if stations == [] then [] else EntriesOf(stations[0], managed) + Entries(stations[1..], managed)
  }

  function StationSectionsFrom(entries: seq<Entry>, first: nat): seq<Section> {
    seq(|entries|, k requires 0 <= k < |entries| => StationSection(first + k, entries[k]))
  }

  function StationIssue(st: Station, m: Iface): seq<Issue> {
    match StationKey(st, m)
    case Err(i) => [i]
    case Ok(_) => []
  }

  function StationIssuesOf(st: Station, managed: seq<Iface>): seq<Issue> {
    if managed == [] then [] else StationIssue(st, managed[0]) + StationIssuesOf(st, managed[1..])
  }

  function StationIssues(stations: seq<Station>, managed: seq<Iface>): seq<Issue> {
    if stations == [] then [] else StationIssuesOf(stations[0], managed) + StationIssues(stations[1..], managed)
  }

  /** The passphrases bindings reuse, once each. */
  function AppendUnique(list: seq<string>, s: string): seq<string> {
    if s in list then list else list + [s]
  }

  function BindingKey(keys: seq<string>, st: Station, m: Iface): seq<string> {
    if st.key == "" && ValidKey(m.key) then AppendUnique(keys, m.key) else keys
  }

  function BindingKeysOf(keys: seq<string>, st: Station, managed: seq<Iface>): seq<string>
    decreases |managed|
  {
    if managed == [] then keys else BindingKeysOf(BindingKey(keys, st, managed[0]), st, managed[1..])
  }

  function BindingKeys(keys: seq<string>, stations: seq<Station>, managed: seq<Iface>): seq<string>
    decreases |stations|
  {
    if stations == [] then keys else BindingKeys(BindingKeysOf(keys, stations[0], managed), stations[1..], managed)
  }

  function WirelessAdds(d: Desired, managed: seq<Iface>, vids: seq<int>): seq<Section> {
    WifiVlanSections(managed, vids) + StationSectionsFrom(Entries(d.stations, managed), 0)
  }

  // ---- the plan ----

  datatype Planned = Planned(w: Config, n: Config, ledger: Ledger, trunkPort: string, bridge: string,
                             converted: bool, managed: seq<string>, issues: seq<Issue>, bindingKeys: seq<string>)

  function NamesOf(sections: seq<Section>): seq<string> {
    seq(|sections|, i requires 0 <= i < |sections| => sections[i].name)
  }

  function NameSet(sections: seq<Section>): set<string> {
    set i | 0 <= i < |sections| :: sections[i].name
  }

  function NamesOfIfaces(managed: seq<Iface>): seq<string> {
    seq(|managed|, i requires 0 <= i < |managed| => managed[i].name)
  }

  /** Adding the sections in turn meets a section of the same name. */
  predicate Clash(base: Config, adds: seq<Section>) {
    || (exists i, k | 0 <= i < |base| && 0 <= k < |adds| :: base[i].name == adds[k].name)
    || (exists j, k | 0 <= j < k < |adds| :: adds[j].name == adds[k].name)
  }

  function KeptNames(kept: Option<Conversion>): seq<string> {
    if kept.Some? then [BVU] else []
  }

  function Empty(base: Base): Planned {
    Planned(base.w, base.n, Ledger(Some(KeptNames(base.kept)), map[], base.kept), "",
            if base.kept.Some? then base.kept.value.bridge else "", base.kept.Some?, [], [], [])
  }

  function Assemble(base: Base, d: Desired, port: string, vids: seq<int>, managed: seq<Iface>, net: NetPlan): Planned {
    var wAdds := WirelessAdds(d, managed, vids);
    Planned(MarkDynAll(base.w, IfaceNames(managed)) + wAdds, net.n + net.adds,
            Ledger(Some(NamesOf(net.adds) + NamesOf(wAdds) + KeptNames(base.kept)), DynBefore(base.w, managed), net.converted),
            port, net.bridge, net.converted.Some?, NamesOfIfaces(managed),
            IfaceIssues(base.w, d.ssids) + net.issues + StationIssues(d.stations, managed),
            BindingKeys([], d.stations, managed))
  }

  /** The plan from the configs without the groups. */
  function BuildOn(base: Base, d: Desired, detected: string, prev: Option<Conversion>): Result<Planned, Refusal> {
    if d.vlans == [] then Ok(Empty(base))
    else
      var managed := ManagedIfaces(base.w, d.ssids);
      var port := TrunkPort(d, detected);
      var vids := SortInts(d.vlans);
      if managed == [] then Err(NoManagedIface)
      else if port == "" then Err(TrunkUnknown)
      else
        match PlanNetwork(base, port, vids, prev)
        case Err(e) => Err(e)
        case Ok(net) =>
          if Clash(net.n, net.adds) || Clash(base.w, WirelessAdds(d, managed, vids)) then Err(NameTaken)
          else Ok(Assemble(base, d, port, vids, managed, net))
  }

  function Plan(w: Config, n: Config, d: Desired, detected: string, prev: Ledger): Result<Planned, Refusal> {
    if !Valid(d) then Err(BadParams) else BuildOn(Undo(w, n, prev), d, detected, prev.converted)
  }
}
