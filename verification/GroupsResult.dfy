/** What a successful plan contains: what it left alone, and how the sections it
    created refer to each other across the two configs. */
module GroupsResult {
  import opened Wrappers
  import opened Text
  import opened UciConfig
  import opened GroupsPlan
  import opened GroupsNames
  import opened GroupsNoDrift
  import opened GroupsChains

  // ---- frame ----

  /** The same section but for one option. */
  predicate SameExcept(a: Section, b: Section, option: string) {
    a.Delete(option) == b.Delete(option)
  }

  lemma {:induction false} DeleteAfterSet(options: seq<Opt>, name: string, v: Value)
    ensures DeleteOpt(SetOpt(options, name, v), name) == DeleteOpt(options, name)
  {
    if options == [] {
      assert SetOpt(options, name, v)[1..] == [];
    } else if options[0].name == name {
      assert SetOpt(options, name, v)[1..] == options[1..];
    } else {
      DeleteAfterSet(options[1..], name, v);
      assert SetOpt(options, name, v)[1..] == SetOpt(options[1..], name, v);
    }
  }

  lemma {:induction false} DeleteTwice(options: seq<Opt>, name: string)
    ensures DeleteOpt(DeleteOpt(options, name), name) == DeleteOpt(options, name)
  {
    if options != [] {
      DeleteTwice(options[1..], name);
      var t := DeleteOpt(options[1..], name);
      assert ([options[0]] + t)[1..] == t && [] + t == t;
    }
  }

  lemma {:induction false} SetIsSameExcept(s: Section, option: string, v: Value)
    ensures SameExcept(s, s.Set(option, v), option)
    ensures SameExcept(s, s.Delete(option), option)
  {
    DeleteAfterSet(s.options, option, v);
    DeleteTwice(s.options, option);
  }

  /** The names undo removes: a kept conversion's VLAN stays. */
  function Removed(w: Config, n: Config, prev: Ledger): set<string> {
    if Undo(w, n, prev).kept.Some? then OwnedSet(prev, w, n) - {BVU} else OwnedSet(prev, w, n)
  }

  /** The names the plan lists as its own. */
  function OwnedNames(r: Planned): seq<string> {
    if r.ledger.owned.Some? then r.ledger.owned.value else []
  }

  ghost predicate WirelessFramed(w: Config, n: Config, prev: Ledger, r: Planned) {
    var stays := Drop(w, Removed(w, n, prev));
    && |stays| <= |r.w|
    && (forall i | 0 <= i < |stays| ::
          && SameExcept(stays[i], r.w[i], "dynamic_vlan")
          && (stays[i].name !in r.managed && stays[i].name !in prev.dynamicVlan ==> r.w[i] == stays[i]))
    && (forall i | |stays| <= i < |r.w| :: !r.w[i].anonymous && r.w[i].name in OwnedNames(r))
  }

  predicate MovesBack(prev: Ledger, name: string) {
    prev.converted.Some? && name in prev.converted.value.moved
  }

  predicate MovesNow(r: Planned, name: string) {
    r.ledger.converted.Some? && name in r.ledger.converted.value.moved
  }

  ghost predicate NetworkFramed(w: Config, n: Config, prev: Ledger, r: Planned) {
    var stays := Drop(n, Removed(w, n, prev));
    && |stays| <= |r.n|
    && (forall i | 0 <= i < |stays| ::
          && SameExcept(stays[i], r.n[i], "device")
          && (!MovesBack(prev, stays[i].name) && !MovesNow(r, stays[i].name) ==> r.n[i] == stays[i]))
    && (forall i | |stays| <= i < |r.n| :: !r.n[i].anonymous && r.n[i].name in OwnedNames(r))
  }

  ghost predicate NoRepeats(names: seq<string>) {
    forall i, j | 0 <= i < j < |names| :: names[i] != names[j]
  }

  lemma {:induction false} UndoFrames(w: Config, n: Config, prev: Ledger)
    ensures var base := Undo(w, n, prev);
            var stayW := Drop(w, Removed(w, n, prev));
            |base.w| == |stayW| &&
            forall i | 0 <= i < |stayW| ::
              SameExcept(stayW[i], base.w[i], "dynamic_vlan") && base.w[i].name == stayW[i].name
              && (stayW[i].name !in prev.dynamicVlan ==> base.w[i] == stayW[i])
    ensures var base := Undo(w, n, prev);
            var stayN := Drop(n, Removed(w, n, prev));
            |base.n| == |stayN| &&
            forall i | 0 <= i < |stayN| ::
              SameExcept(stayN[i], base.n[i], "device") && base.n[i].name == stayN[i].name
              && (!MovesBack(prev, stayN[i].name) ==> base.n[i] == stayN[i])
  {
    var base := Undo(w, n, prev);
    var stayW, stayN := Drop(w, Removed(w, n, prev)), Drop(n, Removed(w, n, prev));
    forall i | 0 <= i < |stayW| ensures SameExcept(stayW[i], base.w[i], "dynamic_vlan") {
      if stayW[i].name in prev.dynamicVlan {
        SetIsSameExcept(stayW[i], "dynamic_vlan", Str(prev.dynamicVlan[stayW[i].name]));
      }
    }
    forall i | 0 <= i < |stayN| ensures SameExcept(stayN[i], base.n[i], "device") {
      if MovesBack(prev, stayN[i].name) {
        SetIsSameExcept(stayN[i], "device", Str(prev.converted.value.moved[stayN[i].name]));
      }
    }
  }

  lemma {:induction false} ShapeFrames(base: Base, managed: seq<Iface>, net: NetPlan, wAdds: seq<Section>, r: Planned)
    requires Shape(base, managed, net, wAdds, r)
    ensures |base.w| <= |r.w| && |base.n| <= |r.n|
    ensures forall i | 0 <= i < |base.w| ::
              SameExcept(base.w[i], r.w[i], "dynamic_vlan") && (base.w[i].name !in r.managed ==> r.w[i] == base.w[i])
    ensures forall i | 0 <= i < |base.n| ::
              SameExcept(base.n[i], r.n[i], "device") && (!MovesNow(r, base.n[i].name) ==> r.n[i] == base.n[i])
    ensures forall i | |base.w| <= i < |r.w| :: !r.w[i].anonymous && r.w[i].name in OwnedNames(r)
    ensures forall i | |base.n| <= i < |r.n| :: !r.n[i].anonymous && r.n[i].name in OwnedNames(r)
  {
    ShapeSlices(base, managed, net, wAdds, r);
    var names := IfaceNames(managed);
    forall i | 0 <= i < |base.w|
      ensures SameExcept(base.w[i], r.w[i], "dynamic_vlan") && (base.w[i].name !in r.managed ==> r.w[i] == base.w[i])
    {
      assert r.w[i] == MarkDyn(base.w[i], names);
      SetIsSameExcept(base.w[i], "dynamic_vlan", Str("1"));
    }
    forall i | 0 <= i < |base.n|
      ensures SameExcept(base.n[i], r.n[i], "device") && (!MovesNow(r, base.n[i].name) ==> r.n[i] == base.n[i])
    {
      assert r.n[i] == net.n[i];
      if base.kept.None? && net.converted.Some? {
        var c := net.converted.value;
        assert r.n[i] == Move(base.n[i], c.bridge, c.untagged);
        SetIsSameExcept(base.n[i], "device", Str(Dotted(c.bridge, c.untagged)));
      }
    }
    var owned := OwnedNames(r);
    forall i | |base.w| <= i < |r.w| ensures !r.w[i].anonymous && r.w[i].name in owned {
      var k := i - |base.w|;
      assert r.w[i] == wAdds[k];
      assert owned[|net.adds| + k] == wAdds[k].name;
    }
    forall i | |base.n| <= i < |r.n| ensures !r.n[i].anonymous && r.n[i].name in owned {
      var k := i - |base.n|;
      assert r.n[i] == net.adds[k];
      assert owned[k] == net.adds[k].name;
    }
  }

  lemma {:induction false} OwnedListedOnce(base: Base, managed: seq<Iface>, net: NetPlan, wAdds: seq<Section>, r: Planned)
    requires Shape(base, managed, net, wAdds, r)
    ensures NoRepeats(OwnedNames(r))
  {
    var names := OwnedNames(r);
    var a, b := |net.adds|, |wAdds|;
    assert BVU[6] == 'b';
    forall i, j | 0 <= i < j < |names| ensures names[i] != names[j] {
      if i < a { assert names[i] == net.adds[i].name; } else { assert names[i] == wAdds[i - a].name; }
      if j < a {
        assert names[j] == net.adds[j].name;
      } else if j < a + b {
        assert names[j] == wAdds[j - a].name;
      } else {
        assert names[j] == BVU;
      }
    }
  }

  /** Frame: a plan keeps every section the old ledger does not own, in order, and changes
      in it at most the one option it borrows (and only where the old or the new ledger
      says so); everything else in the result is listed in the new ledger, once. */
  lemma {:induction false} Frame(w: Config, n: Config, d: Desired, detected: string, prev: Ledger, r: Planned)
    requires Plan(w, n, d, detected, prev) == Ok(r)
    ensures WirelessFramed(w, n, prev, r) && NetworkFramed(w, n, prev, r)
    ensures r.ledger.owned.Some? && NoRepeats(OwnedNames(r))
  {
    var base := Undo(w, n, prev);
    UndoFrames(w, n, prev);
    if d.vlans != [] {
      var managed, vids, port, net := BuiltShape(base, d, detected, prev.converted, r);
      var wAdds := WirelessAdds(d, managed, vids);
      ShapeFrames(base, managed, net, wAdds, r);
      OwnedListedOnce(base, managed, net, wAdds, r);
    }
  }

  // ---- the plumbing of one VLAN ----

  ghost predicate WifiVlanFor(s: Section, iface: string, v: int) {
    s.typ == "wifi-vlan" && s.Text("iface") == iface && s.Text("name") == "g" + Itoa(v) && s.Text("vid") == Itoa(v)
    && s.Text("network") == NetworkName(v)
  }

  ghost predicate InterfaceOn(s: Section, v: int, device: string) {
    s.typ == "interface" && s.name == NetworkName(v) && s.Text("proto") == "none" && s.Text("device") == device
  }

  /** The VLAN has an entry on the bridge: with the trunk tagged, or an issue says not. */
  ghost predicate EntryOn(s: Section, r: Planned, v: int) {
    OnBridge(s, r.bridge) && s.Text("vlan") == Itoa(v) && (TaggedMember(s, r.trunkPort) || NotTagged(v) in r.issues)
  }

  ghost predicate CarriedByBridge(r: Planned, v: int) {
    HasInterface(r, v, Dotted(r.bridge, v)) && HasEntry(r, v)
  }

  ghost predicate HasInterface(r: Planned, v: int, device: string) {
    exists i | 0 <= i < |r.n| :: InterfaceOn(r.n[i], v, device)
  }

  ghost predicate HasEntry(r: Planned, v: int) { exists i | 0 <= i < |r.n| :: EntryOn(r.n[i], r, v) }

  ghost predicate VlanBridge(s: Section, r: Planned, v: int) {
    s.typ == "device" && s.Text("type") == "bridge" && s.Text("name") == PerVlanBridge(v)
    && s.Items("ports") == [Dotted(r.trunkPort, v)]
  }

  ghost predicate VlanDevice(s: Section, r: Planned, v: int) {
    s.typ == "device" && s.Text("type") == "8021q" && s.Text("ifname") == r.trunkPort
    && s.Text("vid") == Itoa(v) && s.Text("name") == Dotted(r.trunkPort, v)
  }

  ghost predicate CarriedByDevice(r: Planned, v: int) {
    && HasInterface(r, v, PerVlanBridge(v))
    && (exists i | 0 <= i < |r.n| :: VlanBridge(r.n[i], r, v))
    && (exists i | 0 <= i < |r.n| :: VlanDevice(r.n[i], r, v))
  }

  lemma {:induction false} RouterVlanIs(n: Config, bridge: string, v: int) returns (i: nat)
    requires RouterVlan(n, bridge, v).Some?
    ensures i < |n| && n[i] == RouterVlan(n, bridge, v).value && OnBridge(n[i], bridge) && n[i].Text("vlan") == Itoa(v)
  {
    hide OnBridge, Itoa, Section.Text;
    if OnBridge(n[0], bridge) && n[0].Text("vlan") == Itoa(v) {
      i := 0;
    } else {
      i := RouterVlanIs(n[1..], bridge, v);
      i := i + 1;
    }
  }

  lemma {:induction false} BridgeVlanAdded(n: Config, bridge: string, vids: seq<int>, port: string, v: int) returns (k: nat)
    requires v in vids && RouterVlan(n, bridge, v).None?
    ensures k < |BridgeVlanSections(n, bridge, vids, port)|
    ensures BridgeVlanSections(n, bridge, vids, port)[k] == BridgeVlanSection(bridge, v, port)
  {
    if vids[0] == v {
      k := 0;
    } else {
      k := BridgeVlanAdded(n, bridge, vids[1..], port, v);
      if RouterVlan(n, bridge, vids[0]).None? { k := k + 1; }
    }
  }

  lemma {:induction false} CarriedIssueListed(n: Config, bridge: string, vids: seq<int>, port: string, v: int)
    requires v in vids && RouterVlan(n, bridge, v).Some? && !TaggedMember(RouterVlan(n, bridge, v).value, port)
    ensures NotTagged(v) in CarriedIssues(n, bridge, vids, port)
  {
    if vids[0] == v {
      assert CarriedIssue(n, bridge, v, port)[1] == NotTagged(v);
    } else {
      CarriedIssueListed(n, bridge, vids[1..], port, v);
    }
  }

  lemma {:induction false} StandaloneAdded(port: string, vids: seq<int>, v: int) returns (k: nat)
    requires v in vids
    ensures k + 2 < |StandaloneSections(port, vids)|
    ensures StandaloneSections(port, vids)[k] == VlanDeviceSection(port, v)
    ensures StandaloneSections(port, vids)[k + 1] == VlanBridgeSection(port, v)
    ensures StandaloneSections(port, vids)[k + 2] == NetworkSection(v, PerVlanBridge(v))
  {
    if vids[0] == v {
      k := 0;
    } else {
      k := StandaloneAdded(port, vids[1..], v);
      k := k + 3;
    }
  }

  lemma {:induction false} TaggedAdded(bridge: string, v: int, port: string)
    requires ':' !in port
    ensures TaggedMember(BridgeVlanSection(bridge, v, port), port)
  {
    var s := BridgeVlanSection(bridge, v, port);
    var p := port + ":t";
    IndexOfIs(p, ':', |port|);
    GetIs(s.options, 2);
    assert s.Items("ports") == [p];
    assert p[..|port|] == port && p[|port|..] == ":t";
    assert TaggedEntry(s.Items("ports")[0], port);
  }

  lemma {:induction false} OptionsOfBridgeVlan(bridge: string, v: int, port: string)
    ensures OnBridge(BridgeVlanSection(bridge, v, port), bridge)
    ensures BridgeVlanSection(bridge, v, port).Text("vlan") == Itoa(v)
  {
    GetIs(BridgeVlanSection(bridge, v, port).options, 0);
    GetIs(BridgeVlanSection(bridge, v, port).options, 1);
  }

  lemma {:induction false} OptionsOfNetwork(v: int, device: string)
    ensures InterfaceOn(NetworkSection(v, device), v, device)
  {
    GetIs(NetworkSection(v, device).options, 0);
    GetIs(NetworkSection(v, device).options, 1);
  }

  lemma {:induction false} OptionsOfStandalone(r: Planned, v: int)
    ensures VlanBridge(VlanBridgeSection(r.trunkPort, v), r, v)
    ensures VlanDevice(VlanDeviceSection(r.trunkPort, v), r, v)
  {
    var b := VlanBridgeSection(r.trunkPort, v).options;
    GetIs(b, 0);
    GetIs(b, 1);
    GetIs(b, 2);
    var e := VlanDeviceSection(r.trunkPort, v).options;
    GetIs(e, 0);
    GetIs(e, 1);
    GetIs(e, 2);
    GetIs(e, 3);
  }

  lemma {:induction false} NoRouterVlan(n: Config, bridge: string, v: int)
    requires !HasBridgeVlans(n, bridge)
    ensures RouterVlan(n, bridge, v) == None
  {
    if n != [] {
      assert !OnBridge(n[0], bridge);
      assert forall i | 0 <= i < |n[1..]| :: n[1..][i] == n[i + 1];
      NoRouterVlan(n[1..], bridge, v);
    }
  }

  /** The network additions end with the bridge's VLAN entries and the interfaces. */
  ghost predicate EndsWith(adds: seq<Section>, bvs: seq<Section>, ifs: seq<Section>) {
    |bvs| + |ifs| <= |adds| && adds[|adds| - |bvs| - |ifs|..] == bvs + ifs
  }

  lemma {:induction false} InterfacePlumbing(r: Planned, base: Config, adds: seq<Section>, bvs: seq<Section>, bridge: string, vids: seq<int>, v: int)
    requires r.n == base + adds && EndsWith(adds, bvs, NetworkSections(bridge, vids)) && r.bridge == bridge && v in vids
    ensures HasInterface(r, v, Dotted(r.bridge, v))
  {
    var ifs := NetworkSections(bridge, vids);
    var i :| 0 <= i < |vids| && vids[i] == v;
    OptionsOfNetwork(v, Dotted(bridge, v));
    var at := |adds| - |ifs| + i;
    assert adds[at] == (bvs + ifs)[|bvs| + i] == ifs[i];
    assert InterfaceOn(r.n[|base| + at], v, Dotted(r.bridge, v));
  }

  lemma {:induction false} AddedEntry(r: Planned, n: Config, base: Config, adds: seq<Section>, ifs: seq<Section>, vids: seq<int>, v: int)
    requires r.n == base + adds && ':' !in r.trunkPort
    requires EndsWith(adds, BridgeVlanSections(n, r.bridge, vids, r.trunkPort), ifs)
    requires v in vids && RouterVlan(n, r.bridge, v).None?
    ensures HasEntry(r, v)
  {
    var bvs := BridgeVlanSections(n, r.bridge, vids, r.trunkPort);
    var k := BridgeVlanAdded(n, r.bridge, vids, r.trunkPort, v);
    OptionsOfBridgeVlan(r.bridge, v, r.trunkPort);
    TaggedAdded(r.bridge, v, r.trunkPort);
    var at := |adds| - |bvs| - |ifs| + k;
    assert adds[at] == (bvs + ifs)[k] == bvs[k];
    assert EntryOn(r.n[|base| + at], r, v);
  }

  lemma {:induction false} FoundEntry(r: Planned, base: Base, net: NetPlan, v: int)
    requires r.n == net.n + net.adds && Starts(base, net) && RouterVlan(base.n, r.bridge, v).Some?
    requires TaggedMember(RouterVlan(base.n, r.bridge, v).value, r.trunkPort) || NotTagged(v) in r.issues
    ensures HasEntry(r, v)
  {
    var k := RouterVlanIs(base.n, r.bridge, v);
    assert r.n[k] == net.n[k] == base.n[k];
    assert EntryOn(r.n[k], r, v);
  }

  lemma {:induction false} StandalonePlumbing(base: Base, managed: seq<Iface>, net: NetPlan, wAdds: seq<Section>, r: Planned,
                           vids: seq<int>, v: int)
    requires Shape(base, managed, net, wAdds, r) && net.adds == StandaloneSections(r.trunkPort, vids) && v in vids
    ensures CarriedByDevice(r, v)
  {
    var k := StandaloneAdded(r.trunkPort, vids, v);
    OptionsOfStandalone(r, v);
    OptionsOfNetwork(v, PerVlanBridge(v));
    var at := |net.n| + k;
    assert VlanDevice(r.n[at], r, v) && VlanBridge(r.n[at + 1], r, v) && InterfaceOn(r.n[at + 2], v, PerVlanBridge(v));
  }

  lemma {:induction false} TrunkHasNoColon(d: Desired, detected: string)
    requires Valid(d) && ':' !in detected
    ensures ':' !in TrunkPort(d, detected)
  {
  }

  /** Every VLAN of a successful plan has an interface on a device that reaches the trunk:
      the bridge's VLAN with an entry there, or a bridge of its own over an 802.1Q device. */
  lemma {:induction false} VlansCarried(w: Config, n: Config, d: Desired, detected: string, prev: Ledger, r: Planned, v: int)
    requires Plan(w, n, d, detected, prev) == Ok(r) && v in d.vlans && ':' !in detected
    ensures if BridgeOf(Undo(w, n, prev).n, r.trunkPort).Some? then CarriedByBridge(r, v) else CarriedByDevice(r, v)
  {
    hide Undo, BuildOn;
    assert BuildOn(Undo(w, n, prev), d, detected, prev.converted) == Ok(r);
    var base := Undo(w, n, prev);
    var managed, vids, port, net := BuiltShape(base, d, detected, prev.converted, r);
    SortIntsKeeps(d.vlans);
    TrunkHasNoColon(d, detected);
    hide Valid, PlanNetwork, Shape, Starts, CarriedByBridge, CarriedByDevice, Plan, TrunkPort, SortInts;
    BuiltFacts(base, d, detected, prev.converted, managed, vids, port, net, r);
    match BridgeOf(base.n, port) {
      case None => StandaloneCarried(base, d, managed, vids, port, prev.converted, net, r, v);
      case Some(b) => BridgeCarried(base, d, managed, vids, port, prev.converted, net, r, b, v);
    }
  }

  /** What a plan takes over from its network side. */
  ghost predicate TakesNet(base: Base, d: Desired, port: string, vids: seq<int>, prev: Option<Conversion>, net: NetPlan, r: Planned) {
    && PlanNetwork(base, port, vids, prev) == Ok(net) && r.n == net.n + net.adds && r.bridge == net.bridge && r.trunkPort == port
    && r.issues == IfaceIssues(base.w, d.ssids) + net.issues + StationIssues(d.stations, ManagedIfaces(base.w, d.ssids))
  }

  lemma {:induction false} BuiltFacts(base: Base, d: Desired, detected: string, prev: Option<Conversion>,
                                      managed: seq<Iface>, vids: seq<int>, port: string, net: NetPlan, r: Planned)
    requires Built(base, d, detected, prev, managed, vids, port, net, r)
    ensures TakesNet(base, d, port, vids, prev, net, r)
    ensures vids == SortInts(d.vlans) && port == TrunkPort(d, detected)
  {
    hide PlanNetwork, Clash, ManagedIfaces, MarkDynAll, DynBefore, SortInts, TrunkPort;
  }

  lemma {:induction false} StandaloneCarried(base: Base, d: Desired, managed: seq<Iface>, vids: seq<int>, port: string,
                                             prev: Option<Conversion>, net: NetPlan, r: Planned, v: int)
    requires TakesNet(base, d, port, vids, prev, net, r) && Shape(base, managed, net, WirelessAdds(d, managed, vids), r)
    requires BridgeOf(base.n, port) == None && v in vids
    ensures CarriedByDevice(r, v)
  {
    hide Shape, CarriedByDevice;
    assert net.adds == StandaloneSections(port, vids);
    hide PlanNetwork;
    StandalonePlumbing(base, managed, net, WirelessAdds(d, managed, vids), r, vids, v);
  }

  lemma {:induction false} NetOnBridge(base: Base, port: string, vids: seq<int>, prev: Option<Conversion>, net: NetPlan, b: Section)
    requires PlanNetwork(base, port, vids, prev) == Ok(net) && BridgeOf(base.n, port) == Some(b)
    ensures net.bridge == b.Text("name")
    ensures EndsWith(net.adds, BridgeVlanSections(base.n, net.bridge, vids, port), NetworkSections(net.bridge, vids))
  {
    hide BridgeVlanSections, NetworkSections, UntaggedVlan, GetOpt, HasBridgeVlans;
  }

  lemma {:induction false} BridgeCarried(base: Base, d: Desired, managed: seq<Iface>, vids: seq<int>, port: string,
                                         prev: Option<Conversion>, net: NetPlan, r: Planned, b: Section, v: int)
    requires TakesNet(base, d, port, vids, prev, net, r) && Shape(base, managed, net, WirelessAdds(d, managed, vids), r)
    requires BridgeOf(base.n, port) == Some(b) && v in vids && ':' !in port
    ensures CarriedByBridge(r, v)
  {
    assert Starts(base, net);
    hide Shape, Starts, PlanNetwork, BridgeVlanSections, NetworkSections, GetOpt, HasEntry, HasInterface, RouterVlan, TaggedMember, EndsWith,
         BridgeOf, IfaceIssues, StationIssues;
    NetOnBridge(base, port, vids, prev, net, b);
    var bvs, ifs := BridgeVlanSections(base.n, net.bridge, vids, port), NetworkSections(net.bridge, vids);
    IssuesOfNet(base, d, port, vids, prev, net, r, net.bridge, v);
    InterfacePlumbing(r, net.n, net.adds, bvs, net.bridge, vids, v);
    if RouterVlan(base.n, net.bridge, v).None? {
      AddedEntry(r, base.n, net.n, net.adds, ifs, vids, v);
    } else {
      FoundEntry(r, base, net, v);
    }
  }

  lemma {:induction false} IssuesOfNet(base: Base, d: Desired, port: string, vids: seq<int>, prev: Option<Conversion>, net: NetPlan,
                    r: Planned, bridge: string, v: int)
    requires BridgeOf(base.n, port).Some? && BridgeOf(base.n, port).value.Text("name") == bridge
    requires PlanNetwork(base, port, vids, prev) == Ok(net) && v in vids
    requires r.issues == IfaceIssues(base.w, d.ssids) + net.issues + StationIssues(d.stations, ManagedIfaces(base.w, d.ssids))
    ensures RouterVlan(base.n, bridge, v).Some? && !TaggedMember(RouterVlan(base.n, bridge, v).value, port) ==>
              NotTagged(v) in r.issues
  {
    if !HasBridgeVlans(base.n, bridge) {
      NoRouterVlan(base.n, bridge, v);
    } else if RouterVlan(base.n, bridge, v).Some? && !TaggedMember(RouterVlan(base.n, bridge, v).value, port) {
      CarriedIssueListed(base.n, bridge, vids, port, v);
    }
  }

  // ---- stations ----

  /** Where a wifi-station comes from. */
  lemma {:induction false} EntryOfStation(st: Station, managed: seq<Iface>, k: nat) returns (b: nat)
    requires k < |EntriesOf(st, managed)|
    ensures b < |managed| && EntriesOf(st, managed)[k] in EntriesFor(st, managed[b])
  {
    var head := EntriesFor(st, managed[0]);
    if k < |head| {
      b := 0;
    } else {
      b := EntryOfStation(st, managed[1..], k - |head|);
      b := b + 1;
    }
  }

  lemma {:induction false} EntryFrom(stations: seq<Station>, managed: seq<Iface>, k: nat) returns (a: nat, b: nat)
    requires k < |Entries(stations, managed)|
    ensures a < |stations| && b < |managed| && Entries(stations, managed)[k] in EntriesFor(stations[a], managed[b])
  {
    var head := EntriesOf(stations[0], managed);
    if k < |head| {
      a := 0;
      b := EntryOfStation(stations[0], managed, k);
    } else {
      a, b := EntryFrom(stations[1..], managed, k - |head|);
      a := a + 1;
    }
  }

  lemma {:induction false} EntryForFacts(st: Station, m: Iface, e: Entry)
    requires e in EntriesFor(st, m) && (st.key == "" ==> st.macs != [])
    ensures e.iface == m.name && e.vid == st.vid
    ensures st.key != "" ==> e.key == st.key && e.key != m.key
    ensures st.key == "" ==> e.key == m.key && ValidKey(m.key) && st.macs != [] && e.mac in st.macs
    ensures st.macs == [] ==> e.mac == ""
    ensures st.macs != [] ==> e.mac in st.macs
  {
    StringLeqTotal();
    SortSorts(StringLeq, st.macs);
    var macs := SortStrings(st.macs);
    assert |multiset(macs)| == |multiset(st.macs)|;
    forall x | x in macs ensures x in st.macs { assert x in multiset(macs); }
  }

  lemma {:induction false} StationOptions(k: nat, e: Entry)
    ensures StationSection(k, e).Text("iface") == e.iface
    ensures StationSection(k, e).Text("key") == e.key
    ensures StationSection(k, e).Text("vid") == Itoa(e.vid)
    ensures StationSection(k, e).Get("mac") == if e.mac == "" then None else Some(Str(e.mac))
  {
    var o := StationSection(k, e).options;
    GetIs(o, 0);
    GetIs(o, 1);
    GetIs(o, 2);
    if e.mac == "" {
      GetNone(o, "mac");
    } else {
      GetIs(o, 3);
    }
  }

  lemma {:induction false} WifiVlanAdded(managed: seq<Iface>, vids: seq<int>, b: nat, v: int) returns (k: nat)
    requires b < |managed| && v in vids
    ensures k < |WifiVlanSections(managed, vids)|
    ensures WifiVlanSections(managed, vids)[k] == WifiVlanSection(v, managed[b].name)
  {
    if b == 0 {
      var i :| 0 <= i < |vids| && vids[i] == v;
      assert WifiVlansOf(managed[0].name, vids)[i] == WifiVlanSection(v, managed[0].name);
      k := i;
    } else {
      k := WifiVlanAdded(managed[1..], vids, b - 1, v);
      k := k + |vids|;
    }
  }

  lemma {:induction false} OptionsOfWifiVlan(v: int, iface: string)
    ensures WifiVlanFor(WifiVlanSection(v, iface), iface, v)
  {
    var o := WifiVlanSection(v, iface).options;
    GetIs(o, 0);
    GetIs(o, 1);
    GetIs(o, 2);
    GetIs(o, 3);
  }

  ghost predicate HasWifiVlan(r: Planned, iface: string, v: int) {
    exists i | 0 <= i < |r.w| :: WifiVlanFor(r.w[i], iface, v)
  }

  /** What a created wifi-station says: its interface, VLAN and where its key comes from. */
  ghost predicate Connected(r: Planned, d: Desired, s: Section) {
    && s.Text("iface") in r.managed
    && exists v | v in d.vlans :: s.Text("vid") == Itoa(v) && HasWifiVlan(r, s.Text("iface"), v)
  }

  lemma {:induction false} StationAt(base: Base, d: Desired, managed: seq<Iface>, net: NetPlan, vids: seq<int>, r: Planned, k: nat)
      returns (e: Entry)
    requires Shape(base, managed, net, WirelessAdds(d, managed, vids), r)
    requires |base.w| <= k < |r.w| && r.w[k].typ == "wifi-station"
    ensures exists j: nat | j < |Entries(d.stations, managed)| ::
              e == Entries(d.stations, managed)[j] && r.w[k] == StationSection(j, e)
  {
    var wv := WifiVlanSections(managed, vids);
    WifiVlansNamed(managed, vids);
    var at := k - |base.w|;
    assert r.w[k] == WirelessAdds(d, managed, vids)[at];
    var ss := StationSectionsFrom(Entries(d.stations, managed), 0);
    var all := wv + ss;
    assert r.w[k] == all[at];
    var j := at - |wv|;
    assert r.w[k] == StationSectionsFrom(Entries(d.stations, managed), 0)[j];
    e := Entries(d.stations, managed)[j];
    assert r.w[k] == StationSection(j, e);
  }

  lemma {:induction false} WifiVlanThere(r: Planned, base: Config, managed: seq<Iface>, d: Desired, vids: seq<int>, b: nat, v: int)
    requires |base| <= |r.w| && r.w[|base|..] == WirelessAdds(d, managed, vids)
    requires b < |managed| && v in vids
    ensures HasWifiVlan(r, managed[b].name, v)
  {
    var i := WifiVlanAdded(managed, vids, b, v);
    OptionsOfWifiVlan(v, managed[b].name);
    assert r.w[|base| + i] == WirelessAdds(d, managed, vids)[i] == WifiVlanSections(managed, vids)[i];
    assert WifiVlanFor(r.w[|base| + i], managed[b].name, v);
  }

  /** The interface and VLAN of an entry are managed and listed. */
  lemma {:induction false} EntryListed(d: Desired, managed: seq<Iface>, j: nat) returns (b: nat)
    requires Valid(d) && j < |Entries(d.stations, managed)|
    ensures b < |managed| && Entries(d.stations, managed)[j].iface == managed[b].name
    ensures Entries(d.stations, managed)[j].vid in d.vlans
  {
    var a: nat;
    a, b := EntryFrom(d.stations, managed, j);
    assert ValidStation(d.stations[a], d.vlans);
    EntryForFacts(d.stations[a], managed[b], Entries(d.stations, managed)[j]);
  }

  /** Plumbing is connected: each created wifi-station is on a managed interface and in a
      listed VLAN, and that VLAN has a wifi-vlan on that interface (its network is the one
      VlansCarried is about). */
  lemma {:induction false} StationsConnected(w: Config, n: Config, d: Desired, detected: string, prev: Ledger, r: Planned, k: nat)
    requires Plan(w, n, d, detected, prev) == Ok(r) && d.vlans != []
    requires |Undo(w, n, prev).w| <= k < |r.w| && r.w[k].typ == "wifi-station"
    ensures Connected(r, d, r.w[k])
  {
    var base := Undo(w, n, prev);
    var managed, vids, port, net := BuiltShape(base, d, detected, prev.converted, r);
    SortIntsKeeps(d.vlans);
    ShapeSlices(base, managed, net, WirelessAdds(d, managed, vids), r);
    var e := StationAt(base, d, managed, net, vids, r, k);
    var j: nat :| j < |Entries(d.stations, managed)| && e == Entries(d.stations, managed)[j] && r.w[k] == StationSection(j, e);
    StationOptions(j, e);
    var b := EntryListed(d, managed, j);
    WifiVlanThere(r, base.w, managed, d, vids, b, e.vid);
    assert managed[b].name in IfaceNames(managed);
  }

  /** An entry without a MAC has a key of its own. */
  lemma {:induction false} NoMacNoOwnKey(d: Desired, managed: seq<Iface>, j: nat) returns (b: nat)
    requires Valid(d) && j < |Entries(d.stations, managed)| && Entries(d.stations, managed)[j].mac == ""
    ensures b < |managed| && Entries(d.stations, managed)[j].iface == managed[b].name
    ensures Entries(d.stations, managed)[j].key != managed[b].key
  {
    var a: nat;
    a, b := EntryFrom(d.stations, managed, j);
    var st, e := d.stations[a], Entries(d.stations, managed)[j];
    assert ValidStation(st, d.vlans);
    EntryForFacts(st, managed[b], e);
    assert !ValidMac("");
  }

  lemma {:induction false} KeyOfManaged(base: Base, managed: seq<Iface>, ssids: seq<string>, r: Planned, b: nat, i: nat)
    requires UniqueNames(base.w) && managed == ManagedIfaces(base.w, ssids) && b < |managed|
    requires |base.w| <= |r.w| && r.w[..|base.w|] == MarkDynAll(base.w, IfaceNames(managed))
    requires i < |base.w| && r.w[i].name == managed[b].name
    ensures r.w[i].Text("key") == managed[b].key
  {
    var x := ManagedFrom(base.w, ssids, b);
    assert r.w[i] == MarkDynAll(base.w, IfaceNames(managed))[i] == MarkDyn(base.w[i], IfaceNames(managed));
    assert base.w[i].name == base.w[x].name;
    assert i == x;
    GetAfterSet(base.w[i].options, "dynamic_vlan", Str("1"), "key");
  }

  /** No created wifi-station without a MAC carries the own passphrase of the interface it
      names. */
  lemma {:induction false} OwnPassphraseNeedsMac(w: Config, n: Config, d: Desired, detected: string, prev: Ledger, r: Planned, k: nat, i: nat)
    requires WellNamed(w) && Plan(w, n, d, detected, prev) == Ok(r) && d.vlans != []
    requires |Undo(w, n, prev).w| <= k < |r.w| && r.w[k].typ == "wifi-station" && r.w[k].Get("mac") == None
    requires i < |Undo(w, n, prev).w| && r.w[i].name == r.w[k].Text("iface")
    ensures r.w[k].Text("key") != r.w[i].Text("key")
  {
    var base := Undo(w, n, prev);
    var managed, vids, port, net := BuiltShape(base, d, detected, prev.converted, r);
    DropLeaves(w, Removed(w, n, prev));
    UndoFrames(w, n, prev);
    ShapeSlices(base, managed, net, WirelessAdds(d, managed, vids), r);
    var e := StationAt(base, d, managed, net, vids, r, k);
    var j: nat :| j < |Entries(d.stations, managed)| && e == Entries(d.stations, managed)[j] && r.w[k] == StationSection(j, e);
    StationOptions(j, e);
    var b := NoMacNoOwnKey(d, managed, j);
    KeyOfManaged(base, managed, d.ssids, r, b, i);
  }

  // ---- completeness ----

  lemma {:induction false} EntryTo(stations: seq<Station>, managed: seq<Iface>, a: nat, b: nat, e: Entry)
    requires a < |stations| && b < |managed| && e in EntriesFor(stations[a], managed[b])
    ensures e in Entries(stations, managed)
  {
    if a == 0 {
      EntryToStation(stations[0], managed, b, e);
    } else {
      EntryTo(stations[1..], managed, a - 1, b, e);
    }
  }

  lemma {:induction false} EntryToStation(st: Station, managed: seq<Iface>, b: nat, e: Entry)
    requires b < |managed| && e in EntriesFor(st, managed[b])
    ensures e in EntriesOf(st, managed)
  {
    if b > 0 {
      EntryToStation(st, managed[1..], b - 1, e);
    }
  }

  lemma {:induction false} IssueTo(stations: seq<Station>, managed: seq<Iface>, a: nat, b: nat, issue: Issue)
    requires a < |stations| && b < |managed| && issue in StationIssue(stations[a], managed[b])
    ensures issue in StationIssues(stations, managed)
  {
    if a == 0 {
      IssueToStation(stations[0], managed, b, issue);
    } else {
      IssueTo(stations[1..], managed, a - 1, b, issue);
    }
  }

  lemma {:induction false} IssueToStation(st: Station, managed: seq<Iface>, b: nat, issue: Issue)
    requires b < |managed| && issue in StationIssue(st, managed[b])
    ensures issue in StationIssuesOf(st, managed)
  {
    if b > 0 {
      IssueToStation(st, managed[1..], b - 1, issue);
    }
  }

  lemma {:induction false} EntryForEach(st: Station, m: Iface, key: string, mac: string)
    requires StationKey(st, m) == Ok(key)
    requires if st.macs == [] then mac == "" else mac in st.macs
    ensures Entry(m.name, key, st.vid, mac) in EntriesFor(st, m)
  {
    StringLeqTotal();
    SortSorts(StringLeq, st.macs);
    var macs := SortStrings(st.macs);
    assert |multiset(macs)| == |multiset(st.macs)|;
    if st.macs != [] {
      assert mac in multiset(macs);
      var i :| 0 <= i < |macs| && macs[i] == mac;
      assert EntriesFor(st, m)[i] == Entry(m.name, key, st.vid, mac);
    }
  }

  ghost predicate StationFor(s: Section, iface: string, key: string, vid: int, mac: string) {
    && s.typ == "wifi-station" && s.Text("iface") == iface && s.Text("key") == key && s.Text("vid") == Itoa(vid)
    && s.Get("mac") == if mac == "" then None else Some(Str(mac))
  }

  /** Nothing asked for is lost silently: on each managed interface a station either has an
      issue, or a wifi-station for each of its MACs (one for everybody when it has none). */
  lemma {:induction false} StationServed(w: Config, n: Config, d: Desired, detected: string, prev: Ledger, r: Planned,
                      managed: seq<Iface>, a: nat, b: nat, mac: string)
    requires Plan(w, n, d, detected, prev) == Ok(r) && d.vlans != []
    requires managed == ManagedIfaces(Undo(w, n, prev).w, d.ssids)
    requires a < |d.stations| && b < |managed|
    requires if d.stations[a].macs == [] then mac == "" else mac in d.stations[a].macs
    ensures match StationKey(d.stations[a], managed[b])
            case Err(issue) => issue in r.issues
            case Ok(key) =>
              exists k | |Undo(w, n, prev).w| <= k < |r.w| :: StationFor(r.w[k], managed[b].name, key, d.stations[a].vid, mac)
  {
    hide Undo, Valid, BuildOn, Built, Shape, PlanNetwork, ManagedIfaces, SortInts, StationKey, StationFor, IfaceIssues, StationIssues;
    var base := Undo(w, n, prev);
    assert BuildOn(base, d, detected, prev.converted) == Ok(r);
    var managed', vids, port, net := BuiltShape(base, d, detected, prev.converted, r);
    BuiltFacts(base, d, detected, prev.converted, managed', vids, port, net, r);
    match StationKey(d.stations[a], managed[b])
    case Err(issue) =>
      IssueTo(d.stations, managed, a, b, issue);
    case Ok(key) =>
      assert managed' == managed by { BuiltManaged(base, d, detected, prev.converted, managed', vids, port, net, r); }
      KeyServed(base, d, managed, vids, net, r, a, b, mac, key);
  }

  lemma {:induction false} BuiltManaged(base: Base, d: Desired, detected: string, prev: Option<Conversion>,
                                        managed: seq<Iface>, vids: seq<int>, port: string, net: NetPlan, r: Planned)
    requires Built(base, d, detected, prev, managed, vids, port, net, r)
    ensures managed == ManagedIfaces(base.w, d.ssids)
  {
    hide ManagedIfaces;
  }

  lemma {:induction false} KeyServed(base: Base, d: Desired, managed: seq<Iface>, vids: seq<int>, net: NetPlan, r: Planned,
                                     a: nat, b: nat, mac: string, key: string)
    requires Shape(base, managed, net, WirelessAdds(d, managed, vids), r)
    requires a < |d.stations| && b < |managed| && StationKey(d.stations[a], managed[b]) == Ok(key)
    requires if d.stations[a].macs == [] then mac == "" else mac in d.stations[a].macs
    ensures exists k | |base.w| <= k < |r.w| :: StationFor(r.w[k], managed[b].name, key, d.stations[a].vid, mac)
  {
    var wAdds := WirelessAdds(d, managed, vids);
    assert r.w == MarkDynAll(base.w, IfaceNames(managed)) + wAdds;
    hide Shape, MarkDynAll, IfaceNames;
    var st, m := d.stations[a], managed[b];
    var e := Entry(m.name, key, st.vid, mac);
    EntryForEach(st, m, key, mac);
    EntryTo(d.stations, managed, a, b, e);
    var es := Entries(d.stations, managed);
    var j :| 0 <= j < |es| && es[j] == e;
    StationOptions(j, es[j]);
    var wv := WifiVlanSections(managed, vids);
    var k := |r.w| - |es| + j;
    assert wAdds == wv + StationSectionsFrom(es, 0);
    assert r.w[k] == wAdds[|wv| + j] == StationSectionsFrom(es, 0)[j];
    assert StationFor(r.w[k], m.name, key, st.vid, mac);
  }
}
