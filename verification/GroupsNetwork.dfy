/** The network side of a plan in the configs' own words: the trunk, the bridge it is on, what
    each VLAN gets there, when a bridge is converted and what a plan is refused for. */
module GroupsNetwork {
  import opened Wrappers
  import opened Text
  import opened UciConfig
  import opened GroupsPlan
  import opened GroupsNames
  import opened GroupsNoDrift
  import opened GroupsChains
  import opened GroupsResult
  import opened GroupsLaws

  // ---- the bridge of the trunk ----

  /** A bridge device with the port among its ports. */
  predicate HoldsPort(s: Section, port: string) {
    && s.typ == "device"
    && s.Text("type") == "bridge"
    && exists k | 0 <= k < |s.Items("ports")| :: s.Items("ports")[k] == port
  }

  lemma {:induction false} BridgeExactly(n: Config, port: string)
    ensures BridgeOf(n, port).None? <==> forall i | 0 <= i < |n| :: !HoldsPort(n[i], port)
    ensures BridgeOf(n, port).Some? ==>
              exists i | 0 <= i < |n| :: n[i] == BridgeOf(n, port).value && HoldsPort(n[i], port) && forall j | 0 <= j < i :: !HoldsPort(n[j], port)
  {
    if n != [] {
      var rest := n[1..];
      assert IsBridgeOf(n[0], port) <==> HoldsPort(n[0], port);
      hide IsBridgeOf, HoldsPort;
      BridgeExactly(rest, port);
      assert forall i | 0 <= i < |rest| :: rest[i] == n[i + 1];
      assert forall i | 1 <= i < |n| :: n[i] == rest[i - 1];
      if !IsBridgeOf(n[0], port) && BridgeOf(rest, port).Some? {
        var i :| 0 <= i < |rest| && rest[i] == BridgeOf(rest, port).value && HoldsPort(rest[i], port) && forall j | 0 <= j < i :: !HoldsPort(rest[j], port);
        assert n[i + 1] == rest[i];
      }
    }
  }

  // ---- the entries of a VLAN ----

  /** An entry of the VLAN on the bridge. */
  predicate EntryOf(s: Section, bridge: string, v: int) {
    s.typ == "bridge-vlan" && s.Text("device") == bridge && s.Text("vlan") == Itoa(v)
  }

  lemma {:induction false} RouterVlanExactly(n: Config, bridge: string, v: int)
    ensures RouterVlan(n, bridge, v).None? <==> forall i | 0 <= i < |n| :: !EntryOf(n[i], bridge, v)
    ensures RouterVlan(n, bridge, v).Some? ==>
              exists i | 0 <= i < |n| ::
                n[i] == RouterVlan(n, bridge, v).value && EntryOf(n[i], bridge, v) && forall j | 0 <= j < i :: !EntryOf(n[j], bridge, v)
  {
    if n != [] {
      var rest := n[1..];
      assert OnBridge(n[0], bridge) && n[0].Text("vlan") == Itoa(v) <==> EntryOf(n[0], bridge, v);
      var r := RouterVlan(n, bridge, v);
      assert r == if EntryOf(n[0], bridge, v) then Some(n[0]) else RouterVlan(rest, bridge, v);
      RouterVlanExactly(rest, bridge, v);
      hide EntryOf, RouterVlan, OnBridge;
      assert forall i | 0 <= i < |rest| :: rest[i] == n[i + 1];
      assert forall i | 1 <= i < |n| :: n[i] == rest[i - 1];
      if !EntryOf(n[0], bridge, v) && r.Some? {
        var i :| 0 <= i < |rest| && rest[i] == r.value && EntryOf(rest[i], bridge, v) && forall j | 0 <= j < i :: !EntryOf(rest[j], bridge, v);
        assert n[i + 1] == rest[i];
      }
    }
  }

  /** How a port stands in an entry's list: alone, or with flags behind a colon. */
  lemma {:induction false} TaggedForms(port: string, other: string, flags: string)
    requires ':' !in port && ':' !in other
    ensures TaggedEntry(other, port) <==> other == port
    ensures TaggedEntry(other + ":" + flags, port) <==> other == port && 'u' !in flags
  {
    assert IndexOf(other, ':') == |other| && other[..|other|] == other && other[|other|..] == [];
    var p := other + ":" + flags;
    IndexOfIs(p, ':', |other|);
    assert p[..|other|] == other && p[|other|..] == ":" + flags;
  }

  /** The trunk is tagged in an entry that lists it without an u, and in no other. */
  lemma {:induction false} TaggedExactly(s: Section, port: string)
    requires ':' !in port
    ensures TaggedMember(s, port) <==>
              exists k | 0 <= k < |s.Items("ports")| ::
                var p := s.Items("ports")[k];
                p == port || (|p| > |port| && p[..|port|] == port && p[|port|] == ':' && 'u' !in p[|port|..])
  {
    var items := s.Items("ports");
    forall k | 0 <= k < |items|
      ensures var p := items[k];
              TaggedEntry(p, port) <==> p == port || (|p| > |port| && p[..|port|] == port && p[|port|] == ':' && 'u' !in p[|port|..])
    {
      EntryExactly(items[k], port);
    }
    hide TaggedEntry, Section.Items;
  }

  lemma {:induction false} EntryExactly(p: string, port: string)
    requires ':' !in port
    ensures TaggedEntry(p, port) <==> p == port || (|p| > |port| && p[..|port|] == port && p[|port|] == ':' && 'u' !in p[|port|..])
  {
    var cut := IndexOf(p, ':');
    if p == port {
      assert cut == |p| && p[..cut] == p;
    } else if |p| > |port| && p[..|port|] == port && p[|port|] == ':' {
      forall j | 0 <= j < |port| ensures p[j] != ':' { assert p[j] == p[..|port|][j] == port[j]; }
      IndexOfIs(p, ':', |port|);
    }
    if p[..cut] == port {
      assert |port| == cut && (cut == |p| ==> p == p[..cut]);
    }
  }

  // ---- what each VLAN gets on the bridge ----

  /** The entry a plan writes for a VLAN: the trunk tagged, nothing else. */
  predicate TrunkEntry(s: Section, bridge: string, v: int, port: string) {
    && s.name == "perch_bv" + Itoa(v) && !s.anonymous
    && EntryOf(s, bridge, v)
    && s.Items("ports") == [port + ":t"]
  }

  lemma {:induction false} TrunkEntryIs(bridge: string, v: int, port: string)
    ensures TrunkEntry(BridgeVlanSection(bridge, v, port), bridge, v, port)
  {
    var o := BridgeVlanSection(bridge, v, port).options;
    GetIs(o, 0);
    GetIs(o, 1);
    GetIs(o, 2);
  }

  lemma {:induction false} AddedFrom(n: Config, bridge: string, vids: seq<int>, port: string, k: nat) returns (v: int)
    requires k < |BridgeVlanSections(n, bridge, vids, port)|
    ensures v in vids && RouterVlan(n, bridge, v).None?
    ensures BridgeVlanSections(n, bridge, vids, port)[k] == BridgeVlanSection(bridge, v, port)
  {
    hide RouterVlan, BridgeVlanSection;
    var head: seq<Section> := if RouterVlan(n, bridge, vids[0]).Some? then [] else [BridgeVlanSection(bridge, vids[0], port)];
    if k < |head| {
      v := vids[0];
    } else {
      v := AddedFrom(n, bridge, vids[1..], port, k - |head|);
    }
  }

  /** No section added for the VLANs of a bridge is an entry of a VLAN that was there. */
  lemma {:induction false} NothingAdded(n: Config, bridge: string, vids: seq<int>, port: string, v: int)
    requires v >= 0 && (forall i | 0 <= i < |vids| :: vids[i] >= 0) && RouterVlan(n, bridge, v).Some?
    ensures forall k | 0 <= k < |BridgeVlanSections(n, bridge, vids, port)| :: !EntryOf(BridgeVlanSections(n, bridge, vids, port)[k], bridge, v)
    ensures forall k | 0 <= k < |NetworkSections(bridge, vids)| :: !EntryOf(NetworkSections(bridge, vids)[k], bridge, v)
  {
    var bvs := BridgeVlanSections(n, bridge, vids, port);
    hide RouterVlan, BridgeVlanSections, BridgeVlanSection, Itoa;
    forall k: nat | k < |bvs| ensures !EntryOf(bvs[k], bridge, v) {
      var x := AddedFrom(n, bridge, vids, port, k);
      TrunkEntryIs(bridge, x, port);
      assert x >= 0;
      if EntryOf(bvs[k], bridge, v) {
        ItoaInjective(x, v);
        assert false;
      }
    }
  }

  lemma {:induction false} CarriedExactly(n: Config, bridge: string, vids: seq<int>, port: string, v: int)
    ensures AlreadyCarried(v) in CarriedIssues(n, bridge, vids, port) <==> v in vids && RouterVlan(n, bridge, v).Some?
    ensures NotTagged(v) in CarriedIssues(n, bridge, vids, port) <==>
              v in vids && RouterVlan(n, bridge, v).Some? && !TaggedMember(RouterVlan(n, bridge, v).value, port)
  {
    if vids != [] {
      CarriedExactly(n, bridge, vids[1..], port, v);
      hide RouterVlan, TaggedMember;
      var x := vids[0];
      var head := CarriedIssue(n, bridge, x, port);
      assert AlreadyCarried(v) in head <==> v == x && RouterVlan(n, bridge, x).Some? by {
        if RouterVlan(n, bridge, x).Some? { assert head[0] == AlreadyCarried(x); }
      }
      assert NotTagged(v) in head <==> v == x && RouterVlan(n, bridge, x).Some? && !TaggedMember(RouterVlan(n, bridge, x).value, port) by {
        if RouterVlan(n, bridge, x).Some? && !TaggedMember(RouterVlan(n, bridge, x).value, port) { assert head[1] == NotTagged(x); }
      }
      hide CarriedIssue;
    }
  }

  /** The parts of a network plan on a bridge. */
  ghost predicate OnBridgeParts(base: Base, port: string, vids: seq<int>, net: NetPlan, bridge: string, first: seq<Section>) {
    && net.bridge == bridge
    && net.adds == first + (BridgeVlanSections(base.n, bridge, vids, port) + NetworkSections(bridge, vids))
    && (net.issues == CarriedIssues(base.n, bridge, vids, port) || (net.issues == [] && !HasBridgeVlans(base.n, bridge)))
    && (first != [] ==> !HasBridgeVlans(base.n, bridge))
  }

  lemma {:induction false} NetParts(base: Base, port: string, vids: seq<int>, prev: Option<Conversion>, net: NetPlan, b: Section)
      returns (first: seq<Section>)
    requires PlanNetwork(base, port, vids, prev) == Ok(net) && BridgeOf(base.n, port) == Some(b)
    ensures OnBridgeParts(base, port, vids, net, b.Text("name"), first)
  {
    hide BridgeVlanSections, NetworkSections, UntaggedVlan, GetOpt, HasBridgeVlans, CarriedIssues, UntaggedSection;
    var bridge := b.Text("name");
    var rest := BridgeVlanSections(base.n, bridge, vids, port) + NetworkSections(bridge, vids);
    first := net.adds[..|net.adds| - |rest|];
    assert [] + rest == rest;
  }

  /** The first section that holds the trunk, and the first entry of the VLAN on it. */
  ghost predicate FirstHolder(n: Config, port: string, i: nat) {
    i < |n| && HoldsPort(n[i], port) && forall j | 0 <= j < i :: !HoldsPort(n[j], port)
  }

  ghost predicate FirstEntry(n: Config, bridge: string, v: int, i: nat) {
    i < |n| && EntryOf(n[i], bridge, v) && forall j | 0 <= j < i :: !EntryOf(n[j], bridge, v)
  }

  lemma {:induction false} HolderIs(n: Config, port: string, i: nat)
    requires FirstHolder(n, port, i)
    ensures BridgeOf(n, port) == Some(n[i])
  {
    BridgeExactly(n, port);
    hide BridgeOf, HoldsPort;
    var k :| 0 <= k < |n| && n[k] == BridgeOf(n, port).value && HoldsPort(n[k], port) && forall j | 0 <= j < k :: !HoldsPort(n[j], port);
    assert k == i;
  }

  lemma {:induction false} EntryIs(n: Config, bridge: string, v: int, i: nat)
    requires FirstEntry(n, bridge, v, i)
    ensures RouterVlan(n, bridge, v) == Some(n[i])
  {
    RouterVlanExactly(n, bridge, v);
    hide RouterVlan, EntryOf;
    var k :| 0 <= k < |n| && n[k] == RouterVlan(n, bridge, v).value && EntryOf(n[k], bridge, v) && forall j | 0 <= j < k :: !EntryOf(n[j], bridge, v);
    assert k == i;
  }

  /** The parts of a plan's network config. */
  ghost predicate NetOf(base: Base, d: Desired, detected: string, prev: Option<Conversion>, r: Planned, net: NetPlan) {
    && PlanNetwork(base, r.trunkPort, SortInts(d.vlans), prev) == Ok(net)
    && r.n == net.n + net.adds && |net.n| == |base.n| && r.bridge == net.bridge && r.ledger.converted == net.converted
    && r.converted == net.converted.Some?
    && r.trunkPort == TrunkPort(d, detected) && r.trunkPort != ""
    && forall x | OfNetwork(x) :: x in r.issues <==> x in net.issues
  }

  lemma {:induction false} TakenOver(base: Base, d: Desired, detected: string, prev: Option<Conversion>, r: Planned) returns (net: NetPlan)
    requires d.vlans != [] && BuildOn(base, d, detected, prev) == Ok(r)
    ensures NetOf(base, d, detected, prev, r, net)
  {
    var managed, vids, port, net' := BuiltShape(base, d, detected, prev, r);
    net := net';
    hide PlanNetwork, Clash, ManagedIfaces, MarkDynAll, DynBefore, SortInts, TrunkPort, IfaceIssues, StationIssues, BindingKeys, WirelessAdds;
    assert r.trunkPort == port != "";
    assert r.n == net.n + net.adds && r.bridge == net.bridge && r.ledger.converted == net.converted && r.converted == net.converted.Some?;
    assert |net.n| == |base.n| by { assert Starts(base, net); }
    hide BuildOn, Shape, Built, OfNetwork;
    forall x | OfNetwork(x) ensures x in r.issues <==> x in net.issues {
      var n' := IssuesByKind(base, d, detected, prev, r, x) by { assert BuildOn(base, d, detected, prev) == Ok(r); }
    }
  }

  /** The trunk is the named port, or the detected one for "auto" and none. */
  lemma {:induction false} TrunkExactly(w: Config, n: Config, d: Desired, detected: string, prev: Ledger, r: Planned)
    requires Plan(w, n, d, detected, prev) == Ok(r) && d.vlans != []
    ensures r.trunkPort == if d.trunk == "" || d.trunk == "auto" then detected else d.trunk
  {
    hide Undo, Valid;
    var net := TakenOver(Undo(w, n, prev), d, detected, prev.converted, r);
    hide BuildOn, PlanNetwork, SortInts;
  }

  /** What a plan makes of a VLAN on the trunk's bridge, whose sections were `c` before: one it
      carries already is left as it is and reported, the missing trunk too; any other gets one
      entry, with the trunk tagged. */
  ghost predicate VlanTreated(c: Config, r: Planned, v: int) {
    && (AlreadyCarried(v) in r.issues <==> exists k: nat :: FirstEntry(c, r.bridge, v, k))
    && (forall k: nat | FirstEntry(c, r.bridge, v, k) :: NotTagged(v) in r.issues <==> !TaggedMember(c[k], r.trunkPort))
    && (forall k: nat, j | FirstEntry(c, r.bridge, v, k) && |c| <= j < |r.n| :: !EntryOf(r.n[j], r.bridge, v))
    && ((forall k: nat :: !FirstEntry(c, r.bridge, v, k)) ==> exists j | |c| <= j < |r.n| :: TrunkEntry(r.n[j], r.bridge, v, r.trunkPort))
  }

  lemma {:induction false} VlanOnBridge(w: Config, n: Config, d: Desired, detected: string, prev: Ledger, r: Planned, i: nat, v: int)
    requires Plan(w, n, d, detected, prev) == Ok(r) && v in d.vlans && FirstHolder(Undo(w, n, prev).n, r.trunkPort, i)
    ensures r.bridge == Undo(w, n, prev).n[i].Text("name") && VlanTreated(Undo(w, n, prev).n, r, v)
  {
    var base := Undo(w, n, prev);
    assert BuildOn(base, d, detected, prev.converted) == Ok(r);
    VidsOf(d, v);
    hide Undo, Valid, SortInts, BuildOn, Plan, VlanTreated, FirstHolder;
    var net := TakenOver(base, d, detected, prev.converted, r);
    VlanOn(base, d, detected, prev.converted, r, net, i, v);
  }

  lemma {:induction false} VidsOf(d: Desired, v: int)
    requires Valid(d) && v in d.vlans
    ensures v >= 0 && v in SortInts(d.vlans) && forall k | 0 <= k < |SortInts(d.vlans)| :: SortInts(d.vlans)[k] >= 0
  {
    SortIntsKeeps(d.vlans);
    var vids := SortInts(d.vlans);
    forall k | 0 <= k < |vids| ensures vids[k] >= 0 { assert vids[k] in vids && vids[k] in d.vlans; }
  }

  lemma {:induction false} VlanOn(base: Base, d: Desired, detected: string, prev: Option<Conversion>, r: Planned, net: NetPlan, i: nat, v: int)
    requires NetOf(base, d, detected, prev, r, net) && FirstHolder(base.n, r.trunkPort, i)
    requires v >= 0 && v in SortInts(d.vlans) && forall k | 0 <= k < |SortInts(d.vlans)| :: SortInts(d.vlans)[k] >= 0
    ensures r.bridge == base.n[i].Text("name") && VlanTreated(base.n, r, v)
  {
    var c, port, vids := base.n, r.trunkPort, SortInts(d.vlans);
    HolderIs(c, port, i);
    hide SortInts, PlanNetwork, EntryOf, TrunkEntry, TaggedMember, BridgeOf, FirstHolder, TrunkPort;
    var first := NetParts(base, port, vids, prev, net, c[i]);
    hide Section.Text;
    VlanIssues(base, r, net, vids, port, v, first);
    if RouterVlan(c, r.bridge, v).Some? { NothingMore(base, r, net, vids, port, v, first); }
    else { OneMoreEntry(base, r, net, vids, port, v, first); }
    hide OnBridgeParts, NetOf, RouterVlan, VlanTreated;
    FoundIsTreated(c, r, v);
  }

  lemma {:induction false} FoundIsTreated(c: Config, r: Planned, v: int)
    requires AlreadyCarried(v) in r.issues <==> RouterVlan(c, r.bridge, v).Some?
    requires RouterVlan(c, r.bridge, v).Some? ==> (NotTagged(v) in r.issues <==> !TaggedMember(RouterVlan(c, r.bridge, v).value, r.trunkPort))
    requires RouterVlan(c, r.bridge, v).Some? ==> forall j | |c| <= j < |r.n| :: !EntryOf(r.n[j], r.bridge, v)
    requires RouterVlan(c, r.bridge, v).None? ==> exists j | |c| <= j < |r.n| :: TrunkEntry(r.n[j], r.bridge, v, r.trunkPort)
    ensures VlanTreated(c, r, v)
  {
    hide RouterVlan, EntryOf, TrunkEntry, TaggedMember;
    RouterVlanExactly(c, r.bridge, v);
    if RouterVlan(c, r.bridge, v).Some? {
      var k: nat :| k < |c| && c[k] == RouterVlan(c, r.bridge, v).value && FirstEntry(c, r.bridge, v, k);
      forall k': nat | FirstEntry(c, r.bridge, v, k') ensures Some(c[k']) == RouterVlan(c, r.bridge, v) { EntryIs(c, r.bridge, v, k'); }
    } else {
      assert forall k: nat :: !FirstEntry(c, r.bridge, v, k);
    }
  }

  lemma {:induction false} VlanIssues(base: Base, r: Planned, net: NetPlan, vids: seq<int>, port: string, v: int, first: seq<Section>)
    requires OnBridgeParts(base, port, vids, net, r.bridge, first) && v in vids
    requires forall x | OfNetwork(x) :: x in r.issues <==> x in net.issues
    ensures AlreadyCarried(v) in r.issues <==> RouterVlan(base.n, r.bridge, v).Some?
    ensures NotTagged(v) in r.issues <==>
              RouterVlan(base.n, r.bridge, v).Some? && !TaggedMember(RouterVlan(base.n, r.bridge, v).value, port)
  {
    CarriedExactly(base.n, r.bridge, vids, port, v);
    if net.issues == [] && !HasBridgeVlans(base.n, r.bridge) {
      NoRouterVlan(base.n, r.bridge, v);
    }
    assert OfNetwork(AlreadyCarried(v)) && OfNetwork(NotTagged(v));
    hide RouterVlan, TaggedMember, CarriedIssues, OfNetwork;
  }

  lemma {:induction false} NothingMore(base: Base, r: Planned, net: NetPlan, vids: seq<int>, port: string, v: int, first: seq<Section>)
    requires OnBridgeParts(base, port, vids, net, r.bridge, first) && r.n == net.n + net.adds && |net.n| == |base.n|
    requires v >= 0 && (forall i | 0 <= i < |vids| :: vids[i] >= 0) && RouterVlan(base.n, r.bridge, v).Some?
    ensures forall j | |base.n| <= j < |r.n| :: !EntryOf(r.n[j], r.bridge, v)
  {
    if !HasBridgeVlans(base.n, r.bridge) { NoRouterVlan(base.n, r.bridge, v); }
    assert first == [];
    NothingAdded(base.n, r.bridge, vids, port, v);
    hide RouterVlan, HasBridgeVlans, BridgeVlanSections, NetworkSections, EntryOf;
    var bvs, ifs := BridgeVlanSections(base.n, r.bridge, vids, port), NetworkSections(r.bridge, vids);
    assert [] + (bvs + ifs) == bvs + ifs;
    hide OnBridgeParts;
    forall j | |base.n| <= j < |r.n| ensures !EntryOf(r.n[j], r.bridge, v) {
      InEither(net.n, bvs, ifs, j);
    }
  }

  lemma {:induction false} InEither(a: Config, b: Config, c: Config, j: nat)
    requires |a| <= j < |a + (b + c)|
    ensures (exists k | 0 <= k < |b| :: (a + (b + c))[j] == b[k]) || exists k | 0 <= k < |c| :: (a + (b + c))[j] == c[k]
  {
    var k := j - |a|;
    assert (a + (b + c))[j] == (b + c)[k];
    if k < |b| { assert (b + c)[k] == b[k]; } else { assert (b + c)[k] == c[k - |b|]; }
  }

  lemma {:induction false} OneMoreEntry(base: Base, r: Planned, net: NetPlan, vids: seq<int>, port: string, v: int, first: seq<Section>)
    requires OnBridgeParts(base, port, vids, net, r.bridge, first) && r.n == net.n + net.adds && |net.n| == |base.n|
    requires v in vids && RouterVlan(base.n, r.bridge, v).None?
    ensures exists j | |base.n| <= j < |r.n| :: TrunkEntry(r.n[j], r.bridge, v, port)
  {
    hide RouterVlan, HasBridgeVlans, BridgeVlanSections, NetworkSections, TrunkEntry;
    var bvs, ifs := BridgeVlanSections(base.n, r.bridge, vids, port), NetworkSections(r.bridge, vids);
    var k := BridgeVlanAdded(base.n, r.bridge, vids, port, v);
    TrunkEntryIs(r.bridge, v, port);
    assert r.n[|net.n| + |first| + k] == bvs[k];
  }

  // ---- conversion ----

  /** No entry of any VLAN is on the bridge. */
  predicate Untouched(n: Config, bridge: string) {
    forall k | 0 <= k < |n| :: !(n[k].typ == "bridge-vlan" && n[k].Text("device") == bridge)
  }

  /** An interface on the bridge itself. */
  predicate OnBare(s: Section, bridge: string) { s.typ == "interface" && s.Text("device") == bridge }

  /** The entry of the untagged VLAN: every port of the bridge, untagged and as its own VLAN. */
  predicate UntaggedEntry(s: Section, bridge: string, u: int, ports: seq<string>) {
    && s.name == "perch_bvu" && !s.anonymous
    && EntryOf(s, bridge, u)
    && |s.Items("ports")| == |ports| && forall k | 0 <= k < |ports| :: s.Items("ports")[k] == ports[k] + ":u*"
  }

  lemma {:induction false} UntaggedEntryIs(bridge: string, u: int, ports: seq<string>)
    ensures UntaggedEntry(UntaggedSection(bridge, u, ports), bridge, u, ports)
  {
    var s := UntaggedSection(bridge, u, ports);
    GetIs(s.options, 0);
    GetIs(s.options, 1);
    GetIs(s.options, 2);
    assert s.Items("ports") == Untagged(ports);
  }

  /** What a conversion of `b` leaves. */
  ghost predicate ConvertsTo(c: Config, r: Planned, b: Section) {
    && r.converted && r.ledger.converted.Some? && |c| < |r.n|
    && var conv, bridge := r.ledger.converted.value, b.Text("name");
       && conv.bridge == bridge && UntaggedEntry(r.n[|c|], bridge, conv.untagged, b.Items("ports"))
       && (forall k | 0 <= k < |c| ::
             r.n[k] == if OnBare(c[k], bridge) then c[k].Set("device", Str(bridge + "." + Itoa(conv.untagged))) else c[k])
       && (forall x :: x in conv.moved <==> exists k | 0 <= k < |c| :: OnBare(c[k], bridge) && c[k].name == x)
       && (forall x | x in conv.moved :: conv.moved[x] == bridge)
  }

  ghost predicate LeavesBridges(base: Base, r: Planned) {
    r.ledger.converted == base.kept && r.converted == base.kept.Some? && |base.n| <= |r.n| && r.n[..|base.n|] == base.n
  }

  /** A bridge is converted exactly when the trunk is on one without any VLAN entry and no
      conversion was kept; then as follows, else the network sections stay as they were. */
  ghost predicate ConvertedAsNeeded(base: Base, r: Planned) {
    && (forall i: nat | FirstHolder(base.n, r.trunkPort, i) && Untouched(base.n, base.n[i].Text("name")) ::
          base.kept.None? && ConvertsTo(base.n, r, base.n[i]))
    && ((forall i: nat | FirstHolder(base.n, r.trunkPort, i) :: !Untouched(base.n, base.n[i].Text("name"))) ==> LeavesBridges(base, r))
  }

  lemma {:induction false} ConversionExactly(w: Config, n: Config, d: Desired, detected: string, prev: Ledger, r: Planned)
    requires Plan(w, n, d, detected, prev) == Ok(r) && d.vlans != [] && WellNamed(w) && WellNamed(n) && WellFormed(prev, w, n)
    ensures ConvertedAsNeeded(Undo(w, n, prev), r)
  {
    var base := Undo(w, n, prev);
    assert BuildOn(base, d, detected, prev.converted) == Ok(r);
    UndoValid(w, n, prev);
    hide Undo, Valid, SortInts, BuildOn, Plan, ConvertedAsNeeded, WellNamed, WellFormed;
    var net := TakenOver(base, d, detected, prev.converted, r);
    hide NetOf;
    KeptHasEntry(base);
    if BridgeOf(base.n, r.trunkPort).None? {
      StandsAlone(base, d, detected, prev.converted, r, net);
      LeavesAlone(base, r);
    } else {
      OnItsBridge(base, d, detected, prev.converted, r, net);
    }
  }

  lemma {:induction false} KeptHasEntry(base: Base)
    requires ValidBase(base)
    ensures base.kept.Some? ==> exists k | 0 <= k < |base.n| :: OnBridge(base.n[k], base.kept.value.bridge)
  {
    hide WellNamed;
  }

  lemma {:induction false} LeavesAlone(base: Base, r: Planned)
    requires BridgeOf(base.n, r.trunkPort).None? && LeavesBridges(base, r)
    ensures ConvertedAsNeeded(base, r)
  {
    NoHolder(base.n, r.trunkPort);
    hide LeavesBridges, FirstHolder, Untouched, ConvertsTo;
  }

  lemma {:induction false} OnItsBridge(base: Base, d: Desired, detected: string, prev: Option<Conversion>, r: Planned, net: NetPlan)
    requires NetOf(base, d, detected, prev, r, net) && BridgeOf(base.n, r.trunkPort).Some?
    requires base.kept.Some? ==> exists k | 0 <= k < |base.n| :: OnBridge(base.n[k], base.kept.value.bridge)
    ensures ConvertedAsNeeded(base, r)
  {
    hide NetOf, Untouched, ConvertsTo, LeavesBridges, HoldsPort, OnBridge;
    var b := BridgeOf(base.n, r.trunkPort).value;
    var i := HolderOf(base.n, r.trunkPort);
    forall i': nat | FirstHolder(base.n, r.trunkPort, i') ensures base.n[i'] == b { HolderIs(base.n, r.trunkPort, i'); }
    HolderIs(base.n, r.trunkPort, i);
    hide BridgeOf;
    if Untouched(base.n, b.Text("name")) {
      Converts(base, d, detected, prev, r, net, b);
    } else {
      HasVlans(base, d, detected, prev, r, net, b);
    }
  }

  lemma {:induction false} NoHolder(n: Config, port: string)
    requires BridgeOf(n, port).None?
    ensures forall i: nat :: !FirstHolder(n, port, i)
  {
    BridgeExactly(n, port);
  }

  lemma {:induction false} HolderOf(n: Config, port: string) returns (i: nat)
    requires BridgeOf(n, port).Some?
    ensures FirstHolder(n, port, i)
  {
    BridgeExactly(n, port);
    hide BridgeOf, HoldsPort;
    i :| i < |n| && n[i] == BridgeOf(n, port).value && HoldsPort(n[i], port) && forall j | 0 <= j < i :: !HoldsPort(n[j], port);
  }

  lemma {:induction false} StandsAlone(base: Base, d: Desired, detected: string, prev: Option<Conversion>, r: Planned, net: NetPlan)
    requires NetOf(base, d, detected, prev, r, net) && BridgeOf(base.n, r.trunkPort).None?
    ensures LeavesBridges(base, r)
  {
    hide StandaloneSections, SortInts, TrunkPort, OfNetwork;
    assert net.n == base.n && net.converted == base.kept;
    hide PlanNetwork;
    assert r.n[..|base.n|] == base.n;
  }

  lemma {:induction false} HasVlans(base: Base, d: Desired, detected: string, prev: Option<Conversion>, r: Planned, net: NetPlan, b: Section)
    requires NetOf(base, d, detected, prev, r, net) && BridgeOf(base.n, r.trunkPort) == Some(b) && !Untouched(base.n, b.Text("name"))
    ensures LeavesBridges(base, r)
  {
    hide BridgeVlanSections, NetworkSections, UntaggedVlan, CarriedIssues, UntaggedSection, SortInts, TrunkPort, OfNetwork, Section.Text;
    assert HasBridgeVlans(base.n, b.Text("name"));
    assert net.n == base.n && net.converted == base.kept;
    hide PlanNetwork;
    assert r.n[..|base.n|] == base.n;
  }

  lemma {:induction false} Converts(base: Base, d: Desired, detected: string, prev: Option<Conversion>, r: Planned, net: NetPlan, b: Section)
    requires NetOf(base, d, detected, prev, r, net) && BridgeOf(base.n, r.trunkPort) == Some(b) && Untouched(base.n, b.Text("name"))
    requires base.kept.Some? ==> exists k | 0 <= k < |base.n| :: OnBridge(base.n[k], base.kept.value.bridge)
    ensures base.kept.None? && ConvertsTo(base.n, r, b)
  {
    var c, bridge, vids := base.n, b.Text("name"), SortInts(d.vlans);
    hide BridgeVlanSections, NetworkSections, UntaggedVlan, CarriedIssues, UntaggedSection, SortInts, TrunkPort, OfNetwork, Section.Text;
    assert !HasBridgeVlans(c, bridge);
    assert base.kept.None?;
    var u := UntaggedVlan(vids, bridge, prev);
    var rest := BridgeVlanSections(c, bridge, vids, r.trunkPort) + NetworkSections(bridge, vids);
    assert net.n == MoveAll(c, bridge, u) && net.converted == Some(Conversion(bridge, u, MovedFrom(c, bridge)));
    assert net.adds == [UntaggedSection(bridge, u, b.Items("ports"))] + rest;
    hide PlanNetwork;
    UntaggedEntryIs(bridge, u, b.Items("ports"));
    assert r.n[|c|] == net.adds[0];
    forall k | 0 <= k < |c| ensures r.n[k] == if OnBare(c[k], bridge) then c[k].Set("device", Str(bridge + "." + Itoa(u))) else c[k] {
      assert r.n[k] == net.n[k] == Move(c[k], bridge, u);
    }
  }

  // ---- refusals ----

  ghost predicate SomeManaged(w: Config, ssids: seq<string>) {
    exists i | 0 <= i < |w| :: OnAir(w[i], ssids) && WithPassphrase(w[i])
  }

  lemma {:induction false} SomeManagedIs(w: Config, ssids: seq<string>)
    ensures ManagedIfaces(w, ssids) != [] <==> SomeManaged(w, ssids)
  {
    hide OnAir, WithPassphrase, ManagedIfaces, Managed;
    var managed := ManagedIfaces(w, ssids);
    if managed != [] {
      var i := ManagedFrom(w, ssids, 0);
      ManagedMeans(w[i], ssids);
    }
    if i :| 0 <= i < |w| && OnAir(w[i], ssids) && WithPassphrase(w[i]) {
      ManagedMeans(w[i], ssids);
      ManagedListed(w, ssids, i);
    }
  }

  /** The bridge the trunk is on, if there is one. */
  ghost predicate TrunkOn(n: Config, port: string, bridge: string) {
    exists i: nat :: FirstHolder(n, port, i) && n[i].Text("name") == bridge
  }

  lemma {:induction false} TrunkOnIs(n: Config, port: string, bridge: string)
    ensures TrunkOn(n, port, bridge) <==> BridgeOf(n, port).Some? && BridgeOf(n, port).value.Text("name") == bridge
  {
    hide HoldsPort, BridgeOf, Section.Text;
    if i: nat :| FirstHolder(n, port, i) && n[i].Text("name") == bridge { HolderIs(n, port, i); }
    if BridgeOf(n, port).Some? {
      var i := HolderOf(n, port);
      HolderIs(n, port, i);
    }
  }

  /** The network side's refusals: what the recorded conversion forbids. A bridge that holds the
      trunk has a port, so it is never empty. */
  lemma {:induction false} NetRefusals(base: Base, port: string, vids: seq<int>, prev: Option<Conversion>)
    requires base.kept.Some? ==> exists k | 0 <= k < |base.n| :: OnBridge(base.n[k], base.kept.value.bridge)
    ensures PlanNetwork(base, port, vids, prev) == Err(UntaggedVlanConflict) <==>
              base.kept.Some? && TrunkOn(base.n, port, base.kept.value.bridge) && base.kept.value.untagged in vids
    ensures PlanNetwork(base, port, vids, prev) == Err(ConversionConflict) <==>
              base.kept.Some? && exists b :: TrunkOn(base.n, port, b) && Untouched(base.n, b)
    ensures var p := PlanNetwork(base, port, vids, prev);
            p.Err? ==> p.error in {UntaggedVlanConflict, ConversionConflict, NoUntaggedVlan}
  {
    forall b ensures TrunkOn(base.n, port, b) <==> BridgeOf(base.n, port).Some? && BridgeOf(base.n, port).value.Text("name") == b {
      TrunkOnIs(base.n, port, b);
    }
    forall b ensures Untouched(base.n, b) <==> !HasBridgeVlans(base.n, b) {
      assert forall k | 0 <= k < |base.n| :: OnBridge(base.n[k], b) <==> base.n[k].typ == "bridge-vlan" && base.n[k].Text("device") == b;
    }
    if BridgeOf(base.n, port).Some? {
      BridgeOfIs(base.n, port);
      assert port in BridgeOf(base.n, port).value.Items("ports");
    }
    hide TrunkOn, Untouched, BridgeOf, BridgeVlanSections, NetworkSections, UntaggedVlan, CarriedIssues, UntaggedSection, Section.Text,
         Section.Items, StandaloneSections;
    if base.kept.Some? { assert HasBridgeVlans(base.n, base.kept.value.bridge); }
    hide HasBridgeVlans;
  }

  /** What a valid request is refused for, beside taken names and a recorded VLAN out of range. */
  ghost predicate RefusedFor(base: Base, d: Desired, detected: string, p: Result<Planned, Refusal>) {
    var port := if d.trunk == "" || d.trunk == "auto" then detected else d.trunk;
    var managed := SomeManaged(base.w, d.ssids);
    var ready := d.vlans != [] && managed && port != "";
    && (p == Err(NoManagedIface) <==> d.vlans != [] && !managed)
    && (p == Err(TrunkUnknown) <==> d.vlans != [] && managed && port == "")
    && (p == Err(UntaggedVlanConflict) <==>
          ready && base.kept.Some? && TrunkOn(base.n, port, base.kept.value.bridge) && base.kept.value.untagged in d.vlans)
    && (p == Err(ConversionConflict) <==> ready && base.kept.Some? && exists b :: TrunkOn(base.n, port, b) && Untouched(base.n, b))
    && (p.Err? ==> p.error in {NoManagedIface, TrunkUnknown, UntaggedVlanConflict, ConversionConflict, NoUntaggedVlan, NameTaken})
    && (d.vlans == [] ==> p.Ok?)
  }

  lemma {:induction false} RefusedExactly(w: Config, n: Config, d: Desired, detected: string, prev: Ledger)
    requires WellNamed(w) && WellNamed(n) && WellFormed(prev, w, n)
    ensures Plan(w, n, d, detected, prev) == Err(BadParams) <==> !Valid(d)
    ensures Valid(d) ==> RefusedFor(Undo(w, n, prev), d, detected, Plan(w, n, d, detected, prev))
  {
    var base := Undo(w, n, prev);
    UndoValid(w, n, prev);
    KeptHasEntry(base);
    hide Undo, WellNamed, WellFormed, RefusedFor, ValidBase;
    RefusedOn(base, d, detected, prev.converted);
    if Valid(d) {
      hide BuildOn, Valid;
    } else {
      hide BuildOn, Valid;
    }
  }

  lemma {:induction false} RefusedOn(base: Base, d: Desired, detected: string, prev: Option<Conversion>)
    requires base.kept.Some? ==> exists k | 0 <= k < |base.n| :: OnBridge(base.n[k], base.kept.value.bridge)
    ensures RefusedFor(base, d, detected, BuildOn(base, d, detected, prev))
    ensures BuildOn(base, d, detected, prev) != Err(BadParams)
  {
    SomeManagedIs(base.w, d.ssids);
    SortIntsKeeps(d.vlans);
    NetRefusals(base, TrunkPort(d, detected), SortInts(d.vlans), prev);
    hide SomeManaged, ManagedIfaces, PlanNetwork, SortInts, TrunkOn, Untouched, Clash, WirelessAdds, Assemble, OnBridge;
  }
}
