/** What holds over whole chains of plans: idempotence, one place every chain can
    return to, and the untagged VLAN of a converted bridge. */
module GroupsChains {
  import opened Wrappers
  import opened Text
  import opened UciConfig
  import opened GroupsPlan
  import opened GroupsNames
  import opened GroupsNoDrift

  // ---- the untagged VLAN ----

  lemma {:induction false} NextFreeIsFree(used: set<int>, u: int)
    ensures NextFree(used, u) !in used
    ensures NextFree(used, u) >= u
    ensures forall v | u <= v < NextFree(used, u) :: v in used
    ensures NextFree(used, u) <= u + |used|
    decreases |used|
  {
    if u in used {
      NextFreeIsFree(used - {u}, u + 1);
      forall v | u <= v < NextFree(used, u) ensures v in used {
        assert v != u ==> v in used - {u};
      }
    }
  }

  lemma {:induction false} SetOfSeq(s: seq<int>)
    ensures |set v | v in s| <= |s|
  {
    if s != [] {
      SetOfSeq(s[1..]);
      assert (set v | v in s) == (set v | v in s[1..]) + {s[0]};
    }
  }

  lemma {:induction false} SortIntsKeeps(s: seq<int>)
    ensures |SortInts(s)| == |s|
    ensures forall v :: v in SortInts(s) <==> v in s
    ensures SortedBy(IntLeq, SortInts(s))
  {
    IntLeqTotal();
    SortSorts(IntLeq, s);
    assert |multiset(SortInts(s))| == |multiset(s)|;
    forall v ensures v in SortInts(s) <==> v in s {
      assert v in SortInts(s) <==> v in multiset(SortInts(s));
    }
  }

  /** The bridge was converted before and the VLAN it had is still free. */
  predicate Reuses(prev: Option<Conversion>, bridge: string, vids: seq<int>) {
    prev.Some? && prev.value.bridge == bridge && prev.value.untagged !in vids
  }

  /** The VLAN a conversion takes is free of the groups' VLANs, is the smallest such one
      unless the last conversion's is reused, and lies within one of their number. */
  lemma {:induction false} UntaggedVlanIsFree(vids: seq<int>, bridge: string, prev: Option<Conversion>)
    ensures UntaggedVlan(vids, bridge, prev) !in vids
    ensures Reuses(prev, bridge, vids) ==> UntaggedVlan(vids, bridge, prev) == prev.value.untagged
    ensures !Reuses(prev, bridge, vids) ==> 1 <= UntaggedVlan(vids, bridge, prev) <= 1 + |vids|
    ensures !Reuses(prev, bridge, vids) ==> forall v | 1 <= v < UntaggedVlan(vids, bridge, prev) :: v in vids
  {
    var used := set v | v in vids;
    var start := UntaggedStart(vids, bridge, prev);
    NextFreeIsFree(used, start);
    SetOfSeq(vids);
    if start == 1 {
      forall v | 1 <= v < NextFree(used, 1) ensures v in vids {
        assert v in used;
      }
    }
  }

  predicate SmallUntagged(c: Option<Conversion>) {
    c.Some? ==> 1 <= c.value.untagged <= MAX_VLANS + 1
  }

  /** Exactly when a conversion is refused for want of an untagged VLAN: the recorded one
      is out of range and still free. No valid request alone causes it. */
  lemma {:induction false} NoUntaggedVlanExactly(base: Base, d: Desired, detected: string, prev: Option<Conversion>)
    requires Valid(d)
    ensures BuildOn(base, d, detected, prev) == Err(NoUntaggedVlan) ==>
              prev.Some? && prev.value.untagged > 4094 && prev.value.untagged !in d.vlans
    ensures var b := BridgeOf(base.n, TrunkPort(d, detected));
            d.vlans != [] && ManagedIfaces(base.w, d.ssids) != [] && TrunkPort(d, detected) != "" &&
            b.Some? && base.kept.None? && !HasBridgeVlans(base.n, b.value.Text("name")) ==>
              (BuildOn(base, d, detected, prev) == Err(NoUntaggedVlan) <==>
               prev.Some? && prev.value.bridge == b.value.Text("name") && prev.value.untagged > 4094)
  {
    var vids := SortInts(d.vlans);
    SortIntsKeeps(d.vlans);
    var b := BridgeOf(base.n, TrunkPort(d, detected));
    if b.Some? {
      UntaggedVlanIsFree(vids, b.value.Text("name"), prev);
    }
  }

  /** The untagged VLAN of the bridge the groups are on is none of the groups' VLANs. */
  predicate UntaggedApart(base: Base, d: Desired, r: Planned) {
    d.vlans != [] && BridgeOf(base.n, r.trunkPort).Some? && r.ledger.converted.Some?
    && r.bridge == r.ledger.converted.value.bridge ==>
      r.ledger.converted.value.untagged !in d.vlans
  }

  /** A plan from a small untagged VLAN leaves a small one, never a group's. */
  lemma {:induction false} UntaggedStaysSmall(w: Config, n: Config, d: Desired, detected: string, prev: Ledger, r: Planned)
    requires Plan(w, n, d, detected, prev) == Ok(r) && SmallUntagged(prev.converted)
    ensures SmallUntagged(r.ledger.converted)
    ensures UntaggedApart(Undo(w, n, prev), d, r)
  {
    UndoKeepsSmall(w, n, prev);
    assert |d.vlans| <= MAX_VLANS;
    hide Undo, Valid, BuildOn, PlanNetwork, SortInts, TrunkPort, ManagedIfaces;
    var base := Undo(w, n, prev);
    assert BuildOn(base, d, detected, prev.converted) == Ok(r);
    if d.vlans != [] {
      var managed, vids, port, net := BuiltParts(base, d, detected, prev.converted, r);
      SortIntsKeeps(d.vlans);
      NetStaysSmall(base, port, vids, prev.converted, net);
    } else {
      assert r.ledger.converted == base.kept by { EmptyConverted(base, d, detected, prev.converted, r); }
    }
  }

  lemma {:induction false} EmptyConverted(base: Base, d: Desired, detected: string, prev: Option<Conversion>, r: Planned)
    requires d.vlans == [] && BuildOn(base, d, detected, prev) == Ok(r)
    ensures r.ledger.converted == base.kept
  {
  }

  lemma {:induction false} UndoKeepsSmall(w: Config, n: Config, prev: Ledger)
    requires SmallUntagged(prev.converted)
    ensures SmallUntagged(Undo(w, n, prev).kept)
  {
    hide Drop, OwnedSet;
  }

  lemma {:induction false} NetStaysSmall(base: Base, port: string, vids: seq<int>, prev: Option<Conversion>, net: NetPlan)
    requires PlanNetwork(base, port, vids, prev) == Ok(net) && |vids| <= MAX_VLANS
    requires SmallUntagged(prev) && SmallUntagged(base.kept)
    ensures SmallUntagged(net.converted)
    ensures BridgeOf(base.n, port).Some? && net.converted.Some? && net.bridge == net.converted.value.bridge ==>
              net.converted.value.untagged !in vids
  {
    var b := BridgeOf(base.n, port);
    if b.Some? {
      UntaggedVlanIsFree(vids, b.value.Text("name"), prev);
    }
    hide BridgeVlanSections, NetworkSections, CarriedIssues, UntaggedVlan, GetOpt, HasBridgeVlans, MoveAll, MovedFrom, UntaggedSection,
         StandaloneSections, BridgeOf;
  }

  // ---- idempotence ----

  /** The network plan depends on the last conversion only through the untagged VLAN, and
      the conversion it records picks the same one. */
  lemma {:induction false} SameNetworkPlan(base: Base, port: string, vids: seq<int>, prev: Option<Conversion>, net: NetPlan)
    requires PlanNetwork(base, port, vids, prev) == Ok(net)
    ensures PlanNetwork(base, port, vids, net.converted) == Ok(net)
  {
    var b := BridgeOf(base.n, port);
    if b.Some? {
      var bridge := b.value.Text("name");
      UntaggedVlanIsFree(vids, bridge, prev);
      UntaggedVlanIsFree(vids, bridge, net.converted);
    }
  }

  /** Planning the same state again from the own result of a plan that can be taken back gives
      the same configs, ledger, untagged VLAN and issues. */
  lemma {:induction false} Idempotent(w: Config, n: Config, d: Desired, detected: string, prev: Ledger, r: Planned)
    requires WellNamed(w) && WellNamed(n) && WellFormed(prev, w, n)
    requires Plan(w, n, d, detected, prev) == Ok(r)
    requires TakesBack(Undo(w, n, prev), d, detected, prev.converted)
    ensures Plan(r.w, r.n, d, detected, r.ledger) == Ok(r)
  {
    NoDrift(w, n, d, detected, prev, r);
    if d.vlans != [] {
      var managed, vids, port, net := BuiltParts(Undo(w, n, prev), d, detected, prev.converted, r);
      SameNetworkPlan(Undo(w, n, prev), port, vids, prev.converted, net);
    }
  }

  // ---- chains ----

  datatype Request = Request(d: Desired, detected: string)

  /** The configs and the ledger that goes with them. */
  datatype Held = Held(w: Config, n: Config, ledger: Ledger)

  /** A refused plan changes nothing. */
  function PlanStep(h: Held, q: Request): Held {
    match Plan(h.w, h.n, q.d, q.detected, h.ledger)
    case Ok(r) => Held(r.w, r.n, r.ledger)
    case Err(_) => h
  }

  function Chain(h: Held, requests: seq<Request>): Held
    decreases |requests|
  {
    if requests == [] then h else Chain(PlanStep(h, requests[0]), requests[1..])
  }

  function UndoHeld(h: Held): Base { Undo(h.w, h.n, h.ledger) }

  ghost predicate GoodHeld(h: Held) {
    WellNamed(h.w) && WellNamed(h.n) && WellFormed(h.ledger, h.w, h.n)
  }

  /** A device whose own sections leave the engine's names alone and whose borrowed options
      are plain: enough to take back every plan. */
  ghost predicate CleanBase(base: Base) {
    && (forall i | 0 <= i < |base.w| :: !base.w[i].anonymous ==> !OwnedName(base.w[i].name))
    && (forall i | 0 <= i < |base.n| :: !base.n[i].anonymous ==> !OwnedName(base.n[i].name) || (base.kept.Some? && base.n[i].name == BVU))
    && (forall i | 0 <= i < |base.w| && base.w[i].typ == "wifi-iface" ::
          DynRestorable(base.w[i]) && ShortName(base.w[i].name) != "")
    && (forall i | 0 <= i < |base.n| && base.n[i].typ == "interface" ::
          base.n[i].Get("device").Some? ==> base.n[i].Get("device").value.Str?)
    && (forall i | 0 <= i < |base.n| && base.n[i].typ == "device" && base.n[i].Text("type") == "bridge" ::
          base.n[i].Text("name") != "")
  }

  lemma {:induction false} BridgeOfIs(n: Config, port: string)
    requires BridgeOf(n, port).Some?
    ensures exists i | 0 <= i < |n| :: n[i] == BridgeOf(n, port).value && IsBridgeOf(n[i], port)
  {
    if IsBridgeOf(n[0], port) {
      assert n[0] == BridgeOf(n, port).value;
    } else {
      BridgeOfIs(n[1..], port);
      var i :| 0 <= i < |n[1..]| && n[1..][i] == BridgeOf(n, port).value && IsBridgeOf(n[1..][i], port);
      assert n[i + 1] == n[1..][i];
    }
  }

  lemma {:induction false} CarriesNoneOwned(c: Config, adds: seq<Section>, kept: bool)
    requires AllOwned(adds) && (kept ==> BVU !in NameSet(adds))
    requires forall i | 0 <= i < |c| :: !c[i].anonymous ==> !OwnedName(c[i].name) || (kept && c[i].name == BVU)
    ensures CarriesNone(c, NameSet(adds))
  {
  }

  lemma {:induction false} CleanNames(base: Base, d: Desired, port: string, vids: seq<int>, prev: Option<Conversion>,
                   managed: seq<Iface>, net: NetPlan)
    requires Valid(d) && CleanBase(base) && vids == SortInts(d.vlans) && managed == ManagedIfaces(base.w, d.ssids)
    requires PlanNetwork(base, port, vids, prev) == Ok(net)
    ensures CarriesNone(base.w, NameSet(net.adds))
    ensures CarriesNone(base.n, NameSet(WirelessAdds(d, managed, vids)))
  {
    CleanAdds(base, d, port, vids, prev, managed, net);
    WirelessAddsNamed(d, managed, vids);
    NetPlanNamed(base, port, vids, prev, net);
    assert BVU[6] == 'b';
    CarriesNoneOwned(base.w, net.adds, false);
    CarriesNoneOwned(base.n, WirelessAdds(d, managed, vids), true);
  }

  lemma {:induction false} CleanDevices(base: Base, port: string, vids: seq<int>, prev: Option<Conversion>, net: NetPlan)
    requires CleanBase(base) && PlanNetwork(base, port, vids, prev) == Ok(net)
    requires base.kept.None? && net.converted.Some?
    ensures forall i | 0 <= i < |base.n| :: DeviceRestorable(base.n[i], net.converted.value.bridge)
  {
    BridgeOfIs(base.n, port);
    assert net.converted.value.bridge == BridgeOf(base.n, port).value.Text("name") != "";
  }

  lemma {:induction false} CleanIsReversible(base: Base, d: Desired, detected: string, prev: Option<Conversion>, r: Planned)
    requires Valid(d) && ValidBase(base) && CleanBase(base) && BuildOn(base, d, detected, prev) == Ok(r)
    ensures TakesBack(base, d, detected, prev)
  {
    TakesBackIsReversible(base, d, detected, prev, r);
    if d.vlans != [] {
      hide TakesBack;
      var managed, vids, port, net := BuiltShape(base, d, detected, prev, r);
      ShapeSlices(base, managed, net, WirelessAdds(d, managed, vids), r);
      CleanNames(base, d, port, vids, prev, managed, net);
      ManagedRestorable(base, d, r.managed, managed);
      if base.kept.None? && net.converted.Some? {
        CleanDevices(base, port, vids, prev, net);
      }
    }
  }

  lemma {:induction false} ManagedRestorable(base: Base, d: Desired, names: seq<string>, managed: seq<Iface>)
    requires UniqueNames(base.w) && CleanBase(base) && managed == ManagedIfaces(base.w, d.ssids)
    requires forall x :: x in names <==> x in IfaceNames(managed)
    ensures forall i | 0 <= i < |base.w| && base.w[i].name in names :: DynRestorable(base.w[i])
  {
    forall i: nat | i < |base.w| && base.w[i].name in names ensures DynRestorable(base.w[i]) {
      var k :| 0 <= k < |managed| && managed[k].name == base.w[i].name;
      var j := ManagedFrom(base.w, d.ssids, k);
      assert i == j;
    }
  }

  /** One step of a chain leaves the place to return to where it was. */
  lemma {:induction false} StepReturns(h: Held, q: Request)
    requires GoodHeld(h) && CleanBase(UndoHeld(h))
    ensures GoodHeld(PlanStep(h, q)) && UndoHeld(PlanStep(h, q)) == UndoHeld(h)
  {
    hide Undo, TakesBack, CleanBase, Valid, BuildOn;
    match Plan(h.w, h.n, q.d, q.detected, h.ledger)
    case Err(_) =>
    case Ok(r) =>
      UndoValid(h.w, h.n, h.ledger);
      CleanIsReversible(UndoHeld(h), q.d, q.detected, h.ledger.converted, r);
      NoDrift(h.w, h.n, q.d, q.detected, h.ledger, r);
      PlanKeepsHypotheses(h.w, h.n, q.d, q.detected, h.ledger, r);
  }

  /** After any chain of plans, dropping all groups returns to the same place. */
  lemma {:induction false} ChainReturns(h: Held, requests: seq<Request>)
    requires GoodHeld(h) && CleanBase(UndoHeld(h))
    ensures GoodHeld(Chain(h, requests)) && UndoHeld(Chain(h, requests)) == UndoHeld(h)
    decreases |requests|
  {
    if requests != [] {
      StepReturns(h, requests[0]);
      ChainReturns(PlanStep(h, requests[0]), requests[1..]);
    }
  }

  /** Dropping all groups at the end of a chain is that place itself, and the ledger then
      owns nothing but a kept conversion's VLAN. */
  lemma {:induction false} DroppingAllGroups(h: Held, requests: seq<Request>, q: Request)
    requires GoodHeld(h) && CleanBase(UndoHeld(h)) && Valid(q.d) && q.d.vlans == []
    ensures var last := PlanStep(Chain(h, requests), q);
            last.w == UndoHeld(h).w && last.n == UndoHeld(h).n && last.ledger.owned == Some(KeptNames(UndoHeld(h).kept))
  {
    ChainReturns(h, requests);
  }

  /** Along a chain whose ledgers Plan itself wrote, a conversion never runs out of
      untagged VLANs: the search ends by 257. */
  lemma {:induction false} ChainNeverOutOfUntagged(h: Held, requests: seq<Request>, q: Request)
    requires SmallUntagged(h.ledger.converted)
    ensures SmallUntagged(Chain(h, requests).ledger.converted)
    ensures var last := Chain(h, requests);
            Plan(last.w, last.n, q.d, q.detected, last.ledger) != Err(NoUntaggedVlan)
    decreases |requests|
  {
    if requests == [] {
      if Valid(q.d) {
        NoUntaggedVlanExactly(UndoHeld(h), q.d, q.detected, h.ledger.converted);
      }
    } else {
      var q0 := requests[0];
      var p := Plan(h.w, h.n, q0.d, q0.detected, h.ledger);
      if p.Ok? {
        UntaggedStaysSmall(h.w, h.n, q0.d, q0.detected, h.ledger, p.value);
      }
      ChainNeverOutOfUntagged(PlanStep(h, q0), requests[1..], q);
    }
  }

  // ---- a ledger that lost its list of names ----

  /** The two sets say the same of every section. */
  ghost predicate Agree(c: Config, a: set<string>, b: set<string>) {
    forall i | 0 <= i < |c| :: c[i].name in a <==> c[i].name in b
  }

  lemma {:induction false} DropAgrees(c: Config, a: set<string>, b: set<string>)
    requires Agree(c, a, b)
    ensures Drop(c, a) == Drop(c, b) && Drop(c, a - {BVU}) == Drop(c, b - {BVU})
  {
    if c != [] {
      assert c[0].name in a <==> c[0].name in b;
      assert forall i | 0 <= i < |c[1..]| :: c[1..][i] == c[i + 1];
      DropAgrees(c[1..], a, b);
    }
  }

  lemma {:induction false} UndoAgrees(w: Config, n: Config, p: Ledger, q: Ledger)
    requires p.dynamicVlan == q.dynamicVlan && p.converted == q.converted
    requires Agree(w, OwnedSet(p, w, n), OwnedSet(q, w, n)) && Agree(n, OwnedSet(p, w, n), OwnedSet(q, w, n))
    ensures Undo(w, n, p) == Undo(w, n, q)
  {
    var a, b := OwnedSet(p, w, n), OwnedSet(q, w, n);
    hide OwnedSet, Drop, OnBridge;
    DropAgrees(w, a, b);
    DropAgrees(n, a, b);
    assert KeptConversion(n, a, p.converted) == KeptConversion(n, b, q.converted);
  }

  /** Sections told apart by name: the engine's own, all of them listed, and the others. */
  ghost predicate ToldByName(c: Config, listed: set<string>) {
    forall i | 0 <= i < |c| :: c[i].name in listed <==> !c[i].anonymous && OwnedName(c[i].name)
  }

  lemma {:induction false} PatternAgrees(w: Config, n: Config, p: Ledger)
    requires p.owned.Some? && ToldByName(w, OwnedSet(p, w, n)) && ToldByName(n, OwnedSet(p, w, n))
    requires WellNamed(w) && WellNamed(n)
    ensures Undo(w, n, p.(owned := None)) == Undo(w, n, p)
  {
    var listed, found := OwnedSet(p, w, n), OwnedSet(p.(owned := None), w, n);
    forall i | 0 <= i < |w| ensures w[i].name in listed <==> w[i].name in found {
      if w[i].name in found { assert HasPrefix(w[i].name, PREFIX); }
    }
    forall i | 0 <= i < |n| ensures n[i].name in listed <==> n[i].name in found {
      if n[i].name in found { assert HasPrefix(n[i].name, PREFIX); }
    }
    hide OwnedSet, Undo, WellNamed;
    UndoAgrees(w, n, p.(owned := None), p);
  }

  lemma {:induction false} BuiltTold(base: Base, managed: seq<Iface>, net: NetPlan, wAdds: seq<Section>, r: Planned)
    requires WellNamed(r.w) && WellNamed(r.n) && CleanBase(base) && Shape(base, managed, net, wAdds, r)
    requires AllOwned(net.adds) && AllOwned(wAdds)
    ensures ToldByName(r.w, OwnedSet(r.ledger, r.w, r.n)) && ToldByName(r.n, OwnedSet(r.ledger, r.w, r.n))
  {
    OwnedAfter(base, managed, net, wAdds, r, r.w, r.n);
    var listed := OwnedSet(r.ledger, r.w, r.n);
    assert OwnedName(BVU) by { assert BVU[..|PREFIX|] == PREFIX && BVU[|PREFIX|..] == "bvu"; }
    assert forall x | x in listed :: OwnedName(x);
    hide OwnedSet, OwnedName, WellNamed, ToldByName;
    ToldOfParts(base, managed, net, wAdds, r, listed);
  }

  lemma {:induction false} ToldOfParts(base: Base, managed: seq<Iface>, net: NetPlan, wAdds: seq<Section>, r: Planned, listed: set<string>)
    requires CleanBase(base) && Shape(base, managed, net, wAdds, r) && OwnedName(BVU)
    requires listed == Created(net, wAdds) + (if base.kept.Some? then {BVU} else {}) && forall x | x in listed :: OwnedName(x)
    requires WellNamed(r.w) && WellNamed(r.n)
    ensures ToldByName(r.w, listed) && ToldByName(r.n, listed)
  {
    hide OwnedName;
    forall i | 0 <= i < |r.w| ensures r.w[i].name in listed <==> !r.w[i].anonymous && OwnedName(r.w[i].name) {
      if i >= |base.w| { assert r.w[i] == wAdds[i - |base.w|]; }
    }
    forall i | 0 <= i < |r.n| ensures r.n[i].name in listed <==> !r.n[i].anonymous && OwnedName(r.n[i].name) {
      if i >= |base.n| { assert r.n[i] == net.adds[i - |base.n|]; }
    }
  }

  lemma {:induction false} CleanAdds(base: Base, d: Desired, port: string, vids: seq<int>, prev: Option<Conversion>,
                                     managed: seq<Iface>, net: NetPlan)
    requires Valid(d) && CleanBase(base) && vids == SortInts(d.vlans) && managed == ManagedIfaces(base.w, d.ssids)
    requires PlanNetwork(base, port, vids, prev) == Ok(net)
    ensures AllOwned(net.adds) && AllOwned(WirelessAdds(d, managed, vids))
  {
    forall k: nat | k < |managed| ensures ShortName(managed[k].name) != "" {
      var i := ManagedFrom(base.w, d.ssids, k);
    }
    SortIntsKeeps(d.vlans);
    forall i | 0 <= i < |vids| ensures vids[i] >= 0 {
      assert vids[i] in d.vlans;
    }
    NetPlanOwned(base, port, vids, prev, net);
    WirelessAddsOwned(d, managed, vids);
  }

  lemma {:induction false} EmptyTold(base: Base)
    requires WellNamed(base.w) && WellNamed(base.n) && CleanBase(base)
    ensures var r := Empty(base);
            ToldByName(r.w, OwnedSet(r.ledger, r.w, r.n)) && ToldByName(r.n, OwnedSet(r.ledger, r.w, r.n))
  {
    assert OwnedName(BVU) && HasPrefix(BVU, PREFIX) by { assert BVU[..|PREFIX|] == PREFIX && BVU[|PREFIX|..] == "bvu"; }
    hide OwnedName;
    assert OwnedSet(Empty(base).ledger, base.w, base.n) == if base.kept.Some? then {BVU} else {};
  }

  /** The naming pattern is enough: on a clean device a plan's result undoes to the same place
      with its ledger's list of names and without it, so every next plan comes out the same. */
  lemma {:induction false} PatternIsEnough(w: Config, n: Config, d: Desired, detected: string, prev: Ledger, r: Planned)
    requires WellNamed(w) && WellNamed(n) && WellFormed(prev, w, n) && CleanBase(Undo(w, n, prev))
    requires Plan(w, n, d, detected, prev) == Ok(r)
    ensures Undo(r.w, r.n, r.ledger.(owned := None)) == Undo(r.w, r.n, r.ledger) == Undo(w, n, prev)
    ensures forall q: Request :: Plan(r.w, r.n, q.d, q.detected, r.ledger.(owned := None)) == Plan(r.w, r.n, q.d, q.detected, r.ledger)
  {
    var base := Undo(w, n, prev);
    assert Valid(d);
    StepReturns(Held(w, n, prev), Request(d, detected));
    UndoValid(w, n, prev);
    hide Undo, CleanBase, WellNamed, OwnedSet, Valid;
    if d.vlans == [] {
      EmptyTold(base);
    } else {
      var managed, vids, port, net := BuiltShape(base, d, detected, prev.converted, r);
      var wAdds := WirelessAdds(d, managed, vids);
      CleanAdds(base, d, port, vids, prev.converted, managed, net);
      hide Shape, Built, BuildOn, ToldByName, AllOwned, WirelessAdds;
      BuiltTold(base, managed, net, wAdds, r);
    }
    PatternAgrees(r.w, r.n, r.ledger);
  }
}
