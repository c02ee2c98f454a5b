/** Undoing a plan with its own ledger: exactly when it leads back to where undoing
    the old ledger led, what follows for chains of plans, and idempotence. */
module GroupsNoDrift {
  import opened Wrappers
  import opened Text
  import opened UciConfig
  import opened GroupsPlan
  import opened GroupsNames

  /** Names are unique, and the parser never gives an anonymous section a `perch_` name. */
  ghost predicate WellNamed(c: Config) {
    && UniqueNames(c)
    && forall i | 0 <= i < |c| :: c[i].anonymous ==> !HasPrefix(c[i].name, PREFIX)
  }

  /** An option the ledger can put back: absent, or a non-empty string, or left alone. */
  predicate DynRestorable(s: Section) {
    || s.Text("dynamic_vlan") == "1"
    || s.Get("dynamic_vlan") == None
    || (s.Get("dynamic_vlan").value.Str? && s.Get("dynamic_vlan").value.s != "")
  }

  predicate DeviceRestorable(s: Section, bridge: string) {
    OnBareBridge(s, bridge) ==> s.Get("device") == Some(Str(bridge))
  }

  /** When a plan made on `base` can be taken back: no other section carries a name it
      creates in the other config, and the two options it borrows can be put back. */
  ghost predicate Reversible(base: Base, r: Planned)
    requires |base.w| <= |r.w| && |base.n| <= |r.n|
  {
    && CarriesNone(base.w, NameSet(r.n[|base.n|..]))
    && CarriesNone(base.n, NameSet(r.w[|base.w|..]))
    && (forall i | 0 <= i < |base.w| && base.w[i].name in r.managed :: DynRestorable(base.w[i]))
    && (base.kept.None? && r.ledger.converted.Some? ==>
          forall i | 0 <= i < |base.n| :: DeviceRestorable(base.n[i], r.ledger.converted.value.bridge))
  }

  // ---- the two borrowed options ----

  lemma {:induction false} RestoreOfMark(s: Section, names: set<string>, dyn: map<string, string>)
    requires s.name in dyn <==> s.name in names && s.Text("dynamic_vlan") != "1"
    requires s.name in dyn ==> dyn[s.name] == s.Text("dynamic_vlan")
    ensures RestoreDyn(MarkDyn(s, names), dyn) == s <==> s.name !in names || DynRestorable(s)
  {
    if s.name in dyn {
      var o := s.options;
      var marked := SetOpt(o, "dynamic_vlan", Str("1"));
      match GetOpt(o, "dynamic_vlan")
      case None => DeleteUndoesSet(o, "dynamic_vlan", Str("1"));
      case Some(v) =>
        if v.AsString() == "" {
          GetAfterDelete(marked, "dynamic_vlan", "dynamic_vlan");
        } else {
          GetAfterSet(marked, "dynamic_vlan", Str(v.AsString()), "dynamic_vlan");
          SetUndoesSet(o, "dynamic_vlan", Str("1"), v);
        }
    }
  }

  lemma {:induction false} MoveBackOfMove(s: Section, c: Conversion)
    requires s.name in c.moved <==> OnBareBridge(s, c.bridge)
    requires s.name in c.moved ==> c.moved[s.name] == c.bridge
    ensures MoveBack(Move(s, c.bridge, c.untagged), c) == s <==> DeviceRestorable(s, c.bridge)
  {
    if OnBareBridge(s, c.bridge) {
      var o := s.options;
      var dotted := Str(Dotted(c.bridge, c.untagged));
      GetAfterSet(o, "device", dotted, "device");
      var moved := SetOpt(o, "device", dotted);
      GetAfterSet(moved, "device", Str(c.bridge), "device");
      if GetOpt(o, "device") == Some(Str(c.bridge)) {
        SetUndoesSet(o, "device", dotted, Str(c.bridge));
      }
    }
  }

  lemma {:induction false} SectionAtUnique(w: Config, i: nat)
    requires UniqueNames(w) && i < |w|
    ensures SectionAt(w, w[i].name) == i
  {
    var k := SectionAt(w, w[i].name);
    assert k >= i;
  }

  lemma {:induction false} DynBeforeAt(w: Config, managed: seq<Iface>, i: nat)
    requires UniqueNames(w) && i < |w|
    ensures w[i].name in DynBefore(w, managed) <==> w[i].name in IfaceNames(managed) && w[i].Text("dynamic_vlan") != "1"
    ensures w[i].name in DynBefore(w, managed) ==> DynBefore(w, managed)[w[i].name] == w[i].Text("dynamic_vlan")
  {
    SectionAtUnique(w, i);
  }

  lemma {:induction false} WirelessBack(w: Config, managed: seq<Iface>)
    requires UniqueNames(w)
    ensures RestoreDynAll(MarkDynAll(w, IfaceNames(managed)), DynBefore(w, managed)) == w <==>
            forall i | 0 <= i < |w| && w[i].name in IfaceNames(managed) :: DynRestorable(w[i])
  {
    var names, dyn := IfaceNames(managed), DynBefore(w, managed);
    var back := RestoreDynAll(MarkDynAll(w, names), dyn);
    forall i: nat | i < |w|
      ensures back[i] == w[i] <==> w[i].name !in names || DynRestorable(w[i])
    {
      DynBeforeAt(w, managed, i);
      RestoreOfMark(w[i], names, dyn);
    }
    if back == w {
      forall i | 0 <= i < |w| && w[i].name in names ensures DynRestorable(w[i]) {
        assert back[i] == w[i];
      }
    }
  }

  lemma {:induction false} NetworkBack(n: Config, c: Conversion)
    requires UniqueNames(n) && c.moved == MovedFrom(n, c.bridge)
    ensures MoveBackAll(MoveAll(n, c.bridge, c.untagged), c) == n <==>
            forall i | 0 <= i < |n| :: DeviceRestorable(n[i], c.bridge)
  {
    var back := MoveBackAll(MoveAll(n, c.bridge, c.untagged), c);
    forall i: nat | i < |n|
      ensures back[i] == n[i] <==> DeviceRestorable(n[i], c.bridge)
    {
      assert n[i].name in c.moved <==> OnBareBridge(n[i], c.bridge);
      MoveBackOfMove(n[i], c);
    }
    if back == n {
      forall i | 0 <= i < |n| ensures DeviceRestorable(n[i], c.bridge) {
        assert back[i] == n[i];
      }
    }
  }

  // ---- dropping what a plan added ----

  /** Dropping the owned names from kept sections followed by added ones leaves the kept
      part whole exactly when none of it carries an owned name. */
  lemma {:induction false} DropAdded(kept: Config, adds: Config, owned: set<string>)
    requires forall i | 0 <= i < |adds| :: !adds[i].anonymous && adds[i].name in owned
    ensures |Drop(kept + adds, owned)| == |kept| <==> CarriesNone(kept, owned)
    ensures CarriesNone(kept, owned) ==> Drop(kept + adds, owned) == kept
  {
    DropAppend(kept, adds, owned);
    DropDropsAll(adds, owned);
    DropKeepsAll(kept, owned);
    assert Drop(kept, owned) + [] == Drop(kept, owned);
  }

  lemma {:induction false} CarriesSameNames(a: Config, b: Config, names: set<string>)
    requires |a| == |b| && forall i | 0 <= i < |a| :: a[i].name == b[i].name && a[i].anonymous == b[i].anonymous
    ensures CarriesNone(a, names) <==> CarriesNone(b, names)
  {
  }

  /** Without a clash only the other config's names matter. */
  lemma {:induction false} CarriesOther(c: Config, own: Config, other: Config, owned: set<string>)
    requires !Clash(c, own)
    requires owned == NameSet(own) + NameSet(other)
    ensures CarriesNone(c, owned) <==> CarriesNone(c, NameSet(other))
  {
    if CarriesNone(c, NameSet(other)) {
      forall i | 0 <= i < |c| ensures c[i].anonymous || c[i].name !in owned {
        assert c[i].name !in NameSet(own);
      }
    }
  }

  ghost predicate ForeignVlan(s: Section, bridge: string) {
    OnBridge(s, bridge) && s.name != BVU
  }

  /** What undo gives: unique names, and behind a kept conversion a bridge-vlan that is
      not the engine's own. */
  ghost predicate ValidBase(base: Base) {
    && WellNamed(base.w) && WellNamed(base.n)
    && (base.kept.Some? ==> exists i | 0 <= i < |base.n| :: ForeignVlan(base.n[i], base.kept.value.bridge))
  }

  lemma {:induction false} UndoValid(w: Config, n: Config, prev: Ledger)
    requires WellNamed(w) && WellNamed(n) && WellFormed(prev, w, n)
    ensures ValidBase(Undo(w, n, prev))
  {
    var base := Undo(w, n, prev);
    hide Undo, WellNamed, OwnedSet, OnBridge;
    UndoNamed(w, n, prev);
    if base.kept.Some? { UndoKept(w, n, prev, base); }
  }

  lemma {:induction false} UndoNamed(w: Config, n: Config, prev: Ledger)
    requires WellNamed(w) && WellNamed(n)
    ensures WellNamed(Undo(w, n, prev).w) && WellNamed(Undo(w, n, prev).n)
  {
    hide Drop, OwnedSet, KeptConversion;
    var all := OwnedSet(prev, w, n);
    DropWellNamed(w, all);
    DropWellNamed(w, all - {BVU});
    DropWellNamed(n, all);
    DropWellNamed(n, all - {BVU});
  }

  lemma {:induction false} UndoKept(w: Config, n: Config, prev: Ledger, base: Base)
    requires base == Undo(w, n, prev) && base.kept.Some? && (prev.converted.Some? ==> BVU in OwnedSet(prev, w, n))
    ensures exists i | 0 <= i < |base.n| :: ForeignVlan(base.n[i], base.kept.value.bridge)
  {
    var all := OwnedSet(prev, w, n);
    var n1 := Drop(n, all - {BVU});
    assert base.kept == KeptConversion(n, all, prev.converted) && base.n == n1 && BVU in all;
    hide Drop, OwnedSet, Undo;
    var bridge := base.kept.value.bridge;
    var i :| 0 <= i < |n| && OnBridge(n[i], bridge) && n[i].name !in all;
    hide KeptConversion, OnBridge;
    DropKeepsOne(n, all - {BVU}, i);
    var k :| 0 <= k < |n1| && n1[k] == n[i];
    assert ForeignVlan(base.n[k], bridge);
  }

  lemma {:induction false} DropWellNamed(c: Config, owned: set<string>)
    requires WellNamed(c)
    ensures WellNamed(Drop(c, owned))
  {
    DropLeaves(c, owned);
    hide Drop;
  }

  lemma {:induction false} DropKeepsOne(c: Config, owned: set<string>, i: nat)
    requires i < |c| && (c[i].anonymous || c[i].name !in owned)
    ensures c[i] in Drop(c, owned)
  {
    if i > 0 {
      DropKeepsOne(c[1..], owned, i - 1);
    }
  }

  // ---- undoing an assembled plan ----

  /** The parts of a successful plan, as BuildOn put them together. */
  ghost predicate Built(base: Base, d: Desired, detected: string, prev: Option<Conversion>,
                        managed: seq<Iface>, vids: seq<int>, port: string, net: NetPlan, r: Planned) {
    && managed == ManagedIfaces(base.w, d.ssids) && vids == SortInts(d.vlans) && port == TrunkPort(d, detected)
    && PlanNetwork(base, port, vids, prev) == Ok(net)
    && !Clash(net.n, net.adds) && !Clash(base.w, WirelessAdds(d, managed, vids))
    && r == Assemble(base, d, port, vids, managed, net)
  }

  lemma {:induction false} BuiltParts(base: Base, d: Desired, detected: string, prev: Option<Conversion>, r: Planned)
      returns (managed: seq<Iface>, vids: seq<int>, port: string, net: NetPlan)
    requires d.vlans != [] && BuildOn(base, d, detected, prev) == Ok(r)
    ensures Built(base, d, detected, prev, managed, vids, port, net, r)
    ensures managed != [] && port != ""
  {
    managed, vids, port := ManagedIfaces(base.w, d.ssids), SortInts(d.vlans), TrunkPort(d, detected);
    net := PlanNetwork(base, port, vids, prev).value;
  }

  /** What the proofs below need of a plan that was put together on `base`. */
  ghost predicate Shape(base: Base, managed: seq<Iface>, net: NetPlan, wAdds: seq<Section>, r: Planned) {
    && r.w == MarkDynAll(base.w, IfaceNames(managed)) + wAdds && r.n == net.n + net.adds
    && r.ledger == Ledger(Some(NamesOf(net.adds) + NamesOf(wAdds) + KeptNames(base.kept)),
                          DynBefore(base.w, managed), net.converted)
    && r.managed == NamesOfIfaces(managed)
    && !Clash(net.n, net.adds) && !Clash(base.w, wAdds)
    && (forall i | 0 <= i < |net.adds| :: NetworkNamed(net.adds[i]))
    && (forall i | 0 <= i < |wAdds| :: WirelessNamed(wAdds[i]))
    && Starts(base, net)
  }

  /** What a network plan keeps of the sections it starts from. */
  ghost predicate Starts(base: Base, net: NetPlan) {
    && |net.n| == |base.n|
    && (forall i | 0 <= i < |net.n| ::
          net.n[i].name == base.n[i].name && net.n[i].anonymous == base.n[i].anonymous
          && (OnBridgeVlan(net.n[i]) || OnBridgeVlan(base.n[i]) ==> net.n[i] == base.n[i]))
    && (base.kept.Some? ==> net.converted == base.kept && BVU !in NameSet(net.adds))
    && (base.kept.Some? || net.converted.None? ==> net.n == base.n)
    && (base.kept.None? && net.converted.Some? ==>
          var c := net.converted.value;
          net.n == MoveAll(base.n, c.bridge, c.untagged) && c.moved == MovedFrom(base.n, c.bridge)
          && !HasBridgeVlans(base.n, c.bridge))
  }

  predicate OnBridgeVlan(s: Section) { s.typ == "bridge-vlan" }

  lemma {:induction false} NetPlanStarts(base: Base, port: string, vids: seq<int>, prev: Option<Conversion>, net: NetPlan)
    requires PlanNetwork(base, port, vids, prev) == Ok(net)
    ensures Starts(base, net)
  {
    NetPlanNamed(base, port, vids, prev, net);
  }

  lemma {:induction false} BuiltShape(base: Base, d: Desired, detected: string, prev: Option<Conversion>, r: Planned)
      returns (managed: seq<Iface>, vids: seq<int>, port: string, net: NetPlan)
    requires d.vlans != [] && BuildOn(base, d, detected, prev) == Ok(r)
    ensures Built(base, d, detected, prev, managed, vids, port, net, r)
    ensures Shape(base, managed, net, WirelessAdds(d, managed, vids), r)
  {
    managed, vids, port, net := BuiltParts(base, d, detected, prev, r);
    NetPlanStarts(base, port, vids, prev, net);
    NetPlanNamed(base, port, vids, prev, net);
    WirelessAddsNamed(d, managed, vids);
  }

  /** The kept and the created slices of a plan. */
  lemma {:induction false} ShapeSlices(base: Base, managed: seq<Iface>, net: NetPlan, wAdds: seq<Section>, r: Planned)
    requires Shape(base, managed, net, wAdds, r)
    ensures |base.w| <= |r.w| && |base.n| <= |r.n|
    ensures r.w[|base.w|..] == wAdds && r.w[..|base.w|] == MarkDynAll(base.w, IfaceNames(managed))
    ensures r.n[|base.n|..] == net.adds && r.n[..|base.n|] == net.n
    ensures forall x :: x in r.managed <==> x in IfaceNames(managed)
  {
    forall x ensures x in r.managed <==> x in IfaceNames(managed) {
      if x in IfaceNames(managed) {
        var i :| 0 <= i < |managed| && managed[i].name == x;
        assert r.managed[i] == x;
      }
    }
  }

  lemma {:induction false} NamesOfSet(sections: seq<Section>)
    ensures forall x :: x in NamesOf(sections) <==> x in NameSet(sections)
  {
    forall x | x in NameSet(sections) ensures x in NamesOf(sections) {
      var i :| 0 <= i < |sections| && sections[i].name == x;
      assert NamesOf(sections)[i] == x;
    }
  }

  /** The names undo drops after a plan; a kept conversion's own VLAN is listed too. */
  ghost function Created(net: NetPlan, wAdds: seq<Section>): set<string> {
    NameSet(net.adds) + NameSet(wAdds)
  }

  lemma {:induction false} OwnedAfter(base: Base, managed: seq<Iface>, net: NetPlan, wAdds: seq<Section>, r: Planned, w: Config, n: Config)
    requires Shape(base, managed, net, wAdds, r)
    ensures base.kept.None? ==> OwnedSet(r.ledger, w, n) == Created(net, wAdds)
    ensures base.kept.Some? ==> OwnedSet(r.ledger, w, n) == Created(net, wAdds) + {BVU}
    ensures base.kept.Some? ==> OwnedSet(r.ledger, w, n) - {BVU} == Created(net, wAdds)
  {
    NamesOfSet(net.adds);
    NamesOfSet(wAdds);
    assert OwnedSet(r.ledger, w, n) == Created(net, wAdds) + (if base.kept.Some? then {BVU} else {});
    assert BVU[6] == 'b';
    assert BVU !in NameSet(wAdds);
  }

  /** Which conversion undo keeps after a plan: none where there was none before. */
  lemma {:induction false} KeptAfterNone(base: Base, managed: seq<Iface>, net: NetPlan, wAdds: seq<Section>, r: Planned)
    requires Shape(base, managed, net, wAdds, r) && base.kept.None?
    ensures Undo(r.w, r.n, r.ledger).kept == None
  {
    var owned := OwnedSet(r.ledger, r.w, r.n);
    OwnedAfter(base, managed, net, wAdds, r, r.w, r.n);
    if net.converted.Some? {
      var bridge := net.converted.value.bridge;
      forall i | 0 <= i < |r.n| && OnBridge(r.n[i], bridge) ensures r.n[i].name in owned {
        if i >= |net.n| { assert r.n[i] == net.adds[i - |net.n|]; }
      }
    }
  }

  lemma {:induction false} KeptAfterSome(base: Base, managed: seq<Iface>, net: NetPlan, wAdds: seq<Section>, r: Planned)
    requires ValidBase(base) && Shape(base, managed, net, wAdds, r) && base.kept.Some?
    requires CarriesNone(base.n, NameSet(wAdds))
    ensures Undo(r.w, r.n, r.ledger).kept == base.kept
  {
    OwnedAfter(base, managed, net, wAdds, r, r.w, r.n);
    var bridge := base.kept.value.bridge;
    var i :| 0 <= i < |base.n| && ForeignVlan(base.n[i], bridge);
    assert r.n[i] == base.n[i] && OnBridge(r.n[i], bridge);
    assert r.n[i].name !in OwnedSet(r.ledger, r.w, r.n);
  }

  lemma {:induction false} UndoSides(base: Base, managed: seq<Iface>, net: NetPlan, wAdds: seq<Section>, r: Planned)
    requires Shape(base, managed, net, wAdds, r)
    requires Undo(r.w, r.n, r.ledger).kept == base.kept
    ensures var owned := Created(net, wAdds);
            var back := Undo(r.w, r.n, r.ledger);
            && back.w == RestoreDynAll(Drop(MarkDynAll(base.w, IfaceNames(managed)) + wAdds, owned), DynBefore(base.w, managed))
            && back.n == (if base.kept.None? && net.converted.Some?
                          then MoveBackAll(Drop(net.n + net.adds, owned), net.converted.value)
                          else Drop(net.n + net.adds, owned))
  {
    OwnedAfter(base, managed, net, wAdds, r, r.w, r.n);
  }

  /** The wireless half of the equivalence. */
  lemma {:induction false} WirelessHalf(base: Base, managed: seq<Iface>, net: NetPlan, wAdds: seq<Section>, r: Planned, back: Config)
    requires WellNamed(base.w) && Shape(base, managed, net, wAdds, r)
    requires back == RestoreDynAll(Drop(MarkDynAll(base.w, IfaceNames(managed)) + wAdds, Created(net, wAdds)),
                                   DynBefore(base.w, managed))
    ensures back == base.w <==>
            && CarriesNone(base.w, NameSet(net.adds))
            && (forall i | 0 <= i < |base.w| && base.w[i].name in IfaceNames(managed) :: DynRestorable(base.w[i]))
  {
    var owned := Created(net, wAdds);
    var marked := MarkDynAll(base.w, IfaceNames(managed));
    CarriesSameNames(base.w, marked, owned);
    CarriesOther(base.w, wAdds, net.adds, owned);
    DropAdded(marked, wAdds, owned);
    WirelessBack(base.w, managed);
  }

  /** The network half. */
  lemma {:induction false} NetworkHalf(base: Base, managed: seq<Iface>, net: NetPlan, wAdds: seq<Section>, r: Planned, back: Config)
    requires WellNamed(base.n) && Shape(base, managed, net, wAdds, r)
    requires back == (if base.kept.None? && net.converted.Some?
                      then MoveBackAll(Drop(net.n + net.adds, Created(net, wAdds)), net.converted.value)
                      else Drop(net.n + net.adds, Created(net, wAdds)))
    ensures back == base.n <==>
            && CarriesNone(base.n, NameSet(wAdds))
            && (base.kept.None? && net.converted.Some? ==>
                  forall i | 0 <= i < |base.n| :: DeviceRestorable(base.n[i], net.converted.value.bridge))
  {
    var owned := Created(net, wAdds);
    CarriesSameNames(base.n, net.n, NameSet(wAdds));
    CarriesOther(net.n, net.adds, wAdds, owned);
    DropAdded(net.n, net.adds, owned);
    if base.kept.None? && net.converted.Some? {
      NetworkBack(base.n, net.converted.value);
    }
  }

  lemma {:induction false} LengthAfterUndo(w: Config, n: Config, prev: Ledger, owned: set<string>)
    requires owned == if Undo(w, n, prev).kept.Some? then OwnedSet(prev, w, n) - {BVU} else OwnedSet(prev, w, n)
    ensures |Undo(w, n, prev).n| == |Drop(n, owned)|
  {
  }

  /** If a network section carries a wireless name, undo loses it, kept conversion or not. */
  lemma {:induction false} LosesNetworkSection(base: Base, managed: seq<Iface>, net: NetPlan, wAdds: seq<Section>, r: Planned)
    requires WellNamed(base.n) && Shape(base, managed, net, wAdds, r)
    requires !CarriesNone(base.n, NameSet(wAdds))
    ensures Undo(r.w, r.n, r.ledger).n != base.n
  {
    var all := OwnedSet(r.ledger, r.w, r.n);
    OwnedAfter(base, managed, net, wAdds, r, r.w, r.n);
    var owned := if Undo(r.w, r.n, r.ledger).kept.Some? then all - {BVU} else all;
    if base.kept.None? { KeptAfterNone(base, managed, net, wAdds, r); }
    LengthAfterUndo(r.w, r.n, r.ledger, owned);
    var i :| 0 <= i < |base.n| && !base.n[i].anonymous && base.n[i].name in NameSet(wAdds);
    assert net.n[i].name in owned && !net.n[i].anonymous;
    assert BVU !in NameSet(wAdds) by { assert BVU[6] == 'b'; }
    DropAdded(net.n, net.adds, owned);
  }

  lemma {:induction false} ReversibleUndo(base: Base, managed: seq<Iface>, net: NetPlan, wAdds: seq<Section>, r: Planned)
    requires ValidBase(base) && Shape(base, managed, net, wAdds, r)
    requires |base.w| <= |r.w| && |base.n| <= |r.n|
    ensures Undo(r.w, r.n, r.ledger) == base <==> Reversible(base, r)
  {
    ShapeSlices(base, managed, net, wAdds, r);
    var back := Undo(r.w, r.n, r.ledger);
    if CarriesNone(base.n, NameSet(wAdds)) {
      if base.kept.Some? {
        KeptAfterSome(base, managed, net, wAdds, r);
      } else {
        KeptAfterNone(base, managed, net, wAdds, r);
      }
      UndoSides(base, managed, net, wAdds, r);
      WirelessHalf(base, managed, net, wAdds, r, back.w);
      NetworkHalf(base, managed, net, wAdds, r, back.n);
    } else {
      LosesNetworkSection(base, managed, net, wAdds, r);
    }
  }

  // ---- main results ----

  /** Where a managed interface comes from. */
  lemma {:induction false} ManagedFrom(w: Config, ssids: seq<string>, k: nat) returns (i: nat)
    requires k < |ManagedIfaces(w, ssids)|
    ensures i < |w| && Managed(w[i], ssids)
    ensures ManagedIfaces(w, ssids)[k] == Iface(w[i].name, w[i].Text("key"))
  {
    if Managed(w[0], ssids) && k == 0 {
      i := 0;
    } else {
      i := ManagedFrom(w[1..], ssids, if Managed(w[0], ssids) then k - 1 else k);
      i := i + 1;
    }
  }

  lemma {:induction false} ManagedListed(w: Config, ssids: seq<string>, i: nat)
    requires i < |w| && Managed(w[i], ssids)
    ensures w[i].name in IfaceNames(ManagedIfaces(w, ssids))
  {
    hide Managed;
    var all, rest := ManagedIfaces(w, ssids), ManagedIfaces(w[1..], ssids);
    if i == 0 {
      assert all[0].name == w[0].name;
    } else {
      ManagedListed(w[1..], ssids, i - 1);
      var k :| 0 <= k < |rest| && rest[k].name == w[i].name;
      assert all[k + |all| - |rest|] == rest[k];
    }
  }

  /** The interfaces a plan manages, section by section. */
  lemma {:induction false} ManagedExactly(w: Config, ssids: seq<string>, i: nat)
    requires UniqueNames(w) && i < |w|
    ensures w[i].name in IfaceNames(ManagedIfaces(w, ssids)) <==> Managed(w[i], ssids)
  {
    hide Managed;
    if Managed(w[i], ssids) { ManagedListed(w, ssids, i); }
    if w[i].name in IfaceNames(ManagedIfaces(w, ssids)) {
      var managed := ManagedIfaces(w, ssids);
      var k :| 0 <= k < |managed| && managed[k].name == w[i].name;
      var j := ManagedFrom(w, ssids, k);
      assert j == i;
    }
  }

  /** What can be told before planning: no section outside the groups carries a name the plan
      will create in the other config, and the options it will borrow can be put back. */
  ghost predicate TakesBack(base: Base, d: Desired, detected: string, prev: Option<Conversion>) {
    var managed, vids := ManagedIfaces(base.w, d.ssids), SortInts(d.vlans);
    d.vlans != [] ==>
      && CarriesNone(base.n, NameSet(WirelessAdds(d, managed, vids)))
      && (forall i | 0 <= i < |base.w| && Managed(base.w[i], d.ssids) :: DynRestorable(base.w[i]))
      && match PlanNetwork(base, TrunkPort(d, detected), vids, prev)
         case Err(_) => true
         case Ok(net) =>
           && CarriesNone(base.w, NameSet(net.adds))
           && (base.kept.None? && net.converted.Some? ==>
                 forall i | 0 <= i < |base.n| :: DeviceRestorable(base.n[i], net.converted.value.bridge))
  }

  lemma {:induction false} TakesBackIsReversible(base: Base, d: Desired, detected: string, prev: Option<Conversion>, r: Planned)
    requires ValidBase(base) && BuildOn(base, d, detected, prev) == Ok(r)
    ensures |base.w| <= |r.w| && |base.n| <= |r.n| && (Reversible(base, r) <==> TakesBack(base, d, detected, prev))
  {
    if d.vlans == [] {
      UndoEmpty(base);
    } else {
      var managed, vids, port, net := BuiltShape(base, d, detected, prev, r);
      ShapeSlices(base, managed, net, WirelessAdds(d, managed, vids), r);
      forall i: nat | i < |base.w| ensures base.w[i].name in r.managed <==> Managed(base.w[i], d.ssids) {
        ManagedExactly(base.w, d.ssids, i);
      }
      hide WirelessAdds, PlanNetwork, Managed, ManagedIfaces, DynRestorable, DeviceRestorable, CarriesNone, NameSet, BuildOn, TrunkPort, SortInts;
    }
  }

  /** No drift: undoing a plan's result with its own ledger gives, section for section,
      what undoing the original configs with the old ledger gave (the kept conversion
      included), exactly when the plan can be taken back. */
  lemma {:induction false} NoDrift(w: Config, n: Config, d: Desired, detected: string, prev: Ledger, r: Planned)
    requires WellNamed(w) && WellNamed(n) && WellFormed(prev, w, n)
    requires Plan(w, n, d, detected, prev) == Ok(r)
    ensures var base := Undo(w, n, prev);
            Undo(r.w, r.n, r.ledger) == base <==> TakesBack(base, d, detected, prev.converted)
  {
    var base := Undo(w, n, prev);
    UndoValid(w, n, prev);
    TakesBackIsReversible(base, d, detected, prev.converted, r);
    if d.vlans == [] {
      UndoEmpty(base);
    } else {
      var managed, vids, port, net := BuiltShape(base, d, detected, prev.converted, r);
      ReversibleUndo(base, managed, net, WirelessAdds(d, managed, vids), r);
    }
  }

  /** A managed interface with an empty dynamic_vlan, or with a list that does not read as
      "1", drifts in every successful plan with VLANs. */
  lemma {:induction false} UnrestorableDrifts(w: Config, n: Config, d: Desired, detected: string, prev: Ledger, r: Planned, i: nat)
    requires WellNamed(w) && WellNamed(n) && WellFormed(prev, w, n)
    requires Plan(w, n, d, detected, prev) == Ok(r) && d.vlans != []
    requires var base := Undo(w, n, prev);
             && i < |base.w| && Managed(base.w[i], d.ssids)
             && (base.w[i].Get("dynamic_vlan") == Some(Str("")) ||
                 (base.w[i].Get("dynamic_vlan").Some? && base.w[i].Get("dynamic_vlan").value.List? && base.w[i].Text("dynamic_vlan") != "1"))
    ensures Undo(r.w, r.n, r.ledger) != Undo(w, n, prev)
  {
    NoDrift(w, n, d, detected, prev, r);
    assert !DynRestorable(Undo(w, n, prev).w[i]);
    hide Undo, PlanNetwork, Managed;
  }

  // ---- a plan that drifts ----

  const DRIFTING_AP :=
    Section("home", "wifi-iface", false,
            [Opt("mode", Str("ap")), Opt("ssid", Str("x")), Opt("encryption", Str("psk2")), Opt("key", Str("passphrase")),
             Opt("dynamic_vlan", Str(""))])

  const ONE_VLAN := Desired(1, 0, "", ["x"], [7], [])

  /** The ledger before the first apply: nothing recorded. */
  const NO_LEDGER := Ledger(None, map[], None)

  lemma {:induction false} DriftingManaged()
    ensures Managed(DRIFTING_AP, ["x"]) && DRIFTING_AP.Get("dynamic_vlan") == Some(Str(""))
    ensures ManagedIfaces([DRIFTING_AP], ["x"]) == [Iface("home", "passphrase")]
  {
    var o := DRIFTING_AP.options;
    GetIs(o, 0);
    GetIs(o, 1);
    GetIs(o, 2);
    GetIs(o, 3);
    GetIs(o, 4);
    GetNone(o, "disabled");
    assert "psk2"[..3] == "psk";
    assert [DRIFTING_AP][1..] == [];
    hide Managed;
    assert ManagedIfaces([], ["x"]) == [];
  }

  lemma {:induction false} DriftingNames()
    ensures var managed := [Iface("home", "passphrase")];
            && !Clash([DRIFTING_AP], WirelessAdds(ONE_VLAN, managed, [7]))
            && !Clash([], StandaloneSections("lan1", [7]))
  {
    var managed := [Iface("home", "passphrase")];
    assert [7][1..] == [] && StandaloneSections("lan1", []) == [];
    var adds := StandaloneSections("lan1", [7]);
    assert adds == [VlanDeviceSection("lan1", 7), VlanBridgeSection("lan1", 7), NetworkSection(7, PerVlanBridge(7))];
    assert adds[0].name[6] == 'd' && adds[1].name[6] == 'b' && adds[2].name[6] == 'v';
    assert managed[1..] == [] && WifiVlanSections([], [7]) == [] && Entries([], managed) == [];
    var wAdds := WirelessAdds(ONE_VLAN, managed, [7]);
    assert wAdds == [WifiVlanSection(7, "home")];
    assert wAdds[0].name[0] == 'p';
  }

  /** Such a plan exists: one VLAN on an access point with an empty dynamic_vlan succeeds, and
      undoing it does not lead back. */
  lemma {:induction false} SomePlanDrifts()
    ensures var plan := Plan([DRIFTING_AP], [], ONE_VLAN, "lan1", NO_LEDGER);
            plan.Ok? && Undo(plan.value.w, plan.value.n, plan.value.ledger) != Undo([DRIFTING_AP], [], NO_LEDGER)
  {
    DriftingManaged();
    DriftingNames();
    hide Managed, ManagedIfaces, Clash, WirelessAdds, StandaloneSections;
    var w: Config, n: Config := [DRIFTING_AP], [];
    assert OwnedSet(NO_LEDGER, w, n) == {} by { assert !HasPrefix("home", PREFIX) by { assert "home"[0] == 'h'; } }
    DropKeepsAll(w, {});
    DropKeepsAll(n, {});
    assert Undo(w, n, NO_LEDGER) == Base(w, n, None) by { assert RestoreDynAll(w, map[]) == w; }
    assert SortInts([7]) == [7] by { assert [7][1..] == []; }
    assert BridgeOf([], "lan1") == None;
    assert Valid(ONE_VLAN) by { assert |"x"| == 1; }
    var plan := Plan(w, n, ONE_VLAN, "lan1", NO_LEDGER);
    hide Undo, Valid, SortInts;
    assert plan.Ok?;
    UnrestorableDrifts(w, n, ONE_VLAN, "lan1", NO_LEDGER, plan.value, 0);
  }

  /** Dropping all groups and undoing again changes nothing. */
  lemma {:induction false} UndoEmpty(base: Base)
    requires ValidBase(base)
    ensures Undo(Empty(base).w, Empty(base).n, Empty(base).ledger) == base
    ensures Reversible(base, Empty(base))
  {
    var r := Empty(base);
    var owned := OwnedSet(r.ledger, r.w, r.n);
    assert owned == if base.kept.Some? then {BVU} else {};
    if base.kept.Some? {
      var i :| 0 <= i < |base.n| && ForeignVlan(base.n[i], base.kept.value.bridge);
      assert CarriesForeignVlan(r.n, base.kept.value.bridge, owned);
      assert owned - {BVU} == {};
    }
    DropKeepsAll(base.w, {});
    DropKeepsAll(base.n, {});
    assert RestoreDynAll(base.w, map[]) == base.w;
  }

  /** Every ledger a plan writes is well formed for the configs it writes, and their
      names stay unique. */
  lemma {:induction false} PlanKeepsHypotheses(w: Config, n: Config, d: Desired, detected: string, prev: Ledger, r: Planned)
    requires WellNamed(w) && WellNamed(n) && WellFormed(prev, w, n)
    requires Plan(w, n, d, detected, prev) == Ok(r)
    ensures WellNamed(r.w) && WellNamed(r.n) && WellFormed(r.ledger, r.w, r.n)
  {
    var base := Undo(w, n, prev);
    UndoValid(w, n, prev);
    hide Drop, OwnedSet, Undo, Valid;
    if d.vlans == [] {
      EmptyKeepsHypotheses(base);
    } else {
      hide BuildOn, WellNamed;
      var managed, vids, port, net := BuiltShape(base, d, detected, prev.converted, r);
      KeepsHypotheses(base, managed, net, WirelessAdds(d, managed, vids), r);
      hide PlanNetwork, Shape, WirelessAdds;
      ConvertsByBvu(base, port, vids, prev.converted, net);
      assert r.ledger.converted == net.converted by { hide ManagedIfaces, SortInts, Clash; }
    }
  }

  lemma {:induction false} EmptyKeepsHypotheses(base: Base)
    requires WellNamed(base.w) && WellNamed(base.n)
    ensures WellNamed(Empty(base).w) && WellNamed(Empty(base).n) && WellFormed(Empty(base).ledger, base.w, base.n)
  {
  }

  lemma {:induction false} ConvertsByBvu(base: Base, port: string, vids: seq<int>, prev: Option<Conversion>, net: NetPlan)
    requires PlanNetwork(base, port, vids, prev) == Ok(net)
    ensures net.converted.Some? ==> base.kept.Some? || BVU in NameSet(net.adds)
  {
    NetPlanNamed(base, port, vids, prev, net);
    hide PlanNetwork;
    if base.kept.None? && net.converted.Some? {
      assert net.adds[0].name == BVU;
    }
  }

  lemma {:induction false} KeepsHypotheses(base: Base, managed: seq<Iface>, net: NetPlan, wAdds: seq<Section>, r: Planned)
    requires WellNamed(base.w) && WellNamed(base.n) && Shape(base, managed, net, wAdds, r)
    ensures WellNamed(r.w) && WellNamed(r.n)
    ensures base.kept.Some? || BVU in NameSet(net.adds) ==> BVU in OwnedSet(r.ledger, r.w, r.n)
  {
    OwnedAfter(base, managed, net, wAdds, r, r.w, r.n);
    WellNamedAppend(MarkDynAll(base.w, IfaceNames(managed)), wAdds);
    WellNamedAppend(net.n, net.adds);
  }

  lemma {:induction false} WellNamedAppend(c: Config, adds: seq<Section>)
    requires WellNamed(c) && !Clash(c, adds)
    requires forall i | 0 <= i < |adds| :: !adds[i].anonymous
    ensures WellNamed(c + adds)
  {
    var s := c + adds;
    forall i, j | 0 <= i < j < |s| ensures s[i].name != s[j].name {
      if i < |c| && j >= |c| { assert s[j] == adds[j - |c|]; }
      if i >= |c| { assert s[i] == adds[i - |c|] && s[j] == adds[j - |c|]; }
    }
  }
}
