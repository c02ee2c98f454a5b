/** The names the planner creates: which family each belongs to, and that the
    pattern for ledgers without a list recognises every one of them. */
module GroupsNames {
  import opened Wrappers
  import opened Text
  import opened UciConfig
  import opened GroupsPlan

  /** The sixth byte tells the wireless names (`w`) from the network ones. */
  predicate WirelessNamed(s: Section) {
    !s.anonymous && HasPrefix(s.name, PREFIX) && |s.name| > 6 && s.name[6] == 'w'
  }

  predicate NetworkNamed(s: Section) {
    !s.anonymous && HasPrefix(s.name, PREFIX) && |s.name| > 6 && s.name[6] != 'w'
  }

  lemma {:induction false} WirelessAddsNamed(d: Desired, managed: seq<Iface>, vids: seq<int>)
    ensures forall i | 0 <= i < |WirelessAdds(d, managed, vids)| :: WirelessNamed(WirelessAdds(d, managed, vids)[i])
  {
    WifiVlansNamed(managed, vids);
  }

  lemma {:induction false} WifiVlansNamed(managed: seq<Iface>, vids: seq<int>)
    ensures forall i | 0 <= i < |WifiVlanSections(managed, vids)| ::
              WirelessNamed(WifiVlanSections(managed, vids)[i]) && WifiVlanSections(managed, vids)[i].typ == "wifi-vlan"
  {
    if managed != [] {
      WifiVlansNamed(managed[1..], vids);
    }
  }

  lemma {:induction false} BridgeVlansNamed(n: Config, bridge: string, vids: seq<int>, port: string)
    ensures forall i | 0 <= i < |BridgeVlanSections(n, bridge, vids, port)| ::
              var s := BridgeVlanSections(n, bridge, vids, port)[i];
              NetworkNamed(s) && s.name != BVU && s.typ == "bridge-vlan"
  {
    if vids != [] {
      BridgeVlansNamed(n, bridge, vids[1..], port);
      NotTheLetterU(vids[0]);
      assert BridgeVlanName(vids[0])[8..] == Itoa(vids[0]);
      assert BVU[8..] == "u";
    }
  }

  lemma {:induction false} NotTheLetterU(v: int)
    ensures Itoa(v) != "u"
  {
    NatStringRoundTrip(if v < 0 then -v else v);
    assert v >= 0 ==> IsDigit(Itoa(v)[0]);
    assert v < 0 ==> Itoa(v)[0] == '-';
  }

  lemma {:induction false} StandaloneNamed(port: string, vids: seq<int>)
    ensures forall i | 0 <= i < |StandaloneSections(port, vids)| ::
              NetworkNamed(StandaloneSections(port, vids)[i]) && StandaloneSections(port, vids)[i].name != BVU
              && StandaloneSections(port, vids)[i].typ != "bridge-vlan"
  {
    if vids != [] {
      StandaloneNamed(port, vids[1..]);
      assert VlanDeviceName(vids[0])[6] == 'd' && BVU[6] == 'b';
      assert VlanBridgeName(vids[0])[7] == 'd' && BVU[7] == 'v';
      assert NetworkName(vids[0])[6] == 'v';
    }
  }

  lemma {:induction false} NetworksNamed(bridge: string, vids: seq<int>)
    ensures forall i | 0 <= i < |NetworkSections(bridge, vids)| ::
              NetworkNamed(NetworkSections(bridge, vids)[i]) && NetworkSections(bridge, vids)[i].name != BVU
              && NetworkSections(bridge, vids)[i].typ != "bridge-vlan"
  {
    forall i | 0 <= i < |vids|
      ensures NetworkNamed(NetworkSections(bridge, vids)[i]) && NetworkName(vids[i]) != BVU
    {
      assert NetworkName(vids[i])[6] == 'v' && BVU[6] == 'b';
    }
  }

  // ---- OwnedName ----

  lemma {:induction false} NumberedName(p: string, v: nat)
    requires p in {"ws", "bv", "dv", "bd", "v"}
    ensures OwnedName(PREFIX + p + Itoa(v))
  {
    NatStringRoundTrip(v);
    var name, rest := PREFIX + p + Itoa(v), p + Itoa(v);
    assert name[..|PREFIX|] == PREFIX && name[|PREFIX|..] == rest;
    assert rest[..|p|] == p && rest[|p|..] == Itoa(v);
    hide Itoa, WifiVlanRest;
    assert NumberedWith(rest, p);
  }

  lemma {:induction false} ShortNameWordChars(s: string, room: nat)
    ensures AllWordChars(ShortNameUpTo(s, room))
  {
    if s != [] && room > 0 {
      ShortNameWordChars(s[1..], if IsWordChar(s[0]) then room - 1 else room);
    }
  }

  lemma {:induction false} WifiVlanNameOwned(v: nat, iface: string)
    ensures OwnedName(WifiVlanName(v, iface)) <==> ShortName(iface) != ""
  {
    NatStringRoundTrip(v);
    ShortNameWordChars(iface, 24);
    var name, rest := WifiVlanName(v, iface), "wv" + (Itoa(v) + "_" + ShortName(iface));
    assert name[..|PREFIX|] == PREFIX && name[|PREFIX|..] == rest;
    assert rest[0] == 'w' && rest[1] == 'v';
    hide Itoa, ShortName, WifiVlanRest;
    WifiVlanRestExactly(Itoa(v), ShortName(iface));
  }

  lemma {:induction false} WifiVlanRestExactly(digits: string, short: string)
    requires AllDigits(digits) && AllWordChars(short)
    ensures WifiVlanRest("wv" + (digits + "_" + short)) <==> short != ""
  {
    var n := digits + "_" + short;
    var rest := "wv" + n;
    assert rest[..2] == "wv" && rest[2..] == n;
    assert forall k | 0 <= k < |digits| :: n[k] == digits[k] && digits[k] != '_';
    IndexOfIs(n, '_', |digits|);
    assert n[..|digits|] == digits && n[|digits| + 1..] == short;
  }

  predicate AllOwned(sections: seq<Section>) {
    forall i | 0 <= i < |sections| :: OwnedName(sections[i].name)
  }

  lemma {:induction false} WifiVlansOwned(managed: seq<Iface>, vids: seq<int>)
    requires forall i | 0 <= i < |vids| :: vids[i] >= 0
    requires forall i | 0 <= i < |managed| :: ShortName(managed[i].name) != ""
    ensures AllOwned(WifiVlanSections(managed, vids))
  {
    if managed != [] {
      WifiVlansOwned(managed[1..], vids);
      forall i | 0 <= i < |vids| ensures OwnedName(WifiVlansOf(managed[0].name, vids)[i].name) {
        WifiVlanNameOwned(vids[i], managed[0].name);
      }
    }
  }

  lemma {:induction false} WirelessAddsOwned(d: Desired, managed: seq<Iface>, vids: seq<int>)
    requires forall i | 0 <= i < |vids| :: vids[i] >= 0
    requires forall i | 0 <= i < |managed| :: ShortName(managed[i].name) != ""
    ensures AllOwned(WirelessAdds(d, managed, vids))
  {
    WifiVlansOwned(managed, vids);
    var entries := Entries(d.stations, managed);
    forall k: nat | k < |entries| ensures OwnedName(StationSectionsFrom(entries, 0)[k].name) {
      NumberedName("ws", k);
    }
  }

  lemma {:induction false} BridgeVlansOwned(n: Config, bridge: string, vids: seq<int>, port: string)
    requires forall i | 0 <= i < |vids| :: vids[i] >= 0
    ensures AllOwned(BridgeVlanSections(n, bridge, vids, port))
  {
    if vids != [] {
      BridgeVlansOwned(n, bridge, vids[1..], port);
      NumberedName("bv", vids[0]);
    }
  }

  lemma {:induction false} NetworksOwned(bridge: string, vids: seq<int>)
    requires forall i | 0 <= i < |vids| :: vids[i] >= 0
    ensures AllOwned(NetworkSections(bridge, vids))
  {
    forall i | 0 <= i < |vids| ensures OwnedName(NetworkName(vids[i])) {
      NumberedName("v", vids[i]);
    }
  }

  lemma {:induction false} StandaloneOwned(port: string, vids: seq<int>)
    requires forall i | 0 <= i < |vids| :: vids[i] >= 0
    ensures AllOwned(StandaloneSections(port, vids))
  {
    if vids != [] {
      StandaloneOwned(port, vids[1..]);
      NumberedName("dv", vids[0]);
      NumberedName("bd", vids[0]);
      NumberedName("v", vids[0]);
    }
  }

  // ---- the network side as a whole ----

  /** What a network plan adds: sections named as network sections, and `perch_bvu` exactly as
      the first section of a plan that converts a bridge. */
  lemma {:induction false} NetPlanNamed(base: Base, port: string, vids: seq<int>, prev: Option<Conversion>, net: NetPlan)
    requires PlanNetwork(base, port, vids, prev) == Ok(net)
    ensures forall i | 0 <= i < |net.adds| :: NetworkNamed(net.adds[i])
    ensures base.kept.Some? ==> forall i | 0 <= i < |net.adds| :: net.adds[i].name != BVU
    ensures forall i | 0 <= i < |net.adds| :: net.adds[i].name == BVU <==> i == 0 && base.kept.None? && net.converted.Some?
    ensures base.kept.None? && net.converted.Some? ==> net.adds != []
  {
    StandaloneNamed(port, vids);
    hide BridgeVlanSections, NetworkSections, StandaloneSections, UntaggedVlan, MoveAll, MovedFrom, GetOpt, HasBridgeVlans;
    if BridgeOf(base.n, port).Some? {
      var bridge := BridgeOf(base.n, port).value.Text("name");
      BridgeVlansNamed(base.n, bridge, vids, port);
      NetworksNamed(bridge, vids);
    }
  }

  lemma {:induction false} NetPlanOwned(base: Base, port: string, vids: seq<int>, prev: Option<Conversion>, net: NetPlan)
    requires PlanNetwork(base, port, vids, prev) == Ok(net)
    requires forall i | 0 <= i < |vids| :: vids[i] >= 0
    ensures AllOwned(net.adds)
  {
    StandaloneOwned(port, vids);
    if BridgeOf(base.n, port).Some? {
      var bridge := BridgeOf(base.n, port).value.Text("name");
      BridgeVlansOwned(base.n, bridge, vids, port);
      NetworksOwned(bridge, vids);
      assert OwnedName(BVU) by {
        assert BVU[..|PREFIX|] == PREFIX && BVU[|PREFIX|..] == "bvu";
      }
    }
  }
}
