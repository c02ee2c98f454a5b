/** A revision that is kept although hostapd gives its bound passphrase to every client. */
module EngineRepeat {
  import opened Wrappers
  import opened Text
  import opened UciConfig
  import opened GroupsPlan
  import opened GroupsNoDrift
  import opened GroupsChains
  import opened Psk
  import opened EngineModel
  import opened EngineRuns
  import opened EngineDrift

  // ---- one access point, one bound device ----

  const HOME_AP :=
    Section("home", "wifi-iface", false,
            [Opt("mode", Str("ap")), Opt("ssid", Str("x")), Opt("encryption", Str("psk2")), Opt("key", Str("passphrase"))])

  const BOUND_STATION := Station("", 7, ["00:11:22:33:44:55"])
  const BOUND := Desired(1, 0, "", ["x"], [7], [BOUND_STATION])
  const HOME := Iface("home", "passphrase")

  lemma {:induction false} HomeManaged()
    ensures Managed(HOME_AP, ["x"]) && HOME_AP.Get("dynamic_vlan") == None
    ensures ManagedIfaces([HOME_AP], ["x"]) == [HOME]
  {
    var o := HOME_AP.options;
    GetIs(o, 0);
    GetIs(o, 1);
    GetIs(o, 2);
    GetIs(o, 3);
    GetNone(o, "disabled");
    GetNone(o, "dynamic_vlan");
    assert "psk2"[..3] == "psk";
    assert [HOME_AP][1..] == [];
    hide Managed;
    assert ManagedIfaces([], ["x"]) == [];
  }

  lemma {:induction false} HomeIsClean()
    ensures CleanBase(Base([HOME_AP], [], None)) && WellNamed([HOME_AP]) && WellNamed([])
  {
    HomeManaged();
    assert !HasPrefix("home", PREFIX) by { assert "home"[0] == 'h'; }
    assert ShortName("home")[0] == 'h';
  }

  lemma {:induction false} BoundIsValid()
    ensures Valid(BOUND) && SortInts([7]) == [7]
  {
    assert [7][1..] == [];
    assert BOUND.stations[1..] == [] && MacCount([]) == 0 && MacCount(BOUND.stations) == 1;
    assert ValidMac(BOUND_STATION.macs[0]);
    assert |BOUND.ssids[0]| == 1;
  }

  lemma {:induction false} BoundAdds()
    ensures WirelessAdds(BOUND, [HOME], [7]) ==
            [WifiVlanSection(7, "home"), StationSection(0, Entry("home", "passphrase", 7, "00:11:22:33:44:55"))]
    ensures BindingKeys([], BOUND.stations, [HOME]) == ["passphrase"]
  {
    var st, macs := BOUND_STATION, BOUND_STATION.macs;
    assert macs[1..] == [] && SortStrings(macs) == macs;
    assert ValidKey("passphrase");
    assert [HOME][1..] == [] && BOUND.stations[1..] == [];
    assert EntriesFor(st, HOME) == [Entry("home", "passphrase", 7, macs[0])];
    assert EntriesOf(st, []) == [] && EntriesOf(st, [HOME]) == EntriesFor(st, HOME);
    assert Entries([], [HOME]) == [] && Entries(BOUND.stations, [HOME]) == EntriesFor(st, HOME);
    assert WifiVlanSections([], [7]) == [] && WifiVlanSections([HOME], [7]) == [WifiVlanSection(7, "home")];
    var keys := BindingKey([], st, HOME);
    assert keys == ["passphrase"];
    assert BindingKeysOf(keys, st, []) == keys && BindingKeysOf([], st, [HOME]) == keys;
    assert BindingKeys(keys, [], [HOME]) == keys;
  }

  lemma {:induction false} BoundNames()
    ensures !Clash([HOME_AP], WirelessAdds(BOUND, [HOME], [7])) && !Clash([], StandaloneSections("lan1", [7]))
  {
    BoundAdds();
    hide WirelessAdds;
    assert [7][1..] == [] && StandaloneSections("lan1", []) == [];
    var adds := StandaloneSections("lan1", [7]);
    assert adds == [VlanDeviceSection("lan1", 7), VlanBridgeSection("lan1", 7), NetworkSection(7, PerVlanBridge(7))];
    assert adds[0].name[6] == 'd' && adds[1].name[6] == 'b' && adds[2].name[6] == 'v';
    var wAdds := WirelessAdds(BOUND, [HOME], [7]);
    assert wAdds[0].name[0] == 'p' && wAdds[1].name[0] == 'p' && wAdds[0].name[7] == 'v' && wAdds[1].name[7] == 's';
  }

  /** The plan of that request exists, binds the access point's own passphrase, and can be
      taken back. */
  lemma {:induction false} BoundPlan() returns (r: Planned)
    ensures Plan([HOME_AP], [], BOUND, "lan1", NO_LEDGER) == Ok(r) && r.bindingKeys == ["passphrase"]
    ensures TakesBack(Undo([HOME_AP], [], NO_LEDGER), BOUND, "lan1", None)
  {
    HomeManaged();
    HomeIsClean();
    BoundIsValid();
    BoundAdds();
    BoundNames();
    UntouchedIsBase([HOME_AP], []);
    hide Managed, ManagedIfaces, Clash, WirelessAdds, StandaloneSections, Undo, Valid, SortInts, CleanBase, WellNamed, BindingKeys;
    assert BridgeOf([], "lan1") == None;
    var base := Base([HOME_AP], [], None);
    var plan := BuildOn(base, BOUND, "lan1", None);
    assert plan.Ok?;
    r := plan.value;
    hide TakesBack, BuildOn;
    assert ValidBase(base) by { HomeIsClean(); }
    CleanIsReversible(base, BOUND, "lan1", None, r);
  }

  // ---- its device, confirmed, asked again ----

  const CALM := RollbackLuck(Done, Done, Done)
  const SMOOTH := ApplyLuck(Done, Done, Done, Done, Done, false, CALM)
  const QUIET := Scene("lan1", false, false, None, 0)

  /** Revision 1 confirmed, nothing open. */
  function AfterConfirm(r: Planned): Sys {
    var st := Stored(1, r.ledger, None, None);
    Sys(Disk(Parsed(r.w), Parsed(r.n), None, None, st), Some(Process(st, None, false)), None, false, {}, {}, false)
  }

  const AGAIN := EApply(BOUND.(revision := 2), QUIET, SMOOTH)

  /** hostapd's file with one passphrase for every client. */
  function OpenTo(key: string): PskFile { PskFile("hostapd-" + "phy0-ap0" + ".psk", Some(WILDCARD + " " + key)) }

  lemma {:induction false} OpenToEveryone(key: string)
    requires NoOuterBlanks(key) && forall i | 0 <= i < |key| :: key[i] != '\n'
    ensures Unsafe(Some([OpenTo(key)]), [key])
  {
    NamedForHostapd("hostapd-", "phy0-ap0", ".psk");
    OneLineOnly(WILDCARD, key);
    hide HasPrefix, HasSuffix, ParseLine, IndexOf, Split, NoOuterBlanks;
    var f, none: seq<Field> := OpenTo(key), [];
    assert IsPskFile(f);
    assert Split(f.content.value)[0] == Line(none, WILDCARD, key) && ValidFields(none);
    assert GivesToEveryone(f, key);
    hide GivesToEveryone, IsPskFile;
    EveryoneIsUnsafe(f, key, [key]);
    hide UnsafeFile;
    assert UnsafeFile([f][0], [key]);
  }

  lemma {:induction false} OneLineOnly(mac: string, key: string)
    requires forall i | 0 <= i < |mac| :: mac[i] != '\n'
    requires forall i | 0 <= i < |key| :: key[i] != '\n'
    ensures Split(mac + " " + key) == [mac + " " + key]
  {
    var line := mac + " " + key;
    assert IndexOf(line, '\n') == |line|;
  }

  lemma {:induction false} NamedForHostapd(a: string, b: string, c: string)
    ensures HasPrefix(a + b + c, a) && HasSuffix(a + b + c, c)
  {
    assert (a + b + c)[..|a|] == a && (a + b + c)[|a + b|..] == c;
  }

  /** Revision 2 asks for what revision 1 set up: it is kept at once, while the PSK file gives
      the passphrase it binds to every client and a confirm of it would be rolled back. */
  lemma {:induction false} SomeRepeatIsUnchecked() returns (r: Planned)
    ensures Inv(AfterConfirm(r)) && KeepsAtOnce(AfterConfirm(r), AGAIN)
    ensures PlanAt(AfterConfirm(r), AGAIN.d, AGAIN.scene) == Ok(r) && Unsafe(Some([OpenTo("passphrase")]), r.bindingKeys)
    ensures Step(AfterConfirm(r), AGAIN).disk.state.applied == 2
  {
    r := BoundPlan();
    hide Plan, Unsafe, WellNamed, KeepsAtOnce, Step, TakesBack, PlanFor, Inv, CleanBase, Undo;
    OpenToEveryone("passphrase") by { assert NoOuterBlanks("passphrase"); }
    AgainFits(r);
    RepeatedIsKeptAtOnce(AfterConfirm(r), Held([HOME_AP], [], NO_LEDGER), BOUND, r, AGAIN);
  }

  lemma {:induction false} AgainFits(r: Planned)
    ensures Inv(AfterConfirm(r)) && GoodHeld(Held([HOME_AP], [], NO_LEDGER)) && Unhindered(AGAIN) && SameRequest(BOUND, AGAIN.d)
  {
    HomeIsClean();
    hide WellNamed, CleanBase;
  }
}
