/** The planner as it runs: cloned configs whose section lists are filtered, appended
    and updated in place, and a planner object that remembers what it created. Each
    method is proved against the function of GroupsPlan it implements. */
module GroupsPlanner {
  import opened Wrappers
  import opened Text
  import opened UciConfig
  import opened GroupsPlan
  import opened GroupsNoDrift
  import opened GroupsChains
  import opened GroupsResult

  class ConfigFile {
    const name: string
    var sections: seq<Section>

    constructor (name: string, sections: seq<Section>)
      ensures this.name == name && this.sections == sections
    {
      this.name := name;
      this.sections := sections;
    }
  }

  /** One config and the planner's memory, as a value. */
  datatype Adding = Adding(sections: Config, created: seq<string>, taken: bool)

  function AddTo(a: Adding, s: Section): Adding {
    if SectionAt(a.sections, s.name) < |a.sections| then a.(taken := true)
    else Adding(a.sections + [s], a.created + [s.name], a.taken)
  }

  class Planner {
    var created: seq<string>
    var taken: string

    constructor ()
      ensures created == [] && taken == ""
    {
      created, taken := [], "";
    }

    ghost function On(c: ConfigFile): Adding
      reads this, c
    {
      Adding(c.sections, created, taken != "")
    }

    method Add(c: ConfigFile, s: Section)
      modifies this, c
      ensures On(c) == AddTo(old(On(c)), s)
    {
      var at := SectionAt(c.sections, s.name);
      if at < |c.sections| {
        // The first clash decides the refusal's text.
        if taken == "" {
          taken := c.name + "." + s.name;
        }
        return;
      }
      c.sections := c.sections + [s];
      created := created + [s.name];
    }
  }

  // ---- adding a list of sections ----

  /** The sections `done` of `full` were added to `base`, or a name was taken (and then the
      whole list clashes, or another config's did). */
  ghost predicate Tracks(a: Adding, base: Config, before: seq<string>, done: seq<Section>, full: seq<Section>, other: bool) {
    && done <= full
    && if a.taken then other || Clash(base, full)
       else !other && a.sections == base + done && a.created == before + NamesOf(done) && !Clash(base, done)
  }

  lemma {:induction false} ClashGrows(base: Config, done: seq<Section>, full: seq<Section>)
    requires done <= full && Clash(base, done)
    ensures Clash(base, full)
  {
  }

  lemma {:induction false} ClashStep(base: Config, done: seq<Section>, s: Section)
    requires !Clash(base, done)
    ensures Clash(base, done + [s]) <==> HasName(base + done, s.name)
  {
    var more := done + [s];
    if HasName(base + done, s.name) {
      var i :| 0 <= i < |base + done| && (base + done)[i].name == s.name;
      if i < |base| {
        assert base[i].name == more[|done|].name;
      } else {
        assert more[i - |base|].name == more[|done|].name;
      }
    }
    if Clash(base, more) {
      if i, k :| 0 <= i < |base| && 0 <= k < |more| && base[i].name == more[k].name {
        assert k == |done|;
        assert (base + done)[i].name == s.name;
      } else {
        var j, k :| 0 <= j < k < |more| && more[j].name == more[k].name;
        assert k == |done|;
        assert (base + done)[|base| + j].name == s.name;
      }
    }
  }

  lemma {:induction false} AddTracks(a: Adding, s: Section, base: Config, before: seq<string>, done: seq<Section>, full: seq<Section>, other: bool)
    requires Tracks(a, base, before, done, full, other) && done + [s] <= full
    ensures Tracks(AddTo(a, s), base, before, done + [s], full, other)
  {
    if !a.taken {
      ClashStep(base, done, s);
      var at := SectionAt(a.sections, s.name);
      assert HasName(a.sections, s.name) <==> at < |a.sections|;
      if at < |a.sections| {
        ClashGrows(base, done + [s], full);
      } else {
        assert base + done + [s] == base + (done + [s]);
        assert before + NamesOf(done) + [s.name] == before + NamesOf(done + [s]);
      }
    }
  }

  // ---- undo ----

  method HasForeignVlan(n: Config, bridge: string, owned: set<string>) returns (found: bool)
    ensures found == CarriesForeignVlan(n, bridge, owned)
  {
    found := false;
    for i := 0 to |n|
      invariant !found
      invariant forall k | 0 <= k < i :: !(OnBridge(n[k], bridge) && n[k].name !in owned)
    {
      if OnBridge(n[i], bridge) && n[i].name !in owned {
        return true;
      }
    }
  }

  method DropOwned(c: ConfigFile, owned: set<string>)
    modifies c
    ensures c.sections == Drop(old(c.sections), owned)
  {
    var all := c.sections;
    var out: seq<Section> := [];
    assert all[0..] == all && [] + Drop(all, owned) == Drop(all, owned);
    assert Drop([], owned) == [];
    hide Drop;
    for i := 0 to |all|
      invariant c.sections == all
      invariant out + Drop(all[i..], owned) == Drop(all, owned)
    {
      DropCons(all[i], all[i + 1..], owned);
      assert [all[i]] + all[i + 1..] == all[i..];
      if all[i].anonymous || all[i].name !in owned {
        out := out + [all[i]];
      }
    }
    assert all[|all|..] == [] && out + [] == out;
    c.sections := out;
  }

  /** Restoring by name, in any order: each name is looked up and its section updated. */
  method RestoreDynInPlace(w: ConfigFile, dyn: map<string, string>)
    requires UniqueNames(w.sections)
    modifies w
    ensures w.sections == RestoreDynAll(old(w.sections), dyn)
  {
    var names := dyn.Keys;
    ghost var w0 := w.sections;
    while names != {}
      invariant names <= dyn.Keys
      invariant |w.sections| == |w0|
      invariant forall i | 0 <= i < |w0| ::
                  w.sections[i] == if w0[i].name in names then w0[i] else RestoreDyn(w0[i], dyn)
      decreases |names|
    {
      var name :| name in names;
      var at := SectionAt(w.sections, name);
      if at < |w.sections| {
        var s := w.sections[at];
        w.sections := w.sections[at := if dyn[name] == "" then s.Delete("dynamic_vlan") else s.Set("dynamic_vlan", Str(dyn[name]))];
      }
      names := names - {name};
    }
  }

  method MoveBackInPlace(n: ConfigFile, c: Conversion)
    requires UniqueNames(n.sections)
    modifies n
    ensures n.sections == MoveBackAll(old(n.sections), c)
  {
    var names := c.moved.Keys;
    ghost var n0 := n.sections;
    while names != {}
      invariant names <= c.moved.Keys
      invariant |n.sections| == |n0|
      invariant forall i | 0 <= i < |n0| ::
                  n.sections[i] == if n0[i].name in names then n0[i] else MoveBack(n0[i], c)
      decreases |names|
    {
      var name :| name in names;
      var at := SectionAt(n.sections, name);
      if at < |n.sections| && n.sections[at].Text("device") == Dotted(c.bridge, c.untagged) {
        n.sections := n.sections[at := n.sections[at].Set("device", Str(c.moved[name]))];
      }
      names := names - {name};
    }
  }

  method UndoInPlace(w: ConfigFile, n: ConfigFile, prev: Ledger) returns (kept: Option<Conversion>)
    requires w != n && UniqueNames(w.sections) && UniqueNames(n.sections)
    modifies w, n
    ensures Base(w.sections, n.sections, kept) == Undo(old(w.sections), old(n.sections), prev)
  {
    var owned := OwnedSet(prev, w.sections, n.sections);
    kept := None;
    if prev.converted.Some? {
      var foreign := HasForeignVlan(n.sections, prev.converted.value.bridge, owned);
      if foreign {
        kept := prev.converted;
        owned := owned - {BVU};
      }
    }
    DropLeaves(w.sections, owned);
    DropLeaves(n.sections, owned);
    DropOwned(w, owned);
    DropOwned(n, owned);
    RestoreDynInPlace(w, prev.dynamicVlan);
    if prev.converted.Some? && kept.None? {
      MoveBackInPlace(n, prev.converted.value);
    }
  }

  // ---- the conversion ----

  method PickUntagged(vids: seq<int>, bridge: string, prev: Option<Conversion>) returns (u: int)
    ensures u == UntaggedVlan(vids, bridge, prev)
  {
    var used := set v | v in vids;
    u := 1;
    if prev.Some? && prev.value.bridge == bridge && prev.value.untagged !in used {
      u := prev.value.untagged;
    }
    ghost var rest := used;
    while u in used
      invariant rest <= used && forall v | v >= u :: v in used <==> v in rest
      invariant NextFree(rest, u) == UntaggedVlan(vids, bridge, prev)
      decreases |rest|
    {
      rest := rest - {u};
      u := u + 1;
    }
  }

  /** The loop behind MovedFrom. */
  method MoveInPlace(n: ConfigFile, bridge: string, untagged: int, created: seq<string>) returns (moved: map<string, string>)
    requires forall i | 0 <= i < |n.sections| :: OnBareBridge(n.sections[i], bridge) ==> n.sections[i].name !in created
    modifies n
    ensures n.sections == MoveAll(old(n.sections), bridge, untagged) && moved == MovedFrom(old(n.sections), bridge)
  {
    moved := map[];
    ghost var n0 := n.sections;
    for i := 0 to |n.sections|
      invariant |n.sections| == |n0|
      invariant forall k | i <= k < |n0| :: n.sections[k] == n0[k]
      invariant forall k | 0 <= k < i :: n.sections[k] == Move(n0[k], bridge, untagged)
      invariant moved == MovedFrom(n0[..i], bridge)
    {
      var s := n.sections[i];
      assert n0[..i + 1] == n0[..i] + [s];
      MovedFromStep(n0[..i], s, bridge);
      if s.typ == "interface" && s.name !in created && s.Text("device") == bridge {
        moved := moved[s.name := bridge];
        n.sections := n.sections[i := s.Set("device", Str(Dotted(bridge, untagged)))];
      }
    }
    assert n0[..|n0|] == n0;
  }

  lemma {:induction false} MovedFromStep(n: Config, s: Section, bridge: string)
    ensures MovedFrom(n + [s], bridge) ==
            if OnBareBridge(s, bridge) then MovedFrom(n, bridge)[s.name := bridge] else MovedFrom(n, bridge)
  {
    BareNamesStep(n, s, bridge);
  }

  lemma {:induction false} BareNamesStep(n: Config, s: Section, bridge: string)
    ensures BareNames(n + [s], bridge) == BareNames(n, bridge) + if OnBareBridge(s, bridge) then {s.name} else {}
  {
    var more := n + [s];
    forall x | x in BareNames(n, bridge) ensures x in BareNames(more, bridge) {
      var i :| 0 <= i < |n| && OnBareBridge(n[i], bridge) && n[i].name == x;
      assert more[i] == n[i];
    }
    if OnBareBridge(s, bridge) {
      assert more[|n|] == s;
    }
  }

  /** In place: the refusals, then the entry of the untagged VLAN and the moves. */
  method Convert(p: Planner, n: ConfigFile, bridge: Section, vids: seq<int>, prev: Option<Conversion>)
      returns (res: Result<Conversion, Refusal>)
    requires p.created == [] && p.taken == ""
    modifies p, n
    ensures var name := bridge.Text("name");
            var n0 := old(n.sections);
            var u := UntaggedVlan(vids, name, prev);
            if u > 4094 then res == Err(NoUntaggedVlan)
            else if bridge.Items("ports") == [] then res == Err(BridgeEmpty)
            else
              var bvu := UntaggedSection(name, u, bridge.Items("ports"));
              res.Ok? &&
              if HasName(n0, BVU) then p.taken != ""
              else res == Ok(Conversion(name, u, MovedFrom(n0, name))) &&
                   p.On(n) == Adding(MoveAll(n0, name, u) + [bvu], [BVU], false)
  {
    var name := bridge.Text("name");
    var u := PickUntagged(vids, name, prev);
    if u > 4094 {
      return Err(NoUntaggedVlan);
    }
    var members := bridge.Items("ports");
    var ports: seq<string> := [];
    for i := 0 to |members|
      invariant ports == Untagged(members)[..i]
    {
      ports := ports + [members[i] + ":u*"];
    }
    assert Untagged(members)[..|members|] == Untagged(members);
    if ports == [] {
      return Err(BridgeEmpty);
    }
    ghost var n0 := n.sections;
    var bvu := Section(BVU, "bridge-vlan", false,
                       [Opt("device", Str(name)), Opt("vlan", Str(Itoa(u))), Opt("ports", List(ports))]);
    assert bvu == UntaggedSection(name, u, members);
    NothingNamedBvu(n0, bvu);
    p.Add(n, bvu);
    ghost var n1 := n.sections;
    var moved := MoveInPlace(n, name, u, p.created);
    res := Ok(Conversion(name, u, moved));
    if !HasName(n0, BVU) {
      assert n1 == n0 + [bvu];
      MovedFromStep(n0, bvu, name);
      assert MoveAll(n1, name, u) == MoveAll(n0, name, u) + [bvu];
    }
  }

  lemma {:induction false} NothingNamedBvu(n: Config, bvu: Section)
    requires bvu.name == BVU && bvu.typ == "bridge-vlan"
    ensures SectionAt(n, BVU) < |n| <==> HasName(n, BVU)
    ensures var a := AddTo(Adding(n, [], false), bvu);
            forall i | 0 <= i < |a.sections| :: a.sections[i].typ == "interface" ==> a.sections[i].name !in a.created
  {
  }

  // ---- the network side ----

  /** RouterVlan among the sections that were there before. */
  function RouterVlanOf(n: Config, bridge: string, vid: int, created: seq<string>): Option<Section> {
    if n == [] then None
    else if OnBridge(n[0], bridge) && n[0].Text("vlan") == Itoa(vid) && n[0].name !in created then Some(n[0])
    else RouterVlanOf(n[1..], bridge, vid, created)
  }

  lemma {:induction false} RouterVlanOfBase(base: Config, done: seq<Section>, bridge: string, vid: int, created: seq<string>)
    requires forall i | 0 <= i < |base| :: base[i].name !in created
    requires forall i | 0 <= i < |done| :: done[i].name in created
    ensures RouterVlanOf(base + done, bridge, vid, created) == RouterVlan(base, bridge, vid)
  {
    if base != [] {
      assert (base + done)[1..] == base[1..] + done;
      RouterVlanOfBase(base[1..], done, bridge, vid, created);
    } else if done != [] {
      assert base + done == done;
      assert (base + done[1..]) == done[1..];
      RouterVlanOfBase(base, done[1..], bridge, vid, created);
    }
  }

  lemma {:induction false} RouterVlanSame(a: Config, b: Config, bridge: string, vid: int)
    requires |a| == |b| && forall i | 0 <= i < |a| :: OnBridgeVlan(a[i]) || OnBridgeVlan(b[i]) ==> a[i] == b[i]
    ensures RouterVlan(a, bridge, vid) == RouterVlan(b, bridge, vid)
  {
    if a != [] {
      RouterVlanSame(a[1..], b[1..], bridge, vid);
    }
  }

  lemma {:induction false} NotTakenNames(base: Config, done: seq<Section>, created: seq<string>)
    requires !Clash(base, done) && created == NamesOf(done)
    ensures forall i | 0 <= i < |base| :: base[i].name !in created
    ensures forall i | 0 <= i < |done| :: done[i].name in created
  {
    forall i | 0 <= i < |done| ensures done[i].name in created {
      assert created[i] == done[i].name;
    }
  }

  lemma {:induction false} RouterVlanThere(base: Config, orig: Config, done: seq<Section>, bridge: string, vid: int)
    requires !Clash(base, done) && |base| == |orig|
    requires forall i | 0 <= i < |base| :: OnBridgeVlan(base[i]) || OnBridgeVlan(orig[i]) ==> base[i] == orig[i]
    ensures RouterVlanOf(base + done, bridge, vid, NamesOf(done)) == RouterVlan(orig, bridge, vid)
  {
    NotTakenNames(base, done, NamesOf(done));
    RouterVlanOfBase(base, done, bridge, vid, NamesOf(done));
    RouterVlanSame(base, orig, bridge, vid);
  }

  /** The network config while VLAN entries are added to it: `base` is what it held
      before this plan added anything, `orig` what it held before a conversion. */
  ghost predicate SameBridgeVlans(base: Config, orig: Config) {
    && |base| == |orig|
    && forall i | 0 <= i < |base| :: OnBridgeVlan(base[i]) || OnBridgeVlan(orig[i]) ==> base[i] == orig[i]
  }

  function EntryFor(orig: Config, bridge: string, v: int, port: string): seq<Section> {
    if RouterVlan(orig, bridge, v).Some? then [] else [BridgeVlanSection(bridge, v, port)]
  }

  /** One VLAN's entry on the bridge: added unless somebody else carries it already. */
  method AddBridgeVlan(p: Planner, n: ConfigFile, bridge: string, v: int, port: string,
                       ghost base: Config, ghost orig: Config, ghost done: seq<Section>, ghost full: seq<Section>)
      returns (issues: seq<Issue>)
    requires SameBridgeVlans(base, orig)
    requires Tracks(p.On(n), base, [], done, full, false) && done + EntryFor(orig, bridge, v, port) <= full
    modifies p, n
    ensures Tracks(p.On(n), base, [], done + EntryFor(orig, bridge, v, port), full, false)
    ensures p.taken == "" ==> old(p.taken) == "" && issues == CarriedIssue(orig, bridge, v, port)
  {
    issues := [];
    ghost var a := p.On(n);
    var found := RouterVlanOf(n.sections, bridge, v, p.created);
    if !a.taken {
      assert [] + NamesOf(done) == NamesOf(done);
      RouterVlanThere(base, orig, done, bridge, v);
    }
    if found.Some? {
      issues := [AlreadyCarried(v)];
      if !TaggedMember(found.value, port) {
        issues := issues + [NotTagged(v)];
      }
      assert !a.taken ==> done + EntryFor(orig, bridge, v, port) == done;
    } else {
      var s := Section(BridgeVlanName(v), "bridge-vlan", false,
                       [Opt("device", Str(bridge)), Opt("vlan", Str(Itoa(v))), Opt("ports", List([port + ":t"]))]);
      if EntryFor(orig, bridge, v, port) != [] {
        AddTracks(a, s, base, [], done, full, false);
      }
      p.Add(n, s);
    }
  }

  /** The bridge's VLAN entries, in the order of the VLANs. */
  method AddBridgeVlans(p: Planner, n: ConfigFile, bridge: string, vids: seq<int>, port: string,
                        ghost base: Config, ghost orig: Config, ghost first: seq<Section>, ghost full: seq<Section>)
      returns (issues: seq<Issue>)
    requires SameBridgeVlans(base, orig)
    requires Tracks(p.On(n), base, [], first, full, false)
    requires first + BridgeVlanSections(orig, bridge, vids, port) <= full
    modifies p, n
    ensures Tracks(p.On(n), base, [], first + BridgeVlanSections(orig, bridge, vids, port), full, false)
    ensures p.taken == "" ==> issues == CarriedIssues(orig, bridge, vids, port)
  {
    issues := [];
    ghost var done := first;
    ghost var goal := first + BridgeVlanSections(orig, bridge, vids, port);
    ghost var all := CarriedIssues(orig, bridge, vids, port);
    assert vids[0..] == vids && [] + all == all;
    hide Tracks, SameBridgeVlans, BridgeVlanSections, CarriedIssues, CarriedIssue, EntryFor;
    for i := 0 to |vids|
      invariant Tracks(p.On(n), base, [], done, full, false)
      invariant done + BridgeVlanSections(orig, bridge, vids[i..], port) == goal
      invariant p.taken == "" ==> issues + CarriedIssues(orig, bridge, vids[i..], port) == all
    {
      ghost var entry := EntryFor(orig, bridge, vids[i], port);
      ghost var rest := BridgeVlanSections(orig, bridge, vids[i + 1..], port);
      BridgeVlansStep(orig, bridge, vids, port, i);
      Assoc(done, entry, rest);
      Assoc(issues, CarriedIssue(orig, bridge, vids[i], port), CarriedIssues(orig, bridge, vids[i + 1..], port));
      PrefixOf(done + entry, rest, full);
      var more := AddBridgeVlan(p, n, bridge, vids[i], port, base, orig, done, full);
      issues := issues + more;
      done := done + entry;
    }
    BridgeVlansEnd(orig, bridge, vids[|vids|..], port);
    assert done + [] == done && issues + [] == issues;
  }

  lemma {:induction false} BridgeVlansStep(orig: Config, bridge: string, vids: seq<int>, port: string, i: nat)
    requires i < |vids|
    ensures BridgeVlanSections(orig, bridge, vids[i..], port) ==
            EntryFor(orig, bridge, vids[i], port) + BridgeVlanSections(orig, bridge, vids[i + 1..], port)
    ensures CarriedIssues(orig, bridge, vids[i..], port) ==
            CarriedIssue(orig, bridge, vids[i], port) + CarriedIssues(orig, bridge, vids[i + 1..], port)
  {
    hide CarriedIssue;
    assert vids[i..][1..] == vids[i + 1..];
  }

  lemma {:induction false} BridgeVlansEnd(orig: Config, bridge: string, vids: seq<int>, port: string)
    requires vids == []
    ensures BridgeVlanSections(orig, bridge, vids, port) == [] && CarriedIssues(orig, bridge, vids, port) == []
  {
  }

  lemma {:induction false} PrefixOf(a: seq<Section>, b: seq<Section>, full: seq<Section>)
    requires a + b <= full
    ensures a <= full
  {
  }

  method AddNetworks(p: Planner, n: ConfigFile, bridge: string, vids: seq<int>,
                     ghost base: Config, ghost first: seq<Section>, ghost full: seq<Section>)
    requires Tracks(p.On(n), base, [], first, full, false) && first + NetworkSections(bridge, vids) == full
    modifies p, n
    ensures Tracks(p.On(n), base, [], full, full, false)
  {
    ghost var done := first;
    for i := 0 to |vids|
      invariant Tracks(p.On(n), base, [], done, full, false)
      invariant done == first + NetworkSections(bridge, vids)[..i]
    {
      var s := Section(NetworkName(vids[i]), "interface", false,
                       [Opt("proto", Str("none")), Opt("device", Str(Dotted(bridge, vids[i])))]);
      assert done + [s] == first + NetworkSections(bridge, vids)[..i + 1];
      AddTracks(p.On(n), s, base, [], done, full, false);
      p.Add(n, s);
      done := done + [s];
    }
    assert NetworkSections(bridge, vids)[..|vids|] == NetworkSections(bridge, vids);
  }

  /** Three sections for one VLAN of a port without a bridge. */
  method AddStandaloneVlan(p: Planner, n: ConfigFile, port: string, v: int,
                           ghost base: Config, ghost done: seq<Section>, ghost full: seq<Section>)
    requires Tracks(p.On(n), base, [], done, full, false)
    requires done + [VlanDeviceSection(port, v), VlanBridgeSection(port, v), NetworkSection(v, PerVlanBridge(v))] <= full
    modifies p, n
    ensures Tracks(p.On(n), base, [],
                   done + [VlanDeviceSection(port, v), VlanBridgeSection(port, v), NetworkSection(v, PerVlanBridge(v))], full, false)
  {
    var vdev := Dotted(port, v);
    var dev := Section(VlanDeviceName(v), "device", false,
                       [Opt("type", Str("8021q")), Opt("ifname", Str(port)), Opt("vid", Str(Itoa(v))), Opt("name", Str(vdev))]);
    var br := Section(VlanBridgeName(v), "device", false,
                      [Opt("type", Str("bridge")), Opt("name", Str(PerVlanBridge(v))), Opt("ports", List([vdev]))]);
    var net := Section(NetworkName(v), "interface", false, [Opt("proto", Str("none")), Opt("device", Str(PerVlanBridge(v)))]);
    assert done + [dev] + [br] + [net] == done + [dev, br, net];
    AddTracks(p.On(n), dev, base, [], done, full, false);
    p.Add(n, dev);
    AddTracks(p.On(n), br, base, [], done + [dev], full, false);
    p.Add(n, br);
    AddTracks(p.On(n), net, base, [], done + [dev] + [br], full, false);
    p.Add(n, net);
  }

  method AddStandalone(p: Planner, n: ConfigFile, port: string, vids: seq<int>, ghost base: Config)
    requires Tracks(p.On(n), base, [], [], StandaloneSections(port, vids), false)
    modifies p, n
    ensures Tracks(p.On(n), base, [], StandaloneSections(port, vids), StandaloneSections(port, vids), false)
  {
    ghost var full := StandaloneSections(port, vids);
    ghost var done: seq<Section> := [];
    assert vids[0..] == vids && [] + full == full;
    hide Tracks, StandaloneSections, VlanDeviceSection, VlanBridgeSection, NetworkSection;
    for i := 0 to |vids|
      invariant Tracks(p.On(n), base, [], done, full, false)
      invariant done + StandaloneSections(port, vids[i..]) == full
    {
      var v := vids[i];
      ghost var three := [VlanDeviceSection(port, v), VlanBridgeSection(port, v), NetworkSection(v, PerVlanBridge(v))];
      StandaloneStep(port, vids, i, done);
      PrefixOf(done + three, StandaloneSections(port, vids[i + 1..]), full);
      AddStandaloneVlan(p, n, port, v, base, done, full);
      done := done + three;
    }
    StandaloneEnd(port, vids[|vids|..], done);
  }

  lemma {:induction false} StandaloneStep(port: string, vids: seq<int>, i: nat, done: seq<Section>)
    requires i < |vids|
    ensures var three := [VlanDeviceSection(port, vids[i]), VlanBridgeSection(port, vids[i]), NetworkSection(vids[i], PerVlanBridge(vids[i]))];
            done + StandaloneSections(port, vids[i..]) == done + three + StandaloneSections(port, vids[i + 1..])
  {
    hide VlanDeviceSection, VlanBridgeSection, NetworkSection;
    assert vids[i..][1..] == vids[i + 1..];
  }

  lemma {:induction false} StandaloneEnd(port: string, vids: seq<int>, done: seq<Section>)
    requires vids == []
    ensures done + StandaloneSections(port, vids) == done
  {
  }

  // ---- the wireless side ----

  method JudgeIface(s: Section, ssids: seq<string>) returns (managed: seq<Iface>, issues: seq<Issue>)
    ensures managed == OneIface(s, ssids)
    ensures issues == IfaceIssue(s, ssids)
  {
    managed, issues := [], [];
    if s.typ == "wifi-iface" && s.Text("mode") == "ap" && s.Text("ssid") in ssids && s.Text("disabled") != "1" {
      if !PskEncryption(s.Text("encryption")) {
        issues := [NoPassphrase(s.name)];
        return;
      }
      if s.anonymous {
        issues := [AnonymousSection(s.name)];
      }
      managed := [Iface(s.name, s.Text("key"))];
    }
  }

  method FindManaged(w: Config, ssids: seq<string>) returns (managed: seq<Iface>, issues: seq<Issue>)
    ensures managed == ManagedIfaces(w, ssids) && issues == IfaceIssues(w, ssids)
  {
    managed, issues := [], [];
    assert w[0..] == w && [] + ManagedIfaces(w, ssids) == ManagedIfaces(w, ssids) && [] + IfaceIssues(w, ssids) == IfaceIssues(w, ssids);
    hide ManagedIfaces, IfaceIssues, OneIface, IfaceIssue;
    for i := 0 to |w|
      invariant managed + ManagedIfaces(w[i..], ssids) == ManagedIfaces(w, ssids)
      invariant issues + IfaceIssues(w[i..], ssids) == IfaceIssues(w, ssids)
    {
      var one, issue := JudgeIface(w[i], ssids);
      ManagedStep(w, ssids, i, managed, issues);
      managed := managed + one;
      issues := issues + issue;
    }
    ManagedEnd(w[|w|..], ssids);
    assert managed + [] == managed && issues + [] == issues;
  }

  lemma {:induction false} ManagedStep(w: Config, ssids: seq<string>, i: nat, managed: seq<Iface>, issues: seq<Issue>)
    requires i < |w|
    ensures managed + ManagedIfaces(w[i..], ssids) == managed + OneIface(w[i], ssids) + ManagedIfaces(w[i + 1..], ssids)
    ensures issues + IfaceIssues(w[i..], ssids) == issues + IfaceIssue(w[i], ssids) + IfaceIssues(w[i + 1..], ssids)
  {
    hide OneIface, IfaceIssue;
    assert w[i..][1..] == w[i + 1..];
  }

  lemma {:induction false} ManagedEnd(w: Config, ssids: seq<string>)
    requires w == []
    ensures ManagedIfaces(w, ssids) == [] && IfaceIssues(w, ssids) == []
  {
  }

  lemma {:induction false} IfaceNamesStep(managed: seq<Iface>, m: Iface)
    ensures IfaceNames(managed + [m]) == IfaceNames(managed) + {m.name}
  {
    var more := managed + [m];
    forall x | x in IfaceNames(managed) + {m.name} ensures x in IfaceNames(more) {
      if x in IfaceNames(managed) {
        var i :| 0 <= i < |managed| && managed[i].name == x;
        assert more[i].name == x;
      } else {
        assert more[|managed|].name == x;
      }
    }
  }

  lemma {:induction false} DynBeforeStep(w: Config, managed: seq<Iface>, m: Iface)
    requires SectionAt(w, m.name) < |w|
    ensures w[SectionAt(w, m.name)].Text("dynamic_vlan") == "1" ==> DynBefore(w, managed + [m]) == DynBefore(w, managed)
    ensures w[SectionAt(w, m.name)].Text("dynamic_vlan") != "1" ==>
              DynBefore(w, managed + [m]) == DynBefore(w, managed)[m.name := w[SectionAt(w, m.name)].Text("dynamic_vlan")]
  {
    IfaceNamesStep(managed, m);
    hide SectionAt, GetOpt, IfaceNames;
    var was := w[SectionAt(w, m.name)].Text("dynamic_vlan");
    var more, dyn := DynBefore(w, managed + [m]), DynBefore(w, managed);
    if was == "1" {
      assert more.Keys == dyn.Keys;
    } else {
      assert more.Keys == dyn.Keys + {m.name};
    }
  }

  /** The loop that marks interfaces and fills the ledger's `dyn`. */
  method MarkDynInPlace(w: ConfigFile, managed: seq<Iface>) returns (dyn: map<string, string>)
    requires UniqueNames(w.sections)
    requires forall k | 0 <= k < |managed| :: SectionAt(w.sections, managed[k].name) < |w.sections|
    modifies w
    ensures w.sections == MarkDynAll(old(w.sections), IfaceNames(managed))
    ensures dyn == DynBefore(old(w.sections), managed)
  {
    dyn := map[];
    ghost var w0 := w.sections;
    for k := 0 to |managed|
      invariant |w.sections| == |w0|
      invariant forall i | 0 <= i < |w0| :: w.sections[i] == MarkDyn(w0[i], IfaceNames(managed[..k]))
      invariant dyn == DynBefore(w0, managed[..k])
    {
      var m := managed[k];
      assert managed[..k + 1] == managed[..k] + [m];
      IfaceNamesStep(managed[..k], m);
      DynBeforeStep(w0, managed[..k], m);
      ghost var at0 := SectionAt(w0, m.name);
      SameNamesSameAt(w0, w.sections, m.name);
      var at := SectionAt(w.sections, m.name);
      var s := w.sections[at];
      var was := s.Text("dynamic_vlan");
      MarkedAlready(w0[at0], IfaceNames(managed[..k]));
      if was != "1" {
        dyn := dyn[m.name := was];
        w.sections := w.sections[at := s.Set("dynamic_vlan", Str("1"))];
      }
      MarkOthers(w0, at0, IfaceNames(managed[..k]), m.name);
    }
    assert managed[..|managed|] == managed;
  }

  lemma {:induction false} SameNamesSameAt(a: Config, b: Config, name: string)
    requires |a| == |b| && forall i | 0 <= i < |a| :: a[i].name == b[i].name
    ensures SectionAt(a, name) == SectionAt(b, name)
  {
    var i, j := SectionAt(a, name), SectionAt(b, name);
    assert i < |a| ==> b[i].name == name;
    assert j < |b| ==> a[j].name == name;
  }

  lemma {:induction false} MarkedAlready(s: Section, names: set<string>)
    ensures MarkDyn(s, names).name == s.name
    ensures MarkDyn(s, names).Text("dynamic_vlan") == if s.name in names then "1" else s.Text("dynamic_vlan")
    ensures MarkDyn(s, names).Text("dynamic_vlan") != "1" ==> MarkDyn(s, names) == s
  {
    GetAfterSet(s.options, "dynamic_vlan", Str("1"), "dynamic_vlan");
  }

  /** Marking one more name touches only its section, and that once. */
  lemma {:induction false} MarkOthers(w: Config, at: nat, names: set<string>, name: string)
    requires UniqueNames(w) && at < |w| && w[at].name == name
    ensures forall i | 0 <= i < |w| && i != at :: MarkDyn(w[i], names + {name}) == MarkDyn(w[i], names)
    ensures MarkDyn(w[at], names + {name}) ==
            if MarkDyn(w[at], names).Text("dynamic_vlan") != "1"
            then w[at].Set("dynamic_vlan", Str("1")) else MarkDyn(w[at], names)
  {
    MarkedAlready(w[at], names);
    forall i | 0 <= i < |w| && i != at ensures w[i].name != name {
      if i < at { assert w[i].name != w[at].name; } else { assert w[at].name != w[i].name; }
    }
  }

  method AddWifiVlansOn(p: Planner, w: ConfigFile, iface: string, vids: seq<int>, ghost first: seq<Section>,
                        ghost base: Config, ghost before: seq<string>, ghost full: seq<Section>, ghost other: bool)
    requires Tracks(p.On(w), base, before, first, full, other) && first + WifiVlansOf(iface, vids) <= full
    modifies p, w
    ensures Tracks(p.On(w), base, before, first + WifiVlansOf(iface, vids), full, other)
  {
    ghost var done := first;
    ghost var part := WifiVlansOf(iface, vids);
    for j := 0 to |vids|
      invariant done == first + part[..j]
      invariant Tracks(p.On(w), base, before, done, full, other)
    {
      var v := vids[j];
      var s := Section(WifiVlanName(v, iface), "wifi-vlan", false,
                       [Opt("iface", Str(iface)), Opt("name", Str("g" + Itoa(v))), Opt("vid", Str(Itoa(v))),
                        Opt("network", Str(NetworkName(v)))]);
      assert part[..j + 1] == part[..j] + [s];
      assert done + [s] == first + part[..j + 1] <= first + part;
      AddTracks(p.On(w), s, base, before, done, full, other);
      p.Add(w, s);
      done := done + [s];
    }
    assert part[..|vids|] == part;
  }

  method AddWifiVlans(p: Planner, w: ConfigFile, managed: seq<Iface>, vids: seq<int>,
                      ghost base: Config, ghost before: seq<string>, ghost full: seq<Section>, ghost other: bool)
    requires Tracks(p.On(w), base, before, [], full, other) && WifiVlanSections(managed, vids) <= full
    modifies p, w
    ensures Tracks(p.On(w), base, before, WifiVlanSections(managed, vids), full, other)
  {
    ghost var done: seq<Section> := [];
    ghost var goal := WifiVlanSections(managed, vids);
    assert managed[0..] == managed && [] + goal == goal;
    hide Tracks, WifiVlanSections, WifiVlansOf;
    for i := 0 to |managed|
      invariant Tracks(p.On(w), base, before, done, full, other)
      invariant done + WifiVlanSections(managed[i..], vids) == goal
    {
      ghost var part := WifiVlansOf(managed[i].name, vids);
      ghost var rest := WifiVlanSections(managed[i + 1..], vids);
      WifiVlansStep(managed, vids, i);
      Assoc(done, part, rest);
      PrefixOf(done + part, rest, full);
      AddWifiVlansOn(p, w, managed[i].name, vids, done, base, before, full, other);
      done := done + part;
    }
    WifiVlansEnd(managed[|managed|..], vids);
    assert done + [] == done;
  }

  lemma {:induction false} WifiVlansStep(managed: seq<Iface>, vids: seq<int>, i: nat)
    requires i < |managed|
    ensures WifiVlanSections(managed[i..], vids) == WifiVlansOf(managed[i].name, vids) + WifiVlanSections(managed[i + 1..], vids)
  {
    hide WifiVlansOf;
    assert managed[i..][1..] == managed[i + 1..];
  }

  lemma {:induction false} WifiVlansEnd(managed: seq<Iface>, vids: seq<int>)
    requires managed == []
    ensures WifiVlanSections(managed, vids) == []
  {
  }

  // ---- stations ----

  /** The stations emitted so far are named and added in order. */
  ghost predicate StationTracks(a: Adding, base: Config, before: seq<string>, wv: seq<Section>,
                                emitted: seq<Entry>, all: seq<Entry>, other: bool) {
    && emitted <= all
    && Tracks(a, base, before, wv + StationSectionsFrom(emitted, 0), wv + StationSectionsFrom(all, 0), other)
  }

  lemma {:induction false} OneMoreStation(emitted: seq<Entry>, e: Entry, all: seq<Entry>)
    requires emitted + [e] <= all
    ensures StationSectionsFrom(emitted + [e], 0) == StationSectionsFrom(emitted, 0) + [StationSection(|emitted|, e)]
    ensures StationSectionsFrom(emitted + [e], 0) <= StationSectionsFrom(all, 0)
  {
    hide StationSection;
  }

  method AddStation(p: Planner, w: ConfigFile, e: Entry, idx: nat, ghost base: Config, ghost before: seq<string>,
                    ghost wv: seq<Section>, ghost emitted: seq<Entry>, ghost all: seq<Entry>, ghost other: bool)
    requires StationTracks(p.On(w), base, before, wv, emitted, all, other)
    requires idx == |emitted| && emitted + [e] <= all
    modifies p, w
    ensures StationTracks(p.On(w), base, before, wv, emitted + [e], all, other)
  {
    var opts := [Opt("iface", Str(e.iface)), Opt("key", Str(e.key)), Opt("vid", Str(Itoa(e.vid)))];
    var withMac := if e.mac == "" then opts else opts + [Opt("mac", Str(e.mac))];
    var s := Section(StationName(idx), "wifi-station", false, withMac);
    assert s == StationSection(idx, e);
    hide Tracks, StationSection, StationSectionsFrom;
    ghost var done := wv + StationSectionsFrom(emitted, 0);
    OneMoreStation(emitted, e, all);
    assert done + [s] == wv + StationSectionsFrom(emitted + [e], 0);
    assert wv + StationSectionsFrom(emitted + [e], 0) <= wv + StationSectionsFrom(all, 0);
    AddTracks(p.On(w), s, base, before, done, wv + StationSectionsFrom(all, 0), other);
    p.Add(w, s);
  }

  /** One station on one managed interface. */
  method AddStationOn(p: Planner, w: ConfigFile, st: Station, macs: seq<string>, m: Iface, idx: nat, keys: seq<string>,
                      ghost base: Config, ghost before: seq<string>, ghost wv: seq<Section>,
                      ghost emitted: seq<Entry>, ghost all: seq<Entry>, ghost other: bool)
      returns (next: nat, issues: seq<Issue>, keys': seq<string>)
    requires macs == SortStrings(st.macs) && "" !in macs
    requires StationTracks(p.On(w), base, before, wv, emitted, all, other)
    requires idx == |emitted| && emitted + EntriesFor(st, m) <= all
    modifies p, w
    ensures StationTracks(p.On(w), base, before, wv, emitted + EntriesFor(st, m), all, other)
    ensures next == idx + |EntriesFor(st, m)| && issues == StationIssue(st, m) && keys' == BindingKey(keys, st, m)
  {
    next, issues, keys' := idx, [], keys;
    var key := st.key;
    if key != "" && key == m.key {
      assert emitted + [] == emitted;
      issues := [KeyEqualsOwn(m.name)];
      return;
    }
    if key == "" {
      key := m.key;
      if !ValidKey(key) {
        assert emitted + [] == emitted;
        issues := [NoUsableKey(m.name)];
        return;
      }
      keys' := AppendUnique(keys, key);
    }
    assert StationKey(st, m) == Ok(key);
    if macs == [] {
      AddStation(p, w, Entry(m.name, key, st.vid, ""), idx, base, before, wv, emitted, all, other);
      next := idx + 1;
      return;
    }
    next := AddStationMacs(p, w, m.name, key, st.vid, macs, idx, base, before, wv, emitted, all, other, EntriesFor(st, m));
  }

  /** The inner loop, over a station's addresses. */
  method AddStationMacs(p: Planner, w: ConfigFile, iface: string, key: string, vid: int, macs: seq<string>, idx: nat,
                        ghost base: Config, ghost before: seq<string>, ghost wv: seq<Section>,
                        ghost emitted: seq<Entry>, ghost all: seq<Entry>, ghost other: bool, ghost part: seq<Entry>)
      returns (next: nat)
    requires |part| == |macs| && forall i | 0 <= i < |macs| :: part[i] == Entry(iface, key, vid, macs[i])
    requires StationTracks(p.On(w), base, before, wv, emitted, all, other)
    requires idx == |emitted| && emitted + part <= all
    modifies p, w
    ensures StationTracks(p.On(w), base, before, wv, emitted + part, all, other)
    ensures next == idx + |part|
  {
    hide StationTracks;
    next := idx;
    assert part[..0] == [] && emitted + [] == emitted;
    for i := 0 to |macs|
      invariant next == idx + i
      invariant StationTracks(p.On(w), base, before, wv, emitted + part[..i], all, other)
    {
      var e := Entry(iface, key, vid, macs[i]);
      assert part[..i + 1] == part[..i] + [e];
      assert emitted + part[..i] + [e] == emitted + part[..i + 1] <= emitted + part;
      AddStation(p, w, e, next, base, before, wv, emitted + part[..i], all, other);
      next := next + 1;
    }
    assert part[..|macs|] == part;
  }

  lemma {:induction false} SortedMacs(st: Station, vlans: seq<int>)
    requires ValidStation(st, vlans)
    ensures "" !in SortStrings(st.macs)
  {
    StringLeqTotal();
    SortSorts(StringLeq, st.macs);
    assert !ValidMac("");
    assert forall m | m in SortStrings(st.macs) :: m in multiset(SortStrings(st.macs));
  }

  lemma {:induction false} EntriesPrefix(a: seq<Entry>, b: seq<Entry>, all: seq<Entry>)
    requires a + b == all
    ensures a <= all
  {
  }

  /** One station on every managed interface. */
  method AddStationEverywhere(p: Planner, w: ConfigFile, st: Station, managed: seq<Iface>, idx: nat, keys: seq<string>,
                              ghost vlans: seq<int>, ghost base: Config, ghost before: seq<string>, ghost wv: seq<Section>,
                              ghost emitted: seq<Entry>, ghost all: seq<Entry>, ghost other: bool)
      returns (next: nat, issues: seq<Issue>, keys': seq<string>)
    requires ValidStation(st, vlans)
    requires StationTracks(p.On(w), base, before, wv, emitted, all, other)
    requires idx == |emitted| && emitted + EntriesOf(st, managed) <= all
    modifies p, w
    ensures StationTracks(p.On(w), base, before, wv, emitted + EntriesOf(st, managed), all, other)
    ensures next == idx + |EntriesOf(st, managed)|
    ensures issues == StationIssuesOf(st, managed) && keys' == BindingKeysOf(keys, st, managed)
  {
    var macs := SortStrings(st.macs);
    SortedMacs(st, vlans);
    hide ValidStation;
    next, issues, keys' := idx, [], keys;
    ghost var now := emitted;
    ghost var goal := emitted + EntriesOf(st, managed);
    assert managed[0..] == managed && [] + StationIssuesOf(st, managed) == StationIssuesOf(st, managed);
    hide StationTracks, EntriesFor, EntriesOf, StationIssue, StationIssuesOf, BindingKey, BindingKeysOf, SortStrings;
    for j := 0 to |managed|
      invariant next == |now| && now + EntriesOf(st, managed[j..]) == goal
      invariant StationTracks(p.On(w), base, before, wv, now, all, other)
      invariant issues + StationIssuesOf(st, managed[j..]) == StationIssuesOf(st, managed)
      invariant BindingKeysOf(keys', st, managed[j..]) == BindingKeysOf(keys, st, managed)
    {
      ghost var part, rest := EntriesFor(st, managed[j]), EntriesOf(st, managed[j + 1..]);
      EverywhereStep(st, managed, j, keys');
      Assoc(now, part, rest);
      EntriesPrefix(now + part, rest, goal);
      Assoc(issues, StationIssue(st, managed[j]), StationIssuesOf(st, managed[j + 1..]));
      var more;
      next, more, keys' := AddStationOn(p, w, st, macs, managed[j], next, keys', base, before, wv, now, all, other);
      issues := issues + more;
      now := now + part;
    }
    EverywhereEnd(st, managed[|managed|..], keys');
    assert now + [] == now && issues + [] == issues;
  }

  lemma {:induction false} EverywhereStep(st: Station, managed: seq<Iface>, j: nat, keys: seq<string>)
    requires j < |managed|
    ensures EntriesOf(st, managed[j..]) == EntriesFor(st, managed[j]) + EntriesOf(st, managed[j + 1..])
    ensures StationIssuesOf(st, managed[j..]) == StationIssue(st, managed[j]) + StationIssuesOf(st, managed[j + 1..])
    ensures BindingKeysOf(keys, st, managed[j..]) == BindingKeysOf(BindingKey(keys, st, managed[j]), st, managed[j + 1..])
  {
    hide EntriesFor, StationIssue, BindingKey;
    assert managed[j..][1..] == managed[j + 1..];
  }

  lemma {:induction false} EverywhereEnd(st: Station, managed: seq<Iface>, keys: seq<string>)
    requires managed == []
    ensures EntriesOf(st, managed) == [] && StationIssuesOf(st, managed) == [] && BindingKeysOf(keys, st, managed) == keys
  {
  }

  method AddStations(p: Planner, w: ConfigFile, d: Desired, managed: seq<Iface>,
                     ghost base: Config, ghost before: seq<string>, ghost wv: seq<Section>, ghost other: bool)
      returns (issues: seq<Issue>, keys: seq<string>)
    requires Valid(d)
    requires Tracks(p.On(w), base, before, wv, wv + StationSectionsFrom(Entries(d.stations, managed), 0), other)
    modifies p, w
    ensures Tracks(p.On(w), base, before, wv + StationSectionsFrom(Entries(d.stations, managed), 0),
                   wv + StationSectionsFrom(Entries(d.stations, managed), 0), other)
    ensures issues == StationIssues(d.stations, managed) && keys == BindingKeys([], d.stations, managed)
  {
    hide Tracks, Valid, ValidStation, StationTracks, StationSectionsFrom, EntriesOf, Entries, StationIssuesOf, StationIssues, BindingKeysOf, BindingKeys;
    issues, keys := [], [];
    var idx: nat := 0;
    ghost var all := Entries(d.stations, managed);
    ghost var allIssues, allKeys := StationIssues(d.stations, managed), BindingKeys([], d.stations, managed);
    ghost var now: seq<Entry> := [];
    StationsStart(p.On(w), base, before, wv, all, other);
    assert d.stations[0..] == d.stations && [] + all == all && [] + allIssues == allIssues;
    for i := 0 to |d.stations|
      invariant idx == |now| && now + Entries(d.stations[i..], managed) == all
      invariant StationTracks(p.On(w), base, before, wv, now, all, other)
      invariant issues + StationIssues(d.stations[i..], managed) == allIssues
      invariant BindingKeys(keys, d.stations[i..], managed) == allKeys
    {
      ghost var part, rest := EntriesOf(d.stations[i], managed), Entries(d.stations[i + 1..], managed);
      StationsStep(d.stations, managed, i, keys);
      StationOfValid(d, i);
      Assoc(now, part, rest);
      EntriesPrefix(now + part, rest, all);
      Assoc(issues, StationIssuesOf(d.stations[i], managed), StationIssues(d.stations[i + 1..], managed));
      var more;
      idx, more, keys := AddStationEverywhere(p, w, d.stations[i], managed, idx, keys, d.vlans, base, before, wv, now, all, other);
      issues := issues + more;
      now := now + part;
    }
    StationsEnd(d.stations[|d.stations|..], managed, keys);
    assert now + [] == now && issues + [] == issues;
    StationsDone(p.On(w), base, before, wv, all, other);
  }

  lemma {:induction false} StationsStart(a: Adding, base: Config, before: seq<string>, wv: seq<Section>, all: seq<Entry>, other: bool)
    requires Tracks(a, base, before, wv, wv + StationSectionsFrom(all, 0), other)
    ensures StationTracks(a, base, before, wv, [], all, other)
  {
    assert wv + StationSectionsFrom([], 0) == wv;
    hide Tracks, StationSectionsFrom;
  }

  lemma {:induction false} StationOfValid(d: Desired, i: nat)
    requires Valid(d) && i < |d.stations|
    ensures ValidStation(d.stations[i], d.vlans)
  {
  }

  lemma {:induction false} StationsStep(stations: seq<Station>, managed: seq<Iface>, i: nat, keys: seq<string>)
    requires i < |stations|
    ensures Entries(stations[i..], managed) == EntriesOf(stations[i], managed) + Entries(stations[i + 1..], managed)
    ensures StationIssues(stations[i..], managed) == StationIssuesOf(stations[i], managed) + StationIssues(stations[i + 1..], managed)
    ensures BindingKeys(keys, stations[i..], managed) == BindingKeys(BindingKeysOf(keys, stations[i], managed), stations[i + 1..], managed)
  {
    hide EntriesOf, StationIssuesOf, BindingKeysOf;
    assert stations[i..][1..] == stations[i + 1..];
  }

  lemma {:induction false} StationsEnd(stations: seq<Station>, managed: seq<Iface>, keys: seq<string>)
    requires stations == []
    ensures Entries(stations, managed) == [] && StationIssues(stations, managed) == [] && BindingKeys(keys, stations, managed) == keys
  {
  }

  lemma {:induction false} StationsDone(a: Adding, base: Config, before: seq<string>, wv: seq<Section>, all: seq<Entry>, other: bool)
    requires StationTracks(a, base, before, wv, all, all, other)
    ensures Tracks(a, base, before, wv + StationSectionsFrom(all, 0), wv + StationSectionsFrom(all, 0), other)
  {
    hide Tracks, StationSectionsFrom;
  }

  // ---- the plan ----

  lemma {:induction false} ManagedThere(w: Config, ssids: seq<string>)
    ensures forall k | 0 <= k < |ManagedIfaces(w, ssids)| :: SectionAt(w, ManagedIfaces(w, ssids)[k].name) < |w|
  {
    forall k: nat | k < |ManagedIfaces(w, ssids)| ensures SectionAt(w, ManagedIfaces(w, ssids)[k].name) < |w| {
      var i := ManagedFrom(w, ssids, k);
      assert w[i].name == ManagedIfaces(w, ssids)[k].name;
    }
  }

  /** A conversion as the first addition to the network config. */
  method ConvertFirst(p: Planner, n: ConfigFile, bridge: Section, vids: seq<int>, prev: Option<Conversion>,
                      ghost rest: seq<Section>)
      returns (res: Result<Conversion, Refusal>)
    requires p.created == [] && p.taken == ""
    modifies p, n
    ensures var name := bridge.Text("name");
            var u := UntaggedVlan(vids, name, prev);
            var ports := bridge.Items("ports");
            var first := [UntaggedSection(name, u, ports)];
            if u > 4094 then res == Err(NoUntaggedVlan)
            else if ports == [] then res == Err(BridgeEmpty)
            else
              && Tracks(p.On(n), MoveAll(old(n.sections), name, u), [], first, first + rest, false)
              && res.Ok?
              && (p.taken == "" ==> res.value == Conversion(name, u, MovedFrom(old(n.sections), name)))
  {
    ghost var n0 := n.sections;
    ghost var name := bridge.Text("name");
    ghost var u := UntaggedVlan(vids, name, prev);
    res := Convert(p, n, bridge, vids, prev);
    if res.Ok? {
      BvuAdded(p.On(n), n0, MoveAll(n0, name, u), [UntaggedSection(name, u, bridge.Items("ports"))], rest);
    }
  }

  /** The VLAN entries and interfaces on a filtering bridge. */
  method AddOnBridge(p: Planner, n: ConfigFile, bridge: string, vids: seq<int>, port: string,
                     ghost start: Config, ghost orig: Config, ghost first: seq<Section>)
      returns (issues: seq<Issue>)
    requires SameBridgeVlans(start, orig)
    requires Tracks(p.On(n), start, [], first, first + OnBridgeSections(orig, bridge, vids, port), false)
    modifies p, n
    ensures Tracks(p.On(n), start, [], first + OnBridgeSections(orig, bridge, vids, port),
                   first + OnBridgeSections(orig, bridge, vids, port), false)
    ensures p.taken == "" ==> issues == CarriedIssues(orig, bridge, vids, port)
  {
    ghost var bvs, ifs := BridgeVlanSections(orig, bridge, vids, port), NetworkSections(bridge, vids);
    ghost var full := first + OnBridgeSections(orig, bridge, vids, port);
    assert first + bvs + ifs == full;
    PrefixOf(first + bvs, ifs, full);
    issues := AddBridgeVlans(p, n, bridge, vids, port, start, orig, first, full);
    ghost var free := p.taken == "";
    AddNetworks(p, n, bridge, vids, start, first + bvs, full);
    assert p.taken == "" ==> free;
  }

  function OnBridgeSections(orig: Config, bridge: string, vids: seq<int>, port: string): seq<Section> {
    BridgeVlanSections(orig, bridge, vids, port) + NetworkSections(bridge, vids)
  }

  /** What a method's network side must come to. */
  ghost predicate NetDone(a: Adding, net: NetPlan, converted: Option<Conversion>, bridge: string, issues: seq<Issue>) {
    && Tracks(a, net.n, [], net.adds, net.adds, false)
    && (!a.taken ==> converted == net.converted && bridge == net.bridge && issues == net.issues)
  }

  /** Convert an untagged bridge and put the VLANs on it. */
  method PlanConversion(p: Planner, n: ConfigFile, found: Section, port: string, vids: seq<int>,
                        prev: Option<Conversion>, ghost w: Config)
      returns (res: Result<(Option<Conversion>, string, seq<Issue>), Refusal>)
    requires p.created == [] && p.taken == ""
    requires BridgeOf(n.sections, port) == Some(found) && !HasBridgeVlans(n.sections, found.Text("name"))
    modifies p, n
    ensures match PlanNetwork(Base(w, old(n.sections), None), port, vids, prev)
            case Err(e) => res == Err(e)
            case Ok(net) => res.Ok? && NetDone(p.On(n), net, res.value.0, res.value.1, res.value.2)
  {
    ghost var n0 := n.sections;
    var bridge := found.Text("name");
    ghost var u := UntaggedVlan(vids, bridge, prev);
    ghost var start := MoveAll(n0, bridge, u);
    ghost var first := [UntaggedSection(bridge, u, found.Items("ports"))];
    var conv := ConvertFirst(p, n, found, vids, prev, OnBridgeSections(n0, bridge, vids, port));
    if conv.Err? {
      return Err(conv.error);
    }
    ghost var free := p.taken == "";
    NoCarriedIssues(n0, bridge, vids, port);
    var issues := AddOnBridge(p, n, bridge, vids, port, start, n0, first);
    assert p.taken == "" ==> free;
    res := Ok((Some(conv.value), bridge, issues));
  }

  /** The network side of the plan: everything the trunk needs for the VLANs. */
  method PlanNetworkInPlace(p: Planner, n: ConfigFile, port: string, vids: seq<int>,
                            kept: Option<Conversion>, prev: Option<Conversion>, ghost w: Config)
      returns (res: Result<(Option<Conversion>, string, seq<Issue>), Refusal>)
    requires p.created == [] && p.taken == ""
    modifies p, n
    ensures match PlanNetwork(Base(w, old(n.sections), kept), port, vids, prev)
            case Err(e) => res == Err(e)
            case Ok(net) => res.Ok? && NetDone(p.On(n), net, res.value.0, res.value.1, res.value.2)
  {
    ghost var n0 := n.sections;
    assert n0 + [] == n0;
    var found := BridgeOf(n.sections, port);
    if found.None? {
      AddStandalone(p, n, port, vids, n0);
      return Ok((kept, if kept.Some? then kept.value.bridge else "", []));
    }
    var bridge := found.value.Text("name");
    if kept.Some? && kept.value.bridge == bridge {
      if kept.value.untagged in vids {
        return Err(UntaggedVlanConflict);
      }
    } else if !HasBridgeVlans(n.sections, bridge) {
      if kept.Some? {
        return Err(ConversionConflict);
      }
      res := PlanConversion(p, n, found.value, port, vids, prev, w);
      return;
    }
    assert [] + OnBridgeSections(n0, bridge, vids, port) == OnBridgeSections(n0, bridge, vids, port);
    var issues := AddOnBridge(p, n, bridge, vids, port, n0, n0, []);
    res := Ok((kept, bridge, issues));
  }

  lemma {:induction false} BvuAdded(a: Adding, n0: Config, start: Config, first: seq<Section>, rest: seq<Section>)
    requires |start| == |n0| && forall i | 0 <= i < |n0| :: start[i].name == n0[i].name
    requires |first| == 1 && first[0].name == BVU
    requires if HasName(n0, BVU) then a.taken else a == Adding(start + first, [BVU], false)
    ensures Tracks(a, start, [], first, first + rest, false)
  {
    if HasName(n0, BVU) {
      var i :| 0 <= i < |n0| && n0[i].name == BVU;
      assert start[i].name == (first + rest)[0].name;
    } else {
      assert [] + NamesOf(first) == [BVU];
    }
  }

  lemma {:induction false} NoCarriedIssues(n: Config, bridge: string, vids: seq<int>, port: string)
    requires !HasBridgeVlans(n, bridge)
    ensures CarriedIssues(n, bridge, vids, port) == []
  {
    if vids != [] {
      NoRouterVlan(n, bridge, vids[0]);
      NoCarriedIssues(n, bridge, vids[1..], port);
    }
  }

  /** The wireless side: dynamic_vlan, the wifi-vlans and the wifi-stations. */
  method PlanWirelessInPlace(p: Planner, w: ConfigFile, d: Desired, managed: seq<Iface>, vids: seq<int>)
      returns (dyn: map<string, string>, issues: seq<Issue>, keys: seq<string>)
    requires Valid(d) && UniqueNames(w.sections) && managed == ManagedIfaces(w.sections, d.ssids)
    modifies p, w
    ensures Tracks(p.On(w), MarkDynAll(old(w.sections), IfaceNames(managed)), old(p.created),
                   WirelessAdds(d, managed, vids), WirelessAdds(d, managed, vids), old(p.taken) != "")
    ensures dyn == DynBefore(old(w.sections), managed)
    ensures issues == StationIssues(d.stations, managed) && keys == BindingKeys([], d.stations, managed)
  {
    ghost var before, other := p.created, p.taken != "";
    ManagedThere(w.sections, d.ssids);
    dyn := MarkDynInPlace(w, managed);
    ghost var w1 := w.sections;
    assert w1 + [] == w1 && before + NamesOf([]) == before;
    AddWifiVlans(p, w, managed, vids, w1, before, WirelessAdds(d, managed, vids), other);
    issues, keys := AddStations(p, w, d, managed, w1, before, WifiVlanSections(managed, vids), other);
  }

  lemma {:induction false} AssembledIs(base: Base, d: Desired, detected: string, prev: Option<Conversion>,
                                       managed: seq<Iface>, vids: seq<int>, port: string, net: NetPlan, r: Planned)
    requires d.vlans != [] && managed == ManagedIfaces(base.w, d.ssids) && managed != []
    requires vids == SortInts(d.vlans) && port == TrunkPort(d, detected) && port != ""
    requires PlanNetwork(base, port, vids, prev) == Ok(net)
    ensures Clash(net.n, net.adds) || Clash(base.w, WirelessAdds(d, managed, vids)) ==>
              BuildOn(base, d, detected, prev) == Err(NameTaken)
    ensures !Clash(net.n, net.adds) && !Clash(base.w, WirelessAdds(d, managed, vids)) &&
            r == Assemble(base, d, port, vids, managed, net) ==>
              BuildOn(base, d, detected, prev) == Ok(r)
  {
  }

  /** The plan once undo has run. */
  method BuildInPlace(w: ConfigFile, n: ConfigFile, kept: Option<Conversion>, d: Desired, detected: string, prev: Option<Conversion>)
      returns (res: Result<Planned, Refusal>)
    requires w != n && UniqueNames(w.sections) && Valid(d) && d.vlans != []
    modifies w, n
    ensures res == BuildOn(Base(old(w.sections), old(n.sections), kept), d, detected, prev)
  {
    ghost var base := Base(w.sections, n.sections, kept);
    var p := new Planner();
    var managed, ifaceIssues := FindManaged(w.sections, d.ssids);
    if managed == [] {
      return Err(NoManagedIface);
    }
    var port := TrunkPort(d, detected);
    if port == "" {
      return Err(TrunkUnknown);
    }
    var vids := SortInts(d.vlans);
    var side := PlanNetworkInPlace(p, n, port, vids, kept, prev, base.w);
    if side.Err? {
      return Err(side.error);
    }
    var (converted, bridge, netIssues) := side.value;
    ghost var net := PlanNetwork(base, port, vids, prev).value;
    ghost var n1, created := n.sections, p.created;
    hide PlanNetwork, Valid, TrunkPort, Managed, ManagedIfaces, UniqueNames, MarkDynAll, SortInts;
    var dyn, stationIssues, keys := PlanWirelessInPlace(p, w, d, managed, vids);
    ghost var wAdds := WirelessAdds(d, managed, vids);
    ClashSameNames(base.w, MarkDynAll(base.w, IfaceNames(managed)), wAdds);
    AssembledIs(base, d, detected, prev, managed, vids, port, net, Assemble(base, d, port, vids, managed, net));
    if p.taken != "" {
      return Err(NameTaken);
    }
    assert [] + NamesOf(net.adds) == NamesOf(net.adds);
    var owned := p.created + KeptNames(kept);
    res := Ok(Planned(w.sections, n.sections, Ledger(Some(owned), dyn, converted), port, bridge,
                      converted.Some?, NamesOfIfaces(managed), ifaceIssues + netIssues + stationIssues, keys));
  }

  /** Plan: works on clones, so the configs it is given stay as they are. */
  method Plan(wireless: ConfigFile, network: ConfigFile, d: Desired, detected: string, prev: Ledger)
      returns (res: Result<Planned, Refusal>)
    requires UniqueNames(wireless.sections) && UniqueNames(network.sections)
    ensures res == GroupsPlan.Plan(wireless.sections, network.sections, d, detected, prev)
  {
    if !Valid(d) {
      return Err(BadParams);
    }
    var w := new ConfigFile(wireless.name, wireless.sections);
    var n := new ConfigFile(network.name, network.sections);
    var kept := UndoInPlace(w, n, prev);
    assert Base(w.sections, n.sections, kept) == Undo(wireless.sections, network.sections, prev);
    UndoUnique(wireless.sections, network.sections, prev);
    if d.vlans == [] {
      // Nothing to carry: no sections, and no change but a conversion others depend on.
      return Ok(Planned(w.sections, n.sections, Ledger(Some(KeptNames(kept)), map[], kept), "",
                        if kept.Some? then kept.value.bridge else "", kept.Some?, [], [], []));
    }
    res := BuildInPlace(w, n, kept, d, detected, prev.converted);
  }

  lemma {:induction false} UndoUnique(w: Config, n: Config, prev: Ledger)
    requires UniqueNames(w) && UniqueNames(n)
    ensures UniqueNames(Undo(w, n, prev).w)
  {
    hide Drop, OwnedSet, KeptConversion, MoveBackAll;
    var all := OwnedSet(prev, w, n);
    var owned := if Undo(w, n, prev).kept.Some? then all - {BVU} else all;
    DropLeaves(w, owned);
    assert Undo(w, n, prev).w == RestoreDynAll(Drop(w, owned), prev.dynamicVlan);
    hide Undo;
  }

  lemma {:induction false} ClashSameNames(a: Config, b: Config, adds: seq<Section>)
    requires |a| == |b| && forall i | 0 <= i < |a| :: a[i].name == b[i].name
    ensures Clash(a, adds) <==> Clash(b, adds)
  {
  }
}
