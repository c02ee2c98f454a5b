/** What a successful plan says in the configs' own words: which interfaces it manages, which
    station gets which passphrase, which issues and which binding keys it reports. */
module GroupsLaws {
  import opened Wrappers
  import opened Text
  import opened UciConfig
  import opened GroupsPlan
  import opened GroupsNames
  import opened GroupsNoDrift
  import opened GroupsChains
  import opened GroupsResult

  // ---- interfaces ----

  /** An access point on a listed SSID that is not disabled. */
  predicate OnAir(s: Section, ssids: seq<string>) {
    && s.typ == "wifi-iface"
    && s.Text("mode") == "ap"
    && (exists i | 0 <= i < |ssids| :: ssids[i] == s.Text("ssid"))
    && s.Text("disabled") != "1"
  }

  /** Its clients use a passphrase. */
  predicate WithPassphrase(s: Section) {
    var enc := s.Text("encryption");
    |enc| >= 3 && (enc[..3] == "psk" || enc[..3] == "sae")
  }

  lemma {:induction false} ManagedMeans(s: Section, ssids: seq<string>)
    ensures Managed(s, ssids) <==> OnAir(s, ssids) && WithPassphrase(s)
    ensures Candidate(s, ssids) <==> OnAir(s, ssids)
  {
    var enc := s.Text("encryption");
    assert |enc| >= 3 ==> (HasPrefix(enc, "psk") <==> enc[..3] == "psk") && (HasPrefix(enc, "sae") <==> enc[..3] == "sae");
  }

  lemma {:induction false} IfaceIssueAt(w: Config, ssids: seq<string>, issue: Issue)
    ensures issue in IfaceIssues(w, ssids) <==> exists i | 0 <= i < |w| :: issue in IfaceIssue(w[i], ssids)
  {
    if w != [] {
      hide IfaceIssue;
      var rest := w[1..];
      IfaceIssueAt(rest, ssids, issue);
      assert forall i | 0 <= i < |rest| :: rest[i] == w[i + 1];
      assert forall i | 1 <= i < |w| :: w[i] == rest[i - 1];
    }
  }

  lemma {:induction false} IfaceIssueMeans(s: Section, ssids: seq<string>, issue: Issue)
    ensures issue in IfaceIssue(s, ssids) <==>
              || (issue == NoPassphrase(s.name) && OnAir(s, ssids) && !WithPassphrase(s))
              || (issue == AnonymousSection(s.name) && OnAir(s, ssids) && WithPassphrase(s) && s.anonymous)
  {
    ManagedMeans(s, ssids);
    hide OnAir, WithPassphrase;
  }

  /** Where a plan's issues come from. */
  lemma {:induction false} IssuesOf(base: Base, d: Desired, detected: string, prev: Option<Conversion>, r: Planned) returns (net: NetPlan)
    requires d.vlans != [] && BuildOn(base, d, detected, prev) == Ok(r)
    ensures PlanNetwork(base, TrunkPort(d, detected), SortInts(d.vlans), prev) == Ok(net)
    ensures r.issues == IfaceIssues(base.w, d.ssids) + net.issues + StationIssues(d.stations, ManagedIfaces(base.w, d.ssids))
    ensures r.bindingKeys == BindingKeys([], d.stations, ManagedIfaces(base.w, d.ssids))
    ensures r.managed == NamesOfIfaces(ManagedIfaces(base.w, d.ssids))
  {
    hide PlanNetwork, Clash, ManagedIfaces, MarkDynAll, DynBefore, SortInts, TrunkPort, IfaceIssues, StationIssues, BindingKeys;
    net := PlanNetwork(base, TrunkPort(d, detected), SortInts(d.vlans), prev).value;
  }

  predicate OfNetwork(issue: Issue) { issue.AlreadyCarried? || issue.NotTagged? }

  predicate OfInterface(issue: Issue) { issue.NoPassphrase? || issue.AnonymousSection? }

  predicate OfStation(issue: Issue) { issue.KeyEqualsOwn? || issue.NoUsableKey? }

  lemma {:induction false} CarriedKinds(n: Config, bridge: string, vids: seq<int>, port: string)
    ensures forall x | x in CarriedIssues(n, bridge, vids, port) :: OfNetwork(x)
  {
    if vids != [] {
      CarriedKinds(n, bridge, vids[1..], port);
      hide RouterVlan, TaggedMember;
    }
  }

  lemma {:induction false} NetKinds(base: Base, port: string, vids: seq<int>, prev: Option<Conversion>, net: NetPlan)
    requires PlanNetwork(base, port, vids, prev) == Ok(net)
    ensures forall x | x in net.issues :: OfNetwork(x)
  {
    hide BridgeVlanSections, NetworkSections, UntaggedVlan, MoveAll, MovedFrom, GetOpt, HasBridgeVlans, StandaloneSections, CarriedIssues, OfNetwork;
    if BridgeOf(base.n, port).Some? {
      CarriedKinds(base.n, BridgeOf(base.n, port).value.Text("name"), vids, port);
    }
  }

  lemma {:induction false} IfaceKinds(w: Config, ssids: seq<string>)
    ensures forall x | x in IfaceIssues(w, ssids) :: OfInterface(x)
  {
    if w != [] {
      IfaceKinds(w[1..], ssids);
      hide Candidate, PskEncryption;
    }
  }

  lemma {:induction false} StationKinds(stations: seq<Station>, managed: seq<Iface>)
    ensures forall x | x in StationIssues(stations, managed) :: OfStation(x)
  {
    if stations != [] {
      StationKinds(stations[1..], managed);
      OneStationKinds(stations[0], managed);
      hide StationIssuesOf, OfStation;
    }
  }

  lemma {:induction false} OneStationKinds(st: Station, managed: seq<Iface>)
    ensures forall x | x in StationIssuesOf(st, managed) :: OfStation(x)
  {
    if managed != [] {
      OneStationKinds(st, managed[1..]);
      hide ValidKey;
    }
  }

  /** Each kind of issue is of its own list. */
  lemma {:induction false} IssuesByKind(base: Base, d: Desired, detected: string, prev: Option<Conversion>, r: Planned, issue: Issue)
      returns (net: NetPlan)
    requires d.vlans != [] && BuildOn(base, d, detected, prev) == Ok(r)
    ensures PlanNetwork(base, TrunkPort(d, detected), SortInts(d.vlans), prev) == Ok(net)
    ensures OfInterface(issue) ==> (issue in r.issues <==> issue in IfaceIssues(base.w, d.ssids))
    ensures OfNetwork(issue) ==> (issue in r.issues <==> issue in net.issues)
    ensures OfStation(issue) ==> (issue in r.issues <==> issue in StationIssues(d.stations, ManagedIfaces(base.w, d.ssids)))
  {
    net := IssuesOf(base, d, detected, prev, r);
    hide BuildOn, PlanNetwork, IfaceIssues, StationIssues, ManagedIfaces, SortInts, TrunkPort;
    NetKinds(base, TrunkPort(d, detected), SortInts(d.vlans), prev, net);
    IfaceKinds(base.w, d.ssids);
    StationKinds(d.stations, ManagedIfaces(base.w, d.ssids));
    KindsApart(IfaceIssues(base.w, d.ssids), net.issues, StationIssues(d.stations, ManagedIfaces(base.w, d.ssids)), issue);
  }

  lemma {:induction false} KindsApart(a: seq<Issue>, b: seq<Issue>, c: seq<Issue>, x: Issue)
    requires (forall y | y in a :: OfInterface(y)) && (forall y | y in b :: OfNetwork(y)) && (forall y | y in c :: OfStation(y))
    ensures OfInterface(x) ==> (x in a + b + c <==> x in a)
    ensures OfNetwork(x) ==> (x in a + b + c <==> x in b)
    ensures OfStation(x) ==> (x in a + b + c <==> x in c)
  {
  }

  /** The interfaces a plan manages are exactly the access points on air on a listed SSID whose
      clients use a passphrase; those without one, and anonymous ones, are reported. */
  lemma {:induction false} InterfacesExactly(w: Config, n: Config, d: Desired, detected: string, prev: Ledger, r: Planned)
    requires Plan(w, n, d, detected, prev) == Ok(r) && d.vlans != [] && WellNamed(w) && WellNamed(n)
    ensures var c := Undo(w, n, prev).w;
            && (forall x :: x in r.managed <==> exists i | 0 <= i < |c| :: c[i].name == x && OnAir(c[i], d.ssids) && WithPassphrase(c[i]))
            && (forall x :: NoPassphrase(x) in r.issues <==>
                  exists i | 0 <= i < |c| :: c[i].name == x && OnAir(c[i], d.ssids) && !WithPassphrase(c[i]))
            && (forall x :: AnonymousSection(x) in r.issues <==>
                  exists i | 0 <= i < |c| :: c[i].name == x && OnAir(c[i], d.ssids) && WithPassphrase(c[i]) && c[i].anonymous)
  {
    var base := Undo(w, n, prev);
    var c := base.w;
    UndoNamed(w, n, prev);
    hide Undo, Valid, IfaceIssues, OnAir, WithPassphrase, Managed, ManagedIfaces, StationIssues, SortInts, TrunkPort, PlanNetwork, WellNamed, IfaceIssue;
    var net := IssuesOf(base, d, detected, prev.converted, r);
    hide BuildOn;
    forall x ensures x in r.managed <==> exists i | 0 <= i < |c| :: c[i].name == x && OnAir(c[i], d.ssids) && WithPassphrase(c[i]) {
      ManagedNames(c, d.ssids, x);
    }
    forall x ensures NoPassphrase(x) in r.issues <==>
                       exists i | 0 <= i < |c| :: c[i].name == x && OnAir(c[i], d.ssids) && !WithPassphrase(c[i])
    {
      var _ := IssuesByKind(base, d, detected, prev.converted, r, NoPassphrase(x));
      IfaceIssueAt(c, d.ssids, NoPassphrase(x));
      forall i | 0 <= i < |c| { IfaceIssueMeans(c[i], d.ssids, NoPassphrase(x)); }
    }
    forall x ensures AnonymousSection(x) in r.issues <==>
                       exists i | 0 <= i < |c| :: c[i].name == x && OnAir(c[i], d.ssids) && WithPassphrase(c[i]) && c[i].anonymous
    {
      var _ := IssuesByKind(base, d, detected, prev.converted, r, AnonymousSection(x));
      IfaceIssueAt(c, d.ssids, AnonymousSection(x));
      forall i | 0 <= i < |c| { IfaceIssueMeans(c[i], d.ssids, AnonymousSection(x)); }
    }
  }

  lemma {:induction false} ManagedNames(c: Config, ssids: seq<string>, x: string)
    ensures x in NamesOfIfaces(ManagedIfaces(c, ssids)) <==>
            exists i | 0 <= i < |c| :: c[i].name == x && OnAir(c[i], ssids) && WithPassphrase(c[i])
  {
    var managed := ManagedIfaces(c, ssids);
    hide ManagedIfaces, OnAir, WithPassphrase, Managed;
    if x in NamesOfIfaces(managed) {
      var k :| 0 <= k < |managed| && NamesOfIfaces(managed)[k] == x;
      var i := ManagedFrom(c, ssids, k);
      ManagedMeans(c[i], ssids);
    }
    if i :| 0 <= i < |c| && c[i].name == x && OnAir(c[i], ssids) && WithPassphrase(c[i]) {
      ManagedMeans(c[i], ssids);
      ManagedListed(c, ssids, i);
      var k :| 0 <= k < |managed| && managed[k].name == c[i].name;
      assert NamesOfIfaces(managed)[k] == x;
    }
  }

  // ---- stations ----

  /** A passphrase: 8 to 63 printable characters. */
  predicate Usable(key: string) {
    8 <= |key| <= 63 && forall i | 0 <= i < |key| :: ' ' <= key[i] <= '~'
  }

  /** The station is on this interface with this passphrase. */
  predicate Gets(st: Station, own: string, key: string) {
    if st.key == "" then Usable(own) && key == own else st.key != own && key == st.key
  }

  /** One of the station's MACs, or none when it lists none. */
  predicate MacOf(st: Station, mac: string) { if st.macs == [] then mac == "" else mac in st.macs }

  ghost predicate CreatedStation(base: Config, r: Planned, iface: string, key: string, vid: int, mac: string) {
    exists k | |base| <= k < |r.w| :: StationFor(r.w[k], iface, key, vid, mac)
  }

  lemma {:induction false} KeyMeans(st: Station, m: Iface)
    ensures forall key :: StationKey(st, m) == Ok(key) <==> Gets(st, m.key, key)
    ensures forall x :: StationKey(st, m) == Err(x) <==>
              || (x == KeyEqualsOwn(m.name) && st.key != "" && st.key == m.key)
              || (x == NoUsableKey(m.name) && st.key == "" && !Usable(m.key))
  {
    assert ValidKey(m.key) <==> Usable(m.key);
    hide ValidKey, Usable;
  }

  lemma {:induction false} ManagedAt(c: Config, ssids: seq<string>, i: nat) returns (b: nat)
    requires UniqueNames(c) && i < |c| && OnAir(c[i], ssids) && WithPassphrase(c[i])
    ensures b < |ManagedIfaces(c, ssids)| && ManagedIfaces(c, ssids)[b] == Iface(c[i].name, c[i].Text("key"))
  {
    hide OnAir, WithPassphrase, ManagedIfaces, Managed;
    ManagedMeans(c[i], ssids);
    ManagedListed(c, ssids, i);
    b :| 0 <= b < |ManagedIfaces(c, ssids)| && ManagedIfaces(c, ssids)[b].name == c[i].name;
    var j := ManagedFrom(c, ssids, b);
    assert i == j;
  }

  /** Every station on every managed interface, by its own passphrase and the interface's: a
      group passphrase is written unless it is the interface's own, a binding gets the
      interface's own if that is a passphrase at all; the two remaining cases are reported. */
  lemma {:induction false} StationsExactly(w: Config, n: Config, d: Desired, detected: string, prev: Ledger, r: Planned, a: nat, i: nat, mac: string)
    requires Plan(w, n, d, detected, prev) == Ok(r) && d.vlans != [] && WellNamed(w) && WellNamed(n)
    requires var c := Undo(w, n, prev).w; i < |c| && OnAir(c[i], d.ssids) && WithPassphrase(c[i])
    requires a < |d.stations| && MacOf(d.stations[a], mac)
    ensures var c, st := Undo(w, n, prev).w, d.stations[a];
            var name, own := c[i].name, c[i].Text("key");
            && (st.key != "" && st.key != own ==> CreatedStation(c, r, name, st.key, st.vid, mac))
            && (st.key == "" && Usable(own) ==> CreatedStation(c, r, name, own, st.vid, mac))
            && (st.key != "" && st.key == own ==> KeyEqualsOwn(name) in r.issues)
            && (st.key == "" && !Usable(own) ==> NoUsableKey(name) in r.issues)
  {
    var c, st := Undo(w, n, prev).w, d.stations[a];
    UndoNamed(w, n, prev);
    hide Undo, Plan, OnAir, WithPassphrase, ManagedIfaces, StationKey, Usable, StationFor;
    assert UniqueNames(c);
    var b := ManagedAt(c, d.ssids, i);
    var m := Iface(c[i].name, c[i].Text("key"));
    KeyMeans(st, m);
    StationServed(w, n, d, detected, prev, r, ManagedIfaces(c, d.ssids), a, b, mac);
  }

  lemma {:induction false} StationIssueFrom(stations: seq<Station>, managed: seq<Iface>, x: Issue) returns (a: nat, b: nat)
    requires x in StationIssues(stations, managed)
    ensures a < |stations| && b < |managed| && StationKey(stations[a], managed[b]) == Err(x)
  {
    hide StationKey;
    if x in StationIssuesOf(stations[0], managed) {
      a := 0;
      b := StationIssueOn(stations[0], managed, x);
    } else {
      a, b := StationIssueFrom(stations[1..], managed, x);
      a := a + 1;
    }
  }

  lemma {:induction false} StationIssueOn(st: Station, managed: seq<Iface>, x: Issue) returns (b: nat)
    requires x in StationIssuesOf(st, managed)
    ensures b < |managed| && StationKey(st, managed[b]) == Err(x)
  {
    hide StationKey;
    if x in StationIssue(st, managed[0]) {
      b := 0;
    } else {
      b := StationIssueOn(st, managed[1..], x);
      b := b + 1;
    }
  }

  /** A station that is skipped is skipped for one of the two reasons. */
  lemma {:induction false} SkippedOnly(w: Config, n: Config, d: Desired, detected: string, prev: Ledger, r: Planned, x: Issue) returns (a: nat, i: nat)
    requires Plan(w, n, d, detected, prev) == Ok(r) && d.vlans != [] && x in r.issues && OfStation(x)
    ensures var c := Undo(w, n, prev).w;
            && a < |d.stations| && i < |c| && OnAir(c[i], d.ssids) && WithPassphrase(c[i])
            && (var st, own := d.stations[a], c[i].Text("key");
                || (x == KeyEqualsOwn(c[i].name) && st.key != "" && st.key == own)
                || (x == NoUsableKey(c[i].name) && st.key == "" && !Usable(own)))
  {
    var base := Undo(w, n, prev);
    var managed := ManagedIfaces(base.w, d.ssids);
    hide Undo, Valid, BuildOn, OnAir, WithPassphrase, Managed, ManagedIfaces, StationKey, Usable, StationIssues;
    var _ := IssuesByKind(base, d, detected, prev.converted, r, x);
    var b;
    a, b := StationIssueFrom(d.stations, managed, x);
    i := ManagedFrom(base.w, d.ssids, b);
    ManagedMeans(base.w[i], d.ssids);
    KeyMeans(d.stations[a], managed[b]);
  }

  lemma {:induction false} EntrySpelled(st: Station, m: Iface, e: Entry)
    requires e in EntriesFor(st, m)
    ensures e.iface == m.name && e.vid == st.vid && Gets(st, m.key, e.key) && MacOf(st, e.mac)
  {
    StringLeqTotal();
    SortSorts(StringLeq, st.macs);
    var macs := SortStrings(st.macs);
    assert |multiset(macs)| == |multiset(st.macs)|;
    forall x | x in macs ensures x in st.macs { assert x in multiset(macs); }
    KeyMeans(st, m);
    hide StationKey, Gets;
  }

  /** And nothing else is written: each wifi-station of a plan is one of a station's, on a
      managed interface, with the passphrase it is to have there. */
  lemma {:induction false} StationsOnly(w: Config, n: Config, d: Desired, detected: string, prev: Ledger, r: Planned, k: nat)
      returns (a: nat, i: nat, key: string, mac: string)
    requires Plan(w, n, d, detected, prev) == Ok(r) && d.vlans != []
    requires |Undo(w, n, prev).w| <= k < |r.w| && r.w[k].typ == "wifi-station"
    ensures var c := Undo(w, n, prev).w;
            && a < |d.stations| && i < |c| && OnAir(c[i], d.ssids) && WithPassphrase(c[i])
            && MacOf(d.stations[a], mac) && Gets(d.stations[a], c[i].Text("key"), key)
            && StationFor(r.w[k], c[i].name, key, d.stations[a].vid, mac)
  {
    var base := Undo(w, n, prev);
    hide Undo, Valid, OnAir, WithPassphrase, Managed, ManagedIfaces, StationKey, Gets, EntriesFor, Entries, StationSection;
    assert BuildOn(base, d, detected, prev.converted) == Ok(r);
    var managed, vids, port, net := BuiltShape(base, d, detected, prev.converted, r);
    BuiltManaged(base, d, detected, prev.converted, managed, vids, port, net, r);
    hide BuildOn, Built, Shape;
    var e := StationAt(base, d, managed, net, vids, r, k);
    var j: nat :| j < |Entries(d.stations, managed)| && e == Entries(d.stations, managed)[j] && r.w[k] == StationSection(j, e);
    StationOptions(j, e);
    assert r.w[k].typ == "wifi-station";
    var b;
    a, b := EntryFrom(d.stations, managed, j);
    EntrySpelled(d.stations[a], managed[b], e);
    i := ManagedFrom(base.w, d.ssids, b);
    ManagedMeans(base.w[i], d.ssids);
    key, mac := e.key, e.mac;
  }

  // ---- the passphrases that bindings reuse ----

  predicate Binds(st: Station, m: Iface, key: string) { st.key == "" && m.key == key && Usable(key) }

  lemma {:induction false} BindingStep(keys: seq<string>, st: Station, m: Iface, key: string)
    ensures key in BindingKey(keys, st, m) <==> key in keys || Binds(st, m, key)
    ensures NoRepeats(keys) ==> NoRepeats(BindingKey(keys, st, m))
  {
    assert ValidKey(m.key) <==> Usable(m.key);
    hide ValidKey, Usable;
  }

  lemma {:induction false} BindingKeysOn(keys: seq<string>, st: Station, managed: seq<Iface>, key: string)
    ensures key in BindingKeysOf(keys, st, managed) <==> key in keys || exists b | 0 <= b < |managed| :: Binds(st, managed[b], key)
    ensures NoRepeats(keys) ==> NoRepeats(BindingKeysOf(keys, st, managed))
    decreases |managed|
  {
    if managed != [] {
      hide BindingKey, Binds, NoRepeats;
      var rest := managed[1..];
      BindingStep(keys, st, managed[0], key);
      BindingKeysOn(BindingKey(keys, st, managed[0]), st, rest, key);
      assert forall b | 0 <= b < |rest| :: rest[b] == managed[b + 1];
      assert forall b | 1 <= b < |managed| :: managed[b] == rest[b - 1];
    }
  }

  ghost predicate BoundBy(stations: seq<Station>, managed: seq<Iface>, key: string) {
    exists a, b | 0 <= a < |stations| && 0 <= b < |managed| :: Binds(stations[a], managed[b], key)
  }

  lemma {:induction false} BindingKeysAre(keys: seq<string>, stations: seq<Station>, managed: seq<Iface>, key: string)
    ensures key in BindingKeys(keys, stations, managed) <==> key in keys || BoundBy(stations, managed, key)
    ensures NoRepeats(keys) ==> NoRepeats(BindingKeys(keys, stations, managed))
    decreases |stations|
  {
    if stations != [] {
      hide BindingKeysOf, Binds, NoRepeats;
      BindingKeysOn(keys, stations[0], managed, key);
      BindingKeysAre(BindingKeysOf(keys, stations[0], managed), stations[1..], managed, key);
      BoundFirst(stations, managed, key);
    }
  }

  lemma {:induction false} BoundFirst(stations: seq<Station>, managed: seq<Iface>, key: string)
    requires stations != []
    ensures BoundBy(stations, managed, key) <==>
              (exists b | 0 <= b < |managed| :: Binds(stations[0], managed[b], key)) || BoundBy(stations[1..], managed, key)
  {
    hide Binds;
    var rest := stations[1..];
    assert forall a | 0 <= a < |rest| :: rest[a] == stations[a + 1];
    assert forall a | 1 <= a < |stations| :: stations[a] == rest[a - 1];
  }

  /** The binding keys of a plan: exactly the managed interfaces' own passphrases, once each,
      when some station is a binding; group passphrases and unusable keys are none. */
  lemma {:induction false} BindingKeysExactly(w: Config, n: Config, d: Desired, detected: string, prev: Ledger, r: Planned)
    requires Plan(w, n, d, detected, prev) == Ok(r) && d.vlans != [] && WellNamed(w) && WellNamed(n)
    ensures var c := Undo(w, n, prev).w;
            forall key :: key in r.bindingKeys <==>
              && Usable(key) && (exists a | 0 <= a < |d.stations| :: d.stations[a].key == "")
              && (exists i | 0 <= i < |c| :: OnAir(c[i], d.ssids) && WithPassphrase(c[i]) && c[i].Text("key") == key)
    ensures NoRepeats(r.bindingKeys)
  {
    var c := Undo(w, n, prev).w;
    UndoNamed(w, n, prev);
    hide Undo, Valid, OnAir, WithPassphrase, Managed, ManagedIfaces, WellNamed, Usable, BindingKeys;
    assert BuildOn(Undo(w, n, prev), d, detected, prev.converted) == Ok(r);
    var _ := IssuesOf(Undo(w, n, prev), d, detected, prev.converted, r);
    hide BuildOn;
    var managed := ManagedIfaces(c, d.ssids);
    forall key
      ensures key in r.bindingKeys <==>
              && Usable(key) && (exists a | 0 <= a < |d.stations| :: d.stations[a].key == "")
              && (exists i | 0 <= i < |c| :: OnAir(c[i], d.ssids) && WithPassphrase(c[i]) && c[i].Text("key") == key)
    {
      BindingKeysAre([], d.stations, managed, key);
      if key in r.bindingKeys {
        var a, b :| 0 <= a < |d.stations| && 0 <= b < |managed| && Binds(d.stations[a], managed[b], key);
        var i := ManagedFrom(c, d.ssids, b);
        ManagedMeans(c[i], d.ssids);
      }
      if a :| 0 <= a < |d.stations| && d.stations[a].key == "" {
        forall i: nat | Usable(key) && i < |c| && OnAir(c[i], d.ssids) && WithPassphrase(c[i]) && c[i].Text("key") == key
          ensures key in r.bindingKeys
        {
          var b := ManagedAt(c, d.ssids, i);
          assert Binds(d.stations[a], managed[b], key);
        }
      }
    }
    BindingKeysAre([], d.stations, managed, "");
  }

  // ---- taking the last plan back ----

  /** The engine made the section: the ledger lists it or, when it has no list, its name tells. */
  ghost predicate Made(w: Config, n: Config, prev: Ledger, name: string) {
    match prev.owned
    case Some(names) => name in names
    case None =>
      && OwnedName(name)
      && ((exists i | 0 <= i < |w| :: w[i].name == name && !w[i].anonymous) || exists i | 0 <= i < |n| :: n[i].name == name && !n[i].anonymous)
  }

  /** Another's VLAN is on the bridge that was converted. */
  ghost predicate CarriesOthers(w: Config, n: Config, prev: Ledger) {
    && prev.converted.Some?
    && exists i | 0 <= i < |n| ::
         n[i].typ == "bridge-vlan" && n[i].Text("device") == prev.converted.value.bridge && !Made(w, n, prev, n[i].name)
  }

  ghost predicate Stays(w: Config, n: Config, prev: Ledger, s: Section) {
    s.anonymous || !Made(w, n, prev, s.name) || (CarriesOthers(w, n, prev) && s.name == "perch_bvu")
  }

  /** The section with its old dynamic_vlan: none when it had none. */
  ghost predicate DynBack(s: Section, was: Section, prev: Ledger) {
    && s.name == was.name && SameExcept(was, s, "dynamic_vlan")
    && if was.name !in prev.dynamicVlan then s == was
       else if prev.dynamicVlan[was.name] == "" then s.Get("dynamic_vlan") == None
       else s.Get("dynamic_vlan") == Some(Str(prev.dynamicVlan[was.name]))
  }

  /** The interface on its old device, if the conversion moved it and it is still where it was
      moved to; not while the conversion stays. */
  ghost predicate DeviceBack(s: Section, was: Section, c: Option<Conversion>, stays: bool) {
    if c.Some? && !stays && was.name in c.value.moved && was.Text("device") == c.value.bridge + "." + Itoa(c.value.untagged)
    then s.name == was.name && SameExcept(was, s, "device") && s.Get("device") == Some(Str(c.value.moved[was.name]))
    else s == was
  }

  lemma {:induction false} OwnedSetIs(w: Config, n: Config, prev: Ledger, name: string)
    ensures name in OwnedSet(prev, w, n) <==> Made(w, n, prev, name)
  {
    hide OwnedName;
  }

  lemma {:induction false} RestoreDynIs(was: Section, prev: Ledger)
    ensures DynBack(RestoreDyn(was, prev.dynamicVlan), was, prev)
  {
    if was.name in prev.dynamicVlan {
      var before := prev.dynamicVlan[was.name];
      SetIsSameExcept(was, "dynamic_vlan", Str(before));
      GetAfterSet(was.options, "dynamic_vlan", Str(before), "dynamic_vlan");
      GetAfterDelete(was.options, "dynamic_vlan", "dynamic_vlan");
    }
  }

  lemma {:induction false} MoveBackIs(was: Section, c: Conversion)
    ensures DeviceBack(MoveBack(was, c), was, Some(c), false)
  {
    if was.name in c.moved {
      SetIsSameExcept(was, "device", Str(c.moved[was.name]));
      GetAfterSet(was.options, "device", Str(c.moved[was.name]), "device");
    }
  }

  lemma {:induction false} KeptExactly(w: Config, n: Config, prev: Ledger)
    ensures Undo(w, n, prev).kept == if CarriesOthers(w, n, prev) then prev.converted else None
  {
    forall name ensures name in OwnedSet(prev, w, n) <==> Made(w, n, prev, name) { OwnedSetIs(w, n, prev, name); }
    hide OwnedSet, Made, Drop, Section.Text;
  }

  /** Undoing, section by section: what stays, as it was but for the option that was borrowed. */
  lemma {:induction false} UndoExactly(w: Config, n: Config, prev: Ledger)
    ensures var base := Undo(w, n, prev);
            && (forall i | 0 <= i < |w| && Stays(w, n, prev, w[i]) :: exists s :: s in base.w && DynBack(s, w[i], prev))
            && (forall s | s in base.w :: exists i :: 0 <= i < |w| && Stays(w, n, prev, w[i]) && DynBack(s, w[i], prev))
            && (forall i | 0 <= i < |n| && Stays(w, n, prev, n[i]) ::
                  exists s :: s in base.n && DeviceBack(s, n[i], prev.converted, CarriesOthers(w, n, prev)))
            && (forall s | s in base.n ::
                  exists i :: 0 <= i < |n| && Stays(w, n, prev, n[i]) && DeviceBack(s, n[i], prev.converted, CarriesOthers(w, n, prev)))
  {
    KeptExactly(w, n, prev);
    var removed := Removed(w, n, prev);
    StaysIs(w, n, prev);
    UndoWireless(w, n, prev, removed);
    UndoNetwork(w, n, prev, removed);
    hide Undo, Stays, DynBack, DeviceBack, CarriesOthers, Removed;
  }

  lemma {:induction false} StaysIs(w: Config, n: Config, prev: Ledger)
    ensures forall s :: Stays(w, n, prev, s) <==> s.anonymous || s.name !in Removed(w, n, prev)
  {
    KeptExactly(w, n, prev);
    assert CarriesOthers(w, n, prev) ==> prev.converted.Some?;
    assert BVU == "perch_bvu";
    hide Undo, CarriesOthers;
    forall s ensures Stays(w, n, prev, s) <==> s.anonymous || s.name !in Removed(w, n, prev) { OwnedSetIs(w, n, prev, s.name); }
  }

  lemma {:induction false} UndoWireless(w: Config, n: Config, prev: Ledger, removed: set<string>)
    requires removed == Removed(w, n, prev) && forall s :: Stays(w, n, prev, s) <==> s.anonymous || s.name !in removed
    ensures forall i | 0 <= i < |w| && Stays(w, n, prev, w[i]) :: exists s :: s in Undo(w, n, prev).w && DynBack(s, w[i], prev)
    ensures forall s | s in Undo(w, n, prev).w :: exists i :: 0 <= i < |w| && Stays(w, n, prev, w[i]) && DynBack(s, w[i], prev)
  {
    var left, back := Drop(w, removed), Undo(w, n, prev).w;
    assert back == RestoreDynAll(left, prev.dynamicVlan);
    hide Drop, Undo, Stays, Removed, DynBack, RestoreDyn;
    DropLeaves(w, removed);
    forall i: nat | i < |w| && Stays(w, n, prev, w[i]) ensures exists s :: s in back && DynBack(s, w[i], prev) {
      DropKeepsOne(w, removed, i);
      var k :| 0 <= k < |left| && left[k] == w[i];
      RestoreDynIs(w[i], prev);
      assert back[k] == RestoreDyn(w[i], prev.dynamicVlan);
    }
    forall s | s in back ensures exists i :: 0 <= i < |w| && Stays(w, n, prev, w[i]) && DynBack(s, w[i], prev) {
      var k :| 0 <= k < |back| && back[k] == s;
      var i :| 0 <= i < |w| && w[i] == left[k];
      RestoreDynIs(w[i], prev);
    }
  }

  lemma {:induction false} UndoNetwork(w: Config, n: Config, prev: Ledger, removed: set<string>)
    requires removed == Removed(w, n, prev) && forall s :: Stays(w, n, prev, s) <==> s.anonymous || s.name !in removed
    ensures forall i | 0 <= i < |n| && Stays(w, n, prev, n[i]) ::
              exists s :: s in Undo(w, n, prev).n && DeviceBack(s, n[i], prev.converted, CarriesOthers(w, n, prev))
    ensures forall s | s in Undo(w, n, prev).n ::
              exists i :: 0 <= i < |n| && Stays(w, n, prev, n[i]) && DeviceBack(s, n[i], prev.converted, CarriesOthers(w, n, prev))
  {
    var left, back, stays := Drop(n, removed), Undo(w, n, prev).n, CarriesOthers(w, n, prev);
    KeptExactly(w, n, prev);
    var c := prev.converted;
    assert back == if c.Some? && !stays then MoveBackAll(left, c.value) else left;
    hide Drop, Undo, Stays, Removed, DeviceBack, MoveBack, CarriesOthers;
    DropLeaves(n, removed);
    forall i: nat | i < |n| && Stays(w, n, prev, n[i]) ensures exists s :: s in back && DeviceBack(s, n[i], c, stays) {
      DropKeepsOne(n, removed, i);
      var k :| 0 <= k < |left| && left[k] == n[i];
      DeviceIs(n[i], c, stays, back[k]);
    }
    forall s | s in back ensures exists i :: 0 <= i < |n| && Stays(w, n, prev, n[i]) && DeviceBack(s, n[i], c, stays) {
      var k :| 0 <= k < |back| && back[k] == s;
      var i :| 0 <= i < |n| && n[i] == left[k];
      DeviceIs(n[i], c, stays, s);
    }
  }

  lemma {:induction false} DeviceIs(was: Section, c: Option<Conversion>, stays: bool, s: Section)
    requires s == if c.Some? && !stays then MoveBack(was, c.value) else was
    ensures DeviceBack(s, was, c, stays)
  {
    if c.Some? && !stays { MoveBackIs(was, c.value); }
  }

  // ---- what a request may ask ----

  predicate Hex(c: char) { '0' <= c <= '9' || 'a' <= c <= 'f' }

  /** Six pairs of lower-case hexadecimal digits with colons between. */
  ghost predicate Mac(s: string) {
    exists a, b, c, d, e, f ::
      Pair(a) && Pair(b) && Pair(c) && Pair(d) && Pair(e) && Pair(f) &&
      s == a + ":" + b + ":" + c + ":" + d + ":" + e + ":" + f
  }

  predicate Pair(p: string) { |p| == 2 && Hex(p[0]) && Hex(p[1]) }

  lemma {:induction false} MacExactly(s: string)
    ensures ValidMac(s) <==> Mac(s)
  {
    if ValidMac(s) {
      var a, b, c, d, e, f := s[0..2], s[3..5], s[6..8], s[9..11], s[12..14], s[15..17];
      assert Pair(a) && Pair(b) && Pair(c) && Pair(d) && Pair(e) && Pair(f);
      assert s == a + ":" + b + ":" + c + ":" + d + ":" + e + ":" + f;
    }
    if a, b, c, d, e, f :| Pair(a) && Pair(b) && Pair(c) && Pair(d) && Pair(e) && Pair(f) &&
                           s == a + ":" + b + ":" + c + ":" + d + ":" + e + ":" + f {
      MacOfPairs(a, b, c, d, e, f);
    }
  }

  lemma {:induction false} MacOfPairs(a: string, b: string, c: string, d: string, e: string, f: string)
    requires Pair(a) && Pair(b) && Pair(c) && Pair(d) && Pair(e) && Pair(f)
    ensures ValidMac(a + ":" + b + ":" + c + ":" + d + ":" + e + ":" + f)
  {
    var s := a + ":" + b + ":" + c + ":" + d + ":" + e + ":" + f;
    assert |s| == 17;
    assert s[0] == a[0] && s[1] == a[1] && s[2] == ':' && s[3] == b[0] && s[4] == b[1] && s[5] == ':';
    assert s[6] == c[0] && s[7] == c[1] && s[8] == ':' && s[9] == d[0] && s[10] == d[1] && s[11] == ':';
    assert s[12] == e[0] && s[13] == e[1] && s[14] == ':' && s[15] == f[0] && s[16] == f[1];
  }

  function AllMacs(stations: seq<Station>): seq<string> {
    if stations == [] then [] else stations[0].macs + AllMacs(stations[1..])
  }

  lemma {:induction false} MacsCounted(stations: seq<Station>)
    ensures MacCount(stations) == |AllMacs(stations)|
  {
    if stations != [] { MacsCounted(stations[1..]); }
  }

  /** A device name: one to fifteen letters, digits, dots, dashes, underscores and at signs. */
  predicate DeviceName(s: string) {
    1 <= |s| <= 15 &&
    forall i | 0 <= i < |s| ::
      var c := s[i];
      'a' <= c <= 'z' || 'A' <= c <= 'Z' || '0' <= c <= '9' || c == '.' || c == '-' || c == '_' || c == '@'
  }

  ghost predicate Asks(st: Station, vlans: seq<int>) {
    && (exists k | 0 <= k < |vlans| :: vlans[k] == st.vid)
    && (if st.key == "" then st.macs != [] else Usable(st.key))
    && forall k | 0 <= k < |st.macs| :: Mac(st.macs[k])
  }

  /** Exactly which requests are accepted. */
  lemma {:induction false} AcceptedExactly(d: Desired)
    ensures Valid(d) <==>
              && d.revision > 0 && |d.vlans| <= 256 && |d.stations| <= 4096 && |AllMacs(d.stations)| <= 4096
              && (forall k | 0 <= k < |d.vlans| :: 0 < d.vlans[k] < 4095)
              && (forall j, k | 0 <= j < |d.vlans| && 0 <= k < |d.vlans| && d.vlans[j] == d.vlans[k] :: j == k)
              && (forall k | 0 <= k < |d.stations| :: Asks(d.stations[k], d.vlans))
              && (forall k | 0 <= k < |d.ssids| :: 0 < |d.ssids[k]| < 33)
              && (d.trunk == "" || d.trunk == "auto" || DeviceName(d.trunk))
  {
    MacsCounted(d.stations);
    forall k | 0 <= k < |d.stations| ensures ValidStation(d.stations[k], d.vlans) <==> Asks(d.stations[k], d.vlans) {
      AsksIs(d.stations[k], d.vlans);
    }
    hide ValidStation, Asks, MacCount, AllMacs;
  }

  lemma {:induction false} AsksIs(st: Station, vlans: seq<int>)
    ensures ValidStation(st, vlans) <==> Asks(st, vlans)
  {
    forall k | 0 <= k < |st.macs| ensures ValidMac(st.macs[k]) <==> Mac(st.macs[k]) { MacExactly(st.macs[k]); }
    assert ValidKey(st.key) <==> Usable(st.key);
    hide ValidMac, Mac, ValidKey, Usable;
  }

  // ---- names ----

  /** Names of the Wi-Fi plane are never taken for the engine's. */
  lemma {:induction false} PlaneNamesAreNot(x: string)
    ensures !OwnedName("perch_n" + x)
  {
    var name := "perch_n" + x;
    assert name[|PREFIX|..] == "n" + x;
    assert ("n" + x)[0] == 'n';
  }

  /** A section's name is shortened to its letters, digits and underscores, 24 at most. */
  lemma {:induction false} ShortNameExactly(s: string, room: nat)
    ensures |ShortNameUpTo(s, room)| <= room && AllWordChars(ShortNameUpTo(s, room))
    ensures s != "" && !IsWordChar(s[0]) ==> ShortNameUpTo(s, room) == ShortNameUpTo(s[1..], room)
    ensures AllWordChars(s) ==> ShortNameUpTo(s, room) == if |s| <= room then s else s[..room]
    ensures ShortName(s) == ShortNameUpTo(s, 24)
  {
    ShortNameWordChars(s, room);
    if s != [] {
      ShortNameExactly(s[1..], if room > 0 && IsWordChar(s[0]) then room - 1 else room);
      if AllWordChars(s) {
        assert IsWordChar(s[0]);
        assert forall i | 0 <= i < |s[1..]| :: s[1..][i] == s[i + 1];
        assert s == [s[0]] + s[1..];
        if 0 < room < |s| { assert s[..room] == [s[0]] + s[1..][..room - 1]; }
      }
    }
  }

  // ---- what the interfaces get ----

  /** Every managed interface has dynamic_vlan 1 afterwards, and the ledger keeps what it had,
      unless that was 1 already; on every other section dynamic_vlan is as undoing left it. */
  ghost predicate DynamicSet(c: Config, d: Desired, r: Planned) {
    && |c| <= |r.w|
    && (forall i | 0 <= i < |c| ::
          var managed := OnAir(c[i], d.ssids) && WithPassphrase(c[i]);
          && (managed ==> r.w[i].Text("dynamic_vlan") == "1")
          && (!managed ==> r.w[i] == c[i])
          && (c[i].name in r.ledger.dynamicVlan <==> managed && c[i].Text("dynamic_vlan") != "1")
          && (c[i].name in r.ledger.dynamicVlan ==> r.ledger.dynamicVlan[c[i].name] == c[i].Text("dynamic_vlan")))
  }

  lemma {:induction false} DynamicVlanExactly(w: Config, n: Config, d: Desired, detected: string, prev: Ledger, r: Planned)
    requires Plan(w, n, d, detected, prev) == Ok(r) && d.vlans != [] && WellNamed(w) && WellNamed(n)
    ensures DynamicSet(Undo(w, n, prev).w, d, r)
  {
    var base := Undo(w, n, prev);
    var c := base.w;
    UndoNamed(w, n, prev);
    assert BuildOn(base, d, detected, prev.converted) == Ok(r) && UniqueNames(c);
    hide Undo, Valid, OnAir, WithPassphrase, Managed, ManagedIfaces, WellNamed, Plan;
    var managed, vids, port, net := BuiltShape(base, d, detected, prev.converted, r);
    BuiltManaged(base, d, detected, prev.converted, managed, vids, port, net, r);
    hide BuildOn, Built;
    ShapeSlices(base, managed, net, WirelessAdds(d, managed, vids), r);
    assert r.ledger.dynamicVlan == DynBefore(c, managed);
    hide Shape, DynBefore, WirelessAdds;
    forall i | 0 <= i < |c|
      ensures var on := OnAir(c[i], d.ssids) && WithPassphrase(c[i]);
              && (on ==> r.w[i].Text("dynamic_vlan") == "1") && (!on ==> r.w[i] == c[i])
              && (c[i].name in r.ledger.dynamicVlan <==> on && c[i].Text("dynamic_vlan") != "1")
              && (c[i].name in r.ledger.dynamicVlan ==> r.ledger.dynamicVlan[c[i].name] == c[i].Text("dynamic_vlan"))
    {
      ManagedMeans(c[i], d.ssids);
      ManagedExactly(c, d.ssids, i);
      DynBeforeAt(c, managed, i);
      assert r.w[i] == r.w[..|c|][i] == MarkDyn(c[i], IfaceNames(managed));
      GetAfterSet(c[i].options, "dynamic_vlan", Str("1"), "dynamic_vlan");
    }
  }

  /** Every VLAN has a wifi-vlan on every managed interface, named for both. */
  lemma {:induction false} WifiVlanOnEach(w: Config, n: Config, d: Desired, detected: string, prev: Ledger, r: Planned, i: nat, v: int)
    requires Plan(w, n, d, detected, prev) == Ok(r) && v in d.vlans && WellNamed(w) && WellNamed(n)
    requires var c := Undo(w, n, prev).w; i < |c| && OnAir(c[i], d.ssids) && WithPassphrase(c[i])
    ensures HasWifiVlan(r, Undo(w, n, prev).w[i].name, v)
  {
    var base := Undo(w, n, prev);
    UndoNamed(w, n, prev);
    SortIntsKeeps(d.vlans);
    assert BuildOn(base, d, detected, prev.converted) == Ok(r) && UniqueNames(base.w);
    hide Undo, Valid, OnAir, WithPassphrase, Managed, ManagedIfaces, WellNamed, Plan, HasWifiVlan, SortInts;
    var managed, vids, port, net := BuiltShape(base, d, detected, prev.converted, r);
    BuiltManaged(base, d, detected, prev.converted, managed, vids, port, net, r);
    assert vids == SortInts(d.vlans);
    ShapeSlices(base, managed, net, WirelessAdds(d, managed, vids), r);
    hide BuildOn, Built, Shape, WirelessAdds;
    var b := ManagedAt(base.w, d.ssids, i);
    WifiVlanThere(r, base.w, managed, d, vids, b, v);
  }
}
