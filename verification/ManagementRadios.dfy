/** The radios that carry management traffic: a bounded breadth-first search over the links
    between network devices, which may be cyclic. */
module ManagementRadios {
  import opened Wrappers
  import opened Text
  import opened SortedKeys

  datatype IfType = Ap | Station | MeshPoint | Wds | OtherType

  /** What sysfs, nl80211 and netifd show. `entries` and `brif` are directory listings,
      `phys` the phy of a device that has one. */
  datatype Net = Net(
    entries: map<string, seq<string>>, brif: map<string, seq<string>>, nl: map<string, IfType>,
    radioOfIf: map<string, string>, modeOfIf: map<string, string>, phys: map<string, string>, phyRadio: map<string, string>)

  function Lookup(m: map<string, string>, key: string): string { if key in m then m[key] else "" }

  function Listing(m: map<string, seq<string>>, key: string): seq<string> { if key in m then m[key] else [] }

  predicate Wireless(net: Net, d: string) { d in net.nl || d in net.phys }

  predicate Uplink(net: Net, d: string) {
    if d in net.nl then net.nl[d] in {Station, MeshPoint, Wds} else Lookup(net.modeOfIf, d) in ["sta", "mesh", "wds"]
  }

  function RadioOf(net: Net, d: string): string {
    if Lookup(net.radioOfIf, d) != "" then Lookup(net.radioOfIf, d)
    else if d in net.phys then Lookup(net.phyRadio, net.phys[d])
    else ""
  }

  function Lowers(entries: seq<string>): seq<string> {
    if entries == [] then []
    else
      (match CutPrefix(entries[0], "lower_")
       case Some(name) => [name]
       case None => [])
      + Lowers(entries[1..])
  }

  /** The devices below one. */
  function Links(net: Net, d: string): seq<string> { Lowers(Listing(net.entries, d)) + Listing(net.brif, d) }

  // ---- what the search is for ----

  predicate IsPath(net: Net, path: seq<string>) {
    path != [] &&
    forall i | 0 <= i < |path| - 1 :: !Wireless(net, path[i]) && path[i + 1] in Links(net, path[i])
  }

  /** d is at most n links below dev, through devices that are not wireless. */
  ghost predicate Within(net: Net, dev: string, d: string, n: nat) {
    exists path :: PathTo(net, path, dev, d) && |path| <= n + 1
  }

  predicate PathTo(net: Net, path: seq<string>, dev: string, d: string) {
    IsPath(net, path) && path[0] == dev && path[|path| - 1] == d
  }

  /** d is a wireless device that carries the uplink over dev, on radio r. */
  predicate Carries(net: Net, dev: string, d: string, r: string) {
    Wireless(net, d) && (d == dev || Uplink(net, d)) && r != "" && RadioOf(net, d) == r
  }

  ghost predicate Manages(net: Net, dev: string, r: string) {
    exists d :: Within(net, dev, d, 5) && Carries(net, dev, d, r)
  }

  // ---- paths ----

  lemma {:induction false} Here(net: Net, dev: string, n: nat)
    ensures Within(net, dev, dev, n)
  {
    assert PathTo(net, [dev], dev, dev);
  }

  lemma {:induction false} OneMore(net: Net, dev: string, p: string, d: string, n: nat)
    requires Within(net, dev, p, n) && !Wireless(net, p) && d in Links(net, p)
    ensures Within(net, dev, d, n + 1)
  {
    var path :| PathTo(net, path, dev, p) && |path| <= n + 1;
    var longer := path + [d];
    forall i | 0 <= i < |longer| - 1 ensures !Wireless(net, longer[i]) && longer[i + 1] in Links(net, longer[i]) {
      assert longer[i] == path[i];
      if i + 1 < |path| { assert longer[i + 1] == path[i + 1]; }
    }
    assert PathTo(net, longer, dev, d);
  }

  /** The last link of a way down. */
  lemma {:induction false} LastLink(net: Net, dev: string, d: string, n: nat) returns (p: string)
    requires Within(net, dev, d, n) && d != dev
    ensures n > 0 && Within(net, dev, p, n - 1) && !Wireless(net, p) && d in Links(net, p)
  {
    var path :| PathTo(net, path, dev, d) && |path| <= n + 1;
    var shorter := path[..|path| - 1];
    p := shorter[|shorter| - 1];
    assert path[|shorter|] == d;
    assert PathTo(net, shorter, dev, p);
  }

  lemma {:induction false} Looser(net: Net, dev: string, d: string, n: nat, m: nat)
    requires Within(net, dev, d, n) && n <= m
    ensures Within(net, dev, d, m)
  {
    var path :| PathTo(net, path, dev, d) && |path| <= n + 1;
    assert |path| <= m + 1;
  }

  // ---- the levels ----

  /** Below a device already looked through, everything is seen or queued. */
  ghost predicate Followed(net: Net, seen: set<string>, queue: seq<string>) {
    forall p, x | p in seen && !Wireless(net, p) && x in Links(net, p) :: x in seen || x in queue
  }

  /** Before the level `depth`: what is seen or queued is within `depth` links, and what is
      within them is seen or queued. */
  ghost predicate Level(net: Net, dev: string, seen: set<string>, queue: seq<string>, depth: nat) {
    (forall d | d in queue :: Within(net, dev, d, depth)) &&
    (forall d | d in seen :: depth > 0 && Within(net, dev, d, depth - 1)) &&
    (forall d | Within(net, dev, d, depth) :: d in seen || d in queue) &&
    (depth > 0 ==> forall d | Within(net, dev, d, depth - 1) :: d in seen) &&
    Followed(net, seen, queue)
  }

  ghost predicate NextOf(net: Net, news: set<string>, next: seq<string>) {
    forall x :: x in next <==> exists p :: p in news && !Wireless(net, p) && x in Links(net, p)
  }

  lemma {:induction false} LevelDone(net: Net, dev: string, seen: set<string>, queue: seq<string>, depth: nat,
                                     seen': set<string>, next: seq<string>)
    requires Level(net, dev, seen, queue, depth)
    requires (forall d :: d in seen' <==> d in seen || d in queue) && NextOf(net, seen' - seen, next)
    ensures Level(net, dev, seen', next, depth + 1)
  {
    hide Within, Links, Wireless;
    forall d | d in next ensures Within(net, dev, d, depth + 1) {
      var p :| p in seen' - seen && !Wireless(net, p) && d in Links(net, p);
      OneMore(net, dev, p, d, depth);
    }
    forall d | d in seen' ensures Within(net, dev, d, depth) {
      if d in seen { Looser(net, dev, d, depth - 1, depth); }
    }
    assert Followed(net, seen', next);
    forall d | Within(net, dev, d, depth + 1) ensures d in seen' || d in next {
      if d == dev {
        Here(net, dev, depth);
      } else {
        var p := LastLink(net, dev, d, depth + 1);
        assert p in seen';
      }
    }
  }

  /** With nothing queued, everything within any number of links is seen. */
  lemma {:induction false} NothingLeft(net: Net, dev: string, seen: set<string>, depth: nat, d: string, n: nat)
    requires Level(net, dev, seen, [], depth) && Within(net, dev, d, n)
    ensures d in seen
    decreases n
  {
    hide Within, Links, Wireless;
    if d == dev {
      Here(net, dev, depth);
    } else {
      var p := LastLink(net, dev, d, n);
      NothingLeft(net, dev, seen, depth, p, n - 1);
    }
  }

  /** When the search ends, it has seen exactly what is within five links. */
  lemma {:induction false} SeenAll(net: Net, dev: string, seen: set<string>, queue: seq<string>, depth: nat)
    requires Level(net, dev, seen, queue, depth) && 0 < depth <= 6 && (queue == [] || depth == 6)
    ensures forall d :: d in seen <==> Within(net, dev, d, 5)
  {
    hide Within, Followed;
    forall d ensures d in seen <==> Within(net, dev, d, 5) {
      if d in seen { Looser(net, dev, d, depth - 1, 5); }
      if Within(net, dev, d, 5) && depth < 6 { NothingLeft(net, dev, seen, depth, d, 5); }
    }
  }

  // ---- the search ----

  method LowerNames(entries: seq<string>, next: seq<string>) returns (names: seq<string>)
    ensures names == next + Lowers(entries)
  {
    names := next;
    assert entries[0..] == entries;
    for i := 0 to |entries|
      invariant names + Lowers(entries[i..]) == next + Lowers(entries)
    {
      assert entries[i..][1..] == entries[i + 1..];
      var name := CutPrefix(entries[i], "lower_");
      if name.Some? {
        names := names + [name.value];
      }
    }
  }

  ghost predicate FoundIn(net: Net, dev: string, seen: set<string>, found: set<string>) {
    forall r :: r in found <==> exists d :: d in seen && Carries(net, dev, d, r)
  }

  /** One device of the queue. */
  method Look(net: Net, dev: string, seen: set<string>, found: set<string>, next: seq<string>, d: string)
    returns (seen': set<string>, found': set<string>, next': seq<string>)
    requires FoundIn(net, dev, seen, found)
    ensures seen' == seen + {d} && FoundIn(net, dev, seen', found')
    ensures next' == next + if d in seen || Wireless(net, d) then [] else Links(net, d)
  {
    seen', found', next' := seen, found, next;
    if d in seen {
      assert seen + {d} == seen;
      return;
    }
    seen' := seen + {d};
    if Wireless(net, d) {
      if d == dev || Uplink(net, d) {
        var r := RadioOf(net, d);
        if r != "" {
          found' := found + {r};
        }
      }
      forall r ensures r in found' <==> exists x :: x in seen' && Carries(net, dev, x, r) {
        assert (exists x :: x in seen' && Carries(net, dev, x, r)) <==> r in found || Carries(net, dev, d, r);
      }
      return;
    }
    assert forall r :: !Carries(net, dev, d, r);
    next' := LowerNames(Listing(net.entries, d), next);
    next' := next' + Listing(net.brif, d);
  }

  method LookAtLevel(net: Net, dev: string, seen: set<string>, found: set<string>, queue: seq<string>)
    returns (seen': set<string>, found': set<string>, next: seq<string>)
    requires FoundIn(net, dev, seen, found)
    ensures FoundIn(net, dev, seen', found')
    ensures (forall d :: d in seen' <==> d in seen || d in queue) && NextOf(net, seen' - seen, next)
  {
    seen', found', next := seen, found, [];
    hide FoundIn, Links, Wireless;
    for i := 0 to |queue|
      invariant FoundIn(net, dev, seen', found')
      invariant forall d :: d in seen' <==> d in seen || d in queue[..i]
      invariant NextOf(net, seen' - seen, next)
    {
      var d := queue[i];
      ghost var was := seen';
      seen', found', next := Look(net, dev, seen', found', next, d);
      assert queue[..i + 1] == queue[..i] + [d];
      assert seen' - seen == (was - seen) + if d in was then {} else {d};
    }
    assert queue[..|queue|] == queue;
  }

  /** The radios of the uplink over dev: in order, each once, and exactly those of the
      wireless devices at most five links below dev, through devices that are not wireless,
      that are dev itself or an uplink. */
  method Find(net: Net, dev: string) returns (out: seq<string>)
    ensures SortedBy(StringLeq, out) && forall i, j | 0 <= i < j < |out| :: out[i] != out[j]
    ensures dev == "" ==> out == []
    ensures dev != "" ==> forall r :: r in out <==> Manages(net, dev, r)
  {
    out := [];
    if dev == "" {
      return;
    }
    var found: set<string>, seen: set<string>, queue := {}, {}, [dev];
    var depth: nat := 0;
    FirstLevel(net, dev);
    hide Within, FoundIn, Carries, Level;
    assert FoundIn(net, dev, {}, {}) by { NothingFound(net, dev); }
    while queue != [] && depth < 6
      decreases 6 - depth
      invariant depth <= 6 && (depth == 0 ==> queue != [])
      invariant Level(net, dev, seen, queue, depth) && FoundIn(net, dev, seen, found)
    {
      var seen', found', next := LookAtLevel(net, dev, seen, found, queue);
      LevelDone(net, dev, seen, queue, depth, seen', next);
      seen, found, queue := seen', found', next;
      depth := depth + 1;
    }
    SeenAll(net, dev, seen, queue, depth);
    FoundAll(net, dev, seen, found);
    out := Collect(found);
    ListedMembers(out, found);
  }

  lemma {:induction false} FirstLevel(net: Net, dev: string)
    ensures Level(net, dev, {}, [dev], 0)
  {
    Here(net, dev, 0);
  }

  lemma {:induction false} NothingFound(net: Net, dev: string)
    ensures FoundIn(net, dev, {}, {})
  {
  }

  lemma {:induction false} FoundAll(net: Net, dev: string, seen: set<string>, found: set<string>)
    requires FoundIn(net, dev, seen, found) && forall d :: d in seen <==> Within(net, dev, d, 5)
    ensures forall r :: r in found <==> Manages(net, dev, r)
  {
    hide Within, Carries;
  }

  // ---- the bound ----

  /** A radio six links down is not found: the search stops at its bound. */
  lemma {:induction false} BoundCounts(net: Net, path: seq<string>, d: string)
    requires IsPath(net, path) && |path| == 7 && path[6] == d
    requires forall i, x | 0 <= i < 6 && x in Links(net, path[i]) :: x == path[i + 1]
    requires forall i, j | 0 <= i < j < 7 :: path[i] != path[j]
    requires Wireless(net, d)
    ensures !Within(net, path[0], d, 5) && Within(net, path[0], d, 6)
  {
    assert PathTo(net, path, path[0], d);
    if Within(net, path[0], d, 5) {
      var other :| PathTo(net, other, path[0], d) && |other| <= 6;
      OnlyPath(net, path, other, |other| - 1);
    }
  }

  lemma {:induction false} OnlyPath(net: Net, path: seq<string>, other: seq<string>, i: nat)
    requires |path| == 7 && IsPath(net, other) && i < |other| <= 6 && other[0] == path[0]
    requires forall k, x | 0 <= k < 6 && x in Links(net, path[k]) :: x == path[k + 1]
    ensures other[i] == path[i]
  {
    if i > 0 {
      OnlyPath(net, path, other, i - 1);
    }
  }

  // ---- in the device's own words ----

  /** A wireless device that a packet leaves by: the route's own, or a station, mesh point or
      WDS link, as nl80211 says, or netifd for a device nl80211 does not know. */
  predicate LeavesBy(net: Net, dev: string, d: string) {
    && (d in net.nl || d in net.phys)
    && (d == dev
        || (d in net.nl && (net.nl[d] == Station || net.nl[d] == MeshPoint || net.nl[d] == Wds))
        || (d !in net.nl && d in net.modeOfIf && (net.modeOfIf[d] == "sta" || net.modeOfIf[d] == "mesh" || net.modeOfIf[d] == "wds")))
  }

  /** The radio netifd has the device on, else the one of its phy. */
  predicate OnRadio(net: Net, d: string, r: string) {
    if d in net.radioOfIf && net.radioOfIf[d] != "" then r == net.radioOfIf[d]
    else d in net.phys && net.phys[d] in net.phyRadio && r == net.phyRadio[net.phys[d]] && r != ""
  }

  lemma {:induction false} CarriesExactly(net: Net, dev: string, d: string, r: string)
    ensures Carries(net, dev, d, r) <==> LeavesBy(net, dev, d) && OnRadio(net, d, r)
  {
  }

  /** What is below a device: its lower devices, and its ports when it is a bridge. */
  lemma {:induction false} LinksExactly(net: Net, d: string, x: string)
    ensures x in Links(net, d) <==>
              (d in net.entries && "lower_" + x in net.entries[d]) || (d in net.brif && x in net.brif[d])
  {
    LowersExactly(Listing(net.entries, d), x);
    hide Lowers;
  }

  lemma {:induction false} LowersExactly(entries: seq<string>, x: string)
    ensures x in Lowers(entries) <==> "lower_" + x in entries
  {
    if entries != [] {
      LowersExactly(entries[1..], x);
      var e := entries[0];
      assert HasPrefix(e, "lower_") ==> e == "lower_" + e[6..];
      assert ("lower_" + x)[6..] == x && HasPrefix("lower_" + x, "lower_");
    }
  }
}
