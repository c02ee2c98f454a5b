/** What an apply is expected to leave running, read off the config and a list. */
module HealthExpect {
  import opened Wrappers
  import opened Text
  import opened UciConfig
  import opened Health

  /** The controller's list. */
  datatype Expect = Expect(bss: seq<string>, radios: seq<string>)

  const NO_EXPECT := Expect([], [])

  function RawItems(s: Section, option: string): seq<string> {
    match s.Get(option)
    case Some(List(items)) => items
    case Some(Str(v)) => [v]
    case None => []
  }

  predicate Enabled(s: Section) {
    ToLower(TrimSpace(s.Text("disabled"))) !in ["1", "on", "true", "yes", "enabled"]
  }

  predicate IsRadio(s: Section) { s.typ == "wifi-device" }

  predicate IsIface(s: Section) { s.typ == "wifi-iface" }

  predicate IsAp(s: Section) { IsIface(s) && (s.Text("mode") == "" || s.Text("mode") == "ap") }

  function OnRadios(cfg: Config): set<string> {
    set s | s in cfg && IsRadio(s) && Enabled(s) :: s.name
  }

  function Live(radios: seq<string>, on: set<string>): seq<string> {
    if radios == [] then [] else (if radios[0] in on then [radios[0]] else []) + Live(radios[1..], on)
  }

  function AsBss(s: Section): ExpBss { ExpBss(RawItems(s, "device"), s.Text("ssid")) }

  /** An access point that must run, on these radios. */
  predicate MustRun(s: Section, on: set<string>) {
    IsAp(s) && Enabled(s) && Live(AsBss(s).radios, on) != []
  }

  function LiveBss(s: Section, on: set<string>): ExpBss { ExpBss(Live(AsBss(s).radios, on), s.Text("ssid")) }

  function Members(items: seq<string>): set<string> { set r | r in items }

  // ---- the passes over the config ----

  const NOTHING := Expectation({}, map[], map[])

  function IfaceStep(e: Expectation, s: Section, on: set<string>): Expectation {
    var ap := if IsAp(s) then e.ap[s.name := AsBss(s)] else e.ap;
    if MustRun(s, on) then
      Expectation(e.radios + Members(Live(AsBss(s).radios, on)), e.bss[s.name := LiveBss(s, on)], ap)
    else e.(ap := ap)
  }

  function FromIfaces(cfg: Config, on: set<string>): Expectation {
    if cfg == [] then NOTHING else IfaceStep(FromIfaces(cfg[..|cfg| - 1], on), cfg[|cfg| - 1], on)
  }

  function FromConfig(cfg: Config): Expectation { FromIfaces(cfg, OnRadios(cfg)) }

  function AllIfaces(cfg: Config): map<string, ExpBss> {
    if cfg == [] then map[]
    else
      var last, before := cfg[|cfg| - 1], AllIfaces(cfg[..|cfg| - 1]);
      if IsIface(last) then before[last.name := AsBss(last)] else before
  }

  /** What the config says of a BSS the controller expects; nothing when it is not there. */
  function Known(all: map<string, ExpBss>, name: string): ExpBss {
    if name in all then all[name] else ExpBss([], "")
  }

  function NonEmpty(items: seq<string>): set<string> { set r | r in items && r != "" }

  function ListedStep(e: Expectation, all: map<string, ExpBss>, name: string): Expectation {
    if name in e.bss || name == "" then e
    else e.(bss := e.bss[name := Known(all, name)], radios := e.radios + Members(Known(all, name).radios))
  }

  function WithListed(e: Expectation, all: map<string, ExpBss>, names: seq<string>): Expectation {
    if names == [] then e
    else ListedStep(WithListed(e, all, names[..|names| - 1]), all, names[|names| - 1])
  }

  function ExpectFrom(cfg: Option<Config>, ex: Expect): Expectation {
    var config := if cfg.Some? then cfg.value else [];
    var e := FromConfig(config);
    WithListed(e.(radios := e.radios + NonEmpty(ex.radios)), AllIfaces(config), ex.bss)
  }

  // ---- what is expected, section by section ----

  lemma {:induction false} LiveIs(radios: seq<string>, on: set<string>)
    ensures forall r :: r in Live(radios, on) <==> r in radios && r in on
  {
    if radios != [] {
      LiveIs(radios[1..], on);
    }
  }

  ghost predicate Expects(e: Expectation, cfg: Config, on: set<string>) {
    (forall n :: n in e.bss <==> exists s :: s in cfg && MustRun(s, on) && s.name == n) &&
    (forall s | s in cfg && MustRun(s, on) :: e.bss[s.name] == LiveBss(s, on)) &&
    (forall r :: r in e.radios <==> exists s :: s in cfg && MustRun(s, on) && r in LiveBss(s, on).radios)
  }

  lemma {:induction false} FromIfacesIs(cfg: Config, on: set<string>)
    requires forall i, j | 0 <= i < j < |cfg| :: cfg[i].name != cfg[j].name
    ensures Expects(FromIfaces(cfg, on), cfg, on)
  {
    if cfg != [] {
      var last, before := cfg[|cfg| - 1], cfg[..|cfg| - 1];
      FromIfacesIs(before, on);
      hide MustRun, LiveBss, Live;
      var e := FromIfaces(cfg, on);
      assert forall s :: s in cfg <==> s in before || s == last;
      assert forall s | s in before :: s.name != last.name;
      IfaceStepIs(FromIfaces(before, on), last, on);
    }
  }

  lemma {:induction false} IfaceStepIs(e: Expectation, s: Section, on: set<string>)
    ensures var e' := IfaceStep(e, s, on);
            (!MustRun(s, on) ==> e'.bss == e.bss && e'.radios == e.radios) &&
            (MustRun(s, on) ==> e'.bss == e.bss[s.name := LiveBss(s, on)] &&
                                forall r :: r in e'.radios <==> r in e.radios || r in LiveBss(s, on).radios)
  {
  }

  /** Without a list, exactly the enabled access points with an enabled radio must run, on
      those radios and with their SSID; and exactly those radios. */
  lemma {:induction false} ConfigExpectsExactly(cfg: Config)
    requires forall i, j | 0 <= i < j < |cfg| :: cfg[i].name != cfg[j].name
    ensures Expects(ExpectFrom(Some(cfg), NO_EXPECT), cfg, OnRadios(cfg))
  {
    FromIfacesIs(cfg, OnRadios(cfg));
    hide MustRun, LiveBss, FromIfaces;
    var e := FromConfig(cfg);
    assert e.radios + NonEmpty([]) == e.radios;
    assert ExpectFrom(Some(cfg), NO_EXPECT) == e;
  }

  // ---- the controller's list only adds ----

  lemma {:induction false} ListedIs(e: Expectation, all: map<string, ExpBss>, names: seq<string>)
    ensures var e' := WithListed(e, all, names);
            (forall n :: n in e'.bss <==> n in e.bss || (n in names && n != "")) &&
            (forall n | n in e'.bss :: e'.bss[n] == if n in e.bss then e.bss[n] else Known(all, n)) &&
            (forall r :: r in e'.radios <==>
                         r in e.radios || exists n :: n in names && n != "" && n !in e.bss && r in Known(all, n).radios) &&
            e'.ap == e.ap
  {
    if names != [] {
      var last, before := names[|names| - 1], names[..|names| - 1];
      ListedIs(e, all, before);
      assert forall n :: n in names <==> n in before || n == last;
      hide Known;
      var was := WithListed(e, all, before);
      if last !in was.bss && last != "" {
        assert last !in e.bss;
        forall r ensures r in WithListed(e, all, names).radios <==> r in was.radios || r in Known(all, last).radios {}
      }
    }
  }

  /** The union: everything the config expects, as it expects it, and exactly the listed
      sections and radios besides. */
  lemma {:induction false} ListOnlyAdds(cfg: Option<Config>, ex: Expect)
    ensures var own, e := ExpectFrom(cfg, NO_EXPECT), ExpectFrom(cfg, ex);
            NoMoreExpected(own, e) && e.ap == own.ap &&
            (forall n :: n in e.bss <==> n in own.bss || n in NonEmpty(ex.bss)) &&
            (forall r | r in NonEmpty(ex.radios) :: r in e.radios)
  {
    var config := if cfg.Some? then cfg.value else [];
    var e := FromConfig(config);
    assert e.radios + NonEmpty([]) == e.radios;
    ListedIs(e.(radios := e.radios + NonEmpty(ex.radios)), AllIfaces(config), ex.bss);
  }

  /** A radio of a BSS that must run must be up. */
  predicate Closed(e: Expectation) {
    forall n, r | n in e.bss && r in e.bss[n].radios :: r in e.radios
  }

  lemma {:induction false} FromIfacesClosed(cfg: Config, on: set<string>)
    ensures Closed(FromIfaces(cfg, on))
  {
    if cfg != [] {
      FromIfacesClosed(cfg[..|cfg| - 1], on);
      hide MustRun, Live;
      IfaceStepIs(FromIfaces(cfg[..|cfg| - 1], on), cfg[|cfg| - 1], on);
    }
  }

  lemma {:induction false} ListedClosed(e: Expectation, all: map<string, ExpBss>, names: seq<string>)
    requires Closed(e)
    ensures Closed(WithListed(e, all, names))
  {
    if names != [] {
      ListedClosed(e, all, names[..|names| - 1]);
    }
  }

  lemma {:induction false} ExpectationClosed(cfg: Option<Config>, ex: Expect)
    ensures Closed(ExpectFrom(cfg, ex))
  {
    var config := if cfg.Some? then cfg.value else [];
    FromIfacesClosed(config, OnRadios(config));
    var e := FromConfig(config);
    ListedClosed(e.(radios := e.radios + NonEmpty(ex.radios)), AllIfaces(config), ex.bss);
  }

  // ---- the method ----

  method LiveRadios(radios: seq<string>, on: set<string>) returns (live: seq<string>)
    ensures live == Live(radios, on)
  {
    live := [];
    assert radios[0..] == radios;
    for i := 0 to |radios|
      invariant live + Live(radios[i..], on) == Live(radios, on)
    {
      assert radios[i..][1..] == radios[i + 1..];
      if radios[i] in on {
        live := live + [radios[i]];
      }
    }
  }

  method AddAll(radios: set<string>, more: seq<string>) returns (all: set<string>)
    ensures all == radios + Members(more)
  {
    all := radios;
    for i := 0 to |more|
      invariant all == radios + Members(more[..i])
    {
      all := all + {more[i]};
      assert more[..i + 1] == more[..i] + [more[i]];
    }
    assert more[..|more|] == more;
  }

  method On(cfg: Config) returns (on: set<string>)
    ensures on == OnRadios(cfg)
  {
    on := {};
    for i := 0 to |cfg|
      invariant on == OnRadios(cfg[..i])
    {
      if IsRadio(cfg[i]) && Enabled(cfg[i]) {
        on := on + {cfg[i].name};
      }
      assert cfg[..i + 1] == cfg[..i] + [cfg[i]];
    }
    assert cfg[..|cfg|] == cfg;
  }

  method Compute(cfg: Option<Config>, ex: Expect) returns (e: Expectation)
    ensures e == ExpectFrom(cfg, ex)
  {
    var radios, bss, ap := {}, map[], map[];
    var all: map<string, ExpBss> := map[];
    var config := if cfg.Some? then cfg.value else [];
    ghost var on0 := OnRadios(config);
    if cfg.Some? {
      var on := On(config);
      for i := 0 to |config|
        invariant Expectation(radios, bss, ap) == FromIfaces(config[..i], on0)
        invariant all == AllIfaces(config[..i])
      {
        var s := config[i];
        assert config[..i + 1][..i] == config[..i];
        if !IsIface(s) {
          continue;
        }
        var b := AsBss(s);
        all := all[s.name := b];
        if !IsAp(s) {
          continue;
        }
        ap := ap[s.name := b];
        if !Enabled(s) {
          continue;
        }
        var live := LiveRadios(b.radios, on);
        if live == [] {
          continue;
        }
        bss := bss[s.name := ExpBss(live, b.ssid)];
        radios := AddAll(radios, live);
      }
      assert config[..|config|] == config;
    }
    ghost var own := radios;
    for i := 0 to |ex.radios|
      invariant radios == own + NonEmpty(ex.radios[..i])
    {
      if ex.radios[i] != "" {
        radios := radios + {ex.radios[i]};
      }
      assert ex.radios[..i + 1] == ex.radios[..i] + [ex.radios[i]];
    }
    assert ex.radios[..|ex.radios|] == ex.radios;
    ghost var start := Expectation(radios, bss, ap);
    for i := 0 to |ex.bss|
      invariant Expectation(radios, bss, ap) == WithListed(start, all, ex.bss[..i])
    {
      var name := ex.bss[i];
      assert ex.bss[..i + 1][..i] == ex.bss[..i];
      if name in bss || name == "" {
        continue;
      }
      var b := Known(all, name);
      bss := bss[name := b];
      radios := AddAll(radios, b.radios);
    }
    assert ex.bss[..|ex.bss|] == ex.bss;
    e := Expectation(radios, bss, ap);
  }
}
