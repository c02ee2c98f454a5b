/** What the health check looks for, in the config's own options, and what it reports, problem
    by problem. */
module HealthLaws {
  import opened Wrappers
  import opened Text
  import opened TextLaws
  import opened UciConfig
  import opened Health
  import opened HealthExpect
  import opened HealthCheck

  // ---- what the config says must run ----

  /** The text reads as yes: one of five words in any case, blanks around it aside. */
  ghost predicate Yes(text: string) {
    exists a, t, b, w :: text == a + t + b && SaysYes(a, t, b, w)
  }

  predicate SaysYes(a: string, t: string, b: string, w: string) {
    && AllBlank(a) && AllBlank(b) && NoBlankEnds(t)
    && (w == "1" || w == "on" || w == "true" || w == "yes" || w == "enabled")
    && |t| == |w| && forall i | 0 <= i < |t| :: Lowered(t[i], w[i])
  }

  lemma {:induction false} TrimmedParts(text: string) returns (a: string, b: string)
    ensures text == a + TrimSpace(text) + b && AllBlank(a) && AllBlank(b) && NoBlankEnds(TrimSpace(text))
  {
    a := LeftPart(text);
    var rest := TrimLeft(text, IsSpace);
    b := RightPart(rest);
    assert a + (TrimSpace(text) + b) == a + TrimSpace(text) + b;
  }

  lemma {:induction false} LeftPart(s: string) returns (a: string)
    ensures s == a + TrimLeft(s, IsSpace) && AllBlank(a)
    ensures TrimLeft(s, IsSpace) != [] ==> !IsSpace(TrimLeft(s, IsSpace)[0])
  {
    if s != [] && IsSpace(s[0]) {
      a := LeftPart(s[1..]);
      a := [s[0]] + a;
    } else {
      a := [];
    }
  }

  lemma {:induction false} RightPart(s: string) returns (b: string)
    ensures s == TrimRight(s, IsSpace) + b && AllBlank(b)
    ensures TrimRight(s, IsSpace) != [] ==> !IsSpace(TrimRight(s, IsSpace)[|TrimRight(s, IsSpace)| - 1])
    ensures TrimRight(s, IsSpace) != [] ==> TrimRight(s, IsSpace)[0] == s[0]
  {
    if s != [] && IsSpace(s[|s| - 1]) {
      b := RightPart(s[..|s| - 1]);
      b := b + [s[|s| - 1]];
    } else {
      b := [];
    }
  }

  lemma {:induction false} EnabledExactly(s: Section)
    ensures Enabled(s) <==> !Yes(s.Text("disabled"))
  {
    var text := s.Text("disabled");
    var t := TrimSpace(text);
    var l := ToLower(t);
    hide TrimSpace, ToLower;
    if !Enabled(s) {
      var a, b := TrimmedParts(text);
      ToLowerExactly(t, l);
      assert SaysYes(a, t, b, l);
    }
    if Yes(text) {
      var a, u, b, w :| text == a + u + b && SaysYes(a, u, b, w);
      TrimSpaceOf(a, u, b);
      ToLowerExactly(u, w);
    }
  }

  /** The section lists the device. */
  predicate Lists(s: Section, r: string) {
    match s.Get("device")
    case Some(List(items)) => exists k | 0 <= k < |items| :: items[k] == r
    case Some(Str(v)) => v == r
    case None => false
  }

  /** A wifi-device of the config that is not disabled. */
  ghost predicate RadioOn(cfg: Config, r: string) {
    exists d :: d in cfg && d.typ == "wifi-device" && d.name == r && !Yes(d.Text("disabled"))
  }

  /** An access point that is not disabled, with a radio that is on. */
  ghost predicate ShouldRun(cfg: Config, s: Section) {
    && s.typ == "wifi-iface" && (s.Text("mode") == "" || s.Text("mode") == "ap") && !Yes(s.Text("disabled"))
    && exists r :: Lists(s, r) && RadioOn(cfg, r)
  }

  lemma {:induction false} ListsIs(s: Section)
    ensures forall r :: Lists(s, r) <==> r in RawItems(s, "device")
  {
  }

  lemma {:induction false} OnRadiosIs(cfg: Config)
    ensures forall r :: r in OnRadios(cfg) <==> RadioOn(cfg, r)
  {
    forall s { EnabledExactly(s); }
    hide Enabled, Yes;
  }

  lemma {:induction false} MustRunIs(cfg: Config, s: Section)
    ensures MustRun(s, OnRadios(cfg)) <==> ShouldRun(cfg, s)
    ensures LiveBss(s, OnRadios(cfg)).ssid == s.Text("ssid")
    ensures forall r :: r in LiveBss(s, OnRadios(cfg)).radios <==> Lists(s, r) && RadioOn(cfg, r)
  {
    var on, items := OnRadios(cfg), RawItems(s, "device");
    EnabledExactly(s);
    OnRadiosIs(cfg);
    ListsIs(s);
    LiveIs(items, on);
    hide Yes, RadioOn, Lists, RawItems, OnRadios, Enabled;
    var live := Live(items, on);
    hide Live;
    assert live != [] ==> live[0] in live;
    assert live != [] <==> exists r :: Lists(s, r) && RadioOn(cfg, r);
  }

  /** The expectation without a list: exactly the access points that should run, each with its
      own SSID and its radios that are on, and exactly those radios. */
  ghost predicate ExpectsConfig(e: Expectation, cfg: Config) {
    && (forall n :: n in e.bss <==> exists s :: s in cfg && ShouldRun(cfg, s) && s.name == n)
    && (forall s | s in cfg && ShouldRun(cfg, s) :: IsAs(e, cfg, s))
    && (forall r :: r in e.radios <==> exists s :: s in cfg && ShouldRun(cfg, s) && Lists(s, r) && RadioOn(cfg, r))
  }

  ghost predicate IsAs(e: Expectation, cfg: Config, s: Section) {
    && s.name in e.bss && e.bss[s.name].ssid == s.Text("ssid")
    && forall r :: r in e.bss[s.name].radios <==> Lists(s, r) && RadioOn(cfg, r)
  }

  predicate OneName(cfg: Config) { forall i, j | 0 <= i < j < |cfg| :: cfg[i].name != cfg[j].name }

  lemma {:induction false} ConfigExpects(cfg: Config)
    requires OneName(cfg)
    ensures ExpectsConfig(ExpectFrom(Some(cfg), NO_EXPECT), cfg)
  {
    ConfigExpectsExactly(cfg);
    forall s { MustRunIs(cfg, s); }
    hide MustRun, ShouldRun, LiveBss, OnRadios, ExpectFrom, Lists, RadioOn;
  }

  // ---- passing ----

  /** The access point runs with its own SSID, or was not running before the apply: it, or one
      of its radios that are on. */
  ghost predicate RunsOrBroken(cfg: Config, s: Section, b: Before, rs: RunState) {
    || (s.name in rs.bss && rs.bss[s.name].reachable && rs.bss[s.name].status == "ENABLED"
        && (s.Text("ssid") == "" || rs.bss[s.name].ssid == s.Text("ssid")))
    || s.name in b.bss
    || exists r :: Lists(s, r) && RadioOn(cfg, r) && r in b.radios
  }

  predicate UpOrBroken(r: string, b: Before, rs: RunState) {
    (r in rs.radios && rs.radios[r].up && !rs.radios[r].retrySetupFailed) || r in b.radios
  }

  lemma {:induction false} BssHealthyIs(cfg: Config, e: Expectation, s: Section, b: Before, rs: RunState)
    requires IsAs(e, cfg, s)
    ensures BssWasBroken(b, e.bss[s.name], s.name) || BssRuns(rs, e.bss[s.name], s.name) <==> RunsOrBroken(cfg, s, b, rs)
  {
    hide Lists, RadioOn;
  }

  /** Without a list: an apply passes if and only if the status can be read, every access point
      that should run does with the SSID of its section, and all their radios are up, those that
      were broken before left out. */
  lemma {:induction false} PassesExactly(cfg: Config, b: Before, rs: RunState)
    requires OneName(cfg)
    ensures Healthy(rs, ExpectFrom(Some(cfg), NO_EXPECT), b) <==>
              && !rs.unreadable
              && (forall s | s in cfg && ShouldRun(cfg, s) :: RunsOrBroken(cfg, s, b, rs))
              && (forall s, r | s in cfg && ShouldRun(cfg, s) && Lists(s, r) && RadioOn(cfg, r) :: UpOrBroken(r, b, rs))
  {
    var e := ExpectFrom(Some(cfg), NO_EXPECT);
    ConfigExpects(cfg);
    hide ExpectFrom, ShouldRun, Lists, RadioOn;
    forall s | s in cfg && ShouldRun(cfg, s)
      ensures BssWasBroken(b, e.bss[s.name], s.name) || BssRuns(rs, e.bss[s.name], s.name) <==> RunsOrBroken(cfg, s, b, rs)
    {
      BssHealthyIs(cfg, e, s, b, rs);
    }
    forall r ensures RadioWasBroken(b, r) || RadioRuns(rs, r) <==> UpOrBroken(r, b, rs) {}
    hide BssWasBroken, BssRuns, RunsOrBroken, RadioWasBroken, RadioRuns, UpOrBroken, IsAs;
  }

  /** With any list of the controller's it passes only if that holds. */
  lemma {:induction false} PassesOnlyIf(cfg: Config, ex: Expect, b: Before, rs: RunState)
    requires OneName(cfg) && Healthy(rs, ExpectFrom(Some(cfg), ex), b)
    ensures !rs.unreadable
    ensures forall s | s in cfg && ShouldRun(cfg, s) :: RunsOrBroken(cfg, s, b, rs)
    ensures forall s, r | s in cfg && ShouldRun(cfg, s) && Lists(s, r) && RadioOn(cfg, r) :: UpOrBroken(r, b, rs)
  {
    ListOnlyAdds(Some(cfg), ex);
    var own, e := ExpectFrom(Some(cfg), NO_EXPECT), ExpectFrom(Some(cfg), ex);
    assert Healthy(rs, own, b) by { hide ExpectFrom, BssRuns, BssWasBroken, RadioRuns, RadioWasBroken; }
    hide Healthy, ExpectFrom;
    PassesExactly(cfg, b, rs);
  }

  // ---- the controller's list ----

  lemma {:induction false} AllIfacesIs(cfg: Config, n: string)
    requires OneName(cfg)
    ensures n in AllIfaces(cfg) <==> exists s :: s in cfg && s.typ == "wifi-iface" && s.name == n
    ensures forall s | s in cfg && s.typ == "wifi-iface" && s.name == n :: AllIfaces(cfg)[n] == ExpBss(RawItems(s, "device"), s.Text("ssid"))
  {
    if cfg != [] {
      var last, before := cfg[|cfg| - 1], cfg[..|cfg| - 1];
      AllIfacesIs(before, n);
      hide RawItems, Section.Text;
      assert forall s :: s in cfg <==> s in before || s == last;
      assert forall s | s in before :: s.name != last.name;
    }
  }

  /** A listed section that the config does not expect by itself: it must run with the SSID the
      config gives it and all its radios, whatever disables them; one the config does not know
      must run with any SSID. */
  lemma {:induction false} ListedExpects(cfg: Config, ex: Expect, n: string)
    requires OneName(cfg) && n in ex.bss && n != "" && n !in ExpectFrom(Some(cfg), NO_EXPECT).bss
    ensures var e := ExpectFrom(Some(cfg), ex);
            && n in e.bss
            && (forall s | s in cfg && s.typ == "wifi-iface" && s.name == n ::
                  e.bss[n].ssid == s.Text("ssid") && forall r :: r in e.bss[n].radios <==> Lists(s, r))
            && ((forall s | s in cfg && s.typ == "wifi-iface" :: s.name != n) ==> e.bss[n] == ExpBss([], ""))
  {
    var own := FromConfig(cfg);
    assert own.radios + NonEmpty([]) == own.radios;
    assert ExpectFrom(Some(cfg), NO_EXPECT) == own;
    ListedIs(own.(radios := own.radios + NonEmpty(ex.radios)), AllIfaces(cfg), ex.bss);
    AllIfacesIs(cfg, n);
    hide AllIfaces, FromConfig, WithListed;
    forall s { ListsIs(s); }
    hide Lists, RawItems;
  }

  // ---- the problems, code by code ----

  ghost predicate RadioHas(rs: RunState, r: string, code: Code) {
    match code
    case RadioDown => r !in rs.radios || (!rs.radios[r].up && !rs.radios[r].retrySetupFailed)
    case RadioSetupFailed => r in rs.radios && rs.radios[r].retrySetupFailed
    case _ => false
  }

  ghost predicate BssHas(rs: RunState, ssid: string, n: string, code: Code) {
    if n !in rs.bss then code == BssMissing
    else
      var run := rs.bss[n];
      if !run.reachable then code == HostapdUnreachable
      else
        match code
        case SsidMismatch => run.status == "ENABLED" && ssid != "" && run.ssid != ssid
        case AcsRunning => run.status == "ACS" || run.status == "HT_SCAN"
        case BssDisabled => run.status != "ENABLED" && run.status != "DFS" && run.status != "ACS" && run.status != "HT_SCAN"
        case _ => false
  }

  ghost predicate WasBroken(b: Before, exp: ExpBss, n: string) {
    n in b.bss || exists r :: r in exp.radios && r in b.radios
  }

  /** What a report lists, radar checks aside: of each expected radio and section the one problem
      it has, with the code that says which, and whether it was broken before. */
  lemma {:induction false} ProblemsExactly(rs: RunState, e: Expectation, b: Before, p: Problem)
    requires p.code != CacRunning
    ensures p in Evaluated(rs, e, b).t.problems <==>
              || (rs.unreadable && p == Problem(StatusUnreadable, "", false))
              || (!rs.unreadable && p.section in e.radios && RadioHas(rs, p.section, p.code) && (p.preexisting <==> p.section in b.radios))
              || (!rs.unreadable && p.section in e.bss && BssHas(rs, e.bss[p.section].ssid, p.section, p.code)
                  && (p.preexisting <==> WasBroken(b, e.bss[p.section], p.section)))
  {
    ListedExactly(rs, e, b, p);
    hide Evaluated;
    RadioProblemExactly(rs, e, b, p);
    BssProblemExactly(rs, e, b, p);
    hide RadioProblem, BssProblem, RadioHas, BssHas, WasBroken;
  }

  lemma {:induction false} RadioProblemExactly(rs: RunState, e: Expectation, b: Before, p: Problem)
    ensures RadioProblem(rs, e, b, p.section) == Some(p) <==>
              !rs.unreadable && p.section in e.radios && RadioHas(rs, p.section, p.code) && (p.preexisting <==> p.section in b.radios)
  {
  }

  lemma {:induction false} BssProblemExactly(rs: RunState, e: Expectation, b: Before, p: Problem)
    requires p.code != CacRunning
    ensures BssProblem(rs, e, b, p.section) == Some(p) <==>
              !rs.unreadable && p.section in e.bss && BssHas(rs, e.bss[p.section].ssid, p.section, p.code)
              && (p.preexisting <==> WasBroken(b, e.bss[p.section], p.section))
  {
    if p.section in e.bss {
      assert BssWasBroken(b, e.bss[p.section], p.section) <==> WasBroken(b, e.bss[p.section], p.section);
    }
    hide BssWasBroken, WasBroken;
  }

  /** Radar checks: one problem for each radio that an expected section waits for. */
  lemma {:induction false} RadarExactly(rs: RunState, e: Expectation, b: Before, r: string)
    requires !rs.unreadable
    ensures RadarListed(Evaluated(rs, e, b).t.problems, r) <==>
              exists n :: n in e.bss && n in rs.bss && rs.bss[n].reachable && rs.bss[n].status == "DFS" && rs.bss[n].radio == r
  {
    RadarListedOnce(rs, e, b);
    hide Evaluated;
    forall n ensures RadarOf(rs, e, n) == Some(r) <==>
                     n in e.bss && n in rs.bss && rs.bss[n].reachable && rs.bss[n].status == "DFS" && rs.bss[n].radio == r {}
    hide RadarOf;
  }

  /** The seconds a radar check that was not broken before still takes, and 15 more. */
  ghost predicate AsksFor(rs: RunState, e: Expectation, b: Before, n: string, seconds: int) {
    && n in e.bss && n in rs.bss && !WasBroken(b, e.bss[n], n)
    && rs.bss[n].reachable && rs.bss[n].status == "DFS"
    && rs.bss[n].dfs.Some? && rs.bss[n].dfs.value.active && rs.bss[n].dfs.value.left > 0
    && seconds == rs.bss[n].dfs.value.left + 15
  }

  lemma {:induction false} WaitExactly(rs: RunState, e: Expectation, b: Before)
    requires !rs.unreadable
    ensures var x := Evaluated(rs, e, b).extend;
            && (forall n, seconds | AsksFor(rs, e, b, n, seconds) :: seconds <= x)
            && (x == 0 || exists n :: AsksFor(rs, e, b, n, x))
  {
    ExtendIsTheLongest(rs, e, b);
    hide Evaluated;
    forall n, seconds | AsksFor(rs, e, b, n, seconds) ensures n in e.bss && Wait(rs, e, b, n) == seconds {}
    forall n | n in e.bss && Wait(rs, e, b, n) > 0 ensures AsksFor(rs, e, b, n, Wait(rs, e, b, n)) {}
    hide Wait, AsksFor;
  }

  // ---- on its way ----

  /** A section that hostapd is still bringing up, or that scans. */
  predicate BringsUp(rs: RunState, n: string) {
    && n in rs.bss && rs.bss[n].reachable
    && (var status := rs.bss[n].status;
        || status == "DFS" || status == "ACS" || status == "HT_SCAN"
        || status == "COUNTRY_UPDATE" || status == "UNINITIALIZED" || status == "")
  }

  /** A radio that netifd is still setting up. */
  predicate SetsUp(rs: RunState, r: string) {
    r in rs.radios && rs.radios[r].pending && !rs.radios[r].up && !rs.radios[r].retrySetupFailed
  }

  /** A judgement is pending rather than failed exactly when all that does not run yet, and was
      not broken before, is being set up. */
  lemma {:induction false} PendingExactly(rs: RunState, e: Expectation, b: Before)
    ensures Evaluated(rs, e, b).t.lasting == 0 <==>
              && !rs.unreadable
              && (forall r | r in e.radios :: UpOrBroken(r, b, rs) || SetsUp(rs, r))
              && (forall n | n in e.bss ::
                    WasBroken(b, e.bss[n], n) || BssRuns(rs, e.bss[n], n) || BringsUp(rs, n))
  {
    OkExactly(rs, e, b);
    hide Evaluated;
    forall r ensures RadioWasBroken(b, r) || RadioRuns(rs, r) || RadioComing(rs, r) <==> UpOrBroken(r, b, rs) || SetsUp(rs, r) {}
    forall n | n in e.bss
      ensures BssWasBroken(b, e.bss[n], n) || BssScanning(rs, n) || BssStarting(rs, n) <==> WasBroken(b, e.bss[n], n) || BringsUp(rs, n)
    {
      assert BssWasBroken(b, e.bss[n], n) <==> WasBroken(b, e.bss[n], n);
    }
    hide RadioWasBroken, RadioRuns, RadioComing, UpOrBroken, SetsUp, BssWasBroken, BssScanning, BssStarting, WasBroken, BringsUp, BssRuns;
  }
}
