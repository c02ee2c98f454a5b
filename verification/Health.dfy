/** The health judgement: the running Wi-Fi against what must run, what was broken before
    left out. */
module Health {
  import opened Wrappers
  import opened Text
  import opened SortedKeys

  datatype RadioState = RadioState(up: bool, pending: bool, retrySetupFailed: bool)

  datatype Dfs = Dfs(active: bool, left: int)

  /** A BSS as netifd and hostapd show it. */
  datatype BssRun = BssRun(radio: string, reachable: bool, status: string, ssid: string, dfs: Option<Dfs>)

  datatype RunState = RunState(unreadable: bool, radios: map<string, RadioState>, bss: map<string, BssRun>)

  datatype ExpBss = ExpBss(radios: seq<string>, ssid: string)

  /** `ap` are all AP interfaces of the config, expected or not. */
  datatype Expectation = Expectation(radios: set<string>, bss: map<string, ExpBss>, ap: map<string, ExpBss>)

  /** What was broken before an apply. */
  datatype Before = Before(radios: seq<string>, bss: seq<string>)

  datatype Code =
    | RadioDown | RadioSetupFailed | BssMissing | BssDisabled | SsidMismatch
    | CacRunning | AcsRunning | HostapdUnreachable | ConfigUnreadable | StatusUnreadable

  datatype Problem = Problem(code: Code, section: string, preexisting: bool)

  datatype Tally = Tally(problems: seq<Problem>, counting: nat, lasting: nat)

  /** `ok` with nothing counted, `pending` with nothing counted that lasts. */
  datatype Report = Report(ok: bool, pending: bool, problems: seq<Problem>)

  const CAC_MARGIN := 15

  function Added(t: Tally, p: Problem, transient: bool): Tally {
    if p.preexisting then t.(problems := t.problems + [p])
    else Tally(t.problems + [p], t.counting + 1, if transient then t.lasting else t.lasting + 1)
  }

  // ---- what each radio and each BSS is found as ----

  datatype Finding = Fine | Found(code: Code, transient: bool) | Radar(radio: string, left: int)

  function RadioFinding(rs: RunState, name: string): Finding {
    if name !in rs.radios then Found(RadioDown, false)
    else
      var st := rs.radios[name];
      if st.retrySetupFailed then Found(RadioSetupFailed, false)
      else if !st.up then Found(RadioDown, st.pending)
      else Fine
  }

  function CacLeft(run: BssRun): int {
    match run.dfs
    case Some(d) => if d.active then d.left else 0
    case None => 0
  }

  function BssFinding(rs: RunState, exp: ExpBss, name: string): Finding {
    if name !in rs.bss then Found(BssMissing, false)
    else
      var run := rs.bss[name];
      if !run.reachable then Found(HostapdUnreachable, false)
      else if run.status == "ENABLED" then
        if exp.ssid != "" && run.ssid != exp.ssid then Found(SsidMismatch, false) else Fine
      else if run.status == "DFS" then Radar(run.radio, CacLeft(run))
      else if run.status == "ACS" || run.status == "HT_SCAN" then Found(AcsRunning, true)
      else Found(BssDisabled, run.status == "COUNTRY_UPDATE" || run.status == "UNINITIALIZED" || run.status == "")
  }

  predicate RadioWasBroken(b: Before, name: string) { name in b.radios }

  predicate BssWasBroken(b: Before, exp: ExpBss, name: string) {
    name in b.bss || exists r | r in exp.radios :: RadioWasBroken(b, r)
  }

  // ---- one pass over the names, in order ----

  function RadioStep(rs: RunState, e: Expectation, b: Before, t: Tally, name: string): Tally {
    if name !in e.radios || rs.unreadable then t
    else
      match RadioFinding(rs, name)
      case Found(code, transient) => Added(t, Problem(code, name, RadioWasBroken(b, name)), transient)
      case _ => t
  }

  /** `cac`: the radios whose radar check is reported. */
  datatype Scan = Scan(t: Tally, cac: set<string>, extend: int)

  function BssStep(rs: RunState, e: Expectation, b: Before, s: Scan, name: string): Scan {
    if name !in e.bss || rs.unreadable then s
    else
      var pre := BssWasBroken(b, e.bss[name], name);
      match BssFinding(rs, e.bss[name], name)
      case Fine => s
      case Found(code, transient) => s.(t := Added(s.t, Problem(code, name, pre), transient))
      case Radar(radio, left) =>
        var extend := if left > 0 && !pre && left + CAC_MARGIN > s.extend then left + CAC_MARGIN else s.extend;
        if radio in s.cac then
          // Counted, not listed again.
          Scan(if pre then s.t else s.t.(counting := s.t.counting + 1), s.cac, extend)
        else Scan(Added(s.t, Problem(CacRunning, radio, pre), true), s.cac + {radio}, extend)
  }

  function RadioScan(rs: RunState, e: Expectation, b: Before, t: Tally, names: seq<string>): Tally
    decreases |names|
  {
    if names == [] then t else RadioScan(rs, e, b, RadioStep(rs, e, b, t, names[0]), names[1..])
  }

  function BssScan(rs: RunState, e: Expectation, b: Before, s: Scan, names: seq<string>): Scan
    decreases |names|
  {
    if names == [] then s else BssScan(rs, e, b, BssStep(rs, e, b, s, names[0]), names[1..])
  }

  function Opening(rs: RunState): Tally {
    if rs.unreadable then Added(Tally([], 0, 0), Problem(StatusUnreadable, "", false), false) else Tally([], 0, 0)
  }

  ghost function AfterRadios(rs: RunState, e: Expectation, b: Before): Tally {
    RadioScan(rs, e, b, Opening(rs), Keys(rs.radios.Keys + e.radios))
  }

  ghost function Evaluated(rs: RunState, e: Expectation, b: Before): Scan {
    BssScan(rs, e, b, Scan(AfterRadios(rs, e, b), {}, 0), Keys(e.bss.Keys + rs.bss.Keys))
  }

  // ---- what healthy means, independent of any order ----

  predicate RadioRuns(rs: RunState, name: string) {
    name in rs.radios && rs.radios[name].up && !rs.radios[name].retrySetupFailed
  }

  predicate RadioComing(rs: RunState, name: string) {
    name in rs.radios && rs.radios[name].pending && !rs.radios[name].up && !rs.radios[name].retrySetupFailed
  }

  predicate BssRuns(rs: RunState, exp: ExpBss, name: string) {
    name in rs.bss && rs.bss[name].reachable && rs.bss[name].status == "ENABLED" &&
    (exp.ssid == "" || rs.bss[name].ssid == exp.ssid)
  }

  /** The states that HealthBefore leaves out of its record. */
  predicate BssScanning(rs: RunState, name: string) {
    name in rs.bss && rs.bss[name].reachable && rs.bss[name].status in ["DFS", "ACS", "HT_SCAN"]
  }

  predicate BssStarting(rs: RunState, name: string) {
    name in rs.bss && rs.bss[name].reachable && rs.bss[name].status in ["COUNTRY_UPDATE", "UNINITIALIZED", ""]
  }

  predicate Healthy(rs: RunState, e: Expectation, b: Before) {
    !rs.unreadable &&
    (forall r | r in e.radios :: RadioWasBroken(b, r) || RadioRuns(rs, r)) &&
    (forall n | n in e.bss :: BssWasBroken(b, e.bss[n], n) || BssRuns(rs, e.bss[n], n))
  }

  /** Healthy, or on the way there without help. */
  predicate Coming(rs: RunState, e: Expectation, b: Before) {
    !rs.unreadable &&
    (forall r | r in e.radios :: RadioWasBroken(b, r) || RadioRuns(rs, r) || RadioComing(rs, r)) &&
    (forall n | n in e.bss ::
       BssWasBroken(b, e.bss[n], n) || BssRuns(rs, e.bss[n], n) || BssScanning(rs, n) || BssStarting(rs, n))
  }

  // ---- the count of a scan ----

  predicate RadioQuiet(rs: RunState, e: Expectation, b: Before, name: string) {
    name in e.radios && !rs.unreadable ==> RadioWasBroken(b, name) || RadioRuns(rs, name)
  }

  predicate RadioNotLasting(rs: RunState, e: Expectation, b: Before, name: string) {
    RadioQuiet(rs, e, b, name) || RadioComing(rs, name)
  }

  predicate BssQuiet(rs: RunState, e: Expectation, b: Before, name: string) {
    name in e.bss && !rs.unreadable ==> BssWasBroken(b, e.bss[name], name) || BssRuns(rs, e.bss[name], name)
  }

  predicate BssNotLasting(rs: RunState, e: Expectation, b: Before, name: string) {
    BssQuiet(rs, e, b, name) || BssScanning(rs, name) || BssStarting(rs, name)
  }

  lemma {:induction false} RadioScanCounts(rs: RunState, e: Expectation, b: Before, t: Tally, names: seq<string>)
    ensures var t' := RadioScan(rs, e, b, t, names);
            (t'.counting == 0 <==> t.counting == 0 && forall n | n in names :: RadioQuiet(rs, e, b, n)) &&
            (t'.lasting == 0 <==> t.lasting == 0 && forall n | n in names :: RadioNotLasting(rs, e, b, n))
    decreases |names|
  {
    if names != [] {
      var n0, u := names[0], RadioStep(rs, e, b, t, names[0]);
      assert u.counting == 0 <==> t.counting == 0 && RadioQuiet(rs, e, b, n0);
      assert u.lasting == 0 <==> t.lasting == 0 && RadioNotLasting(rs, e, b, n0);
      hide RadioStep, RadioQuiet, RadioNotLasting;
      RadioScanCounts(rs, e, b, u, names[1..]);
      assert forall n :: n in names <==> n == n0 || n in names[1..];
    }
  }

  lemma {:induction false} BssStepCounts(rs: RunState, e: Expectation, b: Before, s: Scan, name: string)
    ensures var s' := BssStep(rs, e, b, s, name);
            (s'.t.counting == 0 <==> s.t.counting == 0 && BssQuiet(rs, e, b, name)) &&
            (s'.t.lasting == 0 <==> s.t.lasting == 0 && BssNotLasting(rs, e, b, name))
  {
    hide BssWasBroken;
  }

  lemma {:induction false} BssScanCounts(rs: RunState, e: Expectation, b: Before, s: Scan, names: seq<string>)
    ensures var s' := BssScan(rs, e, b, s, names);
            (s'.t.counting == 0 <==> s.t.counting == 0 && forall n | n in names :: BssQuiet(rs, e, b, n)) &&
            (s'.t.lasting == 0 <==> s.t.lasting == 0 && forall n | n in names :: BssNotLasting(rs, e, b, n))
    decreases |names|
  {
    if names != [] {
      hide BssStep, BssQuiet, BssNotLasting;
      BssStepCounts(rs, e, b, s, names[0]);
      BssScanCounts(rs, e, b, BssStep(rs, e, b, s, names[0]), names[1..]);
      assert forall n :: n in names <==> n == names[0] || n in names[1..];
    }
  }

  /** Nothing is counted exactly when everything expected runs or was broken before, and
      nothing that lasts exactly when the rest is on its way. */
  lemma {:induction false} OkExactly(rs: RunState, e: Expectation, b: Before)
    ensures Evaluated(rs, e, b).t.counting == 0 <==> Healthy(rs, e, b)
    ensures Evaluated(rs, e, b).t.lasting == 0 <==> Coming(rs, e, b)
  {
    var radios, sections := Keys(rs.radios.Keys + e.radios), Keys(e.bss.Keys + rs.bss.Keys);
    RadioScanCounts(rs, e, b, Opening(rs), radios);
    BssScanCounts(rs, e, b, Scan(AfterRadios(rs, e, b), {}, 0), sections);
    hide RadioScan, BssScan, BssWasBroken;
    var t := Evaluated(rs, e, b).t;
    assert t.counting == 0 <==>
           !rs.unreadable && (forall n | n in radios :: RadioQuiet(rs, e, b, n)) && (forall n | n in sections :: BssQuiet(rs, e, b, n));
    assert t.lasting == 0 <==>
           !rs.unreadable && (forall n | n in radios :: RadioNotLasting(rs, e, b, n)) && (forall n | n in sections :: BssNotLasting(rs, e, b, n));
    if t.counting == 0 {
      forall r | r in e.radios ensures RadioWasBroken(b, r) || RadioRuns(rs, r) { assert RadioQuiet(rs, e, b, r); }
      forall n | n in e.bss ensures BssWasBroken(b, e.bss[n], n) || BssRuns(rs, e.bss[n], n) { assert BssQuiet(rs, e, b, n); }
    }
    if t.lasting == 0 {
      forall r | r in e.radios ensures RadioWasBroken(b, r) || RadioRuns(rs, r) || RadioComing(rs, r) {
        assert RadioNotLasting(rs, e, b, r);
      }
      forall n | n in e.bss
        ensures BssWasBroken(b, e.bss[n], n) || BssRuns(rs, e.bss[n], n) || BssScanning(rs, n) || BssStarting(rs, n)
      {
        assert BssNotLasting(rs, e, b, n);
      }
    }
  }

  // ---- more known broken, fewer expected ----

  predicate NoMoreExpected(less: Expectation, more: Expectation) {
    less.radios <= more.radios && forall n | n in less.bss :: n in more.bss && more.bss[n] == less.bss[n]
  }

  predicate NoLessBroken(less: Before, more: Before) {
    (forall r | r in less.radios :: r in more.radios) && (forall n | n in less.bss :: n in more.bss)
  }

  /** Knowing more as broken before, or expecting less, never turns ok into not ok. */
  lemma {:induction false} OkIsMonotone(rs: RunState, e: Expectation, b: Before, e': Expectation, b': Before)
    requires NoMoreExpected(e', e) && NoLessBroken(b, b')
    ensures Evaluated(rs, e, b).t.counting == 0 ==> Evaluated(rs, e', b').t.counting == 0
    ensures Evaluated(rs, e, b).t.lasting == 0 ==> Evaluated(rs, e', b').t.lasting == 0
  {
    OkExactly(rs, e, b);
    OkExactly(rs, e', b');
    hide Evaluated;
    assert forall n | n in e'.bss && BssWasBroken(b, e.bss[n], n) :: BssWasBroken(b', e'.bss[n], n);
  }

  // ---- the wait for radar checks ----

  /** How long a BSS's radar check asks for; 0 for none. */
  function Wait(rs: RunState, e: Expectation, b: Before, name: string): int {
    if name in e.bss && !rs.unreadable && !BssWasBroken(b, e.bss[name], name) then
      match BssFinding(rs, e.bss[name], name)
      case Radar(_, left) => if left > 0 then left + CAC_MARGIN else 0
      case _ => 0
    else 0
  }

  lemma {:induction false} ScanWaits(rs: RunState, e: Expectation, b: Before, s: Scan, names: seq<string>)
    ensures var x := BssScan(rs, e, b, s, names).extend;
            x >= s.extend && (forall n | n in names && Wait(rs, e, b, n) > 0 :: x >= Wait(rs, e, b, n)) &&
            (x == s.extend || exists n :: n in names && x == Wait(rs, e, b, n))
    decreases |names|
  {
    if names != [] {
      var s1, n0 := BssStep(rs, e, b, s, names[0]), names[0];
      assert s1.extend >= s.extend && (s1.extend == s.extend || s1.extend == Wait(rs, e, b, n0)) &&
             (Wait(rs, e, b, n0) > 0 ==> s1.extend >= Wait(rs, e, b, n0));
      hide BssStep, Wait;
      ScanWaits(rs, e, b, s1, names[1..]);
      assert forall n :: n in names <==> n == n0 || n in names[1..];
      var x := BssScan(rs, e, b, s1, names[1..]).extend;
      assert x == s1.extend || exists n :: n in names[1..] && x == Wait(rs, e, b, n);
      assert x != s.extend && x == s1.extend ==> n0 in names && x == Wait(rs, e, b, n0);
    }
  }

  /** The wait is the longest one a new radar check asks for, and 0 without one. */
  lemma {:induction false} ExtendIsTheLongest(rs: RunState, e: Expectation, b: Before)
    ensures var x := Evaluated(rs, e, b).extend;
            x >= 0 && (forall n | n in e.bss :: Wait(rs, e, b, n) <= x) &&
            (x > 0 ==> exists n :: n in e.bss && x == Wait(rs, e, b, n))
  {
    var sections := Keys(e.bss.Keys + rs.bss.Keys);
    ScanWaits(rs, e, b, Scan(AfterRadios(rs, e, b), {}, 0), sections);
    hide BssScan, BssFinding, BssWasBroken;
    var x := Evaluated(rs, e, b).extend;
    if x > 0 {
      var n :| n in sections && x == Wait(rs, e, b, n);
      assert n in e.bss;
    }
  }

  // ---- which problems are listed ----

  function RadioProblem(rs: RunState, e: Expectation, b: Before, name: string): Option<Problem> {
    if name !in e.radios || rs.unreadable then None
    else
      match RadioFinding(rs, name)
      case Found(code, _) => Some(Problem(code, name, RadioWasBroken(b, name)))
      case _ => None
  }

  /** Radar checks aside: those are listed by radio. */
  function BssProblem(rs: RunState, e: Expectation, b: Before, name: string): Option<Problem> {
    if name !in e.bss || rs.unreadable then None
    else
      match BssFinding(rs, e.bss[name], name)
      case Found(code, _) => Some(Problem(code, name, BssWasBroken(b, e.bss[name], name)))
      case _ => None
  }

  /** The radio whose radar check an expected BSS waits for. */
  function RadarOf(rs: RunState, e: Expectation, name: string): Option<string> {
    if name !in e.bss || rs.unreadable then None
    else
      match BssFinding(rs, e.bss[name], name)
      case Radar(radio, _) => Some(radio)
      case _ => None
  }

  lemma {:induction false} RadioScanLists(rs: RunState, e: Expectation, b: Before, t: Tally, names: seq<string>, p: Problem)
    ensures p in RadioScan(rs, e, b, t, names).problems <==>
            p in t.problems || (p.section in names && RadioProblem(rs, e, b, p.section) == Some(p))
    decreases |names|
  {
    if names != [] {
      var u := RadioStep(rs, e, b, t, names[0]);
      assert p in u.problems <==> p in t.problems || RadioProblem(rs, e, b, names[0]) == Some(p);
      assert RadioProblem(rs, e, b, names[0]) == Some(p) ==> p.section == names[0];
      hide RadioStep, RadioProblem;
      RadioScanLists(rs, e, b, u, names[1..], p);
      assert p.section in names <==> p.section == names[0] || p.section in names[1..];
    }
  }

  lemma {:induction false} BssStepLists(rs: RunState, e: Expectation, b: Before, s: Scan, name: string, p: Problem)
    requires p.code != CacRunning
    ensures p in BssStep(rs, e, b, s, name).t.problems <==>
            p in s.t.problems || (p.section == name && BssProblem(rs, e, b, name) == Some(p))
  {
    hide BssWasBroken;
  }

  lemma {:induction false} BssScanLists(rs: RunState, e: Expectation, b: Before, s: Scan, names: seq<string>, p: Problem)
    requires p.code != CacRunning
    ensures p in BssScan(rs, e, b, s, names).t.problems <==>
            p in s.t.problems || (p.section in names && BssProblem(rs, e, b, p.section) == Some(p))
    decreases |names|
  {
    if names != [] {
      hide BssStep, BssProblem;
      BssStepLists(rs, e, b, s, names[0], p);
      BssScanLists(rs, e, b, BssStep(rs, e, b, s, names[0]), names[1..], p);
      assert p.section in names <==> p.section == names[0] || p.section in names[1..];
    }
  }

  /** The report lists exactly the unreadable status, each expected radio that does not run
      and each expected BSS that does not, radar checks aside. */
  lemma {:induction false} ListedExactly(rs: RunState, e: Expectation, b: Before, p: Problem)
    requires p.code != CacRunning
    ensures p in Evaluated(rs, e, b).t.problems <==>
            (rs.unreadable && p == Problem(StatusUnreadable, "", false)) ||
            RadioProblem(rs, e, b, p.section) == Some(p) || BssProblem(rs, e, b, p.section) == Some(p)
  {
    var radios, sections := Keys(rs.radios.Keys + e.radios), Keys(e.bss.Keys + rs.bss.Keys);
    RadioScanLists(rs, e, b, Opening(rs), radios, p);
    BssScanLists(rs, e, b, Scan(AfterRadios(rs, e, b), {}, 0), sections, p);
    hide RadioScan, BssScan, RadioFinding, BssFinding, BssWasBroken;
    assert RadioProblem(rs, e, b, p.section) == Some(p) ==> p.section in radios;
    assert BssProblem(rs, e, b, p.section) == Some(p) ==> p.section in sections;
  }

  /** The radio is reported for a radar check, exactly once. */
  ghost predicate RadarListed(problems: seq<Problem>, radio: string) {
    exists i | 0 <= i < |problems| :: IsRadar(problems[i], radio)
  }

  predicate IsRadar(p: Problem, radio: string) { p.code == CacRunning && p.section == radio }

  ghost predicate RadarOnce(problems: seq<Problem>) {
    forall i, j | 0 <= i < j < |problems| && problems[i].code == CacRunning :: !IsRadar(problems[j], problems[i].section)
  }

  ghost predicate CacIs(s: Scan) {
    RadarOnce(s.t.problems) && forall r :: RadarListed(s.t.problems, r) <==> r in s.cac
  }

  lemma {:induction false} ListingOne(problems: seq<Problem>, p: Problem, r: string)
    ensures RadarListed(problems + [p], r) <==> RadarListed(problems, r) || IsRadar(p, r)
  {
    var all := problems + [p];
    if RadarListed(problems, r) {
      var i :| 0 <= i < |problems| && IsRadar(problems[i], r);
      assert IsRadar(all[i], r);
    }
    if IsRadar(p, r) { assert IsRadar(all[|problems|], r); }
  }

  lemma {:induction false} AddingKeeps(s: Scan, p: Problem, transient: bool)
    requires CacIs(s) && (p.code == CacRunning ==> p.section !in s.cac)
    ensures CacIs(Scan(Added(s.t, p, transient), if p.code == CacRunning then s.cac + {p.section} else s.cac, s.extend))
  {
    var t := Added(s.t, p, transient);
    forall r ensures RadarListed(t.problems, r) <==> r in s.cac || IsRadar(p, r) { ListingOne(s.t.problems, p, r); }
    assert p.code == CacRunning ==> !RadarListed(s.t.problems, p.section);
  }

  lemma {:induction false} BssStepRadar(rs: RunState, e: Expectation, b: Before, s: Scan, name: string)
    requires CacIs(s)
    ensures var s' := BssStep(rs, e, b, s, name);
            CacIs(s') && forall r :: r in s'.cac <==> r in s.cac || RadarOf(rs, e, name) == Some(r)
  {
    hide CacIs, BssWasBroken;
    if name in e.bss && !rs.unreadable {
      var pre := BssWasBroken(b, e.bss[name], name);
      match BssFinding(rs, e.bss[name], name) {
        case Fine =>
        case Found(code, transient) => AddingKeeps(s, Problem(code, name, pre), transient);
        case Radar(radio, left) =>
          if radio !in s.cac {
            AddingKeeps(s, Problem(CacRunning, radio, pre), true);
          }
          SameLists(s, BssStep(rs, e, b, s, name), Added(s.t, Problem(CacRunning, radio, pre), true), radio);
      }
    }
  }

  lemma {:induction false} SameLists(s: Scan, s': Scan, added: Tally, radio: string)
    requires radio in s.cac ==> CacIs(s) && s'.t.problems == s.t.problems && s'.cac == s.cac
    requires radio !in s.cac ==> CacIs(Scan(added, s.cac + {radio}, s.extend)) && s'.t == added && s'.cac == s.cac + {radio}
    ensures CacIs(s')
  {
  }

  lemma {:induction false} BssScanRadar(rs: RunState, e: Expectation, b: Before, s: Scan, names: seq<string>)
    requires CacIs(s)
    ensures var s' := BssScan(rs, e, b, s, names);
            CacIs(s') && forall r :: r in s'.cac <==> r in s.cac || exists n :: n in names && RadarOf(rs, e, n) == Some(r)
    decreases |names|
  {
    if names != [] {
      hide BssStep, CacIs, RadarOf;
      BssStepRadar(rs, e, b, s, names[0]);
      BssScanRadar(rs, e, b, BssStep(rs, e, b, s, names[0]), names[1..]);
      assert forall n :: n in names <==> n == names[0] || n in names[1..];
    }
  }

  /** A radar check is reported once for each radio an expected BSS waits for, and for no
      other radio. */
  lemma {:induction false} RadarListedOnce(rs: RunState, e: Expectation, b: Before)
    ensures RadarOnce(Evaluated(rs, e, b).t.problems)
    ensures forall r :: RadarListed(Evaluated(rs, e, b).t.problems, r) <==>
                        exists n :: n in e.bss && RadarOf(rs, e, n) == Some(r)
  {
    hide RadioScan, BssScan, RadioFinding, BssFinding, BssWasBroken, CacIs;
    var s := Scan(AfterRadios(rs, e, b), {}, 0);
    NoRadarYet(rs, e, b);
    var sections := Keys(e.bss.Keys + rs.bss.Keys);
    BssScanRadar(rs, e, b, s, sections);
    var s' := Evaluated(rs, e, b);
    CacMeans(s');
    forall n, r | RadarOf(rs, e, n) == Some(r) ensures n in sections {}
  }

  lemma {:induction false} CacMeans(s: Scan)
    requires CacIs(s)
    ensures RadarOnce(s.t.problems) && forall r :: RadarListed(s.t.problems, r) <==> r in s.cac
  {
  }

  lemma {:induction false} NoRadarYet(rs: RunState, e: Expectation, b: Before)
    ensures CacIs(Scan(AfterRadios(rs, e, b), {}, 0))
  {
    hide RadioScan;
    var s := Scan(AfterRadios(rs, e, b), {}, 0);
    forall i | 0 <= i < |s.t.problems| ensures s.t.problems[i].code != CacRunning {
      RadioScanLists(rs, e, b, Opening(rs), Keys(rs.radios.Keys + e.radios), s.t.problems[i]);
    }
  }

  // ---- the baseline ----

  const NOTHING_BROKEN := Before([], [])

  /** What is broken now: expected radios that do not run, other radios netifd gave up on,
      and expected BSSes that neither run nor scan. */
  ghost predicate IsBaseline(rs: RunState, e: Expectation, b: Before) {
    (forall r :: r in b.radios <==>
                 (r in e.radios && !RadioRuns(rs, r)) || (r in rs.radios && r !in e.radios && rs.radios[r].retrySetupFailed)) &&
    (forall n :: n in b.bss <==> n in e.bss && !BssRuns(rs, e.bss[n], n) && !BssScanning(rs, n))
  }

  /** Codes recorded as broken radios, and codes recorded as broken BSSes. */
  predicate Recorded(ofRadio: bool, c: Code) {
    if ofRadio then c == RadioDown || c == RadioSetupFailed
    else c == BssMissing || c == BssDisabled || c == HostapdUnreachable || c == SsidMismatch
  }

  ghost predicate Reported(problems: seq<Problem>, ofRadio: bool, section: string) {
    exists p :: p in problems && Recorded(ofRadio, p.code) && p.section == section
  }

  lemma {:induction false} RadioProblemCode(rs: RunState, e: Expectation, b: Before, n: string)
    requires RadioProblem(rs, e, b, n).Some?
    ensures Recorded(true, RadioProblem(rs, e, b, n).value.code) && RadioProblem(rs, e, b, n).value.section == n
  {
  }

  lemma {:induction false} BssProblemCode(rs: RunState, e: Expectation, b: Before, n: string)
    requires BssProblem(rs, e, b, n).Some?
    ensures var p := BssProblem(rs, e, b, n).value;
            p.section == n && (Recorded(false, p.code) || p.code == AcsRunning) && (p.code == AcsRunning ==> BssScanning(rs, n))
  {
    hide BssWasBroken;
  }

  lemma {:induction false} ReportedIs(rs: RunState, e: Expectation, ofRadio: bool, n: string)
    requires !rs.unreadable
    ensures var b := NOTHING_BROKEN;
            Reported(Evaluated(rs, e, b).t.problems, ofRadio, n) <==>
            (if ofRadio then RadioProblem(rs, e, b, n).Some?
             else BssProblem(rs, e, b, n).Some? && BssProblem(rs, e, b, n).value.code != AcsRunning)
  {
    hide Evaluated, RadioProblem, BssProblem;
    var b := NOTHING_BROKEN;
    var problems := Evaluated(rs, e, b).t.problems;
    if RadioProblem(rs, e, b, n).Some? {
      RadioProblemCode(rs, e, b, n);
      ListedExactly(rs, e, b, RadioProblem(rs, e, b, n).value);
    }
    if BssProblem(rs, e, b, n).Some? {
      BssProblemCode(rs, e, b, n);
      ListedExactly(rs, e, b, BssProblem(rs, e, b, n).value);
    }
    if Reported(problems, ofRadio, n) {
      var p :| p in problems && Recorded(ofRadio, p.code) && p.section == n;
      ListedExactly(rs, e, b, p);
    }
  }

  lemma {:induction false} ReportedRadios(rs: RunState, e: Expectation, r: string)
    requires !rs.unreadable
    ensures Reported(Evaluated(rs, e, NOTHING_BROKEN).t.problems, true, r) <==> r in e.radios && !RadioRuns(rs, r)
  {
    ReportedIs(rs, e, true, r);
  }

  lemma {:induction false} ReportedBss(rs: RunState, e: Expectation, n: string)
    requires !rs.unreadable
    ensures Reported(Evaluated(rs, e, NOTHING_BROKEN).t.problems, false, n) <==>
            n in e.bss && !BssRuns(rs, e.bss[n], n) && !BssScanning(rs, n)
  {
    ReportedIs(rs, e, false, n);
    BssProblemIs(rs, e, n);
    hide Evaluated, BssProblem;
  }

  lemma {:induction false} BssProblemIs(rs: RunState, e: Expectation, n: string)
    requires !rs.unreadable
    ensures var p := BssProblem(rs, e, NOTHING_BROKEN, n);
            p.Some? && p.value.code != AcsRunning <==> n in e.bss && !BssRuns(rs, e.bss[n], n) && !BssScanning(rs, n)
  {
    hide BssWasBroken;
  }

  /** Judged again against what was recorded, nothing lasting is counted, and all is well
      exactly when every expected BSS in a radar check or a channel scan has a radio that
      does not run. */
  lemma {:induction false} BaselineJudgesItself(rs: RunState, e: Expectation, b: Before)
    requires !rs.unreadable && IsBaseline(rs, e, b)
    requires forall n, r | n in e.bss && r in e.bss[n].radios :: r in e.radios
    ensures Evaluated(rs, e, b).t.lasting == 0
    ensures Evaluated(rs, e, b).t.counting == 0 <==>
            forall n | n in e.bss && BssScanning(rs, n) :: exists r :: r in e.bss[n].radios && !RadioRuns(rs, r)
  {
    OkExactly(rs, e, b);
    hide Evaluated;
    forall n | n in e.bss && BssScanning(rs, n)
      ensures BssWasBroken(b, e.bss[n], n) <==> exists r :: r in e.bss[n].radios && !RadioRuns(rs, r)
    {
      assert !BssRuns(rs, e.bss[n], n);
      forall r | r in e.bss[n].radios ensures RadioWasBroken(b, r) <==> !RadioRuns(rs, r) {}
    }
    forall n | n in e.bss && !BssScanning(rs, n) ensures BssWasBroken(b, e.bss[n], n) || BssRuns(rs, e.bss[n], n) {}
    forall n | n in e.bss && BssScanning(rs, n) && !BssWasBroken(b, e.bss[n], n) ensures !Healthy(rs, e, b) {
      assert !BssRuns(rs, e.bss[n], n);
    }
  }
}
