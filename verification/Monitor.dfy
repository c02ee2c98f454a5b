/** The health monitor: a new state is sent once it was steady for the debounce time. */
module Monitor {
  import opened Wrappers
  import opened Text
  import opened UciConfig
  import opened SortedKeys
  import opened Health
  import opened HealthExpect
  import opened HealthCheck

  /** The debounce less a second of slack, in nanoseconds. */
  const STEADY := 29_000_000_000

  // ---- what lasts, and its signature ----

  predicate Counts(p: Problem) {
    !p.preexisting && p.code != CacRunning && p.code != AcsRunning
  }

  function CodeName(c: Code): string {
    match c
    case RadioDown => "radio_down"
    case RadioSetupFailed => "radio_setup_failed"
    case BssMissing => "bss_missing"
    case BssDisabled => "bss_disabled"
    case SsidMismatch => "ssid_mismatch"
    case CacRunning => "cac_running"
    case AcsRunning => "acs_running"
    case HostapdUnreachable => "hostapd_unreachable"
    case ConfigUnreadable => "config_unreadable"
    case StatusUnreadable => "status_unreadable"
  }

  function Key(p: Problem): string { CodeName(p.code) + "@" + p.section }

  function Counted(problems: seq<Problem>): seq<Problem> {
    if problems == [] then [] else (if Counts(problems[0]) then [problems[0]] else []) + Counted(problems[1..])
  }

  function KeysOf(problems: seq<Problem>): seq<string> {
    seq(|problems|, i requires 0 <= i < |problems| => Key(problems[i]))
  }

  function Signature(problems: seq<Problem>): string { Join(SortStrings(KeysOf(Counted(problems))), ",") }

  lemma {:induction false} NoKeys()
    ensures KeysOf([]) == []
  {
  }

  lemma {:induction false} KeysAppend(out: seq<Problem>, p: Problem)
    ensures KeysOf(out + [p]) == KeysOf(out) + [Key(p)]
  {
    hide Key;
  }

  lemma {:induction false} CountedStep(problems: seq<Problem>, i: nat)
    requires i < |problems|
    ensures var p := problems[i];
            Counted(problems[i..]) ==
            (if p.preexisting || p.code == CacRunning || p.code == AcsRunning then [] else [p]) + Counted(problems[i + 1..])
  {
    assert problems[i..][1..] == problems[i + 1..];
  }

  method Lasting(problems: seq<Problem>) returns (out: seq<Problem>, sig: string)
    ensures out == Counted(problems) && sig == Signature(problems)
  {
    var keys: seq<string>;
    out, keys := [], [];
    assert problems[0..] == problems;
    hide Key, SortStrings, Join, KeysOf, Counts;
    assert KeysOf([]) == [] by { NoKeys(); }
    for i := 0 to |problems|
      invariant out + Counted(problems[i..]) == Counted(problems) && keys == KeysOf(out)
    {
      var p := problems[i];
      CountedStep(problems, i);
      if p.preexisting || p.code == CacRunning || p.code == AcsRunning {
        continue;
      }
      KeysAppend(out, p);
      out := out + [p];
      keys := keys + [Key(p)];
    }
    sig := Join(SortStrings(keys), ",");
  }

  lemma {:induction false} CountedIs(problems: seq<Problem>)
    ensures forall p :: p in Counted(problems) <==> p in problems && Counts(p)
  {
    if problems != [] {
      CountedIs(problems[1..]);
      assert forall p :: p in problems <==> p == problems[0] || p in problems[1..];
    }
  }

  /** The signature is empty exactly when no problem counts. */
  lemma {:induction false} SignatureEmpty(problems: seq<Problem>)
    ensures Signature(problems) == "" <==> forall p | p in problems :: !Counts(p)
  {
    CountedIs(problems);
    var counted := Counted(problems);
    var keys := KeysOf(counted);
    var sorted := SortStrings(keys);
    StringLeqTotal();
    SortSorts(StringLeq, keys);
    assert |multiset(sorted)| == |multiset(keys)| == |counted|;
    assert counted != [] ==> counted[0] in counted && sorted[0] in multiset(keys) && sorted[0] in keys;
  }

  // ---- one look ----

  /** A tick: what the service finds, and whether a notification would be taken. */
  datatype Look = Look(idle: bool, problems: seq<Problem>, gen: nat, now: int, taken: bool)

  datatype State = State(gen: nat, have: bool, candidate: string, since: int, sent: bool, reported: string)

  datatype Notification = Notification(at: int, ok: bool, problems: seq<Problem>)

  const FRESH := State(0, false, "", 0, false, "")

  function Session(m: State, gen: nat): State {
    if m.gen == gen then m else State(gen, false, "", 0, false, "")
  }

  predicate Sends(m: State, l: Look) {
    l.idle && l.taken &&
    var m' := Session(m, l.gen);
    var sig := Signature(l.problems);
    m'.have && sig == m'.candidate && !(m'.sent && sig == m'.reported) && l.now - m'.since >= STEADY
  }

  function After(m: State, l: Look): State {
    if !l.idle then m.(have := false)
    else
      var m', sig := Session(m, l.gen), Signature(l.problems);
      if !m'.have || sig != m'.candidate then m'.(have := true, candidate := sig, since := l.now)
      else if Sends(m, l) then m'.(sent := true, reported := sig)
      else m'
  }

  class Monitor {
    var m: State

    constructor ()
      ensures m == FRESH
    {
      m := FRESH;
    }

    /** Looks once; answers the notification that was sent, if any. */
    method Tick(l: Look) returns (sent: Option<Notification>)
      modifies this
      ensures m == After(old(m), l)
      ensures sent == if Sends(old(m), l)
                      then Some(Notification(l.now, Signature(l.problems) == "", Counted(l.problems))) else None
    {
      if !l.idle {
        // The next look starts a new session.
        m := m.(have := false);
        return None;
      }
      var problems, sig := Lasting(l.problems);
      if m.gen != l.gen {
        m := State(l.gen, false, "", 0, false, "");
      }
      if !m.have || sig != m.candidate {
        m := m.(have := true, candidate := sig, since := l.now);
        return None;
      }
      if (m.sent && sig == m.reported) || l.now - m.since < STEADY {
        return None;
      }
      if !l.taken {
        return None;
      }
      if m.gen == l.gen {
        m := m.(sent := true, reported := sig);
      }
      return Some(Notification(l.now, sig == "", problems));
    }
  }

  // ---- whole runs ----

  function Run(looks: seq<Look>): State {
    if looks == [] then FRESH else After(Run(looks[..|looks| - 1]), looks[|looks| - 1])
  }

  /** The state before look j. */
  function StateAt(looks: seq<Look>, j: nat): State
    requires j <= |looks|
  {
    Run(looks[..j])
  }

  predicate SentAt(looks: seq<Look>, j: nat)
    requires j < |looks|
  {
    Sends(StateAt(looks, j), looks[j])
  }

  function Sig(l: Look): string { Signature(l.problems) }

  /** From look i to look j: watched all the time, one session, one signature. */
  predicate Steady(looks: seq<Look>, i: nat, j: nat)
    requires i <= j < |looks|
  {
    forall k | i <= k <= j :: looks[k].idle && looks[k].gen == looks[j].gen && Sig(looks[k]) == Sig(looks[j])
  }

  /** The state follows the current steady stretch. */
  ghost predicate Tracks(looks: seq<Look>, m: State) {
    m.have ==> exists i: nat | i < |looks| ::
      Steady(looks, i, |looks| - 1) && m.since == looks[i].now && m.candidate == Sig(looks[|looks| - 1]) && m.gen == looks[|looks| - 1].gen
  }

  lemma {:induction false} TracksStep(before: seq<Look>, l: Look, m: State)
    requires Tracks(before, m) && (m.have ==> before != [])
    ensures Tracks(before + [l], After(m, l))
  {
    hide Signature;
    var looks, n := before + [l], |before|;
    if l.idle {
      var m' := Session(m, l.gen);
      if m'.have && m'.candidate == Sig(l) {
        assert m' == m;
        var i: nat :| i < n && Steady(before, i, n - 1) && m.since == before[i].now &&
          m.candidate == Sig(before[n - 1]) && m.gen == before[n - 1].gen;
        assert forall k | 0 <= k < n :: looks[k] == before[k];
        assert Steady(looks, i, n);
      } else {
        assert Steady(looks, n, n) && looks[n] == l;
        var m1 := After(m, l);
        assert m1.since == looks[n].now && m1.candidate == Sig(l) && m1.gen == l.gen;
      }
    }
  }

  lemma {:induction false} RunLast(looks: seq<Look>, j: nat)
    requires j < |looks|
    ensures StateAt(looks, j + 1) == After(StateAt(looks, j), looks[j])
  {
    assert looks[..j + 1][..j] == looks[..j];
  }

  lemma {:induction false} RunTracks(looks: seq<Look>)
    ensures Tracks(looks, Run(looks))
    ensures Run(looks).have <==> looks != [] && looks[|looks| - 1].idle
  {
    if looks != [] {
      var n := |looks| - 1;
      RunTracks(looks[..n]);
      RunLast(looks, n);
      hide Signature, Tracks, Run;
      TracksStep(looks[..n], looks[n], Run(looks[..n]));
      assert looks == looks[..n] + [looks[n]] && looks[..n + 1] == looks;
    }
  }

  /** Every notification reports a signature that was seen at every look for at least 29
      seconds, watched all that time and in one session. */
  lemma {:induction false} SentIsSteady(looks: seq<Look>, j: nat) returns (i: nat)
    requires j < |looks| && SentAt(looks, j)
    ensures i < j && Steady(looks, i, j) && looks[j].now - looks[i].now >= STEADY
  {
    RunTracks(looks[..j]);
    SendsFacts(StateAt(looks, j), looks[j]);
    hide Signature, Run, Sends, Steady;
    i := TrackedFrom(looks[..j], StateAt(looks, j));
    assert looks[..j][i] == looks[i] && looks[..j][j - 1] == looks[j - 1];
    SteadyLonger(looks, i, j);
  }

  lemma {:induction false} SendsFacts(m: State, l: Look)
    requires Sends(m, l)
    ensures l.idle && m.have && m.gen == l.gen && m.candidate == Sig(l) && l.now - m.since >= STEADY
  {
    hide Signature;
  }

  lemma {:induction false} TrackedFrom(before: seq<Look>, m: State) returns (i: nat)
    requires Tracks(before, m) && m.have
    ensures i < |before| && Steady(before, i, |before| - 1) && m.since == before[i].now
    ensures m.candidate == Sig(before[|before| - 1]) && m.gen == before[|before| - 1].gen
  {
    hide Signature;
    i :| i < |before| && Steady(before, i, |before| - 1) && m.since == before[i].now && m.candidate == Sig(before[|before| - 1]) &&
      m.gen == before[|before| - 1].gen;
  }

  lemma {:induction false} SteadyLonger(looks: seq<Look>, i: nat, j: nat)
    requires i < j < |looks| && Steady(looks[..j], i, j - 1)
    requires looks[j].idle && looks[j].gen == looks[j - 1].gen && Sig(looks[j]) == Sig(looks[j - 1])
    ensures Steady(looks, i, j)
  {
    hide Signature;
    assert forall k | i <= k < j :: looks[k] == looks[..j][k];
  }

  /** The session, as far as the watched looks tell, is the same from i to j. */
  predicate OneSession(looks: seq<Look>, i: nat, j: nat)
    requires i <= j < |looks|
  {
    looks[i].idle && forall k | i <= k <= j && looks[k].idle :: looks[k].gen == looks[i].gen
  }

  /** In one session a report stays the last one until the next notification. */
  lemma {:induction false} ReportStays(looks: seq<Look>, i: nat, j: nat)
    requires i < j <= |looks| && SentAt(looks, i) && OneSession(looks, i, j - 1)
    requires forall k | i < k < j :: !SentAt(looks, k)
    ensures var m := StateAt(looks, j);
            m.sent && m.reported == Sig(looks[i]) && m.gen == looks[i].gen
    decreases j - i
  {
    hide Signature, StateAt, Sends, After;
    var last := j - 1;
    RunLast(looks, last);
    AfterSent(StateAt(looks, last), looks[last]);
    if last > i {
      ReportStays(looks, i, last);
      assert !SentAt(looks, last);
      AfterUnsent(StateAt(looks, last), looks[last]);
    }
  }

  lemma {:induction false} AfterSent(m: State, l: Look)
    ensures Sends(m, l) ==> var m' := After(m, l); m'.sent && m'.reported == Sig(l) && m'.gen == l.gen
  {
    hide Signature;
  }

  lemma {:induction false} AfterUnsent(m: State, l: Look)
    requires !Sends(m, l) && (l.idle ==> l.gen == m.gen)
    ensures var m' := After(m, l); m'.sent == m.sent && m'.reported == m.reported && m'.gen == m.gen
  {
    hide Signature;
  }

  /** Two notifications in a row in one session never carry the same signature. */
  lemma {:induction false} ConsecutiveDiffer(looks: seq<Look>, i: nat, j: nat)
    requires i < j < |looks| && SentAt(looks, i) && SentAt(looks, j) && OneSession(looks, i, j)
    requires forall k | i < k < j :: !SentAt(looks, k)
    ensures Sig(looks[i]) != Sig(looks[j])
  {
    ReportStays(looks, i, j);
  }

  predicate InOrder(looks: seq<Look>) { forall a, b | 0 <= a <= b < |looks| :: looks[a].now <= looks[b].now }

  /** A state that was steady long enough is never missed: then, taken or not, the session's
      last report is that state, or this look would have sent it. */
  lemma {:induction false} SteadyIsReported(looks: seq<Look>, i: nat, j: nat)
    requires i < j < |looks| && Steady(looks, i, j) && looks[j].now - looks[i].now >= STEADY && looks[j].taken
    requires InOrder(looks)
    ensures var m := StateAt(looks, j + 1);
            m.sent && m.reported == Sig(looks[j]) && m.gen == looks[j].gen
  {
    hide Signature, StateAt, After, InOrder;
    assert Steady(looks, i, j - 1) && looks[j - 1].gen == looks[j].gen && Sig(looks[j - 1]) == Sig(looks[j]);
    StreakIsOld(looks, i, j - 1);
    RunLast(looks, j);
    LongEnough(StateAt(looks, j), looks[j]);
  }

  lemma {:induction false} LongEnough(m: State, l: Look)
    requires m.have && m.candidate == Sig(l) && m.gen == l.gen && l.now - m.since >= STEADY && l.idle && l.taken
    ensures var m' := After(m, l); m'.sent && m'.reported == Sig(l) && m'.gen == l.gen
  {
    hide Signature;
  }

  /** The tracked stretch began no later than any steady stretch to the same look. */
  lemma {:induction false} StreakIsOld(looks: seq<Look>, i: nat, j: nat)
    requires i <= j < |looks| && Steady(looks, i, j)
    requires InOrder(looks)
    ensures StateAt(looks, j + 1).since <= looks[i].now
    ensures var m := StateAt(looks, j + 1); m.have && m.candidate == Sig(looks[j]) && m.gen == looks[j].gen
    decreases j
  {
    RunLast(looks, j);
    assert looks[j].idle;
    hide Sig, StateAt, After, InOrder, Steady;
    SinceIsPast(looks, j);
    AfterIdle(StateAt(looks, j), looks[j]);
    if i < j {
      SteadyShorter(looks, i, j);
      StreakIsOld(looks, i, j - 1);
    } else {
      assert looks[i] == looks[j];
    }
  }

  lemma {:induction false} SteadyShorter(looks: seq<Look>, i: nat, j: nat)
    requires i < j < |looks| && Steady(looks, i, j)
    ensures Steady(looks, i, j - 1) && looks[j - 1].gen == looks[j].gen && Sig(looks[j - 1]) == Sig(looks[j])
  {
    hide Sig;
  }

  lemma {:induction false} SinceIsPast(looks: seq<Look>, j: nat)
    requires j < |looks| && InOrder(looks)
    ensures StateAt(looks, j).have ==> StateAt(looks, j).since <= looks[j].now
  {
    RunTracks(looks[..j]);
    hide Run, Signature;
    var m := StateAt(looks, j);
    if m.have {
      var k: nat :| k < |looks[..j]| && m.since == looks[..j][k].now;
      assert looks[..j][k] == looks[k];
    }
  }

  lemma {:induction false} AfterIdle(m: State, l: Look)
    requires l.idle && (m.have ==> m.since <= l.now)
    ensures var m' := After(m, l);
            m'.have && m'.candidate == Sig(l) && m'.gen == l.gen && m'.since <= l.now &&
            (m.have && m.gen == l.gen && m.candidate == Sig(l) ==> m'.since == m.since)
  {
    hide Signature;
  }

  // ---- what "ok" says ----

  /** healthNow: judged without a baseline; a config that cannot be read is a problem. */
  method HealthNow(cfg: Option<Config>, unreadable: bool, rs: RunState) returns (problems: seq<Problem>, ok: bool)
    ensures problems == NowProblems(cfg, unreadable, rs)
    ensures ok <==> !unreadable && Healthy(rs, ExpectFrom(cfg, NO_EXPECT), NOTHING_BROKEN)
  {
    var e := Compute(cfg, NO_EXPECT);
    var rep, _, _ := Evaluate(rs, e, NOTHING_BROKEN);
    problems, ok := rep.problems, rep.ok;
    if unreadable {
      problems, ok := problems + [Problem(ConfigUnreadable, "", false)], false;
    }
  }

  ghost function NowProblems(cfg: Option<Config>, unreadable: bool, rs: RunState): seq<Problem> {
    Evaluated(rs, ExpectFrom(cfg, NO_EXPECT), NOTHING_BROKEN).t.problems
    + (if unreadable then [Problem(ConfigUnreadable, "", false)] else [])
  }

  /** A notification says ok exactly when config and status could be read, every expected
      radio runs and every expected BSS runs or is in a radar check or channel scan. */
  lemma {:induction false} NotifiedOkExactly(cfg: Option<Config>, unreadable: bool, rs: RunState)
    ensures Signature(NowProblems(cfg, unreadable, rs)) == "" <==>
            !unreadable && !rs.unreadable &&
            var e := ExpectFrom(cfg, NO_EXPECT);
            (forall r | r in e.radios :: RadioRuns(rs, r)) &&
            (forall n | n in e.bss :: BssRuns(rs, e.bss[n], n) || BssScanning(rs, n))
  {
    hide ExpectFrom, Evaluated;
    var e := ExpectFrom(cfg, NO_EXPECT);
    var all, judged := NowProblems(cfg, unreadable, rs), Evaluated(rs, e, NOTHING_BROKEN).t.problems;
    SignatureEmpty(all);
    hide Signature;
    if unreadable {
      assert all[|all| - 1] in all;
    } else {
      assert all == judged;
      CountedOf(rs, e);
    }
  }

  lemma {:induction false} CountedOf(rs: RunState, e: Expectation)
    ensures (forall p | p in Evaluated(rs, e, NOTHING_BROKEN).t.problems :: !Counts(p)) <==>
            !rs.unreadable &&
            (forall r | r in e.radios :: RadioRuns(rs, r)) &&
            (forall n | n in e.bss :: BssRuns(rs, e.bss[n], n) || BssScanning(rs, n))
  {
    hide Evaluated, RadioRuns, BssRuns, BssScanning, RadioProblem, BssProblem;
    var b := NOTHING_BROKEN;
    var problems := Evaluated(rs, e, b).t.problems;
    if rs.unreadable {
      ListedExactly(rs, e, b, Problem(StatusUnreadable, "", false));
    } else {
      forall r | r in e.radios && !RadioRuns(rs, r) ensures exists p :: p in problems && Counts(p) {
        ReportedRadios(rs, e, r);
        SomeCounts(rs, e, true, r);
      }
      forall n | n in e.bss && !BssRuns(rs, e.bss[n], n) && !BssScanning(rs, n) ensures exists p :: p in problems && Counts(p) {
        ReportedBss(rs, e, n);
        SomeCounts(rs, e, false, n);
      }
      forall p | p in problems && Counts(p)
        ensures (p.section in e.radios && !RadioRuns(rs, p.section)) ||
                (p.section in e.bss && !BssRuns(rs, e.bss[p.section], p.section) && !BssScanning(rs, p.section))
      {
        ListedExactly(rs, e, b, p);
        ReportedRadios(rs, e, p.section);
        ReportedBss(rs, e, p.section);
        if RadioProblem(rs, e, b, p.section) == Some(p) { RadioProblemCode(rs, e, b, p.section); } else { BssProblemCode(rs, e, b, p.section); }
      }
    }
  }

  lemma {:induction false} SomeCounts(rs: RunState, e: Expectation, ofRadio: bool, section: string)
    requires !rs.unreadable && Reported(Evaluated(rs, e, NOTHING_BROKEN).t.problems, ofRadio, section)
    ensures exists p :: p in Evaluated(rs, e, NOTHING_BROKEN).t.problems && Counts(p)
  {
    hide Evaluated;
    var b := NOTHING_BROKEN;
    var p :| p in Evaluated(rs, e, b).t.problems && Recorded(ofRadio, p.code) && p.section == section;
    ListedExactly(rs, e, b, p);
    assert !p.preexisting;
  }
}
