/** Judging the Wi-Fi, and recording what was broken before an apply. */
module HealthCheck {
  import opened Wrappers
  import opened Text
  import opened SortedKeys
  import opened UciConfig
  import opened Health
  import opened HealthExpect

  // ---- evaluate ----

  class ProblemTally {
    var problems: seq<Problem>
    var counting: nat
    var lasting: nat

    ghost function Now(): Tally reads this { Tally(problems, counting, lasting) }

    constructor ()
      ensures Now() == Tally([], 0, 0)
    {
      problems, counting, lasting := [], 0, 0;
    }

    method Add(p: Problem, transient: bool)
      modifies this
      ensures Now() == Added(old(Now()), p, transient)
    {
      problems := problems + [p];
      if p.preexisting {
        return;
      }
      counting := counting + 1;
      if !transient {
        lasting := lasting + 1;
      }
    }
  }

  method JudgeRadio(rs: RunState, e: Expectation, broken: set<string>, ghost b: Before, t: ProblemTally, name: string)
    requires forall r :: r in broken <==> RadioWasBroken(b, r)
    modifies t
    ensures t.Now() == RadioStep(rs, e, b, old(t.Now()), name)
  {
    if name !in e.radios || rs.unreadable {
      return;
    }
    var pre := name in broken;
    if name !in rs.radios {
      t.Add(Problem(RadioDown, name, pre), false);
      return;
    }
    var st := rs.radios[name];
    if st.retrySetupFailed {
      t.Add(Problem(RadioSetupFailed, name, pre), false);
    } else if !st.up && st.pending {
      t.Add(Problem(RadioDown, name, pre), true);
    } else if !st.up {
      t.Add(Problem(RadioDown, name, pre), false);
    }
  }

  method WasBroken(brokenRadio: set<string>, brokenBss: set<string>, exp: ExpBss, name: string, ghost b: Before) returns (pre: bool)
    requires forall r :: r in brokenRadio <==> RadioWasBroken(b, r)
    requires forall n :: n in brokenBss <==> n in b.bss
    ensures pre == BssWasBroken(b, exp, name)
  {
    pre := name in brokenBss;
    for i := 0 to |exp.radios|
      invariant pre <==> name in b.bss || exists r | r in exp.radios[..i] :: RadioWasBroken(b, r)
    {
      pre := pre || exp.radios[i] in brokenRadio;
      assert exp.radios[..i + 1] == exp.radios[..i] + [exp.radios[i]];
      assert RadioWasBroken(b, exp.radios[i]) ==> exists r | r in exp.radios[..i + 1] :: RadioWasBroken(b, r);
    }
    assert exp.radios[..|exp.radios|] == exp.radios;
  }

  method JudgeBss(rs: RunState, e: Expectation, brokenRadio: set<string>, brokenBss: set<string>, ghost b: Before,
                  t: ProblemTally, cac: set<string>, extend: int, name: string) returns (cac': set<string>, extend': int)
    requires forall r :: r in brokenRadio <==> RadioWasBroken(b, r)
    requires forall n :: n in brokenBss <==> n in b.bss
    modifies t
    ensures Scan(t.Now(), cac', extend') == BssStep(rs, e, b, Scan(old(t.Now()), cac, extend), name)
  {
    cac', extend' := cac, extend;
    if name !in e.bss || rs.unreadable {
      return;
    }
    var exp := e.bss[name];
    var pre := WasBroken(brokenRadio, brokenBss, exp, name, b);
    hide BssWasBroken, RadioWasBroken;
    if name !in rs.bss {
      t.Add(Problem(BssMissing, name, pre), false);
      return;
    }
    var run := rs.bss[name];
    if !run.reachable {
      t.Add(Problem(HostapdUnreachable, name, pre), false);
    } else if run.status == "ENABLED" {
      if exp.ssid != "" && run.ssid != exp.ssid {
        t.Add(Problem(SsidMismatch, name, pre), false);
      }
    } else if run.status == "DFS" {
      var left := if run.dfs.Some? && run.dfs.value.active then run.dfs.value.left else 0;
      if left > 0 && !pre && left + CAC_MARGIN > extend' {
        extend' := left + CAC_MARGIN;
      }
      if run.radio in cac {
        if !pre {
          t.counting := t.counting + 1;
        }
        return;
      }
      cac' := cac + {run.radio};
      t.Add(Problem(CacRunning, run.radio, pre), true);
    } else if run.status == "ACS" || run.status == "HT_SCAN" {
      t.Add(Problem(AcsRunning, name, pre), true);
    } else if run.status == "COUNTRY_UPDATE" || run.status == "UNINITIALIZED" || run.status == "" {
      t.Add(Problem(BssDisabled, name, pre), true);
    } else {
      t.Add(Problem(BssDisabled, name, pre), false);
    }
  }

  method JudgeRadios(rs: RunState, e: Expectation, broken: set<string>, ghost b: Before, t: ProblemTally)
    requires forall r :: r in broken <==> RadioWasBroken(b, r)
    modifies t
    ensures t.Now() == RadioScan(rs, e, b, old(t.Now()), Keys(rs.radios.Keys + e.radios))
  {
    var radioList := Collect(rs.radios.Keys + e.radios);
    ghost var want := RadioScan(rs, e, b, t.Now(), radioList);
    assert radioList[0..] == radioList;
    hide RadioStep, RadioWasBroken;
    for i := 0 to |radioList|
      invariant RadioScan(rs, e, b, t.Now(), radioList[i..]) == want
    {
      assert radioList[i..][1..] == radioList[i + 1..];
      JudgeRadio(rs, e, broken, b, t, radioList[i]);
    }
  }

  method JudgeSections(rs: RunState, e: Expectation, brokenRadio: set<string>, brokenBss: set<string>, ghost b: Before,
                       t: ProblemTally) returns (extend: int)
    requires forall r :: r in brokenRadio <==> RadioWasBroken(b, r)
    requires forall n :: n in brokenBss <==> n in b.bss
    modifies t
    ensures var s := BssScan(rs, e, b, Scan(old(t.Now()), {}, 0), Keys(e.bss.Keys + rs.bss.Keys));
            t.Now() == s.t && extend == s.extend
  {
    var cac: set<string>;
    cac, extend := {}, 0;
    var sections := Collect(e.bss.Keys + rs.bss.Keys);
    ghost var want := BssScan(rs, e, b, Scan(t.Now(), cac, extend), sections);
    assert sections[0..] == sections;
    hide BssStep, RadioWasBroken;
    for i := 0 to |sections|
      invariant BssScan(rs, e, b, Scan(t.Now(), cac, extend), sections[i..]) == want
    {
      assert sections[i..][1..] == sections[i + 1..];
      cac, extend := JudgeBss(rs, e, brokenRadio, brokenBss, b, t, cac, extend, sections[i]);
    }
  }

  /** The judgement: ok exactly when all that must run does, what was broken before aside. */
  method Evaluate(rs: RunState, e: Expectation, b: Before) returns (rep: Report, ok: bool, extend: int)
    ensures ok == rep.ok && (ok <==> Healthy(rs, e, b))
    ensures rep.pending <==> !Healthy(rs, e, b) && Coming(rs, e, b)
    ensures rep.problems == Evaluated(rs, e, b).t.problems && extend == Evaluated(rs, e, b).extend
  {
    var brokenRadio: set<string>, brokenBss: set<string> := {}, {};
    for i := 0 to |b.radios|
      invariant forall r :: r in brokenRadio <==> r in b.radios[..i]
    {
      brokenRadio := brokenRadio + {b.radios[i]};
    }
    for i := 0 to |b.bss|
      invariant forall n :: n in brokenBss <==> n in b.bss[..i]
    {
      brokenBss := brokenBss + {b.bss[i]};
    }
    assert b.radios[..|b.radios|] == b.radios && b.bss[..|b.bss|] == b.bss;
    OkExactly(rs, e, b);
    hide RadioScan, BssScan, Healthy, Coming, Added;
    var t := new ProblemTally();
    if rs.unreadable {
      t.Add(Problem(StatusUnreadable, "", false), false);
    }
    JudgeRadios(rs, e, brokenRadio, b, t);
    extend := JudgeSections(rs, e, brokenRadio, brokenBss, b, t);
    ok := t.counting == 0;
    rep := Report(ok, !ok && t.lasting == 0, t.problems);
  }

  // ---- the hooks around an apply ----

  lemma {:induction false} MoreReported(problems: seq<Problem>, p: Problem, ofRadio: bool, section: string)
    ensures Reported(problems + [p], ofRadio, section) <==>
            Reported(problems, ofRadio, section) || (Recorded(ofRadio, p.code) && p.section == section)
  {
    assert p in problems + [p];
  }

  method Record(problems: seq<Problem>) returns (radios: seq<string>, bss: seq<string>)
    ensures forall s :: s in radios <==> Reported(problems, true, s)
    ensures forall s :: s in bss <==> Reported(problems, false, s)
  {
    radios, bss := [], [];
    for i := 0 to |problems|
      invariant forall s :: s in radios <==> Reported(problems[..i], true, s)
      invariant forall s :: s in bss <==> Reported(problems[..i], false, s)
    {
      var p := problems[i];
      assert problems[..i + 1] == problems[..i] + [p];
      forall s, ofRadio
        ensures Reported(problems[..i + 1], ofRadio, s) <==>
                Reported(problems[..i], ofRadio, s) || (Recorded(ofRadio, p.code) && p.section == s)
      {
        MoreReported(problems[..i], p, ofRadio, s);
      }
      hide Reported;
      match p.code {
        case RadioDown | RadioSetupFailed => radios := radios + [p.section];
        case BssMissing | BssDisabled | HostapdUnreachable | SsidMismatch => bss := bss + [p.section];
        case _ =>
      }
    }
    assert problems[..|problems|] == problems;
  }

  lemma {:induction false} ReportedAll(rs: RunState, e: Expectation)
    requires !rs.unreadable
    ensures var problems := Evaluated(rs, e, NOTHING_BROKEN).t.problems;
            && (forall s :: Reported(problems, true, s) <==> s in e.radios && !RadioRuns(rs, s))
            && (forall s :: Reported(problems, false, s) <==> s in e.bss && !BssRuns(rs, e.bss[s], s) && !BssScanning(rs, s))
  {
    hide Evaluated, RadioRuns, BssRuns, BssScanning, Reported;
    var problems := Evaluated(rs, e, NOTHING_BROKEN).t.problems;
    forall s ensures Reported(problems, true, s) <==> s in e.radios && !RadioRuns(rs, s) { ReportedRadios(rs, e, s); }
    forall s ensures Reported(problems, false, s) <==> s in e.bss && !BssRuns(rs, e.bss[s], s) && !BssScanning(rs, s) {
      ReportedBss(rs, e, s);
    }
  }

  /** What is broken before an apply; None with the status unreadable. */
  method HealthBefore(rs: RunState, e: Expectation) returns (res: Option<Before>)
    ensures res == None <==> rs.unreadable
    ensures res.Some? ==> IsBaseline(rs, e, res.value)
  {
    if rs.unreadable {
      return None;
    }
    hide Evaluated, RadioRuns, BssRuns, BssScanning, Healthy, Coming, Reported;
    var rep, _, _ := Evaluate(rs, e, NOTHING_BROKEN);
    hide IsBaseline, SortStrings;
    ReportedAll(rs, e);
    var recorded, bss := Record(rep.problems);
    // Also the radios that nothing expected.
    var radios := GaveUp(rs, e, recorded);
    SortedMembers(radios);
    BaselineIs(rs, e, rep.problems, recorded, radios, SortStrings(radios), bss);
    res := Some(Before(SortStrings(radios), bss));
  }

  lemma {:induction false} BaselineIs(rs: RunState, e: Expectation, problems: seq<Problem>, recorded: seq<string>,
                                      radios: seq<string>, sorted: seq<string>, bss: seq<string>)
    requires forall s :: Reported(problems, true, s) <==> s in e.radios && !RadioRuns(rs, s)
    requires forall s :: Reported(problems, false, s) <==> s in e.bss && !BssRuns(rs, e.bss[s], s) && !BssScanning(rs, s)
    requires forall s :: s in recorded <==> Reported(problems, true, s)
    requires forall s :: s in bss <==> Reported(problems, false, s)
    requires forall s :: s in radios <==> s in recorded || (s in rs.radios && s !in e.radios && rs.radios[s].retrySetupFailed)
    requires forall s :: s in sorted <==> s in radios
    ensures IsBaseline(rs, e, Before(sorted, bss))
  {
    hide Reported, RadioRuns, BssRuns, BssScanning;
  }

  method GaveUp(rs: RunState, e: Expectation, radios: seq<string>) returns (all: seq<string>)
    ensures forall r :: r in all <==> r in radios || (r in rs.radios && r !in e.radios && rs.radios[r].retrySetupFailed)
  {
    all := radios;
    var left := rs.radios.Keys;
    while left != {}
      invariant left <= rs.radios.Keys
      invariant forall r :: r in all <==>
                  r in radios || (r in rs.radios && r !in left && r !in e.radios && rs.radios[r].retrySetupFailed)
    {
      var name :| name in left;
      left := left - {name};
      if rs.radios[name].retrySetupFailed && name !in e.radios {
        all := all + [name];
      }
    }
  }

  lemma {:induction false} SortedMembers(s: seq<string>)
    ensures forall x :: x in SortStrings(s) <==> x in s
  {
    StringLeqTotal();
    SortSorts(StringLeq, s);
    forall x ensures x in SortStrings(s) <==> x in s {
      assert x in multiset(SortStrings(s)) <==> x in multiset(s);
    }
  }

  datatype Outcome = Passed | Waiting

  /** One look at an apply's result, against the expectation and the record from before. */
  method Check(cfg: Option<Config>, ex: Expect, b: Before, rs: RunState) returns (health: Outcome, problems: seq<Problem>, extend: int)
    ensures health == Passed <==> cfg.Some? && Healthy(rs, ExpectFrom(cfg, ex), b)
    ensures cfg == None ==> problems == [Problem(ConfigUnreadable, "", false)] && extend == 0
    ensures health == Passed ==> extend == 0
    ensures cfg.Some? ==> problems == Evaluated(rs, ExpectFrom(cfg, ex), b).t.problems
    ensures cfg.Some? && health == Waiting ==> extend == Evaluated(rs, ExpectFrom(cfg, ex), b).extend
  {
    if cfg == None {
      return Waiting, [Problem(ConfigUnreadable, "", false)], 0;
    }
    var e := Compute(cfg, ex);
    var rep, ok, wait := Evaluate(rs, e, b);
    if ok {
      return Passed, rep.problems, 0;
    }
    return Waiting, rep.problems, wait;
  }

  /** An apply that changes nothing: what was recorded before it is never a reason to undo
      it. With no scan under way the check passes at once. */
  lemma {:induction false} UnchangedIsKept(cfg: Option<Config>, rs: RunState, b: Before)
    requires !rs.unreadable && IsBaseline(rs, ExpectFrom(cfg, NO_EXPECT), b)
    ensures Coming(rs, ExpectFrom(cfg, NO_EXPECT), b)
    ensures Healthy(rs, ExpectFrom(cfg, NO_EXPECT), b) <==>
            forall n | n in ExpectFrom(cfg, NO_EXPECT).bss && BssScanning(rs, n) ::
              exists r :: r in ExpectFrom(cfg, NO_EXPECT).bss[n].radios && !RadioRuns(rs, r)
  {
    hide ExpectFrom;
    var e := ExpectFrom(cfg, NO_EXPECT);
    ExpectationClosed(cfg, NO_EXPECT);
    OkExactly(rs, e, b);
    BaselineJudgesItself(rs, e, b);
  }

  /** Whatever the controller adds to the list can only be one more reason not to keep. */
  lemma {:induction false} ListNeverHelps(cfg: Option<Config>, ex: Expect, rs: RunState, b: Before)
    ensures Healthy(rs, ExpectFrom(cfg, ex), b) ==> Healthy(rs, ExpectFrom(cfg, NO_EXPECT), b)
  {
    hide ExpectFrom, Evaluated;
    ListOnlyAdds(cfg, ex);
    var own, e := ExpectFrom(cfg, NO_EXPECT), ExpectFrom(cfg, ex);
    OkIsMonotone(rs, e, b, own, b);
    OkExactly(rs, e, b);
    OkExactly(rs, own, b);
  }
}
