/** What a signature tells apart, and so which changes the monitor sends. */
module MonitorLaws {
  import opened Wrappers
  import opened Text
  import opened Health
  import opened Monitor

  /** The problem as the controller knows it. */
  type Pair = (Code, string)

  function PairsOf(problems: seq<Problem>): seq<Pair> {
    if problems == [] then []
    else
      var p := problems[0];
      (if !p.preexisting && p.code != CacRunning && p.code != AcsRunning then [(p.code, p.section)] else []) + PairsOf(problems[1..])
  }

  /** A section name as UCI has them: no comma and no at sign. */
  predicate Named(section: string) { ',' !in section && '@' !in section }

  predicate AllNamed(problems: seq<Problem>) { forall i | 0 <= i < |problems| :: Named(problems[i].section) }

  function PairKey(x: Pair): string { CodeName(x.0) + "@" + x.1 }

  lemma {:induction false} CodeNames(a: Code, b: Code)
    ensures '@' !in CodeName(a) && ',' !in CodeName(a) && CodeName(a) != ""
    ensures CodeName(a) == CodeName(b) ==> a == b
  {
    CodeLetters(a);
    CodeLetters(b);
    CodePlain(a);
    hide CodeName;
  }

  lemma {:induction false} CodePlain(a: Code)
    ensures '@' !in CodeName(a) && ',' !in CodeName(a) && CodeName(a) != ""
  {
    if a.RadioDown? || a.RadioSetupFailed? || a.BssMissing? || a.BssDisabled? || a.SsidMismatch? {
      SomeLower(a);
    } else {
      OthersLower(a);
    }
    hide Lower, CodeName;
    PlainOf(CodeName(a));
  }

  lemma {:induction false} SomeLower(a: Code)
    requires a.RadioDown? || a.RadioSetupFailed? || a.BssMissing? || a.BssDisabled? || a.SsidMismatch?
    ensures Lower(CodeName(a))
  {
  }

  lemma {:induction false} OthersLower(a: Code)
    requires a.CacRunning? || a.AcsRunning? || a.HostapdUnreachable? || a.ConfigUnreadable? || a.StatusUnreadable?
    ensures Lower(CodeName(a))
  {
  }

  predicate Lower(s: string) { s != "" && forall i | 0 <= i < |s| :: 'a' <= s[i] <= 'z' || s[i] == '_' }

  lemma {:induction false} PlainOf(s: string)
    ensures Lower(s) ==> '@' !in s && ',' !in s && s != ""
  {
  }

  /** The names differ in length or in a letter. */
  lemma {:induction false} CodeLetters(a: Code)
    ensures var s := CodeName(a);
            match a
            case RadioDown => |s| == 10
            case RadioSetupFailed => |s| == 18
            case BssMissing => |s| == 11 && s[0] == 'b'
            case BssDisabled => |s| == 12
            case SsidMismatch => |s| == 13
            case CacRunning => |s| == 11 && s[0] == 'c'
            case AcsRunning => |s| == 11 && s[0] == 'a'
            case HostapdUnreachable => |s| == 19
            case ConfigUnreadable => |s| == 17 && s[0] == 'c'
            case StatusUnreadable => |s| == 17 && s[0] == 's'
  {
  }

  lemma {:induction false} PairKeyInjective(x: Pair, y: Pair)
    requires PairKey(x) == PairKey(y)
    ensures x == y
  {
    CodeNames(x.0, y.0);
    CodeNames(y.0, x.0);
    hide CodeName;
    CutAt(CodeName(x.0), x.1, CodeName(y.0), y.1);
  }

  lemma {:induction false} CutAt(a: string, b: string, c: string, d: string)
    requires '@' !in a && '@' !in c && a + "@" + b == c + "@" + d
    ensures a == c && b == d
  {
    var s := a + "@" + b;
    assert s[|a|] == '@' && s[|c|] == '@';
    assert forall k | 0 <= k < |a| :: s[k] == a[k];
    assert forall k | 0 <= k < |c| :: s[k] == c[k];
    assert |a| == |c|;
    assert s[..|a|] == a && s[..|c|] == c && s[|a| + 1..] == b && s[|c| + 1..] == d;
  }

  // ---- lists joined with commas ----

  predicate NoComma(s: string) { s != "" && ',' !in s }

  lemma {:induction false} JoinInjective(a: seq<string>, b: seq<string>)
    requires (forall i | 0 <= i < |a| :: NoComma(a[i])) && (forall i | 0 <= i < |b| :: NoComma(b[i]))
    requires Join(a, ",") == Join(b, ",")
    ensures a == b
    decreases |a|
  {
    if a == [] || b == [] {
      if a != [] { JoinStarts(a); }
      if b != [] { JoinStarts(b); }
    } else {
      JoinStarts(a);
      JoinStarts(b);
      FirstItem(a[0], if |a| == 1 then "" else "," + Join(a[1..], ","), b[0], if |b| == 1 then "" else "," + Join(b[1..], ","));
      assert a == [a[0]] + a[1..] && b == [b[0]] + b[1..];
      if |a| > 1 && |b| > 1 {
        CommaTail(Join(a[1..], ","), Join(b[1..], ","));
        JoinInjective(a[1..], b[1..]);
      }
    }
  }

  lemma {:induction false} JoinStarts(a: seq<string>)
    requires a != [] && forall i | 0 <= i < |a| :: NoComma(a[i])
    ensures Join(a, ",") == a[0] + (if |a| == 1 then "" else "," + Join(a[1..], ",")) && Join(a, ",") != ""
  {
    assert NoComma(a[0]);
    if |a| == 1 {
      assert a[0] + "" == a[0];
    } else {
      Assoc(a[0], ",", Join(a[1..], ","));
    }
  }

  lemma {:induction false} CommaTail(x: string, y: string)
    requires "," + x == "," + y
    ensures x == y
  {
    assert ("," + x)[1..] == x && ("," + y)[1..] == y;
  }

  lemma {:induction false} FirstItem(x: string, xs: string, y: string, ys: string)
    requires NoComma(x) && NoComma(y) && x + xs == y + ys
    requires (xs == "" || xs[0] == ',') && (ys == "" || ys[0] == ',')
    ensures x == y && xs == ys
  {
    var s := x + xs;
    assert forall k | 0 <= k < |x| :: s[k] == x[k];
    assert forall k | 0 <= k < |y| :: s[k] == y[k];
    assert |x| < |s| ==> s[|x|] == ',';
    assert |y| < |s| ==> s[|y|] == ',';
    assert |x| == |y|;
    assert s[..|x|] == x && s[..|y|] == y && s[|x|..] == xs && s[|y|..] == ys;
  }

  // ---- the signature ----

  /** The keys are the pairs', one by one. */
  predicate KeyedBy(keys: seq<string>, pairs: seq<Pair>) {
    |keys| == |pairs| && forall i | 0 <= i < |pairs| :: keys[i] == PairKey(pairs[i])
  }

  lemma {:induction false} KeysArePairs(problems: seq<Problem>)
    ensures KeyedBy(KeysOf(Counted(problems)), PairsOf(problems))
  {
    if problems != [] {
      hide CodeName, KeyedBy, KeysOf;
      KeysArePairs(problems[1..]);
      var p, rest, pairs := problems[0], Counted(problems[1..]), PairsOf(problems[1..]);
      hide Counted, PairsOf;
      if Counts(p) {
        OneMoreKey(p, rest, pairs);
        assert Counted(problems) == [p] + rest by { KeptFirst(problems); }
        assert PairsOf(problems) == [(p.code, p.section)] + pairs by { KeptFirst(problems); }
      } else {
        assert Counted(problems) == rest && PairsOf(problems) == pairs by { KeptFirst(problems); }
      }
    } else {
      assert KeysOf([]) == [];
    }
  }

  lemma {:induction false} KeptFirst(problems: seq<Problem>)
    requires problems != []
    ensures var p := problems[0];
            && Counted(problems) == (if Counts(p) then [p] else []) + Counted(problems[1..])
            && PairsOf(problems) == (if Counts(p) then [(p.code, p.section)] else []) + PairsOf(problems[1..])
  {
  }

  lemma {:induction false} OneMoreKey(p: Problem, rest: seq<Problem>, pairs: seq<Pair>)
    requires KeyedBy(KeysOf(rest), pairs)
    ensures KeyedBy(KeysOf([p] + rest), [(p.code, p.section)] + pairs)
  {
    hide CodeName;
    var all, keys := [(p.code, p.section)] + pairs, KeysOf([p] + rest);
    forall i | 0 <= i < |all| ensures keys[i] == PairKey(all[i]) {
      if i > 0 { assert keys[i] == KeysOf(rest)[i - 1]; }
    }
  }

  lemma {:induction false} PairsNamed(problems: seq<Problem>)
    requires AllNamed(problems)
    ensures forall i | 0 <= i < |PairsOf(problems)| :: Named(PairsOf(problems)[i].1)
  {
    if problems != [] {
      hide Named;
      assert Named(problems[0].section);
      assert forall i | 0 <= i < |problems[1..]| :: problems[1..][i] == problems[i + 1];
      PairsNamed(problems[1..]);
    }
  }

  /** How often a problem's key is among the keys is how often the problem is. */
  lemma {:induction false} KeyCounts(keys: seq<string>, pairs: seq<Pair>, x: Pair)
    requires KeyedBy(keys, pairs)
    ensures multiset(keys)[PairKey(x)] == multiset(pairs)[x]
  {
    hide PairKey;
    if pairs != [] {
      var k, p := keys[1..], pairs[1..];
      assert keys[0] == PairKey(pairs[0]);
      KeyCounts(k, p, x);
      CountFirst(keys, PairKey(x));
      CountFirst(pairs, x);
      if PairKey(pairs[0]) == PairKey(x) { PairKeyInjective(pairs[0], x); }
    }
  }

  lemma {:induction false} CountFirst<T>(s: seq<T>, x: T)
    requires s != []
    ensures multiset(s)[x] == (if s[0] == x then 1 else 0) + multiset(s[1..])[x]
  {
    assert s == [s[0]] + s[1..];
  }

  lemma {:induction false} SameCounts(a: seq<string>, pa: seq<Pair>, b: seq<string>, pb: seq<Pair>)
    requires KeyedBy(a, pa) && KeyedBy(b, pb)
    ensures multiset(a) == multiset(b) <==> multiset(pa) == multiset(pb)
  {
    hide PairKey;
    if multiset(a) == multiset(b) {
      forall x ensures multiset(pa)[x] == multiset(pb)[x] {
        KeyCounts(a, pa, x);
        KeyCounts(b, pb, x);
      }
    }
    if multiset(pa) == multiset(pb) {
      forall s ensures multiset(a)[s] == multiset(b)[s] {
        if x :| PairKey(x) == s {
          KeyCounts(a, pa, x);
          KeyCounts(b, pb, x);
        } else {
          assert s !in a && s !in b;
        }
      }
    }
  }

  lemma {:induction false} KeysHaveNoComma(problems: seq<Problem>)
    requires AllNamed(problems)
    ensures forall k | k in KeysOf(Counted(problems)) :: NoComma(k)
  {
    KeysArePairs(problems);
    PairsNamed(problems);
    hide AllNamed, KeysOf, Counted, PairsOf;
    var keys, pairs := KeysOf(Counted(problems)), PairsOf(problems);
    forall k | k in keys ensures NoComma(k) {
      var i :| 0 <= i < |keys| && keys[i] == k;
      CodeNames(pairs[i].0, pairs[i].0);
      assert Named(pairs[i].1);
      hide CodeName;
    }
  }

  /** Two states have the same signature if and only if the same problems count in both: code by
      code and section by section, as often. */
  lemma {:induction false} SignatureExactly(a: seq<Problem>, b: seq<Problem>)
    requires AllNamed(a) && AllNamed(b)
    ensures Signature(a) == Signature(b) <==> multiset(PairsOf(a)) == multiset(PairsOf(b))
  {
    var ka, kb := KeysOf(Counted(a)), KeysOf(Counted(b));
    KeysArePairs(a);
    KeysArePairs(b);
    KeysHaveNoComma(a);
    KeysHaveNoComma(b);
    hide KeysOf, Counted, PairsOf, AllNamed, KeyedBy, NoComma, Join;
    SameCounts(ka, PairsOf(a), kb, PairsOf(b));
    SameWhenSorted(ka, kb);
  }

  lemma {:induction false} SameWhenSorted(a: seq<string>, b: seq<string>)
    requires (forall k | k in a :: NoComma(k)) && (forall k | k in b :: NoComma(k))
    ensures Join(SortStrings(a), ",") == Join(SortStrings(b), ",") <==> multiset(a) == multiset(b)
  {
    hide NoComma, Join, SortStrings, StringLeq;
    SortedKeep(a);
    SortedKeep(b);
    var sa, sb := SortStrings(a), SortStrings(b);
    if multiset(a) == multiset(b) {
      StringLeqTotal();
      SortedUnique(StringLeq, sa, sb);
    }
    if Join(sa, ",") == Join(sb, ",") { JoinInjective(sa, sb); }
  }

  lemma {:induction false} SortedKeep(a: seq<string>)
    ensures SortedBy(StringLeq, SortStrings(a)) && multiset(SortStrings(a)) == multiset(a)
    ensures forall k | k in SortStrings(a) :: k in a
  {
    StringLeqTotal();
    SortSorts(StringLeq, a);
    forall k | k in SortStrings(a) ensures k in a { assert k in multiset(SortStrings(a)); }
  }

  // ---- what is sent ----

  /** A change is not missed. A look that is taken, after 29 seconds of one steady state in one
      session, whose problems are not those of the session's last report: since that report
      there was another notification, and the last one has exactly the problems that count now. */
  lemma {:induction false} ChangeIsSent(looks: seq<Look>, h: nat, i: nat, j: nat) returns (k: nat)
    requires h < i < j < |looks| && SentAt(looks, h) && OneSession(looks, h, j) && InOrder(looks)
    requires Steady(looks, i, j) && looks[j].now - looks[i].now >= 29_000_000_000 && looks[j].taken
    requires AllNamed(looks[h].problems) && forall n | h <= n <= j :: AllNamed(looks[n].problems)
    requires multiset(PairsOf(looks[h].problems)) != multiset(PairsOf(looks[j].problems))
    ensures h < k <= j && SentAt(looks, k) && multiset(PairsOf(looks[k].problems)) == multiset(PairsOf(looks[j].problems))
    ensures forall n | k < n <= j :: !SentAt(looks, n)
  {
    assert looks[h].idle && looks[j].idle;
    SteadyIsReported(looks, i, j);
    hide Signature, PairsOf, StateAt, SentAt, AllNamed, InOrder, Steady;
    SignatureExactly(looks[h].problems, looks[j].problems);
    k := LastSent(looks, h, j);
    StaysReported(looks, k, j);
    if k == h {
      assert false;
    }
    SignatureExactly(looks[k].problems, looks[j].problems);
  }

  lemma {:induction false} LastSent(looks: seq<Look>, h: nat, j: nat) returns (k: nat)
    requires h <= j < |looks| && SentAt(looks, h)
    ensures h <= k <= j && SentAt(looks, k) && forall n | k < n <= j :: !SentAt(looks, n)
    decreases j - h
  {
    hide SentAt;
    if SentAt(looks, j) {
      k := j;
    } else {
      k := LastSent(looks, h, j - 1);
    }
  }

  lemma {:induction false} StaysReported(looks: seq<Look>, k: nat, j: nat)
    requires k <= j < |looks| && SentAt(looks, k) && looks[k].idle
    requires forall n | k <= n <= j && looks[n].idle :: looks[n].gen == looks[k].gen
    requires forall n | k < n <= j :: !SentAt(looks, n)
    ensures StateAt(looks, j + 1).reported == Sig(looks[k])
  {
    hide Signature, StateAt;
    var all := looks[..j + 1];
    if k == j {
      RunLast(looks, j);
      AfterSent(StateAt(looks, j), looks[j]);
    } else {
      ReportStays(looks, k, j + 1);
    }
  }

  /** Steady for 29 seconds is what it takes, and the notification has the problems that count. */
  lemma {:induction false} SentExactly(looks: seq<Look>, j: nat) returns (i: nat)
    requires j < |looks| && SentAt(looks, j)
    ensures i < j && looks[j].now - looks[i].now >= 29_000_000_000
    ensures forall k | i <= k <= j ::
              && looks[k].idle && looks[k].gen == looks[j].gen
              && (AllNamed(looks[k].problems) && AllNamed(looks[j].problems) ==>
                    multiset(PairsOf(looks[k].problems)) == multiset(PairsOf(looks[j].problems)))
  {
    i := SentIsSteady(looks, j);
    forall k | i <= k <= j && AllNamed(looks[k].problems) && AllNamed(looks[j].problems)
      ensures multiset(PairsOf(looks[k].problems)) == multiset(PairsOf(looks[j].problems))
    {
      assert Sig(looks[k]) == Sig(looks[j]);
      hide PairsOf, AllNamed, Signature;
      SignatureExactly(looks[k].problems, looks[j].problems);
    }
  }
}
