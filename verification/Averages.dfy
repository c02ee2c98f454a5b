/** iwinfo's running averages: integer division that truncates toward zero, step by step. */
module Averages {

  /** Go's (and C's) division by a positive number. */
  function Quot(a: int, b: int): int
    requires b > 0
  {
    if a >= 0 then a / b else -(-a / b)
  }

  /** The average of n values, and one more. */
  function Next(avg: int, n: nat, x: int): int { Quot(avg * n + x, n + 1) }

  /** The average after each value in turn. */
  function Running(values: seq<int>): int {
    if values == [] then 0
    else
      var n := |values| - 1;
      Next(Running(values[..n]), n, values[n])
  }

  function Sum(values: seq<int>): int {
    if values == [] then 0 else Sum(values[..|values| - 1]) + values[|values| - 1]
  }

  /** What one truncation moves: less than the divisor, toward zero. */
  lemma {:induction false} QuotError(a: int, b: int)
    requires b > 0
    ensures -b < a - b * Quot(a, b) < b
    ensures a >= 0 ==> 0 <= b * Quot(a, b) <= a
    ensures a <= 0 ==> a <= b * Quot(a, b) <= 0
  {
    var c := if a >= 0 then a else -a;
    DivError(c, b);
    assert a < 0 ==> b * -(c / b) == -(b * (c / b));
  }

  lemma {:induction false} DivError(a: nat, b: nat)
    requires b > 0
    ensures 0 <= b * (a / b) <= a < b * (a / b) + b
  {
    assert a == b * (a / b) + a % b;
  }

  lemma {:induction false} TimesMonotone(n: nat, a: int, b: int)
    requires a <= b
    ensures n * a <= n * b
  {
  }

  lemma {:induction false} QuotBetween(total: int, n: nat, lo: int, hi: int)
    requires n > 0 && n * lo <= total <= n * hi
    ensures lo <= Quot(total, n) <= hi
  {
    QuotError(total, n);
    var q := Quot(total, n);
    hide Quot;
    assert n * (q + 1) == n * q + n;
    assert n * (hi + 1) == n * hi + n;
    if q < lo {
      TimesMonotone(n, q + 1, lo);
    }
    if q > hi {
      TimesMonotone(n, hi + 1, q);
    }
  }

  lemma {:induction false} NextBetween(avg: int, n: nat, x: int, lo: int, hi: int)
    requires lo <= x <= hi && (n > 0 ==> lo <= avg <= hi)
    ensures lo <= Next(avg, n, x) <= hi
  {
    hide Quot;
    if n > 0 {
      TimesMonotone(n, lo, avg);
      TimesMonotone(n, avg, hi);
    }
    assert avg * n == n * avg;
    assert n * lo + lo == (n + 1) * lo && n * hi + hi == (n + 1) * hi;
    QuotBetween(avg * n + x, n + 1, lo, hi);
  }

  /** The running average never leaves the range of the values. */
  lemma {:induction false} RunningBetween(values: seq<int>, lo: int, hi: int)
    requires values != [] && forall i | 0 <= i < |values| :: lo <= values[i] <= hi
    ensures lo <= Running(values) <= hi
  {
    hide Next;
    var n := |values| - 1;
    if n > 0 {
      RunningBetween(values[..n], lo, hi);
    }
    NextBetween(Running(values[..n]), n, values[n], lo, hi);
  }

  /** n times the average of n values is off their sum by at most n(n-1)/2. */
  lemma {:induction false} RunningNearSum(values: seq<int>)
    ensures var n := |values|;
            -(n * (n - 1)) <= 2 * (n * Running(values) - Sum(values)) <= n * (n - 1)
  {
    if values != [] {
      var n := |values| - 1;
      var before := values[..n];
      RunningNearSum(before);
      var avg := Running(before);
      var q := Next(avg, n, values[n]);
      assert Running(values) == q && Sum(values) == Sum(before) + values[n];
      QuotError(avg * n + values[n], n + 1);
      ErrorGrows(n, n * avg, (n + 1) * q, Sum(before), values[n], avg);
    }
  }

  lemma {:induction false} ErrorGrows(n: nat, was: int, now: int, sum: int, x: int, avg: int)
    requires was == n * avg && -(n + 1) < avg * n + x - now < n + 1
    requires -(n * (n - 1)) <= 2 * (was - sum) <= n * (n - 1)
    ensures -((n + 1) * n) <= 2 * (now - (sum + x)) <= (n + 1) * n
  {
    assert avg * n == was;
    assert (n + 1) * n == n * (n - 1) + 2 * n;
  }

  /** Signals are not positive, so rounding only ever raises their average. */
  lemma {:induction false} SignalsRoundUp(values: seq<int>)
    requires forall i | 0 <= i < |values| :: values[i] <= 0
    ensures Sum(values) <= |values| * Running(values) <= 0
  {
    if values != [] {
      var n := |values| - 1;
      SignalsRoundUp(values[..n]);
      assert n * Running(values[..n]) == Running(values[..n]) * n;
      QuotError(Running(values[..n]) * n + values[n], n + 1);
    }
  }

  /** 0, 1, .. n - 1, or their negatives. */
  function Ramp(n: nat, up: bool): (s: seq<int>)
    ensures |s| == n
  {
    if n == 0 then [] else Ramp(n - 1, up) + [if up then n - 1 else 1 - n]
  }

  /** Both bounds are reached at every length: the average stays 0. */
  lemma {:induction false} BoundReached(n: nat, up: bool)
    ensures Running(Ramp(n, up)) == 0
    ensures 2 * Sum(Ramp(n, up)) == if up then n * (n - 1) else -(n * (n - 1))
  {
    if n > 0 {
      var m, values := n - 1, Ramp(n, up);
      BoundReached(m, up);
      var x := if up then m else -m;
      assert values[..m] == Ramp(m, up) && values[m] == x;
      hide Next, Ramp;
      StaysZero(m, x);
      assert Sum(values) == Sum(values[..m]) + x;
      hide Running, Sum;
      Triangle(m);
    }
  }

  lemma {:induction false} Triangle(m: int)
    ensures (m + 1) * (m + 1 - 1) == m * (m - 1) + 2 * m
  {
  }

  lemma {:induction false} StaysZero(n: nat, x: int)
    requires 0 <= x + n && x <= n
    ensures Next(0, n, x) == 0
  {
    SmallQuot(if x < 0 then -x else x, n + 1);
  }

  lemma {:induction false} SmallQuot(a: nat, b: nat)
    requires a < b
    ensures a / b == 0
  {
  }

  // ---- over the stations of an interface ----

  datatype Station = Station(hasSignal: bool, signal: int, hasRate: bool, rate: int)

  function Signals(stations: seq<Station>): seq<int> {
    if stations == [] then []
    else
      var last := stations[|stations| - 1];
      Signals(stations[..|stations| - 1]) + if last.hasSignal then [last.signal] else []
  }

  function Rates(stations: seq<Station>): seq<int> {
    if stations == [] then []
    else
      var last := stations[|stations| - 1];
      Rates(stations[..|stations| - 1]) + if last.hasRate then [last.rate] else []
  }

  predicate Averaged(avg: int, n: nat, values: seq<int>) { avg == Running(values) && n == |values| }

  lemma {:induction false} AveragedNext(avg: int, n: nat, values: seq<int>, x: int)
    requires Averaged(avg, n, values)
    ensures Averaged(Next(avg, n, x), n + 1, values + [x])
  {
    hide Next;
    assert (values + [x])[..n] == values;
  }

  lemma {:induction false} StationStep(stations: seq<Station>, i: nat)
    requires i < |stations|
    ensures Signals(stations[..i + 1]) == Signals(stations[..i]) + if stations[i].hasSignal then [stations[i].signal] else []
    ensures Rates(stations[..i + 1]) == Rates(stations[..i]) + if stations[i].hasRate then [stations[i].rate] else []
  {
    assert stations[..i + 1][..i] == stations[..i];
  }

  method IwinfoAverages(stations: seq<Station>) returns (signal: int, hasSignal: bool, bitrateKbps: int)
    ensures signal == Running(Signals(stations)) && (hasSignal <==> Signals(stations) != [])
    ensures bitrateKbps == 100 * Running(Rates(stations))
  {
    var rssi, rssiN: nat, rate, rateN: nat := 0, 0, 0, 0;
    assert Averaged(0, 0, []) && Signals([]) == [] && Rates([]) == [];
    ghost var signals, rates := [], [];
    hide Averaged, Next, Signals, Rates;
    for i := 0 to |stations|
      invariant Averaged(rssi, rssiN, signals) && signals == Signals(stations[..i])
      invariant Averaged(rate, rateN, rates) && rates == Rates(stations[..i])
    {
      var st := stations[i];
      StationStep(stations, i);
      if st.hasSignal {
        AveragedNext(rssi, rssiN, signals, st.signal);
        rssi := Next(rssi, rssiN, st.signal);
        rssiN := rssiN + 1;
        signals := signals + [st.signal];
      }
      if st.hasRate {
        AveragedNext(rate, rateN, rates, st.rate);
        rate := Next(rate, rateN, st.rate);
        rateN := rateN + 1;
        rates := rates + [st.rate];
      }
    }
    assert stations[..|stations|] == stations;
    AveragedEnd(rssi, rssiN, signals);
    AveragedEnd(rate, rateN, rates);
    bitrateKbps := 0;
    if rateN > 0 {
      bitrateKbps := rate * 100;
    }
    return rssi, rssiN > 0, bitrateKbps;
  }

  lemma {:induction false} AveragedEnd(avg: int, n: nat, values: seq<int>)
    requires Averaged(avg, n, values)
    ensures avg == Running(values) && (n > 0 <==> values != []) && (n == 0 ==> avg == 0)
  {
  }
}
