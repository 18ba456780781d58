/** Metered billing (`coordinator.rs`): the winner's commit latency, cross-checked
    against the median latency of the agreeing workers. Latencies are 64-bit
    milliseconds; `f64` is modelled by `real`. Arithmetic that overflows aborts. */
module Metering {
  import opened Wrappers
  import opened Numbers
  import opened Money

  predicate Ascending(s: seq<nat>) { forall i, j | 0 <= i < j < |s| :: s[i] <= s[j] }

  function Insert(x: nat, s: seq<nat>): seq<nat> {
    if s == [] || x <= s[0] then [x] + s else [s[0]] + Insert(x, s[1..])
  }

  function SortUp(s: seq<nat>): seq<nat> {
    if s == [] then [] else Insert(s[0], SortUp(s[1..]))
  }

  lemma {:induction false} InsertLower(x: nat, s: seq<nat>, lo: nat)
    requires lo <= x && forall i | 0 <= i < |s| :: lo <= s[i]
    ensures forall i | 0 <= i < |Insert(x, s)| :: lo <= Insert(x, s)[i]
  {
    if s != [] && x > s[0] {
      InsertLower(x, s[1..], lo);
    }
  }

  lemma {:induction false} InsertAscends(x: nat, s: seq<nat>)
    requires Ascending(s)
    ensures Ascending(Insert(x, s))
  {
    if s != [] && x > s[0] {
      InsertAscends(x, s[1..]);
      InsertLower(x, s[1..], s[0]);
    }
  }

  lemma {:induction false} InsertPermutes(x: nat, s: seq<nat>)
    ensures multiset(Insert(x, s)) == multiset(s) + multiset{x}
  {
    if s != [] && x > s[0] {
      InsertPermutes(x, s[1..]);
      assert s == [s[0]] + s[1..];
    }
  }

  /** Sorting yields the same latencies in ascending order. */
  lemma {:induction false} SortUpSorts(s: seq<nat>)
    ensures Ascending(SortUp(s)) && multiset(SortUp(s)) == multiset(s)
  {
    if s != [] {
      SortUpSorts(s[1..]);
      InsertAscends(s[0], SortUp(s[1..]));
      InsertPermutes(s[0], SortUp(s[1..]));
      assert s == [s[0]] + s[1..];
    }
  }

  lemma SortUpSize(s: seq<nat>)
    ensures |SortUp(s)| == |s|
    ensures forall x | x in SortUp(s) :: x in s
  {
    SortUpSorts(s);
    assert |multiset(SortUp(s))| == |multiset(s)|;
    assert forall x | x in SortUp(s) :: x in multiset(SortUp(s));
  }

  /** The two middle latencies do not fit one 64-bit word together. */
  predicate MiddleOverflows(latencies: seq<nat>) {
    SortUpSize(latencies);
    var v, n := SortUp(latencies), |latencies|;
    n > 0 && n % 2 == 0 && v[n / 2 - 1] + v[n / 2] >= U64_END
  }

  /** Every build profile checks for overflow, so adding two middle latencies that do not fit
      aborts: there is then no median. */
  function MedianMs(latencies: seq<nat>): Option<nat> {
    SortUpSize(latencies);
    var v, n := SortUp(latencies), |latencies|;
    if n == 0 then Some(0)
    else if n % 2 == 1 then Some(v[n / 2])
    else if v[n / 2 - 1] + v[n / 2] >= U64_END then None
    else Some((v[n / 2 - 1] + v[n / 2]) / 2)
  }

  function CeilSecs(ms: nat): nat { (ms + 999) / 1000 }

  function MaxReal(a: real, b: real): real { if a >= b then a else b }

  /** `x.ceil() as u64`: the cast saturates at both ends. */
  function CeilToU64(x: real): nat { Max(0, Min(CeilReal(x), U64_END - 1)) }

  function Scaled(ms: nat, factor: real): nat { CeilToU64(ms as real * factor) }

  function ScaledUp(ms: nat, tolerance: real): nat { Scaled(ms, MaxReal(tolerance, 1.0)) }

  /** None when computing the bill aborts. */
  function BilledSeconds(winnerMs: nat, agreeing: seq<nat>, tolerance: real): Option<nat> {
    match MedianMs(agreeing)
    case None => None
    case Some(median) =>
      Some(if median == 0 then CeilSecs(winnerMs) else Min(CeilSecs(winnerMs), CeilSecs(ScaledUp(median, tolerance))))
  }

  lemma ScalingUp(a: real, t: real)
    requires a >= 0.0 && t >= 1.0
    ensures a * t >= a
  {
    assert a * (t - 1.0) >= 0.0;
  }

  lemma ScalingMonotone(a: real, b: real, t: real)
    requires a <= b && t >= 0.0
    ensures a * t <= b * t
  {
    assert (b - a) * t >= 0.0;
  }

  lemma ScaledUpBounds(ms: nat, tolerance: real)
    requires ms < U64_END
    ensures ms <= ScaledUp(ms, tolerance)
  {
    ScalingUp(ms as real, MaxReal(tolerance, 1.0));
    CeilMonotone(ms as real, ms as real * MaxReal(tolerance, 1.0));
  }

  lemma ScaledMonotone(ms: nat, ms': nat, factor: real)
    requires ms <= ms' && factor >= 1.0
    ensures Scaled(ms, factor) <= Scaled(ms', factor)
  {
    var x, y := ms as real * factor, ms' as real * factor;
    assert x <= y by { ScalingMonotone(ms as real, ms' as real, factor); }
    CeilMonotone(x, y);
  }

  lemma ScaledUpMonotone(ms: nat, ms': nat, tolerance: real)
    requires ms <= ms'
    ensures ScaledUp(ms, tolerance) <= ScaledUp(ms', tolerance)
  {
    ScaledMonotone(ms, ms', MaxReal(tolerance, 1.0));
  }

  lemma CeilMonotone(x: real, y: real)
    requires x <= y
    ensures CeilToU64(x) <= CeilToU64(y)
  {
    assert x.Floor <= y.Floor;
  }

  /** A median exists exactly when the middle sum fits, and then lies within any bounds of the latencies. */
  lemma MedianWithin(latencies: seq<nat>, lo: nat)
    requires latencies != [] && forall x | x in latencies :: lo <= x < U64_END
    ensures MedianMs(latencies).None? <==> MiddleOverflows(latencies)
    ensures MedianMs(latencies).Some? ==> lo <= MedianMs(latencies).value < U64_END
  {
    SortUpSize(latencies);
    var v, n := SortUp(latencies), |latencies|;
    assert v[n / 2] in latencies;
    if n % 2 == 0 {
      assert v[n / 2 - 1] in latencies;
    }
  }

  /** For the winner that is actually picked, the fastest of the agreeing workers: a bill exists exactly
      when the middle sum fits the word, and it is then the worker's own time, whatever the tolerance. */
  lemma FastestWinnerPaysItsOwnTime(winnerMs: nat, agreeing: seq<nat>, tolerance: real)
    requires agreeing != [] && forall x | x in agreeing :: winnerMs <= x < U64_END
    ensures BilledSeconds(winnerMs, agreeing, tolerance)
         == if MiddleOverflows(agreeing) then None else Some(CeilSecs(winnerMs))
    ensures CeilSecs(winnerMs) * 1000 - 1000 < winnerMs <= CeilSecs(winnerMs) * 1000
  {
    hide MedianMs, MiddleOverflows;
    MedianWithin(agreeing, winnerMs);
    if MedianMs(agreeing).Some? {
      var median := MedianMs(agreeing).value;
      ScaledUpBounds(median, tolerance);
      DivMonotone(winnerMs + 999, ScaledUp(median, tolerance) + 999, 1000);
    }
  }

  /** Latencies are whatever the workers' commits carried, so two may be huge: billing then aborts. */
  lemma HugeLatenciesAbort(tolerance: real)
    ensures var w: nat := U64_END / 2; BilledSeconds(w, [w, w + 10], tolerance) == None
  {
    var w: nat := U64_END / 2;
    var agreeing := [w, w + 10];
    SortUpSize(agreeing);
    assert agreeing[1..] == [w + 10] && agreeing[1..][1..] == [];
    assert SortUp([w + 10]) == [w + 10] by { assert [w + 10][1..] == []; }
    assert SortUp(agreeing) == Insert(w, [w + 10]) == [w, w + 10];
  }

  // ---- settling a computed bill ----

  /** So many agreeing verifiers never make a settlement overflow; one more may. */
  const MOST_VERIFIERS: nat := 9_989

  /** An even number of agreeing workers halves the longest latency that gets a bill. */
  lemma EvenCountHalvesTheBill(winnerMs: nat, agreeing: seq<nat>)
    requires agreeing != [] && |agreeing| % 2 == 0 && forall x | x in agreeing :: winnerMs <= x < U64_END
    requires !MiddleOverflows(agreeing)
    ensures 2 * winnerMs < U64_END
  {
    SortUpSize(agreeing);
    var v, n := SortUp(agreeing), |agreeing|;
    assert v[n / 2] in agreeing && v[n / 2 - 1] in agreeing;
  }

  lemma BillIsSafe(winnerMs: nat, runners: nat)
    requires runners <= MOST_VERIFIERS && winnerMs < U64_END
    requires runners == MOST_VERIFIERS ==> 2 * winnerMs < U64_END
    ensures Safe(CeilSecs(winnerMs), runners)
  {
    var unit: nat, bill := AMOUNT_MAX / BPS, CeilSecs(winnerMs);
    if runners == MOST_VERIFIERS {
      DivMonotone(winnerMs + 999, U64_END / 2 + 998, 1000);
    } else {
      DivMonotone(winnerMs + 999, U64_END + 998, 1000);
      MulMonotone(runners + 1, MOST_VERIFIERS, unit, unit);
    }
  }

  /** Whatever the latencies, rates and sizes, with at most 9989 agreeing verifiers the settlement of the bill
      the code computes adds up, to at most the escrow, saturated or not. */
  lemma ComputedBillsAddUp(p: Pricing, t: Terms, bytes: nat, winnerMs: nat, agreeing: seq<nat>,
                           payable: seq<bool>, winnerPayable: bool)
    requires ValidPricing(p) && InWords(t, bytes)
    requires |agreeing| == |payable| + 1 && forall x | x in agreeing :: winnerMs <= x < U64_END
    requires |payable| <= MOST_VERIFIERS && BilledSeconds(winnerMs, agreeing, p.tolerance).Some?
    ensures var m := Some(Metered(t, BilledSeconds(winnerMs, agreeing, p.tolerance).value, bytes));
            var b := OpenedEscrow(p, m, |payable|);
            var settled := Settle(p, m, payable, winnerPayable, b);
            settled.Ok? && settled.value.Total().Some? && settled.value.Total().value <= b
  {
    hide BilledSeconds, MiddleOverflows, Settle, OpenedEscrow, Safe, CeilSecs;
    FastestWinnerPaysItsOwnTime(winnerMs, agreeing, p.tolerance);
    assert agreeing[0] in agreeing;
    if |payable| == MOST_VERIFIERS { EvenCountHalvesTheBill(winnerMs, agreeing); }
    BillIsSafe(winnerMs, |payable|);
    var m := Metered(t, CeilSecs(winnerMs), bytes);
    SafeSettlementAddsUp(p, m, payable, winnerPayable, OpenedEscrow(p, Some(m), |payable|));
  }

  lemma {:induction false} AllPayable(n: nat)
    ensures CountPayable(seq(n, _ => true)) == n
  {
    if n > 0 {
      var all := seq(n, _ => true);
      assert all[1..] == seq(n - 1, _ => true);
      AllPayable(n - 1);
    }
  }

  lemma OddNeverOverflows(latencies: seq<nat>)
    requires |latencies| % 2 == 1
    ensures !MiddleOverflows(latencies)
  {
    hide SortUp;
  }

  lemma HugeOutflow(p: Pricing, m: Metered, runners: nat)
    requires p == Pricing(0, 1500, 1000, 1.0) && runners == MOST_VERIFIERS + 1
    requires m == Metered(Terms(U64_END - 1, 0, U64_END - 1), CeilSecs(U64_END - 1), 0)
    ensures var b := OpenedEscrow(p, Some(m), runners);
            Outflow(p, SettledBase(p, Some(m), runners, b), runners, true) > AMOUNT_MAX
  {
    assert m.terms.CapBase(0) == (U64_END - 1) * (U64_END - 1);
    assert m.terms.BaseFor(m.billedSeconds, 0) == (U64_END - 1) * m.billedSeconds;
  }

  /** With one verifier more, the largest rate and cap, and every latency at the end of the word, there is a
      bill, and adding up its settlement aborts. */
  lemma HugeSettlementAborts()
    ensures var p, w, payable := Pricing(0, 1500, 1000, 1.0), U64_END - 1, seq(MOST_VERIFIERS + 1, _ => true);
            var bill := BilledSeconds(w, seq(|payable| + 1, _ => w), p.tolerance);
            && ValidPricing(p) && bill.Some?
            && var m := Some(Metered(Terms(w, 0, w), bill.value, 0));
               var settled := Settle(p, m, payable, true, OpenedEscrow(p, m, |payable|));
               settled.Ok? && settled.value.Total() == None
  {
    var p, w, payable := Pricing(0, 1500, 1000, 1.0), U64_END - 1, seq(MOST_VERIFIERS + 1, _ => true);
    var agreeing := seq(|payable| + 1, _ => w);
    assert agreeing[0] == w;
    hide BilledSeconds, CountPayable, Settle, MiddleOverflows;
    OddNeverOverflows(agreeing);
    FastestWinnerPaysItsOwnTime(w, agreeing, p.tolerance);
    var m := Metered(Terms(w, 0, w), CeilSecs(w), 0);
    HugeOutflow(p, m, |payable|);
    AllPayable(|payable|);
    SettlementNeverRejected(p, Some(m), payable, true, OpenedEscrow(p, Some(m), |payable|));
  }

  // ---- an arbitrary winner ----

  function AtMost(s: seq<nat>, limit: nat): nat {
    if s == [] then 0 else (if s[0] <= limit then 1 else 0) + AtMost(s[1..], limit)
  }

  lemma {:induction false} AtMostInsert(x: nat, s: seq<nat>, limit: nat)
    requires Ascending(s)
    ensures AtMost(Insert(x, s), limit) == AtMost([x], limit) + AtMost(s, limit)
  {
    if s == [] || x <= s[0] {
      assert ([x] + s)[1..] == s;
    } else {
      AtMostInsert(x, s[1..], limit);
      assert ([s[0]] + Insert(x, s[1..]))[1..] == Insert(x, s[1..]);
    }
  }

  lemma {:induction false} AtMostSorted(s: seq<nat>, limit: nat)
    ensures AtMost(SortUp(s), limit) == AtMost(s, limit)
  {
    if s != [] {
      AtMostSorted(s[1..], limit);
      SortUpSorts(s[1..]);
      AtMostInsert(s[0], SortUp(s[1..]), limit);
    }
  }

  /** In ascending order, an entry above the limit has all the entries within it before it. */
  lemma {:induction false} AtMostBefore(v: seq<nat>, k: nat, limit: nat)
    requires Ascending(v) && k < |v| && v[k] > limit
    ensures AtMost(v, limit) <= k
  {
    if k > 0 {
      AtMostBefore(v[1..], k - 1, limit);
    } else {
      NoneAtMost(v, limit);
    }
  }

  lemma {:induction false} NoneAtMost(v: seq<nat>, limit: nat)
    requires forall i | 0 <= i < |v| :: v[i] > limit
    ensures AtMost(v, limit) == 0
  {
    if v != [] {
      NoneAtMost(v[1..], limit);
    }
  }

  /** And an entry within the limit has, with itself, only entries within it before it. */
  lemma {:induction false} AtMostThrough(v: seq<nat>, k: nat, limit: nat)
    requires Ascending(v) && k < |v| && v[k] <= limit
    ensures AtMost(v, limit) > k
  {
    if k > 0 {
      assert v[0] <= v[k];
      AtMostThrough(v[1..], k - 1, limit);
    }
  }

  lemma PlaceIsExact(v: seq<nat>, k: nat, limit: nat)
    requires Ascending(v) && k < |v|
    ensures v[k] <= limit <==> AtMost(v, limit) > k
  {
    hide AtMost;
    if v[k] <= limit { AtMostThrough(v, k, limit); } else { AtMostBefore(v, k, limit); }
  }

  /** `lo` and `hi` are the two middle latencies: at least half of all stay within a limit exactly when `lo`
      does, more than half exactly when `hi` does. */
  ghost predicate AreMiddle(latencies: seq<nat>, lo: nat, hi: nat) {
    forall limit: nat :: (lo <= limit <==> 2 * AtMost(latencies, limit) >= |latencies|)
                      && (hi <= limit <==> 2 * AtMost(latencies, limit) > |latencies|)
  }

  /** The median is the mean of the middle latencies, which are one and the same for an odd number. */
  lemma MedianIsExact(latencies: seq<nat>) returns (lo: nat, hi: nat)
    requires latencies != []
    ensures AreMiddle(latencies, lo, hi)
    ensures MedianMs(latencies)
         == if |latencies| % 2 == 0 && lo + hi >= U64_END then None else Some((lo + hi) / 2)
  {
    SortUpSize(latencies);
    SortUpSorts(latencies);
    var v, n := SortUp(latencies), |latencies|;
    hide SortUp, AtMost;
    lo, hi := v[(n - 1) / 2], v[n / 2];
    forall limit: nat
      ensures lo <= limit <==> 2 * AtMost(latencies, limit) >= n
      ensures hi <= limit <==> 2 * AtMost(latencies, limit) > n
    {
      AtMostSorted(latencies, limit);
      PlaceIsExact(v, (n - 1) / 2, limit);
      PlaceIsExact(v, n / 2, limit);
    }
  }

  lemma CeilSecsIsLeast(ms: nat, t: nat)
    ensures CeilSecs(ms) <= t <==> ms <= 1000 * t
  {}

  /** Who gets billed at most `t` seconds: a winner that took at most that long, or one of which the median of
      the agreeing workers, scaled by a tolerance of at least one, did. */
  lemma BillIsExact(winnerMs: nat, agreeing: seq<nat>, tolerance: real, t: nat)
    requires BilledSeconds(winnerMs, agreeing, tolerance).Some? && 1000 * t < U64_END - 1
    ensures var median, factor := MedianMs(agreeing).value, if tolerance >= 1.0 then tolerance else 1.0;
            BilledSeconds(winnerMs, agreeing, tolerance).value <= t <==>
              winnerMs <= 1000 * t || (median > 0 && median as real * factor <= (1000 * t) as real)
  {
    hide MedianMs, CeilSecs, CeilReal;
    var median := MedianMs(agreeing).value;
    var x := median as real * MaxReal(tolerance, 1.0);
    CeilSecsIsLeast(winnerMs, t);
    CeilSecsIsLeast(ScaledUp(median, tolerance), t);
    CeilIsLeast(x, 1000 * t);
  }

  /** A majority within `limit` holds the upper middle entry within it. */
  lemma MajorityHoldsMiddle(v: seq<nat>, limit: nat)
    requires Ascending(v) && 2 * AtMost(v, limit) > |v| > 0
    ensures v[|v| / 2] <= limit
  {
    if v[|v| / 2] > limit {
      AtMostBefore(v, |v| / 2, limit);
    }
  }

  /** A majority within `limit` holds the median within it; below 2^63 it also guarantees there is one. */
  lemma MajorityHoldsMedian(latencies: seq<nat>, limit: nat)
    requires 2 * AtMost(latencies, limit) > |latencies|
    ensures MedianMs(latencies).Some? ==> MedianMs(latencies).value <= limit
    ensures limit < U64_END / 2 ==> MedianMs(latencies).Some?
  {
    SortUpSize(latencies);
    SortUpSorts(latencies);
    AtMostSorted(latencies, limit);
    var v, n := SortUp(latencies), |latencies|;
    hide SortUp, AtMost;
    if n > 0 { MajorityHoldsMiddle(v, limit); }
  }

  /** Whoever the winner is: if there is a bill it is at most the winner's own time and, when the median
      is not zero and a majority of the agreeing workers needed at most `limit` ms, at most `limit`
      scaled by the tolerance; and such a majority below 2^63 ms guarantees a bill. */
  lemma BillIsCapped(winnerMs: nat, agreeing: seq<nat>, tolerance: real, limit: nat)
    requires 2 * AtMost(agreeing, limit) > |agreeing|
    ensures var bill := BilledSeconds(winnerMs, agreeing, tolerance);
            && (limit < U64_END / 2 ==> bill.Some?)
            && (bill.Some? ==> bill.value <= CeilSecs(winnerMs))
            && (bill.Some? && MedianMs(agreeing) != Some(0) ==> bill.value <= CeilSecs(ScaledUp(limit, tolerance)))
  {
    hide MedianMs;
    MajorityHoldsMedian(agreeing, limit);
    if MedianMs(agreeing).Some? {
      var median := MedianMs(agreeing).value;
      ScaledUpMonotone(median, limit, tolerance);
      DivMonotone(ScaledUp(median, tolerance) + 999, ScaledUp(limit, tolerance) + 999, 1000);
    }
  }
}
