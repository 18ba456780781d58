/** Money arithmetic of a paid job (`coordinator.rs`, `settlement/types.rs`): sizing the
    escrow before dispatch, metering the winner, splitting the escrow after quorum.
    Amounts are nanoton in a saturating 128-bit word. */
module Money {
  import opened Wrappers

  const U64_END: nat := 0x1_0000_0000_0000_0000
  const AMOUNT_MAX: nat := 0xFFFF_FFFF_FFFF_FFFF_FFFF_FFFF_FFFF_FFFF
  const BPS: nat := 10_000
  const BPS_MAX: nat := 65_535
  const TON: nat := 1_000_000_000
  const GIB: nat := 0x4000_0000

  function Min(a: int, b: int): int { if a <= b then a else b }
  function Max(a: int, b: int): int { if a >= b then a else b }
  function SatAdd(a: nat, b: nat): nat { Min(a + b, AMOUNT_MAX) }
  function SatMul(a: nat, b: nat): nat { Min(a * b, AMOUNT_MAX) }

  // ---- terms and totals ----

  datatype Bid = Bid(ratePerSecond: nat, ratePerGb: nat, capSeconds: nat, freeMemory: nat)

  datatype Terms = Terms(ratePerSecond: nat, ratePerGb: nat, capSeconds: nat) {
    function BytesTerm(bytes: nat): nat { SatMul(ratePerGb, bytes) / GIB }
    function CapBase(bytes: nat): nat { SatAdd(SatMul(ratePerSecond, capSeconds), BytesTerm(bytes)) }
    function BaseFor(billedSeconds: nat, bytes: nat): nat {
      SatAdd(SatMul(ratePerSecond, Min(billedSeconds, capSeconds)), BytesTerm(bytes))
    }
  }

  function TermsOf(bid: Bid): Option<Terms> {
    if bid.ratePerSecond == 0 then None
    else Some(Terms(bid.ratePerSecond, bid.ratePerGb, Max(bid.capSeconds, 1)))
  }

  /** Winner base, platform fee, and one commission per agreeing runner. */
  function RequiredTotal(base: nat, runners: nat, fee: nat, commission: nat): nat {
    SatAdd(SatAdd(base, SatMul(base, fee) / BPS), SatMul(SatMul(base, commission) / BPS, runners))
  }

  function EnsureCovers(available: nat, base: nat, runners: nat, fee: nat, commission: nat): Result<nat, nat> {
    var needed := RequiredTotal(base, runners, fee, commission);
    if available < needed then Err(needed) else Ok(needed)
  }

  /** A fraction as rounded basis points, clamped to 16 bits. */
  function ToBps(fraction: real): (bps: nat)
    ensures bps <= BPS_MAX
    ensures 0.0 <= fraction <= 6.5 ==> -0.5 <= bps as real - fraction * 10000.0 <= 0.5
  {
    Max(0, Min((fraction * 10000.0 + 0.5).Floor, BPS_MAX))
  }

  lemma MulMonotone(a: nat, a': nat, b: nat, b': nat)
    requires a <= a' && b <= b'
    ensures a * b <= a' * b'
  {
    assert a * b <= a' * b;
    assert a' * b <= a' * b';
  }

  lemma DivMonotone(a: nat, a': nat, d: nat)
    requires a <= a' && d > 0
    ensures a / d <= a' / d
  {
    if a / d > a' / d {
      MulMonotone(a' / d + 1, a / d, d, d);
    }
  }

  lemma SatMulMonotone(a: nat, a': nat, b: nat, b': nat)
    requires a <= a' && b <= b'
    ensures SatMul(a, b) <= SatMul(a', b')
  {
    MulMonotone(a, a', b, b');
  }

  /** A dearer winner or one more agreeing runner never needs a smaller escrow, saturation included. */
  lemma RequiredTotalMonotone(base: nat, base': nat, runners: nat, runners': nat, fee: nat, commission: nat)
    requires base <= base' && runners <= runners'
    ensures RequiredTotal(base, runners, fee, commission) <= RequiredTotal(base', runners', fee, commission)
  {
    SatMulMonotone(base, base', fee, fee);
    DivMonotone(SatMul(base, fee), SatMul(base', fee), BPS);
    SatMulMonotone(base, base', commission, commission);
    DivMonotone(SatMul(base, commission), SatMul(base', commission), BPS);
    SatMulMonotone(SatMul(base, commission) / BPS, SatMul(base', commission) / BPS, runners, runners');
  }

  /** Metered cost never exceeds the cap the escrow was sized to. */
  lemma BaseWithinCap(t: Terms, billedSeconds: nat, bytes: nat)
    ensures t.BaseFor(billedSeconds, bytes) <= t.CapBase(bytes)
  {
    SatMulMonotone(t.ratePerSecond, t.ratePerSecond, Min(billedSeconds, t.capSeconds), t.capSeconds);
  }

  // ---- before dispatch ----

  datatype Pricing = Pricing(maxBid: nat, fee: nat, commission: nat, tolerance: real)

  predicate ValidPricing(p: Pricing) {
    p.maxBid < U64_END && p.fee <= BPS_MAX && p.commission <= BPS_MAX
  }

  /** The dearest `cap_base` among the selected metered bids; 0 when none is metered. */
  function WorstCapBase(bids: seq<Bid>, bytes: nat): nat {
    if bids == [] then 0
    else
      var rest := WorstCapBase(bids[1..], bytes);
      match TermsOf(bids[0])
      case Some(t) => Max(t.CapBase(bytes), rest)
      case None => rest
  }

  /** The ceiling the requester configured, in nanoton. */
  function Ceiling(p: Pricing): nat { SatMul(p.maxBid, TON) }

  lemma CeilingIsSmall(p: Pricing)
    requires ValidPricing(p)
    ensures Ceiling(p) * BPS_MAX <= AMOUNT_MAX
    ensures Ceiling(p) == p.maxBid * 1_000_000_000 && (p.maxBid > 0 ==> EscrowBid(p) == Ceiling(p))
  {}

  /** The up-front coverage check of a paid job on its selected bids. */
  function Preflight(p: Pricing, bids: seq<Bid>, bytes: nat): Result<(), nat> {
    var worst := WorstCapBase(bids, bytes);
    if p.maxBid == 0 || worst == 0 then Ok(())
    else match EnsureCovers(Ceiling(p), worst, Max(|bids| - 1, 0), p.fee, p.commission)
      case Ok(_) => Ok(())
      case Err(needed) => Err(needed)
  }

  lemma {:induction false} WorstBoundsEach(bids: seq<Bid>, i: nat, bytes: nat)
    requires i < |bids| && TermsOf(bids[i]).Some?
    ensures 0 < TermsOf(bids[i]).value.CapBase(bytes) <= WorstCapBase(bids, bytes)
  {
    var t := TermsOf(bids[i]).value;
    MulMonotone(1, t.ratePerSecond, 1, t.capSeconds);
    if i > 0 {
      WorstBoundsEach(bids[1..], i - 1, bytes);
    }
  }

  // ---- after quorum ----

  datatype Metered = Metered(terms: Terms, billedSeconds: nat, bytes: nat)

  function EscrowBid(p: Pricing): nat { Max(p.maxBid, 1) * TON }

  /** The escrow `B` opened for a winner with `runners` agreeing non-winners. */
  function OpenedEscrow(p: Pricing, metered: Option<Metered>, runners: nat): nat {
    match metered
    case Some(m) => RequiredTotal(m.terms.CapBase(m.bytes), runners, p.fee, p.commission)
    case None => EscrowBid(p)
  }

  function SplitDenominator(p: Pricing, runners: nat): (d: nat)
    ensures d >= BPS
  {
    SatAdd(SatAdd(BPS, p.fee), SatMul(runners, p.commission))
  }

  function Share(amount: nat, denominator: nat): nat
    requires denominator > 0
  {
    amount / denominator
  }

  /** The winner's settled price: metered cost, or the share of `b` that lets the whole split fit. */
  function SettledBase(p: Pricing, metered: Option<Metered>, runners: nat, b: nat): nat {
    match metered
    case Some(m) => Min(m.terms.BaseFor(m.billedSeconds, m.bytes), b)
    case None => Share(SatMul(b, BPS), SplitDenominator(p, runners))
  }

  datatype Payouts = Payouts(base: nat, winner: nat, fee: nat, commissions: seq<nat>) {
    /** What leaves the escrow. Adding it up aborts when it does not fit the word. */
    function Total(): Option<nat> {
      var sum := winner + fee + SumOf(commissions);
      if sum <= AMOUNT_MAX then Some(sum) else None
    }
  }

  function SumOf(s: seq<nat>): nat { if s == [] then 0 else s[0] + SumOf(s[1..]) }

  /** The split of escrow `b`: `payable[i]` says whether the i-th agreeing non-winner has a wallet.
      An error is the coverage guard refusing to settle. */
  function Settle(p: Pricing, metered: Option<Metered>, payable: seq<bool>, winnerPayable: bool,
                  b: nat): Result<Payouts, nat> {
    var base := SettledBase(p, metered, |payable|, b);
    var each := SatMul(base, p.commission) / BPS;
    var commissions := Commissions(payable, each);
    match EnsureCovers(b, base, |commissions|, p.fee, p.commission)
    case Err(needed) => Err(needed)
    case Ok(_) => Ok(Payouts(base, if winnerPayable then base else 0, SatMul(base, p.fee) / BPS, commissions))
  }

  function Commissions(payable: seq<bool>, each: nat): (cs: seq<nat>)
    ensures |cs| <= |payable| && forall i | 0 <= i < |cs| :: cs[i] == each
  {
    if payable == [] then []
    else (if payable[0] then [each] else []) + Commissions(payable[1..], each)
  }

  lemma {:induction false} SumOfEqual(s: seq<nat>, each: nat)
    requires forall i | 0 <= i < |s| :: s[i] == each
    ensures SumOf(s) == |s| * each
  {
    if s != [] {
      SumOfEqual(s[1..], each);
    }
  }

  // ---- the fixed-price split ----

  /** Floor division, spelled out. */
  lemma DivBounds(a: nat, d: nat)
    requires d > 0
    ensures a / d * d <= a < a / d * d + d
  {
  }

  ghost predicate FixedSplit(p: Pricing, runners: nat, b: nat, base: nat, fee: nat, each: nat) {
    && base == SettledBase(p, None, runners, b)
    && fee == SatMul(base, p.fee) / BPS
    && each == SatMul(base, p.commission) / BPS
  }

  lemma DenominatorIsExact(p: Pricing, runners: nat)
    requires ValidPricing(p) && runners < U64_END
    ensures SplitDenominator(p, runners) == BPS + p.fee + runners * p.commission
  {
    MulMonotone(runners, U64_END, p.commission, BPS_MAX);
  }

  lemma BaseTimesDenominator(p: Pricing, runners: nat, b: nat)
    requires ValidPricing(p) && runners < U64_END
    ensures var base, d := SettledBase(p, None, runners, b), BPS + p.fee + runners * p.commission;
            && base * d <= b * BPS && base * d <= AMOUNT_MAX
            && SatMul(b, BPS) < base * d + d
  {
    DenominatorIsExact(p, runners);
    DivBounds(SatMul(b, BPS), SplitDenominator(p, runners));
  }

  /** A floored piece of the base, in units of one basis point of it. */
  lemma PieceOfBase(base: nat, rate: nat)
    requires base * rate <= AMOUNT_MAX
    ensures var piece := SatMul(base, rate) / BPS; BPS * piece <= base * rate < BPS * piece + BPS
  {
  }

  lemma RatesWithinDenominator(p: Pricing, runners: nat, base: nat)
    requires base * (BPS + p.fee + runners * p.commission) <= AMOUNT_MAX
    ensures base * p.fee <= AMOUNT_MAX
    ensures runners > 0 ==> base * p.commission <= AMOUNT_MAX
  {
    var d := BPS + p.fee + runners * p.commission;
    MulMonotone(base, base, p.fee, d);
    if runners > 0 {
      MulMonotone(1, runners, p.commission, p.commission);
      MulMonotone(base, base, p.commission, d);
    }
  }

  lemma RunnersTimesPiece(runners: nat, each: nat, x: nat)
    requires runners > 0 ==> BPS * each <= x < BPS * each + BPS
    ensures BPS * (runners * each) <= runners * x <= BPS * (runners * each) + BPS * runners
  {
    if runners > 0 {
      MulMonotone(runners, runners, BPS * each, x);
      MulMonotone(runners, runners, x, BPS * each + BPS);
      assert runners * (BPS * each) == BPS * (runners * each);
      assert runners * (BPS * each + BPS) == runners * (BPS * each) + BPS * runners;
    }
  }

  lemma BaseExpands(base: nat, fee: nat, runners: nat, commission: nat)
    ensures base * (BPS + fee + runners * commission) == base * BPS + base * fee + runners * (base * commission)
  {
    assert base * (runners * commission) == runners * (base * commission);
  }

  /** For every escrow, runner count, fee and commission the full split fits the escrow; and what is left
      over of the part of `b` that survives the multiplication by 10000, which is all of it unless the word
      saturates, is less than `(10000 + fee + runners*commission)/10000 + runners + 1` nanoton. */
  lemma FixedSplitIsTight(p: Pricing, runners: nat, b: nat, base: nat, fee: nat, each: nat)
    requires ValidPricing(p) && runners < U64_END && FixedSplit(p, runners, b, base, fee, each)
    ensures base + fee + runners * each <= b
    ensures SatMul(b, BPS) - BPS * (base + fee + runners * each)
          < BPS + p.fee + runners * p.commission + BPS * (runners + 1)
    ensures b * BPS <= AMOUNT_MAX ==>
            BPS * (b - (base + fee + runners * each)) < BPS + p.fee + runners * p.commission + BPS * (runners + 1)
  {
    BaseTimesDenominator(p, runners, b);
    RatesWithinDenominator(p, runners, base);
    PieceOfBase(base, p.fee);
    if runners > 0 { PieceOfBase(base, p.commission); }
    RunnersTimesPiece(runners, each, base * p.commission);
    BaseExpands(base, p.fee, runners, p.commission);
    assert BPS * (base + fee + runners * each) <= b * BPS;
  }

  /** Every configurable fixed bid is far from saturation, so the tight bound applies to it. */
  lemma EscrowBidIsSmall(p: Pricing)
    requires ValidPricing(p)
    ensures EscrowBid(p) * BPS <= AMOUNT_MAX
  {
  }

  lemma UnsaturatedTotal(base: nat, runners: nat, fee: nat, commission: nat)
    ensures RequiredTotal(base, runners, fee, commission)
         <= base + SatMul(base, fee) / BPS + runners * (SatMul(base, commission) / BPS)
  {
    assert SatMul(base, commission) / BPS * runners == runners * (SatMul(base, commission) / BPS);
  }

  lemma ExactTotal(base: nat, runners: nat, fee: nat, commission: nat)
    requires RequiredTotal(base, runners, fee, commission) < AMOUNT_MAX
    ensures RequiredTotal(base, runners, fee, commission)
         == base + SatMul(base, fee) / BPS + runners * (SatMul(base, commission) / BPS)
  {
    assert SatMul(base, commission) / BPS * runners == runners * (SatMul(base, commission) / BPS);
  }

  // ---- settlement as a whole ----

  lemma SettledBaseIsCovered(p: Pricing, metered: Option<Metered>, runners: nat, paid: nat, b: nat)
    requires ValidPricing(p) && paid <= runners < U64_END
    requires b == OpenedEscrow(p, metered, runners)
    ensures var base := SettledBase(p, metered, runners, b);
            RequiredTotal(base, paid, p.fee, p.commission) <= b
  {
    var base := SettledBase(p, metered, runners, b);
    RequiredTotalMonotone(base, base, paid, runners, p.fee, p.commission);
    match metered
    case Some(m) =>
      BaseWithinCap(m.terms, m.billedSeconds, m.bytes);
      RequiredTotalMonotone(base, m.terms.CapBase(m.bytes), runners, runners, p.fee, p.commission);
    case None =>
      FixedSplitIsTight(p, runners, b, base, SatMul(base, p.fee) / BPS, SatMul(base, p.commission) / BPS);
      UnsaturatedTotal(base, runners, p.fee, p.commission);
  }

  /** What a settlement pays out of the escrow, in unbounded arithmetic: to the winner, the platform, and
      each of `paid` verifiers. */
  function Outflow(p: Pricing, base: nat, paid: nat, winnerPayable: bool): nat {
    (if winnerPayable then base else 0) + SatMul(base, p.fee) / BPS + paid * (SatMul(base, p.commission) / BPS)
  }

  function CountPayable(payable: seq<bool>): (n: nat)
    ensures n <= |payable|
  {
    if payable == [] then 0 else (if payable[0] then 1 else 0) + CountPayable(payable[1..])
  }

  lemma {:induction false} CommissionsCount(payable: seq<bool>, each: nat)
    ensures |Commissions(payable, each)| == CountPayable(payable)
  {
    if payable != [] { CommissionsCount(payable[1..], each); }
  }

  /** A fixed price, or an escrow that did not saturate, holds everything the settlement pays out. */
  lemma OutflowIsHeld(p: Pricing, metered: Option<Metered>, runners: nat, paid: nat, winnerPayable: bool, b: nat)
    requires ValidPricing(p) && paid <= runners < U64_END
    requires b == OpenedEscrow(p, metered, runners) && (metered.None? || b < AMOUNT_MAX)
    ensures Outflow(p, SettledBase(p, metered, runners, b), paid, winnerPayable) <= b < AMOUNT_MAX
  {
    EscrowBidIsSmall(p);
    SettledBaseIsCovered(p, metered, runners, paid, b);
    ExactTotal(SettledBase(p, metered, runners, b), paid, p.fee, p.commission);
  }

  lemma TotalIsOutflow(p: Pricing, metered: Option<Metered>, payable: seq<bool>, winnerPayable: bool, b: nat)
    requires Settle(p, metered, payable, winnerPayable, b).Ok?
    ensures var out := Outflow(p, SettledBase(p, metered, |payable|, b), CountPayable(payable), winnerPayable);
            Settle(p, metered, payable, winnerPayable, b).value.Total() == if out <= AMOUNT_MAX then Some(out) else None
  {
    hide SettledBase, SatMul, CountPayable, Commissions, SumOf, EnsureCovers;
    var base := SettledBase(p, metered, |payable|, b);
    var each := SatMul(base, p.commission) / BPS;
    CommissionsCount(payable, each);
    SumOfEqual(Commissions(payable, each), each);
    assert SumOf(Commissions(payable, each)) == CountPayable(payable) * each;
  }

  /** The coverage guard never rejects an escrow this code opened itself, metered or fixed. What the
      settlement then pays out never exceeds that escrow. Adding it up aborts exactly when the payouts do not
      fit the word, for which the winner must be metered and the escrow saturated. */
  lemma SettlementNeverRejected(p: Pricing, metered: Option<Metered>, payable: seq<bool>, winnerPayable: bool, b: nat)
    requires ValidPricing(p) && |payable| < U64_END
    requires b == OpenedEscrow(p, metered, |payable|)
    ensures var out := Outflow(p, SettledBase(p, metered, |payable|, b), CountPayable(payable), winnerPayable);
            var settled := Settle(p, metered, payable, winnerPayable, b);
            && settled.Ok?
            && (settled.value.Total().Some? <==> out <= AMOUNT_MAX)
            && (settled.value.Total().Some? ==> settled.value.Total().value == out <= b)
            && (metered.None? || b < AMOUNT_MAX ==> settled.value.Total().Some?)
  {
    CommissionsCount(payable, SatMul(SettledBase(p, metered, |payable|, b), p.commission) / BPS);
    SettledBaseIsCovered(p, metered, |payable|, CountPayable(payable), b);
    assert b <= AMOUNT_MAX by { EscrowBidIsSmall(p); }
    assert Settle(p, metered, payable, winnerPayable, b).Ok?;
    TotalIsOutflow(p, metered, payable, winnerPayable, b);
    hide Settle, OpenedEscrow, SettledBase, Outflow;
    if metered.None? || b < AMOUNT_MAX {
      OutflowIsHeld(p, metered, |payable|, CountPayable(payable), winnerPayable, b);
    }
  }

  // ---- bills and rates of 64 bits ----

  predicate InWords(t: Terms, bytes: nat) {
    t.ratePerSecond < U64_END && t.ratePerGb < U64_END && bytes < U64_END
  }

  /** `x` is the price of so many seconds and bytes, rounded down to a nanoton. */
  predicate IsPrice(x: nat, ratePerSecond: nat, seconds: nat, ratePerGb: nat, bytes: nat) {
    GIB * x <= GIB * (ratePerSecond * seconds) + ratePerGb * bytes < GIB * x + GIB
  }

  /** `x` is so many basis points of `base`, rounded down. */
  predicate IsShare(x: nat, base: nat, rate: nat) { BPS * x <= base * rate < BPS * x + BPS }

  lemma GibFloor(seconds: nat, bytes: nat)
    ensures var x := seconds + bytes / GIB; GIB * x <= GIB * seconds + bytes < GIB * x + GIB
  {
    DivBounds(bytes, GIB);
  }

  /** A bill at or past the cap costs the cap; below saturation any bill costs its price, bytes included. */
  lemma MeteredPriceIsExact(t: Terms, billedSeconds: nat, bytes: nat)
    requires InWords(t, bytes)
    ensures billedSeconds >= t.capSeconds ==> t.BaseFor(billedSeconds, bytes) == t.CapBase(bytes)
    ensures var x, seconds := t.BaseFor(billedSeconds, bytes), Min(billedSeconds, t.capSeconds);
            x < AMOUNT_MAX ==> IsPrice(x, t.ratePerSecond, seconds, t.ratePerGb, bytes)
  {
    var seconds: nat := Min(billedSeconds, t.capSeconds);
    MulMonotone(t.ratePerGb, U64_END - 1, bytes, U64_END - 1);
    GibFloor(t.ratePerSecond * seconds, t.ratePerGb * bytes);
  }

  lemma ShareIsExact(base: nat, rate: nat, b: nat)
    requires base <= b && rate <= BPS_MAX && b * BPS_MAX <= AMOUNT_MAX
    ensures IsShare(SatMul(base, rate) / BPS, base, rate)
  {
    MulMonotone(base, b, rate, BPS_MAX);
    PieceOfBase(base, rate);
  }

  /** Out of an escrow far from saturation everybody is paid exactly its due: a winner with a wallet the price
      of its bill, the platform and each verifier with a wallet their shares of that price. */
  lemma MeteredPayoutsAreExact(p: Pricing, m: Metered, payable: seq<bool>, winnerPayable: bool, b: nat)
    requires ValidPricing(p) && InWords(m.terms, m.bytes) && |payable| < U64_END
    requires b == OpenedEscrow(p, Some(m), |payable|) && b * BPS_MAX <= AMOUNT_MAX
    ensures Settle(p, Some(m), payable, winnerPayable, b).Ok?
    ensures var paid, t := Settle(p, Some(m), payable, winnerPayable, b).value, m.terms;
            && IsPrice(paid.base, t.ratePerSecond, Min(m.billedSeconds, t.capSeconds), t.ratePerGb, m.bytes)
            && paid.winner == (if winnerPayable then paid.base else 0)
            && IsShare(paid.fee, paid.base, p.fee)
            && |paid.commissions| == CountPayable(payable)
            && forall i | 0 <= i < |paid.commissions| :: IsShare(paid.commissions[i], paid.base, p.commission)
  {
    hide IsPrice, IsShare, CountPayable, Commissions, SatMul, SatAdd;
    SettlementNeverRejected(p, Some(m), payable, winnerPayable, b);
    var price := m.terms.BaseFor(m.billedSeconds, m.bytes);
    PriceWithinEscrow(p, m, |payable|, b);
    MeteredPriceIsExact(m.terms, m.billedSeconds, m.bytes);
    ShareIsExact(price, p.fee, b);
    ShareIsExact(price, p.commission, b);
    CommissionsCount(payable, SatMul(price, p.commission) / BPS);
  }

  /** At a fixed price the winner with a wallet gets a price of which fee and commissions are exact shares; when
      everybody has a wallet, next to nothing of the bid is left. */
  lemma FixedPayoutsAreExact(p: Pricing, payable: seq<bool>, winnerPayable: bool)
    requires ValidPricing(p) && |payable| < U64_END
    ensures Settle(p, None, payable, winnerPayable, EscrowBid(p)).Ok?
    ensures var b, n, paid := EscrowBid(p), |payable|, Settle(p, None, payable, winnerPayable, EscrowBid(p)).value;
            && paid.winner == (if winnerPayable then paid.base else 0)
            && IsShare(paid.fee, paid.base, p.fee)
            && |paid.commissions| == CountPayable(payable)
            && (forall i | 0 <= i < |paid.commissions| :: IsShare(paid.commissions[i], paid.base, p.commission))
            && paid.Total().Some? && paid.Total().value <= b
            && (winnerPayable && CountPayable(payable) == n ==>
                  BPS * (b - paid.Total().value) < BPS + p.fee + n * p.commission + BPS * (n + 1))
  {
    hide IsShare, CountPayable, Commissions, SatMul, SatAdd, SumOf;
    var b := EscrowBid(p);
    SettlementNeverRejected(p, None, payable, winnerPayable, b);
    var base := SettledBase(p, None, |payable|, b);
    var fee, each := SatMul(base, p.fee) / BPS, SatMul(base, p.commission) / BPS;
    EscrowBidIsSmall(p);
    FixedSplitIsTight(p, |payable|, b, base, fee, each);
    ShareIsExact(base, p.fee, b);
    ShareIsExact(base, p.commission, b);
    CommissionsCount(payable, each);
  }

  lemma PriceWithinEscrow(p: Pricing, m: Metered, runners: nat, b: nat)
    requires b == OpenedEscrow(p, Some(m), runners) && b < AMOUNT_MAX
    ensures m.terms.BaseFor(m.billedSeconds, m.bytes) <= b
  {
    BaseWithinCap(m.terms, m.billedSeconds, m.bytes);
    ExactTotal(m.terms.CapBase(m.bytes), runners, p.fee, p.commission);
  }

  /** A bill so short, with so few verifiers, that no rates make the payouts overflow. */
  predicate Safe(billedSeconds: nat, runners: nat) {
    U64_END * billedSeconds + U64_END * U64_END / GIB + (runners + 1) * (AMOUNT_MAX / BPS) <= AMOUNT_MAX
  }

  lemma BilledBaseIsSmall(t: Terms, billedSeconds: nat, bytes: nat)
    requires InWords(t, bytes)
    ensures t.BaseFor(billedSeconds, bytes) <= U64_END * billedSeconds + U64_END * U64_END / GIB
  {
    MulMonotone(t.ratePerSecond, U64_END, Min(billedSeconds, t.capSeconds), billedSeconds);
    MulMonotone(t.ratePerGb, U64_END, bytes, U64_END);
    DivMonotone(SatMul(t.ratePerGb, bytes), U64_END * U64_END, GIB);
  }

  lemma PieceIsSmall(base: nat, rate: nat)
    ensures SatMul(base, rate) / BPS <= AMOUNT_MAX / BPS
  {
    DivMonotone(SatMul(base, rate), AMOUNT_MAX, BPS);
  }

  lemma OutflowIsSmall(p: Pricing, base: nat, runners: nat, paid: nat, winnerPayable: bool)
    requires paid <= runners
    ensures Outflow(p, base, paid, winnerPayable) <= base + (runners + 1) * (AMOUNT_MAX / BPS)
  {
    PieceIsSmall(base, p.fee);
    PieceIsSmall(base, p.commission);
    var unit: nat := AMOUNT_MAX / BPS;
    MulMonotone(paid, runners, SatMul(base, p.commission) / BPS, unit);
    assert (runners + 1) * unit == runners * unit + unit;
  }

  /** Such a settlement always adds up, to at most the escrow, saturated or not. */
  lemma SafeSettlementAddsUp(p: Pricing, m: Metered, payable: seq<bool>, winnerPayable: bool, b: nat)
    requires ValidPricing(p) && InWords(m.terms, m.bytes) && Safe(m.billedSeconds, |payable|) && |payable| < U64_END
    requires b == OpenedEscrow(p, Some(m), |payable|)
    ensures var settled := Settle(p, Some(m), payable, winnerPayable, b);
            settled.Ok? && settled.value.Total().Some? && settled.value.Total().value <= b
  {
    SettlementNeverRejected(p, Some(m), payable, winnerPayable, b);
    var base := SettledBase(p, Some(m), |payable|, b);
    BilledBaseIsSmall(m.terms, m.billedSeconds, m.bytes);
    OutflowIsSmall(p, base, |payable|, CountPayable(payable), winnerPayable);
    hide Settle, OpenedEscrow, Outflow, Terms.BaseFor;
  }

  lemma {:induction false} CommissionsShrink(payable: seq<bool>, all: seq<bool>, each: nat)
    requires |payable| == |all| && forall i | 0 <= i < |all| :: payable[i] ==> all[i]
    ensures |Commissions(payable, each)| <= |Commissions(all, each)|
  {
    if payable != [] {
      CommissionsShrink(payable[1..], all[1..], each);
    }
  }

  /** Taking wallets away from verifiers or from the winner never raises anybody's payment or the total. */
  lemma WalletlessOnlyLowers(p: Pricing, metered: Option<Metered>, payable: seq<bool>, all: seq<bool>, w: bool,
                             w': bool, b: nat)
    requires |payable| == |all| && forall i | 0 <= i < |all| :: payable[i] ==> all[i]
    requires w ==> w'
    requires Settle(p, metered, all, w', b).Ok?
    ensures Settle(p, metered, payable, w, b).Ok?
    ensures var lo, hi := Settle(p, metered, payable, w, b).value, Settle(p, metered, all, w', b).value;
            && lo.base == hi.base && lo.fee == hi.fee && lo.winner <= hi.winner
            && (hi.Total().Some? ==> lo.Total().Some? && lo.Total().value <= hi.Total().value)
  {
    var base := SettledBase(p, metered, |payable|, b);
    var each := SatMul(base, p.commission) / BPS;
    var few, many := Commissions(payable, each), Commissions(all, each);
    CommissionsShrink(payable, all, each);
    RequiredTotalMonotone(base, base, |few|, |many|, p.fee, p.commission);
    SumOfEqual(few, each);
    SumOfEqual(many, each);
    MulMonotone(|few|, |many|, each, each);
  }

  lemma {:induction false} WorstIsSomebodys(bids: seq<Bid>, bytes: nat) returns (i: nat)
    requires WorstCapBase(bids, bytes) > 0
    ensures i < |bids| && TermsOf(bids[i]).Some? && TermsOf(bids[i]).value.CapBase(bytes) == WorstCapBase(bids, bytes)
  {
    i := 0;
    if TermsOf(bids[0]).None? || TermsOf(bids[0]).value.CapBase(bytes) < WorstCapBase(bids, bytes) {
      i := WorstIsSomebodys(bids[1..], bytes);
      i := i + 1;
    }
  }

  /** The escrow that a win of this bid, with every other selected worker agreeing, would need. */
  predicate Covered(p: Pricing, bid: Bid, others: nat, bytes: nat) {
    TermsOf(bid).Some? ==> RequiredTotal(TermsOf(bid).value.CapBase(bytes), others, p.fee, p.commission) <= Ceiling(p)
  }

  /** A job with a ceiling goes ahead exactly when the ceiling covers the win of every selected bid. */
  lemma PreflightIsExact(p: Pricing, bids: seq<Bid>, bytes: nat)
    requires p.maxBid > 0
    ensures Preflight(p, bids, bytes).Ok? <==> forall i | 0 <= i < |bids| :: Covered(p, bids[i], |bids| - 1, bytes)
  {
    var worst := WorstCapBase(bids, bytes);
    forall i | 0 <= i < |bids| && TermsOf(bids[i]).Some?
      ensures 0 < worst
      ensures Preflight(p, bids, bytes).Ok? ==> Covered(p, bids[i], |bids| - 1, bytes)
    {
      var base := TermsOf(bids[i]).value.CapBase(bytes);
      WorstBoundsEach(bids, i, bytes);
      RequiredTotalMonotone(base, worst, |bids| - 1, |bids| - 1, p.fee, p.commission);
    }
    if worst > 0 {
      var i := WorstIsSomebodys(bids, bytes);
      assert Covered(p, bids[i], |bids| - 1, bytes) ==> Preflight(p, bids, bytes).Ok?;
    }
  }

  /** Whatever bid wins, the escrow opened after quorum is at most the ceiling checked before dispatch. */
  lemma EscrowWithinCeiling(p: Pricing, bids: seq<Bid>, i: nat, bytes: nat, billedSeconds: nat, runners: nat)
    requires ValidPricing(p) && p.maxBid > 0
    requires Preflight(p, bids, bytes).Ok?
    requires i < |bids| && runners <= |bids| - 1
    ensures var metered :=
              match TermsOf(bids[i]) case Some(t) => Some(Metered(t, billedSeconds, bytes)) case None => None;
            OpenedEscrow(p, metered, runners) <= Ceiling(p)
  {
    if TermsOf(bids[i]).Some? {
      WorstBoundsEach(bids, i, bytes);
      RequiredTotalMonotone(TermsOf(bids[i]).value.CapBase(bytes), WorstCapBase(bids, bytes), runners, |bids| - 1,
                            p.fee, p.commission);
    }
  }
}
