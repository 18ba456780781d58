/** The attempt as the source runs it: loops that fill the receipt and failer vectors and
    update the trust store in place, proved against the value-level attempt. */
module Dispatch {
  import opened Wrappers
  import opened Identity
  import opened Sequences
  import opened Quorum
  import opened Verdicts
  import opened Attempt
  import Metering

  function AddPenalty(m: map<NodeId, real>, node: NodeId, amount: real): map<NodeId, real> {
    m[node := (if node in m then m[node] else 0.0) + amount]
  }

  function AddPenalties(m: map<NodeId, real>, ids: seq<NodeId>, amount: real): map<NodeId, real> {
    if ids == [] || amount <= 0.0 then m
    else AddPenalty(AddPenalties(m, ids[..|ids| - 1], amount), ids[|ids| - 1], amount)
  }

  class TrustStore {
    var recorded: seq<Receipt>
    var penalties: map<NodeId, real>

    constructor ()
      ensures recorded == [] && penalties == map[]
    {
      recorded, penalties := [], map[];
    }

    method Record(r: Receipt)
      modifies this`recorded
      ensures recorded == old(recorded) + [r]
    {
      recorded := recorded + [r];
    }

    /** Penalise a provider at fault; a zero penalty is not booked. */
    method Penalize(node: NodeId, amount: real)
      modifies this`penalties
      ensures penalties == if amount > 0.0 then AddPenalty(old(penalties), node, amount) else old(penalties)
    {
      if amount > 0.0 {
        penalties := AddPenalty(penalties, node, amount);
      }
    }
  }

  lemma {:induction false} FaultedExtends(rs: seq<Receipt>, r: Receipt)
    ensures Faulted(rs + [r]) == Faulted(rs) + if IsProviderFault(r.verdict) then [r.worker] else []
  {
    hide IsProviderFault;
    if rs == [] {
      assert rs + [r] == [r] && [r][1..] == [];
    } else {
      var first := if IsProviderFault(rs[0].verdict) then [rs[0].worker] else [];
      assert (rs + [r])[0] == rs[0] && (rs + [r])[1..] == rs[1..] + [r];
      FaultedExtends(rs[1..], r);
      Associates(first, Faulted(rs[1..]), if IsProviderFault(r.verdict) then [r.worker] else []);
    }
  }

  /** Append one receipt; a provider fault is penalised and, on a verified job, breaks its commitment. */
  method Book(r: Receipt, verified: bool, penalty: real, store: TrustStore, receipts: seq<Receipt>,
              failers: seq<NodeId>, ghost before: map<NodeId, real>)
    returns (receipts': seq<Receipt>, failers': seq<NodeId>)
    requires store.penalties == AddPenalties(before, Faulted(receipts), penalty)
    requires failers == if verified then Faulted(receipts) else []
    modifies store`penalties
    ensures receipts' == receipts + [r]
    ensures store.penalties == AddPenalties(before, Faulted(receipts'), penalty)
    ensures failers' == if verified then Faulted(receipts') else []
  {
    FaultedExtends(receipts, r);
    receipts', failers' := receipts + [r], failers;
    if IsProviderFault(r.verdict) {
      if verified { failers' := failers' + [r.worker]; }
      store.Penalize(r.worker, penalty);
      assert (Faulted(receipts) + [r.worker])[..|Faulted(receipts)|] == Faulted(receipts);
    } else {
      assert Faulted(receipts) + [] == Faulted(receipts);
    }
  }

  /** Book a prepared list of receipts one by one, behind those already booked. */
  method BookAll(rs: seq<Receipt>, verified: bool, penalty: real, store: TrustStore, receipts: seq<Receipt>,
                 failers: seq<NodeId>, ghost before: map<NodeId, real>)
    returns (receipts': seq<Receipt>, failers': seq<NodeId>)
    requires store.penalties == AddPenalties(before, Faulted(receipts), penalty)
    requires failers == if verified then Faulted(receipts) else []
    modifies store`penalties
    ensures receipts' == receipts + rs
    ensures store.penalties == AddPenalties(before, Faulted(receipts'), penalty)
    ensures failers' == if verified then Faulted(receipts') else []
  {
    receipts', failers' := receipts, failers;
    hide Faulted, AddPenalties;
    for i := 0 to |rs|
      invariant receipts' == receipts + rs[..i]
      invariant store.penalties == AddPenalties(before, Faulted(receipts'), penalty)
      invariant failers' == if verified then Faulted(receipts') else []
    {
      receipts', failers' := Book(rs[i], verified, penalty, store, receipts', failers', before);
      assert rs[..i + 1] == rs[..i] + [rs[i]];
    }
    assert rs[..|rs|] == rs;
  }

  /** Step 7c and the broken-commitment pass: winner, losers, then on a verified job the silent and the failed. */
  method Judge(inputs: Inputs, agreed: Hash, verified: bool, arrived: bool, g: Groups, winner: nat, penalty: real,
               store: TrustStore)
    returns (receipts: seq<Receipt>, failers: seq<NodeId>)
    requires winner < |g.commits|
    modifies store
    ensures receipts == AllReceipts(inputs, agreed, verified, arrived, g, winner)
    ensures failers == if verified then Faulted(receipts) else []
    ensures store.penalties == AddPenalties(old(store.penalties), Faulted(receipts), penalty)
    ensures store.recorded == old(store.recorded) + receipts
  {
    var own := CommitReceipts(inputs, agreed, arrived, JudgingOrder(g.commits, winner));
    assert [] + own == own && own + [] == own && Faulted([]) == []
           && AddPenalties(store.penalties, [], penalty) == store.penalties;
    hide Faulted, AddPenalties, CommitReceipts, MissReceipts, JudgingOrder;
    receipts, failers := BookAll(own, verified, penalty, store, [], [], store.penalties);
    assert receipts == own;
    if verified {
      receipts, failers :=
        BookAll(MissReceipts(inputs, g.failed, g.silent), verified, penalty, store, receipts, failers,
                old(store.penalties));
    }
    RecordAll(receipts, store);
  }

  method RecordAll(receipts: seq<Receipt>, store: TrustStore)
    modifies store`recorded
    ensures store.recorded == old(store.recorded) + receipts
  {
    for i := 0 to |receipts|
      invariant store.recorded == old(store.recorded) + receipts[..i]
    {
      store.Record(receipts[i]);
      assert receipts[..i + 1] == receipts[..i] + [receipts[i]];
    }
    assert receipts[..|receipts|] == receipts;
  }

  /** One attempt after dispatch, from the joined replies to the result and the updated trust store;
      there is no result when billing aborts. */
  method DispatchAttempt(policy: Policy, inputs: Inputs, cs: seq<Collected>, capacity: map<NodeId, nat>, arrived: bool,
                         metered: set<NodeId>, tolerance: real, penalty: real, store: TrustStore)
    returns (result: Option<AttemptResult>, fx: Effects, outcome: Outcome)
    modifies store
    ensures IsPinnedOutcome(policy, inputs, Commits(cs), outcome)
    ensures (result, fx) == Billed(metered, Attempted(policy, inputs, GroupsOf(cs), capacity, arrived, outcome))
    ensures store.recorded == old(store.recorded) + fx.receipts
    ensures store.penalties == AddPenalties(old(store.penalties), fx.penalised, penalty)
  {
    hide AllReceipts, Faulted, BlanketReceipts, SettlementFor, Decide, IsOutcome, OnPinned, Commits, Failures, Silents;
    var g := Collect(cs);
    var drifted;
    outcome, drifted := EvaluateQuorumOnCommits(KeysOf(g.commits), inputs.pinned, policy.quorum);
    match Decide(policy, inputs, g, capacity, outcome) {
      case Halt(r, blanket) =>
        result := Some(r);
        fx := if blanket then BlanketEffects(policy, g) else Effects([], [], [], None);
        RecordAll(fx.receipts, store);
      case Proceed(agreed, verified) =>
        match Fastest(g.commits, Some(agreed)) {
          case None =>
            result, fx := Some(Retry(g.NotDelivering())), BlanketEffects(policy, g);
            RecordAll(fx.receipts, store);
          case Some(w) =>
            var receipts, failers := Judge(inputs, agreed, verified, arrived, g, w, penalty, store);
            if !arrived {
              fx := Effects(receipts, Faulted(receipts), [], None);
              result := Some(Retry(g.NotDelivering()));
              return;
            }
            var settlement := SettlementFor(inputs, agreed, JudgingOrder(g.commits, w));
            fx := Effects(receipts, Faulted(receipts), failers, Some(settlement));
            result := Some(Done(QueryOutcome(agreed, outcome.agreement, outcome.quorum, verified, g.commits[w].worker,
                                             CommitIds(g.commits), receipts)));
            if settlement.winner in metered {
              var bill := Metering.BilledSeconds(settlement.winnerLatency, settlement.latencies, tolerance);
              BillNeedsTheMedian(settlement.winnerLatency, settlement.latencies, tolerance);
              if bill.None? {
                result, fx := None, fx.(failers := [], settlement := None);
              }
            }
        }
    }
  }

  lemma BillNeedsTheMedian(winnerMs: nat, latencies: seq<nat>, tolerance: real)
    ensures Metering.BilledSeconds(winnerMs, latencies, tolerance).None? <==> Metering.MiddleOverflows(latencies)
  {
  }

  /** Penalties booked in two lots are penalties booked in one. */
  lemma {:induction false} AddPenaltiesAppends(m: map<NodeId, real>, a: seq<NodeId>, b: seq<NodeId>, amount: real)
    ensures AddPenalties(AddPenalties(m, a, amount), b, amount) == AddPenalties(m, a + b, amount)
    decreases |b|
  {
    if b == [] {
      assert a + b == a;
    } else {
      assert (a + b)[..|a + b| - 1] == a + b[..|b| - 1];
      AddPenaltiesAppends(m, a, b[..|b| - 1], amount);
    }
  }

  /** Whoever is not penalised keeps the penalty they had. */
  lemma {:induction false} OthersKeepTheirPenalty(m: map<NodeId, real>, ids: seq<NodeId>, amount: real, x: NodeId)
    requires x !in ids
    ensures (x in AddPenalties(m, ids, amount) <==> x in m) && (x in m ==> AddPenalties(m, ids, amount)[x] == m[x])
  {
    if ids != [] { OthersKeepTheirPenalty(m, ids[..|ids| - 1], amount, x); }
  }

  function PenaltyOf(m: map<NodeId, real>, x: NodeId): real { if x in m then m[x] else 0.0 }

  /** So many times the amount; an amount that is not positive is not booked. */
  function Booked(amount: real, times: nat): real { if amount > 0.0 then amount * times as real else 0.0 }

  lemma BookOnce(amount: real, times: nat)
    ensures Booked(amount, 0) == 0.0
    ensures amount > 0.0 ==> Booked(amount, times + 1) == Booked(amount, times) + amount
    ensures amount <= 0.0 ==> Booked(amount, times) == 0.0
  {}

  /** Penalties accumulate: each mention of a worker adds the amount to what it had. */
  lemma {:induction false} PenaltiesAddUp(m: map<NodeId, real>, ids: seq<NodeId>, amount: real, x: NodeId)
    ensures PenaltyOf(AddPenalties(m, ids, amount), x) == PenaltyOf(m, x) + Booked(amount, multiset(ids)[x])
  {
    hide Booked;
    BookOnce(amount, multiset(ids)[x]);
    if ids != [] && amount > 0.0 {
      var front, last := ids[..|ids| - 1], ids[|ids| - 1];
      assert ids == front + [last];
      PenaltiesAddUp(m, front, amount, x);
      BookOnce(amount, multiset(front)[x]);
    }
  }
}
