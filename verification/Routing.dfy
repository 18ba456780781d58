/** Exactly whom a round of the re-dispatch loop selects, when the loop goes on after it and with what
    state, and how it ends when it does not. */
module Routing {
  import opened Wrappers
  import opened Identity
  import opened Sequences
  import opened Quorum
  import opened Verdicts
  import opened Attempt
  import opened AttemptSafety
  import opened Decisions
  import opened Redispatch
  import opened RunSafety
  import Money

  // ---- selection ----

  /** A candidate that is not known to be excluded, and whose bid clears the floors. */
  predicate Qualifies(s: State, c: Candidate) {
    && c.reply.Some? && c.reply.value.clears && (c.known.None? || c.known.value !in s.excluded)
    && (s.floor == 0 || c.reply.value.bid.freeMemory == 0 || c.reply.value.bid.freeMemory > s.floor)
  }

  function QualifiedBefore(s: State, cs: seq<Candidate>, i: nat): set<int>
    requires i <= |cs|
  {
    set j | 0 <= j < i && Qualifies(s, cs[j])
  }

  lemma {:induction false} RetainedAppends(a: seq<Candidate>, b: seq<Candidate>, excluded: set<NodeId>)
    ensures Retained(a + b, excluded) == Retained(a, excluded) + Retained(b, excluded)
  {
    if a == [] {
      assert a + b == b;
    } else {
      var first := if Keeps(a[0], excluded) then [a[0]] else [];
      assert (a + b)[0] == a[0] && (a + b)[1..] == a[1..] + b;
      RetainedAppends(a[1..], b, excluded);
      Associates(first, Retained(a[1..], excluded), Retained(b, excluded));
    }
  }

  lemma {:induction false} EligibleAppends(a: seq<Candidate>, b: seq<Candidate>, floor: nat)
    ensures Eligible(a + b, floor) == Eligible(a, floor) + Eligible(b, floor)
  {
    if a == [] {
      assert a + b == b;
    } else {
      var first := if a[0].reply.Some? && Admits(a[0].reply.value, floor) then [a[0].reply.value] else [];
      assert (a + b)[0] == a[0] && (a + b)[1..] == a[1..] + b;
      EligibleAppends(a[1..], b, floor);
      Associates(first, Eligible(a[1..], floor), Eligible(b, floor));
    }
  }

  lemma OneCandidate(s: State, c: Candidate)
    ensures Eligible(Retained([c], s.excluded), s.floor) == if Qualifies(s, c) then [c.reply.value] else []
  {
    assert [c][1..] == [];
  }

  lemma QualifiedGrow(s: State, cs: seq<Candidate>, n: nat)
    requires n == |cs| - 1
    ensures |QualifiedBefore(s, cs, |cs|)| == |QualifiedBefore(s, cs[..n], n)| + if Qualifies(s, cs[n]) then 1 else 0
    ensures forall i | 0 <= i <= n :: QualifiedBefore(s, cs, i) == QualifiedBefore(s, cs[..n], i)
  {
    hide Qualifies;
    var all, before := QualifiedBefore(s, cs, |cs|), QualifiedBefore(s, cs[..n], n);
    assert all == if Qualifies(s, cs[n]) then before + {n} else before;
  }

  /** The bidders are the qualifying candidates' replies, each in the place its rank among them gives it. */
  ghost predicate RankedBids(s: State, cs: seq<Candidate>, bs: seq<Reply>) {
    && |bs| == |QualifiedBefore(s, cs, |cs|)|
    && forall i | 0 <= i < |cs| && Qualifies(s, cs[i]) ::
         |QualifiedBefore(s, cs, i)| < |bs| && bs[|QualifiedBefore(s, cs, i)|] == cs[i].reply.value
  }

  lemma RankedGrows(s: State, cs: seq<Candidate>, bs: seq<Reply>, n: nat)
    requires n == |cs| - 1 && RankedBids(s, cs[..n], bs)
    ensures RankedBids(s, cs, bs + if Qualifies(s, cs[n]) then [cs[n].reply.value] else [])
  {
    QualifiedGrow(s, cs, n);
    hide Qualifies, QualifiedBefore;
    forall i | 0 <= i < n && Qualifies(s, cs[i])
      ensures |QualifiedBefore(s, cs, i)| < |bs| && bs[|QualifiedBefore(s, cs, i)|] == cs[i].reply.value
    {
      assert cs[..n][i] == cs[i];
    }
  }

  lemma {:induction false} BiddersAreRanked(s: State, cs: seq<Candidate>)
    ensures RankedBids(s, cs, Eligible(Retained(cs, s.excluded), s.floor))
  {
    hide Qualifies, RankedBids, Eligible, Retained;
    if cs == [] {
      NoBids(s);
    } else {
      var n := |cs| - 1;
      var front, last := cs[..n], [cs[n]];
      assert cs == front + last;
      BiddersAreRanked(s, front);
      RankedGrows(s, cs, Eligible(Retained(front, s.excluded), s.floor), n);
      RetainedAppends(front, last, s.excluded);
      EligibleAppends(Retained(front, s.excluded), Retained(last, s.excluded), s.floor);
      OneCandidate(s, cs[n]);
    }
  }

  lemma NoBids(s: State)
    ensures RankedBids(s, [], Eligible(Retained([], s.excluded), s.floor))
  {}

  function Smaller(a: nat, b: nat): nat { if a <= b then a else b }

  /** Selected are exactly the first `replicas` qualifying candidates, in score order. */
  lemma SelectionIsExact(policy: Policy, s: State, r: Round)
    ensures var cs, chosen := r.candidates, Selected(policy, s, r);
            && |chosen| == Smaller(policy.replicas, |QualifiedBefore(s, cs, |cs|)|)
            && forall i | 0 <= i < |cs| && Qualifies(s, cs[i]) && |QualifiedBefore(s, cs, i)| < policy.replicas ::
                 var rank := |QualifiedBefore(s, cs, i)|; rank < |chosen| && chosen[rank] == cs[i].reply.value
  {
    BiddersAreRanked(s, r.candidates);
    hide Eligible, Retained, QualifiedBefore;
  }

  // ---- before dispatch ----

  lemma {:induction false} RetainedNonEmpty(cs: seq<Candidate>, excluded: set<NodeId>)
    ensures Retained(cs, excluded) != [] <==>
              exists i :: 0 <= i < |cs| && (cs[i].known.None? || cs[i].known.value !in excluded)
  {
    if cs != [] {
      RetainedNonEmpty(cs[1..], excluded);
      if i :| 0 <= i < |cs| - 1 && (cs[1..][i].known.None? || cs[1..][i].known.value !in excluded) {
        assert cs[i + 1] == cs[1..][i];
      }
      if i :| 0 <= i < |cs| && (cs[i].known.None? || cs[i].known.value !in excluded) {
        assert i > 0 ==> cs[1..][i - 1] == cs[i];
      }
    }
  }

  /** What ends a round before anything is dispatched, first reason first. */
  lemma RoundIsExact(policy: Policy, s: State, r: Round)
    ensures var cs := r.candidates;
            var have := Smaller(policy.replicas, |QualifiedBefore(s, cs, |cs|)|);
            var round := RoundOf(policy, s, r);
            if !r.inputsAvailable then round == Reached(Unsatisfiable)
            else if forall i | 0 <= i < |cs| :: cs[i].known.Some? && cs[i].known.value in s.excluded then
              round == Reached(NoCandidates)
            else if have < policy.quorum then round == Reached(TooFewWorkers(have, policy.quorum))
            else if !EscrowCovers(policy, s, r) then round == Errored
            else
              && EffectsOf(policy, s, r) == AttemptOf(policy, s, r).1
              && round == if AttemptOf(policy, s, r).0.None? then Errored else Reached(AttemptOf(policy, s, r).0.value)
  {
    hide AttemptOf, Selected, Retained, EscrowCovers, QualifiedBefore;
    SelectionIsExact(policy, s, r);
    RetainedNonEmpty(r.candidates, s.excluded);
  }

  /** A worker's bid is the last one it made. */
  lemma {:induction false} LastBidCounts(rs: seq<Reply>, i: nat)
    requires i < |rs| && forall j | i < j < |rs| :: rs[j].worker != rs[i].worker
    ensures BidsOf(rs)[rs[i].worker] == rs[i].bid
  {
    var n := |rs| - 1;
    if i < n {
      LastBidCounts(rs[..n], i);
    }
  }

  /** A paid job with a ceiling goes out exactly when the ceiling covers the win of every selected worker. */
  lemma EscrowCoversExactly(policy: Policy, s: State, r: Round)
    ensures var chosen, bids := Selected(policy, s, r), BidsOf(Bidders(s, r));
            && (forall i | 0 <= i < |chosen| :: chosen[i].worker in bids)
            && (EscrowCovers(policy, s, r) <==>
                  || r.pricing.None? || r.pricing.value.maxBid == 0
                  || forall i | 0 <= i < |chosen| ::
                       Money.Covered(r.pricing.value, bids[chosen[i].worker], |chosen| - 1, r.bytes))
  {
    var chosen, bids := Selected(policy, s, r), BidsOf(Bidders(s, r));
    forall i | 0 <= i < |chosen|
      ensures chosen[i].worker in bids && SelectedBids(policy, s, r)[i] == bids[chosen[i].worker]
    {
      SelectedBidAt(policy, s, r, i);
    }
    hide Selected, SelectedBids, BidsOf, Bidders, Money.Covered;
    if r.pricing.Some? && r.pricing.value.maxBid > 0 {
      Money.PreflightIsExact(r.pricing.value, SelectedBids(policy, s, r), r.bytes);
    }
  }

  // ---- after an attempt that did not deliver ----

  /** `x` was sent the job and did not commit. */
  ghost predicate Missed(cs: seq<Collected>, x: NodeId) {
    exists i :: 0 <= i < |cs| && !cs[i].Committed? && WorkerOf(cs[i]) == x
  }

  lemma {:induction false} MissedAreExact(cs: seq<Collected>, x: NodeId)
    ensures x in GroupsOf(cs).NotDelivering() <==> Missed(cs, x)
  {
    if cs != [] {
      MissedAreExact(cs[1..], x);
      FirstReply(cs, x);
      MissedFirst(cs, x);
    }
  }

  lemma FirstReply(cs: seq<Collected>, x: NodeId)
    requires cs != []
    ensures x in GroupsOf(cs).NotDelivering()
       <==> x in GroupsOf(cs[1..]).NotDelivering() || (!cs[0].Committed? && WorkerOf(cs[0]) == x)
  {
    hide Classify, Failures, Silents, Commits;
    GroupsOfCons(cs);
    GroupsOfOne(cs[0]);
    var rest := GroupsOf(cs[1..]);
    if cs[0].Failed? {
      assert FailureIds(Failures([cs[0]]) + rest.failed) == [cs[0].node] + FailureIds(rest.failed);
    } else {
      assert Failures(cs) == rest.failed;
    }
  }

  lemma MissedFirst(cs: seq<Collected>, x: NodeId)
    requires cs != []
    ensures Missed(cs, x) <==> Missed(cs[1..], x) || (!cs[0].Committed? && WorkerOf(cs[0]) == x)
  {
    if i :| 0 <= i < |cs| - 1 && !cs[1..][i].Committed? && WorkerOf(cs[1..][i]) == x { assert cs[i + 1] == cs[1..][i]; }
    if i :| 0 <= i < |cs| && !cs[i].Committed? && WorkerOf(cs[i]) == x { assert i > 0 ==> cs[1..][i - 1] == cs[i]; }
  }

  /** The retry limit, the wall clock and the token bucket allow one more attempt. */
  predicate MayGoOn(maxRetries: nat, s: State, r: Round) {
    (maxRetries == 0 || s.retries < maxRetries) && !r.timeUp && r.tokenLeft
  }

  /** How the run ends when they do not: as the round did, unless it is tokens that ran out. */
  function StopsWith(maxRetries: nat, s: State, r: Round, last: Final): Final {
    if (maxRetries == 0 || s.retries < maxRetries) && !r.timeUp then BudgetExhausted(s.retries + 1) else last
  }

  /** An inconclusive attempt is followed by another exactly when somebody missed it who was not excluded yet and
      the limits allow it; everybody who missed it is then excluded, and nothing else changes. */
  lemma RetryContinuesExactly(policy: Policy, maxRetries: nat, s: State, r: Round)
    requires RoundOf(policy, s, r).Reached? && ResultOf(policy, s, r).Retry?
    ensures var next := Step(policy, maxRetries, s, r);
            var news := exists x :: Missed(r.collected, x) && x !in s.excluded;
            && (next.Continue? <==> news && MayGoOn(maxRetries, s, r))
            && (next.Continue? ==>
                  && next.state == State(next.state.excluded, s.floor, s.retries + 1, s.sawTooBig)
                  && forall x :: x in next.state.excluded <==> x in s.excluded || Missed(r.collected, x))
            && (next.Finish? ==>
                  var last := Exhausted(s.retries + 1);
                  next.final == if news then StopsWith(maxRetries, s, r, last) else last)
  {
    TriedAreExact(policy, s, r);
    hide RoundOf, Missed;
    var tried := ResultOf(policy, s, r).tried;
    forall x ensures x in ToSet(tried) <==> Missed(r.collected, x) { assert x in tried <==> Missed(r.collected, x); }
    if s.excluded + ToSet(tried) == s.excluded {
      forall x | Missed(r.collected, x) ensures x in s.excluded { assert x in ToSet(tried); }
    } else {
      var x :| x in ToSet(tried) && x !in s.excluded;
    }
  }

  lemma TriedAreExact(policy: Policy, s: State, r: Round)
    requires RoundOf(policy, s, r).Reached? && ResultOf(policy, s, r).Retry?
    ensures forall x :: x in ResultOf(policy, s, r).tried <==> Missed(r.collected, x)
  {
    hide Attempted, Bidders, CapacityOf, Missed, GroupsOf, Selected, Retained, EscrowCovers;
    RetryShape(policy, r.inputs, GroupsOf(r.collected), CapacityOf(Bidders(s, r)), r.arrived, r.outcome);
    forall x ensures x in ResultOf(policy, s, r).tried <==> Missed(r.collected, x) { MissedAreExact(r.collected, x); }
  }

  /** Once ids are known nobody excluded is selected, so any worker that missed a retry round is news. */
  lemma KnownRetryContinuesExactly(policy: Policy, maxRetries: nat, s: State, r: Round)
    requires RoundOf(policy, s, r).Reached? && ResultOf(policy, s, r).Retry?
    requires Faithful(policy, s, r) && forall c | c in r.candidates :: c.known.Some?
    ensures Step(policy, maxRetries, s, r).Continue?
       <==> (exists i :: 0 <= i < |r.collected| && !r.collected[i].Committed?) && MayGoOn(maxRetries, s, r)
  {
    RetryContinuesExactly(policy, maxRetries, s, r);
    hide Step, RoundOf, MayGoOn;
    forall i | 0 <= i < |r.collected| && !r.collected[i].Committed?
      ensures Missed(r.collected, WorkerOf(r.collected[i])) && WorkerOf(r.collected[i]) !in s.excluded
    {
      DispatchedIsNew(policy, s, r, i);
    }
  }

  lemma DispatchedIsNew(policy: Policy, s: State, r: Round, i: nat)
    requires Faithful(policy, s, r) && (forall c | c in r.candidates :: c.known.Some?) && i < |r.collected|
    ensures WorkerOf(r.collected[i]) !in s.excluded
  {
    hide Selected, Tallied;
    assert WorkersOf(r.collected)[i] == WorkerOf(r.collected[i]);
    ExcludedStayOut(policy, s, r, WorkerOf(r.collected[i]));
  }

  /** What the worker advertised, if it ran out of memory in this round. */
  ghost predicate RanOut(s: State, r: Round, x: NodeId, free: nat) {
    var bids := BidsOf(Bidders(s, r));
    FailedSo(r.collected, ResourceExceeded, x) && x in bids && bids[x].freeMemory == free
  }

  /** What a round that was too big for some workers leaves behind. */
  ghost predicate RaisesFloor(s: State, r: Round, s': State) {
    && s'.sawTooBig && s'.retries == s.retries + 1
    && (forall x :: x in s'.excluded <==> x in s.excluded || FailedSo(r.collected, ResourceExceeded, x))
    && s'.floor >= s.floor && (forall x, free: nat :: RanOut(s, r, x, free) ==> free <= s'.floor)
    && (s'.floor == s.floor || exists x :: RanOut(s, r, x, s'.floor))
  }

  /** Some worker ran out of memory that was not excluded yet, or that advertised more than the floor. */
  ghost predicate LearnsSize(s: State, r: Round) {
    || (exists x :: FailedSo(r.collected, ResourceExceeded, x) && x !in s.excluded)
    || exists x, free: nat :: RanOut(s, r, x, free) && free > s.floor
  }

  lemma OomedOfRound(policy: Policy, s: State, r: Round)
    requires IsTooBig(policy, s, r)
    ensures var result := ResultOf(policy, s, r);
            && (forall x :: x in result.oomed <==> FailedSo(r.collected, ResourceExceeded, x))
            && (forall x, free: nat :: RanOut(s, r, x, free) ==> free <= result.maxTried)
            && (result.maxTried == 0 || exists x :: RanOut(s, r, x, result.maxTried))
  {
    hide Attempted, Bidders, BidsOf, FailedSo, Oomed, Selected, Retained, EscrowCovers, Failures, Commits, Silents;
    RetryShape(policy, r.inputs, GroupsOf(r.collected), CapacityOf(Bidders(s, r)), r.arrived, r.outcome);
    var result, caps := ResultOf(policy, s, r), CapacityOf(Bidders(s, r));
    forall x ensures x in result.oomed <==> FailedSo(r.collected, ResourceExceeded, x) {
      OomedAreExact(r.collected, x);
    }
    forall x, free: nat | RanOut(s, r, x, free) ensures free <= result.maxTried { assert x in caps && caps[x] == free; }
    if result.maxTried != 0 {
      var x :| x in result.oomed && x in caps && caps[x] == result.maxTried;
      assert RanOut(s, r, x, result.maxTried);
    }
  }

  /** The state a round that was too big asks for. */
  function Grown(s: State, oomed: seq<NodeId>, maxTried: nat): State {
    State(s.excluded + ToSet(oomed), MaxNat(s.floor, maxTried), s.retries + 1, true)
  }

  lemma TooBigStep(policy: Policy, maxRetries: nat, s: State, r: Round)
    requires IsTooBig(policy, s, r)
    ensures var s' := Grown(s, ResultOf(policy, s, r).oomed, ResultOf(policy, s, r).maxTried);
            Step(policy, maxRetries, s, r)
            == if s'.excluded == s.excluded && s'.floor == s.floor then Finish(ExceedsCapacity)
               else if MayGoOn(maxRetries, s, r) then Continue(s')
               else Finish(StopsWith(maxRetries, s, r, ExceedsCapacity))
  {
    hide RoundOf;
  }

  lemma GrownIsExact(policy: Policy, s: State, r: Round)
    requires IsTooBig(policy, s, r)
    ensures var s' := Grown(s, ResultOf(policy, s, r).oomed, ResultOf(policy, s, r).maxTried);
            && RaisesFloor(s, r, s')
            && (LearnsSize(s, r) <==> !(s'.excluded == s.excluded && s'.floor == s.floor))
  {
    OomedOfRound(policy, s, r);
    hide RoundOf, FailedSo, RanOut;
    var result := ResultOf(policy, s, r);
    var s' := Grown(s, result.oomed, result.maxTried);
    forall x ensures x in s'.excluded <==> x in s.excluded || FailedSo(r.collected, ResourceExceeded, x) {
      assert x in ToSet(result.oomed) <==> x in result.oomed;
    }
    if s'.excluded == s.excluded {
      forall x | FailedSo(r.collected, ResourceExceeded, x) ensures x in s.excluded { assert x in s'.excluded; }
    } else {
      var x :| x in s'.excluded && x !in s.excluded;
    }
  }

  /** An attempt that was too big is followed by another exactly when something was learnt from it and the limits
      allow it; those that ran out of memory are then excluded and the floor rises to the largest of them. */
  lemma TooBigContinuesExactly(policy: Policy, maxRetries: nat, s: State, r: Round)
    requires IsTooBig(policy, s, r)
    ensures var next, learns := Step(policy, maxRetries, s, r), LearnsSize(s, r);
            && (next.Continue? <==> learns && MayGoOn(maxRetries, s, r))
            && (next.Continue? ==> RaisesFloor(s, r, next.state))
            && (next.Finish? ==>
                  next.final == if learns then StopsWith(maxRetries, s, r, ExceedsCapacity) else ExceedsCapacity)
  {
    hide Step, IsTooBig, RaisesFloor, LearnsSize, StopsWith, MayGoOn;
    TooBigStep(policy, maxRetries, s, r);
    GrownIsExact(policy, s, r);
  }

  /** With known ids something is always learnt. */
  lemma KnownTooBigContinuesExactly(policy: Policy, maxRetries: nat, s: State, r: Round)
    requires IsTooBig(policy, s, r)
    requires Faithful(policy, s, r) && forall c | c in r.candidates :: c.known.Some?
    ensures Step(policy, maxRetries, s, r).Continue? <==> MayGoOn(maxRetries, s, r)
  {
    hide Step, RoundOf, MayGoOn, IsTooBig, Faithful;
    TooBigContinuesExactly(policy, maxRetries, s, r);
    var i := SomebodyOutOfMemory(policy, s, r);
    DispatchedIsNew(policy, s, r, i);
    assert FailedSo(r.collected, ResourceExceeded, WorkerOf(r.collected[i]));
  }

  /** Only a consensus of failures makes an attempt too big. */
  lemma SomebodyOutOfMemory(policy: Policy, s: State, r: Round) returns (i: nat)
    requires IsTooBig(policy, s, r)
    ensures i < |r.collected| && FailsAs(r.collected[i], ResourceExceeded)
  {
    var cs := r.collected;
    hide Attempted, Bidders, CapacityOf, Selected, Retained, EscrowCovers, GroupsOf, FailsAs;
    TooBigHasConsensus(policy, r.inputs, cs, CapacityOf(Bidders(s, r)), r.arrived, r.outcome);
    assert FailedAs(cs, ResourceExceeded) != {};
    i :| i in FailedAs(cs, ResourceExceeded);
  }

  lemma TooBigHasConsensus(policy: Policy, inputs: Inputs, cs: seq<Collected>, capacity: map<NodeId, nat>,
                           arrived: bool, outcome: Outcome)
    requires Attempted(policy, inputs, GroupsOf(cs), capacity, arrived, outcome).0.TooBig?
    ensures |FailedAs(cs, ResourceExceeded)| >= 2
  {
    hide Commits, Failures, Silents, FailedAs, JudgedEffects, BlanketEffects, Oomed, MaxCapacity, NoQuorum;
    NoQuorumIsExact(policy, cs, capacity, outcome);
  }

  // ---- how runs end ----

  /** Input drift changes only the retry count, and ends a run only by its limits. */
  lemma DriftEndsExactly(policy: Policy, maxRetries: nat, s: State, r: Round)
    requires IsDrift(policy, s, r)
    ensures Step(policy, maxRetries, s, r)
         == if MayGoOn(maxRetries, s, r) then Continue(s.(retries := s.retries + 1))
            else Finish(StopsWith(maxRetries, s, r, Exhausted(s.retries + 1)))
  {
    hide RoundOf;
  }

  /** Each end of a run tells what its last round came to. */
  lemma EndsAreExact(policy: Policy, maxRetries: nat, s: State, r: Round)
    ensures var round, next := RoundOf(policy, s, r), Step(policy, maxRetries, s, r);
            var short := round.Reached? && (round.result.NoCandidates? || round.result.TooFewWorkers?);
            && (next == Finish(Error) <==> round.Errored?)
            && (next == Finish(Hopeless) <==> round == Reached(Unsatisfiable))
            && (forall o :: next == Finish(Answer(o)) <==> round == Reached(Done(o)))
            && (forall a, q :: next == Finish(QuorumFailed(a, q)) <==> round == Reached(Disagreement(a, q)))
            && (next == Finish(NobodyThere) <==> round == Reached(NoCandidates) && s.retries == 0 && !s.sawTooBig)
            && (forall have, q :: next == Finish(NotEnough(have, q))
                             <==> round == Reached(TooFewWorkers(have, q)) && s.retries == 0 && !s.sawTooBig)
            && (short ==> next.Finish? && (s.sawTooBig ==> next.final == ExceedsCapacity)
                          && (!s.sawTooBig && s.retries > 0 ==> next.final == Exhausted(s.retries + 1)))
            && (next.Continue? ==>
                  round.Reached? && (round.result.Retry? || round.result.TooBig? || round.result.InputDrift?))
  {
    hide RoundOf;
  }
}
