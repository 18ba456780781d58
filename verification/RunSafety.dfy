/** What holds over whole runs of the re-dispatch loop: progress and termination, the capacity
    floor, exclusion, and the answer that is finally returned. */
module RunSafety {
  import opened Wrappers
  import opened Identity
  import opened Sequences
  import opened Quorum
  import opened Attempt
  import opened AttemptSafety
  import opened Dispatch
  import opened Redispatch
  import Money
  import Metering
  import opened Verdicts

  /** `states` are the loop states before each of the `rounds`, all of which continued, and after the last. */
  ghost predicate Continued(policy: Policy, maxRetries: nat, states: seq<State>, rounds: seq<Round>) {
    ContinuedFrom(policy, maxRetries, INITIAL, states, rounds)
  }

  ghost predicate ContinuedFrom(policy: Policy, maxRetries: nat, s: State, states: seq<State>, rounds: seq<Round>) {
    && |states| == |rounds| + 1 && states[0] == s
    && forall i | 0 <= i < |rounds| :: Step(policy, maxRetries, states[i], rounds[i]) == Continue(states[i + 1])
  }

  /** How many of the rounds a run continued through before it finished or ran out of them. */
  function Continues(policy: Policy, maxRetries: nat, s: State, rounds: seq<Round>): (k: nat)
    ensures k <= |rounds|
  {
    var (f, n) := RunFrom(policy, maxRetries, s, rounds);
    RunLength(policy, maxRetries, s, rounds);
    if f.Some? then n - 1 else n
  }

  /** A run that ended made at least one attempt; one that did not used every round. */
  lemma {:induction false} RunLength(policy: Policy, maxRetries: nat, s: State, rounds: seq<Round>)
    ensures var (f, n) := RunFrom(policy, maxRetries, s, rounds);
            n <= |rounds| && (f.Some? ==> n >= 1) && (f.None? ==> n == |rounds|)
    decreases |rounds|
  {
    hide Step;
    if rounds != [] {
      var next := Step(policy, maxRetries, s, rounds[0]);
      if next.Continue? { RunLength(policy, maxRetries, next.state, rounds[1..]); }
    }
  }

  /** Every run of the loop is a chain of continuing rounds, closed by a finishing one if it ended. */
  lemma {:induction false} RunIsAChain(policy: Policy, maxRetries: nat, s: State, rounds: seq<Round>)
    returns (states: seq<State>)
    ensures var k := Continues(policy, maxRetries, s, rounds);
            && ContinuedFrom(policy, maxRetries, s, states, rounds[..k])
            && var final := RunFrom(policy, maxRetries, s, rounds).0;
               final.Some? ==> k < |rounds| && Step(policy, maxRetries, states[k], rounds[k]) == Finish(final.value)
    decreases |rounds|
  {
    hide Step;
    RunLength(policy, maxRetries, s, rounds);
    if rounds != [] && Step(policy, maxRetries, s, rounds[0]).Continue? {
      var s' := Step(policy, maxRetries, s, rounds[0]).state;
      var rest := RunIsAChain(policy, maxRetries, s', rounds[1..]);
      var k := Continues(policy, maxRetries, s', rounds[1..]);
      assert Continues(policy, maxRetries, s, rounds) == k + 1;
      assert rounds[..k + 1] == [rounds[0]] + rounds[1..][..k];
      states := [s] + rest;
    } else {
      states := [s];
    }
  }

  /** What round `r` asked for when the loop stood at `s`. */
  function ResultOf(policy: Policy, s: State, r: Round): AttemptResult
    requires RoundOf(policy, s, r).Reached?
  {
    RoundOf(policy, s, r).result
  }

  predicate IsDrift(policy: Policy, s: State, r: Round) {
    RoundOf(policy, s, r).Reached? && ResultOf(policy, s, r).InputDrift?
  }

  predicate IsTooBig(policy: Policy, s: State, r: Round) {
    RoundOf(policy, s, r).Reached? && ResultOf(policy, s, r).TooBig?
  }

  /** The workers a continuing round adds to the exclusion set. */
  function RoutedAround(policy: Policy, s: State, r: Round): seq<NodeId> {
    if !RoundOf(policy, s, r).Reached? then []
    else match ResultOf(policy, s, r)
      case Retry(tried) => tried
      case TooBig(oomed, _) => oomed
      case _ => []
  }

  /** Everything one continuing round does to the loop state. */
  lemma StepShape(policy: Policy, maxRetries: nat, s: State, r: Round, s': State)
    requires Step(policy, maxRetries, s, r) == Continue(s')
    ensures s'.retries == s.retries + 1 && (maxRetries != 0 ==> s.retries < maxRetries)
    ensures s'.excluded == s.excluded + ToSet(RoutedAround(policy, s, r))
    ensures s'.floor == if IsTooBig(policy, s, r) then MaxNat(s.floor, ResultOf(policy, s, r).maxTried) else s.floor
    ensures s'.sawTooBig == (s.sawTooBig || IsTooBig(policy, s, r))
    ensures !IsDrift(policy, s, r) ==> s'.excluded != s.excluded || s'.floor > s.floor
  {
    hide RoundOf;
    assert ToSet([]) == {};
  }

  // ---- with a retry limit ----

  lemma {:induction false} RetriesCount(policy: Policy, maxRetries: nat, states: seq<State>, rounds: seq<Round>, n: nat)
    requires Continued(policy, maxRetries, states, rounds) && n <= |rounds|
    ensures states[n].retries == n
  {
    hide Step, RoutedAround, IsTooBig, IsDrift, ResultOf, RoundOf;
    if n > 0 {
      RetriesCount(policy, maxRetries, states, rounds, n - 1);
      StepShape(policy, maxRetries, states[n - 1], rounds[n - 1], states[n]);
    }
  }

  /** With `max_retries` = m set, no run gets past m continuing rounds, drift included: at most m + 1 attempts. */
  lemma RetryLimitHolds(policy: Policy, maxRetries: nat, states: seq<State>, rounds: seq<Round>)
    requires Continued(policy, maxRetries, states, rounds) && maxRetries != 0
    ensures |rounds| <= maxRetries
  {
    hide Step, RoutedAround, IsTooBig, IsDrift, ResultOf, RoundOf;
    var n := |rounds|;
    if n > 0 {
      RetriesCount(policy, maxRetries, states, rounds, n - 1);
      StepShape(policy, maxRetries, states[n - 1], rounds[n - 1], states[n]);
    }
  }

  /** The same bound on the loop itself: the number of attempts it reports. */
  lemma AttemptsAreBounded(policy: Policy, maxRetries: nat, rounds: seq<Round>)
    requires maxRetries != 0
    ensures RunFrom(policy, maxRetries, INITIAL, rounds).1 <= maxRetries + 1
    ensures |rounds| > maxRetries ==> RunFrom(policy, maxRetries, INITIAL, rounds).0.Some?
  {
    var states := RunIsAChain(policy, maxRetries, INITIAL, rounds);
    RunLength(policy, maxRetries, INITIAL, rounds);
    hide Step;
    RetryLimitHolds(policy, maxRetries, states, rounds[..Continues(policy, maxRetries, INITIAL, rounds)]);
  }

  // ---- without one ----

  /** Every bid comes from a known finite population. */
  predicate Populated(r: Round, ids: set<NodeId>, capacities: set<nat>) {
    forall c | c in r.candidates && c.reply.Some? ::
      c.reply.value.worker in ids && c.reply.value.bid.freeMemory in capacities
  }

  lemma {:induction false} EligibleCome(cs: seq<Candidate>, excluded: set<NodeId>, floor: nat, b: Reply)
    requires b in Eligible(Retained(cs, excluded), floor)
    ensures exists c :: c in cs && Keeps(c, excluded) && c.reply == Some(b)
    ensures Admits(b, floor)
  {
    if cs != [] {
      if Keeps(cs[0], excluded) {
        assert Retained(cs, excluded)[0] == cs[0] && Retained(cs, excluded)[1..] == Retained(cs[1..], excluded);
        if cs[0].reply == Some(b) && Admits(b, floor) {
          assert cs[0] in cs && Keeps(cs[0], excluded);
        } else {
          EligibleCome(cs[1..], excluded, floor, b);
        }
      } else {
        assert Retained(cs, excluded) == Retained(cs[1..], excluded);
        EligibleCome(cs[1..], excluded, floor, b);
      }
    }
  }

  lemma {:induction false} BidsCome(rs: seq<Reply>, n: NodeId)
    requires n in BidsOf(rs)
    ensures exists b :: b in rs && b.worker == n && b.bid == BidsOf(rs)[n]
  {
    if rs != [] {
      var last := rs[|rs| - 1];
      if last.worker == n {
        assert last in rs;
      } else {
        BidsCome(rs[..|rs| - 1], n);
        var b :| b in rs[..|rs| - 1] && b.worker == n && b.bid == BidsOf(rs[..|rs| - 1])[n];
        assert b in rs;
      }
    }
  }

  lemma RoutedAroundDidNotDeliver(policy: Policy, s: State, r: Round, x: NodeId)
    requires x in RoutedAround(policy, s, r)
    ensures x in GroupsOf(r.collected).NotDelivering()
  {
    hide Attempted, GroupsOf, CapacityOf, Bidders, Selected, Retained;
    RetryShape(policy, r.inputs, GroupsOf(r.collected), CapacityOf(Bidders(s, r)), r.arrived, r.outcome);
  }

  /** Whoever a round routes around was selected for it and did not deliver. */
  lemma RoutedAroundFailed(policy: Policy, s: State, r: Round, x: NodeId)
    requires Faithful(policy, s, r) && x in RoutedAround(policy, s, r)
    ensures x in GroupsOf(r.collected).NotDelivering()
    ensures x in WorkersOf(r.collected) && x in ReplyIds(Selected(policy, s, r))
  {
    RoutedAroundDidNotDeliver(policy, s, r, x);
    hide RoutedAround, Selected, Commits, Failures, Silents;
    var g := GroupsOf(r.collected);
    PartitionIsExact(r.collected);
    assert x in g.Ids();
    assert x in multiset(WorkersOf(r.collected));
  }

  lemma SelectedAreBidders(policy: Policy, s: State, r: Round, x: NodeId)
    requires x in ReplyIds(Selected(policy, s, r))
    ensures exists b :: b in Bidders(s, r) && b in Selected(policy, s, r) && b.worker == x
  {
    var i :| 0 <= i < |Selected(policy, s, r)| && ReplyIds(Selected(policy, s, r))[i] == x;
    var b := Selected(policy, s, r)[i];
    assert b in Bidders(s, r);
  }

  lemma RoutedAroundKnown(policy: Policy, s: State, r: Round, ids: set<NodeId>, capacities: set<nat>)
    requires Faithful(policy, s, r) && Populated(r, ids, capacities)
    ensures ToSet(RoutedAround(policy, s, r)) <= ids
  {
    forall x | x in RoutedAround(policy, s, r) ensures x in ids {
      RoutedAroundFailed(policy, s, r, x);
      SelectedAreBidders(policy, s, r, x);
      var b :| b in Bidders(s, r) && b.worker == x;
      EligibleCome(r.candidates, s.excluded, s.floor, b);
    }
  }

  /** The capacity a too-big round reports is 0 or was advertised by a bidder of that round. */
  lemma MaxTriedKnown(policy: Policy, s: State, r: Round, ids: set<NodeId>, capacities: set<nat>)
    requires IsTooBig(policy, s, r) && Populated(r, ids, capacities)
    ensures ResultOf(policy, s, r).maxTried == 0 || ResultOf(policy, s, r).maxTried in capacities
  {
    var g, caps := GroupsOf(r.collected), CapacityOf(Bidders(s, r));
    RetryShape(policy, r.inputs, g, caps, r.arrived, r.outcome);
    hide Attempted;
    var m := ResultOf(policy, s, r).maxTried;
    assert m == MaxCapacity(Oomed(g.failed), caps);
    if m != 0 {
      var n :| n in Oomed(g.failed) && n in caps && caps[n] == m;
      BidsCome(Bidders(s, r), n);
      var b :| b in Bidders(s, r) && b.worker == n && b.bid.freeMemory == m;
      EligibleCome(r.candidates, s.excluded, s.floor, b);
    }
  }

  /** What is left to try: workers not yet excluded and capacities above the floor. */
  function Remaining(s: State, ids: set<NodeId>, capacities: set<nat>): nat {
    |ids - s.excluded| + |set c | c in capacities && c > s.floor|
  }

  lemma StrictSubset<T>(a: set<T>, b: set<T>, x: T)
    requires a <= b && x in b && x !in a
    ensures |a| < |b|
  {
    assert b == (b - {x}) + {x};
    SubsetSize(a, b - {x});
  }

  /** Each continuing round that is not input drift uses up part of what remains; drift uses up nothing. */
  lemma RoundMakesProgress(policy: Policy, maxRetries: nat, s: State, r: Round, s': State, ids: set<NodeId>,
                           capacities: set<nat>)
    requires Step(policy, maxRetries, s, r) == Continue(s')
    requires Faithful(policy, s, r) && Populated(r, ids, capacities)
    ensures Remaining(s', ids, capacities) <= Remaining(s, ids, capacities)
    ensures !IsDrift(policy, s, r) ==> Remaining(s', ids, capacities) < Remaining(s, ids, capacities)
  {
    StepShape(policy, maxRetries, s, r, s');
    RoutedAroundKnown(policy, s, r, ids, capacities);
    if IsTooBig(policy, s, r) { MaxTriedKnown(policy, s, r, ids, capacities); }
    hide Step, IsDrift, IsTooBig, RoutedAround, ResultOf, Populated, Faithful;
    var left, left' := ids - s.excluded, ids - s'.excluded;
    var above := set c | c in capacities && c > s.floor;
    var above' := set c | c in capacities && c > s'.floor;
    SubsetSize(left', left);
    SubsetSize(above', above);
    if s'.excluded != s.excluded {
      var x :| x in s'.excluded && x !in s.excluded;
      StrictSubset(left', left, x);
    } else if s'.floor > s.floor {
      StrictSubset(above', above, s'.floor);
    }
  }

  /** Number of the first `n` rounds that were not input drift. */
  function NonDrift(policy: Policy, states: seq<State>, rounds: seq<Round>, n: nat): nat
    requires n <= |rounds| < |states|
  {
    if n == 0 then 0
    else NonDrift(policy, states, rounds, n - 1) + if IsDrift(policy, states[n - 1], rounds[n - 1]) then 0 else 1
  }

  lemma {:induction false} ProgressAddsUp(policy: Policy, maxRetries: nat, states: seq<State>, rounds: seq<Round>,
                                          n: nat, ids: set<NodeId>, capacities: set<nat>)
    requires Continued(policy, maxRetries, states, rounds) && n <= |rounds|
    requires forall i | 0 <= i < |rounds| ::
               Faithful(policy, states[i], rounds[i]) && Populated(rounds[i], ids, capacities)
    ensures NonDrift(policy, states, rounds, n) + Remaining(states[n], ids, capacities)
         <= Remaining(INITIAL, ids, capacities)
  {
    hide Step, IsDrift, Remaining, Faithful, Populated;
    if n > 0 {
      ProgressAddsUp(policy, maxRetries, states, rounds, n - 1, ids, capacities);
      RoundMakesProgress(policy, maxRetries, states[n - 1], rounds[n - 1], states[n], ids, capacities);
    }
  }

  /** Even with unlimited retries, over a finite population every run has at most as many continuing
      rounds, drift aside, as there are workers plus distinct advertised capacities. */
  lemma NonDriftRoundsAreBounded(policy: Policy, maxRetries: nat, states: seq<State>, rounds: seq<Round>,
                                 ids: set<NodeId>, capacities: set<nat>)
    requires Continued(policy, maxRetries, states, rounds)
    requires forall i | 0 <= i < |rounds| ::
               Faithful(policy, states[i], rounds[i]) && Populated(rounds[i], ids, capacities)
    ensures NonDrift(policy, states, rounds, |rounds|) <= |ids| + |capacities|
  {
    ProgressAddsUp(policy, maxRetries, states, rounds, |rounds|, ids, capacities);
    AllRemains(ids, capacities);
  }

  lemma AllRemains(ids: set<NodeId>, capacities: set<nat>)
    ensures Remaining(INITIAL, ids, capacities) <= |ids| + |capacities|
  {
    var above := set c | c in capacities && c > INITIAL.floor;
    assert ids - INITIAL.excluded == ids;
    SubsetSize(above, capacities);
  }

  // ---- the capacity floor ----

  /** The floor never falls, and is at least what every earlier too-big round reported. */
  lemma {:induction false} FloorRises(policy: Policy, maxRetries: nat, states: seq<State>, rounds: seq<Round>, i: nat,
                                      n: nat)
    requires Continued(policy, maxRetries, states, rounds) && i <= n <= |rounds|
    ensures states[i].floor <= states[n].floor
    ensures i < n && IsTooBig(policy, states[i], rounds[i]) ==>
              ResultOf(policy, states[i], rounds[i]).maxTried <= states[n].floor && states[n].sawTooBig
  {
    hide Step, IsTooBig, ResultOf;
    if i < n {
      FloorRises(policy, maxRetries, states, rounds, i, n - 1);
      StepShape(policy, maxRetries, states[n - 1], rounds[n - 1], states[n]);
    }
  }

  /** The floor is exactly the largest capacity reported so far, 0 without a report; `sawTooBig` says there was one. */
  lemma FloorIsMaximum(policy: Policy, maxRetries: nat, states: seq<State>, rounds: seq<Round>, n: nat)
    requires Continued(policy, maxRetries, states, rounds) && n <= |rounds|
    ensures forall i | 0 <= i < n && IsTooBig(policy, states[i], rounds[i]) ::
              ResultOf(policy, states[i], rounds[i]).maxTried <= states[n].floor
    ensures states[n].floor == 0
         || exists i :: 0 <= i < n && IsTooBig(policy, states[i], rounds[i])
                     && ResultOf(policy, states[i], rounds[i]).maxTried == states[n].floor
    ensures states[n].sawTooBig <==> exists i :: 0 <= i < n && IsTooBig(policy, states[i], rounds[i])
  {
    hide Step, RoundOf;
    FloorIsReported(policy, maxRetries, states, rounds, n);
    forall i | 0 <= i < n && IsTooBig(policy, states[i], rounds[i])
      ensures ResultOf(policy, states[i], rounds[i]).maxTried <= states[n].floor
    {
      FloorRises(policy, maxRetries, states, rounds, i, n);
    }
  }

  lemma {:induction false} FloorIsReported(policy: Policy, maxRetries: nat, states: seq<State>, rounds: seq<Round>,
                                           n: nat)
    requires Continued(policy, maxRetries, states, rounds) && n <= |rounds|
    ensures states[n].floor == 0
         || exists i :: 0 <= i < n && IsTooBig(policy, states[i], rounds[i])
                     && ResultOf(policy, states[i], rounds[i]).maxTried == states[n].floor
    ensures states[n].sawTooBig <==> exists i :: 0 <= i < n && IsTooBig(policy, states[i], rounds[i])
  {
    hide Step, IsTooBig, ResultOf;
    if n > 0 {
      FloorIsReported(policy, maxRetries, states, rounds, n - 1);
      StepShape(policy, maxRetries, states[n - 1], rounds[n - 1], states[n]);
    }
  }

  /** Whoever is selected after a too-big round advertised nothing, or strictly more than each worker that
      ran out of memory in it. */
  lemma LaterWorkersAreBigger(policy: Policy, maxRetries: nat, states: seq<State>, rounds: seq<Round>, i: nat, n: nat,
                              next: Round, b: Reply, oom: NodeId)
    requires Continued(policy, maxRetries, states, rounds) && i < n <= |rounds|
    requires IsTooBig(policy, states[i], rounds[i]) && oom in ResultOf(policy, states[i], rounds[i]).oomed
    requires b in Selected(policy, states[n], next)
    requires oom in BidsOf(Bidders(states[i], rounds[i]))
    ensures b.bid.freeMemory == 0 || b.bid.freeMemory > BidsOf(Bidders(states[i], rounds[i]))[oom].freeMemory
  {
    var s, r := states[i], rounds[i];
    FloorRises(policy, maxRetries, states, rounds, i, n);
    RetryShape(policy, r.inputs, GroupsOf(r.collected), CapacityOf(Bidders(s, r)), r.arrived, r.outcome);
    assert CapacityOf(Bidders(s, r))[oom] <= ResultOf(policy, s, r).maxTried;
    EligibleCome(next.candidates, states[n].excluded, states[n].floor, b);
  }

  /** Once a round was too big, running out of candidates or of workers is reported as exceeding capacity. */
  lemma ShortageAfterTooBig(policy: Policy, maxRetries: nat, states: seq<State>, rounds: seq<Round>, i: nat,
                            last: Round)
    requires Continued(policy, maxRetries, states, rounds) && i < |rounds|
    requires IsTooBig(policy, states[i], rounds[i])
    requires var r := RoundOf(policy, states[|rounds|], last);
             r.Reached? && (r.result.NoCandidates? || r.result.TooFewWorkers?)
    ensures Step(policy, maxRetries, states[|rounds|], last) == Finish(ExceedsCapacity)
  {
    hide RoundOf;
    FloorRises(policy, maxRetries, states, rounds, i, |rounds|);
  }

  // ---- exclusion ----

  /** A worker that commits whenever it is dispatched to is never excluded, in any run. */
  lemma {:induction false} ReliableWorkersStayIn(policy: Policy, maxRetries: nat, states: seq<State>,
                                                 rounds: seq<Round>, n: nat, x: NodeId)
    requires Continued(policy, maxRetries, states, rounds) && n <= |rounds|
    requires forall i | 0 <= i < |rounds| ::
               Faithful(policy, states[i], rounds[i]) && NoDuplicates(WorkersOf(rounds[i].collected))
    requires forall i | 0 <= i < |rounds| ::
               x in WorkersOf(rounds[i].collected) ==> x in CommitIds(Commits(rounds[i].collected))
    ensures x !in states[n].excluded
  {
    hide Step, RoutedAround, Faithful, WorkersOf, Commits, CommitIds, NoDuplicates;
    if n > 0 {
      var s, r := states[n - 1], rounds[n - 1];
      ReliableWorkersStayIn(policy, maxRetries, states, rounds, n - 1, x);
      StepShape(policy, maxRetries, s, r, states[n]);
      ReliableIsNotRoutedAround(policy, s, r, x);
    }
  }

  lemma ReliableIsNotRoutedAround(policy: Policy, s: State, r: Round, x: NodeId)
    requires Faithful(policy, s, r) && NoDuplicates(WorkersOf(r.collected))
    requires x in WorkersOf(r.collected) ==> x in CommitIds(Commits(r.collected))
    ensures x !in RoutedAround(policy, s, r)
  {
    hide RoutedAround, Faithful, WorkersOf, Commits, Failures, Silents, CommitIds, NobodyTwice, NoDuplicates;
    if x in RoutedAround(policy, s, r) {
      RoutedAroundFailed(policy, s, r, x);
      DistinctSelectionPartitions(r.collected);
      GroupsAreDisjoint(GroupsOf(r.collected), x);
    }
  }

  /** When every candidate is dialled by id, an excluded worker is never selected again. */
  lemma ExcludedStayOut(policy: Policy, s: State, r: Round, x: NodeId)
    requires Faithful(policy, s, r) && (forall c | c in r.candidates :: c.known.Some?)
    requires x in ReplyIds(Selected(policy, s, r))
    ensures x !in s.excluded
  {
    SelectedAreBidders(policy, s, r, x);
    var b :| b in Bidders(s, r) && b.worker == x;
    EligibleCome(r.candidates, s.excluded, s.floor, b);
  }

  lemma TriedAreTheRest(policy: Policy, s: State, r: Round)
    requires RoundOf(policy, s, r).Reached? && ResultOf(policy, s, r).Retry?
    ensures |ResultOf(policy, s, r).tried| + |Commits(r.collected)| == |r.collected|
  {
    hide Attempted, Bidders, CapacityOf;
    RetryShape(policy, r.inputs, GroupsOf(r.collected), CapacityOf(Bidders(s, r)), r.arrived, r.outcome);
    PartitionIsExact(r.collected);
    assert |multiset(WorkersOf(r.collected))| == |r.collected|;
  }

  /** So with known ids a retry round stops at the no-progress guard exactly when every dispatched worker
      committed, which happens when the winner's transfer stalls. */
  lemma NoProgressIsExact(policy: Policy, maxRetries: nat, s: State, r: Round)
    requires Faithful(policy, s, r) && (forall c | c in r.candidates :: c.known.Some?)
    requires RoundOf(policy, s, r).Reached? && ResultOf(policy, s, r).Retry?
    ensures s.excluded + ToSet(ResultOf(policy, s, r).tried) == s.excluded
       <==> |Commits(r.collected)| == |r.collected|
  {
    hide RoundOf, Faithful, Commits, WorkersOf, Selected, Bidders;
    TriedAreTheRest(policy, s, r);
    var tried := ResultOf(policy, s, r).tried;
    if tried != [] {
      assert tried[0] in RoutedAround(policy, s, r);
      RoutedAroundFailed(policy, s, r, tried[0]);
      ExcludedStayOut(policy, s, r, tried[0]);
      assert tried[0] in ToSet(tried);
    } else {
      assert ToSet(tried) == {};
    }
  }

  // ---- two runs worth knowing ----

  const FREE := Money.Bid(0, 0, 0, 0)

  /** One known worker `x` that bids and commits `hash` on `fingerprint`, with `spare` behind it. */
  function LoneRound(x: NodeId, spare: NodeId, hash: Hash, fingerprint: string, pinned: Option<string>,
                     outcome: Outcome): Round {
    var a := Candidate(Some(x), Some(Reply(x, FREE, true)));
    var b := Candidate(Some(spare), Some(Reply(spare, FREE, true)));
    Round(true, [a, b], None, 0, Inputs(pinned, true), [Committed(Commit(x, hash, 1, fingerprint))], outcome, false,
          false, true)
  }

  const LONE_POLICY := Policy(ByQuorum, 1, 1, true, 0.67, None)

  lemma LoneRoundSelects(x: NodeId, spare: NodeId, hash: Hash, fingerprint: string, pinned: Option<string>,
                         outcome: Outcome, s: State)
    requires s.excluded == {} && s.floor == 0
    ensures var r := LoneRound(x, spare, hash, fingerprint, pinned, outcome);
            && Retained(r.candidates, s.excluded) == r.candidates
            && Bidders(s, r) == [Reply(x, FREE, true), Reply(spare, FREE, true)]
            && Selected(LONE_POLICY, s, r) == [Reply(x, FREE, true)]
            && WorkersOf(r.collected) == ReplyIds(Selected(LONE_POLICY, s, r))
            && GroupsOf(r.collected) == Groups([Commit(x, hash, 1, fingerprint)], [], [])
  {
    var r := LoneRound(x, spare, hash, fingerprint, pinned, outcome);
    var cs := r.candidates;
    assert cs[1..] == [cs[1]] && cs[1..][1..] == [];
    assert Retained(cs[1..], {}) == [cs[1]];
    assert Eligible(cs[1..], 0) == [Reply(spare, FREE, true)];
    GroupsOfOne(r.collected[0]);
  }

  lemma LoneRoundReaches(x: NodeId, spare: NodeId, hash: Hash, fingerprint: string, pinned: Option<string>,
                         outcome: Outcome, s: State)
    requires s.excluded == {} && s.floor == 0
    ensures var r := LoneRound(x, spare, hash, fingerprint, pinned, outcome);
            var g := Groups([Commit(x, hash, 1, fingerprint)], [], []);
            RoundOf(LONE_POLICY, s, r)
              == Reached(Attempted(LONE_POLICY, Inputs(pinned, true), g, CapacityOf(Bidders(s, r)), false, outcome).0)
  {
    LoneRoundSelects(x, spare, hash, fingerprint, pinned, outcome, s);
    hide Attempted, Bidders, Selected, Retained, CapacityOf;
  }

  lemma LoneRoundIsFaithful(x: NodeId, spare: NodeId, hash: Hash, fingerprint: string, pinned: Option<string>,
                            outcome: Outcome, s: State)
    requires s.excluded == {} && s.floor == 0
    requires IsPinnedOutcome(LONE_POLICY, Inputs(pinned, true), [Commit(x, hash, 1, fingerprint)], outcome)
    ensures Faithful(LONE_POLICY, s, LoneRound(x, spare, hash, fingerprint, pinned, outcome))
  {
    LoneRoundSelects(x, spare, hash, fingerprint, pinned, outcome, s);
    hide IsPinnedOutcome, Selected;
  }

  /** The winner commits, then its transfer stalls: nobody failed, so nothing can be excluded and the run stops
      as making no progress, although another bidder was standing by. */
  lemma StalledWinnerEndsTheRun(x: NodeId, spare: NodeId, hash: Hash) returns (r: Round)
    requires spare != x
    ensures Faithful(LONE_POLICY, INITIAL, r)
    ensures Reply(spare, FREE, true) in Bidders(INITIAL, r)
            && Reply(spare, FREE, true) !in Selected(LONE_POLICY, INITIAL, r)
    ensures Step(LONE_POLICY, 0, INITIAL, r) == Finish(Exhausted(1))
  {
    hide LoneRound, RoundOf, Faithful, Attempted, Bidders, Selected, Retained, GroupsOf, IsPinnedOutcome, CapacityOf;
    var outcome := Outcome(Some(hash), 1, 1, false);
    r := LoneRound(x, spare, hash, "", None, outcome);
    LoneRoundSelects(x, spare, hash, "", None, outcome, INITIAL);
    LoneCommitAgrees([Commit(x, hash, 1, "")], hash, outcome);
    LoneRoundIsFaithful(x, spare, hash, "", None, outcome, INITIAL);
    LoneRoundReaches(x, spare, hash, "", None, outcome, INITIAL);
    StalledAttempt(x, hash, outcome, CapacityOf(Bidders(INITIAL, r)));
    assert ToSet([]) == {};
  }

  lemma LoneCommitAgrees(fs: seq<Commit>, hash: Hash, outcome: Outcome)
    requires |fs| == 1 && fs[0].hash == hash && outcome == Outcome(Some(hash), 1, 1, false)
    ensures IsPinnedOutcome(LONE_POLICY, Inputs(None, true), fs, outcome)
  {
    NoDriftMeansAll(KeysOf(fs), None);
    assert Hashes(KeysOf(fs)) == [hash];
    assert Meets([hash], 1, hash);
  }

  lemma StalledAttempt(x: NodeId, hash: Hash, outcome: Outcome, capacity: map<NodeId, nat>)
    requires outcome == Outcome(Some(hash), 1, 1, false)
    ensures Attempted(LONE_POLICY, Inputs(None, true), Groups([Commit(x, hash, 1, "")], [], []), capacity, false,
                      outcome).0 == Retry([])
  {
    var g := Groups([Commit(x, hash, 1, "")], [], []);
    NoDriftMeansAll(KeysOf(g.commits), None);
    assert Fastest(g.commits, Some(hash)).Some?;
    assert g.NotDelivering() == [];
    hide JudgedEffects;
  }

  /** A drift round is followed by another exactly while the retry limit, the wall clock and the token
      bucket allow it; nothing else in the loop state stops it. */
  lemma DriftContinuesExactly(policy: Policy, maxRetries: nat, s: State, r: Round)
    requires IsDrift(policy, s, r)
    ensures Step(policy, maxRetries, s, r) == Continue(s.(retries := s.retries + 1))
       <==> (maxRetries == 0 || s.retries < maxRetries) && !r.timeUp && r.tokenLeft
    ensures Step(policy, maxRetries, s, r).Continue? ==>
              Step(policy, maxRetries, s, r).state == s.(retries := s.retries + 1)
  {
    hide RoundOf;
  }

  /** So while time and tokens last and no retry limit is set there is, for every n, a run of n continuing
      drift rounds in which nothing is excluded. */
  lemma DriftIsUnbounded(n: nat, x: NodeId, hash: Hash) returns (states: seq<State>, rounds: seq<Round>)
    ensures |rounds| == n && Continued(LONE_POLICY, 0, states, rounds)
    ensures forall i | 0 <= i < n :: Faithful(LONE_POLICY, states[i], rounds[i])
    ensures states[n].excluded == {}
  {
    hide Step, Faithful, LoneRound;
    var outcome := Outcome(None, 0, 1, false);
    var r := LoneRound(x, x, hash, "new", Some("old"), outcome);
    states := seq(n + 1, k requires 0 <= k <= n => INITIAL.(retries := k));
    rounds := seq(n, k => r);
    forall i | 0 <= i < n
      ensures Step(LONE_POLICY, 0, states[i], rounds[i]) == Continue(states[i + 1])
              && Faithful(LONE_POLICY, states[i], rounds[i])
    {
      DriftRoundContinues(states[i], x, hash, outcome);
    }
  }

  lemma DriftRoundContinues(s: State, x: NodeId, hash: Hash, outcome: Outcome)
    requires s.excluded == {} && s.floor == 0 && outcome == Outcome(None, 0, 1, false)
    ensures var r := LoneRound(x, x, hash, "new", Some("old"), outcome);
            Step(LONE_POLICY, 0, s, r) == Continue(s.(retries := s.retries + 1)) && Faithful(LONE_POLICY, s, r)
  {
    var r := LoneRound(x, x, hash, "new", Some("old"), outcome);
    LoneRoundSelects(x, x, hash, "new", Some("old"), outcome, s);
    var ks := KeysOf([Commit(x, hash, 1, "new")]);
    assert ks == [CommitKey("new", hash)] && ks[1..] == [];
    assert DriftCount(ks, Some("old")) == 1 && OnPinned(ks, Some("old")) == [] by {
      assert Drifts(ks[0], Some("old")) by { assert "new"[0] != "old"[0]; }
    }
    assert IsOutcome([], 1, outcome);
    LoneRoundIsFaithful(x, x, hash, "new", Some("old"), outcome, s);
    LoneRoundReaches(x, x, hash, "new", Some("old"), outcome, s);
    hide RoundOf, Faithful, Bidders, Selected;
  }

  // ---- the answer ----

  lemma AnswerComesFromTheLastRound(policy: Policy, maxRetries: nat, s: State, r: Round, o: QueryOutcome)
    requires Step(policy, maxRetries, s, r) == Finish(Answer(o))
    ensures Attempted(policy, r.inputs, GroupsOf(r.collected), CapacityOf(Bidders(s, r)), r.arrived, r.outcome).0
         == Done(o)
  {
    hide Attempted, GroupsOf, Bidders;
  }

  /** The run as a whole: if it ends with an answer in quorum mode and fewer than `quorum` commits of the last
      round are dishonest, the answer is the honest hash, verified by a quorum. */
  lemma RunReturnsTheHonestHash(policy: Policy, maxRetries: nat, states: seq<State>, rounds: seq<Round>, last: Round,
                                honest: set<NodeId>, h: Hash, o: QueryOutcome)
    requires Continued(policy, maxRetries, states, rounds)
    requires Step(policy, maxRetries, states[|rounds|], last) == Finish(Answer(o))
    requires Faithful(policy, states[|rounds|], last)
    requires MostlyHonest(policy, last.inputs, GroupsOf(last.collected), last.outcome, honest, h)
    ensures o.agreed == h && o.verified && multiset(HashesOf(Commits(last.collected)))[h] >= policy.quorum
  {
    var s, g, caps := states[|rounds|], GroupsOf(last.collected), CapacityOf(Bidders(states[|rounds|], last));
    AnswerComesFromTheLastRound(policy, maxRetries, s, last, o);
    hide Step, Faithful, Attempted, MostlyHonest;
    assert Attempted(policy, last.inputs, g, caps, last.arrived, last.outcome).0 == Done(o);
    DoneShape(policy, last.inputs, g, caps, last.arrived, last.outcome);
    OnlyTheHonestHashProceeds(policy, last.inputs, g, caps, last.outcome, honest, h);
  }

  // ---- money over the whole run ----

  predicate Answers(next: Next) { next.Finish? && next.final.Answer? }

  lemma OnlyAnswersSettle(policy: Policy, maxRetries: nat, s: State, r: Round)
    ensures EffectsOf(policy, s, r).settlement.Some? <==> Answers(Step(policy, maxRetries, s, r))
  {
    hide Attempted, GroupsOf, Bidders, CapacityOf, MeteredOf, Selected, Retained, EscrowCovers;
    var g, caps := GroupsOf(r.collected), CapacityOf(Bidders(s, r));
    SettledIffDone(policy, r.inputs, g, caps, r.arrived, r.outcome);
  }

  lemma SettledIffDone(policy: Policy, inputs: Inputs, g: Groups, capacity: map<NodeId, nat>, arrived: bool,
                       outcome: Outcome)
    ensures var (result, fx) := Attempted(policy, inputs, g, capacity, arrived, outcome);
            fx.settlement.Some? <==> result.Done?
  {
    hide Fastest, AllReceipts, SettlementFor, Faulted;
  }

  /** No run pays twice: it settles exactly one of its attempts if it ends with an answer, and none if it
      ends otherwise or not at all. */
  lemma {:induction false} NoRunPaysTwice(policy: Policy, maxRetries: nat, s: State, rounds: seq<Round>)
    ensures var final := RunFrom(policy, maxRetries, s, rounds).0;
            SettlementsOf(Trace(policy, maxRetries, s, rounds)) == if final.Some? && final.value.Answer? then 1 else 0
    decreases |rounds|
  {
    hide Step, EffectsOf;
    if rounds != [] {
      var fx := EffectsOf(policy, s, rounds[0]);
      OnlyAnswersSettle(policy, maxRetries, s, rounds[0]);
      match Step(policy, maxRetries, s, rounds[0])
      case Finish(_) =>
        assert Trace(policy, maxRetries, s, rounds) == [fx] && [fx][1..] == [];
      case Continue(s') =>
        var more := Trace(policy, maxRetries, s', rounds[1..]);
        assert Trace(policy, maxRetries, s, rounds) == [fx] + more && ([fx] + more)[1..] == more;
        NoRunPaysTwice(policy, maxRetries, s', rounds[1..]);
    }
  }

  lemma SelectedBidAt(policy: Policy, s: State, r: Round, i: nat)
    requires i < |Selected(policy, s, r)|
    ensures var x := Selected(policy, s, r)[i].worker;
            x in BidsOf(Bidders(s, r)) && SelectedBids(policy, s, r)[i] == BidsOf(Bidders(s, r))[x]
  {
    assert Selected(policy, s, r)[i] in Bidders(s, r);
  }

  /** The place of a committed worker among the selected bids. */
  lemma CommitterWasSelected(policy: Policy, s: State, r: Round, x: NodeId) returns (i: nat)
    requires Faithful(policy, s, r) && x in CommitIds(Commits(r.collected))
    ensures |SelectedBids(policy, s, r)| == GroupsOf(r.collected).Size() == |r.collected|
            && i < |SelectedBids(policy, s, r)|
    ensures x in BidsOf(Bidders(s, r)) && SelectedBids(policy, s, r)[i] == BidsOf(Bidders(s, r))[x]
  {
    hide Selected, SelectedBids, Commits, Failures, Silents, Tallied, BidsOf, Bidders;
    PartitionIsExact(r.collected);
    var g, ids := GroupsOf(r.collected), WorkersOf(r.collected);
    assert |multiset(ids)| == |ids| && |g.Ids()| == g.Size();
    assert x in multiset(ids);
    i :| 0 <= i < |ids| && ids[i] == x;
    SelectedBidAt(policy, s, r, i);
  }

  lemma AnswerIsSettled(policy: Policy, maxRetries: nat, s: State, r: Round, o: QueryOutcome)
    requires Step(policy, maxRetries, s, r) == Finish(Answer(o))
    ensures var attempt :=
              Attempted(policy, r.inputs, GroupsOf(r.collected), CapacityOf(Bidders(s, r)), r.arrived, r.outcome);
            && EscrowCovers(policy, s, r) && attempt.0 == Done(o)
            && EffectsOf(policy, s, r) == attempt.1 && !BillingAborts(MeteredOf(Bidders(s, r)), attempt.1)
  {
    hide Attempted, GroupsOf, Bidders, CapacityOf, MeteredOf, Selected, Retained, EscrowCovers, BillingAborts;
  }

  /** What the settlement handed to a winner with this bid comes to. */
  function Settled(s: Settlement, p: Money.Pricing, bid: Money.Bid, bytes: nat, payable: seq<bool>,
                   winnerPayable: bool): Result<Money.Payouts, nat> {
    var bill := Metering.BilledSeconds(s.winnerLatency, s.latencies, p.tolerance);
    var escrow := Money.OpenedEscrow(p, MeteredWinner(bid, bill, bytes), |s.verifiers|);
    Money.Settle(p, MeteredWinner(bid, bill, bytes), payable, winnerPayable, escrow)
  }

  /** It stays within the requester's ceiling. */
  predicate PaidWithin(s: Settlement, p: Money.Pricing, bid: Money.Bid, bytes: nat, payable: seq<bool>,
                       winnerPayable: bool) {
    var bill := Metering.BilledSeconds(s.winnerLatency, s.latencies, p.tolerance);
    var escrow := Money.OpenedEscrow(p, MeteredWinner(bid, bill, bytes), |s.verifiers|);
    var paid := Settled(s, p, bid, bytes, payable, winnerPayable);
    && (IsMetered(bid) ==> bill == Some(Metering.CeilSecs(s.winnerLatency)))
    && escrow <= Money.Ceiling(p)
    && paid.Ok? && paid.value.Total().Some? && paid.value.Total().value <= escrow
  }

  /** A winner with a wallet gets the price of its own seconds, up to its cap, and of the bytes; the platform and
      each of the `wallets` verifiers with one get their shares of that price. */
  predicate PaysThePrice(s: Settlement, p: Money.Pricing, bid: Money.Bid, bytes: nat, wallets: nat,
                         paid: Money.Payouts) {
    var seconds := Money.Min(Metering.CeilSecs(s.winnerLatency), Money.Max(bid.capSeconds, 1));
    && Money.IsPrice(paid.winner, bid.ratePerSecond, seconds, bid.ratePerGb, bytes)
    && Money.IsShare(paid.fee, paid.winner, p.fee)
    && |paid.commissions| == wallets
    && forall i | 0 <= i < |paid.commissions| :: Money.IsShare(paid.commissions[i], paid.winner, p.commission)
  }

  predicate BidInWords(bid: Money.Bid, bytes: nat) {
    bid.ratePerSecond < Money.U64_END && bid.ratePerGb < Money.U64_END && bytes < Money.U64_END
  }

  lemma PriceIsPaid(s: Settlement, p: Money.Pricing, bid: Money.Bid, bytes: nat, payable: seq<bool>)
    requires PaidWithin(s, p, bid, bytes, payable, true) && IsMetered(bid) && Money.ValidPricing(p)
    requires |payable| == |s.verifiers| < Money.U64_END
    requires BidInWords(bid, bytes)
    ensures PaysThePrice(s, p, bid, bytes, Money.CountPayable(payable), Settled(s, p, bid, bytes, payable, true).value)
  {
    var m := Money.Metered(Money.TermsOf(bid).value, Metering.CeilSecs(s.winnerLatency), bytes);
    var escrow := Money.OpenedEscrow(p, Some(m), |s.verifiers|);
    Money.CeilingIsSmall(p);
    Money.MulMonotone(escrow, Money.Ceiling(p), Money.BPS_MAX, Money.BPS_MAX);
    Money.MeteredPayoutsAreExact(p, m, payable, true, escrow);
  }

  lemma AnswerIsPaidWithin(policy: Policy, maxRetries: nat, s: State, r: Round, o: QueryOutcome, p: Money.Pricing,
                           payable: seq<bool>, winnerPayable: bool)
    requires Step(policy, maxRetries, s, r) == Finish(Answer(o))
    requires Faithful(policy, s, r) && |r.collected| < Money.U64_END
    requires r.pricing == Some(p) && Money.ValidPricing(p) && p.maxBid > 0
    requires forall f | f in Commits(r.collected) :: f.latency < Money.U64_END
    ensures EffectsOf(policy, s, r).settlement.Some?
    ensures var t := EffectsOf(policy, s, r).settlement.value;
            && t.winner == o.winner && t.winner in BidsOf(Bidders(s, r))
            && (|payable| == |t.verifiers| ==>
                  PaidWithin(t, p, BidsOf(Bidders(s, r))[t.winner], r.bytes, payable, winnerPayable))
  {
    hide Step, EffectsOf, Attempted, Commits, Faithful, Bidders, BidsOf, SelectedBids, BillingAborts, Money.Preflight,
      Money.OpenedEscrow, Money.Settle, Metering.BilledSeconds, Decide, JudgedEffects, Fastest, Money.ValidPricing;
    var g, caps := GroupsOf(r.collected), CapacityOf(Bidders(s, r));
    AnswerIsSettled(policy, maxRetries, s, r, o);
    SettlementOfAnswer(policy, r.inputs, g, caps, r.arrived, r.outcome);
    var t := EffectsOf(policy, s, r).settlement.value;
    var i := CommitterWasSelected(policy, s, r, t.winner);
    if |payable| == |t.verifiers| {
      PaidAttemptStaysWithinCeiling(policy, r.inputs, g, caps, r.outcome, p, SelectedBids(policy, s, r), i, r.bytes,
                                    payable, winnerPayable, MeteredOf(Bidders(s, r)));
    }
  }

  /** Whatever the run went through, the attempt it answers with is paid for within the configured ceiling: the
      selected bids passed the preflight, so the escrow opened for the winner's bid stays within the ceiling,
      settling it is never refused, adds up to at most the escrow, and bills a metered winner its own time. */
  lemma PaidRunStaysWithinCeiling(policy: Policy, maxRetries: nat, states: seq<State>, rounds: seq<Round>, last: Round,
                                  o: QueryOutcome, p: Money.Pricing, payable: seq<bool>, winnerPayable: bool)
    requires Continued(policy, maxRetries, states, rounds)
    requires Step(policy, maxRetries, states[|rounds|], last) == Finish(Answer(o))
    requires Faithful(policy, states[|rounds|], last) && |last.collected| < Money.U64_END
    requires last.pricing == Some(p) && Money.ValidPricing(p) && p.maxBid > 0
    requires forall f | f in Commits(last.collected) :: f.latency < Money.U64_END
    ensures forall i | 0 <= i < |rounds| :: EffectsOf(policy, states[i], rounds[i]).settlement.None?
    ensures EffectsOf(policy, states[|rounds|], last).settlement.Some?
    ensures var s := EffectsOf(policy, states[|rounds|], last).settlement.value;
            && s.winner == o.winner && s.winner in BidsOf(Bidders(states[|rounds|], last))
            && (|payable| == |s.verifiers| ==>
                  var bid := BidsOf(Bidders(states[|rounds|], last))[s.winner];
                  PaidWithin(s, p, bid, last.bytes, payable, winnerPayable))
  {
    hide Step, EffectsOf, Faithful, PaidWithin, Bidders, BidsOf, Commits, Money.ValidPricing;
    forall i | 0 <= i < |rounds| ensures EffectsOf(policy, states[i], rounds[i]).settlement.None? {
      assert Step(policy, maxRetries, states[i], rounds[i]) == Continue(states[i + 1]);
      OnlyAnswersSettle(policy, maxRetries, states[i], rounds[i]);
    }
    AnswerIsPaidWithin(policy, maxRetries, states[|rounds|], last, o, p, payable, winnerPayable);
  }


  /** And when the winner's bid is metered and it has a wallet, it is paid its price. */
  lemma PaidRunPaysThePrice(policy: Policy, maxRetries: nat, states: seq<State>, rounds: seq<Round>, last: Round,
                            o: QueryOutcome, p: Money.Pricing, payable: seq<bool>)
    requires Continued(policy, maxRetries, states, rounds)
    requires Step(policy, maxRetries, states[|rounds|], last) == Finish(Answer(o))
    requires Faithful(policy, states[|rounds|], last) && |last.collected| < Money.U64_END
    requires last.pricing == Some(p) && Money.ValidPricing(p) && p.maxBid > 0
    requires forall f | f in Commits(last.collected) :: f.latency < Money.U64_END
    ensures EffectsOf(policy, states[|rounds|], last).settlement.Some?
    ensures var s := EffectsOf(policy, states[|rounds|], last).settlement.value;
            && s.winner in BidsOf(Bidders(states[|rounds|], last))
            && var bid := BidsOf(Bidders(states[|rounds|], last))[s.winner];
               |payable| == |s.verifiers| && IsMetered(bid) && BidInWords(bid, last.bytes) ==>
                 && Settled(s, p, bid, last.bytes, payable, true).Ok?
                 && PaysThePrice(s, p, bid, last.bytes, Money.CountPayable(payable),
                                 Settled(s, p, bid, last.bytes, payable, true).value)
  {
    hide Step, EffectsOf, Faithful, Bidders, BidsOf, Commits, Money.ValidPricing, PaysThePrice, Settled, BidInWords;
    var at := states[|rounds|];
    AnswerIsPaidWithin(policy, maxRetries, at, last, o, p, payable, true);
    var s := EffectsOf(policy, at, last).settlement.value;
    var bid := BidsOf(Bidders(at, last))[s.winner];
    if |payable| == |s.verifiers| && IsMetered(bid) && BidInWords(bid, last.bytes) {
      AnswerHasFewVerifiers(policy, maxRetries, at, last, o);
      PriceIsPaid(s, p, bid, last.bytes, payable);
    }
  }

  lemma AnswerHasFewVerifiers(policy: Policy, maxRetries: nat, s: State, r: Round, o: QueryOutcome)
    requires Step(policy, maxRetries, s, r) == Finish(Answer(o)) && Faithful(policy, s, r)
    ensures EffectsOf(policy, s, r).settlement.Some?
    ensures |EffectsOf(policy, s, r).settlement.value.verifiers| < |r.collected|
  {
    hide Step, EffectsOf, Attempted, Commits, Faithful, Bidders, BidsOf, SelectedBids, BillingAborts;
    var g, caps := GroupsOf(r.collected), CapacityOf(Bidders(s, r));
    AnswerIsSettled(policy, maxRetries, s, r, o);
    SettlementIsSound(policy, r.inputs, g, caps, r.arrived, r.outcome);
    var i := CommitterWasSelected(policy, s, r, EffectsOf(policy, s, r).settlement.value.winner);
  }

  // ---- honest workers over the whole run ----

  /** A round among whose commits fewer than `quorum` are dishonest, and in which `x`, if it was sent the
      job, committed. */
  ghost predicate FairRound(policy: Policy, r: Round, honest: set<NodeId>, x: NodeId) {
    && NoDuplicates(WorkersOf(r.collected))
    && (exists h :: MostlyHonest(policy, r.inputs, GroupsOf(r.collected), r.outcome, honest, h))
    && (x in WorkersOf(r.collected) ==> x in CommitIds(Commits(r.collected)))
  }

  ghost predicate FaultReceipt(rs: seq<Receipt>, x: NodeId) {
    exists i :: 0 <= i < |rs| && rs[i].worker == x && IsProviderFault(rs[i].verdict)
  }

  /** `x` committed in a round that failed with one receipt for every committer. */
  predicate FailedWith(policy: Policy, s: State, r: Round, x: NodeId) {
    && Checked(policy, s, r).None? && x in CommitIds(Commits(r.collected))
    && FailsBlankly(policy, r.inputs, GroupsOf(r.collected), r.outcome)
  }

  /** Some round the run gets to failed so. */
  predicate EverFailedWith(policy: Policy, maxRetries: nat, s: State, rounds: seq<Round>, x: NodeId)
    decreases |rounds|
  {
    rounds != [] &&
    (FailedWith(policy, s, rounds[0], x)
     || match Step(policy, maxRetries, s, rounds[0])
        case Finish(_) => false
        case Continue(s') => EverFailedWith(policy, maxRetries, s', rounds[1..], x))
  }

  lemma RoundIsFair(policy: Policy, s: State, r: Round, honest: set<NodeId>, x: NodeId)
    requires FairRound(policy, r, honest, x) && x in honest
    ensures x !in EffectsOf(policy, s, r).penalised
    ensures FaultReceipt(EffectsOf(policy, s, r).receipts, x)
       <==> !policy.faultAttribution && FailedWith(policy, s, r, x)
  {
    hide Attempted, Checked, Commits, WorkersOf, MostlyHonest, CapacityOf, FailsBlankly, NoDuplicates;
    var g, caps := GroupsOf(r.collected), CapacityOf(Bidders(s, r));
    DistinctSelectionPartitions(r.collected);
    if Checked(policy, s, r).None? {
      if x in CommitIds(g.commits) {
        var h :| MostlyHonest(policy, r.inputs, g, r.outcome, honest, h);
        HonestWorkersAreSafe(policy, r.inputs, g, caps, r.arrived, r.outcome, honest, h, x);
      } else {
        assert x !in multiset(WorkersOf(r.collected));
        StrangersAreNotMentioned(policy, r.inputs, g, caps, r.arrived, r.outcome, x);
      }
    }
  }

  lemma FaultReceiptSplits(a: seq<Receipt>, b: seq<Receipt>, x: NodeId)
    ensures FaultReceipt(a + b, x) <==> FaultReceipt(a, x) || FaultReceipt(b, x)
  {
    hide IsProviderFault;
    if FaultReceipt(a, x) {
      var i :| 0 <= i < |a| && a[i].worker == x && IsProviderFault(a[i].verdict);
      assert (a + b)[i] == a[i];
    }
    if FaultReceipt(b, x) {
      var i :| 0 <= i < |b| && b[i].worker == x && IsProviderFault(b[i].verdict);
      assert (a + b)[|a| + i] == b[i];
    }
  }

  /** Over every run of the loop, an honest worker that commits whenever it is sent the job is never
      penalised, and the trust store receives a provider-fault receipt against it exactly when fault
      attribution is off and some round of the run it committed in failed with drift, or with enough
      commits and no agreement. */
  lemma {:induction false} WholeRunIsFair(policy: Policy, maxRetries: nat, s: State, rounds: seq<Round>,
                                          honest: set<NodeId>, x: NodeId)
    requires x in honest && forall r | r in rounds :: FairRound(policy, r, honest, x)
    ensures x !in PenalisedOf(Trace(policy, maxRetries, s, rounds))
    ensures FaultReceipt(ReceiptsOf(Trace(policy, maxRetries, s, rounds)), x)
       <==> !policy.faultAttribution && EverFailedWith(policy, maxRetries, s, rounds, x)
    decreases |rounds|
  {
    hide Step, EffectsOf, FailedWith, FairRound, FaultReceipt;
    if rounds == [] {
      NoReceiptNoFault(x);
    } else {
      var fx := EffectsOf(policy, s, rounds[0]);
      RoundIsFair(policy, s, rounds[0], honest, x);
      match Step(policy, maxRetries, s, rounds[0])
      case Finish(_) =>
        assert [fx][1..] == [] && fx.receipts + [] == fx.receipts;
      case Continue(s') =>
        var more := Trace(policy, maxRetries, s', rounds[1..]);
        assert ([fx] + more)[1..] == more;
        WholeRunIsFair(policy, maxRetries, s', rounds[1..], honest, x);
        FaultReceiptSplits(fx.receipts, ReceiptsOf(more), x);
    }
  }

  lemma NoReceiptNoFault(x: NodeId)
    ensures !FaultReceipt([], x)
  {}

  /** So the penalty the trust store held against such a worker before a run is the one it holds after it. */
  lemma StandingIsKept(policy: Policy, maxRetries: nat, rounds: seq<Round>, honest: set<NodeId>, x: NodeId,
                       before: map<NodeId, real>, penalty: real)
    requires x in honest && forall r | r in rounds :: FairRound(policy, r, honest, x)
    ensures var after := AddPenalties(before, PenalisedOf(Trace(policy, maxRetries, INITIAL, rounds)), penalty);
            (x in after <==> x in before) && (x in before ==> after[x] == before[x])
  {
    hide Trace, FairRound, AddPenalties;
    WholeRunIsFair(policy, maxRetries, INITIAL, rounds, honest, x);
    OthersKeepTheirPenalty(before, PenalisedOf(Trace(policy, maxRetries, INITIAL, rounds)), penalty, x);
  }

  /** How often the attempts of a run penalised `x`. */
  function PenaltiesOf(trace: seq<Effects>, x: NodeId): nat {
    if trace == [] then 0 else multiset(trace[0].penalised)[x] + PenaltiesOf(trace[1..], x)
  }

  lemma {:induction false} PenaltiesAreCounted(trace: seq<Effects>, x: NodeId)
    ensures multiset(PenalisedOf(trace))[x] == PenaltiesOf(trace, x)
  {
    if trace != [] { PenaltiesAreCounted(trace[1..], x); }
  }

  /** Over every run each worker's penalty grows by the amount times the number of times it was penalised. */
  lemma RunPenaltiesAddUp(policy: Policy, maxRetries: nat, rounds: seq<Round>, before: map<NodeId, real>, penalty: real,
                          x: NodeId)
    ensures var trace := Trace(policy, maxRetries, INITIAL, rounds);
            PenaltyOf(AddPenalties(before, PenalisedOf(trace), penalty), x)
            == PenaltyOf(before, x) + Booked(penalty, PenaltiesOf(trace, x))
  {
    hide Trace, AddPenalties, PenaltyOf, PenalisedOf, PenaltiesOf, Booked;
    var trace := Trace(policy, maxRetries, INITIAL, rounds);
    PenaltiesAreCounted(trace, x);
    PenaltiesAddUp(before, PenalisedOf(trace), penalty, x);
  }
}
