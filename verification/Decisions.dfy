/** Exactly when a dispatch attempt ends in which way, and whom it then holds at fault, read off the
    replies of the dispatched workers. */
module Decisions {
  import opened Wrappers
  import opened Identity
  import opened Sequences
  import opened Numbers
  import opened Quorum
  import opened Verdicts
  import opened Attempt
  import opened AttemptSafety

  // ---- the replies, by position ----

  function CommittedAt(cs: seq<Collected>): set<int> { set i | 0 <= i < |cs| && cs[i].Committed? }

  function CarriedAt(cs: seq<Collected>, h: Hash): set<int> {
    set i | 0 <= i < |cs| && cs[i].Committed? && cs[i].commit.hash == h
  }

  predicate FailsAs(c: Collected, v: Verdict) { c.Failed? && Classify(c.detail) == v }

  function FailedAs(cs: seq<Collected>, v: Verdict): set<int> { set i | 0 <= i < |cs| && FailsAs(cs[i], v) }

  /** A commit that names another snapshot than the pinned one; an empty fingerprint names none. */
  predicate Strays(inputs: Inputs, c: Collected) {
    && c.Committed? && inputs.pinned.Some?
    && c.commit.fingerprint != "" && c.commit.fingerprint != inputs.pinned.value
  }

  function DriftedAt(inputs: Inputs, cs: seq<Collected>): set<int> { set i | 0 <= i < |cs| && Strays(inputs, cs[i]) }

  lemma LastReply(cs: seq<Collected>)
    requires cs != []
    ensures cs == cs[..|cs| - 1] + [cs[|cs| - 1]]
  {}

  // Each of these sets grows by at most the last position.

  lemma CommittedGrows(cs: seq<Collected>, n: nat)
    requires n == |cs| - 1
    ensures |CommittedAt(cs)| == |CommittedAt(cs[..n])| + if cs[n].Committed? then 1 else 0
  {
    var all, before := CommittedAt(cs), CommittedAt(cs[..n]);
    assert all == if cs[n].Committed? then before + {n} else before;
  }

  lemma CarriedGrows(cs: seq<Collected>, h: Hash, n: nat)
    requires n == |cs| - 1
    ensures |CarriedAt(cs, h)| == |CarriedAt(cs[..n], h)| + if cs[n].Committed? && cs[n].commit.hash == h then 1 else 0
  {
    var all, before := CarriedAt(cs, h), CarriedAt(cs[..n], h);
    assert all == if cs[n].Committed? && cs[n].commit.hash == h then before + {n} else before;
  }

  lemma FailedGrows(cs: seq<Collected>, v: Verdict, n: nat)
    requires n == |cs| - 1
    ensures FailedAs(cs, v) == if FailsAs(cs[n], v) then FailedAs(cs[..n], v) + {n} else FailedAs(cs[..n], v)
    ensures |FailedAs(cs, v)| == |FailedAs(cs[..n], v)| + if FailsAs(cs[n], v) then 1 else 0
  {
    hide FailsAs;
    var all, before := FailedAs(cs, v), FailedAs(cs[..n], v);
    assert all == if FailsAs(cs[n], v) then before + {n} else before;
  }

  lemma DriftedGrows(inputs: Inputs, cs: seq<Collected>, n: nat)
    requires n == |cs| - 1
    ensures |DriftedAt(inputs, cs)| == |DriftedAt(inputs, cs[..n])| + if Strays(inputs, cs[n]) then 1 else 0
  {
    hide Strays;
    var all, before := DriftedAt(inputs, cs), DriftedAt(inputs, cs[..n]);
    assert all == if Strays(inputs, cs[n]) then before + {n} else before;
  }

  lemma {:induction false} CommitsCounted(cs: seq<Collected>)
    ensures |Commits(cs)| == |CommittedAt(cs)|
  {
    if cs != [] {
      hide Commits, CommittedAt;
      var n := |cs| - 1;
      CommitsCounted(cs[..n]);
      LastReply(cs);
      CollectedExtends(cs[..n], cs[n]);
      GroupsOfOne(cs[n]);
      CommittedGrows(cs, n);
    }
  }

  lemma {:induction false} CountVerdictAppends(a: seq<Failure>, b: seq<Failure>, v: Verdict)
    ensures CountVerdict(a + b, v) == CountVerdict(a, v) + CountVerdict(b, v)
  {
    if a == [] {
      assert a + b == b;
    } else {
      assert (a + b)[1..] == a[1..] + b;
      CountVerdictAppends(a[1..], b, v);
    }
  }

  lemma OneFailure(f: Failure, v: Verdict)
    ensures CountVerdict([f], v) == if f.verdict == v then 1 else 0
  {
    assert [f][1..] == [];
  }

  lemma {:induction false} FailuresCounted(cs: seq<Collected>, v: Verdict)
    ensures CountVerdict(Failures(cs), v) == |FailedAs(cs, v)|
  {
    if cs != [] {
      hide Failures, Classify, FailedAs;
      var n := |cs| - 1;
      FailuresCounted(cs[..n], v);
      LastReply(cs);
      CollectedExtends(cs[..n], cs[n]);
      GroupsOfOne(cs[n]);
      CountVerdictAppends(Failures(cs[..n]), Failures([cs[n]]), v);
      if cs[n].Failed? { OneFailure(Failure(cs[n].node, Classify(cs[n].detail)), v); }
      FailedGrows(cs, v, n);
    }
  }

  lemma KeysExtend(fs: seq<Commit>, f: Commit)
    ensures KeysOf(fs + [f]) == KeysOf(fs) + [CommitKey(f.fingerprint, f.hash)]
    ensures HashesOf(fs + [f]) == HashesOf(fs) + [f.hash]
  {}

  lemma {:induction false} DriftsCounted(inputs: Inputs, cs: seq<Collected>)
    ensures Drifted(inputs, Commits(cs)) == |DriftedAt(inputs, cs)|
  {
    if cs != [] {
      hide Commits, DriftCount, DriftedAt, KeysOf;
      var n := |cs| - 1;
      DriftsCounted(inputs, cs[..n]);
      LastReply(cs);
      CollectedExtends(cs[..n], cs[n]);
      GroupsOfOne(cs[n]);
      DriftedGrows(inputs, cs, n);
      if cs[n].Committed? {
        var f := cs[n].commit;
        KeysExtend(Commits(cs[..n]), f);
        SplitByPin(KeysOf(Commits(cs[..n])), CommitKey(f.fingerprint, f.hash), inputs.pinned);
      } else {
        assert Commits(cs) == Commits(cs[..n]);
      }
    }
  }

  lemma {:induction false} HashesCounted(cs: seq<Collected>, h: Hash)
    ensures multiset(HashesOf(Commits(cs)))[h] == |CarriedAt(cs, h)|
  {
    if cs != [] {
      hide Commits, HashesOf, CarriedAt;
      var n := |cs| - 1;
      HashesCounted(cs[..n], h);
      LastReply(cs);
      CollectedExtends(cs[..n], cs[n]);
      GroupsOfOne(cs[n]);
      CarriedGrows(cs, h, n);
      if cs[n].Committed? {
        KeysExtend(Commits(cs[..n]), cs[n].commit);
      } else {
        assert Commits(cs) == Commits(cs[..n]);
      }
    }
  }

  // ---- who ran out of memory ----

  lemma {:induction false} OomedAppends(a: seq<Failure>, b: seq<Failure>)
    ensures Oomed(a + b) == Oomed(a) + Oomed(b)
  {
    if a == [] {
      assert a + b == b;
    } else {
      hide FailureIds;
      var first := if a[0].verdict.ResourceExceeded? then [a[0].node] else [];
      assert (a + b)[0] == a[0] && (a + b)[1..] == a[1..] + b;
      OomedAppends(a[1..], b);
      Associates(first, Oomed(a[1..]), Oomed(b));
    }
  }

  lemma OneOomed(f: Failure)
    ensures Oomed([f]) == if f.verdict.ResourceExceeded? then [f.node] else []
  {
    assert [f][1..] == [];
  }

  ghost predicate FailedSo(cs: seq<Collected>, v: Verdict, x: NodeId) {
    exists i :: 0 <= i < |cs| && FailsAs(cs[i], v) && WorkerOf(cs[i]) == x
  }

  lemma FailedSoGrows(cs: seq<Collected>, v: Verdict, x: NodeId, n: nat)
    requires n == |cs| - 1
    ensures FailedSo(cs, v, x) <==> FailedSo(cs[..n], v, x) || (FailsAs(cs[n], v) && WorkerOf(cs[n]) == x)
  {
    hide FailsAs, WorkerOf;
    if i :| 0 <= i < n && FailsAs(cs[..n][i], v) && WorkerOf(cs[..n][i]) == x { assert cs[i] == cs[..n][i]; }
    if i :| 0 <= i < |cs| && FailsAs(cs[i], v) && WorkerOf(cs[i]) == x { assert i < n ==> cs[..n][i] == cs[i]; }
  }

  /** The reported workers are those whose failure was classed as out of memory. */
  lemma {:induction false} OomedAreExact(cs: seq<Collected>, x: NodeId)
    ensures |Oomed(Failures(cs))| == |FailedAs(cs, ResourceExceeded)|
    ensures x in Oomed(Failures(cs)) <==> FailedSo(cs, ResourceExceeded, x)
  {
    if cs != [] {
      hide Failures, Classify, Oomed, FailedAs, FailedSo;
      var n := |cs| - 1;
      OomedAreExact(cs[..n], x);
      LastReply(cs);
      CollectedExtends(cs[..n], cs[n]);
      GroupsOfOne(cs[n]);
      OomedAppends(Failures(cs[..n]), Failures([cs[n]]));
      if cs[n].Failed? {
        OneOomed(Failure(cs[n].node, Classify(cs[n].detail)));
      } else {
        assert Failures(cs) == Failures(cs[..n]);
      }
      FailedGrows(cs, ResourceExceeded, n);
      FailedSoGrows(cs, ResourceExceeded, x, n);
    }
  }

  // ---- how a comparable attempt in quorum mode ends ----

  /** At least two of at least two workers, and at least the configured fraction of them. */
  predicate EnoughAlike(same: nat, all: nat, fraction: real) {
    var f := if fraction < 0.0 then 0.0 else if fraction > 1.0 then 1.0 else fraction;
    all >= 2 && same >= 2 && f * all as real <= same as real
  }

  lemma ConsensusIsExact(same: nat, all: nat, fraction: real)
    ensures JobConsensus(same, all, fraction) <==> EnoughAlike(same, all, fraction)
  {
    CeilIsLeast(Clamp01(fraction) * all as real, same);
    hide CeilReal;
  }

  /** As many failed alike as the policy takes for the job's own fault. */
  predicate JobsFault(policy: Policy, cs: seq<Collected>, v: Verdict) {
    policy.faultAttribution && EnoughAlike(|FailedAs(cs, v)|, |cs|, policy.consensusFraction)
  }

  lemma SizeIsAll(cs: seq<Collected>)
    ensures GroupsOf(cs).Size() == |cs|
  {
    PartitionIsExact(cs);
    hide Commits, Failures, Silents;
    var g := GroupsOf(cs);
    assert |multiset(WorkersOf(cs))| == |cs| && |g.Ids()| == g.Size();
  }

  lemma NoQuorumIsExact(policy: Policy, cs: seq<Collected>, capacity: map<NodeId, nat>, outcome: Outcome)
    ensures var g := GroupsOf(cs);
            var infeasible, big := JobsFault(policy, cs, Infeasible), JobsFault(policy, cs, ResourceExceeded);
            NoQuorum(policy, g, capacity, outcome)
            == if infeasible then Halt(Unsatisfiable, true)
               else if big then Halt(TooBig(Oomed(g.failed), MaxCapacity(Oomed(g.failed), capacity)), true)
               else if |CommittedAt(cs)| >= policy.quorum
               then Halt(Disagreement(outcome.agreement, outcome.quorum), true)
               else Halt(Retry(g.NotDelivering()), false)
  {
    hide Commits, Failures, Silents, FailedAs, CommittedAt, EnoughAlike, JobConsensus, CountVerdict;
    SizeIsAll(cs);
    CommitsCounted(cs);
    FailuresCounted(cs, Infeasible);
    FailuresCounted(cs, ResourceExceeded);
    ConsensusIsExact(|FailedAs(cs, Infeasible)|, |cs|, policy.consensusFraction);
    ConsensusIsExact(|FailedAs(cs, ResourceExceeded)|, |cs|, policy.consensusFraction);
  }

  /** Some commit carries `h`, and a quorum of them do. */
  predicate Reaches(cs: seq<Collected>, quorum: nat, h: Hash) {
    CarriedAt(cs, h) != {} && |CarriedAt(cs, h)| >= quorum
  }

  /** How an attempt without drift ends when no hash reaches quorum, by the replies alone. */
  ghost predicate EndsWithoutQuorum(policy: Policy, cs: seq<Collected>, result: AttemptResult) {
    var infeasible, big := JobsFault(policy, cs, Infeasible), JobsFault(policy, cs, ResourceExceeded);
    && (result.Unsatisfiable? <==> infeasible)
    && (result.TooBig? <==> !infeasible && big)
    && (result.Disagreement? <==> !infeasible && !big && |CommittedAt(cs)| >= policy.quorum)
    && (result.Retry? <==> !infeasible && !big && |CommittedAt(cs)| < policy.quorum)
    && (result.TooBig? ==> forall x :: x in result.oomed <==> FailedSo(cs, ResourceExceeded, x))
  }

  /** How any attempt of a comparable job in quorum mode ends. */
  ghost predicate EndsByQuorum(policy: Policy, inputs: Inputs, cs: seq<Collected>, arrived: bool,
                               result: AttemptResult) {
    if DriftedAt(inputs, cs) != {} then result == InputDrift(|DriftedAt(inputs, cs)|)
    else if exists a, b :: a != b && Reaches(cs, policy.quorum, a) && Reaches(cs, policy.quorum, b) then
      result.Disagreement?
    else if exists h :: Reaches(cs, policy.quorum, h) then
      if arrived then result.Done? && Reaches(cs, policy.quorum, result.outcome.agreed) && result.outcome.verified
      else result.Retry?
    else EndsWithoutQuorum(policy, cs, result)
  }

  lemma ReachesIsMeets(cs: seq<Collected>, quorum: nat, h: Hash)
    ensures Reaches(cs, quorum, h) <==> Meets(HashesOf(Commits(cs)), quorum, h)
  {
    hide Commits, HashesOf;
    HashesCounted(cs, h);
    var hs := HashesOf(Commits(cs));
    assert h in hs <==> multiset(hs)[h] > 0;
    assert CarriedAt(cs, h) != {} <==> |CarriedAt(cs, h)| > 0;
  }

  lemma OutcomeOnReplies(policy: Policy, inputs: Inputs, cs: seq<Collected>, outcome: Outcome)
    requires IsPinnedOutcome(policy, inputs, Commits(cs), outcome) && DriftedAt(inputs, cs) == {}
    ensures outcome.split <==> exists a, b :: a != b && Reaches(cs, policy.quorum, a) && Reaches(cs, policy.quorum, b)
    ensures outcome.agreed.Some? ==> Reaches(cs, policy.quorum, outcome.agreed.value)
    ensures !outcome.split && outcome.agreed.None? ==> forall h :: !Reaches(cs, policy.quorum, h)
    ensures outcome.agreed.Some? ==> !outcome.split
  {
    hide Commits, HashesOf, Reaches, DriftedAt, IsBestCount;
    DriftsCounted(inputs, cs);
    NoDriftOutcome(policy, inputs, Commits(cs), outcome);
    forall h ensures Reaches(cs, policy.quorum, h) <==> Meets(HashesOf(Commits(cs)), policy.quorum, h) {
      ReachesIsMeets(cs, policy.quorum, h);
    }
    hide Meets;
    if !outcome.split && outcome.agreed.None? {
      forall h ensures !Reaches(cs, policy.quorum, h) {
        assert outcome.agreed == Some(h) <==> false;
      }
    }
  }

  /** Whatever the replies are, a comparable attempt in quorum mode ends as they say: in drift, in a split, with
      the one hash that reached quorum, or as the classes of the failures and the number of commits decide. */
  lemma QuorumModeIsExact(policy: Policy, inputs: Inputs, cs: seq<Collected>, capacity: map<NodeId, nat>,
                          arrived: bool, outcome: Outcome)
    requires Comparable(policy, inputs) && policy.mode.ByQuorum?
    requires IsPinnedOutcome(policy, inputs, Commits(cs), outcome)
    ensures var result := Attempted(policy, inputs, GroupsOf(cs), capacity, arrived, outcome).0;
            EndsByQuorum(policy, inputs, cs, arrived, result)
  {
    hide Commits, Failures, Silents, DriftedAt, Reaches, NoQuorum, IsPinnedOutcome, JobsFault, FailedSo, CommittedAt,
      JudgedEffects, BlanketEffects, Oomed, MaxCapacity;
    DriftsCounted(inputs, cs);
    if DriftedAt(inputs, cs) == {} {
      OutcomeOnReplies(policy, inputs, cs, outcome);
      if outcome.agreed.Some? {
        AgreedIsCarried(cs, policy.quorum, outcome.agreed.value);
      } else if !outcome.split {
        NoQuorumIsExact(policy, cs, capacity, outcome);
        forall x ensures x in Oomed(Failures(cs)) <==> FailedSo(cs, ResourceExceeded, x) { OomedAreExact(cs, x); }
      }
    }
  }

  lemma AgreedIsCarried(cs: seq<Collected>, quorum: nat, h: Hash)
    requires Reaches(cs, quorum, h)
    ensures Fastest(Commits(cs), Some(h)).Some?
  {
    hide Commits, Fastest;
    ReachesIsMeets(cs, quorum, h);
    HashHasCommit(Commits(cs), h);
  }

  /** When every one of at least two workers runs out of memory, the attempt says so and names them all. */
  lemma EverybodyOutOfMemory(policy: Policy, inputs: Inputs, cs: seq<Collected>, capacity: map<NodeId, nat>,
                             arrived: bool, outcome: Outcome)
    requires Comparable(policy, inputs) && policy.mode.ByQuorum? && policy.faultAttribution && |cs| >= 2
    requires IsPinnedOutcome(policy, inputs, Commits(cs), outcome)
    requires forall i | 0 <= i < |cs| :: FailsAs(cs[i], ResourceExceeded)
    ensures var result := Attempted(policy, inputs, GroupsOf(cs), capacity, arrived, outcome).0;
            result.TooBig? && forall x :: x in result.oomed <==> x in WorkersOf(cs)
  {
    hide Commits, IsPinnedOutcome, Attempted, Classify, GroupsOf, Comparable, DriftedAt, CommittedAt, CarriedAt,
      FailedAs, FailedSo, FailsAs, EnoughAlike, Reaches, JobsFault;
    QuorumModeIsExact(policy, inputs, cs, capacity, arrived, outcome);
    NobodyCommitted(inputs, cs, ResourceExceeded);
    EverybodyFailed(cs, ResourceExceeded);
    OnlyMemoryIsToBlame(policy, cs);
  }

  lemma OnlyMemoryIsToBlame(policy: Policy, cs: seq<Collected>)
    requires FailedAs(cs, Infeasible) == {} && |FailedAs(cs, ResourceExceeded)| == |cs| >= 2 && policy.faultAttribution
    ensures !JobsFault(policy, cs, Infeasible) && JobsFault(policy, cs, ResourceExceeded)
  {
    AllAreEnough(|cs|, policy.consensusFraction);
  }

  lemma NobodyCommitted(inputs: Inputs, cs: seq<Collected>, v: Verdict)
    requires forall i | 0 <= i < |cs| :: FailsAs(cs[i], v)
    ensures DriftedAt(inputs, cs) == {} && forall h, quorum :: !Reaches(cs, quorum, h)
  {}

  lemma EverybodyFailed(cs: seq<Collected>, v: Verdict)
    requires forall i | 0 <= i < |cs| :: FailsAs(cs[i], v)
    ensures |FailedAs(cs, v)| == |cs| && forall w | w != v :: FailedAs(cs, w) == {}
    ensures forall x :: FailedSo(cs, v, x) <==> x in WorkersOf(cs)
  {
    hide Classify;
    EverybodyCounts(cs, v);
    forall x | x in WorkersOf(cs) ensures FailedSo(cs, v, x) {
      var i :| 0 <= i < |cs| && WorkersOf(cs)[i] == x;
      assert FailsAs(cs[i], v);
    }
  }

  lemma {:induction false} EverybodyCounts(cs: seq<Collected>, v: Verdict)
    requires forall i | 0 <= i < |cs| :: FailsAs(cs[i], v)
    ensures |FailedAs(cs, v)| == |cs|
  {
    hide FailsAs, FailedAs;
    if cs == [] {
      NobodyFails(v);
    } else {
      EverybodyCounts(cs[..|cs| - 1], v);
      FailedGrows(cs, v, |cs| - 1);
    }
  }

  lemma NobodyFails(v: Verdict)
    ensures |FailedAs([], v)| == 0
  {}

  lemma AllAreEnough(all: nat, fraction: real)
    requires all >= 2
    ensures EnoughAlike(all, all, fraction)
  {
    var f := if fraction < 0.0 then 0.0 else if fraction > 1.0 then 1.0 else fraction;
    assert (1.0 - f) * all as real >= 0.0;
  }

  // ---- the other modes ----

  /** A canary is delivered, verified, exactly when somebody committed its known answer and it arrived; any other
      attempt outside quorum mode delivers the fastest commit, whoever agrees with it. */
  lemma OtherModesAreExact(policy: Policy, inputs: Inputs, cs: seq<Collected>, capacity: map<NodeId, nat>,
                           arrived: bool, outcome: Outcome)
    requires policy.canary.Some? || !inputs.verifiable || policy.mode.Fast?
    ensures var result := Attempted(policy, inputs, GroupsOf(cs), capacity, arrived, outcome).0;
            if policy.canary.Some? then
              if arrived && CarriedAt(cs, policy.canary.value) != {}
              then result.Done? && result.outcome.agreed == policy.canary.value && result.outcome.verified
              else result.Retry?
            else if DriftedAt(inputs, cs) != {} then result == InputDrift(|DriftedAt(inputs, cs)|)
            else if arrived && CommittedAt(cs) != {} then
              && result.Done? && (result.outcome.verified <==> inputs.verifiable && outcome.agreed.Some?)
              && exists w :: 0 <= w < |Commits(cs)| && IsFirst(Commits(cs), w)
                          && Commits(cs)[w].hash == result.outcome.agreed
            else result.Retry?
  {
    hide Commits, Failures, Silents, DriftedAt, NoQuorum, CommittedAt, JudgedEffects, BlanketEffects, CarriedAt;
    DriftsCounted(inputs, cs);
    CommitsCounted(cs);
    if policy.canary.Some? {
      CarriedIsFound(cs, policy.canary.value);
    } else if CommittedAt(cs) != {} {
      assert |CommittedAt(cs)| > 0;
      var w := Fastest(Commits(cs), None).value;
      assert IsFirst(Commits(cs), w);
    }
  }

  /** The commit at `w` is faster than every earlier one and no slower than any later one. */
  predicate IsFirst(fs: seq<Commit>, w: nat)
    requires w < |fs|
  {
    forall j | 0 <= j < |fs| :: if j < w then fs[w].latency < fs[j].latency else fs[w].latency <= fs[j].latency
  }

  lemma CarriedIsFound(cs: seq<Collected>, h: Hash)
    ensures CarriedAt(cs, h) != {} <==> Fastest(Commits(cs), Some(h)).Some?
  {
    hide Commits;
    HashesCounted(cs, h);
    var fs := Commits(cs);
    var hs := HashesOf(fs);
    assert h in hs <==> multiset(hs)[h] > 0;
    assert CarriedAt(cs, h) != {} <==> |CarriedAt(cs, h)| > 0;
    if h in hs { HashHasCommit(fs, h); }
    if j :| 0 <= j < |fs| && fs[j].hash == h { assert hs[j] == h; }
  }

  // ---- whom an attempt holds at fault ----

  lemma {:induction false} FailuresAreNoFaults(cs: seq<Collected>)
    ensures forall f | f in Failures(cs) :: !IsProviderFault(f.verdict)
  {
    if cs != [] { FailuresAreNoFaults(cs[1..]); }
  }

  /** A commit that carries another hash than the answer on provably the same inputs. */
  ghost predicate Contradicts(inputs: Inputs, answer: Hash, fs: seq<Commit>, x: NodeId) {
    exists k :: 0 <= k < |fs| && fs[k].worker == x && Faulty(inputs, answer, fs[k])
  }

  lemma JudgedFaults(inputs: Inputs, agreed: Hash, verified: bool, arrived: bool, g: Groups, w: nat, i: nat)
    requires w < |g.commits| && g.commits[w].hash == agreed && forall f | f in g.failed :: !IsProviderFault(f.verdict)
    requires i < |AllReceipts(inputs, agreed, verified, arrived, g, w)|
    ensures var r := AllReceipts(inputs, agreed, verified, arrived, g, w)[i];
            IsProviderFault(r.verdict) ==>
              || (inputs.verifiable && Contradicts(inputs, agreed, g.commits, r.worker))
              || (verified && r.worker in g.silent)
  {
    hide JudgingOrder;
    JudgingOrderKeepsWorkers(g.commits, w);
    var judged := JudgingOrder(g.commits, w);
    assert |judged| == |g.commits| by { assert |multiset(judged)| == |multiset(g.commits)|; }
    var rs, miss := AllReceipts(inputs, agreed, verified, arrived, g, w), MissReceipts(inputs, g.failed, g.silent);
    if i < |judged| {
      assert judged[i] in multiset(judged);
      var k :| 0 <= k < |g.commits| && g.commits[k] == judged[i];
      assert rs[i] == CommitReceipt(inputs, agreed, arrived, i == 0, judged[i]);
    } else if i - |judged| < |g.silent| {
      assert rs[i] == miss[i - |judged|] && g.silent[i - |judged|] in g.silent;
    } else {
      var m := i - |judged| - |g.silent|;
      assert rs[i] == miss[|g.silent| + m] && g.failed[m] in g.failed;
    }
  }

  lemma SilenceIsAFault(inputs: Inputs, agreed: Hash, arrived: bool, g: Groups, w: nat, x: NodeId)
    requires w < |g.commits| && x in g.silent
    ensures x in JudgedEffects(inputs, agreed, true, arrived, g, w).penalised
  {
    var j :| 0 <= j < |g.silent| && g.silent[j] == x;
    var rs := AllReceipts(inputs, agreed, true, arrived, g, w);
    assert rs[|JudgingOrder(g.commits, w)| + j] == MissReceipts(inputs, g.failed, g.silent)[j];
    FaultedMeans(rs, x);
  }

  lemma JudgedExactly(inputs: Inputs, agreed: Hash, verified: bool, arrived: bool, g: Groups, w: nat, x: NodeId)
    requires w < |g.commits| && g.commits[w].hash == agreed && forall f | f in g.failed :: !IsProviderFault(f.verdict)
    ensures var fx := JudgedEffects(inputs, agreed, verified, arrived, g, w);
            && (x in fx.penalised <==>
                  || (inputs.verifiable && Contradicts(inputs, agreed, g.commits, x)) || (verified && x in g.silent))
            && fx.failers == if verified && arrived then fx.penalised else []
  {
    hide AllReceipts, Faulty, SettlementFor;
    var rs := AllReceipts(inputs, agreed, verified, arrived, g, w);
    FaultedMeans(rs, x);
    if i :| 0 <= i < |rs| && rs[i].worker == x && IsProviderFault(rs[i].verdict) {
      JudgedFaults(inputs, agreed, verified, arrived, g, w, i);
    }
    if inputs.verifiable && Contradicts(inputs, agreed, g.commits, x) {
      var k :| 0 <= k < |g.commits| && g.commits[k].worker == x && Faulty(inputs, agreed, g.commits[k]);
      FaultIsBlamed(inputs, agreed, verified, arrived, g, w, k);
    }
    if verified && x in g.silent { SilenceIsAFault(inputs, agreed, arrived, g, w, x); }
  }

  /** Whoever an attempt penalises: with an answer to judge by, exactly those whose commit contradicts it on the
      same inputs and, once the answer is verified, those that stayed silent; without one, nobody. Once a
      verified result arrived, the same workers are charged with a broken commitment. */
  lemma PenalisedExactly(policy: Policy, inputs: Inputs, cs: seq<Collected>, capacity: map<NodeId, nat>,
                         arrived: bool, outcome: Outcome, x: NodeId)
    ensures var fx := Attempted(policy, inputs, GroupsOf(cs), capacity, arrived, outcome).1;
            var d := Decide(policy, inputs, GroupsOf(cs), capacity, outcome);
            if d.Halt? || CarriedAt(cs, d.agreed) == {} then fx.penalised == [] && fx.failers == []
            else
              && (x in fx.penalised <==>
                    || (inputs.verifiable && Contradicts(inputs, d.agreed, Commits(cs), x))
                    || (d.verified && x in Silents(cs)))
              && fx.failers == if d.verified && arrived then fx.penalised else []
  {
    hide Decide, Commits, Failures, Silents, CarriedAt, JudgedEffects, Contradicts, Fastest;
    match Decide(policy, inputs, GroupsOf(cs), capacity, outcome)
    case Halt(_, _) =>
    case Proceed(answer, verified) =>
      CarriedIsFound(cs, answer);
      FailuresAreNoFaults(cs);
      if CarriedAt(cs, answer) != {} {
        var w := Fastest(Commits(cs), Some(answer)).value;
        FastestCarries(Commits(cs), answer);
        JudgedExactly(inputs, answer, verified, arrived, GroupsOf(cs), w, x);
      }
  }

  lemma FastestCarries(fs: seq<Commit>, h: Hash)
    requires Fastest(fs, Some(h)).Some?
    ensures var w := Fastest(fs, Some(h)).value; w < |fs| && fs[w].hash == h
  {}

  // ---- receipts ----

  /** The one receipt of a judged commit: correct if it carries the answer, incorrect if it contradicts it,
      inconclusive if that cannot be told or it is the winner's and the result never came. */
  lemma CommitterReceipt(inputs: Inputs, agreed: Hash, verified: bool, arrived: bool, g: Groups, w: nat, k: nat)
    returns (j: nat)
    requires w < |g.commits| && k < |g.commits| && g.commits[w].hash == agreed
    ensures var rs, f := AllReceipts(inputs, agreed, verified, arrived, g, w), g.commits[k];
            && j < |rs| && rs[j] == Receipt(f.worker, rs[j].verdict, f.hash, f.fingerprint, f.latency)
            && (rs[j].verdict.Correct? <==> inputs.verifiable && f.hash == agreed && (arrived || k != w))
            && (rs[j].verdict.Incorrect? <==> inputs.verifiable && Faulty(inputs, agreed, f))
            && (rs[j].verdict.Correct? || rs[j].verdict.Incorrect? || rs[j].verdict.Inconclusive?)
  {
    var fs := g.commits;
    j := if k == w then 0 else if k == |fs| - 1 then w + 1 else k + 1;
    assert JudgingOrder(fs, w)[j] == fs[k];
    assert AllReceipts(inputs, agreed, verified, arrived, g, w)[j]
        == CommitReceipt(inputs, agreed, arrived, j == 0, fs[k]);
  }

  /** An attempt that gives up writes one receipt per committer, inconclusive or, without fault attribution,
      malformed; one that only asks for another attempt writes none. Neither penalises or settles. */
  lemma FailureReceiptsAreExact(policy: Policy, inputs: Inputs, g: Groups, capacity: map<NodeId, nat>, arrived: bool,
                                outcome: Outcome)
    requires Decide(policy, inputs, g, capacity, outcome).Halt?
    ensures var (result, fx) := Attempted(policy, inputs, g, capacity, arrived, outcome);
            && fx.penalised == [] && fx.failers == [] && fx.settlement.None?
            && |fx.receipts| == (if result.Retry? then 0 else |g.commits|)
            && forall i | 0 <= i < |fx.receipts| ::
                 var f := g.commits[i];
                 fx.receipts[i] == Receipt(f.worker, if policy.faultAttribution then Inconclusive else Malformed,
                                           f.hash, f.fingerprint, f.latency)
  {
  }

  /** Once an answer is verified, whoever stayed silent is booked as timed out and whoever failed under the class of
      its failure. */
  lemma MissedReceiptsAreExact(inputs: Inputs, agreed: Hash, arrived: bool, g: Groups, w: nat, k: nat)
    requires w < |g.commits|
    ensures var rs, n := AllReceipts(inputs, agreed, true, arrived, g, w), |g.commits|;
            var pinned := if inputs.pinned.Some? then inputs.pinned.value else "";
            && |rs| == n + |g.silent| + |g.failed|
            && (k < |g.silent| ==> rs[n + k] == Receipt(g.silent[k], Timeout, Hash(""), pinned, 0))
            && (k < |g.failed| ==>
                  rs[n + |g.silent| + k] == Receipt(g.failed[k].node, g.failed[k].verdict, Hash(""), pinned, 0))
  {
    var own := CommitReceipts(inputs, agreed, arrived, JudgingOrder(g.commits, w));
    var miss := MissReceipts(inputs, g.failed, g.silent);
    assert |own| == |g.commits|;
    hide CommitReceipts, MissReceipts, JudgingOrder, CommitReceipt;
    if k < |g.silent| { BehindOwn(own, miss, k); }
    if k < |g.failed| { BehindOwn(own, miss, |g.silent| + k); }
  }

  lemma BehindOwn(own: seq<Receipt>, miss: seq<Receipt>, i: nat)
    requires i < |miss|
    ensures (own + miss)[|own| + i] == miss[i]
  {}

  // ---- the answer and its settlement ----

  lemma {:induction false} AgreeingCounted(agreed: Hash, fs: seq<Commit>, f: Commit)
    ensures multiset(Agreeing(agreed, fs))[f] == if f.hash == agreed then multiset(fs)[f] else 0
  {
    if fs != [] {
      AgreeingCounted(agreed, fs[1..], f);
      assert fs == [fs[0]] + fs[1..];
    }
  }

  /** Settlement is handed the fastest commit on the answer as the winner and, of a comparable job, all others on
      the answer as verifiers, each with its own latency. */
  lemma SettlementIsExact(policy: Policy, inputs: Inputs, cs: seq<Collected>, capacity: map<NodeId, nat>,
                          arrived: bool, outcome: Outcome) returns (w: nat, others: seq<Commit>)
    requires Attempted(policy, inputs, GroupsOf(cs), capacity, arrived, outcome).0.Done?
    ensures var (result, fx) := Attempted(policy, inputs, GroupsOf(cs), capacity, arrived, outcome);
            var fs, answer := Commits(cs), result.outcome.agreed;
            && w < |fs| && fs[w].hash == answer && result.outcome.winner == fs[w].worker
            && (forall j | 0 <= j < |fs| && fs[j].hash == answer ::
                  if j < w then fs[w].latency < fs[j].latency else fs[w].latency <= fs[j].latency)
            && fx.settlement == Some(Settlement(fs[w].worker, CommitIds(others), fs[w].latency,
                                                [fs[w].latency] + Latencies(others)))
            && (if inputs.verifiable
                then forall f :: multiset([fs[w]] + others)[f] == if f.hash == answer then multiset(fs)[f] else 0
                else others == [])
  {
    hide Commits, Failures, Silents, Attempted, Decide, AllReceipts, Faulted;
    var g := GroupsOf(cs);
    DoneShape(policy, inputs, g, capacity, arrived, outcome);
    var answer := Attempted(policy, inputs, g, capacity, arrived, outcome).0.outcome.agreed;
    w := Fastest(g.commits, Some(answer)).value;
    var judged := JudgingOrder(g.commits, w);
    others := Verifiers(inputs, answer, judged);
    AllOnTheAnswer(answer, g.commits, w);
    hide Agreeing, JudgingOrder;
  }

  lemma AllOnTheAnswer(answer: Hash, fs: seq<Commit>, w: nat)
    requires w < |fs| && fs[w].hash == answer
    ensures var judged := JudgingOrder(fs, w);
            && judged[0] == fs[w]
            && forall f :: multiset([fs[w]] + Agreeing(answer, judged[1..]))[f]
                        == if f.hash == answer then multiset(fs)[f] else 0
  {
    hide Agreeing;
    var judged := JudgingOrder(fs, w);
    JudgingOrderKeepsWorkers(fs, w);
    assert judged == [judged[0]] + judged[1..];
    forall f ensures multiset([fs[w]] + Agreeing(answer, judged[1..]))[f]
                  == if f.hash == answer then multiset(fs)[f] else 0
    {
      AgreeingCounted(answer, judged[1..], f);
    }
  }

  /** What an answer in quorum mode reports: the number of commits that carry it, the quorum they had to reach, and
      everybody that committed. */
  lemma AnswerIsExact(policy: Policy, inputs: Inputs, cs: seq<Collected>, capacity: map<NodeId, nat>,
                      arrived: bool, outcome: Outcome)
    requires Comparable(policy, inputs) && policy.mode.ByQuorum?
    requires IsPinnedOutcome(policy, inputs, Commits(cs), outcome)
    requires Attempted(policy, inputs, GroupsOf(cs), capacity, arrived, outcome).0.Done?
    ensures var o := Attempted(policy, inputs, GroupsOf(cs), capacity, arrived, outcome).0.outcome;
            && o.agreement == |CarriedAt(cs, o.agreed)| >= o.quorum == policy.quorum
            && o.participants == CommitIds(Commits(cs))
  {
    hide Commits, Failures, Silents, NoQuorum, JudgedEffects, BlanketEffects;
    var g := GroupsOf(cs);
    DoneShape(policy, inputs, g, capacity, arrived, outcome);
    ProceedMeansQuorum(policy, inputs, g, capacity, outcome);
    NoDriftOutcome(policy, inputs, g.commits, outcome);
    BestIsAgreed(HashesOf(g.commits), policy.quorum, outcome);
    HashesCounted(cs, outcome.agreed.value);
  }

  lemma BestIsAgreed(hs: seq<Hash>, quorum: nat, o: Outcome)
    requires IsOutcome(hs, quorum, o) && o.agreed.Some?
    ensures o.agreement == multiset(hs)[o.agreed.value] >= quorum
  {
    var h := o.agreed.value;
    assert Meets(hs, quorum, h);
    var best :| best in hs && multiset(hs)[best] == o.agreement;
    assert Meets(hs, quorum, best);
  }
}
