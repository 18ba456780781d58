/** One dispatch attempt of the requester (`dispatch_attempt` in `coordinator.rs`), from the
    collected outcomes of the dispatched workers to the attempt's result, receipts,
    penalties and broken commitments. */
module Attempt {
  import opened Wrappers
  import opened Identity
  import opened Sequences
  import opened Quorum
  import opened Verdicts
  import Metering

  datatype Mode = Fast | ByQuorum

  /** The parts of the configuration an attempt reads; `canary` is the known answer of a canary query. */
  datatype Policy = Policy(
    mode: Mode, quorum: nat, replicas: nat,
    faultAttribution: bool, consensusFraction: real, canary: Option<Hash>)

  /** The inputs of this attempt: the pinned fingerprint, if any, and whether results can be compared. */
  datatype Inputs = Inputs(pinned: Option<string>, verifiable: bool)

  datatype Commit = Commit(worker: NodeId, hash: Hash, latency: nat, fingerprint: string)

  datatype Collected = Committed(commit: Commit) | Failed(node: NodeId, detail: string) | Silent(node: NodeId)

  datatype Failure = Failure(node: NodeId, verdict: Verdict)

  /** The dispatched workers of an attempt by how they fared. */
  datatype Groups = Groups(commits: seq<Commit>, failed: seq<Failure>, silent: seq<NodeId>) {
    function Ids(): multiset<NodeId> {
      multiset(CommitIds(commits)) + multiset(FailureIds(failed)) + multiset(silent)
    }
    function Size(): nat { |commits| + |failed| + |silent| }
    function NotDelivering(): seq<NodeId> { FailureIds(failed) + silent }
  }

  datatype Receipt = Receipt(worker: NodeId, verdict: Verdict, hash: Hash, fingerprint: string, latency: nat)

  datatype QueryOutcome = QueryOutcome(
    agreed: Hash, agreement: nat, quorum: nat, verified: bool,
    winner: NodeId, participants: seq<NodeId>, receipts: seq<Receipt>)

  datatype AttemptResult =
    | Done(outcome: QueryOutcome)
    | Retry(tried: seq<NodeId>)
    | Unsatisfiable
    | TooBig(oomed: seq<NodeId>, maxTried: nat)
    | Disagreement(agreement: nat, quorum: nat)
    | InputDrift(drifted: nat)
    | NoCandidates
    | TooFewWorkers(have: nat, quorum: nat)

  /** What settlement is handed: the winner, the agreeing others, and the agreeing latencies. */
  datatype Settlement = Settlement(winner: NodeId, verifiers: seq<NodeId>, winnerLatency: nat, latencies: seq<nat>)

  /** What an attempt does to the world besides returning. */
  datatype Effects = Effects(
    receipts: seq<Receipt>, penalised: seq<NodeId>, failers: seq<NodeId>, settlement: Option<Settlement>)

  // ---- collecting ----

  function WorkerOf(c: Collected): NodeId {
    match c case Committed(f) => f.worker case Failed(n, _) => n case Silent(n) => n
  }

  function WorkersOf(cs: seq<Collected>): (ids: seq<NodeId>)
    ensures |ids| == |cs| && forall i | 0 <= i < |cs| :: ids[i] == WorkerOf(cs[i])
  {
    seq(|cs|, i requires 0 <= i < |cs| => WorkerOf(cs[i]))
  }

  function Commits(cs: seq<Collected>): seq<Commit> {
    if cs == [] then []
    else (match cs[0] case Committed(f) => [f] case _ => []) + Commits(cs[1..])
  }

  function Failures(cs: seq<Collected>): seq<Failure> {
    if cs == [] then []
    else (match cs[0] case Failed(n, detail) => [Failure(n, Classify(detail))] case _ => []) + Failures(cs[1..])
  }

  function Silents(cs: seq<Collected>): seq<NodeId> {
    if cs == [] then []
    else (match cs[0] case Silent(n) => [n] case _ => []) + Silents(cs[1..])
  }

  function CommitIds(fs: seq<Commit>): (ids: seq<NodeId>)
    ensures |ids| == |fs| && forall i | 0 <= i < |fs| :: ids[i] == fs[i].worker
  {
    seq(|fs|, i requires 0 <= i < |fs| => fs[i].worker)
  }

  function FailureIds(fs: seq<Failure>): (ids: seq<NodeId>)
    ensures |ids| == |fs| && forall i | 0 <= i < |fs| :: ids[i] == fs[i].node
  {
    seq(|fs|, i requires 0 <= i < |fs| => fs[i].node)
  }

  function KeysOf(fs: seq<Commit>): (ks: seq<CommitKey>)
    ensures |ks| == |fs| && forall i | 0 <= i < |fs| :: ks[i] == CommitKey(fs[i].fingerprint, fs[i].hash)
  {
    seq(|fs|, i requires 0 <= i < |fs| => CommitKey(fs[i].fingerprint, fs[i].hash))
  }

  function GroupsOf(cs: seq<Collected>): Groups { Groups(Commits(cs), Failures(cs), Silents(cs)) }

  lemma GrowByCommit(f: Commit, g: Groups)
    ensures g.(commits := [f] + g.commits).Ids() == multiset{f.worker} + g.Ids()
  {
    assert CommitIds([f] + g.commits) == [f.worker] + CommitIds(g.commits);
  }

  lemma GrowByFailure(f: Failure, g: Groups)
    ensures g.(failed := [f] + g.failed).Ids() == multiset{f.node} + g.Ids()
  {
    assert FailureIds([f] + g.failed) == [f.node] + FailureIds(g.failed);
  }

  lemma GroupGrows(c: Collected, g: Groups)
    ensures Groups(Commits([c]) + g.commits, Failures([c]) + g.failed, Silents([c]) + g.silent).Ids()
         == multiset{WorkerOf(c)} + g.Ids()
  {
    hide Classify, Commits, Failures, Silents;
    GroupsOfOne(c);
    assert [] + g.commits == g.commits && [] + g.failed == g.failed && [] + g.silent == g.silent;
    match c
    case Committed(f) => GrowByCommit(f, g);
    case Failed(n, detail) => GrowByFailure(Failure(n, Classify(detail)), g);
    case Silent(n) =>
  }

  lemma GroupsOfOne(c: Collected)
    ensures Commits([c]) == match c case Committed(f) => [f] case _ => []
    ensures Failures([c]) == match c case Failed(n, detail) => [Failure(n, Classify(detail))] case _ => []
    ensures Silents([c]) == match c case Silent(n) => [n] case _ => []
  {
    hide Classify;
    assert [c][1..] == [];
  }

  lemma GroupsOfCons(cs: seq<Collected>)
    requires cs != []
    ensures Commits(cs) == Commits([cs[0]]) + Commits(cs[1..])
    ensures Failures(cs) == Failures([cs[0]]) + Failures(cs[1..])
    ensures Silents(cs) == Silents([cs[0]]) + Silents(cs[1..])
  {
    hide Classify;
    GroupsOfOne(cs[0]);
  }

  /** Committed, failed and silent share out the dispatched workers, none lost and none twice. */
  lemma {:induction false} PartitionIsExact(cs: seq<Collected>)
    ensures multiset(WorkersOf(cs)) == GroupsOf(cs).Ids()
  {
    if cs != [] {
      PartitionIsExact(cs[1..]);
      assert WorkersOf(cs) == [WorkerOf(cs[0])] + WorkersOf(cs[1..]);
      GroupsOfCons(cs);
      GroupGrows(cs[0], GroupsOf(cs[1..]));
    }
  }

  lemma {:induction false} CollectedExtends(cs: seq<Collected>, c: Collected)
    ensures Commits(cs + [c]) == Commits(cs) + Commits([c])
    ensures Failures(cs + [c]) == Failures(cs) + Failures([c])
    ensures Silents(cs + [c]) == Silents(cs) + Silents([c])
  {
    if cs == [] {
      assert cs + [c] == [c];
    } else {
      hide Classify, Commits, Failures, Silents;
      assert (cs + [c])[1..] == cs[1..] + [c] && (cs + [c])[0] == cs[0];
      CollectedExtends(cs[1..], c);
      GroupsOfCons(cs);
      GroupsOfCons(cs + [c]);
      Associates(Commits([cs[0]]), Commits(cs[1..]), Commits([c]));
      Associates(Failures([cs[0]]), Failures(cs[1..]), Failures([c]));
      Associates(Silents([cs[0]]), Silents(cs[1..]), Silents([c]));
    }
  }

  /** The collecting loop: three vectors filled in the order the replies are joined. */
  method Collect(cs: seq<Collected>) returns (g: Groups)
    ensures g == GroupsOf(cs)
    ensures g.Ids() == multiset(WorkersOf(cs))
  {
    var inflight: seq<Commit>, failed: seq<Failure>, silent: seq<NodeId> := [], [], [];
    for i := 0 to |cs|
      invariant inflight == Commits(cs[..i]) && failed == Failures(cs[..i]) && silent == Silents(cs[..i])
    {
      assert cs[..i + 1] == cs[..i] + [cs[i]];
      CollectedExtends(cs[..i], cs[i]);
      GroupsOfOne(cs[i]);
      match cs[i] {
        case Committed(f) => inflight := inflight + [f];
        case Failed(n, detail) => failed := failed + [Failure(n, Classify(detail))];
        case Silent(n) => silent := silent + [n];
      }
    }
    assert cs[..|cs|] == cs;
    PartitionIsExact(cs);
    g := Groups(inflight, failed, silent);
  }

  // ---- choosing the agreed hash ----

  /** The fastest commit among the first `n` carrying `hash` (any hash when None); ties go to the earlier one. */
  function FastestUpTo(fs: seq<Commit>, hash: Option<Hash>, n: nat): (w: Option<nat>)
    requires n <= |fs|
    ensures w.Some? ==> w.value < n && (hash.Some? ==> fs[w.value].hash == hash.value)
    ensures w.Some? ==> forall j | 0 <= j < n && (hash.Some? ==> fs[j].hash == hash.value) ::
              if j < w.value then fs[w.value].latency < fs[j].latency else fs[w.value].latency <= fs[j].latency
    ensures w.None? <==> forall j | 0 <= j < n :: hash.Some? && fs[j].hash != hash.value
  {
    if n == 0 then None
    else
      var best := FastestUpTo(fs, hash, n - 1);
      if hash.Some? && fs[n - 1].hash != hash.value then best
      else if best.None? || fs[n - 1].latency < fs[best.value].latency then Some(n - 1)
      else best
  }

  function Fastest(fs: seq<Commit>, hash: Option<Hash>): Option<nat> { FastestUpTo(fs, hash, |fs|) }

  function CountVerdict(fs: seq<Failure>, v: Verdict): nat {
    if fs == [] then 0 else (if fs[0].verdict == v then 1 else 0) + CountVerdict(fs[1..], v)
  }

  function Oomed(fs: seq<Failure>): (ids: seq<NodeId>)
    ensures forall n | n in ids :: n in FailureIds(fs)
  {
    if fs == [] then []
    else
      assert FailureIds(fs) == [fs[0].node] + FailureIds(fs[1..]);
      (if fs[0].verdict.ResourceExceeded? then [fs[0].node] else []) + Oomed(fs[1..])
  }

  function MaxCapacity(ids: seq<NodeId>, capacity: map<NodeId, nat>): (m: nat)
    ensures forall n | n in ids && n in capacity :: capacity[n] <= m
    ensures m == 0 || exists n :: n in ids && n in capacity && capacity[n] == m
  {
    if ids == [] then 0
    else
      var rest := MaxCapacity(ids[1..], capacity);
      if ids[0] in capacity && capacity[ids[0]] > rest then capacity[ids[0]] else rest
  }

  datatype Decision = Proceed(agreed: Hash, verified: bool) | Halt(result: AttemptResult, blanket: bool)

  /** `o` is the tally of the commits that read the pinned snapshot. */
  ghost predicate IsPinnedOutcome(policy: Policy, inputs: Inputs, fs: seq<Commit>, o: Outcome) {
    IsOutcome(OnPinned(KeysOf(fs), inputs.pinned), policy.quorum, o)
  }

  function Drifted(inputs: Inputs, fs: seq<Commit>): nat { DriftCount(KeysOf(fs), inputs.pinned) }

  /** Steps 5 and 5a, given the tally `outcome` of the commits on the pinned snapshot: the drift check, then
      canary, non-verifiable, quorum or fast mode. `blanket` says the attempt writes one failure receipt to
      every committer. */
  function Decide(policy: Policy, inputs: Inputs, g: Groups, capacity: map<NodeId, nat>, outcome: Outcome): Decision {
    if policy.canary.None? && Drifted(inputs, g.commits) > 0 then Halt(InputDrift(Drifted(inputs, g.commits)), true)
    else if policy.canary.Some? then Proceed(policy.canary.value, true)
    else if !inputs.verifiable || policy.mode.Fast? then
      match Fastest(g.commits, None)
      case None => Halt(Retry(g.NotDelivering()), false)
      case Some(i) => Proceed(g.commits[i].hash, inputs.verifiable && outcome.agreed.Some?)
    else if outcome.split then Halt(Disagreement(outcome.agreement, outcome.quorum), true)
    else if outcome.agreed.Some? then Proceed(outcome.agreed.value, true)
    else NoQuorum(policy, g, capacity, outcome)
  }

  /** Quorum mode without a quorum: whose fault, and is it worth another attempt? */
  function NoQuorum(policy: Policy, g: Groups, capacity: map<NodeId, nat>, outcome: Outcome): Decision {
    var infeasible, oom := CountVerdict(g.failed, Infeasible), CountVerdict(g.failed, ResourceExceeded);
    if policy.faultAttribution && JobConsensus(infeasible, g.Size(), policy.consensusFraction) then
      Halt(Unsatisfiable, true)
    else if policy.faultAttribution && JobConsensus(oom, g.Size(), policy.consensusFraction) then
      Halt(TooBig(Oomed(g.failed), MaxCapacity(Oomed(g.failed), capacity)), true)
    else if |g.commits| >= policy.quorum then Halt(Disagreement(outcome.agreement, outcome.quorum), true)
    else Halt(Retry(g.NotDelivering()), false)
  }

  // ---- verdicts ----

  function VerdictOf(inputs: Inputs, agreed: Hash, arrived: bool, isWinner: bool, f: Commit): Verdict {
    if !inputs.verifiable then Inconclusive
    else if isWinner && !arrived then Inconclusive
    else if f.hash == agreed then Correct
    else if inputs.pinned.None? || f.fingerprint == inputs.pinned.value then Incorrect
    else Inconclusive
  }

  /** Vector `swap_remove`: the last element takes the freed place. */
  function SwapRemove<T>(s: seq<T>, i: nat): (r: seq<T>)
    requires i < |s|
    ensures |r| == |s| - 1
    ensures forall j | 0 <= j < |r| :: r[j] == if j == i then s[|s| - 1] else s[j]
  {
    var last := |s| - 1;
    if i == last then s[..last] else s[..last][i := s[last]]
  }

  lemma SwapRemoveKeepsTheRest<T>(s: seq<T>, i: nat)
    requires i < |s|
    ensures multiset(SwapRemove(s, i)) + multiset{s[i]} == multiset(s)
  {
    var last := |s| - 1;
    assert s == s[..last] + [s[last]];
    if i < last {
      assert s[..last] == s[..i] + [s[i]] + s[i + 1..last];
      assert SwapRemove(s, i) == s[..i] + [s[last]] + s[i + 1..last];
    }
  }

  /** Winner first, then the others in the order `swap_remove` leaves them. */
  function JudgingOrder(fs: seq<Commit>, winner: nat): seq<Commit>
    requires winner < |fs|
  {
    [fs[winner]] + SwapRemove(fs, winner)
  }

  function CommitReceipt(inputs: Inputs, agreed: Hash, arrived: bool, isWinner: bool, f: Commit): Receipt {
    Receipt(f.worker, VerdictOf(inputs, agreed, arrived, isWinner, f), f.hash, f.fingerprint, f.latency)
  }

  /** Receipts of the committers, the first of which is the winner. */
  function CommitReceipts(inputs: Inputs, agreed: Hash, arrived: bool, judged: seq<Commit>): (rs: seq<Receipt>)
    ensures |rs| == |judged|
    ensures forall i | 0 <= i < |judged| :: rs[i] == CommitReceipt(inputs, agreed, arrived, i == 0, judged[i])
  {
    seq(|judged|, i requires 0 <= i < |judged| => CommitReceipt(inputs, agreed, arrived, i == 0, judged[i]))
  }

  function PinnedOrEmpty(inputs: Inputs): string { if inputs.pinned.Some? then inputs.pinned.value else "" }

  function MissReceipt(inputs: Inputs, node: NodeId, verdict: Verdict): Receipt {
    Receipt(node, verdict, Hash(""), PinnedOrEmpty(inputs), 0)
  }

  function MissReceipts(inputs: Inputs, failed: seq<Failure>, silent: seq<NodeId>): (rs: seq<Receipt>)
    ensures |rs| == |silent| + |failed|
    ensures forall i | 0 <= i < |silent| :: rs[i] == MissReceipt(inputs, silent[i], Timeout)
    ensures forall i | 0 <= i < |failed| :: rs[|silent| + i] == MissReceipt(inputs, failed[i].node, failed[i].verdict)
  {
    seq(|silent|, i requires 0 <= i < |silent| => MissReceipt(inputs, silent[i], Timeout))
    + seq(|failed|, i requires 0 <= i < |failed| => MissReceipt(inputs, failed[i].node, failed[i].verdict))
  }

  function BlanketReceipt(policy: Policy, f: Commit): Receipt {
    Receipt(f.worker, if policy.faultAttribution then Inconclusive else Malformed, f.hash, f.fingerprint, f.latency)
  }

  function BlanketReceipts(policy: Policy, fs: seq<Commit>): (rs: seq<Receipt>)
    ensures |rs| == |fs| && forall i | 0 <= i < |fs| :: rs[i] == BlanketReceipt(policy, fs[i])
  {
    seq(|fs|, i requires 0 <= i < |fs| => BlanketReceipt(policy, fs[i]))
  }

  /** Workers whose receipt is a provider fault, in receipt order. */
  function Faulted(rs: seq<Receipt>): seq<NodeId> {
    if rs == [] then []
    else (if IsProviderFault(rs[0].verdict) then [rs[0].worker] else []) + Faulted(rs[1..])
  }

  function Agreeing(agreed: Hash, fs: seq<Commit>): seq<Commit> {
    if fs == [] then [] else (if fs[0].hash == agreed then [fs[0]] else []) + Agreeing(agreed, fs[1..])
  }

  function Latencies(fs: seq<Commit>): (ls: seq<nat>)
    ensures |ls| == |fs| && forall i | 0 <= i < |fs| :: ls[i] == fs[i].latency
  {
    seq(|fs|, i requires 0 <= i < |fs| => fs[i].latency)
  }

  function Verifiers(inputs: Inputs, agreed: Hash, judged: seq<Commit>): seq<Commit>
    requires judged != []
  {
    if inputs.verifiable then Agreeing(agreed, judged[1..]) else []
  }

  function SettlementFor(inputs: Inputs, agreed: Hash, judged: seq<Commit>): Settlement
    requires judged != []
  {
    var others := Verifiers(inputs, agreed, judged);
    Settlement(judged[0].worker, CommitIds(others), judged[0].latency, [judged[0].latency] + Latencies(others))
  }

  /** The receipts of a judged attempt: the committers', and once verified those of everybody who did not deliver. */
  function AllReceipts(inputs: Inputs, agreed: Hash, verified: bool, arrived: bool, g: Groups,
                       winner: nat): seq<Receipt>
    requires winner < |g.commits|
  {
    CommitReceipts(inputs, agreed, arrived, JudgingOrder(g.commits, winner))
    + if verified then MissReceipts(inputs, g.failed, g.silent) else []
  }

  /** What a judged attempt does; `failers` are those fined for a broken commitment when the job was paid. */
  function JudgedEffects(inputs: Inputs, agreed: Hash, verified: bool, arrived: bool, g: Groups, winner: nat): Effects
    requires winner < |g.commits|
  {
    var receipts := AllReceipts(inputs, agreed, verified, arrived, g, winner);
    var penalised := Faulted(receipts);
    Effects(receipts, penalised,
            if verified && arrived then penalised else [],
            if arrived then Some(SettlementFor(inputs, agreed, JudgingOrder(g.commits, winner))) else None)
  }

  function BlanketEffects(policy: Policy, g: Groups): Effects {
    Effects(BlanketReceipts(policy, g.commits), [], [], None)
  }

  /** Steps 6 and 7: pick the winner, judge everybody, and finish or retry. */
  function Conclude(policy: Policy, inputs: Inputs, g: Groups, agreed: Hash, verified: bool, arrived: bool,
                    outcome: Outcome)
    : (AttemptResult, Effects)
  {
    match Fastest(g.commits, Some(agreed))
    case None => (Retry(g.NotDelivering()), BlanketEffects(policy, g))
    case Some(w) =>
      var fx := JudgedEffects(inputs, agreed, verified, arrived, g, w);
      if arrived then
        (Done(QueryOutcome(agreed, outcome.agreement, outcome.quorum, verified, g.commits[w].worker,
                           CommitIds(g.commits), fx.receipts)), fx)
      else
        (Retry(g.NotDelivering()), fx)
  }

  /** The attempt after dispatch; `arrived` says whether the winner's result was delivered in time. */
  function Attempted(policy: Policy, inputs: Inputs, g: Groups, capacity: map<NodeId, nat>, arrived: bool,
                     outcome: Outcome)
    : (AttemptResult, Effects)
  {
    match Decide(policy, inputs, g, capacity, outcome)
    case Halt(result, blanket) =>
      (result, if blanket then BlanketEffects(policy, g) else Effects([], [], [], None))
    case Proceed(agreed, verified) => Conclude(policy, inputs, g, agreed, verified, arrived, outcome)
  }

  // ---- billing ----

  /** A metered winner is billed before settlement, and billing aborts when the two middle latencies do
      not fit a word together. */
  predicate BillingAborts(metered: set<NodeId>, fx: Effects) {
    fx.settlement.Some? && fx.settlement.value.winner in metered
    && Metering.MiddleOverflows(fx.settlement.value.latencies)
  }

  /** What the attempt returns, if it returns, and its effects: an abort in billing comes after the
      receipts and penalties but before settlement and fines. */
  function Billed(metered: set<NodeId>, attempt: (AttemptResult, Effects)): (Option<AttemptResult>, Effects) {
    if BillingAborts(metered, attempt.1) then (None, attempt.1.(failers := [], settlement := None))
    else (Some(attempt.0), attempt.1)
  }
}
