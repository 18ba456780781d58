/** What one dispatch attempt guarantees: fault attribution, receipts, routing and settlement. */
module AttemptSafety {
  import opened Wrappers
  import opened Identity
  import opened Sequences
  import opened Quorum
  import opened Verdicts
  import opened Attempt
  import Money
  import Metering

  // ---- nobody is dispatched to twice ----

  ghost predicate NobodyTwice(g: Groups) { forall x :: g.Ids()[x] <= 1 }

  lemma {:induction false} DistinctOnce(ids: seq<NodeId>, x: NodeId)
    requires NoDuplicates(ids)
    ensures multiset(ids)[x] <= 1
  {
    if ids != [] {
      DistinctOnce(ids[1..], x);
      assert ids == [ids[0]] + ids[1..];
    }
  }

  /** With distinct selected ids, committed, failed and silent partition the dispatched workers. */
  lemma DistinctSelectionPartitions(cs: seq<Collected>)
    requires NoDuplicates(WorkersOf(cs))
    ensures NobodyTwice(GroupsOf(cs)) && GroupsOf(cs).Ids() == multiset(WorkersOf(cs))
  {
    PartitionIsExact(cs);
    forall x ensures GroupsOf(cs).Ids()[x] <= 1 { DistinctOnce(WorkersOf(cs), x); }
  }

  lemma GroupsAreDisjoint(g: Groups, x: NodeId)
    requires NobodyTwice(g) && x in CommitIds(g.commits)
    ensures x !in FailureIds(g.failed) && x !in g.silent
  {
    assert g.Ids()[x] <= 1;
    assert multiset(CommitIds(g.commits))[x] >= 1;
    assert x in FailureIds(g.failed) ==> multiset(FailureIds(g.failed))[x] >= 1;
    assert x in g.silent ==> multiset(g.silent)[x] >= 1;
  }

  // ---- routing ----

  lemma HaltShape(policy: Policy, inputs: Inputs, g: Groups, capacity: map<NodeId, nat>, outcome: Outcome)
    requires Decide(policy, inputs, g, capacity, outcome).Halt?
    ensures var result := Decide(policy, inputs, g, capacity, outcome).result;
            && !result.Done?
            && (result.Retry? ==> result.tried == g.NotDelivering())
            && (result.TooBig? ==>
                  result.oomed == Oomed(g.failed) && result.maxTried == MaxCapacity(Oomed(g.failed), capacity))
  {
  }

  lemma RetryShape(policy: Policy, inputs: Inputs, g: Groups, capacity: map<NodeId, nat>, arrived: bool,
                   outcome: Outcome)
    ensures var result := Attempted(policy, inputs, g, capacity, arrived, outcome).0;
            && (result.Retry? ==> result.tried == g.NotDelivering())
            && (result.TooBig? ==>
                  result.oomed == Oomed(g.failed) && result.maxTried == MaxCapacity(Oomed(g.failed), capacity))
  {
    if Decide(policy, inputs, g, capacity, outcome).Halt? {
      HaltShape(policy, inputs, g, capacity, outcome);
    }
  }

  /** A retry routes around exactly the dispatched workers that did not commit: a worker that
      committed is never excluded by its own attempt. */
  lemma CommittersStayEligible(policy: Policy, inputs: Inputs, g: Groups, capacity: map<NodeId, nat>, arrived: bool,
                               outcome: Outcome)
    requires NobodyTwice(g)
    ensures var result := Attempted(policy, inputs, g, capacity, arrived, outcome).0;
            && (result.Retry? ==> g.Ids() == multiset(CommitIds(g.commits)) + multiset(result.tried))
            && (result.Retry? ==> forall x | x in CommitIds(g.commits) :: x !in result.tried)
            && (result.TooBig? ==> forall x | x in CommitIds(g.commits) :: x !in result.oomed)
  {
    RetryShape(policy, inputs, g, capacity, arrived, outcome);
    forall x | x in CommitIds(g.commits) ensures x !in g.NotDelivering() && x !in Oomed(g.failed) {
      GroupsAreDisjoint(g, x);
    }
  }

  // ---- receipts ----

  function ReceiptWorkers(rs: seq<Receipt>): (ids: seq<NodeId>)
    ensures |ids| == |rs| && forall i | 0 <= i < |rs| :: ids[i] == rs[i].worker
  {
    seq(|rs|, i requires 0 <= i < |rs| => rs[i].worker)
  }

  lemma JudgingOrderKeepsWorkers(fs: seq<Commit>, w: nat)
    requires w < |fs|
    ensures multiset(CommitIds(JudgingOrder(fs, w))) == multiset(CommitIds(fs))
    ensures multiset(JudgingOrder(fs, w)) == multiset(fs)
  {
    SwapRemoveKeepsTheRest(CommitIds(fs), w);
    assert CommitIds(JudgingOrder(fs, w)) == [fs[w].worker] + SwapRemove(CommitIds(fs), w);
    SwapRemoveKeepsTheRest(fs, w);
  }

  lemma ReceiptsCoverEverybody(inputs: Inputs, agreed: Hash, arrived: bool, g: Groups, w: nat)
    requires w < |g.commits|
    ensures multiset(ReceiptWorkers(AllReceipts(inputs, agreed, true, arrived, g, w))) == g.Ids()
  {
    var judged := JudgingOrder(g.commits, w);
    JudgingOrderKeepsWorkers(g.commits, w);
    var own, miss := CommitReceipts(inputs, agreed, arrived, judged), MissReceipts(inputs, g.failed, g.silent);
    MissWorkers(inputs, g.failed, g.silent);
    assert ReceiptWorkers(own) == CommitIds(judged);
    hide CommitReceipts, MissReceipts, JudgingOrder, CommitReceipt, MissReceipt;
    assert ReceiptWorkers(own + miss) == ReceiptWorkers(own) + ReceiptWorkers(miss);
  }

  lemma MissWorkers(inputs: Inputs, failed: seq<Failure>, silent: seq<NodeId>)
    ensures ReceiptWorkers(MissReceipts(inputs, failed, silent)) == silent + FailureIds(failed)
  {
    var miss := MissReceipts(inputs, failed, silent);
    forall i | 0 <= i < |miss| ensures miss[i].worker == (silent + FailureIds(failed))[i] {
      if i >= |silent| { assert miss[|silent| + (i - |silent|)].worker == failed[i - |silent|].node; }
    }
  }

  lemma DoneShape(policy: Policy, inputs: Inputs, g: Groups, capacity: map<NodeId, nat>, arrived: bool,
                  outcome: Outcome)
    requires Attempted(policy, inputs, g, capacity, arrived, outcome).0.Done?
    ensures var (result, fx) := Attempted(policy, inputs, g, capacity, arrived, outcome);
            var d := Decide(policy, inputs, g, capacity, outcome);
            var agreed := result.outcome.agreed;
            && d == Proceed(agreed, result.outcome.verified) && arrived
            && Fastest(g.commits, Some(agreed)).Some?
            && var w := Fastest(g.commits, Some(agreed)).value;
               && result.outcome.winner == g.commits[w].worker && result.outcome.receipts == fx.receipts
               && fx == JudgedEffects(inputs, agreed, result.outcome.verified, arrived, g, w)
  {
  }

  /** A verified result comes with exactly one receipt for every dispatched worker. */
  lemma OneReceiptPerWorker(policy: Policy, inputs: Inputs, g: Groups, capacity: map<NodeId, nat>, arrived: bool,
                            outcome: Outcome)
    requires var (result, _) := Attempted(policy, inputs, g, capacity, arrived, outcome);
             result.Done? && result.outcome.verified
    ensures var (result, fx) := Attempted(policy, inputs, g, capacity, arrived, outcome);
            multiset(ReceiptWorkers(result.outcome.receipts)) == g.Ids()
  {
    DoneShape(policy, inputs, g, capacity, arrived, outcome);
    var agreed := Attempted(policy, inputs, g, capacity, arrived, outcome).0.outcome.agreed;
    ReceiptsCoverEverybody(inputs, agreed, arrived, g, Fastest(g.commits, Some(agreed)).value);
  }

  lemma {:induction false} FaultedMeans(rs: seq<Receipt>, x: NodeId)
    ensures x in Faulted(rs) <==> exists i :: 0 <= i < |rs| && rs[i].worker == x && IsProviderFault(rs[i].verdict)
  {
    if rs != [] {
      FaultedMeans(rs[1..], x);
      assert forall i | 0 < i < |rs| :: rs[i] == rs[1..][i - 1];
      if i :| 0 <= i < |rs| - 1 && rs[1..][i].worker == x && IsProviderFault(rs[1..][i].verdict) {
        assert rs[i + 1] == rs[1..][i];
      }
    }
  }

  // ---- blame ----

  /** Some receipt, penalty or broken-commitment entry holds the provider at fault. */
  ghost predicate Blamed(fx: Effects, x: NodeId) {
    || x in fx.penalised || x in fx.failers
    || exists i :: 0 <= i < |fx.receipts| && fx.receipts[i].worker == x && IsProviderFault(fx.receipts[i].verdict)
  }

  lemma JudgedIsACommit(fs: seq<Commit>, w: nat, i: nat)
    requires w < |fs| && i < |JudgingOrder(fs, w)|
    ensures JudgingOrder(fs, w)[i] in fs
  {
  }

  /** A receipt of a judged attempt belongs to a committer or to somebody who did not deliver. */
  lemma ReceiptOrigin(inputs: Inputs, agreed: Hash, verified: bool, arrived: bool, g: Groups, w: nat, i: nat)
    requires w < |g.commits| && i < |AllReceipts(inputs, agreed, verified, arrived, g, w)|
    ensures var r := AllReceipts(inputs, agreed, verified, arrived, g, w)[i];
            || (exists f, isWinner :: f in g.commits && r == CommitReceipt(inputs, agreed, arrived, isWinner, f))
            || r.worker in g.silent || r.worker in FailureIds(g.failed)
  {
    hide CommitReceipt;
    var judged := JudgingOrder(g.commits, w);
    var miss := MissReceipts(inputs, g.failed, g.silent);
    if i < |judged| {
      JudgedIsACommit(g.commits, w, i);
      hide JudgingOrder;
    } else if i - |judged| < |g.silent| {
      assert miss[i - |judged|].worker == g.silent[i - |judged|];
    } else {
      var m := i - |judged| - |g.silent|;
      assert miss[|g.silent| + m].worker == FailureIds(g.failed)[m];
    }
  }

  /** If no commit of `x` can earn a provider-fault verdict, a judged attempt does not blame `x`. */
  lemma NoFaultNoBlame(inputs: Inputs, agreed: Hash, verified: bool, arrived: bool, g: Groups, w: nat, x: NodeId)
    requires NobodyTwice(g) && x in CommitIds(g.commits) && w < |g.commits|
    requires forall f, isWinner | f in g.commits && f.worker == x ::
               !IsProviderFault(VerdictOf(inputs, agreed, arrived, isWinner, f))
    ensures !Blamed(JudgedEffects(inputs, agreed, verified, arrived, g, w), x)
  {
    var receipts := AllReceipts(inputs, agreed, verified, arrived, g, w);
    GroupsAreDisjoint(g, x);
    FaultedMeans(receipts, x);
    forall i | 0 <= i < |receipts| && receipts[i].worker == x ensures !IsProviderFault(receipts[i].verdict) {
      ReceiptOrigin(inputs, agreed, verified, arrived, g, w, i);
    }
  }

  /** Nobody but the dispatched workers gets a receipt or a penalty. */
  lemma StrangersAreNotMentioned(policy: Policy, inputs: Inputs, g: Groups, capacity: map<NodeId, nat>, arrived: bool,
                                 outcome: Outcome, x: NodeId)
    requires x !in g.Ids()
    ensures var fx := Attempted(policy, inputs, g, capacity, arrived, outcome).1;
            x !in fx.penalised && forall i | 0 <= i < |fx.receipts| :: fx.receipts[i].worker != x
  {
    hide Decide, Faulted, AllReceipts;
    assert forall i | 0 <= i < |g.commits| :: g.commits[i].worker != x by {
      forall i | 0 <= i < |g.commits| ensures g.commits[i].worker != x {
        assert CommitIds(g.commits)[i] in multiset(CommitIds(g.commits));
      }
    }
    match Decide(policy, inputs, g, capacity, outcome)
    case Halt(_, _) =>
    case Proceed(agreed, verified) =>
      if Fastest(g.commits, Some(agreed)).Some? {
        var w := Fastest(g.commits, Some(agreed)).value;
        StrangersGetNoReceipt(inputs, agreed, verified, arrived, g, w, x);
        FaultedMeans(AllReceipts(inputs, agreed, verified, arrived, g, w), x);
      }
  }

  lemma StrangersGetNoReceipt(inputs: Inputs, agreed: Hash, verified: bool, arrived: bool, g: Groups, w: nat, x: NodeId)
    requires w < |g.commits| && x !in g.Ids()
    ensures var rs := AllReceipts(inputs, agreed, verified, arrived, g, w);
            forall i | 0 <= i < |rs| :: rs[i].worker != x
  {
    hide AllReceipts;
    var rs := AllReceipts(inputs, agreed, verified, arrived, g, w);
    forall i | 0 <= i < |rs| ensures rs[i].worker != x {
      ReceiptOrigin(inputs, agreed, verified, arrived, g, w, i);
      if f, isWinner :| f in g.commits && rs[i] == CommitReceipt(inputs, agreed, arrived, isWinner, f) {
        var k :| 0 <= k < |g.commits| && g.commits[k] == f;
        assert CommitIds(g.commits)[k] in multiset(CommitIds(g.commits));
      } else {
        assert rs[i].worker in g.silent ==> rs[i].worker in multiset(g.silent);
        assert rs[i].worker in FailureIds(g.failed) ==> rs[i].worker in multiset(FailureIds(g.failed));
      }
    }
  }

  /** A commit on another hash than the agreed one, on provably the same inputs. */
  predicate Faulty(inputs: Inputs, agreed: Hash, f: Commit) {
    f.hash != agreed && (inputs.pinned.None? || f.fingerprint == inputs.pinned.value)
  }

  /** Conversely a faulty commit of a comparable job is blamed and penalised. */
  lemma FaultIsBlamed(inputs: Inputs, agreed: Hash, verified: bool, arrived: bool, g: Groups, w: nat, k: nat)
    requires inputs.verifiable && w < |g.commits| && k < |g.commits|
    requires g.commits[w].hash == agreed && Faulty(inputs, agreed, g.commits[k])
    ensures g.commits[k].worker in JudgedEffects(inputs, agreed, verified, arrived, g, w).penalised
  {
    var fs := g.commits;
    var receipts := AllReceipts(inputs, agreed, verified, arrived, g, w);
    var j := if k == |fs| - 1 then w + 1 else k + 1;
    assert JudgingOrder(fs, w)[j] == fs[k];
    assert receipts[j] == CommitReceipt(inputs, agreed, arrived, false, fs[k]);
    FaultedMeans(receipts, fs[k].worker);
  }

  /** The receipts of a failed attempt blame its committers exactly when fault attribution is off. */
  lemma BlanketBlame(policy: Policy, g: Groups, x: NodeId)
    requires x in CommitIds(g.commits)
    ensures Blamed(BlanketEffects(policy, g), x) <==> !policy.faultAttribution
  {
    var k :| 0 <= k < |g.commits| && CommitIds(g.commits)[k] == x;
    assert BlanketReceipts(policy, g.commits)[k].worker == x;
  }

  // ---- honest workers in quorum mode ----

  function CountOutside(fs: seq<Commit>, honest: set<NodeId>): nat {
    if fs == [] then 0 else (if fs[0].worker in honest then 0 else 1) + CountOutside(fs[1..], honest)
  }

  function CountInside(fs: seq<Commit>, honest: set<NodeId>): nat {
    if fs == [] then 0 else (if fs[0].worker in honest then 1 else 0) + CountInside(fs[1..], honest)
  }

  predicate HonestAgree(fs: seq<Commit>, honest: set<NodeId>, h: Hash) {
    forall f | f in fs && f.worker in honest :: f.hash == h
  }

  /** All commit hashes of an attempt. */
  function HashesOf(fs: seq<Commit>): seq<Hash> { Hashes(KeysOf(fs)) }

  lemma CountOfCons(fs: seq<Commit>, h: Hash)
    requires fs != []
    ensures multiset(HashesOf(fs))[h] == multiset(HashesOf(fs[1..]))[h] + if fs[0].hash == h then 1 else 0
  {
    assert HashesOf(fs) == [fs[0].hash] + HashesOf(fs[1..]);
  }

  lemma {:induction false} OtherHashesAreFew(fs: seq<Commit>, honest: set<NodeId>, h: Hash, g: Hash)
    requires HonestAgree(fs, honest, h) && g != h
    ensures multiset(HashesOf(fs))[g] <= CountOutside(fs, honest)
  {
    if fs != [] {
      hide HashesOf;
      assert fs == [fs[0]] + fs[1..];
      OtherHashesAreFew(fs[1..], honest, h, g);
      CountOfCons(fs, g);
    }
  }

  lemma {:induction false} HonestHashIsFrequent(fs: seq<Commit>, honest: set<NodeId>, h: Hash)
    requires HonestAgree(fs, honest, h)
    ensures multiset(HashesOf(fs))[h] >= CountInside(fs, honest)
  {
    if fs != [] {
      hide HashesOf;
      assert fs == [fs[0]] + fs[1..];
      HonestHashIsFrequent(fs[1..], honest, h);
      CountOfCons(fs, h);
    }
  }

  /** A comparable, non-canary job. */
  predicate Comparable(policy: Policy, inputs: Inputs) { policy.canary.None? && inputs.verifiable }

  /** The hypothesis of the honest-worker theorems. */
  ghost predicate MostlyHonest(policy: Policy, inputs: Inputs, g: Groups, outcome: Outcome, honest: set<NodeId>,
                               h: Hash) {
    && IsPinnedOutcome(policy, inputs, g.commits, outcome)
    && Comparable(policy, inputs) && policy.mode.ByQuorum?
    && HonestAgree(g.commits, honest, h) && CountOutside(g.commits, honest) < policy.quorum
  }

  lemma ProceedMeansQuorum(policy: Policy, inputs: Inputs, g: Groups, capacity: map<NodeId, nat>, outcome: Outcome)
    requires Comparable(policy, inputs) && policy.mode.ByQuorum?
    requires Decide(policy, inputs, g, capacity, outcome).Proceed?
    ensures var d := Decide(policy, inputs, g, capacity, outcome);
            d.verified && Drifted(inputs, g.commits) == 0 && outcome.agreed == Some(d.agreed)
  {
  }

  lemma NoDriftOutcome(policy: Policy, inputs: Inputs, fs: seq<Commit>, o: Outcome)
    requires Drifted(inputs, fs) == 0 && IsPinnedOutcome(policy, inputs, fs, o)
    ensures IsOutcome(HashesOf(fs), policy.quorum, o)
  {
    NoDriftMeansAll(KeysOf(fs), inputs.pinned);
  }

  lemma HashHasCommit(fs: seq<Commit>, h: Hash)
    requires h in HashesOf(fs)
    ensures exists f :: f in fs && f.hash == h
    ensures Fastest(fs, Some(h)).Some?
  {
    var i :| 0 <= i < |fs| && HashesOf(fs)[i] == h;
    assert fs[i] in fs && fs[i].hash == h;
  }

  /** With fewer than `quorum` dishonest commits, the only hash an attempt can proceed on is the honest one. */
  lemma OnlyTheHonestHashProceeds(policy: Policy, inputs: Inputs, g: Groups, capacity: map<NodeId, nat>,
                                  outcome: Outcome, honest: set<NodeId>, h: Hash)
    requires MostlyHonest(policy, inputs, g, outcome, honest, h)
             && Decide(policy, inputs, g, capacity, outcome).Proceed?
    ensures Decide(policy, inputs, g, capacity, outcome) == Proceed(h, true)
    ensures multiset(HashesOf(g.commits))[h] >= policy.quorum && Fastest(g.commits, Some(h)).Some?
  {
    var agreed := Decide(policy, inputs, g, capacity, outcome).agreed;
    ProceedMeansQuorum(policy, inputs, g, capacity, outcome);
    NoDriftOutcome(policy, inputs, g.commits, outcome);
    assert Meets(HashesOf(g.commits), policy.quorum, agreed);
    if agreed != h { OtherHashesAreFew(g.commits, honest, h, agreed); }
    HashHasCommit(g.commits, agreed);
  }

  /** Conversely `quorum` honest commits on the pinned snapshot carry the attempt. */
  lemma HonestQuorumProceeds(policy: Policy, inputs: Inputs, g: Groups, capacity: map<NodeId, nat>, outcome: Outcome,
                             honest: set<NodeId>, h: Hash)
    requires MostlyHonest(policy, inputs, g, outcome, honest, h)
    requires CountInside(g.commits, honest) >= policy.quorum && Drifted(inputs, g.commits) == 0
    ensures Decide(policy, inputs, g, capacity, outcome) == Proceed(h, true)
  {
    var hs := HashesOf(g.commits);
    NoDriftOutcome(policy, inputs, g.commits, outcome);
    HonestHashIsFrequent(g.commits, honest, h);
    assert h in multiset(hs);
    assert Meets(hs, policy.quorum, h);
    forall x | Meets(hs, policy.quorum, x) ensures x == h {
      if x != h { OtherHashesAreFew(g.commits, honest, h, x); }
    }
    assert outcome.agreed == Some(h);
  }

  /** The guards of the branches that write one failure receipt to every committer: some commit read
      other inputs, or enough workers committed without any hash being agreed. */
  predicate FailsBlankly(policy: Policy, inputs: Inputs, g: Groups, outcome: Outcome) {
    Drifted(inputs, g.commits) > 0 || (outcome.agreed.None? && |g.commits| >= policy.quorum)
  }

  lemma HaltsBlankly(policy: Policy, inputs: Inputs, g: Groups, capacity: map<NodeId, nat>, outcome: Outcome,
                     honest: set<NodeId>, h: Hash)
    requires MostlyHonest(policy, inputs, g, outcome, honest, h)
    ensures var d := Decide(policy, inputs, g, capacity, outcome);
            !policy.faultAttribution ==> ((d.Halt? && d.blanket) <==> FailsBlankly(policy, inputs, g, outcome))
  {
    if Drifted(inputs, g.commits) == 0 && outcome.split {
      NoDriftOutcome(policy, inputs, g.commits, outcome);
      var hs := HashesOf(g.commits);
      var a, b :| a != b && Meets(hs, policy.quorum, a) && Meets(hs, policy.quorum, b);
      OtherHashesAreFew(g.commits, honest, h, if a != h then a else b);
    }
  }

  lemma DecidesCleanly(policy: Policy, inputs: Inputs, g: Groups, capacity: map<NodeId, nat>, outcome: Outcome,
                       honest: set<NodeId>, h: Hash)
    requires MostlyHonest(policy, inputs, g, outcome, honest, h)
    ensures var d := Decide(policy, inputs, g, capacity, outcome);
            if d.Halt? then !d.result.Done? else !FailsBlankly(policy, inputs, g, outcome)
  {
    if Decide(policy, inputs, g, capacity, outcome).Proceed? {
      ProceedMeansQuorum(policy, inputs, g, capacity, outcome);
    }
  }

  lemma HonestCommitsAreFaultless(policy: Policy, inputs: Inputs, g: Groups, arrived: bool, outcome: Outcome,
                                  honest: set<NodeId>, h: Hash, x: NodeId)
    requires MostlyHonest(policy, inputs, g, outcome, honest, h) && x in honest
    ensures forall f, isWinner | f in g.commits && f.worker == x ::
              !IsProviderFault(VerdictOf(inputs, h, arrived, isWinner, f))
  {
  }

  /** The honest-worker theorem. In quorum mode with fewer than `quorum` dishonest commits, a finished
      attempt returns the honest hash backed by a quorum of commits; no honest committer is ever
      penalised or charged with a broken commitment; and one is blamed in a receipt exactly when fault
      attribution is switched off and some commit drifted, or enough committed without agreeing. */
  lemma HonestWorkersAreSafe(policy: Policy, inputs: Inputs, g: Groups, capacity: map<NodeId, nat>, arrived: bool,
                             outcome: Outcome, honest: set<NodeId>, h: Hash, x: NodeId)
    requires MostlyHonest(policy, inputs, g, outcome, honest, h) && NobodyTwice(g)
    requires x in honest && x in CommitIds(g.commits)
    ensures var (result, fx) := Attempted(policy, inputs, g, capacity, arrived, outcome);
            && (result.Done? ==>
                  && result.outcome.agreed == h && result.outcome.verified
                  && multiset(HashesOf(g.commits))[h] >= policy.quorum
                  && !Blamed(fx, x))
            && x !in fx.penalised && x !in fx.failers
            && (Blamed(fx, x) <==> !policy.faultAttribution && FailsBlankly(policy, inputs, g, outcome))
  {
    hide JudgedEffects, FailsBlankly, MostlyHonest, Decide, NobodyTwice, BlanketReceipts;
    HaltsBlankly(policy, inputs, g, capacity, outcome, honest, h);
    DecidesCleanly(policy, inputs, g, capacity, outcome, honest, h);
    match Decide(policy, inputs, g, capacity, outcome)
    case Proceed(_, _) =>
      OnlyTheHonestHashProceeds(policy, inputs, g, capacity, outcome, honest, h);
      HonestCommitsAreFaultless(policy, inputs, g, arrived, outcome, honest, h, x);
      NoFaultNoBlame(inputs, h, true, arrived, g, Fastest(g.commits, Some(h)).value, x);
    case Halt(_, _) =>
      BlanketBlame(policy, g, x);
  }

  /** The honest committer of a two-worker attempt that reached no quorum gets a provider-fault receipt
      when fault attribution is off. */
  lemma HonestCommitterIsBlamed()
    returns (policy: Policy, inputs: Inputs, g: Groups, outcome: Outcome, honest: set<NodeId>, x: NodeId)
    ensures MostlyHonest(policy, inputs, g, outcome, honest, Hash("good")) && NobodyTwice(g)
    ensures x in honest && x in CommitIds(g.commits)
    ensures exists i :: 0 <= i < |Attempted(policy, inputs, g, map[], true, outcome).1.receipts|
                     && Attempted(policy, inputs, g, map[], true, outcome).1.receipts[i].worker == x
                     && Attempted(policy, inputs, g, map[], true, outcome).1.receipts[i].verdict == Malformed
  {
    var a, liar := Commit(NodeId("a"), Hash("good"), 1, ""), Commit(NodeId("liar"), Hash("bad"), 2, "");
    policy, inputs, g := Policy(ByQuorum, 2, 2, false, 0.67, None), Inputs(None, true), Groups([a, liar], [], []);
    outcome, honest, x := Outcome(None, 1, 2, false), {NodeId("a")}, NodeId("a");
    NoDriftMeansAll(KeysOf(g.commits), None);
    TwoApart(a, liar, outcome);
    OnlyCommitters(g.commits);
    LiarOutside(a, liar, honest);
    assert CommitIds(g.commits)[0] == x;
    BlanketDisagreement(policy, inputs, g, outcome);
  }

  lemma LiarOutside(a: Commit, liar: Commit, honest: set<NodeId>)
    requires liar.worker !in honest && a.worker in honest
    ensures CountOutside([a, liar], honest) == 1
  {
    assert [a, liar][1..] == [liar];
    assert CountOutside([liar], honest) == 1 + CountOutside([liar][1..], honest);
  }

  lemma BlanketDisagreement(policy: Policy, inputs: Inputs, g: Groups, outcome: Outcome)
    requires Comparable(policy, inputs) && policy.mode.ByQuorum? && !policy.faultAttribution
    requires |g.commits| >= policy.quorum > 0 && outcome.agreed.None? && Drifted(inputs, g.commits) == 0
    ensures var rs := Attempted(policy, inputs, g, map[], true, outcome).1.receipts;
            |rs| > 0 && rs[0].worker == g.commits[0].worker && rs[0].verdict == Malformed
  {
    hide Drifted;
  }

  lemma TwoApart(a: Commit, b: Commit, o: Outcome)
    requires a.hash != b.hash && o == Outcome(None, 1, 2, false)
    ensures IsOutcome(HashesOf([a, b]), 2, o)
  {
    var hs := HashesOf([a, b]);
    assert hs == [a.hash, b.hash];
    assert multiset(hs)[a.hash] == 1 && multiset(hs)[b.hash] == 1;
  }

  // ---- fast mode ----

  lemma RepeatedTwice(ids: seq<NodeId>, lo: nat, hi: nat)
    requires lo < hi < |ids| && ids[lo] == ids[hi]
    ensures multiset(ids)[ids[lo]] >= 2
  {
    assert ids == ids[..lo] + [ids[lo]] + ids[lo + 1..hi] + [ids[hi]] + ids[hi + 1..];
  }

  lemma OnlyOneCommit(g: Groups, i: nat, k: nat)
    requires NobodyTwice(g) && i < |g.commits| && k < |g.commits| && g.commits[i].worker == g.commits[k].worker
    ensures i == k
  {
    assert g.Ids()[g.commits[k].worker] <= 1;
    if i < k {
      RepeatedTwice(CommitIds(g.commits), i, k);
    } else if k < i {
      RepeatedTwice(CommitIds(g.commits), k, i);
    }
  }

  lemma FastProceeds(policy: Policy, inputs: Inputs, g: Groups, capacity: map<NodeId, nat>, outcome: Outcome)
    requires Comparable(policy, inputs) && policy.mode.Fast? && Drifted(inputs, g.commits) == 0 && g.commits != []
    ensures Fastest(g.commits, None).Some?
    ensures var answer := g.commits[Fastest(g.commits, None).value].hash;
            && Decide(policy, inputs, g, capacity, outcome) == Proceed(answer, outcome.agreed.Some?)
            && Fastest(g.commits, Some(answer)).Some?
  {
  }

  /** Fast mode takes the fastest commit's hash as the answer. A committer, honest or not, is then held
      at fault exactly when it disagrees with that fastest commit on provably the same inputs; and it is
      charged with a broken commitment exactly when, besides, some hash reached quorum and the result arrived. */
  lemma FastModeBlameIsExact(policy: Policy, inputs: Inputs, g: Groups, capacity: map<NodeId, nat>, arrived: bool,
                             outcome: Outcome, k: nat)
    requires Comparable(policy, inputs) && policy.mode.Fast? && NobodyTwice(g)
    requires k < |g.commits| && Drifted(inputs, g.commits) == 0
    ensures Fastest(g.commits, None).Some?
    ensures var (_, fx) := Attempted(policy, inputs, g, capacity, arrived, outcome);
            var answer, x := g.commits[Fastest(g.commits, None).value].hash, g.commits[k].worker;
            var charged := arrived && outcome.agreed.Some?;
            && (Blamed(fx, x) <==> Faulty(inputs, answer, g.commits[k]))
            && (x in fx.failers <==> (Faulty(inputs, answer, g.commits[k]) && charged))
  {
    FastProceeds(policy, inputs, g, capacity, outcome);
    var answer, x := g.commits[Fastest(g.commits, None).value].hash, g.commits[k].worker;
    var verified := outcome.agreed.Some?;
    var w := Fastest(g.commits, Some(answer)).value;
    var (result, fx) := Attempted(policy, inputs, g, capacity, arrived, outcome);
    assert fx == JudgedEffects(inputs, answer, verified, arrived, g, w);
    assert CommitIds(g.commits)[k] == x;
    if Faulty(inputs, answer, g.commits[k]) {
      FaultIsBlamed(inputs, answer, verified, arrived, g, w, k);
    } else {
      forall f, isWinner | f in g.commits && f.worker == x
        ensures !IsProviderFault(VerdictOf(inputs, answer, arrived, isWinner, f))
      {
        var i :| 0 <= i < |g.commits| && g.commits[i] == f;
        OnlyOneCommit(g, i, k);
      }
      NoFaultNoBlame(inputs, answer, verified, arrived, g, w, x);
    }
  }

  /** So fast mode does not protect honest workers: one fast liar, two honest workers that agree and
      reach quorum, and the liar's hash is returned as verified while an honest worker is charged. */
  lemma FastModeBlamesHonestWorkers()
    returns (policy: Policy, inputs: Inputs, g: Groups, outcome: Outcome, honest: set<NodeId>, x: NodeId)
    ensures IsPinnedOutcome(policy, inputs, g.commits, outcome)
    ensures Comparable(policy, inputs) && policy.mode.Fast? && NobodyTwice(g)
    ensures HonestAgree(g.commits, honest, Hash("good")) && CountOutside(g.commits, honest) < policy.quorum
    ensures var (result, fx) := Attempted(policy, inputs, g, map[], true, outcome);
            && result.Done? && result.outcome.verified && result.outcome.agreed == Hash("bad")
            && x in honest && x in fx.failers
  {
    hide Attempted, Faulty, Fastest, CountOutside, IsOutcome, OnPinned, NobodyTwice;
    var liar, a, b :=
      Commit(NodeId("liar"), Hash("bad"), 1, ""), Commit(NodeId("a"), Hash("good"), 2, ""),
      Commit(NodeId("b"), Hash("good"), 3, "");
    var fs := [liar, a, b];
    policy, inputs, g := Policy(Fast, 2, 3, true, 0.67, None), Inputs(None, true), Groups(fs, [], []);
    honest, x := {NodeId("a"), NodeId("b")}, NodeId("a");
    OneOutside(liar, a, b, honest);
    outcome := Outcome(Some(Hash("good")), 2, 2, false);
    GoodReachesQuorum(liar, a, b, outcome);
    NoDriftMeansAll(KeysOf(fs), None);
    OnlyCommitters(fs);
    LiarIsFastest(liar, a, b);
    FastDelivers(policy, inputs, g, map[], outcome);
    FastModeBlameIsExact(policy, inputs, g, map[], true, outcome, 1);
    assert Faulty(inputs, Hash("bad"), fs[1]) by { FaultyUnpinned(Hash("bad"), fs[1], inputs); }
  }

  lemma FaultyUnpinned(agreed: Hash, f: Commit, inputs: Inputs)
    requires f.hash != agreed && inputs.pinned.None?
    ensures Faulty(inputs, agreed, f)
  {
  }

  lemma FastDelivers(policy: Policy, inputs: Inputs, g: Groups, capacity: map<NodeId, nat>, outcome: Outcome)
    requires Comparable(policy, inputs) && policy.mode.Fast? && Drifted(inputs, g.commits) == 0 && g.commits != []
    ensures Fastest(g.commits, None).Some?
    ensures var result := Attempted(policy, inputs, g, capacity, true, outcome).0;
            && result.Done? && result.outcome.verified == outcome.agreed.Some?
            && result.outcome.agreed == g.commits[Fastest(g.commits, None).value].hash
  {
    FastProceeds(policy, inputs, g, capacity, outcome);
    hide Decide, Fastest, JudgedEffects;
  }

  /** So in fast mode a delivered answer marked verified is the hash the quorum agreed on exactly when the
      fastest commit carries that hash. */
  lemma FastVerifiedAnswerIsExact(policy: Policy, inputs: Inputs, g: Groups, capacity: map<NodeId, nat>,
                                  outcome: Outcome)
    requires Comparable(policy, inputs) && policy.mode.Fast? && Drifted(inputs, g.commits) == 0 && g.commits != []
    ensures Fastest(g.commits, None).Some?
    ensures var result := Attempted(policy, inputs, g, capacity, true, outcome).0;
            var first := g.commits[Fastest(g.commits, None).value];
            && result.Done? && (result.outcome.verified <==> outcome.agreed.Some?)
            && (result.outcome.verified ==>
                  (outcome.agreed == Some(result.outcome.agreed) <==> outcome.agreed == Some(first.hash)))
  {
    hide Attempted, Fastest, Comparable, Drifted;
    FastDelivers(policy, inputs, g, capacity, outcome);
  }

  lemma GoodReachesQuorum(liar: Commit, a: Commit, b: Commit, o: Outcome)
    requires liar.hash == Hash("bad") && a.hash == b.hash == Hash("good")
    requires o == Outcome(Some(Hash("good")), 2, 2, false)
    ensures IsOutcome(HashesOf([liar, a, b]), 2, o)
  {
    var hs := HashesOf([liar, a, b]);
    assert hs == [Hash("bad"), Hash("good"), Hash("good")];
    assert multiset(hs)[Hash("good")] == 2 && multiset(hs)[Hash("bad")] == 1;
    assert Meets(hs, 2, Hash("good")) && forall h | Meets(hs, 2, h) :: h == Hash("good");
  }

  lemma OnlyCommitters(fs: seq<Commit>)
    requires NoDuplicates(CommitIds(fs))
    ensures NobodyTwice(Groups(fs, [], []))
  {
    var g := Groups(fs, [], []);
    assert g.Ids() == multiset(CommitIds(fs)) by { assert FailureIds([]) == []; }
    forall x ensures g.Ids()[x] <= 1 { DistinctOnce(CommitIds(fs), x); }
  }

  lemma LiarIsFastest(liar: Commit, a: Commit, b: Commit)
    requires liar.latency <= a.latency && liar.latency <= b.latency
    ensures Fastest([liar, a, b], None) == Some(0)
  {
    var fs := [liar, a, b];
    assert FastestUpTo(fs, None, 1) == Some(0);
    assert FastestUpTo(fs, None, 2) == Some(0);
  }

  lemma OneOutside(liar: Commit, a: Commit, b: Commit, honest: set<NodeId>)
    requires liar.worker !in honest && a.worker in honest && b.worker in honest
    ensures CountOutside([liar, a, b], honest) == 1
  {
    assert [liar, a, b][1..] == [a, b];
    assert CountOutside([a, b], honest) == CountOutside([a, b][1..], honest);
    assert [a, b][1..] == [b];
    assert CountOutside([b], honest) == CountOutside([b][1..], honest);
  }

  // ---- settlement ----

  lemma {:induction false} AgreeingIsSubset(agreed: Hash, fs: seq<Commit>)
    ensures |Agreeing(agreed, fs)| <= |fs|
    ensures forall f | f in Agreeing(agreed, fs) :: f in fs && f.hash == agreed
  {
    if fs != [] {
      AgreeingIsSubset(agreed, fs[1..]);
    }
  }

  /** Every judged commit on the agreed hash was at least as slow as the winner. */
  lemma WinnerIsFastest(agreed: Hash, fs: seq<Commit>, f: Commit)
    requires Fastest(fs, Some(agreed)).Some? && f.hash == agreed
    requires f in JudgingOrder(fs, Fastest(fs, Some(agreed)).value)
    ensures fs[Fastest(fs, Some(agreed)).value].latency <= f.latency
  {
    var w := Fastest(fs, Some(agreed)).value;
    hide JudgingOrder;
    JudgingOrderKeepsWorkers(fs, w);
    assert f in multiset(JudgingOrder(fs, w));
    var i :| 0 <= i < |fs| && fs[i] == f;
  }

  lemma VerifiersAreSlower(inputs: Inputs, agreed: Hash, fs: seq<Commit>)
    requires Fastest(fs, Some(agreed)).Some?
    ensures var w := Fastest(fs, Some(agreed)).value;
            var others := Verifiers(inputs, agreed, JudgingOrder(fs, w));
            |others| < |fs| && forall i | 0 <= i < |others| :: fs[w].latency <= others[i].latency
  {
    var w := Fastest(fs, Some(agreed)).value;
    var judged := JudgingOrder(fs, w);
    AgreeingIsSubset(agreed, judged[1..]);
    var others := Verifiers(inputs, agreed, judged);
    hide Agreeing, FastestUpTo;
    forall i | 0 <= i < |others| ensures fs[w].latency <= others[i].latency {
      assert others[i] in others;
      WinnerIsFastest(agreed, fs, others[i]);
    }
  }

  lemma SettlementOfFastest(inputs: Inputs, agreed: Hash, fs: seq<Commit>)
    requires Fastest(fs, Some(agreed)).Some?
    ensures var s := SettlementFor(inputs, agreed, JudgingOrder(fs, Fastest(fs, Some(agreed)).value));
            && |s.verifiers| + 1 <= |fs| && |s.latencies| == |s.verifiers| + 1
            && s.winner in CommitIds(fs)
            && forall l | l in s.latencies :: s.winnerLatency <= l
  {
    var w := Fastest(fs, Some(agreed)).value;
    assert CommitIds(fs)[w] == fs[w].worker;
    VerifiersAreSlower(inputs, agreed, fs);
    hide Verifiers, FastestUpTo;
  }

  /** What settlement is handed: a committed winner that is the fastest of the agreeing workers,
      and fewer verifiers than dispatched workers. */
  lemma SettlementIsSound(policy: Policy, inputs: Inputs, g: Groups, capacity: map<NodeId, nat>, arrived: bool,
                          outcome: Outcome)
    requires Attempted(policy, inputs, g, capacity, arrived, outcome).0.Done?
    ensures var s := Attempted(policy, inputs, g, capacity, arrived, outcome).1.settlement;
            && s.Some? && s.value.winner in CommitIds(g.commits)
            && |s.value.verifiers| + 1 <= g.Size() && |s.value.latencies| == |s.value.verifiers| + 1
            && forall l | l in s.value.latencies :: s.value.winnerLatency <= l
  {
    DoneShape(policy, inputs, g, capacity, arrived, outcome);
    SettlementOfFastest(inputs, Attempted(policy, inputs, g, capacity, arrived, outcome).0.outcome.agreed, g.commits);
  }

  lemma SettledLatenciesCome(inputs: Inputs, agreed: Hash, fs: seq<Commit>, w: nat, end: nat)
    requires w < |fs| && forall f | f in fs :: f.latency < end
    ensures forall l | l in SettlementFor(inputs, agreed, JudgingOrder(fs, w)).latencies :: l < end
  {
    hide JudgingOrder, Agreeing;
    var judged := JudgingOrder(fs, w);
    JudgingOrderKeepsWorkers(fs, w);
    forall f | f in judged ensures f in fs { assert f in multiset(judged); }
    assert judged != [] by { assert |multiset(judged)| == |multiset(fs)|; }
    var others := Verifiers(inputs, agreed, judged);
    AgreeingIsSubset(agreed, judged[1..]);
    forall i | 0 <= i < |others| ensures others[i].latency < end { assert others[i] in judged[1..]; }
    LatenciesBelow(judged[0], others, end);
  }

  lemma LatenciesBelow(first: Commit, others: seq<Commit>, end: nat)
    requires first.latency < end && forall i | 0 <= i < |others| :: others[i].latency < end
    ensures forall l | l in [first.latency] + Latencies(others) :: l < end
  {}

  /** The settlement of a delivered attempt names its winner, and its latencies are those of the commits. */
  lemma SettlementOfAnswer(policy: Policy, inputs: Inputs, g: Groups, capacity: map<NodeId, nat>, arrived: bool,
                           outcome: Outcome)
    requires Attempted(policy, inputs, g, capacity, arrived, outcome).0.Done?
    requires forall f | f in g.commits :: f.latency < Money.U64_END
    ensures var (result, fx) := Attempted(policy, inputs, g, capacity, arrived, outcome);
            && arrived && fx.settlement.Some? && fx.settlement.value.winner == result.outcome.winner
            && result.outcome.winner in CommitIds(g.commits)
            && forall l | l in fx.settlement.value.latencies :: l < Money.U64_END
  {
    hide Attempted, Decide, AllReceipts, Faulted, Verifiers;
    DoneShape(policy, inputs, g, capacity, arrived, outcome);
    SettlementIsSound(policy, inputs, g, capacity, arrived, outcome);
    var agreed := Attempted(policy, inputs, g, capacity, arrived, outcome).0.outcome.agreed;
    SettledLatenciesCome(inputs, agreed, g.commits, Fastest(g.commits, Some(agreed)).value, Money.U64_END);
  }

  predicate IsMetered(bid: Money.Bid) { bid.ratePerSecond > 0 }

  function MeteredWinner(bid: Money.Bid, bill: Option<nat>, bytes: nat): Option<Money.Metered> {
    if IsMetered(bid) && bill.Some? then Some(Money.Metered(Money.TermsOf(bid).value, bill.value, bytes)) else None
  }

  /** Before and after quorum agree about money. On a paid job whose selected bids passed the preflight,
      whoever wins, the attempt aborts in billing exactly when the winner is metered and the middle
      latencies overflow. Otherwise the escrow opened is within the configured ceiling, settling it is never
      refused and pays out no more than it holds, and a metered winner is billed exactly its own latency. */
  lemma PaidAttemptStaysWithinCeiling(policy: Policy, inputs: Inputs, g: Groups, capacity: map<NodeId, nat>,
                                      outcome: Outcome, p: Money.Pricing, bids: seq<Money.Bid>, winner: nat, bytes: nat,
                                      payable: seq<bool>, winnerPayable: bool, metered: set<NodeId>)
    requires Attempted(policy, inputs, g, capacity, true, outcome).0.Done?
    requires Money.ValidPricing(p) && p.maxBid > 0 && |bids| == g.Size() < Money.U64_END && winner < |bids|
    requires Money.Preflight(p, bids, bytes).Ok?
    requires var s := Attempted(policy, inputs, g, capacity, true, outcome).1.settlement;
             && s.Some? && |payable| == |s.value.verifiers| && (forall l | l in s.value.latencies :: l < Money.U64_END)
             && (s.value.winner in metered <==> IsMetered(bids[winner]))
    ensures var attempt := Attempted(policy, inputs, g, capacity, true, outcome);
            var s := attempt.1.settlement.value;
            var bill := Metering.BilledSeconds(s.winnerLatency, s.latencies, p.tolerance);
            var escrow := Money.OpenedEscrow(p, MeteredWinner(bids[winner], bill, bytes), |s.verifiers|);
            var paid := Money.Settle(p, MeteredWinner(bids[winner], bill, bytes), payable, winnerPayable, escrow);
            && (BillingAborts(metered, attempt.1) <==> IsMetered(bids[winner]) && bill.None?)
            && (!BillingAborts(metered, attempt.1) ==>
                  && (IsMetered(bids[winner]) ==> bill == Some(Metering.CeilSecs(s.winnerLatency)))
                  && escrow <= Money.Ceiling(p)
                  && paid.Ok? && paid.value.Total().Some? && paid.value.Total().value <= escrow)
  {
    SettlementIsSound(policy, inputs, g, capacity, true, outcome);
    var s := Attempted(policy, inputs, g, capacity, true, outcome).1.settlement.value;
    hide Attempted, Metering.BilledSeconds, Metering.MiddleOverflows, Money.Preflight;
    Metering.FastestWinnerPaysItsOwnTime(s.winnerLatency, s.latencies, p.tolerance);
    if !(IsMetered(bids[winner]) && Metering.MiddleOverflows(s.latencies)) {
      MoneyAgrees(s, p, bids, winner, bytes, payable, winnerPayable);
    }
  }

  lemma MoneyAgrees(s: Settlement, p: Money.Pricing, bids: seq<Money.Bid>, winner: nat, bytes: nat, payable: seq<bool>,
                    winnerPayable: bool)
    requires Money.ValidPricing(p) && p.maxBid > 0 && |bids| < Money.U64_END && winner < |bids|
    requires Money.Preflight(p, bids, bytes).Ok?
    requires |payable| == |s.verifiers| < |bids|
    requires IsMetered(bids[winner]) ==> Metering.BilledSeconds(s.winnerLatency, s.latencies, p.tolerance).Some?
    ensures var bill := Metering.BilledSeconds(s.winnerLatency, s.latencies, p.tolerance);
            var escrow := Money.OpenedEscrow(p, MeteredWinner(bids[winner], bill, bytes), |s.verifiers|);
            var paid := Money.Settle(p, MeteredWinner(bids[winner], bill, bytes), payable, winnerPayable, escrow);
            && escrow <= Money.Ceiling(p)
            && paid.Ok? && paid.value.Total().Some? && paid.value.Total().value <= escrow
  {
    var bill := Metering.BilledSeconds(s.winnerLatency, s.latencies, p.tolerance);
    var metered := MeteredWinner(bids[winner], bill, bytes);
    var escrow := Money.OpenedEscrow(p, metered, |s.verifiers|);
    Money.EscrowWithinCeiling(p, bids, winner, bytes, if bill.Some? then bill.value else 0, |s.verifiers|);
    Money.SettlementNeverRejected(p, metered, payable, winnerPayable, escrow);
  }
}
