/** The resilient re-dispatch loop (`run_resilient` in `coordinator.rs`) over single attempts:
    candidate filtering, the capacity floor, exclusion, retry limits and the way a run ends. */
module Redispatch {
  import opened Wrappers
  import opened Identity
  import opened Sequences
  import opened Quorum
  import opened Attempt
  import opened Dispatch
  import Money

  // ---- one round: selection, then the attempt ----

  /** A worker's accepted bid; `clears` stands for the attestation, region, size and trust floors. */
  datatype Reply = Reply(worker: NodeId, bid: Money.Bid, clears: bool)

  /** A discovered candidate, in selection-score order. One without a known id is dialled on trust. */
  datatype Candidate = Candidate(known: Option<NodeId>, reply: Option<Reply>)

  /** Everything the environment decides about one round; a free job has no pricing, and `bytes` is the
      estimated input size. */
  datatype Round = Round(
    inputsAvailable: bool, candidates: seq<Candidate>, pricing: Option<Money.Pricing>, bytes: nat,
    inputs: Inputs, collected: seq<Collected>, outcome: Outcome, arrived: bool,
    timeUp: bool, tokenLeft: bool)

  datatype State = State(excluded: set<NodeId>, floor: nat, retries: nat, sawTooBig: bool)

  const INITIAL := State({}, 0, 0, false)

  predicate Keeps(c: Candidate, excluded: set<NodeId>) { c.known.None? || c.known.value !in excluded }

  function Retained(cs: seq<Candidate>, excluded: set<NodeId>): seq<Candidate> {
    if cs == [] then [] else (if Keeps(cs[0], excluded) then [cs[0]] else []) + Retained(cs[1..], excluded)
  }

  predicate Admits(r: Reply, floor: nat) {
    r.clears && (floor == 0 || r.bid.freeMemory == 0 || r.bid.freeMemory > floor)
  }

  function Eligible(cs: seq<Candidate>, floor: nat): seq<Reply> {
    if cs == [] then []
    else
      (if cs[0].reply.Some? && Admits(cs[0].reply.value, floor) then [cs[0].reply.value] else [])
      + Eligible(cs[1..], floor)
  }

  /** The eligible bidders of a round and the top `replicas` of them that get the job. */
  function Bidders(s: State, r: Round): seq<Reply> { Eligible(Retained(r.candidates, s.excluded), s.floor) }

  function Selected(policy: Policy, s: State, r: Round): seq<Reply> {
    var bs := Bidders(s, r);
    if |bs| <= policy.replicas then bs else bs[..policy.replicas]
  }

  function ReplyIds(rs: seq<Reply>): (ids: seq<NodeId>)
    ensures |ids| == |rs| && forall i | 0 <= i < |rs| :: ids[i] == rs[i].worker
  {
    seq(|rs|, i requires 0 <= i < |rs| => rs[i].worker)
  }

  /** The bids by worker, later ones overwriting earlier ones. */
  function BidsOf(rs: seq<Reply>): (bids: map<NodeId, Money.Bid>)
    ensures forall b | b in rs :: b.worker in bids
  {
    if rs == [] then map[]
    else
      assert rs == rs[..|rs| - 1] + [rs[|rs| - 1]];
      BidsOf(rs[..|rs| - 1])[rs[|rs| - 1].worker := rs[|rs| - 1].bid]
  }

  /** Advertised free memory by worker. */
  function CapacityOf(rs: seq<Reply>): map<NodeId, nat> {
    var bids := BidsOf(rs);
    map n | n in bids :: bids[n].freeMemory
  }

  /** The workers whose bids are priced by time. */
  function MeteredOf(rs: seq<Reply>): set<NodeId> {
    var bids := BidsOf(rs);
    set n | n in bids && Money.TermsOf(bids[n]).Some?
  }

  function SelectedBids(policy: Policy, s: State, r: Round): (bids: seq<Money.Bid>)
    ensures |bids| == |Selected(policy, s, r)|
  {
    var chosen, bids := Selected(policy, s, r), BidsOf(Bidders(s, r));
    seq(|chosen|, i requires 0 <= i < |chosen| => assert chosen[i] in Bidders(s, r); bids[chosen[i].worker])
  }

  /** The coverage check of a paid job on the selected bids. */
  predicate EscrowCovers(policy: Policy, s: State, r: Round) {
    r.pricing.Some? ==> Money.Preflight(r.pricing.value, SelectedBids(policy, s, r), r.bytes).Ok?
  }

  /** A round that ended in an error or an abort, or its attempt's result. */
  datatype RoundResult = Errored | Reached(result: AttemptResult)

  /** The checks before dispatch that may end the round; None when the job goes out. */
  function Checked(policy: Policy, s: State, r: Round): Option<RoundResult> {
    var chosen := Selected(policy, s, r);
    if !r.inputsAvailable then Some(Reached(Unsatisfiable))
    else if Retained(r.candidates, s.excluded) == [] then Some(Reached(NoCandidates))
    else if |chosen| < policy.quorum then Some(Reached(TooFewWorkers(|chosen|, policy.quorum)))
    else if !EscrowCovers(policy, s, r) then Some(Errored)
    else None
  }

  function AttemptOf(policy: Policy, s: State, r: Round): (Option<AttemptResult>, Effects) {
    var bidders := Bidders(s, r);
    Billed(MeteredOf(bidders),
           Attempted(policy, r.inputs, GroupsOf(r.collected), CapacityOf(bidders), r.arrived, r.outcome))
  }

  function RoundOf(policy: Policy, s: State, r: Round): RoundResult {
    match Checked(policy, s, r)
    case Some(early) => early
    case None => match AttemptOf(policy, s, r).0
      case None => Errored
      case Some(result) => Reached(result)
  }

  function EffectsOf(policy: Policy, s: State, r: Round): Effects {
    if Checked(policy, s, r).Some? then Effects([], [], [], None) else AttemptOf(policy, s, r).1
  }

  /** What the transport and the tally guarantee of a round: the replies are those of the selected workers,
      a dialled id is the id that answers, and the outcome is the tally of the commits. */
  ghost predicate Faithful(policy: Policy, s: State, r: Round) {
    && WorkersOf(r.collected) == ReplyIds(Selected(policy, s, r))
    && (forall c | c in r.candidates && c.known.Some? && c.reply.Some? :: c.reply.value.worker == c.known.value)
    && Tallied(policy, r)
  }

  // ---- the loop body ----

  datatype Final =
    | Answer(outcome: QueryOutcome)
    | Hopeless
    | QuorumFailed(agreement: nat, quorum: nat)
    | NobodyThere
    | NotEnough(have: nat, quorum: nat)
    | Exhausted(attempts: nat)
    | ExceedsCapacity
    | BudgetExhausted(attempts: nat)
    | Error

  datatype Next = Continue(state: State) | Finish(final: Final)

  function ToSet(ids: seq<NodeId>): set<NodeId> { set n | n in ids }

  function MaxNat(a: nat, b: nat): nat { if a >= b then a else b }

  /** The stop conditions shared by all three retry paths; `last` is what they end with. */
  function Limited(maxRetries: nat, s: State, r: Round, last: Final, s': State): Next {
    if maxRetries != 0 && s.retries >= maxRetries then Finish(last)
    else if r.timeUp then Finish(last)
    else if !r.tokenLeft then Finish(BudgetExhausted(s.retries + 1))
    else Continue(s'.(retries := s.retries + 1))
  }

  function Step(policy: Policy, maxRetries: nat, s: State, r: Round): Next {
    match RoundOf(policy, s, r)
    case Errored => Finish(Error)
    case Reached(result) =>
      match result
      case Done(o) => Finish(Answer(o))
      case Unsatisfiable => Finish(Hopeless)
      case Disagreement(a, q) => Finish(QuorumFailed(a, q))
      case NoCandidates =>
        Finish(if s.sawTooBig then ExceedsCapacity else if s.retries == 0 then NobodyThere
               else Exhausted(s.retries + 1))
      case TooFewWorkers(have, q) =>
        Finish(if s.sawTooBig then ExceedsCapacity else if s.retries == 0 then NotEnough(have, q)
               else Exhausted(s.retries + 1))
      case Retry(tried) =>
        var excluded := s.excluded + ToSet(tried);
        if excluded == s.excluded then Finish(Exhausted(s.retries + 1))
        else Limited(maxRetries, s, r, Exhausted(s.retries + 1), s.(excluded := excluded))
      case TooBig(oomed, maxTried) =>
        var s' := State(s.excluded + ToSet(oomed), MaxNat(s.floor, maxTried), s.retries, true);
        if s'.excluded == s.excluded && s'.floor == s.floor then Finish(ExceedsCapacity)
        else Limited(maxRetries, s, r, ExceedsCapacity, s')
      case InputDrift(_) => Limited(maxRetries, s, r, Exhausted(s.retries + 1), s)
  }

  // ---- the loop ----

  /** Running from `s` through the given rounds: how it ended, if it did, and in how many attempts. */
  function RunFrom(policy: Policy, maxRetries: nat, s: State, rounds: seq<Round>): (Option<Final>, nat)
    decreases |rounds|
  {
    if rounds == [] then (None, 0)
    else match Step(policy, maxRetries, s, rounds[0])
      case Finish(f) => (Some(f), 1)
      case Continue(s') =>
        var (f, n) := RunFrom(policy, maxRetries, s', rounds[1..]);
        (f, n + 1)
  }

  /** The effects of the attempts such a run makes, in order. */
  function Trace(policy: Policy, maxRetries: nat, s: State, rounds: seq<Round>): seq<Effects>
    decreases |rounds|
  {
    if rounds == [] then []
    else
      [EffectsOf(policy, s, rounds[0])]
      + match Step(policy, maxRetries, s, rounds[0])
        case Finish(_) => []
        case Continue(s') => Trace(policy, maxRetries, s', rounds[1..])
  }

  function ReceiptsOf(trace: seq<Effects>): seq<Receipt> {
    if trace == [] then [] else trace[0].receipts + ReceiptsOf(trace[1..])
  }

  function PenalisedOf(trace: seq<Effects>): seq<NodeId> {
    if trace == [] then [] else trace[0].penalised + PenalisedOf(trace[1..])
  }

  /** How many of a run's attempts are settled. */
  function SettlementsOf(trace: seq<Effects>): nat {
    if trace == [] then 0 else (if trace[0].settlement.Some? then 1 else 0) + SettlementsOf(trace[1..])
  }

  /** The round's outcome is the tally of its commits. */
  ghost predicate Tallied(policy: Policy, r: Round) {
    IsPinnedOutcome(policy, r.inputs, Commits(r.collected), r.outcome)
  }

  /** One round against the trust store. */
  method RunRound(policy: Policy, s: State, r: Round, tolerance: real, penalty: real, store: TrustStore)
    returns (result: RoundResult)
    requires Tallied(policy, r)
    modifies store
    ensures result == RoundOf(policy, s, r)
    ensures store.recorded == old(store.recorded) + EffectsOf(policy, s, r).receipts
    ensures store.penalties == AddPenalties(old(store.penalties), EffectsOf(policy, s, r).penalised, penalty)
  {
    hide Selected, Retained, Bidders, IsOutcome, Attempted, Commits, Billed;
    match Checked(policy, s, r) {
      case Some(early) => return early;
      case None =>
        var returned, fx, outcome :=
          DispatchAttempt(policy, r.inputs, r.collected, CapacityOf(Bidders(s, r)), r.arrived,
                          MeteredOf(Bidders(s, r)), tolerance, penalty, store);
        OutcomeIsDetermined(OnPinned(KeysOf(Commits(r.collected)), r.inputs.pinned),
                            OnPinned(KeysOf(Commits(r.collected)), r.inputs.pinned), policy.quorum, outcome, r.outcome);
        match returned {
          case None => return Errored;
          case Some(a) => return Reached(a);
        }
    }
  }

  /** Where a run stands after some rounds: what it has told the trust store, and what is still to come. */
  ghost predicate SoFar(policy: Policy, maxRetries: nat, rounds: seq<Round>, n: nat, s: State, receipts: seq<Receipt>,
                        penalised: seq<NodeId>) {
    && n <= |rounds|
    && (var (f, k) := RunFrom(policy, maxRetries, s, rounds[n..]);
        RunFrom(policy, maxRetries, INITIAL, rounds) == (f, k + n))
    && ReceiptsOf(Trace(policy, maxRetries, INITIAL, rounds))
         == receipts + ReceiptsOf(Trace(policy, maxRetries, s, rounds[n..]))
    && PenalisedOf(Trace(policy, maxRetries, INITIAL, rounds))
         == penalised + PenalisedOf(Trace(policy, maxRetries, s, rounds[n..]))
  }

  lemma NothingSoFar(policy: Policy, maxRetries: nat, rounds: seq<Round>)
    ensures SoFar(policy, maxRetries, rounds, 0, INITIAL, [], [])
  {
    hide RunFrom, Trace;
    assert rounds[0..] == rounds;
  }

  /** One more round, which either ends the run or moves it on. */
  lemma OneMoreRound(policy: Policy, maxRetries: nat, rounds: seq<Round>, n: nat, s: State, receipts: seq<Receipt>,
                     penalised: seq<NodeId>)
    requires SoFar(policy, maxRetries, rounds, n, s, receipts, penalised) && n < |rounds|
    ensures var fx := EffectsOf(policy, s, rounds[n]);
            match Step(policy, maxRetries, s, rounds[n])
            case Finish(f) =>
              && RunFrom(policy, maxRetries, INITIAL, rounds) == (Some(f), n + 1)
              && ReceiptsOf(Trace(policy, maxRetries, INITIAL, rounds)) == receipts + fx.receipts
              && PenalisedOf(Trace(policy, maxRetries, INITIAL, rounds)) == penalised + fx.penalised
            case Continue(s') => SoFar(policy, maxRetries, rounds, n + 1, s', receipts + fx.receipts,
                                       penalised + fx.penalised)
  {
    hide Step, EffectsOf;
    var fx, rest := EffectsOf(policy, s, rounds[n]), rounds[n..];
    assert rest[0] == rounds[n] && rest[1..] == rounds[n + 1..];
    match Step(policy, maxRetries, s, rounds[n])
    case Finish(_) =>
      assert Trace(policy, maxRetries, s, rest) == [fx];
      assert ReceiptsOf([fx]) == fx.receipts && PenalisedOf([fx]) == fx.penalised by { assert [fx][1..] == []; }
    case Continue(s') =>
      var more := Trace(policy, maxRetries, s', rest[1..]);
      assert Trace(policy, maxRetries, s, rest) == [fx] + more && ([fx] + more)[1..] == more;
      Associates(receipts, fx.receipts, ReceiptsOf(more));
      Associates(penalised, fx.penalised, PenalisedOf(more));
  }

  /** The loop itself, with its variables and the trust store updated in place; `rounds` is what the
      environment will answer. */
  method RunResilient(policy: Policy, maxRetries: nat, rounds: seq<Round>, tolerance: real, penalty: real,
                      store: TrustStore)
    returns (final: Option<Final>, attempts: nat)
    requires forall r | r in rounds :: Tallied(policy, r)
    modifies store
    ensures (final, attempts) == RunFrom(policy, maxRetries, INITIAL, rounds)
    ensures store.recorded == old(store.recorded) + ReceiptsOf(Trace(policy, maxRetries, INITIAL, rounds))
    ensures store.penalties
         == AddPenalties(old(store.penalties), PenalisedOf(Trace(policy, maxRetries, INITIAL, rounds)), penalty)
  {
    hide RoundOf, EffectsOf, Tallied, SoFar, RunFrom, Trace, AddPenalties;
    var excluded: set<NodeId> := {};
    var floor: nat, retries: nat, sawTooBig := 0, 0, false;
    attempts := 0;
    ghost var receipts: seq<Receipt>, penalised: seq<NodeId> := [], [];
    NothingSoFar(policy, maxRetries, rounds);
    NothingBooked(store.penalties, penalty);
    while attempts < |rounds|
      invariant 0 <= attempts <= |rounds|
      invariant SoFar(policy, maxRetries, rounds, attempts, State(excluded, floor, retries, sawTooBig), receipts,
                      penalised)
      invariant store.recorded == old(store.recorded) + receipts
      invariant store.penalties == AddPenalties(old(store.penalties), penalised, penalty)
    {
      var s, r := State(excluded, floor, retries, sawTooBig), rounds[attempts];
      OneMoreRound(policy, maxRetries, rounds, attempts, s, receipts, penalised);
      var reached := RunRound(policy, s, r, tolerance, penalty, store);
      AddPenaltiesAppends(old(store.penalties), penalised, EffectsOf(policy, s, r).penalised, penalty);
      receipts, penalised := receipts + EffectsOf(policy, s, r).receipts, penalised + EffectsOf(policy, s, r).penalised;
      attempts := attempts + 1;
      match reached {
        case Errored => return Some(Error), attempts;
        case Reached(result) =>
          var last: Final;
          match result {
            case Done(o) => return Some(Answer(o)), attempts;
            case Unsatisfiable => return Some(Hopeless), attempts;
            case Disagreement(a, q) => return Some(QuorumFailed(a, q)), attempts;
            case NoCandidates =>
              if sawTooBig { return Some(ExceedsCapacity), attempts; }
              if retries == 0 { return Some(NobodyThere), attempts; }
              return Some(Exhausted(retries + 1)), attempts;
            case TooFewWorkers(have, q) =>
              if sawTooBig { return Some(ExceedsCapacity), attempts; }
              if retries == 0 { return Some(NotEnough(have, q)), attempts; }
              return Some(Exhausted(retries + 1)), attempts;
            case Retry(tried) =>
              last := Exhausted(retries + 1);
              excluded := excluded + ToSet(tried);
              if excluded == s.excluded { return Some(last), attempts; }
            case TooBig(oomed, maxTried) =>
              last := ExceedsCapacity;
              sawTooBig := true;
              floor := MaxNat(floor, maxTried);
              excluded := excluded + ToSet(oomed);
              if excluded == s.excluded && floor == s.floor { return Some(last), attempts; }
            case InputDrift(_) =>
              last := Exhausted(retries + 1);
          }
          if maxRetries != 0 && retries >= maxRetries { return Some(last), attempts; }
          if r.timeUp { return Some(last), attempts; }
          if !r.tokenLeft { return Some(BudgetExhausted(retries + 1)), attempts; }
          retries := retries + 1;
      }
    }
    RoundsAreUp(policy, maxRetries, rounds, State(excluded, floor, retries, sawTooBig), receipts, penalised);
    final := None;
  }

  lemma NothingBooked(m: map<NodeId, real>, penalty: real)
    ensures AddPenalties(m, [], penalty) == m
  {}

  lemma RoundsAreUp(policy: Policy, maxRetries: nat, rounds: seq<Round>, s: State, receipts: seq<Receipt>,
                    penalised: seq<NodeId>)
    requires SoFar(policy, maxRetries, rounds, |rounds|, s, receipts, penalised)
    ensures RunFrom(policy, maxRetries, INITIAL, rounds) == (None, |rounds|)
    ensures ReceiptsOf(Trace(policy, maxRetries, INITIAL, rounds)) == receipts
    ensures PenalisedOf(Trace(policy, maxRetries, INITIAL, rounds)) == penalised
  {
    hide Step, EffectsOf;
    assert rounds[|rounds|..] == [];
  }
}
