/** Worker-side admission control (`admission.rs`) together with the process-wide
    capacity governor it reserves from (`governor.rs`), as an interleaving
    transition system.

    Any number of callers run `try_admit` (role Served) or the governor's own
    `try_reserve` (role Own) at the same time. Each atomic operation of the source
    is one step: a permit taken or given back, a load, one compare-exchange, one
    fetch_sub. A load, and the value a failed compare-exchange reports, may be any
    number at all, which covers relaxed (stale) reads; a compare-exchange may fail
    spuriously. */
module Admission {
  import opened Sequences

  datatype Resource = JobSlot | Memory | Threads | GovSlot | GovMemory | GovServed | GovThreads

  datatype Role = Served | Own

  datatype Config = Config(
    memory: nat, threads: nat, maxJobs: nat,
    governed: bool,
    govMemory: nat, govThreads: nat, govServedCeiling: nat, govJobs: nat)

  /** The shared words: two semaphores (free permits) and five counters. */
  datatype Pool = Pool(
    jobPermits: nat, memory: nat, threads: nat,
    govPermits: nat, govMemory: nat, govServed: nat, govThreads: nat)

  /** Where a caller stands. `Trying(k)` is about to start its k-th acquisition,
      `Racing(k, cur)` is inside the compare-exchange loop with `cur` in hand,
      `Releasing(todo, granted)` still has to give back `todo`. */
  datatype Pc =
    | Trying(k: nat)
    | Racing(k: nat, cur: nat)
    | Holding
    | Releasing(todo: seq<Resource>, granted: bool)
    | Finished(granted: bool)

  datatype Caller = Caller(role: Role, memory: nat, threads: nat, pc: Pc)

  datatype State = State(pool: Pool, callers: seq<Caller>)

  datatype Action =
    | Call(role: Role, memory: nat, threads: nat)
    | Advance(caller: nat, seen: nat, spurious: bool)
    | Drop(caller: nat)

  // ---- the words of the pool ----

  predicate IsSlot(r: Resource) { r.JobSlot? || r.GovSlot? }

  function Get(p: Pool, r: Resource): nat {
    match r
    case JobSlot => p.jobPermits
    case Memory => p.memory
    case Threads => p.threads
    case GovSlot => p.govPermits
    case GovMemory => p.govMemory
    case GovServed => p.govServed
    case GovThreads => p.govThreads
  }

  function Set(p: Pool, r: Resource, v: nat): Pool {
    match r
    case JobSlot => p.(jobPermits := v)
    case Memory => p.(memory := v)
    case Threads => p.(threads := v)
    case GovSlot => p.(govPermits := v)
    case GovMemory => p.(govMemory := v)
    case GovServed => p.(govServed := v)
    case GovThreads => p.(govThreads := v)
  }

  function Capacity(cfg: Config, r: Resource): nat {
    match r
    case JobSlot => cfg.maxJobs
    case Memory => cfg.memory
    case Threads => cfg.threads
    case GovSlot => cfg.govJobs
    case GovMemory => cfg.govMemory
    case GovServed => cfg.govServedCeiling
    case GovThreads => cfg.govThreads
  }

  /** First number that no longer fits the word (`AtomicU32` for threads, else `AtomicU64`). */
  function Width(r: Resource): (w: nat)
    ensures w > 0
  {
    if r.Threads? || r.GovThreads? then 0x1_0000_0000 else 0x1_0000_0000_0000_0000
  }

  function Amount(c: Caller, r: Resource): nat {
    if IsSlot(r) then 1 else if r.Threads? || r.GovThreads? then c.threads else c.memory
  }

  // ---- the order in which the source acquires and gives back ----

  function Acquires(cfg: Config, role: Role): seq<Resource> {
    match role
    case Own => [GovSlot, GovMemory, GovThreads]
    case Served =>
      if cfg.governed then [JobSlot, Memory, Threads, GovSlot, GovMemory, GovServed, GovThreads]
      else [JobSlot, Memory, Threads]
  }

  /** What `try_admit` undoes after the governor refused it. */
  function UndoController(role: Role): seq<Resource> {
    if role.Served? then [Memory, Threads, JobSlot] else []
  }

  /** What is given back, in order, when the acquisition of `r` is refused. */
  function Rollback(role: Role, r: Resource): seq<Resource> {
    match r
    case JobSlot => []
    case Memory => [JobSlot]
    case Threads => [Memory, JobSlot]
    case GovSlot => UndoController(role)
    case GovMemory => [GovSlot] + UndoController(role)
    case GovServed => [GovMemory, GovSlot] + UndoController(role)
    case GovThreads =>
      (if role.Served? then [GovMemory, GovServed, GovSlot] else [GovMemory, GovSlot]) + UndoController(role)
  }

  /** Drop order of a granted lease: the controller's counters, its permit, then the governor lease. */
  function LeaseDrop(cfg: Config, role: Role): seq<Resource> {
    match role
    case Own => [GovMemory, GovThreads, GovSlot]
    case Served =>
      if cfg.governed then [Memory, Threads, JobSlot, GovMemory, GovServed, GovThreads, GovSlot]
      else [Memory, Threads, JobSlot]
  }

  // ---- steps ----

  function Acquire(cfg: Config, p: Pool, c: Caller, k: nat, seen: nat): (Pool, Pc) {
    var plan := Acquires(cfg, c.role);
    if k >= |plan| then (p, Holding)
    else
      var r := plan[k];
      if !IsSlot(r) then (p, Racing(k, seen))
      else if Get(p, r) > 0 then (Set(p, r, Get(p, r) - 1), Trying(k + 1))
      else (p, Releasing(Rollback(c.role, r), false))
  }

  function CompareExchange(cfg: Config, p: Pool, c: Caller, k: nat, cur: nat, seen: nat, spurious: bool): (Pool, Pc)
    requires k < |Acquires(cfg, c.role)|
  {
    var r := Acquires(cfg, c.role)[k];
    var next := cur + Amount(c, r);
    if next >= Width(r) || next > Capacity(cfg, r) then (p, Releasing(Rollback(c.role, r), false))
    else if Get(p, r) == cur && !spurious then (Set(p, r, next), Trying(k + 1))
    else (p, Racing(k, seen))
  }

  /** A permit goes back to the semaphore; a counter is decremented with wrap-around. */
  function GiveBack(p: Pool, c: Caller, r: Resource): Pool {
    if IsSlot(r) then Set(p, r, Get(p, r) + 1)
    else Set(p, r, (Get(p, r) - Amount(c, r)) % Width(r))
  }

  predicate CanAdvance(cfg: Config, c: Caller) {
    match c.pc
    case Trying(_) => true
    case Racing(k, _) => k < |Acquires(cfg, c.role)|
    case Holding => false
    case Releasing(_, _) => true
    case Finished(_) => false
  }

  function StepCaller(cfg: Config, p: Pool, c: Caller, seen: nat, spurious: bool): (Pool, Pc)
    requires CanAdvance(cfg, c)
  {
    match c.pc
    case Trying(k) => Acquire(cfg, p, c, k, seen)
    case Racing(k, cur) => CompareExchange(cfg, p, c, k, cur, seen, spurious)
    case Releasing(todo, granted) =>
      if todo == [] then (p, Finished(granted)) else (GiveBack(p, c, todo[0]), Releasing(todo[1..], granted))
  }

  predicate Init(cfg: Config, s: State) {
    s == State(Pool(cfg.maxJobs, 0, 0, cfg.govJobs, 0, 0, 0), [])
  }

  predicate Next(cfg: Config, s: State, a: Action, s': State) {
    match a
    case Call(role, memory, threads) =>
      s' == s.(callers := s.callers + [Caller(role, memory, threads, Trying(0))])
    case Advance(i, seen, spurious) =>
      && i < |s.callers| && CanAdvance(cfg, s.callers[i])
      && var (p, pc) := StepCaller(cfg, s.pool, s.callers[i], seen, spurious);
         s' == State(p, s.callers[i := s.callers[i].(pc := pc)])
    case Drop(i) =>
      && i < |s.callers| && s.callers[i].pc.Holding?
      && s' == s.(callers := s.callers[i := s.callers[i].(pc := Releasing(LeaseDrop(cfg, s.callers[i].role), true))])
  }

  /** `states` is a run driven by `actions` from the freshly built controller. */
  ghost predicate Run(cfg: Config, states: seq<State>, actions: seq<Action>) {
    && |states| == |actions| + 1
    && Init(cfg, states[0])
    && forall n | 0 <= n < |actions| :: Next(cfg, states[n], actions[n], states[n + 1])
  }

  // ---- the ledger: who holds what ----

  function HeldBy(cfg: Config, c: Caller): set<Resource> {
    var plan := Acquires(cfg, c.role);
    match c.pc
    case Trying(k) => if k <= |plan| then Elements(plan[..k]) else {}
    case Racing(k, _) => if k <= |plan| then Elements(plan[..k]) else {}
    case Holding => Elements(plan)
    case Releasing(todo, _) => Elements(todo)
    case Finished(_) => {}
  }

  function Held(cfg: Config, c: Caller, r: Resource): nat {
    if r in HeldBy(cfg, c) then Amount(c, r) else 0
  }

  function Sum(cfg: Config, cs: seq<Caller>, r: Resource): nat {
    if cs == [] then 0 else Held(cfg, cs[0], r) + Sum(cfg, cs[1..], r)
  }

  /** How much of `r` the shared words say is taken. */
  function Taken(cfg: Config, p: Pool, r: Resource): int {
    if IsSlot(r) then Capacity(cfg, r) - Get(p, r) else Get(p, r)
  }

  /** The word is within its cap and has not wrapped. */
  predicate InBounds(cfg: Config, p: Pool, r: Resource) {
    Taken(cfg, p, r) <= Capacity(cfg, r) && (!IsSlot(r) ==> Get(p, r) < Width(r))
  }

  predicate WellPlaced(cfg: Config, c: Caller) {
    var plan := Acquires(cfg, c.role);
    match c.pc
    case Trying(k) => k <= |plan|
    case Racing(k, _) => k < |plan| && !IsSlot(plan[k])
    case Holding => true
    case Releasing(todo, _) => NoDuplicates(todo)
    case Finished(_) => true
  }

  /** Every shared word is exactly what the callers hold, and within its cap. */
  ghost predicate Accounted(cfg: Config, s: State) {
    && (forall c | c in s.callers :: WellPlaced(cfg, c))
    && (forall r :: Taken(cfg, s.pool, r) == Sum(cfg, s.callers, r))
    && forall r :: InBounds(cfg, s.pool, r)
  }

  // ---- sums ----

  lemma {:induction false} SumAppend(cfg: Config, cs: seq<Caller>, c: Caller, r: Resource)
    ensures Sum(cfg, cs + [c], r) == Sum(cfg, cs, r) + Held(cfg, c, r)
  {
    if cs != [] {
      assert (cs + [c])[1..] == cs[1..] + [c];
      SumAppend(cfg, cs[1..], c, r);
    }
  }

  lemma {:induction false} SumUpdate(cfg: Config, cs: seq<Caller>, i: nat, c: Caller, r: Resource)
    requires i < |cs|
    ensures Sum(cfg, cs[i := c], r) == Sum(cfg, cs, r) - Held(cfg, cs[i], r) + Held(cfg, c, r)
    ensures Sum(cfg, cs, r) >= Held(cfg, cs[i], r)
  {
    if i > 0 {
      assert cs[i := c][1..] == cs[1..][i - 1 := c];
      SumUpdate(cfg, cs[1..], i - 1, c, r);
    } else {
      assert cs[0 := c][1..] == cs[1..];
    }
  }

  // ---- one step ----

  /** Whatever acquisition is refused, the source gives back exactly what it had taken. */
  lemma RollbackIsExact(cfg: Config, role: Role, k: nat)
    requires k < |Acquires(cfg, role)|
    ensures Elements(Rollback(role, Acquires(cfg, role)[k])) == Elements(Acquires(cfg, role)[..k])
    ensures NoDuplicates(Rollback(role, Acquires(cfg, role)[k]))
  {
    var plan := Acquires(cfg, role);
    assert k == 1 ==> plan[..k] == [plan[0]];
    assert k == 2 ==> plan[..k] == [plan[0], plan[1]];
    assert k == 3 ==> plan[..k] == [plan[0], plan[1], plan[2]];
    assert k == 4 ==> plan[..k] == [plan[0], plan[1], plan[2], plan[3]];
    assert k == 5 ==> plan[..k] == [plan[0], plan[1], plan[2], plan[3], plan[4]];
    assert k == 6 ==> plan[..k] == [plan[0], plan[1], plan[2], plan[3], plan[4], plan[5]];
  }

  /** A dropped lease gives back exactly what was acquired. */
  lemma DropIsExact(cfg: Config, role: Role)
    ensures Elements(LeaseDrop(cfg, role)) == Elements(Acquires(cfg, role))
    ensures NoDuplicates(LeaseDrop(cfg, role))
  {
    forall r ensures r in LeaseDrop(cfg, role) <==> r in Acquires(cfg, role) {
    }
  }

  lemma PlanExtends(cfg: Config, role: Role, k: nat)
    requires k < |Acquires(cfg, role)|
    ensures Elements(Acquires(cfg, role)[..k + 1]) == Elements(Acquires(cfg, role)[..k]) + {Acquires(cfg, role)[k]}
    ensures Acquires(cfg, role)[k] !in Elements(Acquires(cfg, role)[..k])
  {
    var plan := Acquires(cfg, role);
    assert plan[..k + 1] == plan[..k] + [plan[k]];
    assert NoDuplicates(plan);
  }

  lemma TailDropsHead(todo: seq<Resource>)
    requires todo != [] && NoDuplicates(todo)
    ensures NoDuplicates(todo[1..])
    ensures Elements(todo) == Elements(todo[1..]) + {todo[0]} && todo[0] !in Elements(todo[1..])
  {
    assert todo == [todo[0]] + todo[1..];
  }

  /** A subtraction that is covered by what is taken does not wrap. */
  lemma GiveBackSubtracts(cfg: Config, p: Pool, c: Caller, q: Resource, r: Resource)
    requires Amount(c, q) <= Taken(cfg, p, q) && InBounds(cfg, p, q)
    ensures Taken(cfg, GiveBack(p, c, q), r) == Taken(cfg, p, r) - (if r == q then Amount(c, q) else 0)
  {
    if !IsSlot(q) {
      assert 0 <= Get(p, q) - Amount(c, q) < Width(q);
      assert (Get(p, q) - Amount(c, q)) % Width(q) == Get(p, q) - Amount(c, q);
    }
  }

  /** What a caller may rely on when it moves: its own holdings are in the words. */
  ghost predicate Covered(cfg: Config, p: Pool, c: Caller) {
    forall q :: Held(cfg, c, q) <= Taken(cfg, p, q) && InBounds(cfg, p, q)
  }

  /** The move from `(p, c)` to `(p', c')` changes word `r` by exactly what the caller's holding of `r` changed. */
  ghost predicate Balanced(cfg: Config, p: Pool, c: Caller, p': Pool, c': Caller, r: Resource) {
    && WellPlaced(cfg, c')
    && Taken(cfg, p', r) == Taken(cfg, p, r) - Held(cfg, c, r) + Held(cfg, c', r)
    && InBounds(cfg, p', r)
  }

  /** Standing at the k-th acquisition, a caller holds the first k resources of its plan. */
  predicate At(c: Caller, k: nat) {
    (c.pc.Trying? || c.pc.Racing?) && c.pc.k == k
  }

  lemma GainHolds(cfg: Config, c: Caller, k: nat, r: Resource)
    requires At(c, k) && k < |Acquires(cfg, c.role)|
    ensures Held(cfg, c.(pc := Trying(k + 1)), r)
         == Held(cfg, c, r) + (if r == Acquires(cfg, c.role)[k] then Amount(c, r) else 0)
  {
    PlanExtends(cfg, c.role, k);
  }

  lemma RefusalHolds(cfg: Config, c: Caller, k: nat, r: Resource)
    requires At(c, k) && k < |Acquires(cfg, c.role)|
    ensures var c' := c.(pc := Releasing(Rollback(c.role, Acquires(cfg, c.role)[k]), false));
            WellPlaced(cfg, c') && Held(cfg, c', r) == Held(cfg, c, r)
  {
    RollbackIsExact(cfg, c.role, k);
  }

  lemma AcquireBalances(cfg: Config, p: Pool, c: Caller, seen: nat, r: Resource)
    requires c.pc.Trying? && WellPlaced(cfg, c) && InBounds(cfg, p, r)
    ensures var (p', pc) := Acquire(cfg, p, c, c.pc.k, seen); Balanced(cfg, p, c, p', c.(pc := pc), r)
  {
    var plan, k := Acquires(cfg, c.role), c.pc.k;
    if k == |plan| {
      assert plan[..k] == plan;
    } else if !IsSlot(plan[k]) {
    } else if Get(p, plan[k]) > 0 {
      GainHolds(cfg, c, k, r);
    } else {
      RefusalHolds(cfg, c, k, r);
    }
  }

  lemma ExchangeBalances(cfg: Config, p: Pool, c: Caller, seen: nat, spurious: bool, r: Resource)
    requires c.pc.Racing? && WellPlaced(cfg, c) && InBounds(cfg, p, r)
    ensures var (p', pc) := CompareExchange(cfg, p, c, c.pc.k, c.pc.cur, seen, spurious);
            Balanced(cfg, p, c, p', c.(pc := pc), r)
  {
    var k := c.pc.k;
    var q := Acquires(cfg, c.role)[k];
    var next := c.pc.cur + Amount(c, q);
    if next >= Width(q) || next > Capacity(cfg, q) {
      RefusalHolds(cfg, c, k, r);
    } else if Get(p, q) == c.pc.cur && !spurious {
      GainHolds(cfg, c, k, r);
    }
  }

  /** One caller's atomic operation moves every shared word by exactly the change in
      what that caller holds; no word passes its cap and no decrement wraps. */
  lemma StepBalances(cfg: Config, p: Pool, c: Caller, seen: nat, spurious: bool, r: Resource)
    requires CanAdvance(cfg, c) && WellPlaced(cfg, c) && Covered(cfg, p, c)
    ensures var (p', pc) := StepCaller(cfg, p, c, seen, spurious); Balanced(cfg, p, c, p', c.(pc := pc), r)
  {
    assert Held(cfg, c, r) <= Taken(cfg, p, r) && InBounds(cfg, p, r);
    match c.pc
    case Trying(_) => AcquireBalances(cfg, p, c, seen, r);
    case Racing(_, _) => ExchangeBalances(cfg, p, c, seen, spurious, r);
    case Releasing(_, _) => ReleaseBalances(cfg, p, c, seen, spurious, r);
  }

  lemma ReleaseBalances(cfg: Config, p: Pool, c: Caller, seen: nat, spurious: bool, r: Resource)
    requires CanAdvance(cfg, c) && WellPlaced(cfg, c) && Covered(cfg, p, c) && c.pc.Releasing?
    ensures var (p', pc) := StepCaller(cfg, p, c, seen, spurious); Balanced(cfg, p, c, p', c.(pc := pc), r)
  {
    assert Held(cfg, c, r) <= Taken(cfg, p, r) && InBounds(cfg, p, r);
    var todo := c.pc.todo;
    if todo != [] {
      TailDropsHead(todo);
      assert Held(cfg, c, todo[0]) == Amount(c, todo[0]);
      GiveBackSubtracts(cfg, p, c, todo[0], r);
    }
  }

  /** In an accounted state every caller's holdings are covered by the words. */
  lemma AccountedCovers(cfg: Config, s: State, i: nat)
    requires Accounted(cfg, s) && i < |s.callers|
    ensures Covered(cfg, s.pool, s.callers[i])
  {
    forall q ensures Held(cfg, s.callers[i], q) <= Taken(cfg, s.pool, q) {
      SumUpdate(cfg, s.callers, i, s.callers[i], q);
    }
  }

  /** Any atomic step of anybody keeps the books: words equal holdings, limits respected. */
  lemma StepKeepsAccounted(cfg: Config, s: State, a: Action, s': State)
    requires Accounted(cfg, s) && Next(cfg, s, a, s')
    ensures Accounted(cfg, s')
  {
    forall r ensures Taken(cfg, s'.pool, r) == Sum(cfg, s'.callers, r) && InBounds(cfg, s'.pool, r) {
      match a
      case Call(role, memory, threads) =>
        var c := Caller(role, memory, threads, Trying(0));
        SumAppend(cfg, s.callers, c, r);
      case Advance(i, seen, spurious) =>
        AccountedCovers(cfg, s, i);
        StepBalances(cfg, s.pool, s.callers[i], seen, spurious, r);
        SumUpdate(cfg, s.callers, i, s'.callers[i], r);
      case Drop(i) =>
        DropIsExact(cfg, s.callers[i].role);
        SumUpdate(cfg, s.callers, i, s'.callers[i], r);
    }
    forall c | c in s'.callers ensures WellPlaced(cfg, c) {
      match a
      case Call(_, _, _) =>
      case Advance(i, seen, spurious) =>
        AccountedCovers(cfg, s, i);
        StepBalances(cfg, s.pool, s.callers[i], seen, spurious, JobSlot);
      case Drop(i) =>
        DropIsExact(cfg, s.callers[i].role);
    }
  }

  // ---- whole runs ----

  /** In every interleaving, at every moment: each counter is exactly what in-flight
      callers and live leases hold, and no budget, ceiling or permit count is exceeded. */
  lemma {:induction false} NoOversubscription(cfg: Config, states: seq<State>, actions: seq<Action>, n: nat)
    requires Run(cfg, states, actions) && n < |states|
    ensures Accounted(cfg, states[n])
  {
    if n > 0 {
      NoOversubscription(cfg, states, actions, n - 1);
      StepKeepsAccounted(cfg, states[n - 1], actions[n - 1], states[n]);
    }
  }

  // What the callers that hold `r` asked for, in the request's own numbers.

  function MemoryOf(cfg: Config, cs: seq<Caller>, r: Resource): nat {
    if cs == [] then 0 else (if r in HeldBy(cfg, cs[0]) then cs[0].memory else 0) + MemoryOf(cfg, cs[1..], r)
  }

  function ThreadsOf(cfg: Config, cs: seq<Caller>, r: Resource): nat {
    if cs == [] then 0 else (if r in HeldBy(cfg, cs[0]) then cs[0].threads else 0) + ThreadsOf(cfg, cs[1..], r)
  }

  function CountOf(cfg: Config, cs: seq<Caller>, r: Resource): nat {
    if cs == [] then 0 else (if r in HeldBy(cfg, cs[0]) then 1 else 0) + CountOf(cfg, cs[1..], r)
  }

  lemma {:induction false} SumIsRequested(cfg: Config, cs: seq<Caller>, r: Resource)
    ensures Sum(cfg, cs, r)
         == if r.JobSlot? || r.GovSlot? then CountOf(cfg, cs, r)
            else if r.Threads? || r.GovThreads? then ThreadsOf(cfg, cs, r)
            else MemoryOf(cfg, cs, r)
  {
    hide HeldBy;
    if cs != [] { SumIsRequested(cfg, cs[1..], r); }
  }

  /** So in every interleaving, at every moment: the memory words are the memory, the thread words the threads
      and the taken permits the number of the requests that hold them, each within its own limit and width. */
  lemma WordsAreRequests(cfg: Config, states: seq<State>, actions: seq<Action>, n: nat)
    requires Run(cfg, states, actions) && n < |states|
    ensures var p, cs := states[n].pool, states[n].callers;
            && p.memory == MemoryOf(cfg, cs, Memory) <= cfg.memory && p.memory < 0x1_0000_0000_0000_0000
            && p.threads == ThreadsOf(cfg, cs, Threads) <= cfg.threads && p.threads < 0x1_0000_0000
            && p.jobPermits + CountOf(cfg, cs, JobSlot) == cfg.maxJobs
            && p.govMemory == MemoryOf(cfg, cs, GovMemory) <= cfg.govMemory && p.govMemory < 0x1_0000_0000_0000_0000
            && p.govServed == MemoryOf(cfg, cs, GovServed) <= cfg.govServedCeiling
            && p.govServed < 0x1_0000_0000_0000_0000
            && p.govThreads == ThreadsOf(cfg, cs, GovThreads) <= cfg.govThreads && p.govThreads < 0x1_0000_0000
            && p.govPermits + CountOf(cfg, cs, GovSlot) == cfg.govJobs
  {
    NoOversubscription(cfg, states, actions, n);
    var p, cs := states[n].pool, states[n].callers;
    hide Sum, MemoryOf, ThreadsOf, CountOf;
    forall r ensures Taken(cfg, p, r) == Sum(cfg, cs, r) && InBounds(cfg, p, r) { }
    SumIsRequested(cfg, cs, JobSlot);
    SumIsRequested(cfg, cs, Memory);
    SumIsRequested(cfg, cs, Threads);
    SumIsRequested(cfg, cs, GovSlot);
    SumIsRequested(cfg, cs, GovMemory);
    SumIsRequested(cfg, cs, GovServed);
    SumIsRequested(cfg, cs, GovThreads);
    assert Taken(cfg, p, Memory) == p.memory && Taken(cfg, p, Threads) == p.threads;
    assert Taken(cfg, p, GovMemory) == p.govMemory && Taken(cfg, p, GovThreads) == p.govThreads;
    assert Taken(cfg, p, GovServed) == p.govServed;
    assert Taken(cfg, p, JobSlot) == cfg.maxJobs - p.jobPermits && Taken(cfg, p, GovSlot) == cfg.govJobs - p.govPermits;
  }

  /** No fetch_sub ever underflows and no released permit exceeds the semaphore. */
  lemma ReleasesNeverUnderflow(cfg: Config, states: seq<State>, actions: seq<Action>, n: nat, i: nat)
    requires Run(cfg, states, actions) && n < |states| && i < |states[n].callers|
    requires var c := states[n].callers[i]; c.pc.Releasing? && c.pc.todo != []
    ensures var s := states[n];
            var c := s.callers[i];
            var r := c.pc.todo[0];
            && Amount(c, r) <= Taken(cfg, s.pool, r)
            && GiveBack(s.pool, c, r)
                 == Set(s.pool, r, if IsSlot(r) then Get(s.pool, r) + 1 else Get(s.pool, r) - Amount(c, r))
            && (IsSlot(r) ==> Get(GiveBack(s.pool, c, r), r) <= Capacity(cfg, r))
  {
    var s := states[n];
    var c := s.callers[i];
    var r := c.pc.todo[0];
    NoOversubscription(cfg, states, actions, n);
    AccountedCovers(cfg, s, i);
    assert Held(cfg, c, r) <= Taken(cfg, s.pool, r) && InBounds(cfg, s.pool, r);
    GiveBackSubtracts(cfg, s.pool, c, r, r);
  }

  /** What caller number `i` holds of `r`; nothing before its call is made. */
  function HeldAt(cfg: Config, s: State, i: nat, r: Resource): nat {
    if i < |s.callers| then Held(cfg, s.callers[i], r) else 0
  }

  /** The change that step `a` makes to word `r` by an operation of caller `i` itself. */
  function OwnEffect(cfg: Config, s: State, a: Action, s': State, i: nat, r: Resource): int {
    if a.Advance? && a.caller == i then Taken(cfg, s'.pool, r) - Taken(cfg, s.pool, r) else 0
  }

  lemma OwnEffectIsHoldingChange(cfg: Config, s: State, a: Action, s': State, i: nat, r: Resource)
    requires Accounted(cfg, s) && Next(cfg, s, a, s')
    ensures OwnEffect(cfg, s, a, s', i, r) == HeldAt(cfg, s', i, r) - HeldAt(cfg, s, i, r)
  {
    hide StepCaller, InBounds, Taken, Acquires;
    match a
    case Call(_, _, _) =>
      assert Held(cfg, s'.callers[|s.callers|], r) == 0;
    case Advance(j, seen, spurious) =>
      AccountedCovers(cfg, s, j);
      StepBalances(cfg, s.pool, s.callers[j], seen, spurious, r);
    case Drop(j) =>
      DropIsExact(cfg, s.callers[j].role);
  }

  /** The total change caller `i`'s own operations made to word `r` in the first `n` steps. */
  ghost function NetEffect(cfg: Config, states: seq<State>, actions: seq<Action>, i: nat, r: Resource, n: nat): int
    requires n <= |actions| && |states| == |actions| + 1
  {
    if n == 0 then 0
    else NetEffect(cfg, states, actions, i, r, n - 1)
         + OwnEffect(cfg, states[n - 1], actions[n - 1], states[n], i, r)
  }

  lemma FinishedHoldsNothing(cfg: Config, c: Caller, r: Resource)
    ensures c.pc.Finished? ==> Held(cfg, c, r) == 0
  {}

  /** A call's net effect on every word is what it still holds; a finished call,
      refused or granted and dropped, has had no net effect at all. */
  lemma {:induction false} NetEffectIsHolding(cfg: Config, states: seq<State>, actions: seq<Action>, i: nat,
                                              r: Resource, n: nat)
    requires Run(cfg, states, actions) && n <= |actions|
    ensures NetEffect(cfg, states, actions, i, r, n) == HeldAt(cfg, states[n], i, r)
    ensures i < |states[n].callers| && states[n].callers[i].pc.Finished? ==>
              NetEffect(cfg, states, actions, i, r, n) == 0
  {
    hide Next, Accounted, OwnEffect, Held;
    if n > 0 {
      NetEffectIsHolding(cfg, states, actions, i, r, n - 1);
      NoOversubscription(cfg, states, actions, n - 1);
      OwnEffectIsHoldingChange(cfg, states[n - 1], actions[n - 1], states[n], i, r);
    }
    if i < |states[n].callers| { FinishedHoldsNothing(cfg, states[n].callers[i], r); }
  }

  lemma {:induction false} FinishedHoldNothing(cfg: Config, cs: seq<Caller>, r: Resource)
    requires forall c | c in cs :: c.pc.Finished?
    ensures Sum(cfg, cs, r) == 0
  {
    if cs != [] {
      FinishedHoldNothing(cfg, cs[1..], r);
    }
  }

  /** Once every call has finished, the shared words are back where they started. */
  lemma QuiescenceRestores(cfg: Config, states: seq<State>, actions: seq<Action>, n: nat)
    requires Run(cfg, states, actions) && n < |states|
    requires forall c | c in states[n].callers :: c.pc.Finished?
    ensures states[n].pool == states[0].pool
  {
    NoOversubscription(cfg, states, actions, n);
    var p := states[n].pool;
    forall r ensures Taken(cfg, p, r) == 0 {
      FinishedHoldNothing(cfg, states[n].callers, r);
    }
    assert Taken(cfg, p, JobSlot) == Taken(cfg, p, Memory) == Taken(cfg, p, Threads) == 0;
    assert Taken(cfg, p, GovSlot) == Taken(cfg, p, GovMemory) == Taken(cfg, p, GovServed) == Taken(cfg, p, GovThreads)
        == 0;
  }

  // ---- what the advertised snapshot and the two roles can rely on ----

  function SaturatingSub(a: nat, b: nat): nat { if a >= b then a - b else 0 }

  /** `free()` makes three relaxed loads, each of which may see its word as it was at another moment.
      What it reports of a word is exactly the budget minus what was held at the moment it saw. */
  lemma SnapshotIsExact(cfg: Config, states: seq<State>, actions: seq<Action>, m: nat, t: nat, j: nat)
    requires Run(cfg, states, actions) && m < |states| && t < |states| && j < |states|
    ensures SaturatingSub(cfg.memory, states[m].pool.memory) + MemoryOf(cfg, states[m].callers, Memory) == cfg.memory
    ensures SaturatingSub(cfg.threads, states[t].pool.threads) + ThreadsOf(cfg, states[t].callers, Threads)
         == cfg.threads
    ensures states[j].pool.jobPermits + CountOf(cfg, states[j].callers, JobSlot) == cfg.maxJobs
  {
    hide Run, MemoryOf, ThreadsOf, CountOf;
    WordsAreRequests(cfg, states, actions, m);
    WordsAreRequests(cfg, states, actions, t);
    WordsAreRequests(cfg, states, actions, j);
  }

  // What the granted, not yet dropped leases of one role stand for.

  predicate HasLease(c: Caller, role: Role) { c.pc.Holding? && c.role == role }

  function LeasedMemory(cs: seq<Caller>, role: Role): nat {
    if cs == [] then 0 else (if HasLease(cs[0], role) then cs[0].memory else 0) + LeasedMemory(cs[1..], role)
  }

  function LeasedThreads(cs: seq<Caller>, role: Role): nat {
    if cs == [] then 0 else (if HasLease(cs[0], role) then cs[0].threads else 0) + LeasedThreads(cs[1..], role)
  }

  function Leases(cs: seq<Caller>, role: Role): nat {
    if cs == [] then 0 else (if HasLease(cs[0], role) then 1 else 0) + Leases(cs[1..], role)
  }

  /** The leases of the roles that acquire `r` are among the holders of `r`, and are all of them when no call is
      under way. */
  ghost predicate LeasesAmount(cfg: Config, cs: seq<Caller>, r: Resource, served: nat, own: nat, held: nat) {
    var leased := (if r in Acquires(cfg, Served) then served else 0) + (if r in Acquires(cfg, Own) then own else 0);
    leased <= held && ((forall c | c in cs :: c.pc.Holding? || c.pc.Finished?) ==> leased == held)
  }

  /** What one caller's lease and holding of `r` have to do with each other. */
  lemma LeaseIsHeld(cfg: Config, c: Caller, r: Resource)
    ensures HasLease(c, Served) || HasLease(c, Own) ==> (r in HeldBy(cfg, c) <==> r in Acquires(cfg, c.role))
    ensures c.pc.Finished? ==> r !in HeldBy(cfg, c)
  {}

  lemma {:induction false} LeasedMemoryIsHeld(cfg: Config, cs: seq<Caller>, r: Resource)
    ensures LeasesAmount(cfg, cs, r, LeasedMemory(cs, Served), LeasedMemory(cs, Own), MemoryOf(cfg, cs, r))
  {
    if cs != [] {
      hide Acquires, HeldBy;
      LeaseIsHeld(cfg, cs[0], r);
      LeasedMemoryIsHeld(cfg, cs[1..], r);
    }
  }

  lemma {:induction false} LeasedThreadsAreHeld(cfg: Config, cs: seq<Caller>, r: Resource)
    ensures LeasesAmount(cfg, cs, r, LeasedThreads(cs, Served), LeasedThreads(cs, Own), ThreadsOf(cfg, cs, r))
  {
    if cs != [] {
      hide Acquires, HeldBy;
      LeaseIsHeld(cfg, cs[0], r);
      LeasedThreadsAreHeld(cfg, cs[1..], r);
    }
  }

  lemma {:induction false} LeasesAreHeld(cfg: Config, cs: seq<Caller>, r: Resource)
    ensures LeasesAmount(cfg, cs, r, Leases(cs, Served), Leases(cs, Own), CountOf(cfg, cs, r))
  {
    if cs != [] {
      hide Acquires, HeldBy;
      LeaseIsHeld(cfg, cs[0], r);
      LeasesAreHeld(cfg, cs[1..], r);
    }
  }

  /** When no call is under way the words are exactly the live leases: the worker's those of the served jobs, the
      governor's those of both roles. */
  lemma IdleWordsAreLeases(cfg: Config, states: seq<State>, actions: seq<Action>, n: nat)
    requires Run(cfg, states, actions) && n < |states| && cfg.governed
    requires forall c | c in states[n].callers :: c.pc.Holding? || c.pc.Finished?
    ensures var p, cs := states[n].pool, states[n].callers;
            && p.memory == p.govServed == LeasedMemory(cs, Served) && p.threads == LeasedThreads(cs, Served)
            && p.govMemory == LeasedMemory(cs, Served) + LeasedMemory(cs, Own)
            && p.govThreads == LeasedThreads(cs, Served) + LeasedThreads(cs, Own)
            && p.jobPermits == cfg.maxJobs - Leases(cs, Served)
            && p.govPermits == cfg.govJobs - Leases(cs, Served) - Leases(cs, Own)
  {
    hide Run;
    WordsAreRequests(cfg, states, actions, n);
    AllLeasesAreHeld(cfg, states[n].callers);
    PlansHold(cfg);
  }

  lemma AllLeasesAreHeld(cfg: Config, cs: seq<Caller>)
    ensures forall r :: LeasesAmount(cfg, cs, r, LeasedMemory(cs, Served), LeasedMemory(cs, Own), MemoryOf(cfg, cs, r))
    ensures forall r ::
              LeasesAmount(cfg, cs, r, LeasedThreads(cs, Served), LeasedThreads(cs, Own), ThreadsOf(cfg, cs, r))
    ensures forall r :: LeasesAmount(cfg, cs, r, Leases(cs, Served), Leases(cs, Own), CountOf(cfg, cs, r))
  {
    hide LeasesAmount;
    forall r
      ensures LeasesAmount(cfg, cs, r, LeasedMemory(cs, Served), LeasedMemory(cs, Own), MemoryOf(cfg, cs, r))
    { LeasedMemoryIsHeld(cfg, cs, r); }
    forall r
      ensures LeasesAmount(cfg, cs, r, LeasedThreads(cs, Served), LeasedThreads(cs, Own), ThreadsOf(cfg, cs, r))
    { LeasedThreadsAreHeld(cfg, cs, r); }
    forall r ensures LeasesAmount(cfg, cs, r, Leases(cs, Served), Leases(cs, Own), CountOf(cfg, cs, r)) {
      LeasesAreHeld(cfg, cs, r);
    }
  }

  lemma PlansHold(cfg: Config)
    requires cfg.governed
    ensures forall r :: r in Acquires(cfg, Served)
    ensures forall r :: r in Acquires(cfg, Own) <==> r in {GovSlot, GovMemory, GovThreads}
  {
    var served, own := Acquires(cfg, Served), Acquires(cfg, Own);
    assert served[0] == JobSlot && served[1] == Memory && served[2] == Threads && served[3] == GovSlot;
    assert served[4] == GovMemory && served[5] == GovServed && served[6] == GovThreads;
    assert own[0] == GovSlot && own[1] == GovMemory && own[2] == GovThreads;
    forall r ensures r in served {
      match r
      case JobSlot => case Memory => case Threads =>
      case GovSlot => case GovMemory => case GovServed => case GovThreads =>
    }
  }

  /** The node's own queries and the jobs it serves never jointly exceed the machine in memory,
      threads or slots; served leases never reach into the memory reserved for own work, and stay
      within the worker's own budget. */
  lemma RolesShareTheMachine(cfg: Config, states: seq<State>, actions: seq<Action>, n: nat)
    requires Run(cfg, states, actions) && n < |states| && cfg.governed
    ensures var cs := states[n].callers;
            && LeasedMemory(cs, Served) + LeasedMemory(cs, Own) <= cfg.govMemory
            && LeasedThreads(cs, Served) + LeasedThreads(cs, Own) <= cfg.govThreads
            && Leases(cs, Served) + Leases(cs, Own) <= cfg.govJobs
            && LeasedMemory(cs, Served) <= cfg.govServedCeiling
            && LeasedMemory(cs, Served) <= cfg.memory && LeasedThreads(cs, Served) <= cfg.threads
            && Leases(cs, Served) <= cfg.maxJobs
  {
    hide Run;
    WordsAreRequests(cfg, states, actions, n);
    AllLeasesAreHeld(cfg, states[n].callers);
    PlansHold(cfg);
  }

  // ---- the uncontended case ----

  predicate Fits(cfg: Config, p: Pool, c: Caller, r: Resource) {
    if IsSlot(r) then Get(p, r) > 0
    else Get(p, r) + Amount(c, r) <= Capacity(cfg, r) && Get(p, r) + Amount(c, r) < Width(r)
  }

  /** The k-th and later acquisitions of `c` when nobody interferes, every load is
      current and no compare-exchange fails spuriously. */
  function Uncontended(cfg: Config, p: Pool, c: Caller): (Pool, Pc)
    requires c.pc.Trying? && c.pc.k <= |Acquires(cfg, c.role)|
    decreases |Acquires(cfg, c.role)| - c.pc.k
  {
    var plan, k := Acquires(cfg, c.role), c.pc.k;
    if k == |plan| then StepCaller(cfg, p, c, 0, false)
    else
      var (p1, pc1) := StepCaller(cfg, p, c, Get(p, plan[k]), false);
      var (p2, pc2) := if pc1.Racing? then StepCaller(cfg, p1, c.(pc := pc1), 0, false) else (p1, pc1);
      if pc2.Trying? then Uncontended(cfg, p2, c.(pc := pc2)) else (p2, pc2)
  }

  function Take(p: Pool, c: Caller, r: Resource): Pool {
    if IsSlot(r) then Set(p, r, SaturatingSub(Get(p, r), 1)) else Set(p, r, Get(p, r) + Amount(c, r))
  }

  lemma UncontendedTakes(cfg: Config, p: Pool, c: Caller)
    requires c.pc.Trying? && c.pc.k < |Acquires(cfg, c.role)|
    ensures var r := Acquires(cfg, c.role)[c.pc.k];
            if Fits(cfg, p, c, r)
            then Uncontended(cfg, p, c) == Uncontended(cfg, Take(p, c, r), c.(pc := Trying(c.pc.k + 1)))
            else Uncontended(cfg, p, c).1.Releasing?
  {
  }

  lemma TakeLeavesOthers(cfg: Config, p: Pool, c: Caller, k: nat, j: nat, pc: Pc)
    requires k < j < |Acquires(cfg, c.role)|
    ensures var r, q := Acquires(cfg, c.role)[k], Acquires(cfg, c.role)[j];
            Fits(cfg, Take(p, c, r), c.(pc := pc), q) <==> Fits(cfg, p, c, q)
  {
    assert Acquires(cfg, c.role)[k] != Acquires(cfg, c.role)[j];
  }

  lemma UncontendedEnds(cfg: Config, p: Pool, c: Caller)
    requires c.pc.Trying? && c.pc.k == |Acquires(cfg, c.role)|
    ensures Uncontended(cfg, p, c).1.Holding?
  {
  }

  /** Without contention a request is admitted if and only if it fits every limit. */
  lemma {:induction false} AdmitsIffFits(cfg: Config, p: Pool, c: Caller)
    requires c.pc.Trying? && c.pc.k <= |Acquires(cfg, c.role)|
    ensures Uncontended(cfg, p, c).1.Holding?
       <==> forall j | c.pc.k <= j < |Acquires(cfg, c.role)| :: Fits(cfg, p, c, Acquires(cfg, c.role)[j])
    decreases |Acquires(cfg, c.role)| - c.pc.k
  {
    hide Acquires, Fits, Take, Uncontended;
    var plan, k := Acquires(cfg, c.role), c.pc.k;
    if k == |plan| {
      UncontendedEnds(cfg, p, c);
    } else {
      UncontendedTakes(cfg, p, c);
      if Fits(cfg, p, c, plan[k]) {
        var p', c' := Take(p, c, plan[k]), c.(pc := Trying(k + 1));
        AdmitsIffFits(cfg, p', c');
        forall j | k < j < |plan| ensures Fits(cfg, p', c', plan[j]) <==> Fits(cfg, p, c, plan[j]) {
          TakeLeavesOthers(cfg, p, c, k, j, c'.pc);
        }
      }
    }
  }

  predicate FitsWord(used: nat, asked: nat, limit: nat, width: nat) { used + asked <= limit && used + asked < width }

  predicate FitsWorker(cfg: Config, p: Pool, memory: nat, threads: nat) {
    && p.jobPermits > 0
    && FitsWord(p.memory, memory, cfg.memory, 0x1_0000_0000_0000_0000)
    && FitsWord(p.threads, threads, cfg.threads, 0x1_0000_0000)
  }

  predicate FitsMachine(cfg: Config, p: Pool, memory: nat, threads: nat) {
    && p.govPermits > 0
    && FitsWord(p.govMemory, memory, cfg.govMemory, 0x1_0000_0000_0000_0000)
    && FitsWord(p.govThreads, threads, cfg.govThreads, 0x1_0000_0000)
  }

  function OnWorker(p: Pool, memory: nat, threads: nat): Pool
    requires p.jobPermits > 0
  {
    p.(jobPermits := p.jobPermits - 1, memory := p.memory + memory, threads := p.threads + threads)
  }

  function OnMachine(p: Pool, memory: nat, threads: nat): Pool
    requires p.govPermits > 0
  {
    p.(govPermits := p.govPermits - 1, govMemory := p.govMemory + memory, govThreads := p.govThreads + threads)
  }

  lemma ServedAdmits(cfg: Config, p: Pool, memory: nat, threads: nat)
    ensures Uncontended(cfg, p, Caller(Served, memory, threads, Trying(0))).1.Holding?
       <==> && FitsWorker(cfg, p, memory, threads)
            && (cfg.governed ==>
                  && FitsMachine(cfg, p, memory, threads)
                  && FitsWord(p.govServed, memory, cfg.govServedCeiling, 0x1_0000_0000_0000_0000))
  {
    hide Uncontended;
    AdmitsIffFits(cfg, p, Caller(Served, memory, threads, Trying(0)));
    var plan := Acquires(cfg, Served);
    assert plan[0] == JobSlot && plan[1] == Memory && plan[2] == Threads;
    if cfg.governed {
      assert plan[3] == GovSlot && plan[4] == GovMemory && plan[5] == GovServed && plan[6] == GovThreads;
    }
  }

  lemma WorkerSteps(cfg: Config, p: Pool, c: Caller)
    requires c.role.Served? && c.pc == Trying(0) && FitsWorker(cfg, p, c.memory, c.threads)
    ensures Uncontended(cfg, p, c) == Uncontended(cfg, OnWorker(p, c.memory, c.threads), c.(pc := Trying(3)))
  {
    hide Uncontended;
    var p1 := p.(jobPermits := p.jobPermits - 1);
    var p2 := p1.(memory := p.memory + c.memory);
    UncontendedTakes(cfg, p, c);
    UncontendedTakes(cfg, p1, c.(pc := Trying(1)));
    UncontendedTakes(cfg, p2, c.(pc := Trying(2)));
  }

  /** Without a governor a served job is admitted exactly when a slot is free and its memory and threads fit the
      worker's; they are then taken, each from its own word. */
  lemma WorkerAdmitsExactly(cfg: Config, p: Pool, memory: nat, threads: nat)
    requires !cfg.governed
    ensures var (p', pc) := Uncontended(cfg, p, Caller(Served, memory, threads, Trying(0)));
            && (pc.Holding? <==> FitsWorker(cfg, p, memory, threads))
            && (pc.Holding? ==> p' == OnWorker(p, memory, threads))
  {
    hide FitsWord;
    ServedAdmits(cfg, p, memory, threads);
    if FitsWorker(cfg, p, memory, threads) {
      var c := Caller(Served, memory, threads, Trying(0));
      WorkerSteps(cfg, p, c);
    }
  }

  lemma OwnSteps(cfg: Config, p: Pool, c: Caller)
    requires c.role.Own? && c.pc == Trying(0) && FitsMachine(cfg, p, c.memory, c.threads)
    ensures Uncontended(cfg, p, c) == Uncontended(cfg, OnMachine(p, c.memory, c.threads), c.(pc := Trying(3)))
  {
    hide Uncontended;
    var p1 := p.(govPermits := p.govPermits - 1);
    var p2 := p1.(govMemory := p.govMemory + c.memory);
    UncontendedTakes(cfg, p, c);
    UncontendedTakes(cfg, p1, c.(pc := Trying(1)));
    UncontendedTakes(cfg, p2, c.(pc := Trying(2)));
  }

  /** A query of the node itself is admitted exactly when it fits the machine, whatever the served ceiling. */
  lemma OwnAdmitsExactly(cfg: Config, p: Pool, memory: nat, threads: nat)
    ensures var (p', pc) := Uncontended(cfg, p, Caller(Own, memory, threads, Trying(0)));
            && (pc.Holding? <==> FitsMachine(cfg, p, memory, threads))
            && (pc.Holding? ==> p' == OnMachine(p, memory, threads))
  {
    var c := Caller(Own, memory, threads, Trying(0));
    AdmitsIffFits(cfg, p, c);
    var plan := Acquires(cfg, Own);
    assert plan[0] == GovSlot && plan[1] == GovMemory && plan[2] == GovThreads;
    if FitsMachine(cfg, p, memory, threads) { OwnSteps(cfg, p, c); }
  }

  lemma GovernorSteps(cfg: Config, p: Pool, c: Caller)
    requires cfg.governed && c.role.Served? && c.pc == Trying(3) && FitsMachine(cfg, p, c.memory, c.threads)
    requires FitsWord(p.govServed, c.memory, cfg.govServedCeiling, 0x1_0000_0000_0000_0000)
    ensures var p' := OnMachine(p, c.memory, c.threads).(govServed := p.govServed + c.memory);
            Uncontended(cfg, p, c) == Uncontended(cfg, p', c.(pc := Trying(7)))
  {
    hide Uncontended;
    var p1 := p.(govPermits := p.govPermits - 1);
    var p2 := p1.(govMemory := p.govMemory + c.memory);
    var p3 := p2.(govServed := p.govServed + c.memory);
    UncontendedTakes(cfg, p, c);
    UncontendedTakes(cfg, p1, c.(pc := Trying(4)));
    UncontendedTakes(cfg, p2, c.(pc := Trying(5)));
    UncontendedTakes(cfg, p3, c.(pc := Trying(6)));
  }

  /** With a governor a served job is admitted exactly when it fits the worker and the machine and the memory
      served jobs may use. */
  lemma GovernedAdmitsExactly(cfg: Config, p: Pool, memory: nat, threads: nat)
    requires cfg.governed
    ensures var (p', pc) := Uncontended(cfg, p, Caller(Served, memory, threads, Trying(0)));
            && (pc.Holding? <==>
                  && FitsWorker(cfg, p, memory, threads) && FitsMachine(cfg, p, memory, threads)
                  && FitsWord(p.govServed, memory, cfg.govServedCeiling, 0x1_0000_0000_0000_0000))
            && (pc.Holding? ==>
                  p' == OnMachine(OnWorker(p, memory, threads), memory, threads).(govServed := p.govServed + memory))
  {
    hide FitsWord;
    ServedAdmits(cfg, p, memory, threads);
    var c := Caller(Served, memory, threads, Trying(0));
    if Uncontended(cfg, p, c).1.Holding? {
      WorkerSteps(cfg, p, c);
      GovernorSteps(cfg, OnWorker(p, memory, threads), c.(pc := Trying(3)));
    }
  }
}
