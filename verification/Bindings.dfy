/** The registry that binds node ids to collateral wallets (`binding.rs`), and the wallet-wide
    reputation the requester derives from it (`wallet_siblings` and `wallet_reputation` in
    `coordinator.rs`). */
module Bindings {
  import opened Wrappers
  import opened Text
  import opened KeyedList

  datatype Binding = Binding(wallet: string, hash: string, ts: nat)

  type Entry = Row<Binding>

  datatype BindError = EmptyField

  datatype Op = Bind(nodeId: string, wallet: string, hash: string, ts: nat) | Unbind(nodeId: string)

  predicate Acceptable(nodeId: string, wallet: string) { Trim(nodeId) != "" && Trim(wallet) != "" }

  function Applied(entries: seq<Entry>, op: Op): seq<Entry> {
    match op
    case Bind(nodeId, wallet, hash, ts) =>
      if Acceptable(nodeId, wallet) then Put(entries, Trim(nodeId), Binding(Trim(wallet), Trim(hash), ts)) else entries
    case Unbind(nodeId) => Without(entries, Trim(nodeId))
  }

  class BindingStore {
    var entries: seq<Entry>

    method Bind(nodeId: string, wallet: string, hash: string, ts: nat) returns (r: Result<(), BindError>)
      modifies this
      ensures entries == Applied(old(entries), Op.Bind(nodeId, wallet, hash, ts))
      ensures r.Ok? <==> Acceptable(nodeId, wallet)
    {
      var id, w := Trim(nodeId), Trim(wallet);
      if id == "" || w == "" { return Err(EmptyField); }
      var kept := Without(entries, id);
      entries := kept + [Row(id, Binding(w, Trim(hash), ts))];
      return Ok(());
    }

    method Unbind(nodeId: string) returns (removed: bool)
      modifies this
      ensures entries == Applied(old(entries), Op.Unbind(nodeId))
      ensures removed <==> Trim(nodeId) in Keys(old(entries))
    {
      var kept := Without(entries, Trim(nodeId));
      WithoutShortens(entries, Trim(nodeId));
      removed := |kept| != |entries|;
      if removed { entries := kept; }
    }

    method Get(nodeId: string) returns (found: Option<Binding>)
      ensures found == Find(entries, nodeId)
    {
      var i := 0;
      while i < |entries|
        invariant 0 <= i <= |entries|
        invariant Find(entries, nodeId) == Find(entries[i..], nodeId)
      {
        if entries[i].key == nodeId { return Some(entries[i].value); }
        i := i + 1;
      }
      return None;
    }
  }

  // ------------------------------------------------------------ the list is a table

  function Run(entries: seq<Entry>, ops: seq<Op>): seq<Entry> {
    if ops == [] then entries else Applied(Run(entries, ops[..|ops| - 1]), ops[|ops| - 1])
  }

  /** The same operations on a finite map. */
  ghost function OnMap(m: map<string, Binding>, ops: seq<Op>): map<string, Binding> {
    if ops == [] then m
    else
      var before := OnMap(m, ops[..|ops| - 1]);
      match ops[|ops| - 1]
      case Bind(nodeId, wallet, hash, ts) =>
        if Acceptable(nodeId, wallet) then before[Trim(nodeId) := Binding(Trim(wallet), Trim(hash), ts)] else before
      case Unbind(nodeId) => before - {Trim(nodeId)}
  }

  /** Any sequence of calls keeps one entry per node id, and the list is the map the same calls
      build: scanning it and looking ids up in it see the same bindings. */
  lemma {:induction false} ListIsATable(entries: seq<Entry>, ops: seq<Op>)
    requires UniqueKeys(entries)
    ensures UniqueKeys(Run(entries, ops))
    ensures Table(Run(entries, ops)) == OnMap(Table(entries), ops)
    ensures forall e :: e in Run(entries, ops) ==> Find(Run(entries, ops), e.key) == Some(e.value)
  {
    hide Table, UniqueKeys, Put, Without, Trim, Find;
    if ops != [] {
      var before := Run(entries, ops[..|ops| - 1]);
      ListIsATable(entries, ops[..|ops| - 1]);
      match ops[|ops| - 1] {
        case Bind(nodeId, wallet, hash, ts) =>
          PutKeys(before, Trim(nodeId), Binding(Trim(wallet), Trim(hash), ts));
          TableOfPut(before, Trim(nodeId), Binding(Trim(wallet), Trim(hash), ts));
        case Unbind(nodeId) =>
          WithoutKeys(before, Trim(nodeId));
          TableOfWithout(before, Trim(nodeId));
      }
    }
    forall e | e in Run(entries, ops) ensures Find(Run(entries, ops), e.key) == Some(e.value) {
      RowsAreFound(Run(entries, ops), e);
    }
  }

  // ------------------------------------------------------------ reputation

  /** What the trust store says about one id. */
  datatype Standing = Standing(observations: nat, confident: Option<real>)

  datatype Score = Score(reputation: real, observations: nat)

  /** The ids bound to `wallet`, in list order. */
  function OnWallet(entries: seq<Entry>, wallet: string): seq<string> {
    if entries == [] then []
    else (if entries[0].value.wallet == wallet then [entries[0].key] else []) + OnWallet(entries[1..], wallet)
  }

  function Siblings(entries: seq<Entry>, worker: string): seq<string> {
    match Find(entries, worker)
    case None => []
    case Some(b) => OnWallet(entries, b.wallet)
  }

  predicate Counted(s: Standing) { s.observations > 0 && s.confident.Some? }

  function Observed(ids: seq<string>, trust: string -> Standing): nat {
    if ids == [] then 0
    else
      var s := trust(ids[|ids| - 1]);
      Observed(ids[..|ids| - 1], trust) + (if Counted(s) then s.observations else 0)
  }

  function Times(x: real, n: nat): real { x * n as real }

  function Weighted(ids: seq<string>, trust: string -> Standing): real {
    if ids == [] then 0.0
    else
      var s := trust(ids[|ids| - 1]);
      Weighted(ids[..|ids| - 1], trust) + (if Counted(s) then Times(s.confident.value, s.observations) else 0.0)
  }

  function Alone(s: Standing, bootstrap: real): Score {
    Score(if s.confident.Some? then s.confident.value else bootstrap, s.observations)
  }

  /** The observation-weighted mean over a wallet's ids. */
  function Pooled(ids: seq<string>, trust: string -> Standing, bootstrap: real): Score {
    var total := Observed(ids, trust);
    if total == 0 then Score(bootstrap, 0) else Score(Weighted(ids, trust) / total as real, total)
  }

  function WalletScore(entries: seq<Entry>, worker: string, trust: string -> Standing, bootstrap: real): Score {
    var ids := Siblings(entries, worker);
    if |ids| <= 1 then Alone(trust(worker), bootstrap) else Pooled(ids, trust, bootstrap)
  }

  /** The accumulating loop over a wallet's ids. */
  method WalletReputation(store: Option<BindingStore>, worker: string, trust: string -> Standing, bootstrap: real)
    returns (score: Score)
    ensures score == WalletScore(if store.Some? then store.value.entries else [], worker, trust, bootstrap)
  {
    var ids := [];
    if store.Some? { ids := Siblings(store.value.entries, worker); }
    if |ids| <= 1 { return Alone(trust(worker), bootstrap); }
    var weighted, total := 0.0, 0;
    for i := 0 to |ids|
      invariant total == Observed(ids[..i], trust) && weighted == Weighted(ids[..i], trust)
    {
      assert ids[..i + 1][..i] == ids[..i];
      var s := trust(ids[i]);
      if s.observations == 0 { continue; }
      if s.confident.Some? {
        weighted := weighted + Times(s.confident.value, s.observations);
        total := total + s.observations;
      }
    }
    assert ids[..|ids|] == ids;
    score := if total == 0 then Score(bootstrap, 0) else Score(weighted / total as real, total);
  }

  lemma {:induction false} OnWalletMeans(entries: seq<Entry>, wallet: string, id: string)
    ensures id in OnWallet(entries, wallet)
       <==> exists i :: 0 <= i < |entries| && entries[i].key == id && entries[i].value.wallet == wallet
  {
    if entries != [] {
      OnWalletMeans(entries[1..], wallet, id);
      assert forall i :: 0 < i < |entries| ==> entries[i] == entries[1..][i - 1];
    }
  }

  lemma MemberIsListed(entries: seq<Entry>, member: string)
    requires Find(entries, member).Some?
    ensures member in Siblings(entries, member)
    ensures |Siblings(entries, member)| <= 1 ==> Siblings(entries, member) == [member]
  {
    FindMeans(entries, member);
    OnWalletMeans(entries, Find(entries, member).value.wallet, member);
  }

  /** All ids on a shared wallet get the same reputation and observation count. */
  lemma SharedWalletSharedScore(entries: seq<Entry>, a: string, b: string, trust: string -> Standing, bootstrap: real)
    requires a != b && Find(entries, a).Some? && Find(entries, b).Some?
    requires Find(entries, a).value.wallet == Find(entries, b).value.wallet
    ensures WalletScore(entries, a, trust, bootstrap) == WalletScore(entries, b, trust, bootstrap)
    ensures WalletScore(entries, a, trust, bootstrap) == Pooled(Siblings(entries, a), trust, bootstrap)
  {
    MemberIsListed(entries, a);
    MemberIsListed(entries, b);
  }

  lemma TimesBetween(lo: real, x: real, hi: real, n: nat, k: nat)
    requires lo <= x <= hi
    ensures Times(lo, n + k) == Times(lo, n) + Times(lo, k) && Times(hi, n + k) == Times(hi, n) + Times(hi, k)
    ensures Times(lo, k) <= Times(x, k) <= Times(hi, k)
  {}

  ghost predicate AllWithin(ids: seq<string>, trust: string -> Standing, lo: real, hi: real) {
    forall i :: 0 <= i < |ids| ==> Counted(trust(ids[i])) ==> lo <= trust(ids[i]).confident.value <= hi
  }

  lemma {:induction false} WeightedBetween(ids: seq<string>, trust: string -> Standing, lo: real, hi: real)
    requires AllWithin(ids, trust, lo, hi)
    ensures Times(lo, Observed(ids, trust)) <= Weighted(ids, trust) <= Times(hi, Observed(ids, trust))
  {
    if ids != [] {
      hide Times;
      var front, s := ids[..|ids| - 1], trust(ids[|ids| - 1]);
      WeightedBetween(front, trust, lo, hi);
      if Counted(s) { TimesBetween(lo, s.confident.value, hi, Observed(front, trust), s.observations); }
    }
  }

  lemma QuotientBetween(lo: real, x: real, hi: real, n: nat)
    requires n > 0 && Times(lo, n) <= x <= Times(hi, n)
    ensures lo <= x / n as real <= hi
  {}

  /** The pooled reputation lies between the extremes of the siblings that count. */
  lemma PooledBetweenExtremes(ids: seq<string>, trust: string -> Standing, bootstrap: real, lo: real, hi: real)
    requires AllWithin(ids, trust, lo, hi)
    requires exists i :: 0 <= i < |ids| && Counted(trust(ids[i]))
    ensures lo <= Pooled(ids, trust, bootstrap).reputation <= hi
    ensures Pooled(ids, trust, bootstrap).observations > 0
  {
    WeightedBetween(ids, trust, lo, hi);
    SomeoneObserved(ids, trust);
    QuotientBetween(lo, Weighted(ids, trust), hi, Observed(ids, trust));
  }

  lemma {:induction false} SomeoneObserved(ids: seq<string>, trust: string -> Standing)
    ensures Observed(ids, trust) > 0 <==> exists i :: 0 <= i < |ids| && Counted(trust(ids[i]))
  {
    if ids != [] {
      var front := ids[..|ids| - 1];
      SomeoneObserved(front, trust);
      assert forall i :: 0 <= i < |front| ==> front[i] == ids[i];
    }
  }

  lemma {:induction false} SumsAppend(a: seq<string>, b: seq<string>, trust: string -> Standing)
    ensures Observed(a + b, trust) == Observed(a, trust) + Observed(b, trust)
    ensures Weighted(a + b, trust) == Weighted(a, trust) + Weighted(b, trust)
  {
    if b == [] {
      assert a + b == a;
    } else {
      hide Times;
      assert (a + b)[..|a + b| - 1] == a + b[..|b| - 1];
      SumsAppend(a, b[..|b| - 1], trust);
    }
  }

  /** Reputation times observations: what a score weighs in a pool. */
  function Weight(s: Score): real { Times(s.reputation, s.observations) }

  lemma PooledWeighs(ids: seq<string>, trust: string -> Standing, bootstrap: real)
    ensures Pooled(ids, trust, bootstrap).observations == Observed(ids, trust)
    ensures Weight(Pooled(ids, trust, bootstrap)) == if Observed(ids, trust) == 0 then 0.0 else Weighted(ids, trust)
  {}

  lemma {:induction false} NothingWeighs(ids: seq<string>, trust: string -> Standing)
    requires Observed(ids, trust) == 0
    ensures Weighted(ids, trust) == 0.0
  {
    if ids != [] {
      hide Times;
      NothingWeighs(ids[..|ids| - 1], trust);
    }
  }

  /** Pooling is exact: the pool of one id is that id's own reputation and count, or nothing when it does not
      count; and two lists pooled together weigh what they weigh apart. */
  lemma PoolingIsExact(a: seq<string>, b: seq<string>, id: string, trust: string -> Standing, bootstrap: real)
    ensures var one := Pooled([id], trust, bootstrap);
            if trust(id).observations > 0 && trust(id).confident.Some?
            then one == Score(trust(id).confident.value, trust(id).observations)
            else one == Score(bootstrap, 0)
    ensures var left, right := Pooled(a, trust, bootstrap), Pooled(b, trust, bootstrap);
            var both := Pooled(a + b, trust, bootstrap);
            both.observations == left.observations + right.observations && Weight(both) == Weight(left) + Weight(right)
  {
    hide Times;
    PoolIsOwn(id, trust, bootstrap);
    SumsAppend(a, b, trust);
    PooledWeighs(a, trust, bootstrap);
    PooledWeighs(b, trust, bootstrap);
    PooledWeighs(a + b, trust, bootstrap);
    if Observed(a, trust) == 0 { NothingWeighs(a, trust); }
    if Observed(b, trust) == 0 { NothingWeighs(b, trust); }
    hide Observed, Weighted, Pooled, Weight;
  }

  lemma PoolIsOwn(id: string, trust: string -> Standing, bootstrap: real)
    ensures Pooled([id], trust, bootstrap)
         == if Counted(trust(id)) then Score(trust(id).confident.value, trust(id).observations) else Score(bootstrap, 0)
  {
    hide Observed, Weighted, Times;
    LoneSums(id, trust);
    var s := trust(id);
    if Counted(s) {
      QuotientBetween(s.confident.value, Times(s.confident.value, s.observations), s.confident.value, s.observations);
    }
  }

  // ------------------------------------------------------------ a fresh id on a known wallet

  lemma {:induction false} JoinAppends(entries: seq<Entry>, newcomer: string, b: Binding)
    requires newcomer !in OnWallet(entries, b.wallet)
    ensures OnWallet(Put(entries, newcomer, b), b.wallet) == OnWallet(entries, b.wallet) + [newcomer]
  {
    var after := Put(entries, newcomer, b);
    if entries == [] {
      assert after[1..] == [];
    } else {
      var head, rest := entries[0], Put(entries[1..], newcomer, b);
      JoinAppends(entries[1..], newcomer, b);
      var first := if head.value.wallet == b.wallet then [head.key] else [];
      assert first + (OnWallet(entries[1..], b.wallet) + [newcomer]) == OnWallet(entries, b.wallet) + [newcomer];
      if head.key == newcomer {
        assert after == rest;
      } else {
        assert after[0] == head && after[1..] == rest;
      }
    }
  }

  lemma UnobservedAddsNothing(ids: seq<string>, newcomer: string, trust: string -> Standing, bootstrap: real)
    requires trust(newcomer).observations == 0
    ensures Pooled(ids + [newcomer], trust, bootstrap) == Pooled(ids, trust, bootstrap)
  {
    assert (ids + [newcomer])[..|ids|] == ids;
  }

  /** The lone id of a wallet already scores as a pool of one would. */
  predicate LoneScoreIsPooled(s: Standing, bootstrap: real) {
    Counted(s) || (s.observations == 0 && (s.confident.None? || s.confident.value == bootstrap))
  }

  lemma LoneSums(id: string, trust: string -> Standing)
    ensures Observed([id], trust) == if Counted(trust(id)) then trust(id).observations else 0
    ensures Counted(trust(id)) ==> Weighted([id], trust) == Times(trust(id).confident.value, trust(id).observations)
  {
    assert [id][..0] == [];
  }

  lemma PoolOfOne(id: string, trust: string -> Standing, bootstrap: real)
    ensures Pooled([id], trust, bootstrap) == Alone(trust(id), bootstrap) <==> LoneScoreIsPooled(trust(id), bootstrap)
  {
    hide Observed, Weighted, Times;
    LoneSums(id, trust);
    var s := trust(id);
    if Counted(s) {
      QuotientBetween(s.confident.value, Times(s.confident.value, s.observations), s.confident.value, s.observations);
    }
  }

  /** `op` binds an id nobody has observed, and that is not yet there, to the wallet of `member`. */
  predicate Joins(entries: seq<Entry>, member: string, op: Op, trust: string -> Standing) {
    && op.Bind? && Acceptable(op.nodeId, op.wallet)
    && Find(entries, member).Some? && Find(entries, member).value.wallet == Trim(op.wallet)
    && Trim(op.nodeId) !in OnWallet(entries, Trim(op.wallet))
    && trust(Trim(op.nodeId)).observations == 0
  }

  /** Binding a fresh, unobserved id to a wallet gives it the wallet's pooled score; an id already
      there keeps its own exactly when it was not alone, or its lone score already was the
      pooled one. */
  lemma FreshIdInherits(entries: seq<Entry>, member: string, op: Op, trust: string -> Standing, bootstrap: real)
    requires Joins(entries, member, op, trust)
    ensures
      var after, newcomer := Applied(entries, op), Trim(op.nodeId);
      && WalletScore(after, newcomer, trust, bootstrap) == WalletScore(after, member, trust, bootstrap)
      && WalletScore(after, newcomer, trust, bootstrap) == Pooled(Siblings(entries, member), trust, bootstrap)
    ensures WalletScore(Applied(entries, op), member, trust, bootstrap)
         == WalletScore(entries, member, trust, bootstrap)
       <==> |Siblings(entries, member)| > 1 || LoneScoreIsPooled(trust(member), bootstrap)
  {
    hide Pooled, Alone, Put, LoneScoreIsPooled, Trim;
    var newcomer, b := Trim(op.nodeId), Binding(Trim(op.wallet), Trim(op.hash), op.ts);
    var after, ids := Applied(entries, op), OnWallet(entries, b.wallet);
    MemberIsListed(entries, member);
    assert member != newcomer;
    FindPut(entries, newcomer, b, newcomer);
    FindPut(entries, newcomer, b, member);
    JoinAppends(entries, newcomer, b);
    SharedWalletSharedScore(after, newcomer, member, trust, bootstrap);
    UnobservedAddsNothing(ids, newcomer, trust, bootstrap);
    PoolOfOne(member, trust, bootstrap);
  }

  /** A lone id with observations that all weigh nothing has no reputation of its own: it counts them alone,
      and stops counting them as soon as a fresh id shares its wallet. */
  lemma LoneScoreChanges()
    ensures
      var entries, op := [Row("a", Binding("w", "", 0))], Op.Bind("n", "w", "", 0);
      var trust := (id: string) => if id == "a" then Standing(1, None) else Standing(0, None);
      && Joins(entries, "a", op, trust)
      && WalletScore(entries, "a", trust, 0.5) == Score(0.5, 1)
      && WalletScore(Applied(entries, op), "a", trust, 0.5) == Score(0.5, 0)
  {
    var entries, op := [Row("a", Binding("w", "", 0))], Op.Bind("n", "w", "", 0);
    var trust := (id: string) => if id == "a" then Standing(1, None) else Standing(0, None);
    TrimSettles("n");
    TrimSettles("w");
    assert Trimmed("n") && Trimmed("w");
    assert entries[1..] == [] && OnWallet(entries, "w") == ["a"];
    assert Joins(entries, "a", op, trust);
    hide Trim;
    FreshIdInherits(entries, "a", op, trust, 0.5);
    LoneSums("a", trust);
  }

  /** On a wallet with observed history nobody's score changes, and the newcomer gets it. */
  lemma HistoryIsUnchanged(entries: seq<Entry>, member: string, op: Op, trust: string -> Standing, bootstrap: real)
    requires Joins(entries, member, op, trust)
    requires Observed(OnWallet(entries, Trim(op.wallet)), trust) > 0
    ensures WalletScore(Applied(entries, op), member, trust, bootstrap)
         == WalletScore(entries, member, trust, bootstrap)
    ensures WalletScore(Applied(entries, op), Trim(op.nodeId), trust, bootstrap)
         == WalletScore(entries, member, trust, bootstrap)
  {
    hide WalletScore, Applied, Trim, Observed, Weighted, OnWallet, Find, Pooled;
    FreshIdInherits(entries, member, op, trust, bootstrap);
    MemberIsListed(entries, member);
    LoneSums(member, trust);
  }
}
