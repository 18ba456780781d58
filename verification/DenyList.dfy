/** The cached deny-list: `Blocklist` in `antiabuse.rs`, a set in memory, in front of
    `BlocklistStore` in `blocklist.rs`, a list of entries that survives a restart. */
module DenyList {
  import opened Wrappers
  import opened Text
  import opened KeyedList

  datatype Kind = NodeKind | WalletKind

  datatype Grounds = Grounds(kind: Kind, reason: string, source: string, ts: nat)

  type Entry = Row<Grounds>

  datatype StoreError = EmptyId

  // ------------------------------------------------------------ the persistent list

  function Stored(entries: seq<Entry>, id: string, why: Grounds): seq<Entry> {
    if Trim(id) == "" then entries else Put(entries, Trim(id), why)
  }

  class BlocklistStore {
    var entries: seq<Entry>

    method Block(id: string, why: Grounds) returns (r: Result<(), StoreError>)
      modifies this
      ensures entries == Stored(old(entries), id, why)
      ensures r == if Trim(id) == "" then Err(EmptyId) else Ok(())
    {
      var id := Trim(id);
      if id == "" { return Err(EmptyId); }
      var kept := Without(entries, id);
      entries := kept + [Row(id, why)];
      return Ok(());
    }

    method Unblock(id: string) returns (removed: bool)
      modifies this
      ensures entries == Without(old(entries), Trim(id))
      ensures removed <==> Trim(id) in Keys(old(entries))
    {
      var kept := Without(entries, Trim(id));
      WithoutShortens(entries, Trim(id));
      removed := |kept| != |entries|;
      if removed { entries := kept; }
    }
  }

  // ------------------------------------------------------------ cache and store together

  datatype Deny = Deny(inner: set<string>, stored: seq<Entry>)

  datatype Signal = Signal(subject: string, wallet: Option<string>, reason: string, reporter: string, verified: bool)

  datatype Op =
    | Block(id: string, why: Grounds)
    | Unblock(id: string)
    | Gossip(signal: Signal, honor: bool, ts: nat)
    | Restart

  /** `block`: trims, ignores an empty id, and writes through only what the cache did not hold. */
  function Added(d: Deny, id: string, why: Grounds): Deny {
    var id := Trim(id);
    if id == "" || id in d.inner then d else Deny(d.inner + {id}, Stored(d.stored, id, why))
  }

  /** `unblock`: looks its argument up untrimmed, while the store trims it. */
  function Removed(d: Deny, id: string): Deny {
    if id in d.inner then Deny(d.inner - {id}, Without(d.stored, Trim(id))) else d
  }

  function SubjectGrounds(s: Signal, ts: nat): Grounds {
    Grounds(NodeKind, "abuse signal: " + s.reason + " (from " + s.reporter + ")", "gossip", ts)
  }

  function WalletGrounds(s: Signal, ts: nat): Grounds { Grounds(WalletKind, s.reason, "gossip", ts) }

  function Gossiped(d: Deny, s: Signal, honor: bool, ts: nat): Deny {
    if !honor || !s.verified then d
    else
      var d := Added(d, s.subject, SubjectGrounds(s, ts));
      if s.wallet.Some? then Added(d, s.wallet.value, WalletGrounds(s, ts)) else d
  }

  ghost function Applied(d: Deny, op: Op): Deny {
    match op
    case Block(id, why) => Added(d, id, why)
    case Unblock(id) => Removed(d, id)
    case Gossip(s, honor, ts) => Gossiped(d, s, honor, ts)
    case Restart => Deny(Keys(d.stored), d.stored)
  }

  ghost function Run(d: Deny, ops: seq<Op>): Deny {
    if ops == [] then d else Applied(Run(d, ops[..|ops| - 1]), ops[|ops| - 1])
  }

  class Blocklist {
    var inner: set<string>
    const store: BlocklistStore?

    ghost function State(): Deny
      reads this, store
    {
      Deny(inner, if store == null then [] else store.entries)
    }

    constructor WithoutStore()
      ensures inner == {} && store == null
    {
      inner, store := {}, null;
    }

    constructor WithStore(store: BlocklistStore)
      ensures this.store == store && inner == Keys(store.entries)
    {
      var seeded: set<string> := {};
      for i := 0 to |store.entries|
        invariant seeded == Keys(store.entries[..i])
      {
        assert store.entries[..i + 1] == store.entries[..i] + [store.entries[i]];
        KeysAppend(store.entries[..i], store.entries[i]);
        seeded := seeded + {store.entries[i].key};
      }
      assert store.entries[..|store.entries|] == store.entries;
      inner, this.store := seeded, store;
    }

    method Block(id: string, why: Grounds)
      modifies this, store
      ensures inner == Added(old(State()), id, why).inner
      ensures store != null ==> State() == Added(old(State()), id, why)
    {
      var id := Trim(id);
      if id != "" && id !in inner {
        inner := inner + {id};
        if store != null { var _ := store.Block(id, why); }
      }
    }

    method Unblock(id: string) returns (removed: bool)
      modifies this, store
      ensures inner == old(inner) - {id}
      ensures store != null ==> State() == Removed(old(State()), id)
      ensures removed <==> id in old(inner)
    {
      removed := id in inner;
      inner := inner - {id};
      if removed && store != null { var _ := store.Unblock(id); }
    }

    method ApplySignedSignal(s: Signal, honor: bool, ts: nat) returns (acted: bool)
      modifies this, store
      ensures acted == (honor && s.verified)
      ensures inner == Gossiped(old(State()), s, honor, ts).inner
      ensures store != null ==> State() == Gossiped(old(State()), s, honor, ts)
    {
      if !honor || !s.verified { return false; }
      Block(s.subject, SubjectGrounds(s, ts));
      if s.wallet.Some? { Block(s.wallet.value, WalletGrounds(s, ts)); }
      return true;
    }
  }

  // ------------------------------------------------------------ agreement

  ghost predicate InSync(d: Deny) { d.inner == Keys(d.stored) && UniqueKeys(d.stored) }

  ghost predicate AllTrimmed(ids: set<string>) { forall id :: id in ids ==> Trimmed(id) }

  lemma AddedInSync(d: Deny, id: string, why: Grounds)
    requires InSync(d) && AllTrimmed(d.inner)
    ensures InSync(Added(d, id, why)) && AllTrimmed(Added(d, id, why).inner)
  {
    hide Trim, Trimmed, Keys, UniqueKeys, Put;
    TrimSettles(id);
    PutKeys(d.stored, Trim(id), why);
  }

  lemma RemovedInSync(d: Deny, id: string)
    requires InSync(d) && AllTrimmed(d.inner)
    ensures InSync(Removed(d, id)) && AllTrimmed(Removed(d, id).inner)
  {
    hide Trim, Trimmed, Keys, UniqueKeys, Without;
    TrimSettles(id);
    WithoutKeys(d.stored, id);
  }

  lemma RestartChangesNothing(d: Deny)
    requires InSync(d)
    ensures Applied(d, Restart) == d
  {}

  lemma AppliedInSync(d: Deny, op: Op)
    requires InSync(d) && AllTrimmed(d.inner)
    ensures InSync(Applied(d, op)) && AllTrimmed(Applied(d, op).inner)
  {
    hide InSync, AllTrimmed, Added, Removed;
    match op
    case Block(id, why) => AddedInSync(d, id, why);
    case Unblock(id) => RemovedInSync(d, id);
    case Gossip(s, honor, ts) =>
      AddedInSync(d, s.subject, SubjectGrounds(s, ts));
      if s.wallet.Some? {
        AddedInSync(Added(d, s.subject, SubjectGrounds(s, ts)), s.wallet.value, WalletGrounds(s, ts));
      }
    case Restart => RestartChangesNothing(d);
  }

  lemma {:induction false} RunInSync(d: Deny, ops: seq<Op>)
    requires InSync(d) && AllTrimmed(d.inner)
    ensures InSync(Run(d, ops)) && AllTrimmed(Run(d, ops).inner)
  {
    hide InSync, AllTrimmed, Applied;
    if ops != [] {
      RunInSync(d, ops[..|ops| - 1]);
      AppliedInSync(Run(d, ops[..|ops| - 1]), ops[|ops| - 1]);
    }
  }

  /** An id stored with whitespace around it is unblocked in memory only, and a restart denies
      it again. */
  lemma UntrimmedFallsOutOfSync(d: Deny, id: string)
    requires InSync(d) && id in d.inner && !Trimmed(id)
    ensures !InSync(Applied(d, Unblock(id)))
    ensures id !in Applied(d, Unblock(id)).inner
    ensures id in Applied(Applied(d, Unblock(id)), Restart).inner
  {
    hide Trim, Trimmed, Keys, UniqueKeys, Without;
    TrimSettles(id);
    WithoutKeys(d.stored, Trim(id));
  }

  /** From a store that agrees with the cache, the two agree after every sequence of calls and
      restarts exactly when every stored id is free of surrounding whitespace. */
  lemma InSyncForEverExactly(d: Deny)
    requires InSync(d)
    ensures (forall ops :: InSync(Run(d, ops))) <==> AllTrimmed(d.inner)
  {
    hide InSync, Trimmed;
    if AllTrimmed(d.inner) {
      forall ops ensures InSync(Run(d, ops)) { RunInSync(d, ops); }
    } else {
      var id :| id in d.inner && !Trimmed(id);
      UntrimmedFallsOutOfSync(d, id);
      var ops := [Unblock(id)];
      assert ops[..|ops| - 1] == [];
      assert Run(d, ops) == Applied(Run(d, []), Unblock(id));
    }
  }

  // ------------------------------------------------------------ what the list denies

  /** Whether a call blocks `x`, unblocks it, or leaves it as it was. */
  ghost predicate Concerns(op: Op, x: string, before: bool) {
    match op
    case Block(id, _) => before || (Trim(id) == x && x != "")
    case Unblock(id) => before && id != x
    case Gossip(s, honor, _) =>
      || before
      || (honor && s.verified && Trim(s.subject) == x && x != "")
      || (honor && s.verified && s.wallet.Some? && Trim(s.wallet.value) == x && x != "")
    case Restart => before
  }

  /** The latest call that concerns `x` decides. */
  ghost predicate Denied(ops: seq<Op>, x: string, initially: bool) {
    if ops == [] then initially else Concerns(ops[|ops| - 1], x, Denied(ops[..|ops| - 1], x, initially))
  }

  /** After any sequence of calls and restarts an id is denied, in memory and on disk, exactly
      when the latest call that concerned it blocked it. */
  lemma {:induction false} DeniedByLatestCall(d: Deny, ops: seq<Op>, x: string)
    requires InSync(d) && AllTrimmed(d.inner)
    ensures x in Run(d, ops).inner <==> Denied(ops, x, x in d.inner)
    ensures x in Keys(Run(d, ops).stored) <==> Denied(ops, x, x in d.inner)
  {
    RunInSync(d, ops);
    hide Trim, AllTrimmed, UniqueKeys, Stored, Without, Keys;
    if ops != [] {
      RunInSync(d, ops[..|ops| - 1]);
      DeniedByLatestCall(d, ops[..|ops| - 1], x);
    }
  }
}
