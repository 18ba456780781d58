/** The persisted runtime layer over a fixed base configuration (`ConfigStore` in `store.rs`).
    Deserialising and validating the merged tree is one abstract predicate. */
module ConfigStore {
  import opened Wrappers
  import opened Text
  import opened ConfigTree
  import opened ConfigEdit

  type Layer = map<string, Value>

  datatype Pair = Pair(key: string, value: Value)

  datatype StoreError = Rejected | MainnetBlocked | BadParam

  /** What the store does not decide itself: the resolved base, the check of a merged tree, and
      number parsing. */
  datatype Env = Env(base: Value, accepts: Value -> bool, asInt: string -> Option<int>, asFloat: string -> Option<real>)

  const NETWORK: Path := ["economics", "network"]
  const CONFIRMED: Path := ["economics", "mainnet_confirmed"]

  predicate OnMainnet(cfg: Value) { LeafAt(cfg, NETWORK) == Some(Text("mainnet")) }

  predicate Confirmed(cfg: Value) { LeafAt(cfg, CONFIRMED) == Some(Truth(true)) }

  predicate Blocked(cfg: Value) { OnMainnet(cfg) && !Confirmed(cfg) }

  function Effective(env: Env, t: Layer): Value { Merge(env.base, Table(t)) }

  /** A layer that may be persisted. */
  predicate Good(env: Env, t: Layer) { env.accepts(Effective(env, t)) && !Blocked(Effective(env, t)) }

  /** Why a layer that is not good is refused: what is not accepted is rejected before the mainnet guard. */
  function Refusal(env: Env, t: Layer): StoreError {
    if env.accepts(Effective(env, t)) then MainnetBlocked else Rejected
  }

  // ------------------------------------------------------------ operations

  function Write(t: Layer, pair: Pair): Layer {
    var p := Segments(pair.key);
    if p == [] then t else SetPath(t, p, pair.value)
  }

  function Written(t: Layer, pairs: seq<Pair>): Layer {
    if pairs == [] then t else Write(Written(t, pairs[..|pairs| - 1]), pairs[|pairs| - 1])
  }

  /** Bool, then integer, then float, else the raw string untrimmed. */
  function ParseScalar(env: Env, raw: string): Scalar {
    var t := Trim(raw);
    if AsciiLower(t) == "true" || AsciiLower(t) == "false" then Truth(AsciiLower(t) == "true")
    else match env.asInt(t)
      case Some(i) => Number(i)
      case None => match env.asFloat(t)
        case Some(f) => Decimal(f)
        case None => Text(raw)
  }

  function NetworkChangePairs(net: string, confirm: bool): Result<seq<Pair>, StoreError> {
    var net := AsciiLower(Trim(net));
    if net == "testnet" then
      Ok([Pair("economics.network", Leaf(Text("testnet"))), Pair("economics.mainnet_confirmed", Leaf(Truth(false)))])
    else if net == "mainnet" then
      if !confirm then Err(MainnetBlocked)
      else Ok([Pair("economics.network", Leaf(Text("mainnet"))),
               Pair("economics.mainnet_confirmed", Leaf(Truth(true)))])
    else Err(BadParam)
  }

  datatype Op =
    | Set(pairs: seq<Pair>)
    | SetKv(key: string, raw: string)
    | ApplyGroup(group: Result<seq<Pair>, StoreError>)
    | Reset

  function PairsOf(env: Env, op: Op): seq<Pair> {
    match op
    case Set(pairs) => pairs
    case SetKv(key, raw) => [Pair(Trim(key), Leaf(ParseScalar(env, raw)))]
    case ApplyGroup(Ok(pairs)) => pairs
    case _ => []
  }

  /** The layer after a call: the written one if it is good, otherwise the old one. */
  function Applied(env: Env, t: Layer, op: Op): Layer {
    if op.Reset? then map[]
    else if Good(env, Written(t, PairsOf(env, op))) then Written(t, PairsOf(env, op))
    else t
  }

  function Run(env: Env, t: Layer, ops: seq<Op>): Layer {
    if ops == [] then t else Applied(env, Run(env, t, ops[..|ops| - 1]), ops[|ops| - 1])
  }

  class ConfigStore {
    const env: Env
    var runtime: Layer

    constructor (env: Env, persisted: Layer)
      ensures this.env == env && runtime == persisted
    {
      this.env := env;
      runtime := persisted;
    }

    method Current() returns (r: Result<Value, StoreError>)
      ensures r.Ok? <==> env.accepts(Effective(env, runtime))
      ensures r.Ok? ==> r.value == Effective(env, runtime)
      ensures r.Err? ==> r.error == Rejected
    {
      var cfg := DeepMerge(env.base, Table(runtime));
      if !env.accepts(cfg) { return Err(Rejected); }
      return Ok(cfg);
    }

    method Set(pairs: seq<Pair>) returns (r: Result<Value, StoreError>)
      modifies this
      ensures r.Ok? <==> Good(env, Written(old(runtime), pairs))
      ensures r.Ok? ==> runtime == Written(old(runtime), pairs) && r.value == Effective(env, runtime)
      ensures r.Err? ==> runtime == old(runtime) && r.error == Refusal(env, Written(runtime, pairs))
      ensures runtime == Applied(env, old(runtime), Op.Set(pairs))
    {
      hide Blocked, Merge;
      var next := runtime;
      for i := 0 to |pairs|
        invariant next == Written(runtime, pairs[..i])
        invariant runtime == old(runtime)
      {
        var p := Segments(pairs[i].key);
        assert pairs[..i + 1][..i] == pairs[..i];
        if p != [] { next := SetPath(next, p, pairs[i].value); }
      }
      assert pairs[..|pairs|] == pairs;
      var cfg := DeepMerge(env.base, Table(next));
      if !env.accepts(cfg) { return Err(Rejected); }
      if Blocked(cfg) { return Err(MainnetBlocked); }
      runtime := next;
      return Ok(cfg);
    }

    method SetKv(key: string, raw: string) returns (r: Result<Value, StoreError>)
      modifies this
      ensures runtime == Applied(env, old(runtime), Op.SetKv(key, raw))
      ensures r.Ok? <==> Good(env, Written(old(runtime), PairsOf(env, Op.SetKv(key, raw))))
      ensures r.Ok? ==> r.value == Effective(env, runtime)
      ensures r.Err? ==>
                runtime == old(runtime) && r.error == Refusal(env, Written(runtime, PairsOf(env, Op.SetKv(key, raw))))
    {
      r := Set([Pair(Trim(key), Leaf(ParseScalar(env, raw)))]);
    }

    method ApplyGroup(pairs: Result<seq<Pair>, StoreError>) returns (r: Result<Value, StoreError>)
      modifies this
      ensures runtime == Applied(env, old(runtime), Op.ApplyGroup(pairs))
      ensures pairs.Err? ==> r == Err(pairs.error)
      ensures pairs == Ok([]) ==> (r.Ok? <==> env.accepts(Effective(env, runtime))) && (r.Err? ==> r.error == Rejected)
      ensures pairs.Ok? && pairs.value != [] ==> (r.Ok? <==> Good(env, Written(old(runtime), pairs.value)))
      ensures pairs.Ok? && pairs.value != [] && r.Err? ==> r.error == Refusal(env, Written(runtime, pairs.value))
      ensures r.Ok? ==> r.value == Effective(env, runtime)
      ensures r.Err? ==> runtime == old(runtime)
    {
      hide Good, Merge;
      match pairs
      case Err(e) => r := Err(e);
      case Ok(ps) =>
        if ps == [] { r := Current(); } else { r := Set(ps); }
    }

    method Reset()
      modifies this
      ensures runtime == map[] == Applied(env, old(runtime), Op.Reset)
    {
      runtime := map[];
    }
  }

  // ------------------------------------------------------------ the layer stays good

  lemma EmptyLayer(env: Env)
    requires env.base.Table?
    ensures Effective(env, map[]) == env.base
  {
    assert Merge(env.base, Table(map[])).entries == env.base.entries;
  }

  /** A reset brings the base configuration back, whatever was written before. */
  lemma ResetRestores(env: Env, t: Layer, ops: seq<Op>)
    requires env.base.Table? && ops != [] && ops[|ops| - 1].Reset?
    ensures Effective(env, Run(env, t, ops)) == env.base
  {
    hide Effective;
    EmptyLayer(env);
  }

  /** After any sequence of calls on a good base, whatever they ask for, the persisted layer merges
      to an accepted configuration that is not on mainnet without confirmation. */
  lemma {:induction false} LayerStaysGood(env: Env, t: Layer, ops: seq<Op>)
    requires env.base.Table? && env.accepts(env.base) && !Blocked(env.base) && Good(env, t)
    ensures Good(env, Run(env, t, ops))
  {
    hide Written, Effective, Blocked;
    if ops != [] {
      LayerStaysGood(env, t, ops[..|ops| - 1]);
      EmptyLayer(env);
    }
  }

  // ------------------------------------------------------------ what a set does

  ghost predicate Apart(pairs: seq<Pair>) {
    && (forall i :: 0 <= i < |pairs| ==> Segments(pairs[i].key) != [])
    && (forall i, j :: 0 <= i < j < |pairs| ==> !Comparable(Segments(pairs[i].key), Segments(pairs[j].key)))
  }

  ghost predicate Avoids(pairs: seq<Pair>, q: Path) {
    forall i :: 0 <= i < |pairs| ==> !Comparable(Segments(pairs[i].key), q)
  }

  lemma {:induction false} WrittenFrame(t: Layer, pairs: seq<Pair>, q: Path)
    requires Avoids(pairs, q)
    ensures At(Table(Written(t, pairs)), q) == At(Table(t), q)
  {
    hide Segments, At, SetPath, Comparable;
    if pairs != [] {
      var front, p := pairs[..|pairs| - 1], Segments(pairs[|pairs| - 1].key);
      WrittenFrame(t, front, q);
      if p != [] { SetPathFrame(Written(t, front), p, pairs[|pairs| - 1].value, q); }
    }
  }

  /** The i-th write has a path, and no later write has one above or below it. */
  ghost predicate Survives(pairs: seq<Pair>, i: nat)
    requires i < |pairs|
  {
    && Segments(pairs[i].key) != []
    && forall j :: i < j < |pairs| ==>
         Segments(pairs[j].key) == [] || !Comparable(Segments(pairs[i].key), Segments(pairs[j].key))
  }

  lemma {:induction false} WrittenReadsBack(t: Layer, pairs: seq<Pair>, i: nat)
    requires i < |pairs| && Survives(pairs, i)
    ensures At(Table(Written(t, pairs)), Segments(pairs[i].key)) == Some(pairs[i].value)
  {
    hide Segments, At, SetPath, Comparable;
    var n := |pairs| - 1;
    var front, last := pairs[..n], pairs[n];
    if i == n {
      SetPathReadsBack(Written(t, front), Segments(last.key), last.value);
    } else {
      assert Survives(front, i);
      WrittenReadsBack(t, front, i);
      if Segments(last.key) != [] {
        assert !Comparable(Segments(pairs[i].key), Segments(pairs[n].key));
        ComparableEitherWay(Segments(last.key), Segments(pairs[i].key));
        SetPathFrame(Written(t, front), Segments(last.key), last.value, Segments(pairs[i].key));
      }
    }
  }

  lemma ComparableEitherWay(p: Path, q: Path)
    ensures Comparable(p, q) <==> Comparable(q, p)
  {}

  /** Of a list of writes every leaf reads back from the effective configuration that no later write
      replaced, the last one always. */
  lemma SetReadsBack(env: Env, t: Layer, pairs: seq<Pair>, i: nat)
    requires i < |pairs| && Survives(pairs, i) && pairs[i].value.Leaf?
    ensures At(Effective(env, Written(t, pairs)), Segments(pairs[i].key)) == Some(pairs[i].value)
  {
    hide Segments, Written, Merge, Survives;
    WrittenReadsBack(t, pairs, i);
    OverlayLeafShows(env.base, Table(Written(t, pairs)), Segments(pairs[i].key));
  }

  /** What a call sets when it is given text: a truth value for its two words in any case, otherwise the number it
      parses as, otherwise the text as it came; and that is what the effective configuration then has there. */
  lemma SetKvReadsBack(env: Env, t: Layer, key: string, raw: string)
    requires Segments(Trim(key)) != [] && Good(env, Written(t, PairsOf(env, SetKv(key, raw))))
    ensures var word := AsciiLower(Trim(raw));
            var seen := LeafAt(Effective(env, Applied(env, t, SetKv(key, raw))), Segments(Trim(key)));
            && (word == "true" ==> seen == Some(Truth(true)))
            && (word == "false" ==> seen == Some(Truth(false)))
            && (word != "true" && word != "false" ==>
                  && (env.asInt(Trim(raw)).Some? ==> seen == Some(Number(env.asInt(Trim(raw)).value)))
                  && (env.asInt(Trim(raw)).None? && env.asFloat(Trim(raw)).Some? ==>
                        seen == Some(Decimal(env.asFloat(Trim(raw)).value)))
                  && (env.asInt(Trim(raw)).None? && env.asFloat(Trim(raw)).None? ==> seen == Some(Text(raw))))
  {
    hide Segments, Merge, Good, Written;
    var pairs := PairsOf(env, SetKv(key, raw));
    assert Survives(pairs, 0);
    SetReadsBack(env, t, pairs, 0);
  }

  /** Some written path passes through a leaf of the layer that hides the base at `q`. */
  predicate AnyHides(t: Layer, pairs: seq<Pair>, q: Path) {
    exists i | 0 <= i < |pairs| :: Hides(t, Segments(pairs[i].key), q)
  }

  lemma AnyHidesSplits(t: Layer, pairs: seq<Pair>, q: Path)
    requires pairs != []
    ensures AnyHides(t, pairs, q)
       <==> AnyHides(t, pairs[..|pairs| - 1], q) || Hides(t, Segments(pairs[|pairs| - 1].key), q)
  {
    hide Segments, Hides;
    var front := pairs[..|pairs| - 1];
    assert forall i :: 0 <= i < |front| ==> front[i] == pairs[i];
  }

  lemma LastIsApart(pairs: seq<Pair>)
    requires Apart(pairs) && pairs != []
    ensures Apart(pairs[..|pairs| - 1]) && Avoids(pairs[..|pairs| - 1], Segments(pairs[|pairs| - 1].key))
  {
    hide Segments, Comparable;
  }

  lemma {:induction false} HidesAfterWriting(t: Layer, pairs: seq<Pair>, later: Path, q: Path)
    requires Apart(pairs) && Avoids(pairs, later) && Avoids(pairs, q) && !Comparable(later, q)
    ensures Hides(Written(t, pairs), later, q) <==> Hides(t, later, q) && !AnyHides(t, pairs, q)
  {
    if pairs != [] {
      var front, last := pairs[..|pairs| - 1], pairs[|pairs| - 1];
      var p := Segments(last.key);
      LastIsApart(pairs);
      hide Segments, Hides, SetPath, Comparable;
      AnyHidesSplits(t, pairs, q);
      HidesAfterWriting(t, front, later, q);
      HidesAfterWriting(t, front, p, q);
      HidesAfterWrite(Written(t, front), p, last.value, later, q);
    }
  }

  /** What a list of writes shows off all their paths. */
  lemma {:induction false} WritesShow(env: Env, t: Layer, pairs: seq<Pair>, q: Path)
    requires Apart(pairs) && Avoids(pairs, q)
    ensures At(Effective(env, Written(t, pairs)), q)
         == if AnyHides(t, pairs, q) then At(env.base, q) else At(Effective(env, t), q)
    ensures AnyHides(t, pairs, q) ==> At(Effective(env, t), q) == None
  {
    if pairs != [] {
      var front, last := pairs[..|pairs| - 1], pairs[|pairs| - 1];
      var p := Segments(last.key);
      LastIsApart(pairs);
      hide Segments, Hides, SetPath, Comparable, Merge, At;
      AnyHidesSplits(t, pairs, q);
      WritesShow(env, t, front, q);
      HidesAfterWriting(t, front, p, q);
      WriteShows(env.base, Written(t, front), p, last.value, q);
      WriteShows(env.base, t, p, last.value, q);
    }
  }

  /** The writes bring back something of the base, off all their paths, that a leaf of the layer was hiding. */
  ghost predicate UncoversAny(env: Env, t: Layer, pairs: seq<Pair>) {
    exists q :: Avoids(pairs, q) && AnyHides(t, pairs, q) && At(env.base, q).Some?
  }

  /** A list of writes leaves every other path of the effective configuration as it was exactly when it
      uncovers nothing. */
  lemma SetIsLocalExactly(env: Env, t: Layer, pairs: seq<Pair>)
    requires Apart(pairs)
    ensures (forall q :: Avoids(pairs, q) ==> At(Effective(env, Written(t, pairs)), q) == At(Effective(env, t), q))
       <==> !UncoversAny(env, t, pairs)
  {
    hide Apart, Avoids, Written, Effective, AnyHides, At;
    forall q | Avoids(pairs, q)
      ensures At(Effective(env, Written(t, pairs)), q) == At(Effective(env, t), q)
         <==> !(AnyHides(t, pairs, q) && At(env.base, q).Some?)
    {
      WritesShow(env, t, pairs, q);
    }
  }

  /** In particular when the layer nowhere puts a leaf over a base table. */
  lemma CleanLayerStaysLocal(env: Env, t: Layer, pairs: seq<Pair>)
    requires Apart(pairs) && NoLeafOverTable(env.base, Table(t))
    ensures forall q :: Avoids(pairs, q) ==> At(Effective(env, Written(t, pairs)), q) == At(Effective(env, t), q)
  {
    hide Apart, Avoids, Written, Effective, Hides, At, NoLeafOverTable, Segments;
    forall q | AnyHides(t, pairs, q) ensures At(env.base, q) == None {
      var i :| 0 <= i < |pairs| && Hides(t, Segments(pairs[i].key), q);
      CleanLayerHidesNothing(env.base, t, Segments(pairs[i].key), q);
    }
    SetIsLocalExactly(env, t, pairs);
  }

  // ------------------------------------------------------------ mainnet

  ghost predicate LeavesConfirmation(env: Env, ops: seq<Op>) {
    forall i :: 0 <= i < |ops| ==> Avoids(PairsOf(env, ops[i]), CONFIRMED)
  }

  lemma {:induction false} ConfirmationUntouched(env: Env, t: Layer, ops: seq<Op>)
    requires LeavesConfirmation(env, ops) && !Confirmed(Table(t))
    ensures !Confirmed(Table(Run(env, t, ops)))
  {
    hide Good, Written, PairsOf, Avoids;
    if ops != [] {
      var front, last := ops[..|ops| - 1], ops[|ops| - 1];
      ConfirmationUntouched(env, t, front);
      WrittenFrame(Run(env, t, front), PairsOf(env, last), CONFIRMED);
    }
  }

  /** From a layer that does not confirm mainnet, over a base that does not either, mainnet is never
      active until some call writes the confirmation. */
  lemma NoSilentMainnet(env: Env, t: Layer, ops: seq<Op>)
    requires env.base.Table? && env.accepts(env.base) && !Blocked(env.base) && !Confirmed(env.base)
    requires Good(env, t) && !Confirmed(Table(t)) && LeavesConfirmation(env, ops)
    ensures !OnMainnet(Effective(env, Run(env, t, ops)))
  {
    hide Run, LeafAt, Merge, LeavesConfirmation;
    LayerStaysGood(env, t, ops);
    ConfirmationUntouched(env, t, ops);
    LeafComesFromALayer(env.base, Table(Run(env, t, ops)), CONFIRMED);
  }

  lemma TwoSegments(a: string, b: string)
    requires Plain([a, b])
    ensures Segments(a + "." + b) == [a, b]
  {
    assert [a, b][1..] == [b] && Dotted([b]) == b;
    assert Dotted([a, b]) == a + ("." + b);
    SegmentsOfDotted([a, b]);
  }

  lemma EconomicsKeys()
    ensures Segments("economics.network") == NETWORK && Segments("economics.mainnet_confirmed") == CONFIRMED
    ensures !Comparable(NETWORK, CONFIRMED)
  {
    hide Segments;
    TwoSegments("economics", "network");
    TwoSegments("economics", "mainnet_confirmed");
    assert "economics" + "." + "network" == "economics.network";
    assert "economics" + "." + "mainnet_confirmed" == "economics.mainnet_confirmed";
    assert NETWORK[1] != CONFIRMED[1] by { assert |NETWORK[1]| != |CONFIRMED[1]|; }
  }

  /** A network change that is written leaves the effective configuration on that network, with the
      confirmation set for mainnet and withdrawn for testnet. */
  lemma NetworkChangeTakesEffect(env: Env, t: Layer, net: string, confirm: bool)
    requires NetworkChangePairs(net, confirm).Ok?
    ensures
      var after := Written(t, NetworkChangePairs(net, confirm).value);
      && (OnMainnet(Effective(env, after)) <==> AsciiLower(Trim(net)) == "mainnet")
      && (Confirmed(Effective(env, after)) <==> AsciiLower(Trim(net)) == "mainnet")
      && (Confirmed(Table(after)) <==> AsciiLower(Trim(net)) == "mainnet")
      && (AsciiLower(Trim(net)) == "mainnet" ==> confirm)
  {
    hide Segments, Comparable, Written, AsciiLower, Trim, Merge, At;
    EconomicsKeys();
    var pairs := NetworkChangePairs(net, confirm).value;
    SetReadsBack(env, t, pairs, 0);
    SetReadsBack(env, t, pairs, 1);
    WrittenReadsBack(t, pairs, 1);
  }

  /** Leaving mainnet withdraws the confirmation for good: after a switch to testnet no sequence of
      calls returns to mainnet without confirming again. */
  lemma SwitchingBackReconfirms(env: Env, t: Layer, net: string, confirm: bool, ops: seq<Op>)
    requires env.base.Table? && env.accepts(env.base) && !Blocked(env.base) && !Confirmed(env.base)
    requires AsciiLower(Trim(net)) == "testnet" && LeavesConfirmation(env, ops)
    requires Good(env, Written(t, NetworkChangePairs(net, confirm).value))
    ensures
      var after := Applied(env, t, ApplyGroup(NetworkChangePairs(net, confirm)));
      !OnMainnet(Effective(env, Run(env, after, ops)))
  {
    hide AsciiLower, Trim, Written, Good, Run, Blocked, Confirmed, OnMainnet;
    NetworkChangeTakesEffect(env, t, net, confirm);
    NoSilentMainnet(env, Applied(env, t, ApplyGroup(NetworkChangePairs(net, confirm))), ops);
  }
}
