/** Tallying committed result hashes (`canonical.rs`): plain quorum, and quorum
    over the commits that read the pinned input snapshot. */
module Quorum {
  import opened Wrappers
  import opened Sequences

  /** A canonical result hash; only equality matters here. */
  datatype Hash = Hash(hex: string)

  datatype Outcome = Outcome(agreed: Option<Hash>, agreement: nat, quorum: nat, split: bool)

  datatype CommitKey = CommitKey(fingerprint: string, hash: Hash)

  // ---- what a quorum outcome means ----

  predicate Meets(hs: seq<Hash>, quorum: nat, h: Hash) {
    h in hs && multiset(hs)[h] >= quorum
  }

  /** `best` is the largest number of workers on one hash. */
  ghost predicate IsBestCount(hs: seq<Hash>, best: nat) {
    && (forall h :: multiset(hs)[h] <= best)
    && (if hs == [] then best == 0 else exists h | h in hs :: multiset(hs)[h] == best)
  }

  /** Reference meaning: a hash is agreed exactly when it alone reaches quorum; two
      distinct hashes at quorum are a split with no winner. */
  ghost predicate IsOutcome(hs: seq<Hash>, quorum: nat, o: Outcome) {
    && o.quorum == quorum
    && IsBestCount(hs, o.agreement)
    && (o.split <==> exists a, b :: a != b && Meets(hs, quorum, a) && Meets(hs, quorum, b))
    && forall h :: o.agreed == Some(h) <==> (Meets(hs, quorum, h) && forall g | Meets(hs, quorum, g) :: g == h)
  }

  /** Any two verifiers that saw the same commits, in whatever order, report the same outcome. */
  lemma OutcomeIsDetermined(hs: seq<Hash>, hs': seq<Hash>, quorum: nat, o: Outcome, o': Outcome)
    requires multiset(hs) == multiset(hs')
    requires IsOutcome(hs, quorum, o) && IsOutcome(hs', quorum, o')
    ensures o == o'
  {
    if o'.agreed.Some? {
      var h := o'.agreed.value;
      assert Meets(hs', quorum, h);
    }
    assert forall h :: h in hs <==> h in multiset(hs);
    assert forall h :: h in hs' <==> h in multiset(hs');
    assert forall h :: Meets(hs, quorum, h) <==> Meets(hs', quorum, h);
    assert (hs == []) == (hs' == []) by { assert |multiset(hs)| == |multiset(hs')|; }
    if o.agreed.Some? {
      assert o'.agreed == Some(o.agreed.value);
    }
  }

  // ---- the tally as the source computes it ----

  method Tally(hs: seq<Hash>) returns (tally: map<Hash, nat>)
    ensures forall h :: h in tally <==> h in hs
    ensures forall h | h in tally :: tally[h] == multiset(hs)[h]
  {
    tally := map[];
    for i := 0 to |hs|
      invariant forall h :: h in tally <==> h in hs[..i]
      invariant forall h | h in tally :: tally[h] == multiset(hs[..i])[h]
    {
      assert hs[..i + 1] == hs[..i] + [hs[i]];
      assert hs[i] !in tally ==> multiset(hs[..i])[hs[i]] == 0;
      tally := tally[hs[i] := (if hs[i] in tally then tally[hs[i]] else 0) + 1];
    }
    assert hs[..|hs|] == hs;
  }

  /** Walks the tally in an arbitrary order, so neither hash-map iteration order nor
      the tie-break of the sort can reach the result. */
  method Scan(tally: map<Hash, nat>, quorum: nat) returns (meeting: set<Hash>, best: nat, top: Hash)
    ensures meeting == set h | h in tally && tally[h] >= quorum
    ensures forall h | h in tally :: tally[h] <= best
    ensures if |tally| == 0 then best == 0 else top in tally && tally[top] == best
  {
    var todo := tally.Keys;
    meeting, best, top := {}, 0, Hash("");
    while todo != {}
      invariant todo <= tally.Keys
      invariant meeting == set h | h in tally && h !in todo && tally[h] >= quorum
      invariant forall h | h in tally && h !in todo :: tally[h] <= best
      invariant if todo == tally.Keys then best == 0 else top in tally && top !in todo && tally[top] == best
      decreases |todo|
    {
      var h :| h in todo;
      if todo == tally.Keys || tally[h] > best {
        best, top := tally[h], h;
      }
      if tally[h] >= quorum { meeting := meeting + {h}; }
      todo := todo - {h};
    }
    assert |tally| == 0 <==> tally.Keys == {};
  }

  method EvaluateQuorum(hs: seq<Hash>, quorum: nat) returns (o: Outcome)
    ensures IsOutcome(hs, quorum, o)
  {
    var tally := Tally(hs);
    var meeting, best, top := Scan(tally, quorum);
    assert forall h :: h in meeting <==> Meets(hs, quorum, h);
    assert IsBestCount(hs, best) by { BestOfTally(hs, tally, best, top); }
    if |meeting| > 1 {
      o := Outcome(None, best, quorum, true);
      ManyMeetings(meeting);
    } else if |meeting| == 1 {
      o := Outcome(Some(top), best, quorum, false);
      SingletonMeeting(meeting, top, tally, quorum);
    } else {
      o := Outcome(None, best, quorum, false);
    }
    MeetingDecides(hs, quorum, meeting, o);
  }

  lemma BestOfTally(hs: seq<Hash>, tally: map<Hash, nat>, best: nat, top: Hash)
    requires forall h :: h in tally <==> h in hs
    requires forall h | h in tally :: tally[h] == multiset(hs)[h] <= best
    requires if |tally| == 0 then best == 0 else top in tally && tally[top] == best
    ensures IsBestCount(hs, best)
  {
    if hs != [] {
      assert hs[0] in tally;
      assert top in hs;
    }
    forall h ensures multiset(hs)[h] <= best {
      if h in hs { assert h in tally; }
    }
  }

  lemma ManyMeetings(meeting: set<Hash>)
    requires |meeting| > 1
    ensures exists a, b :: a in meeting && b in meeting && a != b
  {
    var a :| a in meeting;
    assert |meeting - {a}| > 0;
    var b :| b in meeting - {a};
  }

  /** An outcome is right as soon as it reads the set of hashes at quorum correctly. */
  lemma MeetingDecides(hs: seq<Hash>, quorum: nat, meeting: set<Hash>, o: Outcome)
    requires forall h :: h in meeting <==> Meets(hs, quorum, h)
    requires o.quorum == quorum && IsBestCount(hs, o.agreement)
    requires o.split <==> exists a, b :: a in meeting && b in meeting && a != b
    requires o.split ==> o.agreed.None?
    requires !o.split ==> if o.agreed.Some? then meeting == {o.agreed.value} else meeting == {}
    ensures IsOutcome(hs, quorum, o)
  {
  }

  /** If exactly one hash meets quorum it is the top entry of the tally. */
  lemma SingletonMeeting(meeting: set<Hash>, top: Hash, tally: map<Hash, nat>, quorum: nat)
    requires |meeting| == 1
    requires meeting == set h | h in tally && tally[h] >= quorum
    requires top in tally && forall h | h in tally :: tally[h] <= tally[top]
    ensures meeting == {top}
  {
    var h :| h in meeting;
    assert top in meeting;
    SubsetSize({h, top}, meeting);
    assert h != top ==> |{h, top}| == 2;
    assert |meeting - {top}| == 0;
  }

  // ---- quorum over the pinned snapshot ----

  predicate Drifts(c: CommitKey, pinned: Option<string>) {
    pinned.Some? && c.fingerprint != "" && c.fingerprint != pinned.value
  }

  function OnPinned(cs: seq<CommitKey>, pinned: Option<string>): seq<Hash> {
    if cs == [] then []
    else (if Drifts(cs[0], pinned) then [] else [cs[0].hash]) + OnPinned(cs[1..], pinned)
  }

  function DriftCount(cs: seq<CommitKey>, pinned: Option<string>): nat {
    if cs == [] then 0 else (if Drifts(cs[0], pinned) then 1 else 0) + DriftCount(cs[1..], pinned)
  }

  lemma {:induction false} SplitByPin(cs: seq<CommitKey>, c: CommitKey, pinned: Option<string>)
    ensures OnPinned(cs + [c], pinned) == OnPinned(cs, pinned) + if Drifts(c, pinned) then [] else [c.hash]
    ensures DriftCount(cs + [c], pinned) == DriftCount(cs, pinned) + if Drifts(c, pinned) then 1 else 0
  {
    if cs == [] {
      assert cs + [c] == [c];
    } else {
      assert (cs + [c])[1..] == cs[1..] + [c];
      SplitByPin(cs[1..], c, pinned);
    }
  }

  function Hashes(cs: seq<CommitKey>): (hs: seq<Hash>)
    ensures |hs| == |cs| && forall i | 0 <= i < |cs| :: hs[i] == cs[i].hash
  {
    seq(|cs|, i requires 0 <= i < |cs| => cs[i].hash)
  }

  /** No commit drifted exactly when every commit takes part in the pinned tally. */
  lemma {:induction false} NoDriftMeansAll(cs: seq<CommitKey>, pinned: Option<string>)
    ensures DriftCount(cs, pinned) == 0 <==> forall c | c in cs :: !Drifts(c, pinned)
    ensures DriftCount(cs, pinned) == 0 ==> OnPinned(cs, pinned) == Hashes(cs)
  {
    if cs != [] {
      NoDriftMeansAll(cs[1..], pinned);
      assert Hashes(cs) == [cs[0].hash] + Hashes(cs[1..]);
      assert cs == [cs[0]] + cs[1..];
    }
  }

  method EvaluateQuorumOnCommits(cs: seq<CommitKey>, pinned: Option<string>, quorum: nat)
    returns (o: Outcome, drifted: nat)
    ensures IsOutcome(OnPinned(cs, pinned), quorum, o)
    ensures drifted == DriftCount(cs, pinned)
  {
    var onPinned: seq<Hash> := [];
    drifted := 0;
    for i := 0 to |cs|
      invariant onPinned == OnPinned(cs[..i], pinned) && drifted == DriftCount(cs[..i], pinned)
    {
      assert cs[..i + 1] == cs[..i] + [cs[i]];
      SplitByPin(cs[..i], cs[i], pinned);
      if pinned.Some? && cs[i].fingerprint != "" && cs[i].fingerprint != pinned.value {
        drifted := drifted + 1;
      } else {
        onPinned := onPinned + [cs[i].hash];
      }
    }
    assert cs[..|cs|] == cs;
    o := EvaluateQuorum(onPinned, quorum);
  }
}
