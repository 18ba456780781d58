/** Writing one setting by path (`set_path` in `store.rs`), and what the write does to the
    effective configuration once the runtime layer is merged over the base. */
module ConfigEdit {
  import opened Wrappers
  import opened Strings = Text
  import opened ConfigTree

  // ------------------------------------------------------------ dotted paths

  function IndexOfDot(s: string): nat
    ensures IndexOfDot(s) <= |s|
  {
    if s == [] || s[0] == '.' then 0 else 1 + IndexOfDot(s[1..])
  }

  /** `split('.')` without the empty pieces. */
  function Segments(s: string): Path
    decreases |s|
  {
    if s == [] then []
    else
      var i := IndexOfDot(s);
      (if i == 0 then [] else [s[..i]]) + (if i == |s| then [] else Segments(s[i + 1..]))
  }

  function Dotted(p: Path): string { Join(p, ".") }

  predicate Plain(p: Path) { forall i :: 0 <= i < |p| ==> p[i] != "" && '.' !in p[i] }

  lemma {:induction false} DotAfter(name: string, rest: string)
    requires '.' !in name && (rest == [] || rest[0] == '.')
    ensures IndexOfDot(name + rest) == |name|
  {
    if name == [] {
      assert name + rest == rest;
    } else {
      assert (name + rest)[1..] == name[1..] + rest;
      assert name[0] in name;
      DotAfter(name[1..], rest);
    }
  }

  /** Splitting undoes joining, for segments that are non-empty and free of dots. */
  lemma {:induction false} SegmentsOfDotted(p: Path)
    requires Plain(p)
    ensures Segments(Dotted(p)) == p
  {
    if p != [] {
      var rest := if |p| == 1 then "" else "." + Dotted(p[1..]);
      var s := Dotted(p);
      assert s == p[0] + rest;
      DotAfter(p[0], rest);
      assert s[..|p[0]|] == p[0];
      if |p| > 1 {
        assert s[|p[0]| + 1..] == Dotted(p[1..]);
        SegmentsOfDotted(p[1..]);
      }
    }
  }

  // ------------------------------------------------------------ writing one path

  /** The tables on the way down are created, and a leaf met on the way becomes a table. */
  function SetPath(t: map<string, Value>, p: Path, v: Value): map<string, Value>
    requires p != []
    decreases p
  {
    if |p| == 1 then t[p[0] := v]
    else t[p[0] := Table(SetPath(Below(t, p[0]), p[1..], v))]
  }

  function Below(t: map<string, Value>, k: string): map<string, Value> {
    if k in t && t[k].Table? then t[k].entries else map[]
  }

  predicate Comparable(p: Path, q: Path) { p <= q || q <= p }

  lemma Descend(p: Path, q: Path)
    requires !Comparable(p, q)
    ensures p != [] && q != []
    ensures p[0] == q[0] ==> |p| > 1 && |q| > 1 && !Comparable(p[1..], q[1..])
  {
    if p[0] == q[0] {
      assert p == [p[0]] + p[1..] && q == [q[0]] + q[1..];
      assert p[1..] <= q[1..] ==> p <= q;
      assert q[1..] <= p[1..] ==> q <= p;
    }
  }

  /** What was written is what is read, through whatever stood in the way. */
  lemma {:induction false} SetPathReadsBack(t: map<string, Value>, p: Path, v: Value)
    requires p != []
    ensures At(Table(SetPath(t, p, v)), p) == Some(v)
    decreases p
  {
    if |p| > 1 { SetPathReadsBack(Below(t, p[0]), p[1..], v); }
  }

  /** Within the layer itself every path off the written one is untouched, for all layers. */
  lemma {:induction false} SetPathFrame(t: map<string, Value>, p: Path, v: Value, q: Path)
    requires !Comparable(p, q) && p != []
    ensures At(Table(SetPath(t, p, v)), q) == At(Table(t), q)
    decreases p
  {
    Descend(p, q);
    if p[0] == q[0] {
      SetPathFrame(Below(t, p[0]), p[1..], v, q[1..]);
    }
  }

  // ------------------------------------------------------------ through the merge

  /** A leaf of the overlay always shows. */
  lemma {:induction false} OverlayLeafShows(base: Value, overlay: Value, p: Path)
    requires LeafAt(overlay, p).Some?
    ensures At(Merge(base, overlay), p) == At(overlay, p)
    decreases p
  {
    if p != [] && base.Table? {
      MergedEntry(base, overlay, p[0]);
      if p[0] in base.entries { OverlayLeafShows(base.entries[p[0]], overlay.entries[p[0]], p[1..]); }
    }
  }

  /** The leaf read through a merge comes from one of the two layers. */
  lemma {:induction false} LeafComesFromALayer(base: Value, overlay: Value, p: Path)
    ensures var seen := LeafAt(Merge(base, overlay), p);
            seen == None || seen == LeafAt(base, p) || seen == LeafAt(overlay, p)
    decreases p
  {
    if p != [] && base.Table? && overlay.Table? {
      MergedEntry(base, overlay, p[0]);
      if p[0] in base.entries && p[0] in overlay.entries {
        LeafComesFromALayer(base.entries[p[0]], overlay.entries[p[0]], p[1..]);
      }
    }
  }

  /** The subtree a merge shows under `k`. */
  function Shown(base: Value, t: map<string, Value>, k: string): Option<Value> {
    if base.Table? && k in base.entries then Some(if k in t then Merge(base.entries[k], t[k]) else base.entries[k])
    else if k in t then Some(t[k]) else None
  }

  lemma AtThroughShown(base: Value, t: map<string, Value>, q: Path)
    requires q != []
    ensures At(Merge(base, Table(t)), q)
         == match Shown(base, t, q[0]) { case None => None case Some(v) => At(v, q[1..]) }
  {
    hide Merge;
    if base.Table? { MergedEntry(base, Table(t), q[0]); } else { MergeReplaces(base, Table(t)); }
  }

  /** Whatever is written, only paths through the written one's first key can change. */
  lemma OtherKeys(base: Value, t: map<string, Value>, p: Path, v: Value, q: Path)
    requires p != [] && q != [] && p[0] != q[0]
    ensures At(Merge(base, Table(SetPath(t, p, v))), q) == At(Merge(base, Table(t)), q)
  {
    hide Merge;
    AtThroughShown(base, t, q);
    AtThroughShown(base, SetPath(t, p, v), q);
  }

  /** What a merge shows below `k` depends on the layers' subtrees at `k` alone. */
  lemma UnderKey(base: Value, t: map<string, Value>, k: string, below: map<string, Value>, q: Path)
    requires q != [] && q[0] == k && k in t && t[k] == Table(below)
    ensures At(Merge(base, Table(t)), q)
         == if base.Table? && k in base.entries then At(Merge(base.entries[k], Table(below)), q[1..])
            else At(Table(below), q[1..])
  {
    hide Merge;
    AtThroughShown(base, t, q);
  }

  lemma BareMerge(base: Value, q: Path)
    requires q != []
    ensures At(Merge(base, Table(map[])), q) == At(base, q)
  {
    hide Merge;
    AtThroughShown(base, map[], q);
  }

  /** A leaf of the layer, met on the way to `p`, hides whatever the base holds at `q`. */
  predicate Hides(t: map<string, Value>, p: Path, q: Path)
    decreases p
  {
    && |p| > 1 && |q| > 1 && p[0] == q[0] && p[0] in t
    && (t[p[0]].Leaf? || Hides(t[p[0]].entries, p[1..], q[1..]))
  }

  lemma {:induction false} HiddenIsAbsent(t: map<string, Value>, p: Path, q: Path)
    requires Hides(t, p, q)
    ensures At(Table(t), q) == None
    decreases p
  {
    if t[p[0]].Table? { HiddenIsAbsent(t[p[0]].entries, p[1..], q[1..]); }
  }

  /** What a write shows off its own path: the base where a leaf used to hide it, and otherwise what
      was shown before. */
  lemma {:induction false} WriteShows(base: Value, t: map<string, Value>, p: Path, v: Value, q: Path)
    requires p != [] && !Comparable(p, q)
    ensures At(Merge(base, Table(SetPath(t, p, v))), q)
         == if Hides(t, p, q) then At(base, q) else At(Merge(base, Table(t)), q)
    ensures Hides(t, p, q) ==> At(Merge(base, Table(t)), q) == None
    decreases p
  {
    hide Merge;
    Descend(p, q);
    var k := p[0];
    if k != q[0] {
      OtherKeys(base, t, p, v, q);
    } else {
      var below := Below(t, k);
      UnderKey(base, SetPath(t, p, v), k, SetPath(below, p[1..], v), q);
      AtThroughShown(base, t, q);
      if base.Table? && k in base.entries {
        WriteShows(base.entries[k], below, p[1..], v, q[1..]);
        BareMerge(base.entries[k], q[1..]);
        if k in t && t[k].Leaf? { MergeReplaces(base.entries[k], t[k]); }
      } else {
        SetPathFrame(below, p[1..], v, q[1..]);
        if Hides(t, p, q) && t[k].Table? { HiddenIsAbsent(below, p[1..], q[1..]); }
      }
    }
  }

  /** Writing `p` brings back something of the base, off the path, that a leaf of the layer was hiding. */
  ghost predicate Uncovers(base: Value, t: map<string, Value>, p: Path) {
    exists q :: !Comparable(p, q) && Hides(t, p, q) && At(base, q).Some?
  }

  /** A write leaves the effective configuration alone off its own path exactly when it uncovers
      nothing. */
  lemma WriteIsLocalExactly(base: Value, t: map<string, Value>, p: Path, v: Value)
    requires p != []
    ensures (forall q ::
               !Comparable(p, q) ==> At(Merge(base, Table(SetPath(t, p, v))), q) == At(Merge(base, Table(t)), q))
       <==> !Uncovers(base, t, p)
  {
    hide Merge, SetPath, Hides, Comparable;
    forall q | !Comparable(p, q)
      ensures At(Merge(base, Table(SetPath(t, p, v))), q) == At(Merge(base, Table(t)), q)
         <==> !(Hides(t, p, q) && At(base, q).Some?)
    {
      WriteShows(base, t, p, v, q);
    }
  }

  /** Writing `a.b` over a runtime leaf at `a` brings the base's `a.c` back. */
  lemma WriteUncovers()
    ensures
      var base := Table(map["a" := Table(map["c" := Leaf(Number(1))])]);
      var t, p, q := map["a" := Leaf(Number(0))], ["a", "b"], ["a", "c"];
      && !Comparable(p, q)
      && At(Merge(base, Table(t)), q) == None
      && At(Merge(base, Table(SetPath(t, p, Leaf(Number(2))))), q) == Some(Leaf(Number(1)))
  {
    var base := Table(map["a" := Table(map["c" := Leaf(Number(1))])]);
    var t, p, q := map["a" := Leaf(Number(0))], ["a", "b"], ["a", "c"];
    assert p[1] == "b" && q[1] == "c" && !Comparable(p, q);
    assert Hides(t, p, q);
    assert q[1..] == ["c"] && q[1..][1..] == [];
    WriteShows(base, t, p, Leaf(Number(2)), q);
    hide Merge;
    assert At(base, q) == At(base.entries["a"], q[1..]) == At(Leaf(Number(1)), q[1..][1..]);
  }

  /** A layer that nowhere puts a leaf over a base table hides nothing of the base. */
  lemma {:induction false} CleanLayerHidesNothing(base: Value, t: map<string, Value>, p: Path, q: Path)
    requires NoLeafOverTable(base, Table(t)) && Hides(t, p, q)
    ensures At(base, q) == None
    decreases p
  {
    if base.Table? && p[0] in base.entries && t[p[0]].Table? {
      CleanLayerHidesNothing(base.entries[p[0]], t[p[0]].entries, p[1..], q[1..]);
    }
  }

  /** A write takes away what hid `q` if it passed through it, and hides nothing new. */
  lemma {:induction false} HidesAfterWrite(t: map<string, Value>, p: Path, v: Value, later: Path, q: Path)
    requires p != [] && !Comparable(p, later) && !Comparable(p, q) && !Comparable(later, q)
    ensures Hides(SetPath(t, p, v), later, q) <==> Hides(t, later, q) && !Hides(t, p, q)
    decreases p
  {
    Descend(p, later);
    Descend(p, q);
    Descend(later, q);
    if p[0] == later[0] == q[0] {
      HidesAfterWrite(Below(t, p[0]), p[1..], v, later[1..], q[1..]);
    }
  }
}
