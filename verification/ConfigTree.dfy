/** The layered configuration tree of `store.rs`: writing a dotted path (`set_path`), laying one
    tree over another (`deep_merge`) and listing the settings (`walk`). A path is the sequence
    of its segments. */
module ConfigTree {
  import opened Wrappers

  /** Anything that is not a table, arrays included, is replaced whole. */
  datatype Scalar =
    | Text(text: string)
    | Number(number: int)
    | Decimal(decimal: real)
    | Truth(truth: bool)
    | Other(repr: string)

  datatype Value = Leaf(scalar: Scalar) | Table(entries: map<string, Value>)

  type Path = seq<string>

  // ------------------------------------------------------------ reading

  function At(v: Value, p: Path): Option<Value> {
    if p == [] then Some(v)
    else if v.Table? && p[0] in v.entries then At(v.entries[p[0]], p[1..])
    else None
  }

  function LeafAt(v: Value, p: Path): Option<Scalar> {
    match At(v, p)
    case Some(Leaf(x)) => Some(x)
    case _ => None
  }

  datatype Setting = Setting(path: Path, scalar: Scalar)

  ghost predicate PathsDistinct(rows: seq<Setting>) {
    forall i, j :: 0 <= i < j < |rows| ==> rows[i].path != rows[j].path
  }

  ghost predicate Lists(rows: seq<Setting>, prefix: Path, v: Value) {
    forall s: Setting :: s in rows <==> prefix <= s.path && LeafAt(v, s.path[|prefix|..]) == Some(s.scalar)
  }

  ghost predicate ListsChildren(rows: seq<Setting>, prefix: Path, t: map<string, Value>, done: set<string>) {
    forall s: Setting :: s in rows <==>
      && prefix <= s.path && |prefix| < |s.path|
      && s.path[|prefix|] in done && s.path[|prefix|] in t
      && LeafAt(t[s.path[|prefix|]], s.path[|prefix| + 1..]) == Some(s.scalar)
  }

  /** Lists every leaf under `v` once, whatever the order the table hands out its keys in. */
  method Walk(prefix: Path, v: Value) returns (rows: seq<Setting>)
    ensures Lists(rows, prefix, v)
    ensures PathsDistinct(rows)
    decreases v
  {
    rows := [];
    match v
    case Leaf(x) =>
      rows := [Setting(prefix, x)];
      LeafListed(prefix, x);
    case Table(t) =>
      var todo := t.Keys;
      while todo != {}
        invariant todo <= t.Keys
        invariant ListsChildren(rows, prefix, t, t.Keys - todo)
        invariant PathsDistinct(rows)
        decreases |todo|
      {
        var k :| k in todo;
        var below := Walk(prefix + [k], t[k]);
        OneMoreChild(rows, below, prefix, t, t.Keys - todo, k);
        rows := rows + below;
        todo := todo - {k};
      }
      AllChildrenListed(rows, prefix, t);
  }

  lemma LeafListed(prefix: Path, x: Scalar)
    ensures Lists([Setting(prefix, x)], prefix, Leaf(x))
  {
    forall s: Setting
      ensures s in [Setting(prefix, x)] <==> prefix <= s.path && LeafAt(Leaf(x), s.path[|prefix|..]) == Some(s.scalar)
    {
      if prefix <= s.path {
        assert s.path == prefix + s.path[|prefix|..];
        assert s.path == prefix ==> s.path[|prefix|..] == [];
      }
    }
  }

  lemma OneMoreChild(rows: seq<Setting>, below: seq<Setting>, prefix: Path, t: map<string, Value>, done: set<string>,
                     k: string)
    requires k in t && k !in done
    requires ListsChildren(rows, prefix, t, done) && PathsDistinct(rows)
    requires Lists(below, prefix + [k], t[k]) && PathsDistinct(below)
    ensures ListsChildren(rows + below, prefix, t, done + {k})
    ensures PathsDistinct(rows + below)
  {
    forall s: Setting
      ensures s in below <==> && prefix <= s.path && |prefix| < |s.path| && s.path[|prefix|] == k
                              && LeafAt(t[k], s.path[|prefix| + 1..]) == Some(s.scalar)
    {
      assert prefix + [k] <= s.path <==> prefix <= s.path && |prefix| < |s.path| && s.path[|prefix|] == k;
    }
    assert forall i :: 0 <= i < |rows| ==> rows[i] in rows;
    assert forall i :: 0 <= i < |below| ==> below[i] in below;
  }

  lemma AllChildrenListed(rows: seq<Setting>, prefix: Path, t: map<string, Value>)
    requires ListsChildren(rows, prefix, t, t.Keys)
    ensures Lists(rows, prefix, Table(t))
  {
    forall s: Setting
      ensures s in rows <==> prefix <= s.path && LeafAt(Table(t), s.path[|prefix|..]) == Some(s.scalar)
    {
      if prefix <= s.path && |prefix| < |s.path| {
        assert s.path[|prefix|..][1..] == s.path[|prefix| + 1..];
      }
    }
  }

  // ------------------------------------------------------------ merging

  /** `overlay` laid over `base`: tables merge key by key, anything else is replaced. */
  function Merge(base: Value, overlay: Value): Value
    decreases overlay
  {
    if base.Table? && overlay.Table? then
      Table(map k | k in base.entries.Keys + overlay.entries.Keys ::
        if k !in overlay.entries then base.entries[k]
        else if k in base.entries then Merge(base.entries[k], overlay.entries[k])
        else overlay.entries[k])
    else overlay
  }

  function Over(base: map<string, Value>, overlay: map<string, Value>, k: string): Value
    requires k in overlay
  {
    if k in base then Merge(base[k], overlay[k]) else overlay[k]
  }

  lemma MergedEntry(base: Value, overlay: Value, k: string)
    requires base.Table? && overlay.Table?
    ensures
      var m := Merge(base, overlay);
      && m.Table?
      && (k in m.entries <==> k in base.entries || k in overlay.entries)
      && (k in base.entries && k in overlay.entries ==> m.entries[k] == Merge(base.entries[k], overlay.entries[k]))
      && (k in base.entries && k !in overlay.entries ==> m.entries[k] == base.entries[k])
      && (k !in base.entries && k in overlay.entries ==> m.entries[k] == overlay.entries[k])
  {}

  /** `b` is `base` with every overlay key but those in `todo` already merged in. */
  ghost predicate PartMerged(b: map<string, Value>, base: map<string, Value>, overlay: map<string, Value>,
                             todo: set<string>) {
    && todo <= overlay.Keys
    && b.Keys == base.Keys + (overlay.Keys - todo)
    && (forall k :: k in b ==> b[k] == if k in overlay && k !in todo then Over(base, overlay, k) else base[k])
  }

  lemma NothingMerged(base: map<string, Value>, overlay: map<string, Value>)
    ensures PartMerged(base, base, overlay, overlay.Keys)
  {}

  lemma MergeOneKey(b: map<string, Value>, base: map<string, Value>, overlay: map<string, Value>, todo: set<string>,
                    k: string)
    requires PartMerged(b, base, overlay, todo) && k in todo
    ensures k in b <==> k in base
    ensures k in b ==> b[k] == base[k]
    ensures PartMerged(b[k := Over(base, overlay, k)], base, overlay, todo - {k})
  {
    hide Over;
  }

  lemma AllMerged(b: map<string, Value>, base: map<string, Value>, overlay: map<string, Value>)
    requires PartMerged(b, base, overlay, {})
    ensures Table(b) == Merge(Table(base), Table(overlay))
  {
    assert b == Merge(Table(base), Table(overlay)).entries;
  }

  lemma MergeReplaces(base: Value, overlay: Value)
    requires base.Leaf? || overlay.Leaf?
    ensures Merge(base, overlay) == overlay
  {}

  /** The loop of the source: children that are tables on both sides are merged in place, the
      others overwritten, in whatever order the overlay hands out its keys. */
  method DeepMerge(base: Value, overlay: Value) returns (merged: Value)
    ensures merged == Merge(base, overlay)
    decreases overlay
  {
    hide Merge, PartMerged;
    if base.Leaf? || overlay.Leaf? { MergeReplaces(base, overlay); return overlay; }
    var b, todo := base.entries, overlay.entries.Keys;
    NothingMerged(base.entries, overlay.entries);
    while todo != {}
      invariant todo <= overlay.entries.Keys && PartMerged(b, base.entries, overlay.entries, todo)
      decreases |todo|
    {
      var k :| k in todo;
      var ov := overlay.entries[k];
      MergeOneKey(b, base.entries, overlay.entries, todo, k);
      if k in b && b[k].Table? && ov.Table? {
        var child := DeepMerge(b[k], ov);
        b := b[k := child];
      } else {
        if k in b { MergeReplaces(b[k], ov); }
        b := b[k := ov];
      }
      todo := todo - {k};
    }
    AllMerged(b, base.entries, overlay.entries);
    merged := Table(b);
  }

  /** What override by path would give: the overlay's leaf where it has one, else the base's. */
  function Overridden(base: Value, overlay: Value, p: Path): Option<Scalar> {
    if LeafAt(overlay, p).Some? then LeafAt(overlay, p) else LeafAt(base, p)
  }

  ghost predicate Leafless(v: Value) {
    v.Table? && forall k :: k in v.entries ==> Leafless(v.entries[k])
  }

  /** The two trees agree, at every path they share, on table versus leaf (an overlay leaf may
      also replace a table that holds no leaf at all). */
  ghost predicate Compatible(base: Value, overlay: Value)
    decreases overlay
  {
    match (base, overlay)
    case (Table(b), Table(o)) => forall k :: k in b && k in o ==> Compatible(b[k], o[k])
    case (Leaf(_), Leaf(_)) => true
    case (Leaf(_), Table(_)) => false
    case (Table(_), Leaf(_)) => Leafless(base)
  }

  lemma {:induction false} LeaflessMeans(v: Value, p: Path)
    requires Leafless(v)
    ensures LeafAt(v, p) == None
    decreases p
  {
    if p != [] && p[0] in v.entries { LeaflessMeans(v.entries[p[0]], p[1..]); }
  }

  lemma {:induction false} LeafWitness(v: Value) returns (p: Path)
    requires !Leafless(v)
    ensures LeafAt(v, p).Some?
    decreases v
  {
    p := [];
    if v.Table? {
      var k :| k in v.entries && !Leafless(v.entries[k]);
      var below := LeafWitness(v.entries[k]);
      p := [k] + below;
      assert p[1..] == below;
    }
  }

  lemma {:induction false} CompatibleOverrides(base: Value, overlay: Value, p: Path)
    requires Compatible(base, overlay)
    ensures LeafAt(Merge(base, overlay), p) == Overridden(base, overlay, p)
    decreases p
  {
    if base.Table? && overlay.Table? {
      if p != [] && p[0] in base.entries && p[0] in overlay.entries {
        CompatibleOverrides(base.entries[p[0]], overlay.entries[p[0]], p[1..]);
      }
    } else if base.Table? {
      LeaflessMeans(base, p);
    }
  }

  lemma {:induction false} ClashWitness(base: Value, overlay: Value) returns (p: Path)
    requires !Compatible(base, overlay)
    ensures LeafAt(Merge(base, overlay), p) != Overridden(base, overlay, p)
    decreases overlay
  {
    p := [];
    if base.Table? && overlay.Table? {
      var k :| k in base.entries && k in overlay.entries && !Compatible(base.entries[k], overlay.entries[k]);
      var below := ClashWitness(base.entries[k], overlay.entries[k]);
      p := [k] + below;
      assert p[1..] == below;
    } else if base.Table? {
      p := LeafWitness(base);
    }
  }

  /** Merging is override path by path exactly when the trees do not clash. */
  lemma MergeIsOverrideExactly(base: Value, overlay: Value)
    ensures (forall p :: LeafAt(Merge(base, overlay), p) == Overridden(base, overlay, p)) <==> Compatible(base, overlay)
  {
    if Compatible(base, overlay) {
      forall p ensures LeafAt(Merge(base, overlay), p) == Overridden(base, overlay, p) {
        CompatibleOverrides(base, overlay, p);
      }
    } else {
      var p := ClashWitness(base, overlay);
    }
  }

  /** A table laid over a leaf loses the leaf, which override by path would keep. */
  lemma TableOverLeafLosesIt()
    ensures
      var base, overlay := Table(map["a" := Leaf(Number(1))]), Table(map["a" := Table(map[])]);
      LeafAt(Merge(base, overlay), ["a"]) == None && Overridden(base, overlay, ["a"]) == Some(Number(1))
  {
    var base, overlay := Table(map["a" := Leaf(Number(1))]), Table(map["a" := Table(map[])]);
    assert ["a"][1..] == [];
    MergedEntry(base, overlay, "a");
    MergeReplaces(base.entries["a"], overlay.entries["a"]);
    hide Merge;
    assert At(Merge(base, overlay), ["a"]) == At(Merge(base, overlay).entries["a"], []) == Some(Table(map[]));
    assert At(base, ["a"]) == At(base.entries["a"], []) == Some(Leaf(Number(1)));
    assert At(overlay, ["a"]) == At(overlay.entries["a"], []) == Some(Table(map[]));
  }

  /** So the listing of a merge is the base's listing overridden by the overlay's. */
  lemma SettingsOfMerge(base: Value, overlay: Value, below: seq<Setting>, above: seq<Setting>, all: seq<Setting>)
    requires Compatible(base, overlay)
    requires Lists(below, [], base) && Lists(above, [], overlay) && Lists(all, [], Merge(base, overlay))
    ensures forall s :: s in all <==> s in above || (s in below && forall t :: t in above ==> t.path != s.path)
  {
    hide Merge, Compatible, LeafAt;
    MergeIsOverrideExactly(base, overlay);
    forall s: Setting ensures s in all <==> s in above || (s in below && forall t :: t in above ==> t.path != s.path) {
      assert s.path[0..] == s.path;
      assert LeafAt(Merge(base, overlay), s.path) == Overridden(base, overlay, s.path);
      if LeafAt(overlay, s.path).Some? {
        var t := Setting(s.path, LeafAt(overlay, s.path).value);
        assert t.path[0..] == s.path;
        assert t in above;
      }
      forall t | t in above && t.path == s.path ensures LeafAt(overlay, s.path).Some? {
        assert t.path[0..] == s.path;
      }
    }
  }

  // ------------------------------------------------------------ laws of merging

  /** `low` adds nothing under `high`. */
  ghost predicate Absorbed(low: Value, high: Value)
    decreases high
  {
    low.Table? && high.Table? ==>
      forall k :: k in low.entries ==> k in high.entries && Absorbed(low.entries[k], high.entries[k])
  }

  /** Merging under `high` changes nothing exactly when `low` adds nothing. */
  lemma {:induction false} AbsorbedExactly(low: Value, high: Value)
    ensures Merge(low, high) == high <==> Absorbed(low, high)
    decreases high
  {
    if low.Table? && high.Table? {
      forall k | k in low.entries && k in high.entries
        ensures Merge(low.entries[k], high.entries[k]) == high.entries[k] <==> Absorbed(low.entries[k], high.entries[k])
      {
        AbsorbedExactly(low.entries[k], high.entries[k]);
      }
      var merged := Merge(low, high).entries;
      if Absorbed(low, high) {
        assert merged == high.entries;
      } else {
        var k :| k in low.entries && !(k in high.entries && Absorbed(low.entries[k], high.entries[k]));
        assert k in merged;
        assert k in high.entries ==> merged[k] != high.entries[k];
      }
    }
  }

  lemma {:induction false} SelfAbsorbed(v: Value)
    ensures Absorbed(v, v)
    decreases v
  {
    if v.Table? {
      forall k | k in v.entries ensures Absorbed(v.entries[k], v.entries[k]) { SelfAbsorbed(v.entries[k]); }
    }
  }

  /** Applying the same overlay twice is applying it once, for all trees. */
  lemma {:induction false} MergeIdempotent(base: Value, overlay: Value)
    ensures Merge(Merge(base, overlay), overlay) == Merge(base, overlay)
    decreases overlay
  {
    if base.Table? && overlay.Table? {
      var once := Merge(base, overlay).entries;
      forall k | k in overlay.entries ensures Merge(once[k], overlay.entries[k]) == once[k] {
        if k in base.entries {
          MergeIdempotent(base.entries[k], overlay.entries[k]);
        } else {
          SelfAbsorbed(overlay.entries[k]);
          AbsorbedExactly(overlay.entries[k], overlay.entries[k]);
        }
      }
      assert Merge(Table(once), overlay).entries == once;
    } else {
      SelfAbsorbed(overlay);
      AbsorbedExactly(overlay, overlay);
    }
  }

  /** Wherever the middle layer puts a leaf between two tables, the top table hides the bottom
      one entirely. */
  ghost predicate Layerable(low: Value, mid: Value, high: Value)
    decreases high
  {
    match (low, mid, high)
    case (Table(a), Table(b), Table(c)) => forall k :: k in a && k in b && k in c ==> Layerable(a[k], b[k], c[k])
    case (Table(_), Leaf(_), Table(_)) => Absorbed(low, high)
    case _ => true
  }

  ghost predicate Associates(low: Value, mid: Value, high: Value) {
    Merge(Merge(low, mid), high) == Merge(low, Merge(mid, high))
  }

  /** One key of three merged tables. */
  lemma MergedTwice(a: Value, b: Value, c: Value, k: string)
    requires a.Table? && b.Table? && c.Table?
    ensures
      var left, right := Merge(Merge(a, b), c), Merge(a, Merge(b, c));
      && left.Table? && right.Table?
      && (k in left.entries <==> k in right.entries)
      && (k in a.entries && k in b.entries && k in c.entries ==>
            && left.entries[k] == Merge(Merge(a.entries[k], b.entries[k]), c.entries[k])
            && right.entries[k] == Merge(a.entries[k], Merge(b.entries[k], c.entries[k])))
      && (k in left.entries && !(k in a.entries && k in b.entries && k in c.entries) ==>
            left.entries[k] == right.entries[k])
  {
    hide Merge;
    MergedEntry(a, b, k);
    MergedEntry(Merge(a, b), c, k);
    MergedEntry(b, c, k);
    MergedEntry(a, Merge(b, c), k);
  }

  /** Three layers can be merged in either order exactly when they are layerable. */
  lemma {:induction false} MergeAssociatesExactly(low: Value, mid: Value, high: Value)
    ensures Associates(low, mid, high) <==> Layerable(low, mid, high)
    decreases high
  {
    if low.Table? && mid.Table? && high.Table? {
      AssociatesByKey(low, mid, high);
      forall k | k in low.entries && k in mid.entries && k in high.entries
        ensures Associates(low.entries[k], mid.entries[k], high.entries[k])
           <==> Layerable(low.entries[k], mid.entries[k], high.entries[k])
      {
        MergeAssociatesExactly(low.entries[k], mid.entries[k], high.entries[k]);
      }
      hide Associates;
    } else if low.Table? && mid.Leaf? && high.Table? {
      AbsorbedExactly(low, high);
    }
  }

  /** A leaf between two tables: merged from the left it wipes the bottom table out, merged from the
      right it has already gone. */
  lemma MiddleLeafDoesNotAssociate()
    ensures !Associates(Table(map["a" := Leaf(Number(1))]), Leaf(Number(0)), Table(map[]))
  {
    var low, mid, high := Table(map["a" := Leaf(Number(1))]), Leaf(Number(0)), Table(map[]);
    MergedEntry(low, high, "a");
    assert "a" in Merge(low, high).entries && "a" !in high.entries;
  }

  lemma AssociatesByKey(a: Value, b: Value, c: Value)
    requires a.Table? && b.Table? && c.Table?
    ensures Associates(a, b, c)
       <==> forall k :: k in a.entries && k in b.entries && k in c.entries ==>
              Associates(a.entries[k], b.entries[k], c.entries[k])
  {
    hide Merge;
    forall k ensures
      var left, right := Merge(Merge(a, b), c), Merge(a, Merge(b, c));
      && left.Table? && right.Table?
      && (k in left.entries <==> k in right.entries)
      && (k in a.entries && k in b.entries && k in c.entries ==>
            (k in left.entries
             && (left.entries[k] == right.entries[k] <==> Associates(a.entries[k], b.entries[k], c.entries[k]))))
      && (k in left.entries && !(k in a.entries && k in b.entries && k in c.entries) ==>
            left.entries[k] == right.entries[k])
    {
      MergedTwice(a, b, c, k);
      MergedEntry(a, b, k);
      MergedEntry(Merge(a, b), c, k);
    }
    var left, right := Merge(Merge(a, b), c), Merge(a, Merge(b, c));
    MergedTwice(a, b, c, "");
    assert left == right <==> left.entries == right.entries;
  }

  ghost predicate NoLeafOverTable(base: Value, overlay: Value)
    decreases overlay
  {
    match (base, overlay)
    case (Table(b), Table(o)) => forall k :: k in b && k in o ==> NoLeafOverTable(b[k], o[k])
    case (Table(_), Leaf(_)) => false
    case _ => true
  }

  /** In particular merging associates when the middle layer never puts a leaf over a table. */
  lemma NoLeafOverTableLayers(low: Value, mid: Value, high: Value)
    requires NoLeafOverTable(low, mid)
    ensures Associates(low, mid, high)
  {
    NoLeafOverTableIsLayerable(low, mid, high);
    MergeAssociatesExactly(low, mid, high);
  }

  lemma {:induction false} NoLeafOverTableIsLayerable(low: Value, mid: Value, high: Value)
    requires NoLeafOverTable(low, mid)
    ensures Layerable(low, mid, high)
    decreases high
  {
    if low.Table? && mid.Table? && high.Table? {
      forall k | k in low.entries && k in mid.entries && k in high.entries
        ensures Layerable(low.entries[k], mid.entries[k], high.entries[k])
      {
        NoLeafOverTableIsLayerable(low.entries[k], mid.entries[k], high.entries[k]);
      }
    }
  }
}
