/** A table held as a list of rows, as the deny-list and the binding registry keep theirs:
    writing a key drops the rows that carry it and appends the new one. */
module KeyedList {
  import opened Wrappers

  datatype Row<V> = Row(key: string, value: V)

  /** `retain(|row| row.key != key)`. */
  function Without<V>(rows: seq<Row<V>>, key: string): seq<Row<V>> {
    if rows == [] then []
    else (if rows[0].key == key then [] else [rows[0]]) + Without(rows[1..], key)
  }

  function Put<V>(rows: seq<Row<V>>, key: string, value: V): seq<Row<V>> {
    Without(rows, key) + [Row(key, value)]
  }

  /** The first row that carries `key`. */
  function Find<V>(rows: seq<Row<V>>, key: string): Option<V> {
    if rows == [] then None
    else if rows[0].key == key then Some(rows[0].value)
    else Find(rows[1..], key)
  }

  ghost function Keys<V>(rows: seq<Row<V>>): set<string> { set i | 0 <= i < |rows| :: rows[i].key }

  ghost predicate UniqueKeys<V>(rows: seq<Row<V>>) {
    forall i, j :: 0 <= i < j < |rows| ==> rows[i].key != rows[j].key
  }

  lemma KeysSplit<V>(rows: seq<Row<V>>)
    requires rows != []
    ensures Keys(rows) == {rows[0].key} + Keys(rows[1..])
  {
    forall k | k in Keys(rows[1..]) ensures k in Keys(rows) {
      var i :| 0 <= i < |rows[1..]| && rows[1..][i].key == k;
      assert rows[i + 1].key == k;
    }
    forall k | k in Keys(rows) ensures k in {rows[0].key} + Keys(rows[1..]) {
      var i :| 0 <= i < |rows| && rows[i].key == k;
      assert i > 0 ==> rows[1..][i - 1].key == k;
    }
  }

  lemma KeysAppend<V>(rows: seq<Row<V>>, row: Row<V>)
    ensures Keys(rows + [row]) == Keys(rows) + {row.key}
  {
    var more := rows + [row];
    assert more[|rows|] == row;
    assert forall i :: 0 <= i < |rows| ==> more[i] == rows[i];
  }

  /** Keys are unique exactly when each is absent from what follows it. */
  lemma UniqueSplit<V>(rows: seq<Row<V>>)
    requires rows != []
    ensures UniqueKeys(rows) <==> rows[0].key !in Keys(rows[1..]) && UniqueKeys(rows[1..])
  {
    var rest := rows[1..];
    assert forall i :: 0 <= i < |rest| ==> rest[i] == rows[i + 1];
    if rows[0].key !in Keys(rest) && UniqueKeys(rest) {
      forall i, j | 0 <= i < j < |rows| ensures rows[i].key != rows[j].key {
        assert rest[j - 1].key in Keys(rest);
        assert i > 0 ==> rest[i - 1].key != rest[j - 1].key;
      }
    }
  }

  lemma {:induction false} WithoutKeys<V>(rows: seq<Row<V>>, key: string)
    ensures Keys(Without(rows, key)) == Keys(rows) - {key}
    ensures UniqueKeys(rows) ==> UniqueKeys(Without(rows, key))
  {
    hide Keys, UniqueKeys;
    if rows == [] {
      assert Keys(rows) == {} && UniqueKeys(rows) by { NoKeys<V>(); }
    } else {
      var rest := Without(rows[1..], key);
      WithoutKeys(rows[1..], key);
      KeysSplit(rows);
      UniqueSplit(rows);
      if rows[0].key != key {
        assert Without(rows, key)[1..] == rest;
        KeysSplit(Without(rows, key));
        UniqueSplit(Without(rows, key));
      } else {
        assert Without(rows, key) == rest;
      }
    }
  }

  lemma NoKeys<V>()
    ensures Keys<V>([]) == {} && UniqueKeys<V>([])
  {}

  /** The list gets shorter exactly when the key was there; otherwise it is unchanged. */
  lemma {:induction false} WithoutShortens<V>(rows: seq<Row<V>>, key: string)
    ensures |Without(rows, key)| <= |rows|
    ensures |Without(rows, key)| < |rows| <==> key in Keys(rows)
    ensures key !in Keys(rows) ==> Without(rows, key) == rows
  {
    if rows != [] {
      WithoutShortens(rows[1..], key);
      KeysSplit(rows);
      hide Keys;
    }
  }

  /** Writing a key keeps the keys unique and adds it. */
  lemma PutKeys<V>(rows: seq<Row<V>>, key: string, value: V)
    ensures Keys(Put(rows, key, value)) == Keys(rows) + {key}
    ensures UniqueKeys(rows) ==> UniqueKeys(Put(rows, key, value))
  {
    var kept := Without(rows, key);
    WithoutKeys(rows, key);
    KeysAppend(kept, Row(key, value));
    assert forall i :: 0 <= i < |kept| ==> kept[i].key in Keys(kept);
  }

  /** Lookup after dropping a key, and after writing one, is that of a map. */
  lemma {:induction false} FindWithout<V>(rows: seq<Row<V>>, key: string, x: string)
    ensures Find(Without(rows, key), x) == if x == key then None else Find(rows, x)
  {
    if rows != [] {
      FindWithout(rows[1..], key, x);
      assert rows[0].key == key ==> Without(rows, key) == Without(rows[1..], key);
      assert rows[0].key != key ==> Without(rows, key)[1..] == Without(rows[1..], key);
    }
  }

  lemma {:induction false} FindAppend<V>(rows: seq<Row<V>>, row: Row<V>, x: string)
    ensures Find(rows + [row], x)
         == if Find(rows, x).Some? then Find(rows, x) else if row.key == x then Some(row.value) else None
  {
    if rows == [] {
      assert (rows + [row])[1..] == [];
    } else {
      FindAppend(rows[1..], row, x);
      assert (rows + [row])[1..] == rows[1..] + [row];
    }
  }

  lemma FindPut<V>(rows: seq<Row<V>>, key: string, value: V, x: string)
    ensures Find(Put(rows, key, value), x) == if x == key then Some(value) else Find(rows, x)
  {
    FindWithout(rows, key, x);
    FindAppend(Without(rows, key), Row(key, value), x);
  }

  lemma {:induction false} FindMeans<V>(rows: seq<Row<V>>, key: string)
    ensures Find(rows, key).Some? <==> key in Keys(rows)
    ensures Find(rows, key).Some? ==> Row(key, Find(rows, key).value) in rows
  {
    if rows != [] {
      FindMeans(rows[1..], key);
      KeysSplit(rows);
      assert forall r :: r in rows[1..] ==> r in rows;
      hide Keys;
    }
  }

  /** With unique keys a scan of the rows sees exactly what lookups see. */
  lemma {:induction false} RowsAreFound<V>(rows: seq<Row<V>>, row: Row<V>)
    requires UniqueKeys(rows) && row in rows
    ensures Find(rows, row.key) == Some(row.value)
  {
    var i :| 0 <= i < |rows| && rows[i] == row;
    if i > 0 {
      assert rows[1..][i - 1] == row;
      RowsAreFound(rows[1..], row);
    }
  }

  /** The map a list of rows stands for. */
  ghost function Table<V>(rows: seq<Row<V>>): map<string, V> {
    map key | key in Keys(rows) && Find(rows, key).Some? :: Find(rows, key).value
  }

  lemma TableOfPut<V>(rows: seq<Row<V>>, key: string, value: V)
    ensures Table(Put(rows, key, value)) == Table(rows)[key := value]
  {
    hide Keys, Find, Put;
    PutKeys(rows, key, value);
    forall x ensures Find(Put(rows, key, value), x) == if x == key then Some(value) else Find(rows, x) {
      FindPut(rows, key, value, x);
    }
  }

  lemma TableOfWithout<V>(rows: seq<Row<V>>, key: string)
    ensures Table(Without(rows, key)) == Table(rows) - {key}
  {
    hide Keys, Find, Without;
    WithoutKeys(rows, key);
    forall x ensures Find(Without(rows, key), x) == if x == key then None else Find(rows, x) {
      FindWithout(rows, key, x);
    }
  }
}
