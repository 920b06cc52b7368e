/** A slice of keyed rows with in-place update and swap-with-last removal, and the map it stands for. */
module SliceMap {

  datatype Row<+K, +V> = Row(key: K, val: V)

  ghost predicate Distinct<K, V>(s: seq<Row<K, V>>) {
    forall i, j | 0 <= i < j < |s| :: s[i].key != s[j].key
  }

  /** Position of a key, or the length if absent. */
  function Index<K(==), V>(s: seq<Row<K, V>>, key: K): (i: nat)
    ensures i <= |s|
    ensures forall k | 0 <= k < i :: s[k].key != key
    ensures i < |s| ==> s[i].key == key
  {
    if s == [] || s[0].key == key then 0 else Index(s[1..], key) + 1
  }

  /** The finite map a slice stands for. */
  function ToMap<K(==), V>(s: seq<Row<K, V>>): map<K, V> {
    if s == [] then map[] else ToMap(s[..|s| - 1])[s[|s| - 1].key := s[|s| - 1].val]
  }

  function Upserted<K(==), V>(s: seq<Row<K, V>>, e: Row<K, V>): seq<Row<K, V>> {
    var i := Index(s, e.key);
    if i < |s| then s[i := e] else s + [e]
  }

  function Removed<K(==), V>(s: seq<Row<K, V>>, key: K): seq<Row<K, V>> {
    var i, last := Index(s, key), |s| - 1;
    if i < |s| then s[i := s[last]][..last] else s
  }

  lemma {:induction false} IndexUnique<K, V>(s: seq<Row<K, V>>, key: K, i: nat)
    requires Distinct(s) && i < |s| && s[i].key == key
    ensures Index(s, key) == i
  {
  }

  /** Map lookup is the row at the key's position. */
  lemma {:induction false} MapGet<K, V>(s: seq<Row<K, V>>, key: K)
    requires Distinct(s)
    ensures key in ToMap(s) <==> Index(s, key) < |s|
    ensures key in ToMap(s) ==> ToMap(s)[key] == s[Index(s, key)].val
  {
    if s != [] {
      var t, e := s[..|s| - 1], s[|s| - 1];
      MapGet(t, key);
      if key == e.key {
        IndexUnique(s, key, |s| - 1);
      } else if Index(t, key) < |t| {
        IndexUnique(s, key, Index(t, key));
      }
    }
  }

  lemma {:induction false} MapSize<K, V>(s: seq<Row<K, V>>)
    requires Distinct(s)
    ensures |ToMap(s)| == |s|
  {
    if s != [] {
      MapSize(s[..|s| - 1]);
      MapGet(s[..|s| - 1], s[|s| - 1].key);
    }
  }

  lemma {:induction false} InMap<K, V>(s: seq<Row<K, V>>, e: Row<K, V>)
    requires Distinct(s)
    ensures e in s <==> e.key in ToMap(s) && ToMap(s)[e.key] == e.val
  {
    MapGet(s, e.key);
    if e in s {
      var i :| 0 <= i < |s| && s[i] == e;
      IndexUnique(s, e.key, i);
    }
  }

  lemma {:induction false} UpsertDistinct<K, V>(s: seq<Row<K, V>>, e: Row<K, V>)
    requires Distinct(s)
    ensures Distinct(Upserted(s, e))
  {
  }

  lemma {:induction false} UpsertIndex<K, V>(s: seq<Row<K, V>>, e: Row<K, V>, c: K)
    requires Distinct(s)
    ensures var t := Upserted(s, e);
            && Distinct(t)
            && (c == e.key ==> Index(t, c) < |t| && t[Index(t, c)] == e)
            && (c != e.key ==> (Index(t, c) < |t| <==> Index(s, c) < |s|))
            && (c != e.key && Index(s, c) < |s| ==> t[Index(t, c)] == s[Index(s, c)])
  {
    UpsertDistinct(s, e);
    var t, i, j := Upserted(s, e), Index(s, e.key), Index(s, c);
    assert t[i] == e;
    assert forall k | 0 <= k < |t| && k != i :: t[k] == s[k];
    if c == e.key {
      IndexUnique(t, c, i);
    } else if j < |s| {
      assert t[j] == s[j];
      IndexUnique(t, c, j);
    }
  }

  lemma {:induction false} UpsertMap<K, V>(s: seq<Row<K, V>>, e: Row<K, V>)
    requires Distinct(s)
    ensures Distinct(Upserted(s, e))
    ensures ToMap(Upserted(s, e)) == ToMap(s)[e.key := e.val]
  {
    UpsertDistinct(s, e);
    var m, n := ToMap(Upserted(s, e)), ToMap(s)[e.key := e.val];
    forall c | c in m ensures c in n && m[c] == n[c] {
      MapGet(s, c);
      MapGet(Upserted(s, e), c);
      UpsertIndex(s, e, c);
    }
    forall c | c in n ensures c in m {
      MapGet(s, c);
      MapGet(Upserted(s, e), c);
      UpsertIndex(s, e, c);
    }
  }

  lemma {:induction false} RemoveDistinct<K, V>(s: seq<Row<K, V>>, key: K)
    requires Distinct(s)
    ensures Distinct(Removed(s, key))
  {
  }

  lemma {:induction false} RemoveIndex<K, V>(s: seq<Row<K, V>>, key: K, c: K)
    requires Distinct(s)
    ensures var t := Removed(s, key);
            && Distinct(t)
            && (Index(t, c) < |t| <==> c != key && Index(s, c) < |s|)
            && (Index(t, c) < |t| ==> t[Index(t, c)] == s[Index(s, c)])
  {
    RemoveDistinct(s, key);
    var t, i, j, last := Removed(s, key), Index(s, key), Index(s, c), |s| - 1;
    if i < |s| {
      assert forall k | 0 <= k < last :: t[k] == if k == i then s[last] else s[k];
      if c != key && j < |s| {
        var j' := if j == last then i else j;
        assert t[j'] == s[j];
        IndexUnique(t, c, j');
      }
    }
  }

  /** Removal drops one row and keeps every other one, wherever the last row lands. */
  lemma {:induction false} RemoveMap<K, V>(s: seq<Row<K, V>>, key: K)
    requires Distinct(s)
    ensures Distinct(Removed(s, key))
    ensures ToMap(Removed(s, key)) == ToMap(s) - {key}
  {
    RemoveDistinct(s, key);
    var m, n := ToMap(Removed(s, key)), ToMap(s) - {key};
    forall c | c in m ensures c in n && m[c] == n[c] {
      MapGet(s, c);
      MapGet(Removed(s, key), c);
      RemoveIndex(s, key, c);
    }
    forall c | c in n ensures c in m {
      MapGet(s, c);
      MapGet(Removed(s, key), c);
      RemoveIndex(s, key, c);
    }
  }

  datatype Op<+K, +V> = Upsert(e: Row<K, V>) | Remove(key: K)

  function RunSlice<K(==), V>(s: seq<Row<K, V>>, ops: seq<Op<K, V>>): seq<Row<K, V>>
    decreases |ops|
  {
    if ops == [] then s
    else
      RunSlice(match ops[0] case Upsert(e) => Upserted(s, e) case Remove(k) => Removed(s, k), ops[1..])
  }

  function RunMap<K(==), V>(m: map<K, V>, ops: seq<Op<K, V>>): map<K, V>
    decreases |ops|
  {
    if ops == [] then m
    else
      RunMap(match ops[0] case Upsert(e) => m[e.key := e.val] case Remove(k) => m - {k}, ops[1..])
  }

  /** Every run of upserts and removes on the slice is the same run on the map. */
  lemma {:induction false} SliceRefinesMap<K, V>(s: seq<Row<K, V>>, ops: seq<Op<K, V>>)
    requires Distinct(s)
    ensures var t := RunSlice(s, ops);
            Distinct(t) && ToMap(t) == RunMap(ToMap(s), ops) && |t| == |RunMap(ToMap(s), ops)|
    decreases |ops|
  {
    if ops == [] {
      MapSize(s);
    } else {
      match ops[0]
      case Upsert(e) =>
        UpsertMap(s, e);
        SliceRefinesMap(Upserted(s, e), ops[1..]);
      case Remove(k) =>
        RemoveMap(s, k);
        SliceRefinesMap(Removed(s, k), ops[1..]);
    }
  }
}
