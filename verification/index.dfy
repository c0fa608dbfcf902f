/** The in-memory indexes (`ModelIndex`, `CarIndex`, `SalesIndex` lists in
    `src/bibip_car_service.py`): a list of (key, position) entries, re-sorted
    by key after every change and mirrored wholesale to an index file. A
    position is the zero-based line number of the record in its data file. */
module Index {
  import opened Wrappers
  import opened Seqs
  import opened Sorting
  import opened Fields

  /** One index entry: a key and the line its record sits on. */
  datatype Entry<K> = Entry(key: K, position: nat)

  /** Compares entries by key only, as `sort(key=lambda x: x.<key>)` does. */
  function ByKey<K>(keyLe: (K, K) -> bool): (Entry<K>, Entry<K>) -> bool {
    (a: Entry<K>, b: Entry<K>) => keyLe(a.key, b.key)
  }

  lemma ByKeyIsTotalPreorder<K(!new)>(keyLe: (K, K) -> bool)
    requires TotalPreorder(keyLe)
    ensures TotalPreorder(ByKey(keyLe))
  {
    var le := ByKey(keyLe);
    forall a: Entry<K>, b: Entry<K>
      ensures le(a, b) || le(b, a)
    {
      assert keyLe(a.key, b.key) || keyLe(b.key, a.key);
    }
    forall a: Entry<K>, b: Entry<K>, c: Entry<K> | le(a, b) && le(b, c)
      ensures le(a, c)
    {
      assert keyLe(a.key, b.key) && keyLe(b.key, c.key);
    }
  }

  function KeyIs<K(==)>(k: K): Entry<K> -> bool {
    (e: Entry<K>) => e.key == k
  }

  function Position<K>(e: Entry<K>): nat {
    e.position
  }

  /** The linear scan for the first entry with key `k` and its position. */
  function Lookup<K(==)>(index: seq<Entry<K>>, k: K): (r: Option<nat>)
    ensures r.None? <==> forall i :: 0 <= i < |index| ==> index[i].key != k
    ensures r.Some? ==> exists i :: && 0 <= i < |index| && index[i].key == k
                                    && index[i].position == r.value
                                    && forall j :: 0 <= j < i ==> index[j].key != k
  {
    match FirstWhere(index, KeyIs(k))
    case None => None
    case Some(i) => Some(index[i].position)
  }

  /** The slot of the first entry with key `k`. */
  function LookupSlot<K(==)>(index: seq<Entry<K>>, k: K): (r: Option<nat>)
    ensures r.None? <==> forall i :: 0 <= i < |index| ==> index[i].key != k
    ensures r.Some? ==> r.value < |index| && index[r.value].key == k
                        && (forall j :: 0 <= j < r.value ==> index[j].key != k)
                        && Lookup(index, k) == Some(index[r.value].position)
  {
    FirstWhere(index, KeyIs(k))
  }

  /** What every insert does to its index: append an entry whose position is
      the index length, then re-sort by key. */
  function AddEntry<K>(index: seq<Entry<K>>, k: K, keyLe: (K, K) -> bool): (r: seq<Entry<K>>)
    ensures |r| == |index| + 1
    ensures multiset(r) == multiset(index) + multiset{Entry(k, |index|)}
  {
    Sort(index + [Entry(k, |index|)], ByKey(keyLe))
  }

  /** Gives the entry in slot `i` the key `k`, keeping its position, and re-sorts. */
  function Rekey<K>(index: seq<Entry<K>>, i: nat, k: K, keyLe: (K, K) -> bool): (r: seq<Entry<K>>)
    requires i < |index|
    ensures |r| == |index|
    ensures multiset(r) == multiset(index) - multiset{index[i]} + multiset{Entry(k, index[i].position)}
  {
    var changed := index[i := Entry(k, index[i].position)];
    assert index == index[..i] + [index[i]] + index[i + 1..];
    assert changed == index[..i] + [Entry(k, index[i].position)] + index[i + 1..];
    Sort(changed, ByKey(keyLe))
  }

  lemma AddEntrySorted<K(!new)>(index: seq<Entry<K>>, k: K, keyLe: (K, K) -> bool)
    requires TotalPreorder(keyLe)
    ensures SortedBy(AddEntry(index, k, keyLe), ByKey(keyLe))
  {
    ByKeyIsTotalPreorder(keyLe);
    SortSorted(index + [Entry(k, |index|)], ByKey(keyLe));
  }

  lemma RekeySorted<K(!new)>(index: seq<Entry<K>>, i: nat, k: K, keyLe: (K, K) -> bool)
    requires i < |index|
    requires TotalPreorder(keyLe)
    ensures SortedBy(Rekey(index, i, k, keyLe), ByKey(keyLe))
  {
    ByKeyIsTotalPreorder(keyLe);
    SortSorted(index[i := Entry(k, index[i].position)], ByKey(keyLe));
  }

  /** The entry's position is a line of `data` that carries the entry's key. */
  ghost predicate PointsAt<K>(e: Entry<K>, data: seq<Line>, keyOf: Line -> Option<K>) {
    e.position < |data| && keyOf(data[e.position]) == Some(e.key)
  }

  /** The index agrees with its data file: one entry per line, and the
      entries point at distinct lines carrying their keys. */
  ghost predicate Consistent<K>(index: seq<Entry<K>>, data: seq<Line>, keyOf: Line -> Option<K>) {
    && |index| == |data|
    && (forall i :: 0 <= i < |index| ==> PointsAt(index[i], data, keyOf))
    && DistinctBy(index, Position)
  }

  /** In a consistent index a lookup lands on a line carrying the key. */
  lemma LookupPointsAt<K>(index: seq<Entry<K>>, data: seq<Line>, keyOf: Line -> Option<K>, k: K)
    requires Consistent(index, data, keyOf)
    requires Lookup(index, k).Some?
    ensures Lookup(index, k).value < |data|
    ensures keyOf(data[Lookup(index, k).value]) == Some(k)
  {
    var i := LookupSlot(index, k).value;
    assert PointsAt(index[i], data, keyOf);
  }

  /** Appending a line that carries key `k` and indexing it keeps the index consistent. */
  lemma {:induction false} AddEntryConsistent<K>(index: seq<Entry<K>>, data: seq<Line>, keyOf: Line -> Option<K>,
                                                 line: Line, k: K, keyLe: (K, K) -> bool)
    requires Consistent(index, data, keyOf)
    requires keyOf(line) == Some(k)
    ensures Consistent(AddEntry(index, k, keyLe), data + [line], keyOf)
  {
    var data' := data + [line];
    var added := index + [Entry(k, |index|)];
    forall i | 0 <= i < |added|
      ensures PointsAt(added[i], data', keyOf)
    {
      if i < |index| {
        assert PointsAt(index[i], data, keyOf);
        assert data'[index[i].position] == data[index[i].position];
      }
    }
    forall i, j | 0 <= i < j < |added|
      ensures Position(added[i]) != Position(added[j])
    {
      if j < |index| {
        assert Position(index[i]) != Position(index[j]);
      } else {
        assert PointsAt(index[i], data, keyOf);
      }
    }
    SortKeepsDistinct(added, ByKey(keyLe), Position);
    var r := AddEntry(index, k, keyLe);
    forall i | 0 <= i < |r|
      ensures PointsAt(r[i], data', keyOf)
    {
      assert r[i] in multiset(added);
      var j :| 0 <= j < |added| && added[j] == r[i];
    }
  }

  /** Renaming the key of the entry in slot `i`, when its line is rewritten to
      carry the new key and no other line changes, keeps the index consistent. */
  lemma {:induction false} RekeyConsistent<K>(index: seq<Entry<K>>, data: seq<Line>, keyOf: Line -> Option<K>,
                                              i: nat, line: Line, k: K, keyLe: (K, K) -> bool)
    requires Consistent(index, data, keyOf)
    requires i < |index|
    requires keyOf(line) == Some(k)
    ensures Consistent(Rekey(index, i, k, keyLe), data[index[i].position := line], keyOf)
  {
    var p := index[i].position;
    assert PointsAt(index[i], data, keyOf);
    var data' := data[p := line];
    var changed := index[i := Entry(k, p)];
    forall j | 0 <= j < |changed|
      ensures PointsAt(changed[j], data', keyOf)
    {
      if j != i {
        assert PointsAt(index[j], data, keyOf);
        if j < i {
          assert Position(index[j]) != Position(index[i]);
        } else {
          assert Position(index[i]) != Position(index[j]);
        }
      }
    }
    forall a, b | 0 <= a < b < |changed|
      ensures Position(changed[a]) != Position(changed[b])
    {
      assert Position(index[a]) != Position(index[b]);
    }
    SortKeepsDistinct(changed, ByKey(keyLe), Position);
    var r := Rekey(index, i, k, keyLe);
    forall j | 0 <= j < |r|
      ensures PointsAt(r[j], data', keyOf)
    {
      assert r[j] in multiset(changed);
      var a :| 0 <= a < |changed| && changed[a] == r[j];
    }
  }

  /** Rewriting a line so that it still carries the same key keeps the index consistent. */
  lemma ReplaceConsistent<K>(index: seq<Entry<K>>, data: seq<Line>, keyOf: Line -> Option<K>, p: nat, line: Line)
    requires Consistent(index, data, keyOf)
    requires p < |data| && keyOf(line) == keyOf(data[p])
    ensures Consistent(index, data[p := line], keyOf)
  {
    forall i | 0 <= i < |index|
      ensures PointsAt(index[i], data[p := line], keyOf)
    {
      assert PointsAt(index[i], data, keyOf);
    }
  }
}
