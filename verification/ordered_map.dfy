/**
 * A model of Qt's `QMap<int, V>`: entries kept in strictly ascending key
 * order, so that iteration (`keys()`, `values()`) and the reverse lookup
 * `key(value, default)` visit keys from smallest to largest.
 */
module OrderedMap {
  import opened Wrappers

  datatype Entry<V> = Entry(key: int, value: V)

  predicate Sorted<V>(t: seq<Entry<V>>)
  {
    forall i, j :: 0 <= i < j < |t| ==> t[i].key < t[j].key
  }

  type Table<V> = t: seq<Entry<V>> | Sorted(t) witness []

  /** `keys()` as a set. */
  function Keys<V>(t: seq<Entry<V>>): set<int>
  {
    set i | 0 <= i < |t| :: t[i].key
  }

  /** The keys of a table with one more entry in front. */
  lemma KeysCons<V>(e: Entry<V>, t: seq<Entry<V>>)
    ensures Keys([e] + t) == {e.key} + Keys(t)
  {
    var r := [e] + t;
    assert r[0] == e;
    forall x | x in Keys(r)
      ensures x in {e.key} + Keys(t)
    {
      var i :| 0 <= i < |r| && r[i].key == x;
      if i > 0 {
        assert r[i] == t[i - 1];
      }
    }
    forall x | x in Keys(t)
      ensures x in Keys(r)
    {
      var i :| 0 <= i < |t| && t[i].key == x;
      assert r[i + 1] == t[i];
    }
  }

  /** `contains(k) ? value(k) : nothing`; the first entry for `k` wins. */
  function Get<V>(t: seq<Entry<V>>, k: int): (r: Option<V>)
    ensures r.Some? <==> k in Keys(t)
  {
    if |t| == 0 then None
    else
      assert t == [t[0]] + t[1..];
      KeysCons(t[0], t[1..]);
      if t[0].key == k then Some(t[0].value) else Get(t[1..], k)
  }

  /** A value found by `Get` is the value of some entry with that key. */
  lemma {:induction false} GetFound<V>(t: seq<Entry<V>>, k: int)
    requires Get(t, k).Some?
    ensures exists i :: 0 <= i < |t| && t[i].key == k && t[i].value == Get(t, k).value
  {
    if t[0].key != k {
      GetFound(t[1..], k);
      var i :| 0 <= i < |t[1..]| && t[1..][i].key == k && t[1..][i].value == Get(t[1..], k).value;
      assert t[i + 1] == t[1..][i];
    }
  }

  /** In a sorted table, each entry is what its own key looks up. */
  lemma {:induction false} GetEntry<V>(t: Table<V>, i: int)
    requires 0 <= i < |t|
    ensures Get(t, t[i].key) == Some(t[i].value)
    decreases i
  {
    if i > 0 {
      assert t[0].key < t[i].key;
      GetEntry(t[1..], i - 1);
    }
  }

  /** The first key of a sorted table is its least. */
  lemma FirstIsLeast<V>(t: Table<V>)
    requires |t| > 0
    ensures forall x :: x in Keys(t) ==> t[0].key <= x
  {
  }

  /**
   * Putting an entry in front of a sorted table whose keys all exceed the
   * entry's key keeps it sorted, adds the key, and changes the lookup of
   * that key alone.
   */
  lemma ConsFacts<V>(e: Entry<V>, t: Table<V>)
    requires forall x :: x in Keys(t) ==> e.key < x
    ensures Sorted([e] + t)
    ensures Keys([e] + t) == {e.key} + Keys(t)
    ensures forall j :: Get([e] + t, j) == if j == e.key then Some(e.value) else Get(t, j)
  {
    var r := [e] + t;
    assert r[1..] == t;
    forall i, j | 0 <= i < j < |r|
      ensures r[i].key < r[j].key
    {
      assert r[j] == t[j - 1];
      if i == 0 {
        assert t[j - 1].key in Keys(t);
      } else {
        assert r[i] == t[i - 1];
      }
    }
    KeysCons(e, t);
  }

  /** A non-empty sorted table is its first entry in front of the rest. */
  lemma Uncons<V>(t: Table<V>)
    requires |t| > 0
    ensures t == [t[0]] + t[1..]
    ensures forall x :: x in Keys(t[1..]) ==> t[0].key < x
  {
    assert t == [t[0]] + t[1..];
    forall x | x in Keys(t[1..])
      ensures t[0].key < x
    {
      var i :| 0 <= i < |t[1..]| && t[1..][i].key == x;
      assert t[1..][i] == t[i + 1];
    }
  }

  /** `insert(k, v)` / `operator[](k) = v`: insert or overwrite. */
  function Put<V>(t: Table<V>, k: int, v: V): (r: Table<V>)
    ensures Keys(r) == Keys(t) + {k}
    ensures Get(r, k) == Some(v)
    ensures forall j :: j != k ==> Get(r, j) == Get(t, j)
    decreases |t|
  {
    if |t| == 0 then
      ConsFacts(Entry(k, v), t);
      [Entry(k, v)] + t
    else
      Uncons(t);
      ConsFacts(t[0], t[1..]);
      if k < t[0].key then
        FirstIsLeast(t);
        ConsFacts(Entry(k, v), t);
        [Entry(k, v)] + t
      else if k == t[0].key then
        ConsFacts(Entry(k, v), t[1..]);
        [Entry(k, v)] + t[1..]
      else
        var rest := Put(t[1..], k, v);
        ConsFacts(t[0], rest);
        [t[0]] + rest
  }

  /** `take(k)` / `remove(k)`: drop the entry for `k`, if any. */
  function Remove<V>(t: Table<V>, k: int): (r: Table<V>)
    ensures Keys(r) == Keys(t) - {k}
    ensures Get(r, k) == None
    ensures forall j :: j != k ==> Get(r, j) == Get(t, j)
    decreases |t|
  {
    if |t| == 0 then t
    else
      Uncons(t);
      ConsFacts(t[0], t[1..]);
      if t[0].key == k then t[1..]
      else
        var rest := Remove(t[1..], k);
        ConsFacts(t[0], rest);
        [t[0]] + rest
  }
}
