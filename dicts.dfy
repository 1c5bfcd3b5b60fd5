/** Python dictionaries with string keys, as ordered lists of entries.

    A Python `dict` remembers insertion order, and assigning `d[k] = v` to a
    key that is already present updates the entry where it stands; only a new
    key is appended at the end. Dictionaries built from literals and from
    parsed JSON never hold a key twice; the functions here do not rely on it
    and always act on the first entry for a key. */
module Dicts {
  import opened Wrappers

  type Dict<V> = seq<(string, V)>

  /** The keys in iteration order. */
  function Keys<V>(d: Dict<V>): (ks: seq<string>)
    ensures |ks| == |d|
    ensures forall i :: 0 <= i < |d| ==> ks[i] == d[i].0
  {
    seq(|d|, i requires 0 <= i < |d| => d[i].0)
  }

  /** Position of the entry for `k`. */
  function IndexOf<V>(d: Dict<V>, k: string): (i: nat)
    requires k in Keys(d)
    ensures i < |d| && d[i].0 == k
    ensures forall j :: 0 <= j < i ==> d[j].0 != k
  {
    if d[0].0 == k then 0
    else
      assert Keys(d)[1..] == Keys(d[1..]);
      1 + IndexOf(d[1..], k)
  }

  /** `d.get(k)`: the value stored for `k`, if any. */
  function Get<V>(d: Dict<V>, k: string): Option<V>
  {
    if k in Keys(d) then Some(d[IndexOf(d, k)].1) else None
  }

  /** `d[k] = v`: replaces the entry for `k` where it stands, or appends a
      new entry when `k` is absent. */
  function Put<V>(d: Dict<V>, k: string, v: V): Dict<V>
  {
    if k in Keys(d) then d[IndexOf(d, k) := (k, v)] else d + [(k, v)]
  }

  /** After `d[k] = v` the keys are those of `d`, plus `k` at the end when it
      was new; `k` maps to `v` and every other key keeps its value. */
  lemma PutKeysAndValues<V>(d: Dict<V>, k: string, v: V)
    ensures Keys(Put(d, k, v)) == if k in Keys(d) then Keys(d) else Keys(d) + [k]
    ensures Get(Put(d, k, v), k) == Some(v)
    ensures forall j :: j != k ==> Get(Put(d, k, v), j) == Get(d, j)
  {
    var r := Put(d, k, v);
    if k in Keys(d) {
      assert Keys(r) == Keys(d);
      assert IndexOf(r, k) == IndexOf(d, k);
      forall j | j != k && j in Keys(d)
        ensures Get(r, j) == Get(d, j)
      {
        assert IndexOf(r, j) == IndexOf(d, j);
      }
    } else {
      assert Keys(r) == Keys(d) + [k];
      assert IndexOf(r, k) == |d|;
      forall j | j != k && j in Keys(d)
        ensures Get(r, j) == Get(d, j)
      {
        IndexOfFirst(r, j, IndexOf(d, j));
      }
    }
  }

  /** The first position holding `k` is the one `IndexOf` finds. */
  lemma IndexOfFirst<V>(d: Dict<V>, k: string, i: nat)
    requires i < |d| && d[i].0 == k
    requires forall j :: 0 <= j < i ==> d[j].0 != k
    ensures k in Keys(d) && IndexOf(d, k) == i
  {
    assert Keys(d)[i] == k;
  }

  /** The entry at `i` is the one `Get` finds for its key when no earlier
      entry has that key. */
  lemma GetAt<V>(d: Dict<V>, i: nat)
    requires i < |d|
    requires forall j :: 0 <= j < i ==> d[j].0 != d[i].0
    ensures Get(d, d[i].0) == Some(d[i].1)
  {
    IndexOfFirst(d, d[i].0, i);
  }

  /** Assigning to a key that first appears at `i` replaces that entry. */
  lemma PutAt<V>(d: Dict<V>, k: string, i: nat, v: V)
    requires i < |d| && d[i].0 == k
    requires forall j :: 0 <= j < i ==> d[j].0 != k
    ensures Put(d, k, v) == d[i := (k, v)]
  {
    IndexOfFirst(d, k, i);
  }

  /** Assigning to a new key appends the entry. */
  lemma PutNew<V>(d: Dict<V>, k: string, v: V)
    requires forall j :: 0 <= j < |d| ==> d[j].0 != k
    ensures Put(d, k, v) == d + [(k, v)]
  {
    assert k !in Keys(d);
  }
}
