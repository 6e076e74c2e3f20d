/**
 * A Python `dict` with string keys, kept as its entries in insertion order.
 * Iteration order matters to the tagging tools (the first similar field wins,
 * issues come out in dict order), so a `map` would lose information.
 * Lookup takes the first entry with the key and assignment replaces that entry
 * in place or appends a new one, which is what a Python dict does.
 */
module Dicts {

  type Entries<V> = seq<(string, V)>

  /** `k in d` */
  predicate HasKey<V>(m: Entries<V>, k: string)
  {
    exists i :: 0 <= i < |m| && m[i].0 == k
  }

  /** A real dict never holds a key twice. */
  predicate DistinctKeys<V>(m: Entries<V>)
  {
    forall i, j :: 0 <= i < j < |m| ==> m[i].0 != m[j].0
  }

  /** Position of the entry that holds `k`. */
  function IndexOf<V>(m: Entries<V>, k: string): (i: nat)
    requires HasKey(m, k)
    ensures i < |m| && m[i].0 == k
    ensures forall j :: 0 <= j < i ==> m[j].0 != k
  {
    if m[0].0 == k then 0
    else
      assert HasKey(m[1..], k) by {
        var i :| 0 <= i < |m| && m[i].0 == k;
        assert m[1..][i - 1].0 == k;
      }
      1 + IndexOf(m[1..], k)
  }

  /** `d[k]`, only ever evaluated after `k in d`. */
  function Get<V>(m: Entries<V>, k: string): V
    requires HasKey(m, k)
  {
    m[IndexOf(m, k)].1
  }

  /** The first entry holding `k` is the one `IndexOf` finds. */
  lemma IndexOfIs<V>(m: Entries<V>, k: string, j: nat)
    requires j < |m| && m[j].0 == k
    requires forall i :: 0 <= i < j ==> m[i].0 != k
    ensures HasKey(m, k) && IndexOf(m, k) == j
  {
    var i := IndexOf(m, k);
    assert !(i < j) && !(j < i);
  }

  /** `d[k] = v`: an existing key keeps its position, a new key goes last. */
  function Put<V>(m: Entries<V>, k: string, v: V): (r: Entries<V>)
    ensures HasKey(r, k) && Get(r, k) == v
    ensures HasKey(m, k) ==>
              |r| == |m| && r[IndexOf(m, k)] == (k, v)
              && forall j :: 0 <= j < |m| && j != IndexOf(m, k) ==> r[j] == m[j]
    ensures !HasKey(m, k) ==> r == m + [(k, v)]
  {
    if HasKey(m, k) then
      var r := m[IndexOf(m, k) := (k, v)];
      IndexOfIs(r, k, IndexOf(m, k));
      r
    else
      var r := m + [(k, v)];
      IndexOfIs(r, k, |m|);
      r
  }

  /** Assigning one key leaves every other key, and what it maps to, as it was. */
  lemma PutOtherKey<V>(m: Entries<V>, k: string, v: V, k': string)
    requires k' != k
    ensures HasKey(Put(m, k, v), k') <==> HasKey(m, k')
    ensures HasKey(m, k') ==> Get(Put(m, k, v), k') == Get(m, k')
  {
    var r := Put(m, k, v);
    if HasKey(r, k') {
      var j := IndexOf(r, k');
      assert j < |m| && m[j].0 == k';
    }
    if HasKey(m, k') {
      var j := IndexOf(m, k');
      assert r[j] == m[j];
      forall i | 0 <= i < j
        ensures r[i].0 != k'
      {
        if HasKey(m, k) && i == IndexOf(m, k) {
        } else {
          assert r[i] == m[i];
        }
      }
      IndexOfIs(r, k', j);
    }
  }

  /** Assignment keeps the keys of a dict distinct. */
  lemma PutDistinct<V>(m: Entries<V>, k: string, v: V)
    requires DistinctKeys(m)
    ensures DistinctKeys(Put(m, k, v))
  {
    if !HasKey(m, k) {
      var r := Put(m, k, v);
      forall i, j | 0 <= i < j < |r|
        ensures r[i].0 != r[j].0
      {
        if j == |m| {
          assert r[i] == m[i];
        }
      }
    }
  }

  /** Looking up in a dict extended by one entry at the end. */
  lemma HasKeyAppend<V>(m: Entries<V>, e: (string, V), k: string)
    ensures HasKey(m + [e], k) <==> HasKey(m, k) || e.0 == k
    ensures HasKey(m, k) ==> Get(m + [e], k) == Get(m, k)
    ensures !HasKey(m, k) && e.0 == k ==> Get(m + [e], k) == e.1
  {
    var r := m + [e];
    if HasKey(m, k) {
      IndexOfIs(r, k, IndexOf(m, k));
    } else if e.0 == k {
      IndexOfIs(r, k, |m|);
    } else {
      forall i | 0 <= i < |r|
        ensures r[i].0 != k
      {
        if i < |m| {
          assert r[i] == m[i];
        }
      }
    }
  }
}
