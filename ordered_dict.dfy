/**
 * Python dictionaries keep their insertion order, and several string-keyed results in the
 * system (the gap map, the resource tables, the topic statistics) are iterated
 * in that order. A dictionary is modelled as a sequence of key/value pairs.
 */
module OrderedDict {
  import opened Wrappers

  type Dict<V> = seq<(string, V)>

  function Keys<V>(d: Dict<V>): (ks: seq<string>)
    ensures |ks| == |d| && forall i :: 0 <= i < |d| ==> ks[i] == d[i].0
  {
    seq(|d|, i requires 0 <= i < |d| => d[i].0)
  }

  /** No key occurs twice: what makes the sequence a dictionary. */
  predicate DistinctKeys<V>(d: Dict<V>) {
    forall i, j :: 0 <= i < j < |d| ==> d[i].0 != d[j].0
  }

  /** The first position of `k` in `ks`. */
  function FirstIndex(ks: seq<string>, k: string): (i: nat)
    requires k in ks
    ensures i < |ks| && ks[i] == k && k !in ks[..i]
  {
    if ks[0] == k then 0 else
      var j := FirstIndex(ks[1..], k);
      assert ks[..j + 1] == [ks[0]] + ks[1..][..j];
      1 + j
  }

  /** `d.get(k)` */
  function Get<V>(d: Dict<V>, k: string): (r: Option<V>)
    ensures r.None? <==> k !in Keys(d)
    ensures r.Some? ==> (k, r.value) in d
    ensures DistinctKeys(d) ==> forall i :: 0 <= i < |d| && d[i].0 == k ==> r == Some(d[i].1)
  {
    if k in Keys(d) then
      var i := FirstIndex(Keys(d), k);
      assert d[i] == (k, d[i].1);
      Some(d[i].1)
    else None
  }

  /** `d[k] = v`: a present key keeps its position and takes the new value;
      a new key goes at the end. */
  function Put<V>(d: Dict<V>, k: string, v: V): (r: Dict<V>)
    ensures k in Keys(d) ==> |r| == |d| && Keys(r) == Keys(d)
    ensures k !in Keys(d) ==> r == d + [(k, v)]
    ensures DistinctKeys(d) ==> DistinctKeys(r)
    ensures Get(r, k) == Some(v)
    ensures forall k' :: k' != k ==> Get(r, k') == Get(d, k')
    ensures forall e :: e in r ==> e in d || e == (k, v)
  {
    if k in Keys(d) then
      var i := FirstIndex(Keys(d), k);
      ReplaceEntry(d, k, v, i);
      d[i := (k, v)]
    else
      AppendEntry(d, k, v);
      d + [(k, v)]
  }

  /** Storing into the first entry of a present key. */
  lemma ReplaceEntry<V>(d: Dict<V>, k: string, v: V, i: nat)
    requires k in Keys(d) && i == FirstIndex(Keys(d), k)
    ensures var r := d[i := (k, v)];
            && Keys(r) == Keys(d)
            && (DistinctKeys(d) ==> DistinctKeys(r))
            && Get(r, k) == Some(v)
            && (forall k' :: k' != k ==> Get(r, k') == Get(d, k'))
            && (forall e :: e in r ==> e in d || e == (k, v))
  {
    var r := d[i := (k, v)];
    assert Keys(r) == Keys(d);
    forall k' | k' != k
      ensures Get(r, k') == Get(d, k')
    {
      if k' in Keys(d) {
        var j := FirstIndex(Keys(d), k');
        assert j != i;
        assert Get(r, k') == Some(r[j].1);
      }
    }
    forall e | e in r
      ensures e in d || e == (k, v)
    {
      var j :| 0 <= j < |r| && r[j] == e;
      if j != i {
        assert d[j] == e;
      }
    }
  }

  /** Adding a new key at the end. */
  lemma AppendEntry<V>(d: Dict<V>, k: string, v: V)
    requires k !in Keys(d)
    ensures var r := d + [(k, v)];
            && Keys(r) == Keys(d) + [k]
            && (DistinctKeys(d) ==> DistinctKeys(r))
            && Get(r, k) == Some(v)
            && (forall k' :: k' != k ==> Get(r, k') == Get(d, k'))
  {
    var r := d + [(k, v)];
    assert Keys(r) == Keys(d) + [k];
    FirstIndexLast(Keys(d), k);
    forall k' | k' != k
      ensures Get(r, k') == Get(d, k')
    {
      if k' in Keys(d) {
        FirstIndexAppend(Keys(d), k, k');
        var j := FirstIndex(Keys(d), k');
        assert Get(r, k') == Some(r[j].1);
      }
    }
  }

  lemma {:induction false} FirstIndexAppend(ks: seq<string>, x: string, k: string)
    requires k in ks
    ensures FirstIndex(ks + [x], k) == FirstIndex(ks, k)
  {
    if ks[0] != k {
      assert (ks + [x])[1..] == ks[1..] + [x];
      FirstIndexAppend(ks[1..], x, k);
    }
  }

  lemma {:induction false} FirstIndexLast(ks: seq<string>, k: string)
    requires k !in ks
    ensures FirstIndex(ks + [k], k) == |ks|
  {
    if ks != [] {
      assert (ks + [k])[1..] == ks[1..] + [k];
      FirstIndexLast(ks[1..], k);
    }
  }

  /** `{**d, **e}`: the entries of `e`, in order, stored into `d`. */
  function Update<V>(d: Dict<V>, e: Dict<V>): (r: Dict<V>)
    ensures DistinctKeys(d) ==> DistinctKeys(r)
    decreases |e|
  {
    if e == [] then d else Put(Update(d, e[..|e| - 1]), e[|e| - 1].0, e[|e| - 1].1)
  }

  lemma KeysConcat<V>(a: Dict<V>, b: Dict<V>)
    ensures Keys(a + b) == Keys(a) + Keys(b)
  {
  }

  /** The keys of all but the last entry. */
  lemma KeysPrefix<V>(e: Dict<V>)
    requires e != []
    ensures Keys(e[..|e| - 1]) == Keys(e)[..|e| - 1]
  {
  }

  /** Merging dictionaries with no key in common concatenates them. */
  lemma {:induction false} UpdateDisjoint<V>(d: Dict<V>, e: Dict<V>)
    requires DistinctKeys(e)
    requires forall k :: k in Keys(e) ==> k !in Keys(d)
    ensures Update(d, e) == d + e
    decreases |e|
  {
    if e != [] {
      var e' := e[..|e| - 1];
      var last := e[|e| - 1];
      KeysPrefix(e);
      UpdateDisjoint(d, e');
      KeysConcat(d, e');
      assert last.0 !in Keys(d + e') by {
        assert last.0 == Keys(e)[|e| - 1];
      }
      assert Update(d, e) == Put(d + e', last.0, last.1);
      assert d + e == (d + e') + [last];
    }
  }
}
