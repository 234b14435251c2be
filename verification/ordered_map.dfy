/** PHP's ordered arrays with string keys, as the core uses them for the
    option registry and for form fields: a list of entries whose keys are
    kept in first-insertion order. */
module OrderedMaps {
  import opened Results

  datatype Entry<V> = Entry(key: string, value: V)

  type OrderedMap<V> = seq<Entry<V>>

  function Keys<V>(m: OrderedMap<V>): (ks: seq<string>)
    ensures |ks| == |m| && forall i :: 0 <= i < |m| ==> ks[i] == m[i].key
  {
    seq(|m|, i requires 0 <= i < |m| => m[i].key)
  }

  /** The names a list of (name, value) updates refers to, in order. */
  function Names<V>(xs: seq<(string, V)>): (ns: seq<string>)
    ensures |ns| == |xs| && forall i :: 0 <= i < |xs| ==> ns[i] == xs[i].0
  {
    seq(|xs|, i requires 0 <= i < |xs| => xs[i].0)
  }

  predicate UniqueKeys<V>(m: OrderedMap<V>) {
    forall i, j :: 0 <= i < j < |m| ==> m[i].key != m[j].key
  }

  /** PHP `array_key_exists`. */
  predicate HasKey<V>(m: OrderedMap<V>, k: string) {
    exists i :: 0 <= i < |m| && m[i].key == k
  }

  /** The position of the first entry with key `k`. */
  function IndexOf<V>(m: OrderedMap<V>, k: string): (i: nat)
    requires HasKey(m, k)
    ensures i < |m| && m[i].key == k
    ensures forall j :: 0 <= j < i ==> m[j].key != k
    decreases |m|
  {
    if m[0].key == k then 0
    else
      var j :| 0 <= j < |m| && m[j].key == k;
      assert m[1..][j - 1].key == k;
      1 + IndexOf(m[1..], k)
  }

  lemma IndexOfIsFirst<V>(m: OrderedMap<V>, k: string, i: nat)
    requires i < |m| && m[i].key == k
    requires forall j :: 0 <= j < i ==> m[j].key != k
    ensures IndexOf(m, k) == i
  {
  }

  /** PHP `$m[$k]` for a key that may be missing. */
  function Get<V>(m: OrderedMap<V>, k: string): (r: Option<V>)
    ensures r.Some? <==> HasKey(m, k)
    ensures UniqueKeys(m) ==> forall i :: 0 <= i < |m| && m[i].key == k ==> r == Some(m[i].value)
  {
    if HasKey(m, k) then Some(m[IndexOf(m, k)].value) else None
  }

  /** PHP `$m[$k] = $v`: an existing key keeps its position and takes the
      new value; a new key goes to the end. */
  function Put<V>(m: OrderedMap<V>, k: string, v: V): (r: OrderedMap<V>)
    ensures HasKey(m, k) ==> Keys(r) == Keys(m)
    ensures !HasKey(m, k) ==> Keys(r) == Keys(m) + [k]
    ensures Get(r, k) == Some(v)
    ensures forall k' :: k' != k ==> Get(r, k') == Get(m, k')
    ensures UniqueKeys(m) ==> UniqueKeys(r)
  {
    if HasKey(m, k) then
      var i := IndexOf(m, k);
      var r := m[i := Entry(k, v)];
      assert Keys(r) == Keys(m);
      IndexOfIsFirst(r, k, i);
      PutOthers(m, r, k, i);
      r
    else
      var r := m + [Entry(k, v)];
      assert Keys(r) == Keys(m) + [k];
      IndexOfIsFirst(r, k, |m|);
      PutOthers(m, r, k, |m|);
      r
  }

  /** Changing or adding the entry at `i`, whose key is `k`, leaves the
      lookup of every other key as it was. */
  lemma PutOthers<V>(m: OrderedMap<V>, r: OrderedMap<V>, k: string, i: nat)
    requires i <= |m| && |r| == (if i == |m| then |m| + 1 else |m|)
    requires i < |r| && r[i].key == k
    requires i < |m| ==> m[i].key == k
    requires forall j :: 0 <= j < |m| && j != i ==> r[j] == m[j]
    ensures forall k' :: k' != k ==> Get(r, k') == Get(m, k')
  {
    forall k' | k' != k
      ensures Get(r, k') == Get(m, k')
    {
      if HasKey(m, k') {
        var a := IndexOf(m, k');
        assert r[a] == m[a];
        IndexOfIsFirst(r, k', a);
      }
    }
  }

  lemma HasKeyInKeys<V>(m: OrderedMap<V>, k: string)
    ensures HasKey(m, k) <==> k in Keys(m)
  {
    if k in Keys(m) {
      var i :| 0 <= i < |Keys(m)| && Keys(m)[i] == k;
      assert m[i].key == k;
    }
  }

  lemma KeysUnique<V>(m: OrderedMap<V>)
    requires forall i, j :: 0 <= i < j < |Keys(m)| ==> Keys(m)[i] != Keys(m)[j]
    ensures UniqueKeys(m)
  {
    forall i, j | 0 <= i < j < |m|
      ensures m[i].key != m[j].key
    {
      assert m[i].key == Keys(m)[i] && m[j].key == Keys(m)[j];
    }
  }
}
