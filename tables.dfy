/**
 * A Python dict with string keys, as the script uses one: keys iterate in
 * first-insertion order, and `d[k] = v` on a present key replaces the value
 * where the key already stands.
 */
module Tables {
  import opened Wrappers

  datatype Entry<V> = Entry(key: string, value: V)

  /** The keys of a table in iteration order. */
  function Keys<V>(t: seq<Entry<V>>): seq<string> {
    seq(|t|, i requires 0 <= i < |t| => t[i].key)
  }

  /** No key stands twice: what a dict guarantees. */
  predicate UniqueKeys<V>(t: seq<Entry<V>>) {
    forall i, j :: 0 <= i < j < |t| ==> t[i].key != t[j].key
  }

  /** `d.get(k)`: the value stored under `k`, if any. */
  function Lookup<V>(t: seq<Entry<V>>, k: string): (r: Option<V>)
    ensures r.None? <==> k !in Keys(t)
    decreases |t|
  {
    if |t| == 0 then None
    else if t[0].key == k then
      assert Keys(t)[0] == k;
      Some(t[0].value)
    else
      assert Keys(t) == [t[0].key] + Keys(t[1..]);
      Lookup(t[1..], k)
  }

  /** In a table whose keys are unique, each key finds its own entry. */
  lemma {:induction false} LookupAt<V>(t: seq<Entry<V>>, i: nat)
    requires UniqueKeys(t)
    requires i < |t|
    ensures Lookup(t, t[i].key) == Some(t[i].value)
    decreases |t|
  {
    if i > 0 {
      LookupAt(t[1..], i - 1);
    }
  }

  /** `d[k] = v`. */
  function Put<V>(t: seq<Entry<V>>, k: string, v: V): seq<Entry<V>>
    decreases |t|
  {
    if |t| == 0 then [Entry(k, v)]
    else if t[0].key == k then [Entry(k, v)] + t[1..]
    else [t[0]] + Put(t[1..], k, v)
  }

  lemma KeysCons<V>(e: Entry<V>, t: seq<Entry<V>>)
    ensures Keys([e] + t) == [e.key] + Keys(t)
  {
    assert Keys([e] + t)[0] == e.key;
  }

  /** After `d[k] = v`, a key already present keeps its place and a new key goes to the end. */
  lemma {:induction false} PutKeys<V>(t: seq<Entry<V>>, k: string, v: V)
    ensures Keys(Put(t, k, v)) == if k in Keys(t) then Keys(t) else Keys(t) + [k]
    decreases |t|
  {
    if |t| > 0 {
      KeysCons(t[0], t[1..]);
      assert [t[0]] + t[1..] == t;
      if t[0].key == k {
        KeysCons(Entry(k, v), t[1..]);
      } else {
        PutKeys(t[1..], k, v);
        KeysCons(t[0], Put(t[1..], k, v));
      }
    }
  }

  /** After `d[k] = v`, `k` finds `v` and every other key keeps its value. */
  lemma {:induction false} PutLookup<V>(t: seq<Entry<V>>, k: string, v: V)
    ensures Lookup(Put(t, k, v), k) == Some(v)
    ensures forall k' :: k' != k ==> Lookup(Put(t, k, v), k') == Lookup(t, k')
    decreases |t|
  {
    if |t| > 0 && t[0].key != k {
      PutLookup(t[1..], k, v);
      assert ([t[0]] + Put(t[1..], k, v))[1..] == Put(t[1..], k, v);
    }
  }

  /** `d[k] = v` never makes a key stand twice. */
  lemma {:induction false} PutUnique<V>(t: seq<Entry<V>>, k: string, v: V)
    requires UniqueKeys(t)
    ensures UniqueKeys(Put(t, k, v))
    decreases |t|
  {
    if |t| > 0 && t[0].key != k {
      PutUnique(t[1..], k, v);
      PutKeys(t[1..], k, v);
      var rest := Put(t[1..], k, v);
      assert forall j :: 0 <= j < |rest| ==> rest[j].key == Keys(rest)[j];
      assert forall j :: 0 <= j < |t| - 1 ==> t[1..][j].key == Keys(t[1..])[j];
    }
  }

  /** `d[k] = v` for a key not yet present appends it. */
  lemma {:induction false} PutAbsent<V>(t: seq<Entry<V>>, k: string, v: V)
    requires k !in Keys(t)
    ensures Put(t, k, v) == t + [Entry(k, v)]
    decreases |t|
  {
    if |t| > 0 {
      KeysCons(t[0], t[1..]);
      assert [t[0]] + t[1..] == t;
      PutAbsent(t[1..], k, v);
    }
  }

  /** Appending an entry does not change what the keys already present find. */
  lemma {:induction false} LookupSnoc<V>(t: seq<Entry<V>>, e: Entry<V>, k: string)
    ensures Lookup(t + [e], k) == if k in Keys(t) then Lookup(t, k) else if e.key == k then Some(e.value) else None
    decreases |t|
  {
    if |t| > 0 {
      KeysCons(t[0], t[1..]);
      assert [t[0]] + t[1..] == t;
      assert (t + [e])[1..] == t[1..] + [e];
      LookupSnoc(t[1..], e, k);
    }
  }
}
