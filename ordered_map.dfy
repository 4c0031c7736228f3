/** Ruby's Hash with string keys: a dictionary that remembers the order in
    which its keys were first inserted. Header hashes, the per-detection
    header lists and the detect request are all of this kind. */
module OrderedHash {
  import opened RubyValues

  datatype OrdMap<V> = OrdMap(keys: seq<string>, values: map<string, V>)
  {
    /** Every key once, and exactly the keys that hold a value. */
    ghost predicate Valid()
    {
      Distinct(keys) &&
      (forall k :: k in values <==> k in keys)
    }

    predicate Has(k: string) { k in values }

    function Get(k: string): (r: Option<V>)
      ensures r.Some? <==> k in values
    {
      if k in values then Some(values[k]) else None
    }

    /** hash[k] = v : an existing key keeps its place, a new key goes last. */
    function Put(k: string, v: V): (r: OrdMap<V>)
      requires Valid()
      ensures r.Valid()
      ensures r.values == values[k := v]
      ensures k in keys ==> r.keys == keys
      ensures k !in keys ==> r.keys == keys + [k]
    {
      if k in keys then OrdMap(keys, values[k := v]) else OrdMap(keys + [k], values[k := v])
    }

    /** hash.delete(k): the other keys keep their order. */
    function Delete(k: string): (r: OrdMap<V>)
      requires Valid()
      ensures r.Valid()
      ensures r.values == values - {k}
      ensures k !in r.keys
      ensures forall x :: x in r.keys <==> x in keys && x != k
    {
      RemoveKeepsDistinct(keys, k);
      OrdMap(Remove(keys, k), values - {k})
    }

    /** The values in key order (Hash#values). */
    function Values(): (r: seq<V>)
      requires Valid()
      ensures |r| == |keys|
      ensures forall i :: 0 <= i < |keys| ==> r[i] == values[keys[i]]
    {
      seq(|keys|, i requires 0 <= i < |keys| => values[keys[i]])
    }
  }

  function Empty<V>(): (r: OrdMap<V>)
    ensures r.Valid() && r.keys == [] && r.values == map[]
  {
    OrdMap([], map[])
  }

  predicate Distinct(s: seq<string>) { forall i, j :: 0 <= i < j < |s| ==> s[i] != s[j] }

  /** The sequence with every occurrence of k taken out, order kept. */
  function Remove(s: seq<string>, k: string): (r: seq<string>)
    ensures forall x :: x in r <==> x in s && x != k
  {
    if s == [] then []
    else if s[0] == k then Remove(s[1..], k)
    else [s[0]] + Remove(s[1..], k)
  }

  lemma {:induction false} RemoveKeepsDistinct(s: seq<string>, k: string)
    requires Distinct(s)
    ensures Distinct(Remove(s, k))
  {
    if s != [] {
      assert Distinct(s[1..]) by {
        forall i, j | 0 <= i < j < |s[1..]| ensures s[1..][i] != s[1..][j] {
          assert s[1..][i] == s[i + 1] && s[1..][j] == s[j + 1];
        }
      }
      RemoveKeepsDistinct(s[1..], k);
      if s[0] != k {
        var rest := Remove(s[1..], k);
        var r := [s[0]] + rest;
        forall i, j | 0 <= i < j < |r| ensures r[i] != r[j] {
          if i == 0 { assert r[j] == rest[j - 1] && r[j] in rest; }
          else { assert r[i] == rest[i - 1] && r[j] == rest[j - 1]; }
        }
      }
    }
  }

  /** Removing a key that is not there changes nothing. */
  lemma {:induction false} RemoveAbsent(s: seq<string>, k: string)
    requires k !in s
    ensures Remove(s, k) == s
  {
    if s != [] {
      RemoveAbsent(s[1..], k);
    }
  }

  /** Writing a key then reading it gives the written value; other keys are
      untouched. */
  lemma PutGet<V>(m: OrdMap<V>, k: string, v: V, other: string)
    requires m.Valid()
    ensures m.Put(k, v).Get(k) == Some(v)
    ensures other != k ==> m.Put(k, v).Get(other) == m.Get(other)
  {
  }

  /** Deleting a key makes it absent; other keys are untouched. */
  lemma DeleteGet<V>(m: OrdMap<V>, k: string, other: string)
    requires m.Valid()
    ensures m.Delete(k).Get(k) == None
    ensures other != k ==> m.Delete(k).Get(other) == m.Get(other)
  {
  }
}
