/** Python's insertion-ordered `dict`, with string keys. */
module OrderedMaps {

  /** `keys` lists the keys in the order they were first inserted; `values` holds the entries. */
  datatype OrderedMap<V> = OrderedMap(keys: seq<string>, values: map<string, V>)

  predicate Distinct(s: seq<string>) {
    forall i, j | 0 <= i < j < |s| :: s[i] != s[j]
  }

  ghost predicate Valid<V>(m: OrderedMap<V>) {
    && Distinct(m.keys)
    && forall k :: k in m.values <==> k in m.keys
  }

  function Empty<V>(): (r: OrderedMap<V>)
    ensures Valid(r) && r.keys == []
  {
    OrderedMap([], map[])
  }

  /** `d[k] = v`: a new key goes last, an existing key keeps its place and takes the new value. */
  function Put<V>(m: OrderedMap<V>, k: string, v: V): (r: OrderedMap<V>)
    requires Valid(m)
    ensures Valid(r)
    ensures r.values == m.values[k := v]
    ensures |m.keys| <= |r.keys| && r.keys[..|m.keys|] == m.keys
  {
    if k in m.values then OrderedMap(m.keys, m.values[k := v])
    else OrderedMap(m.keys + [k], m.values[k := v])
  }

  /** The dictionary built by assigning the pairs one after the other, starting from `{}`. */
  function PutAll<V>(pairs: seq<(string, V)>): (r: OrderedMap<V>)
    ensures Valid(r)
  {
    if pairs == [] then Empty()
    else
      var last := pairs[|pairs| - 1];
      Put(PutAll(pairs[..|pairs| - 1]), last.0, last.1)
  }

  function Firsts<V>(pairs: seq<(string, V)>): (r: seq<string>)
  {
    seq(|pairs|, i requires 0 <= i < |pairs| => pairs[i].0)
  }

  /** The elements of `s` in the order of their first occurrence. */
  function Dedup(s: seq<string>): seq<string>
  {
    if s == [] then []
    else
      var d := Dedup(s[..|s| - 1]);
      if s[|s| - 1] in d then d else d + [s[|s| - 1]]
  }

  lemma FirstsSnoc<V>(pairs: seq<(string, V)>, p: (string, V))
    ensures Firsts(pairs + [p]) == Firsts(pairs) + [p.0]
  {
    var a, b := Firsts(pairs + [p]), Firsts(pairs) + [p.0];
    forall i | 0 <= i < |a| ensures a[i] == b[i] {
    }
  }

  lemma PutAllSnoc<V>(pairs: seq<(string, V)>, k: string, v: V)
    ensures PutAll(pairs + [(k, v)]) == Put(PutAll(pairs), k, v)
  {
    assert (pairs + [(k, v)])[..|pairs|] == pairs;
  }

  /** Dedup keeps exactly the elements of its input, each once, and is never longer;
      it has the input's length exactly when the input has no repetition. */
  lemma {:induction false} DedupProperties(s: seq<string>)
    ensures forall x :: x in Dedup(s) <==> x in s
    ensures Distinct(Dedup(s))
    ensures |Dedup(s)| <= |s|
    ensures |Dedup(s)| == |s| <==> Distinct(s)
    ensures Distinct(s) ==> Dedup(s) == s
  {
    if s != [] {
      var p, x := s[..|s| - 1], s[|s| - 1];
      assert s == p + [x];
      DedupProperties(p);
      if x in p {
        var i :| 0 <= i < |p| && p[i] == x;
        assert s[i] == s[|s| - 1];
      } else {
        assert Distinct(s) <==> Distinct(p);
      }
    }
  }

  /** The keys of `PutAll(pairs)` are the pairs' keys in first-insertion order. */
  lemma {:induction false} PutAllKeys<V>(pairs: seq<(string, V)>)
    ensures PutAll(pairs).keys == Dedup(Firsts(pairs))
  {
    if pairs != [] {
      var p := pairs[..|pairs| - 1];
      PutAllKeys(p);
      assert Firsts(pairs)[..|pairs| - 1] == Firsts(p);
    }
  }

  /** A key is present exactly when some pair carries it. */
  lemma PutAllDomain<V>(pairs: seq<(string, V)>)
    ensures forall k :: k in PutAll(pairs).values <==> k in Firsts(pairs)
  {
    PutAllKeys(pairs);
    DedupProperties(Firsts(pairs));
  }

  /** The value under a key is the one of the LAST pair that carries it. */
  lemma {:induction false} PutAllLast<V>(pairs: seq<(string, V)>, i: nat)
    requires i < |pairs|
    requires forall j | i < j < |pairs| :: pairs[j].0 != pairs[i].0
    ensures pairs[i].0 in PutAll(pairs).values
    ensures PutAll(pairs).values[pairs[i].0] == pairs[i].1
  {
    if i < |pairs| - 1 {
      PutAllLast(pairs[..|pairs| - 1], i);
    }
  }

  /** Assigning a key that is already present changes its value but not the key order. */
  lemma OverwriteKeepsOrder<V>(pairs: seq<(string, V)>, k: string, v: V)
    requires k in Firsts(pairs)
    ensures PutAll(pairs + [(k, v)]).keys == PutAll(pairs).keys
    ensures PutAll(pairs + [(k, v)]).values == PutAll(pairs).values[k := v]
  {
    PutAllSnoc(pairs, k, v);
    PutAllDomain(pairs);
  }

  /** With distinct keys the key order is the pairs' order. */
  lemma PutAllDistinctKeys<V>(pairs: seq<(string, V)>)
    requires Distinct(Firsts(pairs))
    ensures PutAll(pairs).keys == Firsts(pairs)
  {
    PutAllKeys(pairs);
    DedupProperties(Firsts(pairs));
  }

  /** With distinct keys every pair is stored as given. */
  lemma PutAllDistinctValues<V>(pairs: seq<(string, V)>)
    requires Distinct(Firsts(pairs))
    ensures forall i | 0 <= i < |pairs| ::
      pairs[i].0 in PutAll(pairs).values && PutAll(pairs).values[pairs[i].0] == pairs[i].1
  {
    forall i | 0 <= i < |pairs|
      ensures pairs[i].0 in PutAll(pairs).values && PutAll(pairs).values[pairs[i].0] == pairs[i].1
    {
      forall j | i < j < |pairs| ensures pairs[j].0 != pairs[i].0 {
        assert Firsts(pairs)[i] == pairs[i].0 && Firsts(pairs)[j] == pairs[j].0;
      }
      PutAllLast(pairs, i);
    }
  }
}
