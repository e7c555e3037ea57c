/** Python dictionaries with string keys, as insertion-ordered sequences of
    key/value pairs. Assigning `d[k] = v` to a present key replaces its value
    in place; a new key is appended at the end. */
module OrderedDict {
  import opened Base

  type Dict<V> = seq<(string, V)>

  function Keys<V>(d: Dict<V>): (ks: seq<string>)
    ensures |ks| == |d|
    ensures forall i :: 0 <= i < |d| ==> ks[i] == d[i].0
  {
    if d == [] then [] else [d[0].0] + Keys(d[1..])
  }

  predicate NoDuplicates<T(==)>(s: seq<T>)
  {
    forall i, j :: 0 <= i < j < |s| ==> s[i] != s[j]
  }

  /** `d.get(k)`: the value of the first pair with key `k`. */
  function Get<V>(d: Dict<V>, k: string): (r: Option<V>)
    ensures r.None? <==> k !in Keys(d)
    ensures r.Some? ==> exists i :: 0 <= i < |d| && d[i] == (k, r.value)
  {
    if d == [] then None
    else if d[0].0 == k then Some(d[0].1)
    else Get(d[1..], k)
  }

  /** `d[k] = v`. */
  function Put<V>(d: Dict<V>, k: string, v: V): Dict<V>
  {
    if d == [] then [(k, v)]
    else if d[0].0 == k then [(k, v)] + d[1..]
    else [d[0]] + Put(d[1..], k, v)
  }

  /** After `d[k] = v`, `k` looks up `v` and every other key what it did. */
  lemma {:induction false} PutGet<V>(d: Dict<V>, k: string, v: V)
    ensures Get(Put(d, k, v), k) == Some(v)
    ensures forall k' :: k' != k ==> Get(Put(d, k, v), k') == Get(d, k')
  {
    if d != [] {
      if d[0].0 == k {
        assert Put(d, k, v)[1..] == d[1..];
      } else {
        PutGet(d[1..], k, v);
        assert Put(d, k, v)[1..] == Put(d[1..], k, v);
      }
    }
  }

  /** Assigning keeps the key order; a new key goes at the end. */
  lemma {:induction false} PutKeys<V>(d: Dict<V>, k: string, v: V)
    ensures Keys(Put(d, k, v)) == if k in Keys(d) then Keys(d) else Keys(d) + [k]
  {
    if d != [] && d[0].0 != k {
      var rest := Put(d[1..], k, v);
      var kd := Keys(d[1..]);
      PutKeys(d[1..], k, v);
      KeysCons(d[0], d[1..]);
      KeysCons(d[0], rest);
      assert d == [d[0]] + d[1..];
      assert k in Keys(d) <==> k in kd;
      if k in kd {
        assert Keys(rest) == kd;
      } else {
        assert Keys(rest) == kd + [k];
        assert [d[0].0] + (kd + [k]) == ([d[0].0] + kd) + [k];
      }
    } else if d != [] {
      assert (Put(d, k, v))[1..] == d[1..];
    }
  }

  lemma KeysCons<V>(x: (string, V), d: Dict<V>)
    ensures Keys([x] + d) == [x.0] + Keys(d)
  {
    assert ([x] + d)[1..] == d;
  }

  /** The strings of `s` in order of first occurrence: the key sequence of a
      dictionary that is assigned the keys of `s` one after the other. */
  function Dedup(s: seq<string>): (r: seq<string>)
    ensures NoDuplicates(r)
    ensures forall x :: x in r <==> x in s
  {
    if s == [] then []
    else
      var p := s[..|s| - 1];
      var d := Dedup(p);
      assert s == p + [s[|s| - 1]];
      if s[|s| - 1] in d then d else d + [s[|s| - 1]]
  }

  /** A sequence without repetitions is its own first-occurrence order. */
  lemma {:induction false} DedupOfDistinct(s: seq<string>)
    requires NoDuplicates(s)
    ensures Dedup(s) == s
  {
    if s != [] {
      var p := s[..|s| - 1];
      DedupOfDistinct(p);
      assert s[|s| - 1] !in p;
      assert s == p + [s[|s| - 1]];
    }
  }

  lemma DedupSnoc(s: seq<string>, x: string)
    ensures Dedup(s + [x]) == if x in Dedup(s) then Dedup(s) else Dedup(s) + [x]
  {
    assert (s + [x])[..|s + [x]| - 1] == s;
  }

  /** In a dictionary (no repeated keys) every pair is what its key looks up. */
  lemma {:induction false} GetDistinct<V>(d: Dict<V>, i: nat)
    requires NoDuplicates(Keys(d)) && i < |d|
    ensures Get(d, d[i].0) == Some(d[i].1)
  {
    if i > 0 {
      assert Keys(d)[0] != Keys(d)[i];
      assert Keys(d[1..]) == Keys(d)[1..];
      GetDistinct(d[1..], i - 1);
    }
  }

  /** In a dictionary (no repeated keys) the last key occurs nowhere before it,
      and what comes before it is again a dictionary. */
  lemma {:induction false} DistinctPrefix<V>(d: Dict<V>, n: nat)
    requires NoDuplicates(Keys(d)) && n < |d|
    ensures NoDuplicates(Keys(d[..n]))
    ensures d[n].0 !in Keys(d[..n])
    ensures forall i :: 0 <= i < n ==> d[i].0 != d[n].0
  {
    var ks, kp := Keys(d), Keys(d[..n]);
    forall i | 0 <= i < n ensures kp[i] == ks[i] && d[i].0 != d[n].0 {
      assert d[..n][i] == d[i];
      assert ks[i] != ks[n];
    }
    forall i, j | 0 <= i < j < n ensures kp[i] != kp[j] {
      assert ks[i] != ks[j];
    }
  }
}
