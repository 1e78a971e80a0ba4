/** Python's insertion-ordered dictionaries with string keys, held as their lists of entries. */
module Dicts {
  import opened Wrappers

  /** The keys of an ordered dict, in order. */
  function Keys<V>(d: seq<(string, V)>): (r: seq<string>)
    ensures |r| == |d|
  {
    seq(|d|, k requires 0 <= k < |d| => d[k].0)
  }

  /** A new last entry adds its key last. */
  lemma KeysAppend<V>(d: seq<(string, V)>, e: (string, V))
    ensures Keys(d + [e]) == Keys(d) + [e.0]
  {
  }

  /** `d.get(k)`: the value of the first entry with key `k`. */
  function Get<V>(d: seq<(string, V)>, k: string): (r: Option<V>)
    ensures r.None? <==> k !in Keys(d)
    decreases |d|
  {
    if |d| == 0 then None
    else if d[0].0 == k then assert Keys(d)[0] == k; Some(d[0].1)
    else
      var r := Get(d[1..], k);
      assert Keys(d) == [d[0].0] + Keys(d[1..]);
      r
  }

  /** `d[k] = v`: a present key keeps its place, a new key goes last. */
  function Put<V>(d: seq<(string, V)>, k: string, v: V): seq<(string, V)>
    decreases |d|
  {
    if |d| == 0 then [(k, v)]
    else if d[0].0 == k then [(k, v)] + d[1..]
    else [d[0]] + Put(d[1..], k, v)
  }

  /** The value of the first entry with key `k`. */
  lemma {:induction false} GetAt<V>(d: seq<(string, V)>, k: string, i: nat)
    requires i < |d| && d[i].0 == k && forall j | 0 <= j < i :: d[j].0 != k
    ensures Get(d, k) == Some(d[i].1)
    decreases i
  {
    if i > 0 {
      GetAt(d[1..], k, i - 1);
    }
  }

  /** Assigning a new key appends its entry. */
  lemma {:induction false} PutNew<V>(d: seq<(string, V)>, k: string, v: V)
    requires k !in Keys(d)
    ensures Put(d, k, v) == d + [(k, v)]
    decreases |d|
  {
    if |d| > 0 {
      assert Keys(d) == [d[0].0] + Keys(d[1..]);
      PutNew(d[1..], k, v);
      assert d == [d[0]] + d[1..];
    }
  }

  /** After `d[k] = v`, `d[k]` is `v` and every other key reads as before. */
  lemma {:induction false} PutGet<V>(d: seq<(string, V)>, k: string, v: V, k': string)
    ensures Get(Put(d, k, v), k') == if k' == k then Some(v) else Get(d, k')
    decreases |d|
  {
    if |d| > 0 && d[0].0 != k {
      PutGet(d[1..], k, v, k');
      assert Put(d, k, v)[1..] == Put(d[1..], k, v);
    }
  }

  /** `d[k] = v` appends `k` to the keys exactly when it is new. */
  lemma {:induction false} PutKeys<V>(d: seq<(string, V)>, k: string, v: V)
    ensures Keys(Put(d, k, v)) == if k in Keys(d) then Keys(d) else Keys(d) + [k]
    decreases |d|
  {
    if |d| > 0 {
      assert Keys(d) == [d[0].0] + Keys(d[1..]);
      if d[0].0 != k {
        PutKeys(d[1..], k, v);
        assert Keys(Put(d, k, v)) == [d[0].0] + Keys(Put(d[1..], k, v));
      } else {
        assert Keys(Put(d, k, v)) == [k] + Keys(d[1..]);
      }
    }
  }

  /** `del d[k]` (or `d.pop(k, None)`) for each of `names`: the entries whose key is not among them. */
  function Without<V>(d: seq<(string, V)>, names: seq<string>): seq<(string, V)> {
    if |d| == 0 then []
    else Without(d[..|d| - 1], names) + (if d[|d| - 1].0 in names then [] else [d[|d| - 1]])
  }

  /** Deleting one more key from what is left. */
  lemma {:induction false} WithoutMore<V>(d: seq<(string, V)>, names: seq<string>, k: string)
    ensures Without(Without(d, names), [k]) == Without(d, names + [k])
    decreases |d|
  {
    if |d| > 0 {
      var front := d[..|d| - 1];
      WithoutMore(front, names, k);
      var w := Without(front, names);
      var last := d[|d| - 1];
      if last.0 in names {
        assert Without(d, names) == w;
      } else {
        assert Without(d, names) == w + [last];
        assert (w + [last])[..|w|] == w;
      }
    }
  }

  /** `WithoutMore` at the `i`-th name of a list of names. */
  lemma WithoutStep<V>(d: seq<(string, V)>, names: seq<string>, i: nat)
    requires i < |names|
    ensures Without(Without(d, names[..i]), [names[i]]) == Without(d, names[..i + 1])
  {
    WithoutMore(d, names[..i], names[i]);
    assert names[..i + 1] == names[..i] + [names[i]];
  }

  /** Deleting no key changes nothing. */
  lemma {:induction false} WithoutNone<V>(d: seq<(string, V)>)
    ensures Without(d, []) == d
    decreases |d|
  {
    if |d| > 0 {
      WithoutNone(d[..|d| - 1]);
      assert d == d[..|d| - 1] + [d[|d| - 1]];
    }
  }

  /** An entry survives the deletions iff its key is not among the names. */
  lemma {:induction false} WithoutMember<V>(d: seq<(string, V)>, names: seq<string>, e: (string, V))
    ensures e in Without(d, names) <==> e in d && e.0 !in names
    decreases |d|
  {
    if |d| > 0 {
      WithoutMember(d[..|d| - 1], names, e);
      assert d == d[..|d| - 1] + [d[|d| - 1]];
    }
  }

  /** Deleting the same names from two dicts with the same keys leaves the same keys. */
  lemma {:induction false} WithoutKeys<A, B>(d1: seq<(string, A)>, d2: seq<(string, B)>, names: seq<string>)
    requires Keys(d1) == Keys(d2)
    ensures Keys(Without(d1, names)) == Keys(Without(d2, names))
    decreases |d1|
  {
    if |d1| > 0 {
      var n := |d1| - 1;
      assert Keys(d1[..n]) == Keys(d1)[..n];
      assert Keys(d2[..n]) == Keys(d2)[..n];
      assert d1[n].0 == Keys(d1)[n] == Keys(d2)[n] == d2[n].0;
      WithoutKeys(d1[..n], d2[..n], names);
      var w1 := Without(d1[..n], names);
      var w2 := Without(d2[..n], names);
      assert d1 == d1[..n] + [d1[n]] && d2 == d2[..n] + [d2[n]];
      if d1[n].0 !in names {
        assert Without(d1, names) == w1 + [d1[n]] && Without(d2, names) == w2 + [d2[n]];
        assert Keys(w1 + [d1[n]]) == Keys(w1) + [d1[n].0];
        assert Keys(w2 + [d2[n]]) == Keys(w2) + [d2[n].0];
      } else {
        assert Without(d1, names) == w1 && Without(d2, names) == w2;
      }
    }
  }

  /** After the deletions, no key is one of the names and every other key is still present. */
  lemma {:induction false} WithoutGone<V>(d: seq<(string, V)>, names: seq<string>, k: string)
    ensures k in Keys(Without(d, names)) <==> k in Keys(d) && k !in names
    decreases |d|
  {
    if |d| > 0 {
      var n := |d| - 1;
      WithoutGone(d[..n], names, k);
      assert Keys(d) == Keys(d[..n]) + [d[n].0];
      var w := Without(d[..n], names);
      assert d == d[..n] + [d[n]];
      if d[n].0 !in names {
        assert Without(d, names) == w + [d[n]];
        assert Keys(w + [d[n]]) == Keys(w) + [d[n].0];
      } else {
        assert Without(d, names) == w;
      }
    }
  }

  /** Deleting the same keys twice is deleting them once. */
  lemma {:induction false} WithoutTwice<V>(d: seq<(string, V)>, names: seq<string>)
    ensures Without(Without(d, names), names) == Without(d, names)
    decreases |d|
  {
    if |d| > 0 {
      var n := |d| - 1;
      WithoutTwice(d[..n], names);
      var w := Without(d[..n], names);
      if d[n].0 !in names {
        assert Without(d, names) == w + [d[n]];
        assert (w + [d[n]])[..|w|] == w;
      } else {
        assert Without(d, names) == w;
      }
    }
  }
}
