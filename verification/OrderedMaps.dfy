/** Insertion-ordered maps: a key keeps the place of its first insertion and the value of its
    last, as a JavaScript Map does. */
module OrderedMaps {
  import opened Outcomes

  datatype Entry<+K, +V> = Entry(key: K, value: V)

  function Keys<K, V>(m: seq<Entry<K, V>>): (keys: seq<K>)
    ensures |keys| == |m|
    ensures forall i | 0 <= i < |m| :: keys[i] == m[i].key
  {
    seq(|m|, i requires 0 <= i < |m| => m[i].key)
  }

  function Put<K(==), V>(m: seq<Entry<K, V>>, e: Entry<K, V>): seq<Entry<K, V>> {
    if m == [] then [e]
    else if m[0].key == e.key then [e] + m[1..]
    else [m[0]] + Put(m[1..], e)
  }

  /** `new Map(pairs)`. */
  function MapOf<K(==), V>(pairs: seq<Entry<K, V>>): seq<Entry<K, V>> {
    if pairs == [] then [] else Put(MapOf(pairs[..|pairs| - 1]), pairs[|pairs| - 1])
  }

  function Get<K(==), V>(m: seq<Entry<K, V>>, key: K): (r: Option<V>)
    ensures r.Some? <==> key in Keys(m)
  {
    if m == [] then None
    else if m[0].key == key then Some(m[0].value)
    else
      assert Keys(m) == [m[0].key] + Keys(m[1..]);
      Get(m[1..], key)
  }

  /** The entries whose key no earlier entry has. */
  function Firsts<K(==), V>(pairs: seq<Entry<K, V>>): seq<Entry<K, V>> {
    if pairs == [] then []
    else
      var before, last := Firsts(pairs[..|pairs| - 1]), pairs[|pairs| - 1];
      if last.key in Keys(before) then before else before + [last]
  }

  predicate NoRepeats<T(==)>(s: seq<T>) {
    forall i, j | 0 <= i < j < |s| :: s[i] != s[j]
  }

  lemma KeysOfCons<K, V>(x: Entry<K, V>, m: seq<Entry<K, V>>)
    ensures Keys([x] + m) == [x.key] + Keys(m)
  {
  }

  lemma {:induction false} PutKeys<K, V>(m: seq<Entry<K, V>>, e: Entry<K, V>)
    ensures Keys(Put(m, e)) == if e.key in Keys(m) then Keys(m) else Keys(m) + [e.key]
  {
    if m != [] {
      var rest := m[1..];
      assert m == [m[0]] + rest;
      KeysOfCons(m[0], rest);
      if m[0].key != e.key {
        PutKeys(rest, e);
        KeysOfCons(m[0], Put(rest, e));
      } else {
        KeysOfCons(e, rest);
      }
    }
  }

  lemma {:induction false} FirstsHaveNoRepeats<K, V>(pairs: seq<Entry<K, V>>)
    ensures NoRepeats(Keys(Firsts(pairs)))
  {
    if pairs != [] {
      FirstsHaveNoRepeats(pairs[..|pairs| - 1]);
    }
  }

  lemma {:induction false} FirstsHaveEveryKey<K, V>(pairs: seq<Entry<K, V>>, i: nat)
    requires i < |pairs|
    ensures pairs[i].key in Keys(Firsts(pairs))
  {
    var n := |pairs| - 1;
    var before := Firsts(pairs[..n]);
    if i < n {
      FirstsHaveEveryKey(pairs[..n], i);
      assert pairs[i].key in Keys(before);
    }
    if pairs[n].key !in Keys(before) {
      assert Keys(before + [pairs[n]]) == Keys(before) + [pairs[n].key];
    }
  }

  /** Deduplicating by first occurrence and going through a Map keep the same keys in the same
      order, although they keep different values. */
  lemma {:induction false} MapAndFirstsAgree<K, V>(pairs: seq<Entry<K, V>>)
    ensures Keys(MapOf(pairs)) == Keys(Firsts(pairs))
  {
    if pairs != [] {
      var init, last := pairs[..|pairs| - 1], pairs[|pairs| - 1];
      MapAndFirstsAgree(init);
      PutKeys(MapOf(init), last);
      assert Keys(Firsts(init) + [last]) == Keys(Firsts(init)) + [last.key];
    }
  }

  /** The keys kept depend on the keys alone. */
  lemma {:induction false} FirstsDependOnKeys<K, V, W>(a: seq<Entry<K, V>>, b: seq<Entry<K, W>>)
    requires Keys(a) == Keys(b)
    ensures Keys(Firsts(a)) == Keys(Firsts(b))
  {
    assert |a| == |Keys(a)| == |b|;
    if a != [] {
      var n := |a| - 1;
      assert Keys(a[..n]) == Keys(a)[..n] == Keys(b)[..n] == Keys(b[..n]);
      FirstsDependOnKeys(a[..n], b[..n]);
      assert a[n].key == Keys(a)[n] == b[n].key;
      assert Keys(Firsts(a[..n]) + [a[n]]) == Keys(Firsts(a[..n])) + [a[n].key];
      assert Keys(Firsts(b[..n]) + [b[n]]) == Keys(Firsts(b[..n])) + [b[n].key];
    }
  }

  lemma {:induction false} FirstsOfPrefix<K, V>(pairs: seq<Entry<K, V>>, n: nat)
    requires n <= |pairs|
    ensures Firsts(pairs[..n]) <= Firsts(pairs)
  {
    if n < |pairs| {
      var init := pairs[..|pairs| - 1];
      FirstsOfPrefix(init, n);
      assert init[..n] == pairs[..n];
    } else {
      assert pairs[..n] == pairs;
    }
  }

  /** Every kept entry is one of the pairs, and the first with its key. */
  lemma {:induction false} FirstsAreFirst<K, V>(pairs: seq<Entry<K, V>>, k: nat) returns (i: nat)
    requires k < |Firsts(pairs)|
    ensures i < |pairs| && pairs[i] == Firsts(pairs)[k]
    ensures forall j | 0 <= j < i :: pairs[j].key != pairs[i].key
  {
    var n := |pairs| - 1;
    var before := Firsts(pairs[..n]);
    if k < |before| {
      i := FirstsAreFirst(pairs[..n], k);
    } else {
      i := n;
      forall j | 0 <= j < i ensures pairs[j].key != pairs[i].key {
        FirstsHaveEveryKey(pairs[..n], j);
      }
    }
  }

  /** Where the kept entries are, in order. */
  ghost predicate PlacesOf<K, V>(pairs: seq<Entry<K, V>>, kept: seq<Entry<K, V>>, at: seq<nat>) {
    && |at| == |kept|
    && (forall k | 0 <= k < |at| :: NewAt(pairs, at[k]) && pairs[at[k]] == kept[k])
    && (forall k, l | 0 <= k < l < |at| :: at[k] < at[l])
  }

  ghost predicate PlacesOfFirsts<K, V>(pairs: seq<Entry<K, V>>, at: seq<nat>) {
    PlacesOf(pairs, Firsts(pairs), at)
  }

  /** No earlier entry has the key of this one. */
  ghost predicate NewAt<K, V>(pairs: seq<Entry<K, V>>, n: nat) {
    n < |pairs| && forall j | 0 <= j < n :: pairs[j].key != pairs[n].key
  }

  lemma {:induction false} PlacesStay<K, V>(init: seq<Entry<K, V>>, pairs: seq<Entry<K, V>>, kept: seq<Entry<K, V>>, at: seq<nat>)
    requires init <= pairs && PlacesOf(init, kept, at)
    ensures PlacesOf(pairs, kept, at)
    ensures forall k | 0 <= k < |at| :: at[k] < |init|
  {
    forall k | 0 <= k < |at| ensures NewAt(pairs, at[k]) && pairs[at[k]] == kept[k] && at[k] < |init| {
      assert NewAt(init, at[k]);
    }
  }

  lemma {:induction false} OnePlaceMore<K, V>(pairs: seq<Entry<K, V>>, kept: seq<Entry<K, V>>, at: seq<nat>, n: nat)
    requires PlacesOf(pairs, kept, at) && NewAt(pairs, n) && forall k | 0 <= k < |at| :: at[k] < n
    ensures PlacesOf(pairs, kept + [pairs[n]], at + [n])
  {
  }

  lemma {:induction false} FirstPlaces<K, V>(pairs: seq<Entry<K, V>>) returns (at: seq<nat>)
    ensures PlacesOfFirsts(pairs, at)
  {
    if pairs == [] {
      at := [];
    } else {
      var n := |pairs| - 1;
      var init := pairs[..n];
      at := FirstPlaces(init);
      PlacesStay(init, pairs, Firsts(init), at);
      if pairs[n].key !in Keys(Firsts(init)) {
        LastIsNew(init, pairs[n]);
        assert NewAt(pairs, n);
        OnePlaceMore(pairs, Firsts(init), at, n);
        at := at + [n];
      }
    }
  }

  lemma {:induction false} LastIsNew<K, V>(init: seq<Entry<K, V>>, last: Entry<K, V>)
    requires last.key !in Keys(Firsts(init))
    ensures forall j | 0 <= j < |init| :: init[j].key != last.key
  {
    forall j | 0 <= j < |init| ensures init[j].key != last.key {
      FirstsHaveEveryKey(init, j);
    }
  }

  lemma {:induction false} KeyHasPlace<K, V>(pairs: seq<Entry<K, V>>, at: seq<nat>, i: nat) returns (k: nat)
    requires PlacesOfFirsts(pairs, at) && i < |pairs|
    ensures k < |at| && at[k] <= i && pairs[at[k]].key == pairs[i].key
  {
    FirstsHaveEveryKey(pairs, i);
    k :| 0 <= k < |Keys(Firsts(pairs))| && Keys(Firsts(pairs))[k] == pairs[i].key;
    assert NewAt(pairs, at[k]);
  }

  /** What a Map holds at a key is the last pair with that key. */
  lemma {:induction false} MapHoldsTheLast<K, V>(pairs: seq<Entry<K, V>>, k: nat) returns (i: nat)
    requires k < |MapOf(pairs)|
    ensures i < |pairs| && pairs[i] == MapOf(pairs)[k]
    ensures forall j | i < j < |pairs| :: pairs[j].key != pairs[i].key
  {
    var n := |pairs| - 1;
    var init, last := pairs[..n], pairs[n];
    MapAndFirstsAgree(init);
    FirstsHaveNoRepeats(init);
    PutReplaces(MapOf(init), last, k);
    if MapOf(pairs)[k].key == last.key {
      i := n;
    } else {
      i := MapHoldsTheLast(init, k);
    }
  }

  lemma {:induction false} PlacesInRange<K, V>(pairs: seq<Entry<K, V>>, at: seq<nat>)
    requires PlacesOfFirsts(pairs, at)
    ensures forall k | 0 <= k < |at| :: at[k] < |pairs|
    ensures |at| == |MapOf(pairs)|
  {
    MapAndFirstsAgree(pairs);
    assert |Keys(Firsts(pairs))| == |Keys(MapOf(pairs))|;
    forall k | 0 <= k < |at| ensures at[k] < |pairs| {
      assert NewAt(pairs, at[k]);
    }
  }

  /** No later entry has the key of this one. */
  ghost predicate LastAt<K, V>(pairs: seq<Entry<K, V>>, n: nat) {
    n < |pairs| && forall j | n < j < |pairs| :: pairs[j].key != pairs[n].key
  }

  /** Where the entries of a Map were set last. */
  lemma {:induction false} LastPlaces<K, V>(pairs: seq<Entry<K, V>>, n: nat) returns (at: seq<nat>)
    requires n <= |MapOf(pairs)|
    ensures |at| == n && forall k | 0 <= k < n :: LastAt(pairs, at[k]) && pairs[at[k]] == MapOf(pairs)[k]
  {
    if n == 0 {
      at := [];
    } else {
      var before := LastPlaces(pairs, n - 1);
      var i := MapHoldsTheLast(pairs, n - 1);
      assert LastAt(pairs, i);
      at := before + [i];
    }
  }

  lemma {:induction false} PutReplaces<K, V>(m: seq<Entry<K, V>>, e: Entry<K, V>, k: nat)
    requires k < |Put(m, e)| && NoRepeats(Keys(m))
    ensures if Put(m, e)[k].key == e.key then Put(m, e)[k] == e else k < |m| && Put(m, e)[k] == m[k]
  {
    if m != [] {
      if m[0].key == e.key {
        if k > 0 {
          assert Keys(m)[k] != Keys(m)[0];
        }
      } else if k > 0 {
        assert Keys(m[1..]) == Keys(m)[1..];
        PutReplaces(m[1..], e, k - 1);
      }
    }
  }

  lemma {:induction false} PutGets<K, V>(m: seq<Entry<K, V>>, e: Entry<K, V>, key: K)
    ensures Get(Put(m, e), key) == if key == e.key then Some(e.value) else Get(m, key)
  {
    if m != [] && m[0].key != e.key {
      PutGets(m[1..], e, key);
    }
  }

  lemma {:induction false} MapGets<K, V>(pairs: seq<Entry<K, V>>, i: nat)
    requires i < |pairs| && forall j | i < j < |pairs| :: pairs[j].key != pairs[i].key
    ensures Get(MapOf(pairs), pairs[i].key) == Some(pairs[i].value)
  {
    var init, last := pairs[..|pairs| - 1], pairs[|pairs| - 1];
    PutGets(MapOf(init), last, pairs[i].key);
    if i < |init| {
      MapGets(init, i);
    }
  }

  /** Whatever a Map finds comes from a pair with that key. */
  lemma {:induction false} FoundInPairs<K, V>(pairs: seq<Entry<K, V>>, key: K) returns (i: nat)
    requires Get(MapOf(pairs), key).Some?
    ensures i < |pairs| && pairs[i].key == key && Get(MapOf(pairs), key) == Some(pairs[i].value)
  {
    var n := |pairs| - 1;
    PutGets(MapOf(pairs[..n]), pairs[n], key);
    if pairs[n].key == key {
      i := n;
    } else {
      i := FoundInPairs(pairs[..n], key);
    }
  }
}
