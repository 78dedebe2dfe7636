/** The finite map a skip list stands for, and the ascending list of pairs in between. */
module OrderedMap {
  import opened Options
  import opened Seqs
  import opened SkipShape

  ghost predicate Ascending<K, V>(less: (K, K) -> bool, s: seq<(K, V)>) {
    forall i, j :: 0 <= i < j < |s| ==> less(s[i].0, s[j].0)
  }

  /** The map that a list of pairs describes; a later pair overrides an earlier one. */
  ghost function ToMap<K, V>(s: seq<(K, V)>): (r: map<K, V>) {
    if s == [] then map[] else ToMap(s[..|s|-1])[s[|s|-1].0 := s[|s|-1].1]
  }

  ghost predicate UniqueKeys<K, V>(s: seq<(K, V)>) {
    forall i, j :: 0 <= i < j < |s| ==> s[i].0 != s[j].0
  }

  lemma AscendingIsUnique<K(!new), V>(less: (K, K) -> bool, s: seq<(K, V)>)
    requires StrictTotalOrder(less) && Ascending(less, s)
    ensures UniqueKeys(s)
  {
  }

  /** Looking a key up in the map is finding its pair in the list. */
  lemma {:induction false} ToMapFinds<K, V>(s: seq<(K, V)>, k: K, v: V)
    requires UniqueKeys(s)
    ensures (k, v) in s <==> k in ToMap(s) && ToMap(s)[k] == v
  {
    if s != [] {
      var t := s[..|s|-1];
      ToMapFinds(t, k, v);
      assert s == t + [s[|s|-1]];
    }
  }

  /** The pairs of a list with unique keys determine its map. */
  lemma ToMapIs<K(!new), V(!new)>(s: seq<(K, V)>, m: map<K, V>)
    requires UniqueKeys(s)
    requires forall k, v :: (k, v) in s <==> k in m && m[k] == v
    ensures ToMap(s) == m
  {
    forall k | k in m ensures k in ToMap(s) && ToMap(s)[k] == m[k] {
      ToMapFinds(s, k, m[k]);
    }
    forall k | k in ToMap(s) ensures k in m {
      ToMapFinds(s, k, ToMap(s)[k]);
    }
  }

  /** Inserting a pair so that keys stay unique binds a key that was not bound. */
  lemma InsertBinds<K(!new), V(!new)>(s: seq<(K, V)>, r: seq<(K, V)>, p: nat, k: K, v: V)
    requires p <= |s| && r == InsertAt(s, p, (k, v))
    requires UniqueKeys(s) && UniqueKeys(r)
    ensures k !in ToMap(s)
    ensures ToMap(r) == ToMap(s)[k := v]
  {
    var m := ToMap(s)[k := v];
    assert s == s[..p] + s[p..];
    forall i | 0 <= i < |s| ensures s[i].0 != k {
      assert r[if i < p then i else i + 1] == s[i] && r[p].0 == k;
    }
    if k in ToMap(s) {
      ToMapFinds(s, k, ToMap(s)[k]);
    }
    forall x, y ensures (x, y) in r <==> x in m && m[x] == y {
      ToMapFinds(s, x, y);
    }
    ToMapIs(r, m);
  }

  /** Writing the value of a pair in place rebinds its key. */
  lemma WriteRebinds<K(!new), V(!new)>(s: seq<(K, V)>, p: nat, v: V)
    requires UniqueKeys(s) && p < |s|
    ensures ToMap(s[p := (s[p].0, v)]) == ToMap(s)[s[p].0 := v]
  {
    var r := s[p := (s[p].0, v)];
    var m := ToMap(s)[s[p].0 := v];
    forall x, y ensures (x, y) in r <==> x in m && m[x] == y {
      ToMapFinds(s, x, y);
      assert r[p] == (s[p].0, v);
      if (x, y) in s {
        var i :| 0 <= i < |s| && s[i] == (x, y);
        assert i != p ==> r[i] == (x, y);
      }
    }
    ToMapIs(r, m);
  }

  /** Dropping a pair removes its key. */
  lemma DropUnbinds<K(!new), V(!new)>(s: seq<(K, V)>, p: nat)
    requires UniqueKeys(s) && p < |s|
    ensures ToMap(Drop(s, p)) == ToMap(s) - {s[p].0}
  {
    var r := Drop(s, p);
    var m := ToMap(s) - {s[p].0};
    DropKeepsOtherMembers(s, p);
    forall x, y ensures (x, y) in r <==> x in m && m[x] == y {
      ToMapFinds(s, x, y);
      if (x, y) in r {
        var i :| 0 <= i < |r| && r[i] == (x, y);
        assert s[if i < p then i else i + 1] == (x, y);
      }
    }
    ToMapIs(r, m);
  }

  lemma SuffixFromKey<K(!new), V(!new)>(less: (K, K) -> bool, s: seq<(K, V)>, i: nat, key: K)
    requires StrictTotalOrder(less) && Ascending(less, s) && UniqueKeys(s)
    requires i <= |s| && if i < |s| then s[i].0 == key else key !in ToMap(s)
    ensures key in ToMap(s) <==> i < |s|
    ensures i < |s| ==> forall k, v :: (k, v) in s[i..] <==> k in ToMap(s) && ToMap(s)[k] == v && !less(k, key)
  {
    if i < |s| {
      ToMapFinds(s, key, s[i].1);
      forall k, v ensures (k, v) in s[i..] <==> k in ToMap(s) && ToMap(s)[k] == v && !less(k, key) {
        ToMapFinds(s, k, v);
        if (k, v) in s {
          var j :| 0 <= j < |s| && s[j] == (k, v);
          if j < i {
            assert less(s[j].0, s[i].0);
          } else {
            assert s[i..][j-i] == (k, v);
          }
        }
      }
    }
  }

  /** Where the first key that is not less than `key` stands: what the header promises of `cfind`. */
  ghost function FirstAtLeast<K, V>(less: (K, K) -> bool, s: seq<(K, V)>, key: K): (i: nat)
    ensures i <= |s| && (i < |s| ==> !less(s[i].0, key)) && forall j :: 0 <= j < i ==> less(s[j].0, key)
  {
    if s == [] || !less(s[0].0, key) then 0
    else
      var i := FirstAtLeast(less, s[1..], key);
      assert forall j :: 0 < j < i + 1 ==> s[j] == s[1..][j-1];
      i + 1
  }

  /** The exact place of a key, or the end, is that place exactly when the key is there or every key is
      less. */
  lemma ExactIsFirstAtLeastIff<K(!new), V(!new)>(less: (K, K) -> bool, s: seq<(K, V)>, i: nat, key: K)
    requires StrictTotalOrder(less) && Ascending(less, s)
    requires i <= |s| && if i < |s| then s[i].0 == key else key !in ToMap(s)
    ensures i == FirstAtLeast(less, s, key) <==> key in ToMap(s) || forall j :: 0 <= j < |s| ==> less(s[j].0, key)
  {
    AscendingIsUnique(less, s);
    SuffixFromKey(less, s, i, key);
  }

  /** A list whose map binds one key holds one pair. */
  lemma OnlyPair<K(!new), V(!new)>(s: seq<(K, V)>, k: K, v: V)
    requires UniqueKeys(s) && ToMap(s) == map[k := v]
    ensures s == [(k, v)]
  {
    ToMapFinds(s, k, v);
    forall i | 0 <= i < |s| ensures s[i] == (k, v) && i == 0 {
      ToMapFinds(s, s[0].0, s[0].1);
      ToMapFinds(s, s[i].0, s[i].1);
    }
  }

  /** The calls a client makes on the list. */
  datatype Call<K, V> =
    | CallPut(key: K, value: V)
    | CallPutIfAbsent(key: K, value: V)
    | CallGet(key: K)
    | CallDelete(key: K)

  function Lookup<K, V>(m: map<K, V>, key: K): (r: Option<V>) {
    if key in m then Some(m[key]) else None
  }

  /** What each call means on the finite map; every call answers what the key was bound to. */
  function MapAfter<K, V>(m: map<K, V>, c: Call<K, V>): (r: map<K, V>) {
    match c
    case CallPut(k, v) => m[k := v]
    case CallPutIfAbsent(k, v) => if k in m then m else m[k := v]
    case CallGet(_) => m
    case CallDelete(k) => m - {k}
  }

  function MapAnswers<K, V>(m: map<K, V>, cs: seq<Call<K, V>>): (r: seq<Option<V>>)
    decreases |cs|
  {
    if cs == [] then [] else [Lookup(m, cs[0].key)] + MapAnswers(MapAfter(m, cs[0]), cs[1..])
  }
}
