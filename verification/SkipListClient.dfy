/** What clients of the skip list see: iteration in key order, and a finite map. */
module SkipListClient {
  import opened Options
  import opened SkipShape
  import opened SkipNodes
  import opened OrderedMap
  import opened SkipIterators
  import opened SkipLists

  /** The loop of every iteration: step from `it` until the end iterator is met. */
  method Walk<K(!new), V(!new)>(list: SkipList<K, V>, it: Iterator<K, V>, ghost i: nat) returns (seen: seq<(K, V)>)
    requires list.Valid() && i <= |list.pairs| && it.pCurrent == list.data[i+1]
    modifies it
    ensures seen == list.pairs[i..]
  {
    hide Structure, StrictTotalOrder, IsLevel, ToMap;
    list.DataDistinct();
    var end := list.End();
    seen := [];
    ghost var n := i;
    while !it.Equals(end)
      invariant i <= n <= |list.pairs| && it.pCurrent == list.data[n+1]
      invariant end.pCurrent == list.data[|list.data|-1] && it != end
      invariant seen == list.pairs[i..n]
      invariant list.DataValid()
      decreases |list.pairs| - n
    {
      assert list.data[n+1].key == Some(list.pairs[n].0);
      seen := seen + [(it.Key(), it.Value())];
      it.Step();
      n := n + 1;
    }
  }

  /** Iterating from `Begin` to `End` sees every stored pair once, in ascending key order. */
  method Traverse<K(!new), V(!new)>(list: SkipList<K, V>) returns (seen: seq<(K, V)>)
    requires list.Valid()
    ensures Ascending(list.less, seen) && UniqueKeys(seen)
    ensures ToMap(seen) == list.Map()
  {
    list.PairsAscend();
    var it := list.Begin();
    seen := Walk(list, it, 0);
  }

  /** Iterating from a stored key sees that key and every greater one; from any other key, nothing. */
  method TraverseFrom<K(!new), V(!new)>(list: SkipList<K, V>, key: K) returns (seen: seq<(K, V)>)
    requires list.Valid()
    ensures key !in list.Map() ==> seen == []
    ensures key in list.Map() ==> seen != [] && seen[0].0 == key
    ensures key in list.Map() ==>
              forall k, v :: (k, v) in seen <==> k in list.Map() && list.Map()[k] == v && !list.less(k, key)
  {
    list.PairsAscend();
    var it, i := list.FindFrom(key);
    seen := Walk(list, it, i);
    SuffixFromKey(list.less, list.pairs, i, key);
  }

  predicate IntLess(a: int, b: int) {
    a < b
  }

  lemma IntOrder()
    ensures StrictTotalOrder(IntLess)
  {
  }

  /** A list that stores 2 only, asked for 1, answers the end and not 2. */
  method FindFromMissesGreaterKey() returns (missed: bool)
    ensures missed
  {
    hide StrictTotalOrder, ToMap, Structure, Grown, IsLevel;
    IntOrder();
    var list := new SkipList<int, int>(1, IntLess);
    var _ := list.Put(2, 0, _ => true);
    list.PairsAscend();
    OnlyPair(list.pairs, 2, 0);
    var it, i := list.FindFrom(1);
    var end := list.End();
    missed := it.Equals(end);
  }

  method Perform<K(!new), V(!new)>(list: SkipList<K, V>, c: Call<K, V>, tails: nat -> bool) returns (r: Option<V>)
    requires list.Valid()
    modifies list, list.indexRepr`next, list.dataRepr`next, list.dataRepr`value
    ensures list.Valid()
    ensures fresh(list.indexRepr - old(list.indexRepr)) && fresh(list.dataRepr - old(list.dataRepr))
    ensures r == Lookup(old(list.Map()), c.key) && list.Map() == MapAfter(old(list.Map()), c)
  {
    hide StrictTotalOrder, ToMap;
    match c
    case CallPut(k, v) => r := list.Put(k, v, tails);
    case CallPutIfAbsent(k, v) => r := list.PutIfAbsent(k, v, tails);
    case CallGet(k) => r := list.Get(k);
    case CallDelete(k) => r := list.Delete(k);
  }

  /** Whatever the coin flips of each call, a new skip list answers any sequence of calls as a finite
      map does. */
  method PerformAll<K(!new), V(!new)>(height: nat, less: (K, K) -> bool, cs: seq<Call<K, V>>,
                                      tails: nat -> nat -> bool)
      returns (answers: seq<Option<V>>)
    requires height >= 1 && StrictTotalOrder(less)
    ensures answers == MapAnswers(map[], cs)
  {
    hide StrictTotalOrder, ToMap, MapAfter, SkipList.Valid;
    var list := new SkipList<K, V>(height, less);
    answers := [];
    for i := 0 to |cs|
      invariant fresh(list) && fresh(list.indexRepr) && fresh(list.dataRepr) && list.Valid()
      invariant answers + MapAnswers(list.Map(), cs[i..]) == MapAnswers(map[], cs)
    {
      var r := Perform(list, cs[i], tails(i));
      assert cs[i..][1..] == cs[i+1..];
      answers := answers + [r];
    }
  }
}
