/** The skip list itself (hw02/include/skiplist/skiplist.h). */
module SkipLists {
  import opened Options
  import opened Seqs
  import opened SkipNodes
  import opened SkipShape
  import opened OrderedMap
  import opened SkipIterators

  /** Each node of a list but the last points to its successor. */
  ghost predicate Chained<K, V>(level: Level<K, V>)
    reads level`next
  {
    forall i :: 0 <= i < |level| - 1 ==> level[i].next == level[i+1]
  }

  ghost predicate DataChained<K, V>(data: seq<DataNode<K, V>>)
    reads data`next
  {
    forall i :: 0 <= i < |data| - 1 ==> data[i].next == data[i+1]
  }

  /** The interior nodes of `data` hold `pairs`. */
  ghost predicate Holds<K, V>(data: seq<DataNode<K, V>>, pairs: seq<(K, V)>)
    requires |pairs| == |data| - 2
    reads data`value
  {
    forall i :: 0 <= i < |pairs| ==>
      data[i+1].key == Some(pairs[i].0) && data[i+1].value == Some(pairs[i].1)
  }

  lemma SpliceHolds<K, V>(data: seq<DataNode<K, V>>, pairs: seq<(K, V)>, p: nat, node: DataNode<K, V>, key: K, value: V)
    requires |pairs| == |data| - 2 && Holds(data, pairs) && p < |data| - 1
    requires node.key == Some(key) && node.value == Some(value)
    ensures Holds(InsertAt(data, p + 1, node), InsertAt(pairs, p, (key, value)))
  {
  }

  lemma DropHolds<K, V>(data: seq<DataNode<K, V>>, pairs: seq<(K, V)>, p: nat)
    requires |pairs| == |data| - 2 && Holds(data, pairs) && p + 2 < |data|
    ensures Holds(Drop(data, p + 1), Drop(pairs, p))
  {
  }

  lemma ChainSteps<K, V>(data: seq<DataNode<K, V>>)
    requires DataChained(data)
    ensures forall i :: 0 <= i < |data| - 1 ==> data[i].next == data[i+1]
  {
  }

  /** A list with a node linked in behind position `p` is a chain again. */
  lemma SpliceChained<K, V>(data: seq<DataNode<K, V>>, p: nat, node: DataNode<K, V>)
    requires p < |data| - 1
    requires forall i :: 0 <= i < |data| - 1 && i != p ==> data[i].next == data[i+1]
    requires data[p].next == node && node.next == data[p+1]
    ensures DataChained(InsertAt(data, p + 1, node))
  {
  }

  class SkipList<K(!new), V(!new)> {
    const less: (K, K) -> bool
    const pHead: DataNode<K, V>
    const pTail: DataNode<K, V>
    const pTailIdx: IndexNode<K, V>
    const aHeadIdx: seq<IndexNode<K, V>>

    /** The nodes of every index list and of the data list, in order. */
    ghost var levels: seq<Level<K, V>>
    ghost var data: seq<DataNode<K, V>>

    /** The stored keys and values, in list order. */
    ghost var pairs: seq<(K, V)>

    /** The nodes the list owns. */
    ghost var indexRepr: set<IndexNode<K, V>>
    ghost var dataRepr: set<DataNode<K, V>>

    ghost function Fixed(): (r: Frame<K, V>) {
      Frame(less, aHeadIdx, pTailIdx, pHead, pTail)
    }

    /** The index nodes are linked as `levels` says. */
    ghost predicate Linked()
      reads this`levels, this`indexRepr, indexRepr`next
    {
      && (forall l, i :: 0 <= l < |levels| && 0 <= i < |levels[l]| ==> levels[l][i] in indexRepr)
      && (forall l :: 0 <= l < |levels| ==> Chained(levels[l]))
    }

    ghost predicate IndexValid()
      reads this`levels, this`indexRepr, indexRepr`next
    {
      Linked() && Structure(Fixed(), levels)
    }

    /** The data nodes are linked as `data` says and hold `pairs`. */
    ghost predicate DataValid()
      reads this`data, this`pairs, this`dataRepr, dataRepr`next, dataRepr`value
    {
      && (forall i :: 0 <= i < |data| ==> data[i] in dataRepr)
      && DataChained(data)
      && |data| >= 2 && data[0] == pHead && data[|data|-1] == pTail
      && |pairs| == |data| - 2 && Holds(data, pairs)
    }

    ghost predicate Valid()
      reads this, indexRepr`next, dataRepr`next, dataRepr`value
    {
      StrictTotalOrder(less) && IndexValid() && DataValid() && data == Roots(levels[0])
    }

    /** The finite map the list stands for. */
    ghost function Map(): (r: map<K, V>)
      reads this
    {
      ToMap(pairs)
    }

    /** The loop of the constructor: one head over another, each followed by the tail. */
    static method BuildHeads(height: nat, head: DataNode<K, V>, tailIdx: IndexNode<K, V>)
        returns (heads: seq<IndexNode<K, V>>, ghost built: seq<Level<K, V>>, ghost made: set<IndexNode<K, V>>)
      requires height >= 1
      ensures |heads| == |built| == height
      ensures fresh(made)
      ensures forall l :: 0 <= l < height ==> heads[l] in made && built[l] == [heads[l], tailIdx]
      ensures forall l :: 0 <= l < height ==> heads[l].next == tailIdx && Chained(built[l])
      ensures forall l :: 0 <= l < height ==> heads[l].root == head && heads[l].level == l
      ensures heads[0].pDown == Nothing
      ensures forall l :: 0 < l < height ==> heads[l].pDown == IndexBelow(heads[l-1])
    {
      var prev: Below<K, V> := Nothing;
      heads, built, made := [], [], {};
      for i := 0 to height
        invariant |heads| == |built| == i
        invariant fresh(made)
        invariant forall l :: 0 <= l < i ==> heads[l] in made && built[l] == [heads[l], tailIdx]
        invariant forall l :: 0 <= l < i ==> heads[l].next == tailIdx
        invariant forall l :: 0 <= l < i ==> heads[l].root == head && heads[l].level == l
        invariant i > 0 ==> heads[0].pDown == Nothing
        invariant forall l :: 0 < l < i ==> heads[l].pDown == IndexBelow(heads[l-1])
        invariant prev == if i == 0 then Nothing else IndexBelow(heads[i-1])
      {
        var ix := new IndexNode<K, V>(prev, head, i);
        ix.SetNext(tailIdx);
        prev := IndexBelow(ix);
        heads := heads + [ix];
        built := built + [[ix, tailIdx]];
        made := made + {ix};
      }
    }

    /** The nodes of an empty list: two data nodes, the shared index tail and the heads. */
    static method BuildNodes(height: nat)
        returns (head: DataNode<K, V>, tail: DataNode<K, V>, tailIdx: IndexNode<K, V>,
                 heads: seq<IndexNode<K, V>>, ghost built: seq<Level<K, V>>, ghost made: set<IndexNode<K, V>>)
      requires height >= 1
      ensures fresh(made) && fresh(head) && fresh(tail) && tailIdx in made
      ensures head.next == tail && head.key == tail.key == None && head != tail
      ensures tailIdx.root == tail && tailIdx.level == -1
      ensures |heads| == |built| == height
      ensures forall l :: 0 <= l < height ==> heads[l] in made && built[l] == [heads[l], tailIdx]
      ensures forall l :: 0 <= l < height ==> heads[l].root == head && heads[l].level == l
      ensures forall l :: 0 <= l < height ==> Chained(built[l])
      ensures heads[0].pDown == Nothing
      ensures forall l :: 0 < l < height ==> heads[l].pDown == IndexBelow(heads[l-1])
    {
      head := new DataNode<K, V>(None, None);
      tail := new DataNode<K, V>(None, None);
      head.SetNext(tail);
      tailIdx := new IndexNode<K, V>(DataBelow(tail), tail, -1);
      heads, built, made := BuildHeads(height, head, tailIdx);
      made := made + {tailIdx};
    }

    constructor (height: nat, less: (K, K) -> bool)
      requires height >= 1 && StrictTotalOrder(less)
      ensures Valid() && fresh(indexRepr) && fresh(dataRepr)
      ensures this.less == less && |aHeadIdx| == height && pairs == [] && Map() == map[]
    {
      hide StrictTotalOrder, Structure;
      var head, tail, tailIdx, heads;
      ghost var built, made;
      head, tail, tailIdx, heads, built, made := BuildNodes(height);
      EmptyStructure(Frame(less, heads, tailIdx, head, tail), built);
      this.less := less;
      this.pHead := head;
      this.pTail := tail;
      this.pTailIdx := tailIdx;
      this.aHeadIdx := heads;
      this.levels := built;
      this.data := [head, tail];
      this.pairs := [];
      this.indexRepr := made;
      this.dataRepr := {head, tail};
    }

    /** The data node of `key`, or null. */
    method Find(key: K) returns (r: DataNode?<K, V>)
      requires Valid()
      ensures r == null ==> Absent(levels[0], key)
      ensures r != null ==> exists j :: 0 < j < |data| - 1 && data[j] == r && r.key == Some(key)
    {
      var lvl := |aHeadIdx| - 1;
      var ix: IndexNode?<K, V> := aHeadIdx[lvl];
      ghost var p := 0;
      assert IsLevel(less, levels[lvl], aHeadIdx[lvl], pTailIdx, lvl);
      while lvl >= 0
        invariant -1 <= lvl < |aHeadIdx|
        invariant lvl >= 0 ==> Before(less, levels[lvl], p, key) && ix == levels[lvl][p]
        invariant lvl == -1 ==> Absent(levels[0], key)
        decreases lvl, if lvl >= 0 then |levels[lvl]| - p else 0
      {
        SearchStep(Fixed(), levels, lvl, p, key);
        assert Chained(levels[lvl]);
        var nxt := ix.next;
        if nxt == pTailIdx || less(key, nxt.Key()) {
          if lvl > 0 {
            p := SearchDown(Fixed(), levels, lvl, p, key);
          }
          lvl := lvl - 1;
          ix := ix.Down();
        } else if less(nxt.Key(), key) {
          ix := nxt;
          p := p + 1;
        } else {
          ghost var j := RootIsOnBottom(Fixed(), levels, lvl, p + 1);
          assert data[j] == nxt.root;
          return nxt.root;
        }
      }
      r := null;
    }
 
    /** The bottom level, and so the data list, is strictly ascending. */
    lemma PairsAscend()
      requires Valid()
      ensures Ascending(less, pairs) && UniqueKeys(pairs)
    {
      assert IsLevel(less, levels[0], aHeadIdx[0], pTailIdx, 0);
      forall i, j | 0 <= i < j < |pairs| ensures less(pairs[i].0, pairs[j].0) {
        assert levels[0][i+1].root == data[i+1] && levels[0][j+1].root == data[j+1];
      }
      AscendingIsUnique(less, pairs);
    }

    lemma AbsentIsUnbound(key: K)
      requires Valid() && Absent(levels[0], key)
      ensures key !in Map()
    {
      PairsAscend();
      if key in Map() {
        ToMapFinds(pairs, key, Map()[key]);
      }
    }

    lemma PresentIsBound(key: K, j: nat)
      requires Valid() && 0 < j < |data| - 1 && data[j].key == Some(key)
      ensures key in Map() && data[j].value == Some(Map()[key]) == Lookup(Map(), key)
    {
      PairsAscend();
      assert pairs[j-1].0 == key;
      ToMapFinds(pairs, key, pairs[j-1].1);
    }

    method Get(key: K) returns (r: Option<V>)
      requires Valid()
      ensures r == Lookup(Map(), key)
      ensures if key in Map() then r == Some(Map()[key]) else r == None
    {
      var node := Find(key);
      if node == null {
        AbsentIsUnbound(key);
        r := None;
      } else {
        ghost var j :| 0 < j < |data| - 1 && data[j] == node;
        PresentIsBound(key, j);
        r := node.value;
      }
    }

    /** Only position `p` of level `l` holds `node`. */
    ghost predicate OnlyAt(node: IndexNode<K, V>, l: nat, p: nat)
      reads this
    {
      && l < |levels| && p < |levels[l]| - 1 && levels[l][p] == node
      && (forall m, i :: 0 <= m < |levels| && 0 <= i < |levels[m]| && levels[m][i] == node ==> m == l && i == p)
    }

    /** Puts `node` behind `prev` on level `l`. */
    method LinkAfter(ghost l: nat, ghost p: nat, prev: IndexNode<K, V>, node: IndexNode<K, V>)
      requires Linked() && OnlyAt(prev, l, p) && node !in indexRepr
      modifies this`levels, this`indexRepr, prev`next, node`next
      ensures Linked()
      ensures indexRepr == old(indexRepr) + {node}
      ensures levels == old(levels)[l := InsertAt(old(levels[l]), p + 1, node)]
    {
      assert Chained(levels[l]);
      node.SetNext(prev.next);
      prev.SetNext(node);
      ghost var spliced := InsertAt(levels[l], p + 1, node);
      assert Chained(spliced);
      assert forall m :: 0 <= m < |levels| && m != l ==> Chained(levels[m]);
      levels := levels[l := spliced];
      indexRepr := indexRepr + {node};
    }

    /** Takes the node behind `prev` off level `l`. */
    method UnlinkAfter(ghost l: nat, ghost p: nat, prev: IndexNode<K, V>, nxt2: IndexNode?<K, V>)
      requires Linked() && OnlyAt(prev, l, p) && p + 2 < |levels[l]|
      requires nxt2 == levels[l][p+2]
      modifies this`levels, prev`next
      ensures Linked()
      ensures levels == old(levels)[l := Drop(old(levels[l]), p + 1)]
    {
      assert Chained(levels[l]);
      prev.SetNext(nxt2);
      ghost var dropped := Drop(levels[l], p + 1);
      assert Chained(dropped);
      assert forall m :: 0 <= m < |levels| && m != l ==> Chained(levels[m]);
      levels := levels[l := dropped];
    }
 
    /** Puts a new data node behind `prev` in the data list. */
    method LinkData(ghost p: nat, prev: DataNode<K, V>, key: K, value: V) returns (node: DataNode<K, V>)
      requires DataValid()
      requires p < |data| - 1 && prev == data[p]
      requires forall i :: 0 <= i < |data| && data[i] == prev ==> i == p
      modifies this`data, this`pairs, this`dataRepr, prev`next
      ensures fresh(node) && node.key == Some(key) && dataRepr == old(dataRepr) + {node}
      ensures data == InsertAt(old(data), p + 1, node)
      ensures pairs == InsertAt(old(pairs), p, (key, value))
      ensures DataValid()
    {
      hide InsertAt, Holds, DataChained;
      ChainSteps(data);
      node := new DataNode<K, V>(Some(key), Some(value));
      InsertKeepsMembers(data, p + 1, node);
      node.SetNext(prev.next);
      prev.SetNext(node);
      SpliceHolds(data, pairs, p, node, key, value);
      SpliceChained(data, p, node);
      data := InsertAt(data, p + 1, node);
      pairs := InsertAt(pairs, p, (key, value));
      dataRepr := dataRepr + {node};
    }

    /** Takes the data node behind `prev` out of the data list. */
    method UnlinkData(ghost p: nat, prev: DataNode<K, V>, nxt2: DataNode?<K, V>)
      requires DataValid()
      requires p + 2 < |data| && prev == data[p] && nxt2 == data[p+2]
      requires forall i :: 0 <= i < |data| && data[i] == prev ==> i == p
      modifies this`data, this`pairs, prev`next
      ensures data == Drop(old(data), p + 1)
      ensures DataValid()
      ensures pairs == Drop(old(pairs), p)
    {
      hide Drop, Holds;
      DropIndex(data, p + 1);
      DropHolds(data, pairs, p);
      prev.SetNext(nxt2);
      data := Drop(data, p + 1);
      pairs := Drop(pairs, p);
    }
 
    /** Adds an index node on level `l`, behind `prev`. */
    method AddIndex(ghost l: nat, ghost p: nat, prev: IndexNode<K, V>,
                    down: Below<K, V>, root: DataNode<K, V>, ghost key: K) returns (node: IndexNode<K, V>)
      requires StrictTotalOrder(less) && IndexValid()
      requires l < |levels| && p < |levels[l]| && prev == levels[l][p]
      requires root.key == Some(key) && Gap(less, levels[l], p, key)
      requires Footing(levels, l, down, root)
      modifies this`levels, this`indexRepr, prev`next
      ensures IndexValid()
      ensures fresh(node) && indexRepr == old(indexRepr) + {node}
      ensures levels == old(levels)[l := InsertAt(old(levels[l]), p + 1, node)]
      ensures node.root == root && node.level == l && node in levels[l]
    {
      node := new IndexNode<K, V>(down, root, l);
      SpliceKeepsStructure(Fixed(), levels, l, p, node);
      OnlyPlace(Fixed(), levels, l, p);
      LinkAfter(l, p, prev, node);
      assert levels[l][p+1] == node;
    }

    lemma TracePlaces(trace: seq<IndexNode<K, V>>, at: seq<nat>, key: K)
      requires IsTrace(less, levels, trace, at, key, 0)
      ensures |trace| == |at| == |levels|
    {
    }

    /** Builds a tower over `dataNode`, as high as the coin flips make it: `tails(i)` is the flip for
        level `i`. */
    method GrowTower(trace: seq<IndexNode<K, V>>, ghost at: seq<nat>, key: K, dataNode: DataNode<K, V>,
                     tails: nat -> bool)
        returns (ghost tower: Level<K, V>, ghost added: set<IndexNode<K, V>>)
      requires StrictTotalOrder(less) && IndexValid()
      requires |trace| >= 1 && IsTrace(less, levels, trace, at, key, 0)
      requires dataNode.key == Some(key)
      modifies this`levels, this`indexRepr, trace`next
      ensures IndexValid() && indexRepr == old(indexRepr) + added && fresh(added)
      ensures forall j :: 0 <= j < |tower| ==> tower[j].root == dataNode
      ensures IsHeight(tails, |tower|, |old(levels)|) && TowerAdded(old(levels), levels, at, tower)
    {
      hide StrictTotalOrder, IsLevel, Structure, Chained, Gap, InsertAt, IsTrace, TowerAdded;
      TracePlaces(trace, at, key);
      NoTowerYet(less, levels, trace, at, key);
      var down := DataBelow(dataNode);
      tower := [];
      added := {};
      for i := 0 to |trace|
        invariant |tower| == i && |levels| == |trace| && forall j :: 1 <= j < i ==> !tails(j)
        invariant IndexValid()
        invariant indexRepr == old(indexRepr) + added && fresh(added)
        invariant forall j :: 0 <= j < i ==> tower[j].root == dataNode
        invariant TowerAdded(old(levels), levels, at, tower)
        invariant i < |trace| ==> Footing(levels, i, down, dataNode)
      {
        if i != 0 && tails(i) {
          break;
        }
        ghost var before := levels;
        TowerTop(less, old(levels), levels, trace, at, key, tower);
        var node := AddIndex(i, at[i], trace[i], down, dataNode, key);
        TowerGrows(old(levels), before, at, tower, node);
        down := IndexBelow(node);
        tower := tower + [node];
        added := added + {node};
      }
    }
 
    /** The data list holds no node twice. */
    lemma DataDistinct()
      requires Valid()
      ensures forall i, j :: 0 <= i < j < |data| ==> data[i] != data[j]
    {
      forall i, j | 0 <= i < j < |data| ensures data[i] != data[j] {
        LevelNodesDistinct(Fixed(), levels, 0, i, j);
      }
    }

    lemma DataOnlyAt(p: nat)
      requires Valid() && p < |data|
      ensures forall i :: 0 <= i < |data| && data[i] == data[p] ==> i == p
    {
      forall i | 0 <= i < |data| && data[i] == data[p] ensures i == p {
        if i != p {
          LevelNodesDistinct(Fixed(), levels, 0, if i < p then i else p, if i < p then p else i);
        }
      }
    }

    /** The foot of a trace is the data node to insert behind. */
    lemma TraceFoot(trace: seq<IndexNode<K, V>>, at: seq<nat>, key: K)
      requires Valid() && IsTrace(less, levels, trace, at, key, 0)
      ensures |trace| == |at| >= 1 && at[0] < |data| - 1 && trace[0].root == data[at[0]]
      ensures forall i :: 0 <= i < |data| && data[i] == data[at[0]] ==> i == at[0]
      ensures forall j :: 0 <= j < |trace| ==> trace[j] in indexRepr
    {
      DataOnlyAt(at[0]);
    }

    /** Puts a new key in: a data node and a tower of index nodes over it. */
    method InsertTower(trace: seq<IndexNode<K, V>>, ghost at: seq<nat>, key: K, value: V, tails: nat -> bool)
        returns (ghost tower: Level<K, V>)
      requires |trace| == |at| >= 1 && Valid() && IsTrace(less, levels, trace, at, key, 0)
      modifies this, indexRepr`next, dataRepr`next
      ensures Valid()
      ensures fresh(indexRepr - old(indexRepr)) && fresh(dataRepr - old(dataRepr))
      ensures at[0] < |old(data)| - 1 && pairs == InsertAt(old(pairs), at[0], (key, value))
      ensures IsHeight(tails, |tower|, |old(levels)|) && TowerAdded(old(levels), levels, at, tower)
      ensures forall j :: 0 <= j < |tower| ==> tower[j].root == tower[0].root && tower[j].root.key == Some(key)
    {
      hide StrictTotalOrder, Structure, IsLevel, IsTrace, InsertAt, DataChained, Chained, Holds;
      TraceFoot(trace, at, key);
      var currData := trace[0].root;
      var dataNode := LinkData(at[0], currData, key, value);
      ghost var added;
      tower, added := GrowTower(trace, at, key, dataNode, tails);
      assert data == Roots(levels[0]) by {
        RootsOfSplice(old(levels)[0], at[0], tower[0]);
      }
    }

    /** Writes the value of a stored key. */
    method WriteValue(ghost j: nat, node: DataNode<K, V>, value: V) returns (oldValue: Option<V>)
      requires Valid() && 0 < j < |data| - 1 && node == data[j]
      modifies this`pairs, node`value
      ensures Valid() && oldValue == Some(old(pairs)[j-1].1)
      ensures pairs == old(pairs)[j-1 := (old(pairs)[j-1].0, value)]
    {
      hide StrictTotalOrder, Structure;
      DataOnlyAt(j);
      oldValue := node.SetValue(Some(value));
      pairs := pairs[j-1 := (pairs[j-1].0, value)];
    }

    /** What finding a key again does: its value is overwritten if asked for, and returned. */
    method Found(ghost l: nat, ghost q: nat, nxt: IndexNode<K, V>, key: K, value: V, substitute: bool)
        returns (r: Option<V>)
      requires Valid() && l < |levels| && 0 < q < |levels[l]| - 1 && levels[l][q] == nxt
      requires nxt.root.key == Some(key)
      modifies this`pairs, dataRepr`value
      ensures Valid()
      ensures key in old(Map()) && r == Lookup(old(Map()), key)
      ensures Map() == if substitute then old(Map())[key := value] else old(Map())
    {
      hide StrictTotalOrder, IsLevel, Joined, ToMap;
      ghost var j := RootIsOnBottom(Fixed(), levels, l, q);
      PresentIsBound(key, j);
      if substitute {
        WriteRebindsHere(key, j, value);
        r := WriteValue(j, nxt.root, value);
      } else {
        r := nxt.root.value;
      }
    }

    lemma WriteRebindsHere(key: K, j: nat, value: V)
      requires Valid() && 0 < j < |data| - 1 && data[j].key == Some(key)
      ensures pairs[j-1].0 == key && data[j].value == Some(pairs[j-1].1)
      ensures ToMap(pairs[j-1 := (pairs[j-1].0, value)]) == Map()[key := value]
    {
      assert pairs[j-1].0 == key;
      PairsAscend();
      WriteRebinds(pairs, j - 1, value);
    }

    /** What inserting a pair with a new key does to the map. */
    lemma InsertedIsBound(before: seq<(K, V)>, p: nat, key: K, value: V)
      requires Valid() && p <= |before| && UniqueKeys(before)
      requires pairs == InsertAt(before, p, (key, value))
      ensures Lookup(ToMap(before), key) == None && Map() == ToMap(before)[key := value]
    {
      PairsAscend();
      InsertBinds(before, pairs, p, key, value);
    }

    /** What not finding a key does: it is inserted behind the trace of the search. */
    method Missed(trace: seq<IndexNode<K, V>>, ghost at: seq<nat>, key: K, value: V, tails: nat -> bool)
      requires Valid() && IsTrace(less, levels, trace, at, key, 0)
      modifies this, indexRepr`next, dataRepr`next
      ensures Valid()
      ensures fresh(indexRepr - old(indexRepr)) && fresh(dataRepr - old(dataRepr))
      ensures Lookup(old(Map()), key) == None && Map() == old(Map())[key := value]
      ensures Grown(old(levels), levels, key, tails)
    {
      hide StrictTotalOrder, Structure, IsLevel, IsTrace, ToMap, InsertAt, TowerAdded, Grown, UniqueKeys;
      PairsAscend();
      TraceFoot(trace, at, key);
      ghost var tower := InsertTower(trace, at, key, value, tails);
      InsertedIsBound(old(pairs), at[0], key, value);
      TowerIsGrown(old(levels), levels, at, tower, key, tails);
    }

    /** Searches from the top head, right and down. A hit is an index node of the key; a miss
        leaves on every level the last node before the key. */
    method Seek(key: K) returns (hit: IndexNode?<K, V>, trace: seq<IndexNode<K, V>>,
                                 ghost l: nat, ghost q: nat, ghost at: seq<nat>)
      requires Valid()
      ensures hit != null ==> l < |levels| && 0 < q < |levels[l]| - 1 && levels[l][q] == hit && hit.root.key == Some(key)
      ensures hit == null ==> IsTrace(less, levels, trace, at, key, 0)
    {
      hide StrictTotalOrder, Structure, IsLevel, IsTrace, Gap, Holds;
      var lvl := |aHeadIdx| - 1;
      SearchStart(Fixed(), levels, lvl, key);
      var ix: IndexNode?<K, V> := aHeadIdx[lvl];
      var top := aHeadIdx[lvl];
      var slots := new IndexNode<K, V>[|aHeadIdx|](_ => top);
      at := seq(|aHeadIdx|, _ => 0);
      ghost var p: nat := 0;
      l, q, hit, trace := 0, 0, null, [];
      NoTraceYet(less, levels, slots[..], at, key);
      while ix != pTailIdx
        invariant 0 <= lvl < |levels| == |aHeadIdx| == slots.Length == |at|
        invariant Before(less, levels[lvl], p, key) && ix == levels[lvl][p] && ix != pTailIdx
        invariant fresh(slots) && IsTrace(less, levels, slots[..], at, key, lvl + 1)
        decreases lvl, |levels[lvl]| - p
      {
        SearchStep(Fixed(), levels, lvl, p, key);
        assert Chained(levels[lvl]);
        var nxt := ix.next;
        if nxt == pTailIdx || less(key, nxt.Key()) {
          TraceGrows(less, levels, slots[..], at, key, lvl, p);
          slots[lvl] := ix;
          at := at[lvl := p];
          if lvl > 0 {
            p := SearchDown(Fixed(), levels, lvl, p, key);
          }
          lvl := lvl - 1;
          ix := ix.Down();
        } else if less(nxt.Key(), key) {
          ix := nxt;
          p := p + 1;
          continue;
        } else {
          l, q, hit := lvl, p + 1, nxt;
          return;
        }
        if lvl == -1 {
          trace := slots[..];
          return;
        }
      }
      assert false;
    }

    /** Binds `key` to `value`; an existing binding is overwritten only when `substitute` is set. */
    method InsertPair(key: K, value: V, substitute: bool, tails: nat -> bool) returns (r: Option<V>)
      requires Valid()
      modifies this, indexRepr`next, dataRepr`next, dataRepr`value
      ensures Valid()
      ensures fresh(indexRepr - old(indexRepr)) && fresh(dataRepr - old(dataRepr))
      ensures r == Lookup(old(Map()), key)
      ensures Map() == if r.Some? && !substitute then old(Map()) else old(Map())[key := value]
      ensures if r.Some? then levels == old(levels) && data == old(data) else Grown(old(levels), levels, key, tails)
    {
      hide StrictTotalOrder, Structure, IsLevel, IsTrace, Gap, Holds, ToMap, Grown;
      var hit, trace;
      ghost var l, q, at;
      hit, trace, l, q, at := Seek(key);
      if hit != null {
        r := Found(l, q, hit, key, value, substitute);
      } else {
        Missed(trace, at, key, value, tails);
        r := None;
      }
    }

    /** Walks on to the predecessor of `nxt` on its level and links `nxt` out. */
    method UnlinkLevel(ghost l: nat, ghost p: nat, ghost q: nat, from: IndexNode<K, V>, nxt: IndexNode<K, V>, ghost key: K)
        returns (ix: IndexNode<K, V>)
      requires StrictTotalOrder(less) && IndexValid()
      requires l < |levels| && p < q < |levels[l]| - 1 && levels[l][p] == from && levels[l][q] == nxt
      requires nxt.root.key == Some(key)
      requires l + 1 < |levels| ==> Absent(levels[l+1], key)
      modifies this`levels, indexRepr`next
      ensures IndexValid()
      ensures levels == old(levels)[l := Drop(old(levels)[l], q)] && Absent(levels[l], key)
      ensures ix == old(levels)[l][q-1]
    {
      hide StrictTotalOrder, Structure, IsLevel;
      OnlyPlace(Fixed(), levels, l, q);
      assert Chained(levels[l]);
      var nxt2 := nxt.next;
      ix := from;
      ghost var i := p;
      while ix.next != nxt
        invariant p <= i < q && ix == levels[l][i] && ix.next == levels[l][i+1]
        decreases q - i
      {
        ix := ix.next;
        i := i + 1;
      }
      DropKeepsStructure(Fixed(), levels, l, q, key);
      OnlyPlace(Fixed(), levels, l, i);
      UnlinkAfter(l, i, ix, nxt2);
    }

    /** Links `nxt` out of its level and goes one level down, in front of it and inside its tower. */
    method UnlinkStorey(ghost l: nat, ghost p: nat, ghost q: nat, from: IndexNode<K, V>,
                        nxt: IndexNode<K, V>, ghost key: K)
        returns (dataCurr: DataNode<K, V>, down: IndexNode?<K, V>, nxtDown: IndexNode?<K, V>, ghost pd: nat, ghost qd: nat)
      requires StrictTotalOrder(less) && IndexValid()
      requires l < |levels| && p < q < |levels[l]| - 1 && levels[l][p] == from && levels[l][q] == nxt
      requires nxt.root.key == Some(key)
      requires l + 1 < |levels| ==> Absent(levels[l+1], key)
      modifies this`levels, indexRepr`next
      ensures IndexValid()
      ensures levels == old(levels)[l := Drop(old(levels)[l], q)]
      ensures Absent(levels[l], key) && LevelWithout(old(levels)[l], levels[l], key)
      ensures dataCurr == old(levels)[l][q-1].root
      ensures down == null <==> l == 0
      ensures l > 0 ==> Before(less, levels[l-1], pd, key) && levels[l-1][pd] == down
      ensures l > 0 ==> pd < qd < |levels[l-1]| - 1 && levels[l-1][qd] == nxtDown && nxtDown.root == nxt.root
    {
      hide StrictTotalOrder, Structure, IsLevel, Drop, Chained, LevelWithout;
      pd, qd := 0, 0;
      if l > 0 {
        qd := TowerDown(Fixed(), levels, l, q);
      }
      PredecessorIsBefore(Fixed(), levels, l, q, key);
      var ix := UnlinkLevel(l, p, q, from, nxt, key);
      if l > 0 {
        pd := SearchDown(Fixed(), levels, l, q - 1, key);
        BeforeIsLeft(Fixed(), levels, l - 1, pd, qd, key);
      } else {
        BottomDown(Fixed(), levels, q - 1);
      }
      dataCurr := ix.root;
      down := ix.Down();
      nxtDown := nxt.Down();
    }

    /** Links the tower of `hit` out of level `top` and every level below it. */
    method UnlinkTower(ghost top: nat, ghost left: nat, ghost at: nat, start: IndexNode<K, V>,
                       hit: IndexNode<K, V>, ghost key: K)
        returns (dataCurr: DataNode<K, V>, ghost q: nat)
      requires StrictTotalOrder(less) && IndexValid()
      requires top < |levels| && left < at < |levels[top]| - 1
      requires levels[top][left] == start && levels[top][at] == hit && hit.root.key == Some(key)
      requires forall j :: top < j < |levels| ==> Absent(levels[j], key)
      modifies this`levels, indexRepr`next
      ensures IndexValid() && |levels| == |old(levels)| >= 1
      ensures Shrunk(old(levels), levels, key)
      ensures 0 < q < |old(levels)[0]| - 1 && levels[0] == Drop(old(levels)[0], q)
      ensures dataCurr == old(levels)[0][q-1].root && old(levels)[0][q].root == hit.root
    {
      hide StrictTotalOrder, Structure, IsLevel, Drop, Linked, Absent, Before;
      ghost var l: int := top;
      ghost var p: nat := left;
      ghost var qd: nat := at;
      var ix: IndexNode?<K, V> := start;
      var nxt: IndexNode?<K, V> := hit;
      q := at;
      dataCurr := start.root;
      while ix != null
        invariant -1 <= l < |levels| == |old(levels)|
        invariant IndexValid()
        invariant forall j :: l < j < |levels| ==> Absent(levels[j], key)
        invariant forall j :: l < j < |levels| ==> LevelWithout(old(levels)[j], levels[j], key)
        invariant forall j :: 0 <= j <= l ==> levels[j] == old(levels)[j]
        invariant ix == null <==> l == -1
        invariant l >= 0 ==> p < qd < |levels[l]| - 1 && levels[l][p] == ix
        invariant l >= 0 ==> nxt != null && levels[l][qd] == nxt && nxt.root == hit.root
        invariant l == -1 ==> 0 < q < |old(levels)[0]| - 1 && levels[0] == Drop(old(levels)[0], q)
        invariant l == -1 ==> dataCurr == old(levels)[0][q-1].root && old(levels)[0][q].root == hit.root
        decreases l
      {
        q := qd;
        dataCurr, ix, nxt, p, qd := UnlinkStorey(l, p, q, ix, nxt, key);
        l := l - 1;
      }
    }

    /** Searches for the highest index node of `key`; `ix` lies before it on the same level. */
    method SeekTower(key: K) returns (ix: IndexNode?<K, V>, hit: IndexNode?<K, V>, ghost l: nat, ghost p: nat)
      requires Valid()
      ensures |levels| >= 1
      ensures hit == null ==> forall j :: 0 <= j < |levels| ==> Absent(levels[j], key)
      ensures hit != null ==> l < |levels| && p + 1 < |levels[l]| - 1 && levels[l][p] == ix && levels[l][p+1] == hit
      ensures hit != null ==> hit.root.key == Some(key) && forall j :: l < j < |levels| ==> Absent(levels[j], key)
    {
      hide StrictTotalOrder, Structure, IsLevel, Gap, Holds, Absent;
      ghost var lvl: int := |aHeadIdx| - 1;
      SearchStart(Fixed(), levels, lvl, key);
      ix := aHeadIdx[|aHeadIdx| - 1];
      l, p, hit := 0, 0, null;
      while ix != null
        invariant -1 <= lvl < |levels| == |aHeadIdx|
        invariant ix == null <==> lvl == -1
        invariant lvl >= 0 ==> Before(less, levels[lvl], p, key) && ix == levels[lvl][p]
        invariant forall j :: lvl < j < |levels| ==> Absent(levels[j], key)
        decreases lvl, if lvl >= 0 then |levels[lvl]| - p else 0
      {
        SearchStep(Fixed(), levels, lvl, p, key);
        assert Chained(levels[lvl]);
        var nxt := ix.next;
        if nxt == pTailIdx || less(key, nxt.Key()) {
          ghost var below := 0;
          if lvl > 0 {
            below := SearchDown(Fixed(), levels, lvl, p, key);
          } else {
            BottomDown(Fixed(), levels, p);
          }
          ix := ix.Down();
          lvl, p := lvl - 1, below;
        } else if less(nxt.Key(), key) {
          ix := nxt;
          p := p + 1;
        } else {
          l, hit := lvl, nxt;
          return;
        }
      }
    }

    lemma HitValue(l: nat, q: nat, key: K)
      requires Valid() && l < |levels| && 0 < q < |levels[l]| - 1 && levels[l][q].root.key == Some(key)
      ensures levels[l][q].root.value == Lookup(Map(), key)
      ensures levels[l][q].root in dataRepr
    {
      var j := RootIsOnBottom(Fixed(), levels, l, q);
      PresentIsBound(key, j);
    }

    /** Takes the tower of `hit` and its data node out of the list. */
    method RemoveTower(ghost l: nat, ghost p: nat, ix: IndexNode<K, V>, hit: IndexNode<K, V>, ghost key: K)
        returns (r: Option<V>)
      requires Valid()
      requires l < |levels| && p + 1 < |levels[l]| - 1 && levels[l][p] == ix && levels[l][p+1] == hit
      requires hit.root.key == Some(key) && forall j :: l < j < |levels| ==> Absent(levels[j], key)
      modifies this`levels, this`data, this`pairs, indexRepr`next, dataRepr`next
      ensures Valid() && r == Lookup(old(Map()), key)
      ensures Map() == old(Map()) - {key}
      ensures Shrunk(old(levels), levels, key)
    {
      hide StrictTotalOrder, Structure, IsLevel, Roots, Linked, ToMap, Shrunk, Absent, Lookup, Drop, UniqueKeys;
      HitValue(l, p + 1, key);
      PairsAscend();
      DataDistinct();
      ghost var bottom := levels[0];
      r := hit.root.value;
      var dataDel := hit.root;
      var dataCurr;
      ghost var q: nat;
      dataCurr, q := UnlinkTower(l, p, p + 1, ix, hit, key);
      assert pairs[q-1].0 == key;
      DropUnbinds(pairs, q - 1);
      UnlinkData(q - 1, dataCurr, dataDel.next);
      RootsOfDrop(bottom, q);
    }

    /** Removes `key` and answers the value it had. */
    method Delete(key: K) returns (r: Option<V>)
      requires Valid()
      modifies this`levels, this`data, this`pairs, indexRepr`next, dataRepr`next
      ensures Valid()
      ensures r == Lookup(old(Map()), key)
      ensures Map() == old(Map()) - {key}
      ensures Shrunk(old(levels), levels, key)
    {
      hide StrictTotalOrder, Structure, IsLevel, Linked, DataValid, ToMap, Absent, LevelWithout;
      var ix, hit;
      ghost var l, p;
      ix, hit, l, p := SeekTower(key);
      if hit == null {
        AbsentIsUnbound(key);
        NothingShrunk(levels, key);
        r := None;
      } else {
        r := RemoveTower(l, p, ix, hit, key);
      }
    }

    method Put(key: K, value: V, tails: nat -> bool) returns (r: Option<V>)
      requires Valid()
      modifies this, indexRepr`next, dataRepr`next, dataRepr`value
      ensures Valid()
      ensures fresh(indexRepr - old(indexRepr)) && fresh(dataRepr - old(dataRepr))
      ensures r == Lookup(old(Map()), key) && Map() == old(Map())[key := value]
      ensures if r.Some? then levels == old(levels) && data == old(data) else Grown(old(levels), levels, key, tails)
    {
      r := InsertPair(key, value, true, tails);
    }

    method PutIfAbsent(key: K, value: V, tails: nat -> bool) returns (r: Option<V>)
      requires Valid()
      modifies this, indexRepr`next, dataRepr`next, dataRepr`value
      ensures Valid()
      ensures fresh(indexRepr - old(indexRepr)) && fresh(dataRepr - old(dataRepr))
      ensures r == Lookup(old(Map()), key)
      ensures Map() == if r.Some? then old(Map()) else old(Map())[key := value]
      ensures if r.Some? then levels == old(levels) && data == old(data) else Grown(old(levels), levels, key, tails)
    {
      r := InsertPair(key, value, false, tails);
    }

    /** An iterator on the first stored key, or on the tail. */
    method Begin() returns (it: Iterator<K, V>)
      requires Valid()
      ensures fresh(it) && it.pCurrent == data[1]
    {
      it := new Iterator(pHead.next);
    }

    /** An iterator on the tail. */
    method End() returns (it: Iterator<K, V>)
      requires Valid()
      ensures fresh(it) && it.pCurrent == data[|data|-1]
    {
      it := new Iterator(pTail);
    }

    /** An iterator on exactly `key`, or on the tail when it is not stored. */
    method FindFrom(key: K) returns (it: Iterator<K, V>, ghost i: nat)
      requires Valid()
      ensures fresh(it) && i < |pairs| + 1 && it.pCurrent == data[i+1]
      ensures if i < |pairs| then pairs[i].0 == key else key !in Map()
      ensures i == FirstAtLeast(less, pairs, key) <==>
        key in Map() || forall j :: 0 <= j < |pairs| ==> less(pairs[j].0, key)
    {
      hide StrictTotalOrder, Structure, IsLevel, Linked, FirstAtLeast, ToMap, UniqueKeys;
      PairsAscend();
      var node := Find(key);
      if node == null {
        AbsentIsUnbound(key);
        it := new Iterator(pTail);
        i := |pairs|;
      } else {
        ghost var j :| 0 < j < |data| - 1 && data[j] == node && node.key == Some(key);
        it := new Iterator(node);
        i := j - 1;
        assert pairs[i].0 == key;
      }
      ExactIsFirstAtLeastIff(less, pairs, i, key);
    }
  }
}
