/** What a well-formed skip list looks like, as properties of the sequences of nodes on
    its levels. Keys, roots and down links never change, so nothing here reads the heap. */
module SkipShape {
  import opened Options
  import opened Seqs
  import opened SkipNodes

  ghost predicate StrictTotalOrder<K(!new)>(less: (K, K) -> bool) {
    && (forall a: K :: !less(a, a))
    && (forall a: K, b: K, c: K :: less(a, b) && less(b, c) ==> less(a, c))
    && (forall a: K, b: K :: a == b || less(a, b) || less(b, a))
  }

  type Level<K, V> = seq<IndexNode<K, V>>

  /** `level` is a head, interior nodes in strictly ascending key order, and the shared tail. */
  ghost predicate IsLevel<K, V>(less: (K, K) -> bool, level: Level<K, V>,
                                head: IndexNode<K, V>, tail: IndexNode<K, V>, l: int)
  {
    && |level| >= 2 && level[0] == head && level[|level| - 1] == tail
    && (forall i :: 0 <= i < |level| - 1 ==> level[i].level == l)
    && (forall i :: 0 < i < |level| - 1 ==> level[i].root.key.Some?)
    && (forall i, j :: 0 < i < j < |level| - 1 ==>
                         less(level[i].root.key.value, level[j].root.key.value))
  }

  /** The node at `p` lies strictly before `key`, and is not the tail. */
  ghost predicate Before<K, V>(less: (K, K) -> bool, level: Level<K, V>, p: int, key: K) {
    && 0 <= p < |level| - 1
    && (p > 0 ==> level[p].root.key.Some? && less(level[p].root.key.value, key))
  }

  /** `p` is the last node of the level that lies strictly before `key`, which the level lacks. */
  ghost predicate Gap<K, V>(less: (K, K) -> bool, level: Level<K, V>, p: int, key: K) {
    && Before(less, level, p, key)
    && (p + 1 < |level| - 1 ==> level[p+1].root.key.Some? && less(key, level[p+1].root.key.value))
  }

  ghost predicate Absent<K, V>(level: Level<K, V>, key: K) {
    forall i :: 0 < i < |level| - 1 ==> level[i].root.key != Some(key)
  }

  /** The keys up to the gap are less than `key`, and the keys behind it are greater. */
  lemma GapSides<K(!new), V>(less: (K, K) -> bool, level: Level<K, V>,
                             head: IndexNode<K, V>, tail: IndexNode<K, V>, l: int, p: nat, key: K)
    requires StrictTotalOrder(less)
    requires IsLevel(less, level, head, tail, l) && Gap(less, level, p, key)
    ensures forall i :: 0 < i <= p && i < |level| - 1 ==> less(level[i].root.key.value, key)
    ensures forall i :: p < i < |level| - 1 ==> less(key, level[i].root.key.value)
  {
    forall i | 0 < i <= p && i < |level| - 1 ensures less(level[i].root.key.value, key) {
      assert i < p ==> less(level[i].root.key.value, level[p].root.key.value);
    }
    forall i | p < i < |level| - 1 ensures less(key, level[i].root.key.value) {
      assert i > p + 1 ==> less(level[p+1].root.key.value, level[i].root.key.value);
    }
  }

  lemma GapMeansAbsent<K(!new), V>(less: (K, K) -> bool, level: Level<K, V>,
                             head: IndexNode<K, V>, tail: IndexNode<K, V>, l: int, p: nat, key: K)
    requires StrictTotalOrder(less)
    requires IsLevel(less, level, head, tail, l) && Gap(less, level, p, key)
    ensures Absent(level, key)
  {
    GapSides(less, level, head, tail, l, p, key);
  }

  lemma SpliceKeepsLevel<K(!new), V>(less: (K, K) -> bool, level: Level<K, V>,
                               head: IndexNode<K, V>, tail: IndexNode<K, V>, l: int,
                               p: nat, node: IndexNode<K, V>)
    requires StrictTotalOrder(less)
    requires IsLevel(less, level, head, tail, l)
    requires node.level == l && node.root.key.Some?
    requires Gap(less, level, p, node.root.key.value)
    ensures IsLevel(less, InsertAt(level, p + 1, node), head, tail, l)
  {
    hide StrictTotalOrder, InsertAt;
    var s, at := InsertAt(level, p + 1, node), p + 1;
    InsertIndex(level, at, node);
    GapSides(less, level, head, tail, l, p, node.root.key.value);
    forall i, j | 0 < i < j < |s| - 1
      ensures s[i].root.key.Some? && s[j].root.key.Some? && less(s[i].root.key.value, s[j].root.key.value)
    {
      var a, b := if i < at then i else i - 1, if j < at then j else j - 1;
      assert i != at ==> s[i] == level[a];
      assert j != at ==> s[j] == level[b];
    }
  }

  lemma DropKeepsLevel<K(!new), V>(less: (K, K) -> bool, level: Level<K, V>,
                             head: IndexNode<K, V>, tail: IndexNode<K, V>, l: int, q: nat)
    requires StrictTotalOrder(less)
    requires IsLevel(less, level, head, tail, l)
    requires 0 < q < |level| - 1
    ensures IsLevel(less, Drop(level, q), head, tail, l)
    ensures Absent(Drop(level, q), level[q].root.key.value)
  {
    var s := Drop(level, q);
    assert forall i :: 0 <= i < |s| ==> s[i] == if i < q then level[i] else level[i+1];
    forall i | 0 < i < |s| - 1 ensures s[i].root.key != level[q].root.key {
      if i < q {
        assert less(level[i].root.key.value, level[q].root.key.value);
      } else {
        assert less(level[q].root.key.value, level[i+1].root.key.value);
      }
    }
  }

  /** The parts of a skip list that are fixed when it is built. */
  datatype Frame<!K, V> = Frame(less: (K, K) -> bool, heads: seq<IndexNode<K, V>>, tail: IndexNode<K, V>,
                                dataHead: DataNode<K, V>, dataTail: DataNode<K, V>)

  ghost predicate IsFrame<K, V>(f: Frame<K, V>) {
    && |f.heads| >= 1
    && f.tail.root == f.dataTail && f.tail.level == -1
    && f.dataHead.key.None? && f.dataTail.key.None? && f.dataHead != f.dataTail
    && (forall l :: 0 <= l < |f.heads| ==> f.heads[l].root == f.dataHead)
  }

  /** `node` stands on a node of the level below that has the same root. */
  ghost predicate StandsOn<K, V>(node: IndexNode<K, V>, lower: Level<K, V>, l: int) {
    && node.pDown.IndexBelow?
    && node.pDown.index in lower
    && node.pDown.index.level == l
    && node.pDown.index.root == node.root
  }

  /** Every node of `upper` but the tail stands on a node of `lower`. */
  ghost predicate Joined<K, V>(upper: Level<K, V>, lower: Level<K, V>, l: int) {
    forall i :: 0 <= i < |upper| - 1 ==> StandsOn(upper[i], lower, l)
  }

  /** On the bottom level the head stands on nothing and the others on their data nodes. */
  ghost predicate Grounded<K, V>(level: Level<K, V>) {
    forall i :: 0 <= i < |level| - 1 ==>
      level[i].pDown == if i == 0 then Nothing else DataBelow(level[i].root)
  }

  /** Every level is an ordered level, and each but the bottom one is a sub-list of the next. */
  ghost predicate Structure<K, V>(f: Frame<K, V>, levels: seq<Level<K, V>>) {
    && IsFrame(f)
    && |levels| == |f.heads|
    && (forall l :: 0 <= l < |levels| ==> IsLevel(f.less, levels[l], f.heads[l], f.tail, l))
    && (forall l :: 0 < l < |levels| ==> Joined(levels[l], levels[l-1], l - 1))
    && Grounded(levels[0])
  }

  /** The data nodes that a level indexes, in order. */
  ghost function Roots<K, V>(level: Level<K, V>): (r: seq<DataNode<K, V>>)
    ensures |r| == |level|
    ensures forall i :: 0 <= i < |r| ==> r[i] == level[i].root
  {
    seq(|level|, i requires 0 <= i < |level| => level[i].root)
  }

  /** What a new node for `root` needs below it to be put into level `l`. */
  ghost predicate Footing<K, V>(levels: seq<Level<K, V>>, l: nat, down: Below<K, V>, root: DataNode<K, V>)
    requires l < |levels|
  {
    if l == 0 then down == DataBelow(root)
    else down.IndexBelow? && down.index in levels[l-1] && down.index.level == l - 1 && down.index.root == root
  }

  lemma InsertKeepsMembers<T>(s: seq<T>, p: nat, x: T)
    requires p <= |s|
    ensures forall y :: y in s ==> y in InsertAt(s, p, x)
    ensures forall i :: 0 <= i < p ==> InsertAt(s, p, x)[i] == s[i]
    ensures InsertAt(s, p, x)[p] == x
    ensures forall i :: p < i <= |s| ==> InsertAt(s, p, x)[i] == s[i-1]
  {
    var r := InsertAt(s, p, x);
    forall y | y in s ensures y in r {
      var i :| 0 <= i < |s| && s[i] == y;
      assert r[if i < p then i else i + 1] == y;
    }
  }

  lemma DropKeepsOtherMembers<T>(s: seq<T>, q: nat)
    requires q < |s|
    ensures forall y :: y in s && y != s[q] ==> y in Drop(s, q)
  {
    var r := Drop(s, q);
    forall y | y in s && y != s[q] ensures y in r {
      var i :| 0 <= i < |s| && s[i] == y;
      assert r[if i < q then i else i - 1] == y;
    }
  }

  /** One level of a structure may be exchanged for another that fits between its neighbours. */
  lemma LevelFits<K, V>(f: Frame<K, V>, levels: seq<Level<K, V>>, l: nat, level: Level<K, V>)
    requires Structure(f, levels) && l < |levels|
    requires IsLevel(f.less, level, f.heads[l], f.tail, l)
    requires if l == 0 then Grounded(level) else Joined(level, levels[l-1], l - 1)
    requires l + 1 < |levels| ==> Joined(levels[l+1], level, l)
    ensures Structure(f, levels[l := level])
  {
  }

  lemma SpliceKeepsStructure<K(!new), V>(f: Frame<K, V>, levels: seq<Level<K, V>>, l: nat, p: nat,
                                         node: IndexNode<K, V>)
    requires StrictTotalOrder(f.less) && Structure(f, levels)
    requires l < |levels| && node.level == l && node.root.key.Some?
    requires Gap(f.less, levels[l], p, node.root.key.value)
    requires Footing(levels, l, node.pDown, node.root)
    ensures Structure(f, levels[l := InsertAt(levels[l], p + 1, node)])
  {
    var s := InsertAt(levels[l], p + 1, node);
    SpliceKeepsLevel(f.less, levels[l], f.heads[l], f.tail, l, p, node);
    InsertKeepsMembers(levels[l], p + 1, node);
    if l > 0 {
      assert Joined(s, levels[l-1], l - 1);
    }
    if l + 1 < |levels| {
      assert Joined(levels[l+1], levels[l], l);
      assert Joined(levels[l+1], s, l);
    }
    LevelFits(f, levels, l, s);
  }

  /** A level may lose a node that the level above does not stand on. */
  lemma DropKeepsJoined<K, V>(upper: Level<K, V>, lower: Level<K, V>, l: int, q: nat, key: K)
    requires Joined(upper, lower, l) && q < |lower| && lower[q].root.key == Some(key)
    requires Absent(upper, key) && |upper| > 0 && upper[0].root.key == None
    ensures Joined(upper, Drop(lower, q), l)
  {
    DropKeepsOtherMembers(lower, q);
    forall i | 0 <= i < |upper| - 1 ensures StandsOn(upper[i], Drop(lower, q), l) {
      assert StandsOn(upper[i], lower, l);
      assert upper[i].root.key != Some(key);
    }
  }

  lemma DropKeepsStructure<K(!new), V>(f: Frame<K, V>, levels: seq<Level<K, V>>, l: nat, q: nat, key: K)
    requires StrictTotalOrder(f.less) && Structure(f, levels)
    requires l < |levels| && 0 < q < |levels[l]| - 1 && levels[l][q].root.key == Some(key)
    requires l + 1 < |levels| ==> Absent(levels[l+1], key)
    ensures Structure(f, levels[l := Drop(levels[l], q)])
    ensures Absent(Drop(levels[l], q), key)
  {
    assert IsLevel(f.less, levels[l], f.heads[l], f.tail, l);
    DropKeepsLevel(f.less, levels[l], f.heads[l], f.tail, l, q);
    DropKeepsOtherMembers(levels[l], q);
    if l + 1 < |levels| {
      assert IsLevel(f.less, levels[l+1], f.heads[l+1], f.tail, l + 1);
      DropKeepsJoined(levels[l+1], levels[l], l, q, key);
    }
    if l == 0 {
      assert Grounded(Drop(levels[l], q));
    } else {
      assert Joined(levels[l], levels[l-1], l - 1);
      assert Joined(Drop(levels[l], q), levels[l-1], l - 1);
    }
    LevelFits(f, levels, l, Drop(levels[l], q));
  }

  /** No node occurs twice on a level. */
  lemma LevelNodesDistinct<K(!new), V>(f: Frame<K, V>, levels: seq<Level<K, V>>, l: nat, i: nat, j: nat)
    requires StrictTotalOrder(f.less) && Structure(f, levels)
    requires l < |levels| && i < j < |levels[l]|
    ensures levels[l][i] != levels[l][j]
    ensures levels[l][i].root != levels[l][j].root
  {
    var level := levels[l];
    assert IsLevel(f.less, level, f.heads[l], f.tail, l);
    if 0 < i && j < |level| - 1 {
      assert f.less(level[i].root.key.value, level[j].root.key.value);
    }
  }

  /** A node other than the tail occurs at one place only. */
  lemma OnlyPlace<K(!new), V>(f: Frame<K, V>, levels: seq<Level<K, V>>, l: nat, p: nat)
    requires StrictTotalOrder(f.less) && Structure(f, levels)
    requires l < |levels| && p < |levels[l]| - 1
    ensures forall m, i :: 0 <= m < |levels| && 0 <= i < |levels[m]| && levels[m][i] == levels[l][p] ==>
              m == l && i == p
  {
    assert IsLevel(f.less, levels[l], f.heads[l], f.tail, l);
    forall m, i | 0 <= m < |levels| && 0 <= i < |levels[m]| && levels[m][i] == levels[l][p]
      ensures m == l && i == p
    {
      assert IsLevel(f.less, levels[m], f.heads[m], f.tail, m);
      if m == l && i != p {
        LevelNodesDistinct(f, levels, l, if i < p then i else p, if i < p then p else i);
      }
    }
  }

  /** Whatever a level indexes is a data node that the bottom level indexes too. */
  lemma {:induction false} RootIsOnBottom<K, V>(f: Frame<K, V>, levels: seq<Level<K, V>>, l: nat, i: nat) returns (j: nat)
    requires Structure(f, levels)
    requires l < |levels| && 0 < i < |levels[l]| - 1
    ensures 0 < j < |levels[0]| - 1 && levels[0][j].root == levels[l][i].root
    decreases l
  {
    if l == 0 {
      j := i;
    } else {
      assert Joined(levels[l], levels[l-1], l - 1);
      assert StandsOn(levels[l][i], levels[l-1], l - 1);
      assert IsLevel(f.less, levels[l-1], f.heads[l-1], f.tail, l - 1);
      var k :| 0 <= k < |levels[l-1]| && levels[l-1][k] == levels[l][i].pDown.index;
      assert IsLevel(f.less, levels[l], f.heads[l], f.tail, l);
      j := RootIsOnBottom(f, levels, l - 1, k);
    }
  }

  /** Levels that hold only their heads, each standing on the head below, form a structure. */
  lemma EmptyStructure<K, V>(f: Frame<K, V>, levels: seq<Level<K, V>>)
    requires IsFrame(f) && |levels| == |f.heads|
    requires forall l :: 0 <= l < |levels| ==> levels[l] == [f.heads[l], f.tail] && f.heads[l].level == l
    requires f.heads[0].pDown == Nothing
    requires forall l :: 0 < l < |levels| ==> f.heads[l].pDown == IndexBelow(f.heads[l-1])
    ensures Structure(f, levels)
  {
    forall l | 0 < l < |levels| ensures Joined(levels[l], levels[l-1], l - 1) {
      assert levels[l-1][0] == f.heads[l-1] && levels[l][0] == f.heads[l];
    }
    assert Grounded(levels[0]) by {
      assert levels[0][0] == f.heads[0];
    }
  }

  /** What the two comparisons of a search step say about the node at `p` and its successor. */
  lemma SearchStep<K(!new), V>(f: Frame<K, V>, levels: seq<Level<K, V>>, l: nat, p: nat, key: K)
    requires StrictTotalOrder(f.less) && Structure(f, levels)
    requires l < |levels| && Before(f.less, levels[l], p, key)
    ensures var nxt := levels[l][p+1];
            && (nxt == f.tail <==> p + 1 == |levels[l]| - 1)
            && (nxt != f.tail ==> nxt.root.key.Some?)
            && (nxt == f.tail || f.less(key, nxt.Key()) ==>
                  Gap(f.less, levels[l], p, key) && Absent(levels[l], key))
            && (nxt != f.tail && f.less(nxt.Key(), key) ==> Before(f.less, levels[l], p + 1, key))
            && (nxt != f.tail && !f.less(key, nxt.Key()) && !f.less(nxt.Key(), key) ==> nxt.Key() == key)
  {
    assert IsLevel(f.less, levels[l], f.heads[l], f.tail, l);
    var nxt := levels[l][p+1];
    if nxt == f.tail || f.less(key, nxt.Key()) {
      GapMeansAbsent(f.less, levels[l], f.heads[l], f.tail, l, p, key);
    }
  }

  /** A search starts on the head of the top level. */
  lemma SearchStart<K, V>(f: Frame<K, V>, levels: seq<Level<K, V>>, l: int, key: K)
    requires Structure(f, levels) && l == |f.heads| - 1
    ensures |levels| == |f.heads| >= 1 && Before(f.less, levels[l], 0, key)
    ensures f.heads[l] == levels[l][0] && f.heads[l] != f.tail
  {
    assert IsLevel(f.less, levels[l], f.heads[l], f.tail, l);
  }

  /** Going down from before a key leads to before the key again. */
  lemma SearchDown<K, V>(f: Frame<K, V>, levels: seq<Level<K, V>>, l: nat, p: nat, key: K) returns (q: nat)
    requires Structure(f, levels) && 0 < l < |levels| && Before(f.less, levels[l], p, key)
    ensures Before(f.less, levels[l-1], q, key)
    ensures levels[l][p].Down() == levels[l-1][q]
    ensures levels[l-1][q].root == levels[l][p].root
    ensures levels[l-1][q] != f.tail
  {
    assert Joined(levels[l], levels[l-1], l - 1);
    assert StandsOn(levels[l][p], levels[l-1], l - 1);
    assert IsLevel(f.less, levels[l-1], f.heads[l-1], f.tail, l - 1);
    q :| 0 <= q < |levels[l-1]| && levels[l-1][q] == levels[l][p].pDown.index;
  }

  lemma RootsOfSplice<K, V>(level: Level<K, V>, p: nat, node: IndexNode<K, V>)
    requires p < |level|
    ensures Roots(InsertAt(level, p + 1, node)) == InsertAt(Roots(level), p + 1, node.root)
  {
  }

  lemma RootsOfDrop<K, V>(level: Level<K, V>, q: nat)
    requires q < |level|
    ensures Roots(Drop(level, q)) == Drop(Roots(level), q)
  {
  }

  /** The trace of a search: on every level, the last node before `key`. */
  ghost predicate IsTrace<K, V>(less: (K, K) -> bool, levels: seq<Level<K, V>>,
                                trace: seq<IndexNode<K, V>>, at: seq<nat>, key: K, from: int)
  {
    && |trace| == |at| == |levels|
    && (forall j :: 0 <= j < |levels| && from <= j ==>
          Gap(less, levels[j], at[j], key) && trace[j] == levels[j][at[j]])
  }

  lemma NoTraceYet<K, V>(less: (K, K) -> bool, levels: seq<Level<K, V>>, trace: seq<IndexNode<K, V>>,
                         at: seq<nat>, key: K)
    requires |trace| == |at| == |levels|
    ensures IsTrace(less, levels, trace, at, key, |levels|)
  {
  }

  lemma TraceGrows<K, V>(less: (K, K) -> bool, levels: seq<Level<K, V>>, trace: seq<IndexNode<K, V>>,
                         at: seq<nat>, key: K, l: nat, p: nat)
    requires IsTrace(less, levels, trace, at, key, l + 1)
    requires l < |levels| && Gap(less, levels[l], p, key)
    ensures IsTrace(less, levels, trace[l := levels[l][p]], at[l := p], key, l)
  {
  }

  /** `levels` got a tower of new nodes for one data node, as high as `tower` is long. */
  ghost predicate TowerAdded<K, V>(before: seq<Level<K, V>>, after: seq<Level<K, V>>,
                                   at: seq<nat>, tower: Level<K, V>)
  {
    && |before| == |after| == |at| && |tower| <= |before|
    && (forall j :: 0 <= j < |before| ==> at[j] < |before[j]|)
    && (forall j :: 0 <= j < |before| ==>
          after[j] == if j < |tower| then InsertAt(before[j], at[j] + 1, tower[j]) else before[j])
  }

  lemma TowerGrows<K, V>(before: seq<Level<K, V>>, now: seq<Level<K, V>>, at: seq<nat>,
                         tower: Level<K, V>, node: IndexNode<K, V>)
    requires TowerAdded(before, now, at, tower) && |tower| < |before|
    ensures var i := |tower|;
            var after := now[i := InsertAt(now[i], at[i] + 1, node)];
            TowerAdded(before, after, at, tower + [node])
  {
  }

  lemma NoTowerYet<K, V>(less: (K, K) -> bool, levels: seq<Level<K, V>>,
                         trace: seq<IndexNode<K, V>>, at: seq<nat>, key: K)
    requires IsTrace(less, levels, trace, at, key, 0)
    ensures TowerAdded(levels, levels, at, [])
  {
  }

  /** Above the tower built so far, the levels and the trace are as they were. */
  lemma TowerTop<K, V>(less: (K, K) -> bool, before: seq<Level<K, V>>, now: seq<Level<K, V>>,
                       trace: seq<IndexNode<K, V>>, at: seq<nat>, key: K, tower: Level<K, V>)
    requires IsTrace(less, before, trace, at, key, 0) && TowerAdded(before, now, at, tower)
    ensures |trace| == |at| == |before| == |now|
    ensures var i := |tower|;
            i < |trace| ==> at[i] < |now[i]| && trace[i] == now[i][at[i]] && Gap(less, now[i], at[i], key)
  {
  }

  /** The height of a tower under `max` levels: it grows until the first coin flip, from the second
      level on, that comes up tails. */
  ghost predicate IsHeight(tails: nat -> bool, height: nat, max: nat) {
    && 1 <= height <= max
    && (forall i :: 1 <= i < height ==> !tails(i))
    && (height < max ==> tails(height))
  }

  /** `after` is `before` with a tower for `key` on its lowest levels, as high as the coin flips say:
      one node each, all over the same data node; nothing else moved. */
  ghost predicate Grown<K, V>(before: seq<Level<K, V>>, after: seq<Level<K, V>>, key: K, tails: nat -> bool) {
    exists at: seq<nat>, height: nat ::
      GrownAt(before, after, key, at, height) && IsHeight(tails, height, |before|)
  }

  ghost predicate GrownAt<K, V>(before: seq<Level<K, V>>, after: seq<Level<K, V>>, key: K,
                                at: seq<nat>, height: nat)
  {
    && |before| == |after| == |at| && 1 <= height <= |before|
    && (forall j :: 0 <= j < |before| ==> at[j] < |before[j]|)
    && (forall j :: 0 <= j < height ==>
          && |after[j]| == |before[j]| + 1
          && after[j] == InsertAt(before[j], at[j] + 1, after[j][at[j]+1])
          && |after[0]| > at[0] + 1 && after[j][at[j]+1].root == after[0][at[0]+1].root
          && after[j][at[j]+1].root.key == Some(key))
    && (forall j :: height <= j < |before| ==> after[j] == before[j])
  }

  lemma TowerIsGrown<K, V>(before: seq<Level<K, V>>, after: seq<Level<K, V>>, at: seq<nat>,
                           tower: Level<K, V>, key: K, tails: nat -> bool)
    requires IsHeight(tails, |tower|, |before|) && TowerAdded(before, after, at, tower)
    requires forall j :: 0 <= j < |tower| ==> tower[j].root == tower[0].root && tower[j].root.key == Some(key)
    ensures Grown(before, after, key, tails)
  {
    forall j | 0 <= j < |tower| ensures after[j][at[j]+1] == tower[j] {
      InsertKeepsMembers(before[j], at[j] + 1, tower[j]);
    }
    assert GrownAt(before, after, key, at, |tower|);
  }

  /** Going down inside a tower keeps its root. */
  lemma TowerDown<K, V>(f: Frame<K, V>, levels: seq<Level<K, V>>, l: nat, q: nat) returns (r: nat)
    requires Structure(f, levels) && 0 < l < |levels| && 0 < q < |levels[l]| - 1
    ensures 0 < r < |levels[l-1]| - 1 && levels[l-1][r] == levels[l][q].Down()
    ensures levels[l-1][r].root == levels[l][q].root
  {
    assert Joined(levels[l], levels[l-1], l - 1);
    assert StandsOn(levels[l][q], levels[l-1], l - 1);
    assert IsLevel(f.less, levels[l], f.heads[l], f.tail, l);
    assert IsLevel(f.less, levels[l-1], f.heads[l-1], f.tail, l - 1);
    r :| 0 <= r < |levels[l-1]| && levels[l-1][r] == levels[l][q].pDown.index;
  }

  /** Under the bottom level there is no index node to go down to. */
  lemma BottomDown<K, V>(f: Frame<K, V>, levels: seq<Level<K, V>>, q: nat)
    requires Structure(f, levels) && q < |levels[0]| - 1
    ensures levels[0][q].Down() == null
  {
    assert Grounded(levels[0]);
  }

  lemma BeforeIsLeft<K(!new), V>(f: Frame<K, V>, levels: seq<Level<K, V>>, l: nat, p: nat, q: nat, key: K)
    requires StrictTotalOrder(f.less) && Structure(f, levels) && l < |levels|
    requires Before(f.less, levels[l], p, key) && 0 < q < |levels[l]| - 1
    requires levels[l][q].root.key == Some(key)
    ensures p < q
  {
    assert IsLevel(f.less, levels[l], f.heads[l], f.tail, l);
  }

  /** `after` is the level `before` without its node of `key`, if it had one. */
  ghost predicate LevelWithout<K, V>(before: Level<K, V>, after: Level<K, V>, key: K) {
    if Absent(before, key) then after == before
    else exists q :: 0 < q < |before| - 1 && before[q].root.key == Some(key) && after == Drop(before, q)
  }

  /** Every level lost its node of `key`, if it had one, and nothing else. */
  ghost predicate Shrunk<K, V>(before: seq<Level<K, V>>, after: seq<Level<K, V>>, key: K) {
    |after| == |before| && forall l :: 0 <= l < |before| ==> LevelWithout(before[l], after[l], key)
  }

  /** The predecessor of a key's node lies before the key, also once the node is gone. */
  lemma PredecessorIsBefore<K(!new), V>(f: Frame<K, V>, levels: seq<Level<K, V>>, l: nat, q: nat, key: K)
    requires StrictTotalOrder(f.less) && Structure(f, levels)
    requires l < |levels| && 0 < q < |levels[l]| - 1 && levels[l][q].root.key == Some(key)
    ensures Before(f.less, levels[l], q - 1, key) && Before(f.less, Drop(levels[l], q), q - 1, key)
    ensures Drop(levels[l], q)[q-1] == levels[l][q-1]
    ensures LevelWithout(levels[l], Drop(levels[l], q), key)
  {
    assert IsLevel(f.less, levels[l], f.heads[l], f.tail, l);
  }

  lemma NothingShrunk<K, V>(levels: seq<Level<K, V>>, key: K)
    requires forall j :: 0 <= j < |levels| ==> Absent(levels[j], key)
    ensures Shrunk(levels, levels, key)
  {
  }
}
