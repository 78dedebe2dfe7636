/** Compaction in the defragmenting allocator (hw01/allocator.cpp). Memory is an array of words;
    the first word of a block holds the number of its MetaInfo, which knows where the block is. */
module Defrag {
  /** Bytes in a word (`sizeof(void*)`), and the bit of a size that marks an occupied block. */
  const WORD: nat := 8
  const SIGN: nat := 0x8000_0000_0000_0000

  /** A 64-bit size word. */
  type Size = x: nat | x < 2 * SIGN

  /** The record of one block: its place in bytes, and its size in words with the occupied bit. */
  class MetaInfo {
    var next: MetaInfo?
    var prev: MetaInfo?
    var offs: nat
    var size: Size

    predicate IsOccupied()
      reads this`size
    {
      size >= SIGN
    }

    /** The record may not be given to another block. */
    predicate IsUsed()
      reads this`size, this`next, this`prev
    {
      IsOccupied() || next != null || prev != null
    }

    function GetSize(): (r: nat)
      reads this`size
    {
      size % SIGN
    }

    method SetOccupied(occ: bool)
      modifies this`size
      ensures IsOccupied() == occ && GetSize() == old(GetSize())
      ensures occ <==> size >= 0x8000_0000_0000_0000
    {
      if occ {
        size := if size >= SIGN then size else size + SIGN;
      } else {
        size := size % SIGN;
      }
    }

    method SetSize(sz: Size)
      modifies this`size
      ensures GetSize() == sz % 0x8000_0000_0000_0000 && IsOccupied() == old(IsOccupied())
    {
      var occ := IsOccupied();
      size := sz;
      SetOccupied(occ);
    }
  }

  /** The blocks of a heap in memory order: their MetaInfo numbers, sizes and occupied bits. */
  datatype Layout = Layout(blocks: seq<nat>, sizes: seq<nat>, occupied: seq<bool>) {
    predicate Fits() {
      && |blocks| == |sizes| == |occupied|
      && (forall k :: 0 <= k < |sizes| ==> 1 <= sizes[k] < SIGN)
      && (forall j, k :: 0 <= j < k < |blocks| ==> blocks[j] != blocks[k])
    }

    /** Where block `k` begins. */
    function Start(k: nat): (r: nat)
      requires k <= |sizes|
    {
      if k == 0 then 0 else Start(k - 1) + sizes[k-1]
    }

    /** Where block `k` begins once only occupied blocks stand before it. */
    function Packed(k: nat): (r: nat)
      requires k <= |sizes| == |occupied|
    {
      if k == 0 then 0 else Packed(k - 1) + if occupied[k-1] then sizes[k-1] else 0
    }

    /** The occupied ones of the first `k` blocks, in order. */
    function Kept(k: nat): (r: Layout)
      requires k <= |blocks| == |sizes| == |occupied|
    {
      if k == 0 then Layout([], [], [])
      else
        var l := Kept(k - 1);
        if occupied[k-1] then Layout(l.blocks + [blocks[k-1]], l.sizes + [sizes[k-1]], l.occupied + [true]) else l
    }

    /** The words of the occupied ones of the first `k` blocks, in order. */
    function Words(mem: seq<int>, k: nat): (r: seq<int>)
      requires k <= |sizes| == |occupied| && Start(k) <= |mem|
    {
      if k == 0 then []
      else
        assert Start(k - 1) <= Start(k);
        if occupied[k-1] then Words(mem, k - 1) + mem[Start(k-1)..Start(k)] else Words(mem, k - 1)
    }
  }

  lemma {:induction false} StartGrows(l: Layout, j: nat, k: nat)
    requires l.Fits() && j <= k <= |l.sizes|
    ensures l.Start(j) + (k - j) <= l.Start(k)
    decreases k
  {
    if j < k {
      StartGrows(l, j, k - 1);
    }
  }

  /** A block never moves right, and it moves left exactly if a free block stands before it. */
  lemma {:induction false} PackedIsLeft(l: Layout, k: nat)
    requires l.Fits() && k <= |l.sizes|
    ensures l.Packed(k) <= l.Start(k)
    ensures l.Packed(k) < l.Start(k) <==> exists j :: 0 <= j < k && !l.occupied[j]
  {
    if k > 0 {
      PackedIsLeft(l, k - 1);
    }
  }

  lemma {:induction false} PackedGrows(l: Layout, j: nat, k: nat)
    requires l.Fits() && j < k <= |l.sizes|
    ensures l.Packed(j) + (if l.occupied[j] then l.sizes[j] else 0) <= l.Packed(k)
    decreases k
  {
    if j < k - 1 {
      PackedGrows(l, j, k - 1);
    }
  }

  lemma {:induction false} WordsLength(l: Layout, mem: seq<int>, k: nat)
    requires l.Fits() && k <= |l.sizes| && l.Start(k) <= |mem|
    ensures |l.Words(mem, k)| == l.Packed(k)
  {
    if k > 0 {
      WordsLength(l, mem, k - 1);
    }
  }

  /** The packed words hold every occupied block, unchanged, at its packed place. */
  lemma {:induction false} WordsHold(l: Layout, mem: seq<int>, j: nat, k: nat)
    requires l.Fits() && j < k <= |l.sizes| && l.Start(k) <= |mem| && l.occupied[j]
    ensures l.Packed(j) + l.sizes[j] <= l.Packed(k) == |l.Words(mem, k)|
    ensures l.Start(j) + l.sizes[j] <= |mem|
    ensures l.Words(mem, k)[l.Packed(j)..l.Packed(j)+l.sizes[j]] == mem[l.Start(j)..l.Start(j)+l.sizes[j]]
    decreases k
  {
    hide Layout.Words, Layout.Start, Layout.Packed, Layout.Fits;
    NextStart(l, j);
    NextStart(l, k - 1);
    StartGrows(l, j + 1, k);
    PackedGrows(l, j, k);
    WordsLength(l, mem, k);
    WordsLength(l, mem, k - 1);
    NextWords(l, mem, k - 1);
    if j < k - 1 {
      WordsHold(l, mem, j, k - 1);
      if l.occupied[k-1] {
        SliceOfFront(l.Words(mem, k - 1), mem[l.Start(k-1)..l.Start(k)], l.Packed(j), l.sizes[j]);
      }
    } else {
      SliceOfBack(l.Words(mem, k - 1), mem[l.Start(k-1)..l.Start(k)]);
    }
  }

  lemma SliceOfFront(s: seq<int>, t: seq<int>, i: nat, n: nat)
    requires i + n <= |s|
    ensures (s + t)[i..i+n] == s[i..i+n]
  {
  }

  lemma SliceOfBack(s: seq<int>, t: seq<int>)
    ensures (s + t)[|s|..|s|+|t|] == t
  {
  }

  lemma NextStart(l: Layout, k: nat)
    requires l.Fits() && k < |l.sizes|
    ensures l.Start(k + 1) == l.Start(k) + l.sizes[k]
    ensures l.Packed(k + 1) == l.Packed(k) + if l.occupied[k] then l.sizes[k] else 0
    ensures |l.sizes| == |l.occupied| && l.sizes[k] >= 1
  {
  }

  /** A memory in which `words` words from `from` have been copied down to `to`. */
  function Shifted(m: seq<int>, to: nat, from: nat, words: nat): (r: seq<int>)
    requires to <= from && from + words <= |m|
    ensures |r| == |m|
  {
    m[..to] + m[from..from+words] + m[to+words..]
  }

  /** What moving block `k` left adds: the next packed words, and nothing disturbed to its right. */
  lemma MoveAdds(l: Layout, was: seq<int>, now: seq<int>, after: seq<int>, k: nat)
    requires l.Fits() && k < |l.sizes| && l.Start(k) + l.sizes[k] <= |was| == |now|
    requires l.Packed(k) <= l.Start(k)
    requires now[..l.Packed(k)] == l.Words(was, k) && now[l.Start(k)..] == was[l.Start(k)..]
    requires after == if l.occupied[k] then Shifted(now, l.Packed(k), l.Start(k), l.sizes[k]) else now
    ensures |after| == |was| && l.Packed(k + 1) <= l.Start(k + 1) <= |was|
    ensures l.Start(k + 1) == l.Start(k) + l.sizes[k] && now[l.Start(k)] == was[l.Start(k)]
    ensures l.Packed(k + 1) == l.Packed(k) + if l.occupied[k] then l.sizes[k] else 0
    ensures after[..l.Packed(k + 1)] == l.Words(was, k + 1)
    ensures after[l.Start(k + 1)..] == was[l.Start(k + 1)..]
    ensures l.occupied[k] ==> after[l.Packed(k)] == was[l.Start(k)]
  {
    hide Layout.Start, Layout.Packed, Layout.Words, Layout.Fits, Shifted;
    NextStart(l, k);
    NextWords(l, was, k);
    SuffixAgrees(now, was, l.Start(k), l.sizes[k]);
    if l.occupied[k] {
      Packs(now, was, l.Words(was, k), l.Packed(k), l.Start(k), l.sizes[k]);
    }
  }

  /** Copying a block down behind the words packed so far. */
  lemma Packs(now: seq<int>, was: seq<int>, packed: seq<int>, to: nat, from: nat, words: nat)
    requires to <= from && from + words <= |now| == |was| && words >= 1
    requires now[..to] == packed && now[from..] == was[from..]
    ensures Shifted(now, to, from, words)[..to+words] == packed + was[from..from+words]
    ensures Shifted(now, to, from, words)[from+words..] == was[from+words..]
    ensures Shifted(now, to, from, words)[to] == was[from]
  {
    hide Shifted;
    ShiftedParts(now, to, from, words);
    SuffixAgrees(now, was, from, words);
  }

  lemma RestWords(meta: nat, to: nat)
    requires to % WORD == 0 && to / WORD <= meta / WORD
    ensures meta - to >= 0 && (meta - to) / WORD == meta / WORD - to / WORD
  {
  }

  lemma NextWords(l: Layout, was: seq<int>, k: nat)
    requires l.Fits() && k < |l.sizes| && l.Start(k) + l.sizes[k] <= |was|
    ensures l.Start(k + 1) == l.Start(k) + l.sizes[k]
    ensures l.Words(was, k + 1) ==
            if l.occupied[k] then l.Words(was, k) + was[l.Start(k)..l.Start(k)+l.sizes[k]] else l.Words(was, k)
  {
  }

  /** Memories that agree from `p` on. */
  lemma SuffixAgrees(s: seq<int>, t: seq<int>, p: nat, n: nat)
    requires |s| == |t| && p + n <= |s| && n >= 1 && s[p..] == t[p..]
    ensures s[p] == t[p] && s[p..p+n] == t[p..p+n] && s[p+n..] == t[p+n..]
  {
    assert s[p] == s[p..][0] && t[p] == t[p..][0];
    assert s[p..p+n] == s[p..][..n] && t[p..p+n] == t[p..][..n];
    assert s[p+n..] == s[p..][n..] && t[p+n..] == t[p..][n..];
  }

  lemma ShiftedParts(m: seq<int>, to: nat, from: nat, words: nat)
    requires to <= from && from + words <= |m| && words >= 1
    ensures Shifted(m, to, from, words)[..to+words] == m[..to] + m[from..from+words]
    ensures Shifted(m, to, from, words)[from+words..] == m[from+words..]
    ensures Shifted(m, to, from, words)[to] == m[from]
  {
    var r := Shifted(m, to, from, words);
    assert r == (m[..to] + m[from..from+words]) + m[to+words..];
    assert forall i :: from + words <= i < |m| ==> r[i] == m[i];
  }

  lemma IsShifted(m: seq<int>, r: seq<int>, to: nat, from: nat, words: nat)
    requires to <= from && from + words <= |m| == |r|
    requires forall i :: to <= i < to + words ==> r[i] == m[from + (i - to)]
    requires forall i :: 0 <= i < to || to + words <= i < |m| ==> r[i] == m[i]
    ensures r == Shifted(m, to, from, words)
  {
    forall i | 0 <= i < |m| ensures r[i] == Shifted(m, to, from, words)[i] {
      if to <= i < to + words {
        assert m[from..from+words][i - to] == m[from + (i - to)];
      }
    }
  }

  lemma ShiftedFirst(m: seq<int>, to: nat, from: nat, words: nat)
    requires to <= from && from + words <= |m| && words >= 1
    ensures Shifted(m, to, from, words)[to] == m[from]
  {
  }

  lemma Rewritten(m: seq<int>, i: nat)
    requires i < |m|
    ensures m[i := m[i]] == m
  {
  }

  lemma Slices(a: array<int>, i: nat, j: nat)
    requires i <= a.Length && j <= a.Length
    ensures a[..i] == a[..][..i] && a[j..] == a[..][j..]
  {
  }

  /** Each kept block is one of the occupied blocks, as long as it was, at its packed place. */
  lemma {:induction false} KeptFrom(l: Layout, n: nat, r: nat) returns (j: nat)
    requires l.Fits() && n <= |l.sizes| && r < |l.Kept(n).blocks|
    ensures |l.Kept(n).blocks| == |l.Kept(n).sizes| == |l.Kept(n).occupied|
    ensures r <= j < n && l.occupied[j]
    ensures l.Kept(n).blocks[r] == l.blocks[j] && l.Kept(n).sizes[r] == l.sizes[j] && l.Kept(n).occupied[r]
    ensures l.Kept(n).Start(r) == l.Packed(j)
  {
    KeptLengths(l, n);
    KeptLengths(l, n - 1);
    if r < |l.Kept(n - 1).blocks| {
      j := KeptFrom(l, n - 1, r);
      StartPrefix(l.Kept(n - 1), l.Kept(n), r);
    } else {
      j := n - 1;
      StartPrefix(l.Kept(n - 1), l.Kept(n), r);
    }
  }

  lemma {:induction false} KeptLengths(l: Layout, n: nat)
    requires l.Fits() && n <= |l.sizes|
    ensures |l.Kept(n).blocks| == |l.Kept(n).sizes| == |l.Kept(n).occupied| <= n
    ensures l.Kept(n).Start(|l.Kept(n).sizes|) == l.Packed(n)
  {
    if n > 0 {
      KeptLengths(l, n - 1);
      StartPrefix(l.Kept(n - 1), l.Kept(n), |l.Kept(n - 1).sizes|);
    }
  }

  lemma {:induction false} StartPrefix(a: Layout, b: Layout, k: nat)
    requires k <= |a.sizes| && a.sizes <= b.sizes
    ensures a.Start(k) == b.Start(k)
  {
    if k > 0 {
      StartPrefix(a, b, k - 1);
    }
  }

  /** The kept blocks are exactly the occupied ones. */
  lemma {:induction false} KeptAreTheOccupied(l: Layout, n: nat, b: nat)
    requires l.Fits() && n <= |l.sizes|
    ensures b in l.Kept(n).blocks <==> exists j :: 0 <= j < n && l.occupied[j] && l.blocks[j] == b
  {
    if n > 0 {
      KeptAreTheOccupied(l, n - 1, b);
      if l.occupied[n - 1] && b == l.blocks[n - 1] {
        assert l.Kept(n).blocks[|l.Kept(n - 1).blocks|] == b;
      }
    }
  }

  lemma {:induction false} KeptFits(l: Layout, n: nat)
    requires l.Fits() && n <= |l.sizes|
    ensures l.Kept(n).Fits()
  {
    KeptLengths(l, n);
    if n > 0 {
      KeptFits(l, n - 1);
      if l.occupied[n - 1] {
        KeptAreTheOccupied(l, n - 1, l.blocks[n - 1]);
        assert l.blocks[n - 1] !in l.Kept(n - 1).blocks;
      }
    }
  }

  /** Each block's first word names its record, and block 0 is free. */
  ghost predicate Named(l: Layout, m: seq<int>)
    requires l.Fits()
  {
    && (forall k :: 0 <= k < |l.blocks| ==> l.Start(k) < |m| && m[l.Start(k)] == l.blocks[k])
    && (forall k :: 0 <= k < |l.blocks| && l.blocks[k] == 0 ==> !l.occupied[k])
  }

  /** The loop goes on exactly while there are blocks left, and each turn finds a block's first word. */
  lemma TurnStarts(l: Layout, was: seq<int>, k: nat, p: nat, lim: nat)
    requires l.Fits() && Named(l, was) && k <= |l.sizes|
    requires p == WORD * l.Start(k) && lim == WORD * l.Start(|l.sizes|)
    ensures p < lim <==> k < |l.sizes|
    ensures k < |l.sizes| ==> l.Start(k) < |was| && was[l.Start(k)] == l.blocks[k]
    ensures k < |l.sizes| ==> p < WORD * l.Start(k + 1)
  {
    hide Layout.Start;
    StartGrows(l, k, |l.sizes|);
    if k < |l.sizes| {
      NextStart(l, k);
    }
  }

  /** Packing leaves a word exactly if some block is free or the blocks do not reach the end. */
  lemma RoomIfFree(l: Layout, m: seq<int>)
    requires l.Fits() && Named(l, m) && l.Start(|l.sizes|) <= |m|
    ensures l.Packed(|l.sizes|) <= |m|
    ensures l.Packed(|l.sizes|) == |m| <==>
              l.Start(|l.sizes|) == |m| && forall j :: 0 <= j < |l.blocks| ==> l.occupied[j]
    ensures 0 in l.blocks ==> l.Packed(|l.sizes|) < |m|
  {
    hide Layout.Start, Layout.Packed;
    PackedIsLeft(l, |l.sizes|);
  }

  /** One occupied block over all words: there is no word for the header of block 0. */
  lemma FullHeapHasNoRoom()
    ensures var l := Layout([1], [4], [true]);
      && l.Fits() && Named(l, [1, 7, 7, 7]) && l.Start(1) == 4 && l.Packed(1) == |[1, 7, 7, 7]|
  {
    var l := Layout([1], [4], [true]);
    assert l.Start(0) == 0 && l.Packed(0) == 0;
  }

  /** Block `j` without its first word. */
  ghost function Slice(l: Layout, m: seq<int>, j: nat): (r: seq<int>)
    requires j < |l.sizes| && l.Fits() && l.Start(|l.sizes|) <= |m|
  {
    StartGrows(l, j + 1, |l.sizes|);
    m[l.Start(j)+1..l.Start(j)+l.sizes[j]]
  }

  /** A memory that begins with the packed words holds every occupied block at its packed place. */
  lemma SliceSurvives(l: Layout, was: seq<int>, now: seq<int>, j: nat)
    requires l.Fits() && j < |l.sizes| && l.occupied[j] && l.Start(|l.sizes|) <= |was|
    requires l.Packed(|l.sizes|) <= |now| && now[..l.Packed(|l.sizes|)] == l.Words(was, |l.sizes|)
    ensures l.Start(j) + l.sizes[j] <= |was| && l.Packed(j) + l.sizes[j] <= |now|
    ensures now[l.Packed(j)] == was[l.Start(j)]
    ensures now[l.Packed(j)+1..l.Packed(j)+l.sizes[j]] == Slice(l, was, j)
  {
    hide Layout.Start, Layout.Packed, Layout.Words;
    var n, to, from, sz := |l.sizes|, l.Packed(j), l.Start(j), l.sizes[j];
    WordsHold(l, was, j, n);
    assert now[..l.Packed(n)][to..to+sz] == now[to..to+sz] == was[from..from+sz];
    assert now[to+1..to+sz] == now[to..to+sz][1..] && was[from+1..from+sz] == was[from..from+sz][1..];
    assert now[to] == now[to..to+sz][0] && was[from] == was[from..from+sz][0];
  }

  /** The layout compaction leaves: the occupied blocks, then block 0 up to the records, if that leaves
      it a word. */
  ghost function Compacted(l: Layout, words: nat): (r: Layout)
    requires l.Fits() && l.Packed(|l.sizes|) <= words
  {
    var kept := l.Kept(|l.sizes|);
    if l.Packed(|l.sizes|) == words then kept
    else Layout(kept.blocks + [0], kept.sizes + [words - l.Packed(|l.sizes|)], kept.occupied + [false])
  }

  /** Block `r` of the compacted layout is the rest, or an occupied block at its packed place. */
  lemma CompactedAt(l: Layout, words: nat, r: nat) returns (j: nat)
    requires l.Fits() && l.Packed(|l.sizes|) <= words && r < |Compacted(l, words).blocks|
    ensures var c := Compacted(l, words);
      && |c.blocks| == |c.sizes| == |c.occupied|
      && r <= j <= |l.sizes|
      && (j < |l.sizes| ==> l.occupied[j] && c.blocks[r] == l.blocks[j] && c.sizes[r] == l.sizes[j] && c.occupied[r])
      && (j == |l.sizes| ==>
            && r == |c.blocks| - 1 && c.blocks[r] == 0 && !c.occupied[r]
            && c.sizes[r] == words - l.Packed(j) > 0)
      && (r < |c.blocks| - 1 || l.Packed(|l.sizes|) == words ==> j < |l.sizes|)
      && c.Start(r) == l.Packed(j)
  {
    var n, c := |l.sizes|, Compacted(l, words);
    KeptLengths(l, n);
    StartPrefix(l.Kept(n), c, r);
    if r < |l.Kept(n).blocks| {
      j := KeptFrom(l, n, r);
    } else {
      j := n;
    }
  }

  /** The compacted layout reaches up to the records. */
  lemma CompactedEnds(l: Layout, words: nat)
    requires l.Fits() && l.Packed(|l.sizes|) <= words
    ensures Compacted(l, words).Start(|Compacted(l, words).sizes|) == words
  {
    var n, c := |l.sizes|, Compacted(l, words);
    KeptLengths(l, n);
    StartPrefix(l.Kept(n), c, |l.Kept(n).sizes|);
  }

  lemma CompactedFits(l: Layout, words: nat)
    requires l.Fits() && l.Packed(|l.sizes|) <= words < SIGN
    requires forall k :: 0 <= k < |l.blocks| && l.blocks[k] == 0 ==> !l.occupied[k]
    ensures Compacted(l, words).Fits()
  {
    KeptFits(l, |l.sizes|);
    KeptAreTheOccupied(l, |l.sizes|, 0);
  }

  lemma {:induction false} OccupiedAreKept(l: Layout, k: nat)
    requires l.Fits() && k <= |l.sizes| && forall j :: 0 <= j < k ==> l.occupied[j]
    ensures l.Kept(k) == Layout(l.blocks[..k], l.sizes[..k], l.occupied[..k]) && l.Packed(k) == l.Start(k)
  {
    if k > 0 {
      OccupiedAreKept(l, k - 1);
    }
  }

  lemma KeptButTheRest(l: Layout, k: nat)
    requires l.Fits() && k < |l.sizes| && !l.occupied[k]
    ensures l.Kept(k + 1) == l.Kept(k) && l.Packed(k + 1) == l.Packed(k)
  {
  }

  /** Compacting a compacted heap changes nothing. */
  lemma CompactedTwice(l: Layout, words: nat)
    requires l.Fits() && l.Packed(|l.sizes|) <= words < SIGN
    requires forall k :: 0 <= k < |l.blocks| && l.blocks[k] == 0 ==> !l.occupied[k]
    ensures var c := Compacted(l, words);
      c.Fits() && c.Packed(|c.sizes|) == l.Packed(|l.sizes|) && Compacted(c, words) == c
  {
    hide Layout.Kept, Layout.Packed, Layout.Start;
    var c := Compacted(l, words);
    CompactedFits(l, words);
    CompactedEnds(l, words);
    var m := if l.Packed(|l.sizes|) == words then |c.sizes| else |c.sizes| - 1;
    forall r | 0 <= r < m ensures c.occupied[r] {
      var _ := CompactedAt(l, words, r);
    }
    OccupiedAreKept(c, m);
    if l.Packed(|l.sizes|) < words {
      var j := CompactedAt(l, words, m);
      KeptButTheRest(c, m);
    }
  }

  /** `Allocator`: the words before the records, the records by number, and the free list's head. */
  class Allocator {
    const mem: array<int>
    const slots: seq<MetaInfo>
    const head: MetaInfo
    /** The byte address of the last record, counted from the start of the buffer. */
    const meta: nat

    constructor (mem: array<int>, slots: seq<MetaInfo>, head: MetaInfo, meta: nat)
      ensures this.mem == mem && this.slots == slots && this.head == head && this.meta == meta
    {
      this.mem, this.slots, this.head, this.meta := mem, slots, head, meta;
    }

    ghost function Records(): (r: set<MetaInfo>) {
      (set m | m in slots) + {head}
    }

    /** Records are distinct, free-list links lead to records, and the words end where the records begin. */
    ghost predicate Framed()
      reads slots`next, slots`prev, head`next, head`prev
    {
      && |slots| > 0
      && (forall i, j :: 0 <= i < j < |slots| ==> slots[i] != slots[j])
      && head !in slots
      && mem.Length == meta / WORD && mem.Length < SIGN
      && (forall m: MetaInfo :: m in Records() && m.next != null ==> m.next in Records())
      && (forall m: MetaInfo :: m in Records() && m.prev != null ==> m.prev in Records())
    }

    /** Whoever names a predecessor is its successor. */
    ghost predicate Mutual()
      reads slots`next, slots`prev, head`next, head`prev
      requires Framed()
    {
      forall m: MetaInfo :: m in Records() && m.prev != null ==> m.prev.next == m
    }

    ghost predicate Loose(m: MetaInfo)
      reads m`next, m`prev
    {
      m.next == null && m.prev == null
    }

    /** The records of the blocks hold their sizes and occupied bits. */
    ghost predicate Sized(l: Layout)
      reads slots`size
    {
      && l.Fits()
      && (forall k :: 0 <= k < |l.blocks| ==> l.blocks[k] < |slots|)
      && (forall k :: 0 <= k < |l.blocks| ==> slots[l.blocks[k]].size == l.sizes[k] + if l.occupied[k] then SIGN else 0)
    }

    /** Block `j` is where compaction puts it once it has passed the first `k` blocks. */
    ghost predicate Placed(l: Layout, j: nat, k: nat)
      requires j < |l.blocks| == |l.sizes| == |l.occupied| && l.blocks[j] < |slots|
      reads slots`offs
    {
      slots[l.blocks[j]].offs == WORD * if j < k && l.occupied[j] then l.Packed(j) else l.Start(j)
    }

    /** The blocks tile the words up to the end of block 0, which is free, and each names its record. */
    ghost predicate Tiled(l: Layout)
      reads mem, slots`offs, slots`size
    {
      && Sized(l) && |slots| > 0
      && l.Start(|l.sizes|) <= mem.Length
      && slots[0].offs + WORD * slots[0].GetSize() == WORD * l.Start(|l.sizes|)
      && (forall k :: 0 <= k < |l.blocks| ==> Placed(l, k, 0))
      && Named(l, mem[..])
    }

    /** What holds after the first `k` blocks: they are packed, and nothing else has moved. */
    ghost predicate Passed(l: Layout, was: seq<int>, k: nat)
      requires Sized(l) && k <= |l.sizes| && l.Start(|l.sizes|) <= |was| == mem.Length
      reads mem, slots`offs, slots`size
    {
      StartGrows(l, k, |l.sizes|);
      PackedIsLeft(l, k);
      && mem[..l.Packed(k)] == l.Words(was, k)
      && mem[l.Start(k)..] == was[l.Start(k)..]
      && forall j :: 0 <= j < |l.sizes| ==> Placed(l, j, k)
    }

    /** `unlinkFree`: takes a record out of the free list; only links change. */
    method UnlinkFree(info: MetaInfo)
      requires Framed() && info in Records()
      modifies slots`next, slots`prev, head`next, head`prev
      ensures Framed()
      ensures info.next == null && info.prev == null
      ensures forall m: MetaInfo :: m in Records() && m != info ==>
        m.next == if m == old(info.prev) then old(info.next) else old(m.next)
      ensures forall m: MetaInfo :: m in Records() && m != info ==>
        m.prev == if m == old(info.next) then null else old(m.prev)
      ensures old(Mutual()) ==> Mutual() && forall m: MetaInfo :: m in Records() && old(Loose(m)) ==> Loose(m)
    {
      if info.prev != null {
        info.prev.next := info.next;
        info.prev := null;
      }
      if info.next != null {
        info.next.prev := info.prev;
        info.next := null;
      }
    }

    /** `memmove`: all words are read before any is written. */
    method MemMove(to: nat, from: nat, words: nat)
      requires to <= from && from + words <= mem.Length
      modifies mem
      ensures mem[..] == Shifted(old(mem[..]), to, from, words)
    {
      hide Shifted;
      ghost var was := mem[..];
      forall k | to <= k < to + words {
        mem[k] := mem[from + (k - to)];
      }
      IsShifted(was, mem[..], to, from, words);
    }

    lemma Distinct(i: nat, j: nat)
      requires Framed() && i < |slots| && j < |slots|
      ensures slots[i] == slots[j] <==> i == j
    {
    }

    /** Moves a block of `words` words to the left: its first word names the record, which follows. */
    method MoveLeft(hd: MetaInfo, name: nat, to: nat, p: nat, words: nat)
      requires to % WORD == p % WORD == 0 && to <= p && p / WORD + words <= mem.Length && words >= 1
      requires mem[p / WORD] == name
      modifies mem, hd`offs
      ensures mem[..] == Shifted(old(mem[..]), to / WORD, p / WORD, words)
      ensures hd.offs == to
    {
      hide Shifted;
      ShiftedFirst(mem[..], to / WORD, p / WORD, words);
      MemMove(to / WORD, p / WORD, words);
      assert mem[..][to / WORD] == name;
      Rewritten(mem[..], to / WORD);
      mem[to / WORD] := name;
      hd.offs := to;
    }

    /** Moves the block found at byte `p` to byte `to`, or takes it out of the free list. */
    method MoveBlock(p: nat, to: nat, ghost name: nat, ghost words: nat, ghost occupied: bool) returns (sz: nat, gain: nat)
      requires Framed() && to % WORD == p % WORD == 0 && to <= p
      requires 1 <= words < SIGN && p / WORD + words <= mem.Length && mem[p / WORD] == name < |slots|
      requires slots[name].size == words + if occupied then SIGN else 0
      modifies mem, slots`next, slots`prev, slots`offs, head`next, head`prev
      ensures Framed()
      ensures sz == words && gain == if occupied then WORD * words else 0
      ensures mem[..] == if occupied then Shifted(old(mem[..]), to / WORD, p / WORD, words) else old(mem[..])
      ensures slots[name].offs == if occupied then to else old(slots[name].offs)
      ensures forall m: MetaInfo :: m in slots && m != slots[name] ==> m.offs == old(m.offs)
      ensures occupied ==> forall m: MetaInfo :: m in Records() ==> m.next == old(m.next) && m.prev == old(m.prev)
      ensures var hd := slots[name];
        !occupied ==>
          && hd.next == null && hd.prev == null
          && (forall m: MetaInfo :: m in Records() && m != hd ==>
                m.next == if m == old(hd.prev) then old(hd.next) else old(m.next))
          && (forall m: MetaInfo :: m in Records() && m != hd ==>
                m.prev == if m == old(hd.next) then null else old(m.prev))
      ensures old(Mutual()) ==> Mutual() && forall m: MetaInfo :: m in Records() && old(Loose(m)) ==> Loose(m)
    {
      hide Framed, Shifted;
      var first := mem[p / WORD];
      var hd := slots[first];
      sz := hd.GetSize();
      if hd.IsOccupied() {
        MoveLeft(hd, first, to, p, sz);
        gain := WORD * sz;
      } else {
        UnlinkFree(hd);
        gain := 0;
      }
    }

    /** One turn of the loop of `defrag`: the first `k + 1` blocks have been passed. */
    method Pass(ghost l: Layout, ghost was: seq<int>, ghost k: nat, p: nat, to: nat) returns (sz: nat, gain: nat)
      requires Framed() && Sized(l) && k < |l.sizes| && l.Start(|l.sizes|) <= |was| == mem.Length
      requires p == WORD * l.Start(k) && to == WORD * l.Packed(k)
      requires l.Start(k) < |was| && was[l.Start(k)] == l.blocks[k]
      requires Passed(l, was, k)
      modifies mem, slots`next, slots`prev, slots`offs, head`next, head`prev
      ensures Framed()
      ensures WORD * sz == WORD * l.Start(k + 1) - p && gain == WORD * l.Packed(k + 1) - to
      ensures Passed(l, was, k + 1)
      ensures !l.occupied[k] ==> Loose(slots[l.blocks[k]])
      ensures old(Mutual()) ==> Mutual() && forall m: MetaInfo :: m in Records() && old(Loose(m)) ==> Loose(m)
      ensures forall b :: 0 <= b < |slots| && b !in l.blocks ==> slots[b].offs == old(slots[b].offs)
    {
      hide Framed, Records, Layout.Start, Layout.Packed, Layout.Words, Shifted;
      StartGrows(l, k + 1, |l.sizes|);
      PackedIsLeft(l, k);
      NextStart(l, k);
      ghost var after := if l.occupied[k] then Shifted(mem[..], l.Packed(k), l.Start(k), l.sizes[k]) else mem[..];
      Slices(mem, l.Packed(k), l.Start(k));
      MoveAdds(l, was, mem[..], after, k);
      sz, gain := MoveBlock(p, to, l.blocks[k], l.sizes[k], l.occupied[k]);
      assert mem[..] == after;
      Slices(mem, l.Packed(k + 1), l.Start(k + 1));
      ghost var next := k + 1;
      forall j: nat | j < |l.sizes| ensures Placed(l, j, next) {
        Distinct(l.blocks[j], l.blocks[k]);
        assert old(Placed(l, j, k));
      }
      forall b | 0 <= b < |slots| && b !in l.blocks ensures slots[b].offs == old(slots[b].offs) {
        Distinct(b, l.blocks[k]);
      }
    }

    /** Writes the header of block 0 at byte `to`: the first word behind the packed ones, or, when there
        is none, the link of the last record. */
    method WriteHeader(last: MetaInfo, to: nat)
      requires Framed() && last == slots[0] && to / WORD <= mem.Length && to % WORD == 0
      modifies mem, slots`next
      ensures Framed()
      ensures if to / WORD < mem.Length then mem[..] == old(mem[..])[to / WORD := 0] else mem[..] == old(mem[..])
      ensures forall m: MetaInfo :: m in slots ==>
        m.next == if to / WORD == mem.Length && m == slots[|slots|-1] then last else old(m.next)
    {
      if to < mem.Length * WORD {
        mem[to / WORD] := 0;
      } else {
        slots[|slots|-1].next := last;
      }
    }

    /** Merges everything from byte `to` on into block 0, the first block of the free list. The header is
        written at `to`; when no word is left there, that is where the last record keeps its link. */
    method MergeRest(last: MetaInfo, to: nat)
      requires Framed() && last == slots[0] && to / WORD <= mem.Length && to % WORD == 0
      requires to / WORD < mem.Length || meta % WORD == 0
      modifies mem, head`next, slots`next, last`offs, last`size, last`prev
      ensures Framed()
      ensures if to / WORD < mem.Length then mem[..] == old(mem[..])[to / WORD := 0] else mem[..] == old(mem[..])
      ensures forall m: MetaInfo :: m in slots ==>
        m.next == if to / WORD == mem.Length && m == slots[|slots|-1] then last else old(m.next)
      ensures last.offs == to && last.size == mem.Length - to / WORD
      ensures head.next == last && last.prev == head
    {
      WriteHeader(last, to);
      last.offs := to;
      RestWords(meta, to);
      last.SetSize((meta - to) / WORD);
      last.SetOccupied(false);
      head.next := last;
      last.prev := head;
    }

    lemma AtFirst(l: Layout, was: seq<int>)
      requires Tiled(l) && was == mem[..]
      ensures l.Start(0) == 0 && l.Packed(0) == 0
      ensures l.Start(|l.sizes|) <= |was| == mem.Length && Passed(l, was, 0)
    {
    }

    /** Block 0 ends the tiling, so it is the last block, and it is free. */
    lemma ZeroIsLast(l: Layout)
      requires Tiled(l)
      ensures forall j :: 0 <= j < |l.blocks| && l.blocks[j] == 0 ==> j == |l.blocks| - 1 && !l.occupied[j]
    {
      hide Layout.Start;
      forall j | 0 <= j < |l.blocks| && l.blocks[j] == 0 ensures j == |l.blocks| - 1 && !l.occupied[j] {
        assert !l.occupied[j] && slots[0].size == l.sizes[j] == slots[0].GetSize();
        assert Placed(l, j, 0);
        NextStart(l, j);
        StartGrows(l, j + 1, |l.sizes|);
      }
    }

    /** The loop of `defrag` over every block; `to` is the byte behind the last packed one. */
    method PackBlocks(ghost l: Layout, lim: nat) returns (to: nat)
      requires Framed() && Tiled(l) && lim == WORD * l.Start(|l.sizes|)
      modifies mem, slots`next, slots`prev, slots`offs, head`next, head`prev
      ensures Framed() && Sized(l) && l.Start(|l.sizes|) <= mem.Length && to == WORD * l.Packed(|l.sizes|)
      ensures Passed(l, old(mem[..]), |l.sizes|)
      ensures 0 in l.blocks ==> slots[0].next == null
      ensures old(Mutual()) ==> forall j :: 0 <= j < |l.blocks| && !l.occupied[j] ==> Loose(slots[l.blocks[j]])
      ensures forall b :: 0 <= b < |slots| && b !in l.blocks ==> slots[b].offs == old(slots[b].offs)
    {
      hide Framed, Passed, Named, Layout.Start, Layout.Packed, Layout.Words;
      ghost var was, n := mem[..], |l.sizes|;
      var p := 0;
      to := 0;
      ghost var k := 0;
      AtFirst(l, was);
      ZeroIsLast(l);
      while p < lim
        invariant Framed() && Sized(l) && k <= n && l.Start(n) <= |was| == mem.Length
        invariant p == WORD * l.Start(k) && to == WORD * l.Packed(k)
        invariant Passed(l, was, k)
        invariant k > 0 && l.blocks[k-1] == 0 ==> slots[0].next == null
        invariant old(Mutual()) ==> Mutual()
        invariant old(Mutual()) ==> forall j :: 0 <= j < k && !l.occupied[j] ==> Loose(slots[l.blocks[j]])
        invariant forall b :: 0 <= b < |slots| && b !in l.blocks ==> slots[b].offs == old(slots[b].offs)
        decreases lim - p
      {
        TurnStarts(l, was, k, p, lim);
        var sz, gain := Pass(l, was, k, p, to);
        to := to + gain;
        p := p + sz * WORD;
        k := k + 1;
      }
      TurnStarts(l, was, k, p, lim);
    }

    /** What `defrag` leaves, for a heap that held the words `was` laid out as `l`. */
    ghost predicate Compact(l: Layout, was: seq<int>)
      reads mem, slots`offs, slots`size
    {
      && |slots| > 0 && l.Fits() && l.Packed(|l.sizes|) <= mem.Length == |was| && l.Start(|l.sizes|) <= |was|
      && (forall j :: 0 <= j < |l.blocks| ==> l.blocks[j] < |slots|)
      && mem[..l.Packed(|l.sizes|)] == l.Words(was, |l.sizes|)
      && (forall j :: 0 <= j < |l.blocks| && l.blocks[j] != 0 ==> Placed(l, j, |l.sizes|))
      && (forall j :: 0 <= j < |l.blocks| && l.blocks[j] != 0 ==>
            slots[l.blocks[j]].size == l.sizes[j] + if l.occupied[j] then SIGN else 0)
      && (l.Packed(|l.sizes|) < mem.Length ==> mem[l.Packed(|l.sizes|)] == 0)
      && slots[0].offs == WORD * l.Packed(|l.sizes|)
      && slots[0].size == mem.Length - l.Packed(|l.sizes|)
    }

    /** `get`: where the user's part of block `b` begins, in bytes from the start of the buffer. */
    function Get(b: nat): (r: nat)
      requires b < |slots|
      reads slots`offs
    {
      slots[b].offs + WORD
    }

    /** The words a `Pointer` to block `b` gives access to. */
    ghost function Payload(b: nat): (r: seq<int>)
      requires b < |slots|
      reads mem, slots`offs, slots`size
    {
      var from := Get(b) / WORD;
      var till := from + slots[b].GetSize() - 1;
      if from <= till <= mem.Length then mem[from..till] else []
    }

    lemma PayloadIs(b: nat, start: nat, words: nat, occupied: bool)
      requires b < |slots| && slots[b].offs == WORD * start && 1 <= words < SIGN && start + words <= mem.Length
      requires slots[b].size == words + if occupied then SIGN else 0
      ensures Payload(b) == mem[..][start+1..start+words]
    {
      assert Get(b) / WORD == start + 1 && slots[b].GetSize() == words;
    }

    /** In a well-formed heap the user's part of a block begins one word behind its place. */
    lemma GetTiled(l: Layout)
      requires Tiled(l)
      ensures forall j :: 0 <= j < |l.blocks| ==>
        l.blocks[j] < |slots| && Get(l.blocks[j]) == 8 * (l.Start(j) + 1)
    {
      hide Layout.Start, Named;
      forall j | 0 <= j < |l.blocks| ensures l.blocks[j] < |slots| && Get(l.blocks[j]) == 8 * (l.Start(j) + 1) {
        assert Placed(l, j, 0);
      }
    }

    lemma GetPacked(l: Layout, was: seq<int>)
      requires Compact(l, was) && Named(l, was)
      ensures forall j :: 0 <= j < |l.blocks| && l.occupied[j] ==> Get(l.blocks[j]) == 8 * (l.Packed(j) + 1)
    {
      hide Layout.Start, Layout.Packed, Layout.Words;
      forall j | 0 <= j < |l.blocks| && l.occupied[j] ensures Get(l.blocks[j]) == 8 * (l.Packed(j) + 1) {
        assert l.blocks[j] != 0;
        assert Placed(l, j, |l.sizes|);
      }
    }

    lemma PayloadsBefore(l: Layout)
      requires Tiled(l)
      ensures forall j :: 0 <= j < |l.blocks| ==> l.blocks[j] < |slots|
      ensures forall j :: 0 <= j < |l.blocks| ==> Payload(l.blocks[j]) == Slice(l, mem[..], j)
    {
      hide Payload, Layout.Start, Named;
      forall j | 0 <= j < |l.blocks| ensures Payload(l.blocks[j]) == Slice(l, mem[..], j) {
        StartGrows(l, j + 1, |l.sizes|);
        NextStart(l, j);
        assert Placed(l, j, 0);
        PayloadIs(l.blocks[j], l.Start(j), l.sizes[j], l.occupied[j]);
      }
    }

    lemma PayloadsAfter(l: Layout, was: seq<int>)
      requires Compact(l, was) && Named(l, was)
      ensures forall j :: 0 <= j < |l.blocks| && l.occupied[j] ==> Payload(l.blocks[j]) == Slice(l, was, j)
    {
      hide Payload, Layout.Start, Layout.Packed, Layout.Words, Slice;
      Slices(mem, l.Packed(|l.sizes|), 0);
      forall j | 0 <= j < |l.blocks| && l.occupied[j] ensures Payload(l.blocks[j]) == Slice(l, was, j) {
        SliceSurvives(l, was, mem[..], j);
        assert Placed(l, j, |l.sizes|);
        PayloadIs(l.blocks[j], l.Packed(j), l.sizes[j], true);
      }
    }

    /** A compacted heap is well formed again. */
    lemma CompactIsTiled(l: Layout, was: seq<int>)
      requires mem.Length < SIGN && Compact(l, was) && Named(l, was)
      ensures Tiled(Compacted(l, mem.Length))
    {
      hide Layout.Start, Layout.Packed, Layout.Words, Framed;
      var n, c := |l.sizes|, Compacted(l, mem.Length);
      CompactedFits(l, mem.Length);
      Slices(mem, l.Packed(n), 0);
      forall r | 0 <= r < |c.blocks|
        ensures c.blocks[r] < |slots| && slots[c.blocks[r]].size == c.sizes[r] + if c.occupied[r] then SIGN else 0
        ensures Placed(c, r, 0)
        ensures c.Start(r) < mem.Length && mem[c.Start(r)] == c.blocks[r]
        ensures c.blocks[r] == 0 ==> !c.occupied[r]
      {
        var j := CompactedAt(l, mem.Length, r);
        if j < n {
          SliceSurvives(l, was, mem[..], j);
          assert Placed(l, j, n);
        }
      }
      CompactedEnds(l, mem.Length);
    }

    /** The body of `defrag`: the blocks are packed, then the rest becomes block 0. */
    method PackAndMerge(ghost l: Layout)
      requires Framed() && Tiled(l) && (l.Packed(|l.sizes|) < mem.Length || meta % WORD == 0)
      modifies mem, slots, head
      ensures Framed() && Compact(l, old(mem[..]))
      ensures forall b :: 1 <= b < |slots| ==> slots[b].size == old(slots[b].size)
      ensures forall b :: 1 <= b < |slots| && b !in l.blocks ==> slots[b].offs == old(slots[b].offs)
      ensures head.next == slots[0] && slots[0].prev == head && (0 in l.blocks ==> slots[0].next == null)
      ensures l.Packed(|l.sizes|) == mem.Length ==> slots[|slots|-1].next == slots[0]
      ensures old(Mutual()) ==>
        forall j :: 0 <= j < |l.blocks| && !l.occupied[j] && l.blocks[j] != 0 ==> !slots[l.blocks[j]].IsUsed()
    {
      hide Layout.Start, Layout.Packed, Layout.Words, Framed, Named;
      ghost var n := |l.sizes|;
      RoomIfFree(l, mem[..]);
      var last := slots[0];
      var lim := last.offs + WORD * last.GetSize();
      var to := PackBlocks(l, lim);
      label Merging:
      MergeRest(last, to);
      forall j | 0 <= j < |l.blocks| && l.blocks[j] != 0 ensures Placed(l, j, n) {
        Distinct(l.blocks[j], 0);
        assert old@Merging(Placed(l, j, n));
      }
      if old(Mutual()) {
        forall j | 0 <= j < |l.blocks| && !l.occupied[j] && l.blocks[j] != 0 ensures !slots[l.blocks[j]].IsUsed() {
          Distinct(l.blocks[j], 0);
          assert old@Merging(Loose(slots[l.blocks[j]]));
        }
      }
    }

    /** `defrag`. `l` is the layout of the heap on entry. */
    method Defrag(ghost l: Layout)
      requires Framed() && Tiled(l) && (l.Packed(|l.sizes|) < mem.Length || meta % WORD == 0)
      modifies mem, slots, head
      ensures Framed() && Compact(l, old(mem[..]))
      ensures Tiled(Compacted(l, mem.Length))
      ensures forall j :: 0 <= j < |l.blocks| && l.occupied[j] ==>
        && old(Get(l.blocks[j])) == 8 * (l.Start(j) + 1) && Get(l.blocks[j]) == 8 * (l.Packed(j) + 1)
        && Payload(l.blocks[j]) == old(Payload(l.blocks[j]))
      ensures forall b :: 1 <= b < |slots| ==> slots[b].size == old(slots[b].size)
      ensures forall b :: 1 <= b < |slots| && b !in l.blocks ==> slots[b].offs == old(slots[b].offs)
      ensures head.next == slots[0] && slots[0].prev == head && (0 in l.blocks ==> slots[0].next == null)
      ensures l.Packed(|l.sizes|) == mem.Length ==> slots[|slots|-1].next == slots[0]
      ensures old(Mutual()) ==>
        forall j :: 0 <= j < |l.blocks| && !l.occupied[j] && l.blocks[j] != 0 ==> !slots[l.blocks[j]].IsUsed()
    {
      hide Layout.Start, Layout.Packed, Layout.Words, Slice, Payload, Get;
      ghost var was := mem[..];
      GetTiled(l);
      PayloadsBefore(l);
      PackAndMerge(l);
      GetPacked(l, was);
      PayloadsAfter(l, was);
      CompactIsTiled(l, was);
    }
  }
}
