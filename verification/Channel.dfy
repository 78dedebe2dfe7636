/** The ring buffer of a channel (hw-net-engine/src/channel.cpp). */
module Channels {
  import opened Fifos
  import opened Seqs

  /** `s` with the bytes from position `d` on overwritten by `data`. */
  function Patch(s: seq<byte>, d: nat, data: seq<byte>): (r: seq<byte>)
    requires d + |data| <= |s|
    ensures |r| == |s|
  {
    s[..d] + data + s[d+|data|..]
  }

  lemma PatchTwice(s: seq<byte>, d: nat, x: seq<byte>, y: seq<byte>)
    requires d + |x| + |y| <= |s|
    ensures Patch(Patch(s, d, x), d + |x|, y) == Patch(s, d, x + y)
  {
  }

  lemma IsPatch(s: seq<byte>, t: seq<byte>, d: nat, data: seq<byte>)
    requires d + |data| <= |s| == |t| && t[d..d+|data|] == data
    requires forall k :: 0 <= k < d || d + |data| <= k < |s| ==> t[k] == s[k]
    ensures t == Patch(s, d, data)
  {
    assert t == t[..d] + t[d..d+|data|] + t[d+|data|..];
    assert t[..d] == s[..d] && t[d+|data|..] == s[d+|data|..];
  }

  /** Copies `n` bytes between two buffers that do not overlap. */
  method MemCopy(dst: array<byte>, d: nat, src: array<byte>, s: nat, n: nat)
    requires dst != src && d + n <= dst.Length && s + n <= src.Length
    modifies dst
    ensures dst[..] == Patch(old(dst[..]), d, src[..][s..s+n])
  {
    hide Patch;
    ghost var was := dst[..];
    forall k | d <= k < d + n {
      dst[k] := src[s + (k - d)];
    }
    SlicesAgree(dst[..], d, src[..], s, n);
    IsPatch(was, dst[..], d, src[..][s..s+n]);
  }

  /** The bytes of a ring, oldest first: one stretch of the buffer, or two once it has wrapped. */
  function Ring(s: seq<byte>, start: nat, end: nat): (r: seq<byte>)
    requires start <= |s| && end <= |s|
  {
    if start <= end then s[start..end] else s[start..] + s[..end]
  }

  /** The queue a buffer and its two positions stand for. */
  function RingQueue(s: seq<byte>, start: nat, end: nat): (q: Fifo)
    requires start <= |s| && end <= |s|
    ensures q.Fits() && q.size == |s|
    ensures q.Free() == if end < start then start - end - 1
                        else |s| - end + if start > 0 then start - 1 else 0
  {
    Fifo(|s|, Ring(s, start, end), start != 0)
  }

  lemma ReadStraight(s: seq<byte>, start: nat, end: nat, n: nat)
    requires start <= end <= |s|
    ensures var k := Min(n, end - start);
            && Delivered(RingQueue(s, start, end), n) == s[start..start+k]
            && Pop(RingQueue(s, start, end), n) == RingQueue(s, start + k, end)
  {
  }

  /** A read takes the front of the queue. */
  lemma SplitAt(q: Fifo, front: seq<byte>, back: seq<byte>, n: nat)
    requires q.Fits() && q.stored == front + back
    requires |front| == Min(n, |q.stored|)
    ensures Delivered(q, n) == front
    ensures Pop(q, n) == q.(stored := back, drained := q.drained || front != [])
  {
  }

  lemma ReadWrapped(s: seq<byte>, start: nat, end: nat, n: nat)
    requires 0 < end < start <= |s|
    ensures var k1 := Min(n, |s| - start);
            var k2 := Min(n - k1, end);
            && Delivered(RingQueue(s, start, end), n) == s[start..start+k1] + s[0..k2]
            && |Delivered(RingQueue(s, start, end), n)| == k1 + k2
            && (n == k1 ==> Delivered(RingQueue(s, start, end), n) == s[start..start+k1])
            && Pop(RingQueue(s, start, end), n) == RingQueue(s, if n > k1 then k2 else start + k1, end)
  {
    var q := RingQueue(s, start, end);
    if n <= |s| - start {
      assert s[start..] == s[start..start+n] + s[start+n..];
      assert q.stored == s[start..start+n] + (s[start+n..] + s[..end]);
      SplitAt(q, s[start..start+n], s[start+n..] + s[..end], n);
      assert s[start..start+n] == s[start..start+n] + s[0..0];
    } else {
      var k2 := Min(n - (|s| - start), end);
      assert s[..end] == s[0..k2] + s[k2..end] && s[start..] == s[start..|s|];
      assert q.stored == s[start..|s|] + s[0..k2] + s[k2..end];
      SplitAt(q, s[start..|s|] + s[0..k2], s[k2..end], n);
    }
  }

  /** A patched buffer: up to the end of the patch, and from there on. */
  lemma PatchParts(s: seq<byte>, d: nat, data: seq<byte>, i: nat)
    requires d + |data| <= i <= |s|
    ensures Patch(s, d, data)[..d+|data|] == s[..d] + data && Patch(s, d, data)[i..] == s[i..|s|]
  {
    assert Patch(s, d, data) == (s[..d] + data) + s[d+|data|..];
  }

  lemma WriteStraight(s: seq<byte>, start: nat, end: nat, bytes: seq<byte>)
    requires end < start <= |s|
    ensures var k := Min(|bytes|, start - end - 1);
            && Accepted(RingQueue(s, start, end), |bytes|) == k
            && Push(RingQueue(s, start, end), bytes) == RingQueue(Patch(s, end, bytes[0..k]), start, end + k)
  {
    hide Patch;
    var k := Min(|bytes|, start - end - 1);
    PatchParts(s, end, bytes[0..k], start);
    Regroup(s[start..], s[..end], bytes[0..k]);
  }

  lemma WriteOn(s: seq<byte>, start: nat, end: nat, bytes: seq<byte>, k: nat)
    requires start <= end && end + k <= |s| && k <= |bytes|
    ensures Ring(Patch(s, end, bytes[0..k]), start, end + k) == Ring(s, start, end) + bytes[0..k]
  {
    hide Patch;
    PatchParts(s, end, bytes[0..k], end + k);
    var t := Patch(s, end, bytes[0..k]);
    assert t[start..end+k] == t[..end+k][start..] && s[start..end] == s[..end][start..];
  }

  lemma WriteSecond(s: seq<byte>, start: nat, bytes: seq<byte>, k1: nat, k2: nat)
    requires 0 < k2 < start <= |s| && k1 + k2 <= |bytes|
    ensures Ring(Patch(s, 0, bytes[k1..k1+k2]), start, k2) == Ring(s, start, |s|) + bytes[k1..k1+k2]
    ensures bytes[0..k1] + bytes[k1..k1+k2] == bytes[..k1+k2]
  {
    hide Patch;
    Adjacent(bytes, 0, k1, k1 + k2);
    PatchParts(s, 0, bytes[k1..k1+k2], start);
    assert s[..0] + bytes[k1..k1+k2] == bytes[k1..k1+k2];
  }

  lemma WriteWrapped(s: seq<byte>, start: nat, end: nat, bytes: seq<byte>)
    requires start <= end <= |s|
    ensures var k1 := Min(|bytes|, |s| - end);
            var k2 := if start > 0 then Min(|bytes| - k1, start - 1) else 0;
            var t := Patch(s, end, bytes[0..k1]);
            && Accepted(RingQueue(s, start, end), |bytes|) == k1 + k2
            && (k2 == 0 ==> Push(RingQueue(s, start, end), bytes) == RingQueue(t, start, end + k1))
            && (k2 > 0 ==> Push(RingQueue(s, start, end), bytes) == RingQueue(Patch(t, 0, bytes[k1..k1+k2]), start, k2))
  {
    hide Ring, Patch;
    var k1 := Min(|bytes|, |s| - end);
    var k2 := if start > 0 then Min(|bytes| - k1, start - 1) else 0;
    var t := Patch(s, end, bytes[0..k1]);
    WriteOn(s, start, end, bytes, k1);
    if k2 > 0 {
      WriteSecond(t, start, bytes, k1, k2);
    }
  }

  lemma PatchNothing(s: seq<byte>, d: nat)
    requires d <= |s|
    ensures Patch(s, d, []) == s
  {
  }

  lemma NothingRead(s: seq<byte>, start: nat, end: nat, t: seq<byte>, off: nat)
    requires start <= |s| && end <= |s| && off <= |t|
    ensures Pop(RingQueue(s, start, end), 0) == RingQueue(s, start, end)
    ensures Delivered(RingQueue(s, start, end), 0) == [] && Patch(t, off, []) == t
  {
  }

  lemma NothingWritten(s: seq<byte>, start: nat, end: nat)
    requires start <= |s| && end <= |s|
    ensures Push(RingQueue(s, start, end), []) == RingQueue(s, start, end)
    ensures Accepted(RingQueue(s, start, end), 0) == 0
  {
  }

  class Channel {
    const buf: array<byte>
    var start: nat
    var end: nat

    ghost predicate Valid()
      reads this
    {
      start <= buf.Length && end <= buf.Length && (end < start ==> 0 < end)
    }

    ghost function Queue(): (q: Fifo)
      requires Valid()
      reads this, buf
      ensures q.Fits()
    {
      RingQueue(buf[..], start, end)
    }

    constructor (size: nat)
      ensures Valid() && fresh(buf) && Queue() == Fifo(size, [], false)
    {
      buf := new byte[size];
      start, end := 0, 0;
    }

    /** Reads up to `nbytes` bytes into `to`, from position `off` on. */
    method Read(to: array<byte>, off: nat, nbytes: nat) returns (n: nat)
      requires Valid() && to != buf && off + nbytes <= to.Length
      modifies this`start, to
      ensures Valid() && Queue() == Pop(old(Queue()), nbytes)
      ensures n == |Delivered(old(Queue()), nbytes)|
      ensures to[..] == Patch(old(to[..]), off, Delivered(old(Queue()), nbytes))
    {
      hide Ring, RingQueue, Patch, Pop, Delivered;
      ghost var s, t := buf[..], to[..];
      if nbytes == 0 {
        NothingRead(s, start, end, t, off);
        return 0;
      }
      if start <= end {
        var sz := end - start;
        var nRead := if nbytes <= sz then nbytes else sz;
        ReadStraight(s, start, end, nbytes);
        MemCopy(to, off, buf, start, nRead);
        start := start + nRead;
        return nRead;
      } else {
        n := ReadAround(to, off, nbytes);
      }
    }

    /** A read that may go past the end of the buffer and on from its beginning. */
    method ReadAround(to: array<byte>, off: nat, nbytes: nat) returns (n: nat)
      requires Valid() && to != buf && off + nbytes <= to.Length && end < start
      modifies this`start, to
      ensures Valid() && Queue() == Pop(old(Queue()), nbytes)
      ensures n == |Delivered(old(Queue()), nbytes)|
      ensures to[..] == Patch(old(to[..]), off, Delivered(old(Queue()), nbytes))
    {
      hide Ring, RingQueue, Patch, Pop, Delivered;
      ghost var s, t := buf[..], to[..];
      var sz1 := buf.Length - start;
      var nRead1 := if nbytes <= sz1 then nbytes else sz1;
      var nRead2 := 0;
      ReadWrapped(s, start, end, nbytes);
      ghost var first := s[start..start+nRead1];
      MemCopy(to, off, buf, start, nRead1);
      start := start + nRead1;
      var rest := nbytes - nRead1;
      if rest > 0 {
        nRead2 := if rest <= end then rest else end;
        PatchTwice(t, off, first, s[0..nRead2]);
        MemCopy(to, off + nRead1, buf, 0, nRead2);
        start := nRead2;
      }
      return nRead1 + nRead2;
    }

    /** Writes up to `nbytes` bytes of `from`, from position `off` on. */
    method Write(from: array<byte>, off: nat, nbytes: nat) returns (n: nat)
      requires Valid() && from != buf && off + nbytes <= from.Length
      modifies this`end, buf
      ensures Valid() && Queue() == Push(old(Queue()), from[off..off+nbytes])
      ensures n == Accepted(old(Queue()), nbytes)
    {
      hide Ring, RingQueue, Patch, Push, Accepted;
      ghost var s, bytes := buf[..], from[off..off+nbytes];
      if nbytes == 0 {
        NothingWritten(s, start, end);
        return 0;
      }
      if end < start {
        var sz := start - end - 1;
        var nWrite := if nbytes <= sz then nbytes else sz;
        WriteStraight(s, start, end, bytes);
        SubSlice(from[..], off, nbytes, 0, nWrite);
        MemCopy(buf, end, from, off, nWrite);
        end := end + nWrite;
        return nWrite;
      } else {
        n := WriteAround(from, off, nbytes);
      }
    }

    /** The second part of a write that goes on from the beginning of the buffer. */
    method WriteFront(from: array<byte>, off: nat, n: nat)
      requires from != buf && off + n <= from.Length && n <= buf.Length
      modifies this`end, buf
      ensures n == 0 ==> buf[..] == old(buf[..]) && end == old(end)
      ensures n > 0 ==> buf[..] == Patch(old(buf[..]), 0, from[..][off..off+n]) && end == n
    {
      hide Patch;
      ghost var t := buf[..];
      MemCopy(buf, 0, from, off, n);
      if n != 0 {
        end := n;
      } else {
        assert from[..][off..off] == [];
        PatchNothing(t, 0);
      }
    }

    /** A write that may go past the end of the buffer and on from its beginning. */
    method WriteAround(from: array<byte>, off: nat, nbytes: nat) returns (n: nat)
      requires Valid() && from != buf && off + nbytes <= from.Length && start <= end
      modifies this`end, buf
      ensures Valid() && Queue() == Push(old(Queue()), from[off..off+nbytes])
      ensures n == Accepted(old(Queue()), nbytes)
    {
      hide Ring, RingQueue, Patch, Push, Accepted;
      ghost var s, bytes := buf[..], from[off..off+nbytes];
      var sz1 := buf.Length - end;
      var nWrite1 := if nbytes <= sz1 then nbytes else sz1;
      var nWrite2 := 0;
      WriteWrapped(s, start, end, bytes);
      SubSlice(from[..], off, nbytes, 0, nWrite1);
      MemCopy(buf, end, from, off, nWrite1);
      end := end + nWrite1;
      var rest := nbytes - nWrite1;
      if rest > 0 && start > 0 {
        var sz2 := start - 1;
        nWrite2 := if rest <= sz2 then rest else sz2;
        SubSlice(from[..], off, nbytes, nWrite1, nWrite1 + nWrite2);
        WriteFront(from, off + nWrite1, nWrite2);
      }
      return nWrite1 + nWrite2;
    }
  }
}
