/** The buffered input and output of a merge (hw03/InputWay.cpp, hw03/OutputWay.cpp). All ways of
    a merge use slices of one buffer; files are sequences of values. */
module Ways {
  import opened Runs
  import opened Seqs

  /** `s` and `t` agree outside the slice of `n` places that begins at `base`. */
  ghost predicate SameOutside(s: seq<Data>, t: seq<Data>, base: nat, n: nat) {
    |s| == |t| && forall i :: 0 <= i < |s| && !(base <= i < base + n) ==> s[i] == t[i]
  }

  ghost predicate SameInside(s: seq<Data>, t: seq<Data>, base: nat, n: nat) {
    |s| == |t| && forall i :: 0 <= i < |s| && base <= i < base + n ==> s[i] == t[i]
  }

  /** Writing one slice leaves a slice that lies before or behind it alone. */
  lemma SlicesApart(s: seq<Data>, t: seq<Data>, base: nat, n: nat, other: nat, m: nat)
    requires SameOutside(s, t, base, n)
    requires other + m <= base || base + n <= other
    ensures SameInside(s, t, other, m)
  {
  }

  /** The state of an input way: its slice holds the values of the file that were loaded last,
      from `pos` on they are still to be delivered, and `remain` values are still in the file. */
  ghost predicate InputOk(s: seq<Data>, file: seq<Data>, base: nat, capacity: nat, pos: nat, size: nat, remain: nat) {
    && base + capacity <= |s| && 1 <= size <= capacity && pos <= size && remain <= |file|
    && (pos < size ==> size + remain <= |file|
                       && s[base..base+size] == file[|file|-remain-size..|file|-remain])
  }

  /** The values a way has yet to deliver, in order. */
  ghost function Undelivered(file: seq<Data>, pos: nat, size: nat, remain: nat): (r: seq<Data>)
    requires pos <= size && remain <= |file| && (pos < size ==> size + remain <= |file|)
  {
    if pos == size then file[|file|-remain..] else file[|file|-remain-size+pos..]
  }

  class InputWay {
    const file: seq<Data>
    const buf: array<Data>
    const base: nat
    ghost const capacity: nat
    var pos: nat
    var size: nat
    var remain: nat

    ghost predicate Valid()
      reads this, buf
    {
      InputOk(buf[..], file, base, capacity, pos, size, remain)
    }

    ghost function Rest(): (r: seq<Data>)
      requires Valid()
      reads this, buf
    {
      Undelivered(file, pos, size, remain)
    }

    constructor (file: seq<Data>, buf: array<Data>, base: nat, bufSize: nat)
      requires bufSize >= 1 && base + bufSize <= buf.Length
      ensures Valid() && Rest() == file
      ensures this.file == file && this.buf == buf && this.base == base && capacity == bufSize
    {
      this.file := file;
      this.buf := buf;
      this.base := base;
      this.capacity := bufSize;
      size := bufSize;
      pos := bufSize;
      remain := |file|;
    }

    method Empty() returns (e: bool)
      requires Valid()
      ensures e <==> Rest() == []
    {
      e := pos == size && remain == 0;
    }

    /** Reads the next chunk of the file into the slice. */
    method LoadChunk()
      requires Valid() && pos == size
      modifies this`pos, this`size, this`remain, buf
      ensures Valid() && Rest() == old(Rest())
      ensures if old(remain) > 0 then pos < size else pos == size && remain == 0
      ensures SameOutside(old(buf[..]), buf[..], base, capacity)
    {
      if remain == 0 {
        return;
      }
      size := if remain > size then size else remain;
      remain := remain - size;
      var from := |file| - remain - size;
      forall k | base <= k < base + size {
        buf[k] := file[from + (k - base)];
      }
      pos := 0;
      SlicesAgree(buf[..], base, file, from, size);
    }

    /** The next value, or 0 when there is none. */
    method Top() returns (x: Data)
      requires Valid()
      modifies this`pos, this`size, this`remain, buf
      ensures Valid() && Rest() == old(Rest())
      ensures x == if Rest() == [] then DATA_MIN_VALUE else Rest()[0]
      ensures Rest() != [] ==> pos < size
      ensures Rest() == [] ==> pos == old(pos) == size && buf[..] == old(buf[..])
      ensures SameOutside(old(buf[..]), buf[..], base, capacity)
    {
      var empty := Empty();
      if empty {
        return DATA_MIN_VALUE;
      }
      if pos == size {
        LoadChunk();
      }
      x := buf[base+pos];
      assert x == buf[..][base..base+size][pos];
    }

    /** Delivers the next value. Without one it answers 0 and counts past the end. */
    method Get() returns (x: Data)
      requires Valid()
      modifies this`pos, this`size, this`remain, buf
      ensures old(Rest()) != [] ==> Valid() && x == old(Rest())[0] && Rest() == old(Rest())[1..]
      ensures old(Rest()) == [] ==> x == DATA_MIN_VALUE && pos == size + 1 && remain == 0 && buf[..] == old(buf[..])
      ensures SameOutside(old(buf[..]), buf[..], base, capacity)
    {
      x := Top();
      pos := pos + 1;
    }
  }

  class OutputWay {
    const buf: array<Data>
    const base: nat
    const size: nat
    var pos: nat

    /** What has been written to the file. */
    var file: seq<Data>

    ghost predicate Valid()
      reads this
    {
      size >= 1 && base + size <= buf.Length && pos < size
    }

    /** All values put so far, in order. */
    ghost function Contents(): (r: seq<Data>)
      requires Valid()
      reads this, buf
    {
      file + buf[base..base+pos]
    }

    constructor (buf: array<Data>, base: nat, bufSize: nat)
      requires bufSize >= 1 && base + bufSize <= buf.Length
      ensures Valid() && Contents() == []
      ensures this.buf == buf && this.base == base && size == bufSize
    {
      this.buf := buf;
      this.base := base;
      this.size := bufSize;
      pos := 0;
      file := [];
    }

    method Put(x: Data)
      requires Valid()
      modifies this`pos, this`file, buf
      ensures Valid() && Contents() == old(Contents()) + [x]
      ensures SameOutside(old(buf[..]), buf[..], base, size)
    {
      ghost var before := buf[base..base+pos];
      buf[base+pos] := x;
      pos := pos + 1;
      assert buf[base..base+pos] == before + [x];
      if pos == size {
        file := file + buf[base..base+size];
        pos := 0;
      }
    }

    /** The final flush: the file holds all values put. */
    method Flush()
      requires Valid()
      modifies this`pos, this`file
      ensures Valid() && file == old(Contents()) && Contents() == file
    {
      file := file + buf[base..base+pos];
      pos := 0;
    }
  }
}
