/** The bounded queue of bytes that a channel's ring buffer stands for. */
module Fifos {
  import opened Seqs

  type byte = x: int | 0 <= x < 256

  /** `drained` records that some byte has been read: from then on one place stays unused. */
  datatype Fifo = Fifo(size: nat, stored: seq<byte>, drained: bool) {
    function Capacity(): (c: nat)
      ensures c <= size
    {
      if drained && size > 0 then size - 1 else size
    }

    predicate Fits() {
      |stored| <= Capacity()
    }

    function Free(): (r: nat)
      requires Fits()
    {
      Capacity() - |stored|
    }
  }

  function Min(a: nat, b: nat): (m: nat)
    ensures m <= a && m <= b && (m == a || m == b)
  {
    if a <= b then a else b
  }

  /** How many of `n` offered bytes are accepted, and the queue after it. */
  function Accepted(f: Fifo, n: nat): (r: nat)
    requires f.Fits()
  {
    Min(n, f.Free())
  }

  function Push(f: Fifo, bytes: seq<byte>): (g: Fifo)
    requires f.Fits()
    ensures g.Fits() && g.size == f.size && g.Free() == f.Free() - Accepted(f, |bytes|)
  {
    f.(stored := f.stored + bytes[..Accepted(f, |bytes|)])
  }

  /** The bytes that a request for `n` bytes delivers, and the queue after it. */
  function Delivered(f: Fifo, n: nat): (r: seq<byte>) {
    f.stored[..Min(n, |f.stored|)]
  }

  function Pop(f: Fifo, n: nat): (g: Fifo)
    requires f.Fits()
    ensures g.Fits() && g.size == f.size
    ensures Delivered(f, n) + g.stored == f.stored
  {
    var k := Min(n, |f.stored|);
    f.(stored := f.stored[k..], drained := f.drained || k > 0)
  }

  /** The uses of one channel, in the order in which they happen. */
  datatype Use = Writing(bytes: seq<byte>) | Reading(n: nat)

  function After(f: Fifo, us: seq<Use>): (g: Fifo)
    requires f.Fits()
    ensures g.Fits() && g.size == f.size
    decreases |us|
  {
    if us == [] then f
    else match us[0]
      case Writing(bytes) => After(Push(f, bytes), us[1..])
      case Reading(n) => After(Pop(f, n), us[1..])
  }

  /** All bytes accepted, and all bytes delivered, by a sequence of uses. */
  function AllAccepted(f: Fifo, us: seq<Use>): (r: seq<byte>)
    requires f.Fits()
    decreases |us|
  {
    if us == [] then []
    else match us[0]
      case Writing(bytes) => bytes[..Accepted(f, |bytes|)] + AllAccepted(Push(f, bytes), us[1..])
      case Reading(n) => AllAccepted(Pop(f, n), us[1..])
  }

  function AllDelivered(f: Fifo, us: seq<Use>): (r: seq<byte>)
    requires f.Fits()
    decreases |us|
  {
    if us == [] then []
    else match us[0]
      case Writing(bytes) => AllDelivered(Push(f, bytes), us[1..])
      case Reading(n) => Delivered(f, n) + AllDelivered(Pop(f, n), us[1..])
  }

  /** No byte is lost, invented or reordered, whatever the interleaving of writes and reads;
      a place is given up exactly when a byte has been delivered. */
  lemma {:induction false} BytesAreConserved(f: Fifo, us: seq<Use>)
    requires f.Fits()
    ensures f.stored + AllAccepted(f, us) == AllDelivered(f, us) + After(f, us).stored
    ensures After(f, us).drained <==> f.drained || AllDelivered(f, us) != []
    decreases |us|
  {
    if us != [] {
      match us[0]
      case Writing(bytes) =>
        var x := bytes[..Accepted(f, |bytes|)];
        BytesAreConserved(Push(f, bytes), us[1..]);
        Regroup(f.stored, x, AllAccepted(Push(f, bytes), us[1..]));
      case Reading(n) =>
        var g := Pop(f, n);
        BytesAreConserved(g, us[1..]);
        Regroup(Delivered(f, n), g.stored, AllAccepted(g, us[1..]));
        Regroup(Delivered(f, n), AllDelivered(g, us[1..]), After(g, us[1..]).stored);
    }
  }

  /** After any uses of a new queue of `size` places, `n` bytes are accepted exactly if they and the
      bytes not yet delivered fit into it; once a byte has been delivered, into one place less. */
  lemma RoomIff(size: nat, us: seq<Use>, n: nat)
    ensures var f := Fifo(size, [], false);
            var used := |AllAccepted(f, us)| - |AllDelivered(f, us)|;
            Accepted(After(f, us), n) == n <==> used + n <= (if AllDelivered(f, us) == [] then size else size - 1)
  {
    BytesAreConserved(Fifo(size, [], false), us);
  }
}
