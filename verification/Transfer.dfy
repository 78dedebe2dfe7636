/** One sender and one receiver on one channel: both finish, and the bytes arrive. */
module Transfer {
  import opened Options
  import opened Seqs
  import opened Fifos
  import opened Scheduling
  import opened EngineRuns
  import opened NetMachine

  /** `sender` sends `bytes` and ends; `receiver` receives as many bytes and ends. */
  datatype Job<C> = Job(sender: C, receiver: C, chan: int, bytes: seq<byte>)

  /** The engine, and which of the two calls has been made. */
  datatype Pair<C> = Pair(net: Net<C>, sent: bool, received: bool)

  datatype PairOutcome<C> = Busy(p: Pair<C>) | Over(p: Pair<C>) | Failed(p: Pair<C>)

  /** What the running routine of the two does next. */
  function NextAct<C(==)>(j: Job<C>, p: Pair<C>): (r: Act<C>)
    requires HasRunner(p.net)
  {
    var c := p.net.sched.cur.value;
    if !p.net.task[c].Own? then Continue
    else if c == j.sender && !p.sent then Send(j.chan, j.bytes)
    else if c == j.receiver && !p.received then Recv(j.chan, |j.bytes|)
    else Complete
  }

  function PairStep<C(==)>(j: Job<C>, p: Pair<C>): (r: PairOutcome<C>) {
    if HasRunner(p.net) && MayAct(p.net, NextAct(j, p)) then
      var a := NextAct(j, p);
      var o := Perform(p.net, a);
      var p' := Pair(o.net, p.sent || a.Send?, p.received || a.Recv?);
      match o
      case Going(_) => Busy(p')
      case Ended(_) => Over(p')
      case _ => Failed(p')
    else Failed(p)
  }

  function RunPair<C(==)>(j: Job<C>, p: Pair<C>, steps: nat): (r: PairOutcome<C>)
    decreases steps
  {
    if steps == 0 then Busy(p)
    else
      var o := PairStep(j, p);
      if o.Busy? then RunPair(j, o.p, steps - 1) else o
  }

  /** Bytes written and read so far. */
  function Written<C(==)>(j: Job<C>, p: Pair<C>): (r: nat) {
    if !p.sent || j.sender !in p.net.task then 0
    else if p.net.task[j.sender].Sending? then p.net.task[j.sender].written else |j.bytes|
  }

  function Read<C(==)>(j: Job<C>, p: Pair<C>): (r: nat) {
    if !p.received || j.receiver !in p.net.task then 0
    else if p.net.task[j.receiver].Receiving? then |p.net.task[j.receiver].got| else |j.bytes|
  }

  ghost predicate SenderOk<C>(j: Job<C>, p: Pair<C>)
    requires j.sender in p.net.task
  {
    var t := p.net.task[j.sender];
    if !p.sent then t.Own? && j.sender in p.net.sched.alive
    else if t.Own? then t == Own(|j.bytes|, []) && (j.sender in p.net.sched.alive ==> p.net.sched.cur == Some(j.sender))
    else t.Sending? && t.chan == j.chan && t.bytes == j.bytes && t.written < |j.bytes| && j.sender in p.net.sched.alive
  }

  ghost predicate ReceiverOk<C>(j: Job<C>, p: Pair<C>)
    requires j.receiver in p.net.task
  {
    var t := p.net.task[j.receiver];
    if !p.received then t.Own? && j.receiver in p.net.sched.alive
    else if t.Own? then t == Own(|j.bytes|, j.bytes) && (j.receiver in p.net.sched.alive ==> p.net.sched.cur == Some(j.receiver))
    else t.Receiving? && t.chan == j.chan && t.want == |j.bytes| && |t.got| < |j.bytes|
         && t.got == j.bytes[..|t.got|] && j.receiver in p.net.sched.alive
  }

  /** The two are alone, and what the channel holds is what was written and not yet read. */
  ghost predicate Together<C(!new)>(j: Job<C>, p: Pair<C>) {
    && Inv(p.net) && j.sender != j.receiver
    && (forall c :: c in p.net.sched.alive ==> c == j.sender || c == j.receiver)
    && j.sender in p.net.task && j.receiver in p.net.task && j.chan in p.net.channels
    && SenderOk(j, p) && ReceiverOk(j, p)
    && Read(j, p) <= Written(j, p) <= |j.bytes|
    && p.net.channels[j.chan].queue.stored == j.bytes[Read(j, p)..Written(j, p)]
  }

  /** A routine that runs has something to do: a sender finds the channel empty, a receiver in the
      middle of its call finds bytes; and whoever is done leaves the other one unlocked. */
  ghost predicate Useful<C>(j: Job<C>, p: Pair<C>)
    requires j.sender in p.net.task && j.receiver in p.net.task
  {
    && (p.net.sched.cur == Some(j.sender) && Written(j, p) < |j.bytes| ==> Read(j, p) == Written(j, p))
    && (p.net.sched.cur == Some(j.receiver) && p.net.task[j.receiver].Receiving? ==> Read(j, p) < Written(j, p))
    && (p.net.sched.cur == Some(j.sender) && p.sent && p.net.task[j.sender].Own? ==> !IsLocked(p.net.sched, j.receiver))
    && (p.net.sched.cur == Some(j.receiver) && p.received && p.net.task[j.receiver].Own? ==> !IsLocked(p.net.sched, j.sender))
  }

  /** The invariant of a transfer; besides, the running routine may end at any time. */
  ghost predicate PairInv<C(!new)>(j: Job<C>, p: Pair<C>) {
    Together(j, p) && Useful(j, p) && !OwnCaller(p.net.sched)
  }

  /** There is room for what is still to be written: a buffer of two bytes always has some once it
      is empty; a smaller one must take all the rest at once. */
  ghost predicate Roomy<C>(j: Job<C>, p: Pair<C>)
    requires Usable(p.net, j.chan)
  {
    var q := p.net.channels[j.chan].queue;
    || p.net.bufSize >= 2
    || Written(j, p) >= |j.bytes|
    || (q.stored == [] && |j.bytes| - Written(j, p) <= q.Free())
  }

  /** Calls to be made, bytes to be written and read, and routines to end. */
  ghost function Measure<C>(j: Job<C>, p: Pair<C>): (r: int) {
    (if p.sent then 0 else 1) + (if p.received then 0 else 1)
    + (|j.bytes| - Written(j, p)) + (|j.bytes| - Read(j, p)) + |p.net.sched.alive|
  }

  /** A routine that goes to sleep gives control to the other one. */
  lemma OtherIsNext<C(!new)>(s: Sched<C>, c: C, d: C)
    requires Sound(s) && s.cur == Some(c) && c != d
    requires forall x :: x in s.alive ==> x == c || x == d
    requires d in s.alive && IsLocked(s, c) && !IsLocked(s, d)
    ensures Choose(s, None) == Resume(d)
  {
  }

  /** A routine that ends gives control to the other one, if that is still there. */
  lemma OtherIsLeft<C(!new)>(s: Sched<C>, c: C, d: C)
    requires Sound(s) && s.cur == Some(c) && c != d && !OwnCaller(s)
    requires forall x :: x in s.alive ==> x == c || x == d
    requires d in s.alive ==> !IsLocked(s, d)
    ensures |Completed(s).alive| < |s.alive| && forall x :: x in Completed(s).alive <==> x in s.alive && x != c
    ensures Choose(Completed(s), s.caller[c]) == if d in s.alive then Resume(d) else Return
  {
    WithoutRemoves(s.alive, c);
    WithoutShrinks(s.alive, c);
    HasMember(Completed(s).alive);
  }

  lemma HasMember<C(!new)>(s: seq<C>)
    ensures s == [] || exists x :: x in s
  {
    if s != [] {
      assert s[0] in s;
    }
  }

  lemma {:induction false} WithoutShrinks<C>(s: seq<C>, c: C)
    requires c in s
    ensures |Without(s, c)| == |s| - 1
  {
    if s[0] != c {
      WithoutShrinks(s[1..], c);
    }
  }

  /** A write unlocks whoever waits to read, a read whoever waits to write. */
  lemma WroteUnlocks<C(!new)>(net: Net<C>, chan: int, rest: seq<byte>, c: C)
    requires Core(net) && chan in net.channels && c in net.task
    requires net.task[c].Own? || (net.task[c].Receiving? && net.task[c].chan == chan)
    ensures !IsLocked(Wrote(net, chan, rest).sched, c)
  {
    assert c in net.sched.alive ==> Waits(net, c);
  }

  lemma ReadOutUnlocks<C(!new)>(net: Net<C>, chan: int, n: nat, c: C)
    requires Core(net) && chan in net.channels && c in net.task
    requires net.task[c].Own? || (net.task[c].Sending? && net.task[c].chan == chan)
    ensures !IsLocked(ReadOut(net, chan, n).sched, c)
  {
    assert c in net.sched.alive ==> Waits(net, c);
  }

  /** Locking the running routine leaves the records sound and the other routines as they were. */
  lemma AsleepIsSound<C(!new)>(net: Net<C>, c: C, asleep: Net<C>, chan: int, reason: LockedState)
    requires Inv(net) && net.sched.cur == Some(c) && reason != NotLocked
    requires asleep == Lock(net.(task := asleep.task), chan, c, reason)
    ensures Sound(asleep.sched) && IsLocked(asleep.sched, c)
    ensures forall d :: d != c ==> IsLocked(asleep.sched, d) == IsLocked(net.sched, d)
  {
    hide Waits, Conserves;
  }

  /** A write touches the channel and the locks, and nothing else; so does a read. */
  lemma WroteParts<C(!new)>(net: Net<C>, chan: int, rest: seq<byte>)
    requires Usable(net, chan)
    ensures var after := Wrote(net, chan, rest);
            && after.task == net.task && after.bufSize == net.bufSize
            && after.sched.alive == net.sched.alive && after.sched.caller == net.sched.caller
            && after.sched.cur == net.sched.cur && after.sched.locked.Keys == net.sched.locked.Keys
            && after.channels == net.channels[chan := AfterWrite(net.channels[chan], rest)]
  {
  }

  lemma ReadOutParts<C(!new)>(net: Net<C>, chan: int, n: nat)
    requires Usable(net, chan)
    ensures var after := ReadOut(net, chan, n);
            && after.task == net.task && after.bufSize == net.bufSize
            && after.sched.alive == net.sched.alive && after.sched.caller == net.sched.caller
            && after.sched.cur == net.sched.cur && after.sched.locked.Keys == net.sched.locked.Keys
            && after.channels == net.channels[chan := AfterRead(net.channels[chan], n)]
  {
  }

  /** A turn of a send, when the only other routine is at hand: control goes there, unless the
      send is done. */
  lemma SendTurnGoes<C(!new)>(net: Net<C>, c: C, d: C, chan: int, bytes: seq<byte>, written: nat)
    requires Inv(net) && net.sched.cur == Some(c) && Usable(net, chan) && written < |bytes|
    requires c != d && d in net.sched.alive && forall x :: x in net.sched.alive ==> x == c || x == d
    requires net.task[d].Own? || (net.task[d].Receiving? && net.task[d].chan == chan)
    ensures var k := Accepted(net.channels[chan].queue, |bytes| - written);
            var o := SendTurn(net, c, chan, bytes, written);
            && o.Going?
            && o.net.channels == Wrote(net, chan, bytes[written..]).channels
            && o.net.task == net.task[c := if written + k == |bytes| then Own(|bytes|, [])
                                           else Sending(chan, bytes, written + k)]
            && o.net.sched.alive == net.sched.alive
            && o.net.sched.cur == (if written + k == |bytes| then Some(c) else Some(d))
            && !IsLocked(o.net.sched, d)
            && (written + k < |bytes| || !OwnCaller(net.sched) ==> !OwnCaller(o.net.sched))
            && (written + k == |bytes| ==> o.net.sched.caller == net.sched.caller)
  {
    hide Core, Sound, Choose, Wrote, UnlockAll;
    WroteKeepsInv(net, chan, bytes[written..]);
    WroteParts(net, chan, bytes[written..]);
    AliveHasTask(net, d);
    var now := written + Accepted(net.channels[chan].queue, |bytes| - written);
    var after := Wrote(net, chan, bytes[written..]);
    WroteUnlocks(net, chan, bytes[written..], d);
    if now < |bytes| {
      var asleep := Lock(after.(task := after.task[c := Sending(chan, bytes, now)]), chan, c, LockedWrite);
      AsleepIsSound(after, c, asleep, chan, LockedWrite);
      OtherIsNext(asleep.sched, c, d);
    }
  }

  lemma RecvTurnGoes<C(!new)>(net: Net<C>, c: C, d: C, chan: int, want: nat, got: seq<byte>)
    requires Inv(net) && net.sched.cur == Some(c) && Usable(net, chan) && |got| < want
    requires c != d && forall x :: x in net.sched.alive ==> x == c || x == d
    requires d in net.task && (net.task[d].Own? || (net.task[d].Sending? && net.task[d].chan == chan))
    requires |got| + |net.channels[chan].queue.stored| < want ==> d in net.sched.alive
    ensures var now := got + Delivered(net.channels[chan].queue, want - |got|);
            var o := RecvTurn(net, c, chan, want, got);
            && o.Going?
            && o.net.channels == ReadOut(net, chan, want - |got|).channels
            && o.net.task == net.task[c := if |now| == want then Own(want, now) else Receiving(chan, want, now)]
            && o.net.sched.alive == net.sched.alive
            && o.net.sched.cur == (if |now| == want then Some(c) else Some(d))
            && !IsLocked(o.net.sched, d)
            && (|now| < want || !OwnCaller(net.sched) ==> !OwnCaller(o.net.sched))
  {
    hide Core, Sound, Choose, ReadOut, UnlockAll;
    ReadOutKeepsInv(net, chan, want - |got|);
    ReadOutParts(net, chan, want - |got|);
    var now := got + Delivered(net.channels[chan].queue, want - |got|);
    var after := ReadOut(net, chan, want - |got|);
    ReadOutUnlocks(net, chan, want - |got|, d);
    if |now| < want {
      var asleep := Lock(after.(task := after.task[c := Receiving(chan, want, now)]), chan, c, LockedRead);
      AsleepIsSound(after, c, asleep, chan, LockedRead);
      OtherIsNext(asleep.sched, c, d);
    }
  }

  /** After a turn of the sender the two are together again. */
  lemma SenderTurned<C(!new)>(j: Job<C>, p: Pair<C>, net: Net<C>, k: nat)
    requires Together(j, p) && p.net.sched.cur == Some(j.sender) && Written(j, p) < |j.bytes|
    requires Inv(net) && Written(j, p) + k <= |j.bytes|
    requires net.channels.Keys == p.net.channels.Keys
    requires net.channels[j.chan].queue.stored == j.bytes[Read(j, p)..Written(j, p) + k]
    requires net.task == p.net.task[j.sender := if Written(j, p) + k == |j.bytes| then Own(|j.bytes|, [])
                                                else Sending(j.chan, j.bytes, Written(j, p) + k)]
    requires net.sched.alive == p.net.sched.alive && !IsLocked(net.sched, j.receiver)
    requires net.sched.cur == (if Written(j, p) + k == |j.bytes| then Some(j.sender) else Some(j.receiver))
    ensures Together(j, Pair(net, true, p.received))
    ensures Useful(j, p) && k > 0 ==> Useful(j, Pair(net, true, p.received))
    ensures Written(j, Pair(net, true, p.received)) == Written(j, p) + k
    ensures Read(j, Pair(net, true, p.received)) == Read(j, p)
  {
    hide Core, IsLocked;
  }

  /** What a turn of the receiver changes: all written bytes are read. */
  ghost predicate Received<C>(j: Job<C>, p: Pair<C>, net: Net<C>)
    requires Written(j, p) <= |j.bytes|
  {
    && net.channels.Keys == p.net.channels.Keys && j.chan in net.channels && net.channels[j.chan].queue.stored == []
    && net.task == p.net.task[j.receiver := if Written(j, p) == |j.bytes| then Own(|j.bytes|, j.bytes)
                                            else Receiving(j.chan, |j.bytes|, j.bytes[..Written(j, p)])]
    && net.sched.alive == p.net.sched.alive && !IsLocked(net.sched, j.sender)
    && net.sched.cur == (if Written(j, p) == |j.bytes| then Some(j.receiver) else Some(j.sender))
  }

  lemma ReceivedCounts<C(!new)>(j: Job<C>, p: Pair<C>, net: Net<C>)
    requires Together(j, p) && Received(j, p, net)
    ensures Written(j, Pair(net, p.sent, true)) == Written(j, p)
    ensures Read(j, Pair(net, p.sent, true)) == Written(j, p)
  {
    hide Core, IsLocked;
  }

  lemma SenderStays<C(!new)>(j: Job<C>, p: Pair<C>, net: Net<C>)
    requires Together(j, p) && p.net.sched.cur == Some(j.receiver) && Received(j, p, net)
    ensures j.sender in net.task && SenderOk(j, Pair(net, p.sent, true))
  {
    hide Core, IsLocked, ReceiverOk;
  }

  lemma ReceiverIsOk<C(!new)>(j: Job<C>, p: Pair<C>, net: Net<C>)
    requires Together(j, p) && p.net.sched.cur == Some(j.receiver) && Read(j, p) < |j.bytes| && Received(j, p, net)
    ensures j.receiver in net.task && ReceiverOk(j, Pair(net, p.sent, true))
  {
    hide Core, IsLocked, SenderOk;
    assert |j.bytes[..Written(j, p)]| == Written(j, p);
    TurnFinds(j, p);
  }

  /** After a turn of the receiver the two are together again, and the sender finds the channel empty. */
  lemma ReceiverTurned<C(!new)>(j: Job<C>, p: Pair<C>, net: Net<C>)
    requires Together(j, p) && p.net.sched.cur == Some(j.receiver) && Read(j, p) < |j.bytes|
    requires Inv(net) && Received(j, p, net)
    ensures Together(j, Pair(net, p.sent, true))
  {
    hide Inv, IsLocked, Written, Read, SenderOk, ReceiverOk;
    ReceivedCounts(j, p, net);
    SenderStays(j, p, net);
    ReceiverIsOk(j, p, net);
  }

  lemma ReceiverUseful<C(!new)>(j: Job<C>, p: Pair<C>, net: Net<C>)
    requires Together(j, p) && Received(j, p, net)
    ensures j.sender in net.task && j.receiver in net.task && Useful(j, Pair(net, p.sent, true))
  {
    hide Core, IsLocked;
    ReceivedCounts(j, p, net);
  }

  /** The running routine is one of the two, and its channel is open. */
  lemma RunnerFacts<C(!new)>(j: Job<C>, p: Pair<C>)
    requires Together(j, p)
    ensures HasRunner(p.net) && j.chan in p.net.channels && Usable(p.net, j.chan)
    ensures p.net.sched.cur == Some(j.sender) || p.net.sched.cur == Some(j.receiver)
  {
    assert Conserves(p.net.channels[j.chan]);
  }

  /** What a turn finds: the channel usable, the stored bytes, the other routine at hand. */
  lemma TurnFinds<C(!new)>(j: Job<C>, p: Pair<C>)
    requires Together(j, p)
    ensures p.net.sched.cur.Some? && p.net.sched.cur.value in p.net.sched.caller
    ensures Usable(p.net, j.chan) && p.net.channels[j.chan].queue.size == p.net.bufSize
    ensures Read(j, p) <= Written(j, p) <= |j.bytes| && j.sender != j.receiver
    ensures p.net.channels[j.chan].queue.stored == j.bytes[Read(j, p)..Written(j, p)]
    ensures j.sender in p.net.task && j.receiver in p.net.task && Inv(p.net)
    ensures Written(j, p) < |j.bytes| ==> j.sender in p.net.sched.alive
    ensures Read(j, p) < |j.bytes| ==> j.receiver in p.net.sched.alive
    ensures var t := p.net.task[j.sender]; t.Own? || (t.Sending? && t.chan == j.chan)
    ensures var t := p.net.task[j.receiver]; t.Own? || (t.Receiving? && t.chan == j.chan)
    ensures forall x :: x in p.net.sched.alive ==> x == j.sender || x == j.receiver
  {
    assert Conserves(p.net.channels[j.chan]);
  }

  /** A turn of the sender writes as much as there is room for. */
  lemma SenderTurn<C(!new)>(j: Job<C>, p: Pair<C>, written: nat)
    requires Together(j, p) && Usable(p.net, j.chan)
    requires p.net.sched.cur == Some(j.sender) && p.net.sched.cur.value in p.net.sched.caller
    requires written == Written(j, p) < |j.bytes|
    ensures var k := Accepted(p.net.channels[j.chan].queue, |j.bytes| - written);
            var o := SendTurn(p.net, j.sender, j.chan, j.bytes, written);
            var p' := Pair(o.net, true, p.received);
            && o.Going? && Together(j, p') && o.net.sched.alive == p.net.sched.alive
            && Written(j, p') == written + k && Read(j, p') == Read(j, p)
            && (Useful(j, p) && k > 0 ==> Useful(j, p'))
            && o.net.sched.cur == Some(if written + k < |j.bytes| then j.receiver else j.sender)
            && (written + k < |j.bytes| || !OwnCaller(p.net.sched) ==> !OwnCaller(o.net.sched))
            && o.net.bufSize == p.net.bufSize && Usable(o.net, j.chan)
            && o.net.channels[j.chan].queue == Push(p.net.channels[j.chan].queue, j.bytes[written..])
  {
    hide Core, Inv, SendTurn, SenderOk, ReceiverOk, IsLocked, Useful, Together, Written, Read;
    TurnFinds(j, p);
    SendTurnKeeps(p.net, j.sender, j.chan, j.bytes, written);
    SendTurnGoes(p.net, j.sender, j.receiver, j.chan, j.bytes, written);
    var k := Accepted(p.net.channels[j.chan].queue, |j.bytes| - written);
    Adjacent(j.bytes, Read(j, p), written, written + k);
    SenderTurned(j, p, SendTurn(p.net, j.sender, j.chan, j.bytes, written).net, k);
  }

  /** A turn of the receiver empties the channel. */
  lemma ReceiverTurn<C(!new)>(j: Job<C>, p: Pair<C>, got: seq<byte>)
    requires Together(j, p) && Usable(p.net, j.chan)
    requires p.net.sched.cur == Some(j.receiver) && p.net.sched.cur.value in p.net.sched.caller
    requires Read(j, p) < |j.bytes| && got == j.bytes[..Read(j, p)]
    requires Written(j, p) < |j.bytes| ==> j.sender in p.net.sched.alive
    ensures var o := RecvTurn(p.net, j.receiver, j.chan, |j.bytes|, got);
            var p' := Pair(o.net, p.sent, true);
            && o.Going? && Together(j, p') && Useful(j, p') && o.net.sched.alive == p.net.sched.alive
            && Written(j, p') == Written(j, p) && Read(j, p') == Written(j, p)
            && o.net.sched.cur == Some(if Written(j, p) < |j.bytes| then j.sender else j.receiver)
            && (Written(j, p) < |j.bytes| || !OwnCaller(p.net.sched) ==> !OwnCaller(o.net.sched))
            && o.net.bufSize == p.net.bufSize && Usable(o.net, j.chan)
            && o.net.channels[j.chan].queue == Pop(p.net.channels[j.chan].queue, |j.bytes| - |got|)
  {
    hide Core, Inv, RecvTurn, SenderOk, ReceiverOk, IsLocked, Useful, Together, Written, Read;
    TurnFinds(j, p);
    var q := p.net.channels[j.chan].queue;
    var g, w := Read(j, p), Written(j, p);
    assert Delivered(q, |j.bytes| - g) == q.stored;
    Adjacent(j.bytes, 0, g, w);
    assert w == |j.bytes| ==> j.bytes[..w] == j.bytes;
    RecvTurnKeeps(p.net, j.receiver, j.chan, |j.bytes|, got);
    RecvTurnGoes(p.net, j.receiver, j.sender, j.chan, |j.bytes|, got);
    ReceivedCounts(j, p, RecvTurn(p.net, j.receiver, j.chan, |j.bytes|, got).net);
    ReceiverTurned(j, p, RecvTurn(p.net, j.receiver, j.chan, |j.bytes|, got).net);
    ReceiverUseful(j, p, RecvTurn(p.net, j.receiver, j.chan, |j.bytes|, got).net);
  }

  /** Both routines have ended; the calls answered the number of bytes, and they arrived. */
  ghost predicate Done<C>(j: Job<C>, p: Pair<C>) {
    && p.net.sched.alive == []
    && j.sender in p.net.task && p.net.task[j.sender] == Own(|j.bytes|, [])
    && j.receiver in p.net.task && p.net.task[j.receiver] == Own(|j.bytes|, j.bytes)
  }

  function Other<C(==)>(j: Job<C>, c: C): (r: C) {
    if c == j.sender then j.receiver else j.sender
  }

  /** Ending hands control to the other routine, if it is still there. */
  lemma EndSwitch<C(!new)>(j: Job<C>, p: Pair<C>, c: C)
    requires PairInv(j, p) && p.net.sched.cur == Some(c) && HasRunner(p.net) && NextAct(j, p) == Complete
    ensures c == j.sender || c == j.receiver
    ensures Other(j, c) in p.net.task && Other(j, c) != c
            && (Other(j, c) in p.net.sched.alive ==> !IsLocked(p.net.sched, Other(j, c)))
    ensures var s := p.net.sched;
            var d := Other(j, c);
            && |Completed(s).alive| < |s.alive|
            && (forall x :: x in Completed(s).alive <==> x in s.alive && x != c)
            && Perform(p.net, Complete) == (if d in s.alive then Going(p.net.(sched := Resumed(Completed(s), d)))
                                           else Ended(p.net.(sched := Completed(s))))
  {
    hide Waits, CallerIsLive, NoDup, Choose, Conserves;
    OtherIsLeft(p.net.sched, c, Other(j, c));
  }

  /** A routine that has ended is not locked. */
  lemma EndedIsUnlocked<C(!new)>(net: Net<C>, c: C)
    requires Core(net) && c !in net.sched.alive
    ensures !IsLocked(net.sched, c)
  {
  }

  lemma EndStep<C(!new)>(j: Job<C>, p: Pair<C>)
    requires PairInv(j, p) && HasRunner(p.net) && NextAct(j, p) == Complete
    ensures var o := PairStep(j, p);
            if o.Busy? then PairInv(j, o.p) && Measure(j, o.p) < Measure(j, p) else o.Over? && Done(j, o.p)
  {
    hide Core, IsLocked, Perform, Completed, Resumed;
    var c := p.net.sched.cur.value;
    var d := Other(j, c);
    StepKeeps(p.net, Complete);
    EndSwitch(j, p, c);
    ResumedParts(p.net.sched, d);
    var o := Perform(p.net, Complete);
    HasMember(Completed(p.net.sched).alive);
    if d in p.net.sched.alive {
      EndedIsUnlocked(o.net, c);
    }
  }

  lemma ResumedParts<C(!new)>(s: Sched<C>, d: C)
    requires s.cur.Some?
    ensures Resumed(Completed(s), d).alive == Completed(s).alive && Resumed(Completed(s), d).cur == Some(d)
    ensures !OwnCaller(Resumed(Completed(s), d))
  {
  }

  /** The step of a routine that calls for no bytes: the call is answered, and nothing else happens. */
  lemma EmptyActs<C(!new)>(j: Job<C>, p: Pair<C>)
    requires HasRunner(p.net) && p.net.task[p.net.sched.cur.value].Own? && NextAct(j, p) != Complete
    requires j.chan in p.net.channels && j.bytes == [] && j.sender != j.receiver
    ensures var c := p.net.sched.cur.value;
            var after := p.net.(task := p.net.task[c := Own(0, [])]);
            && (c == j.sender || c == j.receiver)
            && (c == j.sender ==> !p.sent && PairStep(j, p) == Busy(Pair(after, true, p.received)))
            && (c == j.receiver ==> !p.received && PairStep(j, p) == Busy(Pair(after, p.sent, true)))
  {
    hide SendTurn, RecvTurn, Switch;
  }

  /** A sender or receiver of no bytes at all is done without touching the channel. */
  lemma EmptyCall<C(!new)>(j: Job<C>, p: Pair<C>)
    requires PairInv(j, p) && HasRunner(p.net) && j.bytes == [] && NextAct(j, p) != Complete
    ensures var o := PairStep(j, p);
            && o.Busy? && PairInv(j, o.p) && Measure(j, o.p) < Measure(j, p)
            && o.p.net.channels == p.net.channels && o.p.net.bufSize == p.net.bufSize
  {
    hide PairInv, PairStep, NextAct, Core, IsLocked, Measure;
    var c := p.net.sched.cur.value;
    var after := p.net.(task := p.net.task[c := Own(0, [])]);
    NothingStarted(j, p);
    EmptyActs(j, p);
    AwakeKeeps(p.net, c, Own(0, []));
    OwnIsUnlocked(after, j.sender);
    OwnIsUnlocked(after, j.receiver);
    if c == j.sender {
      EmptySent(j, p, after);
    } else {
      EmptyReceived(j, p, after);
    }
  }

  lemma EmptySent<C(!new)>(j: Job<C>, p: Pair<C>, net: Net<C>)
    requires PairInv(j, p) && j.bytes == [] && Inv(net) && p.net.sched.cur == Some(j.sender) && !p.sent
    requires net == p.net.(task := p.net.task[j.sender := Own(0, [])])
    requires !IsLocked(net.sched, j.receiver)
    ensures PairInv(j, Pair(net, true, p.received)) && Measure(j, Pair(net, true, p.received)) < Measure(j, p)
  {
    hide Core, IsLocked;
  }

  lemma EmptyReceived<C(!new)>(j: Job<C>, p: Pair<C>, net: Net<C>)
    requires PairInv(j, p) && j.bytes == [] && Inv(net) && p.net.sched.cur == Some(j.receiver) && !p.received
    requires net == p.net.(task := p.net.task[j.receiver := Own(0, [])])
    requires !IsLocked(net.sched, j.sender)
    ensures PairInv(j, Pair(net, p.sent, true)) && Measure(j, Pair(net, p.sent, true)) < Measure(j, p)
  {
    hide Core, IsLocked;
  }

  lemma NothingStarted<C(!new)>(j: Job<C>, p: Pair<C>)
    requires PairInv(j, p) && j.bytes == []
    ensures j.sender in p.net.task && p.net.task[j.sender].Own?
    ensures j.receiver in p.net.task && p.net.task[j.receiver].Own?
    ensures Inv(p.net) && j.sender != j.receiver && j.chan in p.net.channels
    ensures p.net.sched.cur == Some(j.sender) || p.net.sched.cur == Some(j.receiver)
  {
    hide Core;
    RunnerFacts(j, p);
  }

  lemma OwnIsUnlocked<C(!new)>(net: Net<C>, c: C)
    requires Core(net) && c in net.task && net.task[c].Own?
    ensures !IsLocked(net.sched, c)
  {
    assert c in net.sched.alive ==> Waits(net, c);
  }

  lemma SenderAt<C(!new)>(j: Job<C>, p: Pair<C>)
    requires Together(j, p)
    ensures j.sender in p.net.task && j.sender != j.receiver
    ensures !p.sent ==> p.net.task[j.sender].Own? && Written(j, p) == 0
    ensures !p.net.task[j.sender].Own? ==>
              p.sent && p.net.task[j.sender] == Sending(j.chan, j.bytes, Written(j, p)) && Written(j, p) < |j.bytes|
  {
  }

  lemma ReceiverAt<C(!new)>(j: Job<C>, p: Pair<C>)
    requires Together(j, p)
    ensures j.receiver in p.net.task && j.sender != j.receiver && Read(j, p) <= |j.bytes|
    ensures !p.received ==> p.net.task[j.receiver].Own? && Read(j, p) == 0
    ensures !p.net.task[j.receiver].Own? ==>
              && p.received && Read(j, p) < |j.bytes|
              && p.net.task[j.receiver] == Receiving(j.chan, |j.bytes|, j.bytes[..Read(j, p)])
    ensures Useful(j, p) && !p.net.task[j.receiver].Own? && p.net.sched.cur == Some(j.receiver) ==>
              Read(j, p) < Written(j, p)
  {
  }

  /** The step of a running sender that has bytes to send is a turn of its send. */
  lemma SenderActs<C(!new)>(j: Job<C>, p: Pair<C>, written: nat)
    requires HasRunner(p.net) && p.net.sched.cur == Some(j.sender) && Usable(p.net, j.chan)
    requires j.bytes != [] && written <= |j.bytes|
    requires if p.net.task[j.sender].Own? then !p.sent && written == 0
             else p.sent && p.net.task[j.sender] == Sending(j.chan, j.bytes, written)
    ensures var o := SendTurn(p.net, j.sender, j.chan, j.bytes, written);
            o.Going? ==> PairStep(j, p) == Busy(Pair(o.net, true, p.received))
  {
    hide SendTurn, RecvTurn, Switch;
  }

  lemma ReceiverActs<C(!new)>(j: Job<C>, p: Pair<C>, got: seq<byte>)
    requires HasRunner(p.net) && p.net.sched.cur == Some(j.receiver) && Usable(p.net, j.chan)
    requires j.sender != j.receiver && j.bytes != [] && |got| <= |j.bytes|
    requires if p.net.task[j.receiver].Own? then !p.received && got == []
             else p.received && p.net.task[j.receiver] == Receiving(j.chan, |j.bytes|, got)
    ensures var o := RecvTurn(p.net, j.receiver, j.chan, |j.bytes|, got);
            o.Going? ==> PairStep(j, p) == Busy(Pair(o.net, p.sent, true))
  {
    hide SendTurn, RecvTurn, Switch;
  }

  /** A routine that is not done with its own part has a call to make or to continue. */
  lemma NotDone<C(!new)>(j: Job<C>, p: Pair<C>)
    requires HasRunner(p.net) && NextAct(j, p) != Complete && j.sender != j.receiver
    ensures p.net.task[p.net.sched.cur.value].Own? && p.net.sched.cur == Some(j.sender) ==> !p.sent
    ensures p.net.task[p.net.sched.cur.value].Own? && p.net.sched.cur == Some(j.receiver) ==> !p.received
  {
  }

  /** A turn in which a routine that is its own caller does not finish: afterwards it is not. */
  lemma SenderStep<C(!new)>(j: Job<C>, p: Pair<C>)
    requires Together(j, p) && Useful(j, p) && HasRunner(p.net) && Usable(p.net, j.chan) && Roomy(j, p)
    requires p.net.sched.cur == Some(j.sender) && j.bytes != [] && NextAct(j, p) != Complete
    requires OwnCaller(p.net.sched) ==> |j.bytes| - Written(j, p) > p.net.channels[j.chan].queue.Free()
    ensures var o := PairStep(j, p);
            && o.Busy? && PairInv(j, o.p) && Measure(j, o.p) < Measure(j, p)
            && Usable(o.p.net, j.chan) && Roomy(j, o.p)
  {
    hide Core, SendTurn, Useful, SenderOk, ReceiverOk, PairStep, Together, NextAct, Written, Read, Push;
    SenderAt(j, p);
    NotDone(j, p);
    WrittenBound(j, p);
    SenderFindsRoom(j, p);
    SenderTurn(j, p, Written(j, p));
    SenderActs(j, p, Written(j, p));
  }

  lemma WrittenBound<C(!new)>(j: Job<C>, p: Pair<C>)
    requires Together(j, p)
    ensures Read(j, p) <= Written(j, p) <= |j.bytes|
    ensures p.net.task[j.sender].Own? && !p.sent && j.bytes != [] ==> Written(j, p) < |j.bytes|
    ensures p.net.task[j.receiver].Own? && !p.received && j.bytes != [] ==> Read(j, p) < |j.bytes|
  {
  }

  lemma ReceiverStep<C(!new)>(j: Job<C>, p: Pair<C>)
    requires Together(j, p) && Useful(j, p) && HasRunner(p.net) && Usable(p.net, j.chan) && Roomy(j, p)
    requires p.net.sched.cur == Some(j.receiver) && j.bytes != [] && NextAct(j, p) != Complete
    requires OwnCaller(p.net.sched) ==> Written(j, p) < |j.bytes|
    ensures var o := PairStep(j, p);
            && o.Busy? && PairInv(j, o.p) && Measure(j, o.p) < Measure(j, p)
            && Usable(o.p.net, j.chan) && Roomy(j, o.p)
  {
    hide Core, RecvTurn, Useful, SenderOk, ReceiverOk, PairStep, Together, NextAct, Written, Read;
    ReceiverAt(j, p);
    NotDone(j, p);
    WrittenBound(j, p);
    TurnFinds(j, p);
    assert j.bytes[..0] == [];
    ReceiverTurn(j, p, j.bytes[..Read(j, p)]);
    ReceiverActs(j, p, j.bytes[..Read(j, p)]);
  }

  /** The sender's turn comes when the channel is empty, and then there is room. */
  lemma SenderFindsRoom<C(!new)>(j: Job<C>, p: Pair<C>)
    requires Together(j, p) && Useful(j, p) && Usable(p.net, j.chan) && Roomy(j, p)
    requires p.net.sched.cur == Some(j.sender) && Written(j, p) < |j.bytes|
    ensures p.net.channels[j.chan].queue.stored == [] && p.net.channels[j.chan].queue.Free() > 0
  {
    assert p.net.channels[j.chan].queue.size == p.net.bufSize;
  }

  /** Ending, or a call for no bytes, leaves the channel alone. */
  lemma QuietStep<C(!new)>(j: Job<C>, p: Pair<C>)
    requires PairInv(j, p) && HasRunner(p.net) && Usable(p.net, j.chan) && Roomy(j, p)
    requires NextAct(j, p) == Complete || j.bytes == []
    ensures var o := PairStep(j, p);
            if o.Busy? then && PairInv(j, o.p) && Measure(j, o.p) < Measure(j, p)
                            && Usable(o.p.net, j.chan) && Roomy(j, o.p)
            else o.Over? && Done(j, o.p)
  {
    hide PairInv, Core, SendTurn, RecvTurn, Completed;
    if NextAct(j, p) == Complete {
      EndStep(j, p);
    } else {
      NothingStarted(j, p);
      EmptyCall(j, p);
    }
  }

  /** Every step of the two goes on towards the end, or is the last one. */
  lemma PairStepGoesOn<C(!new)>(j: Job<C>, p: Pair<C>)
    requires PairInv(j, p) && Usable(p.net, j.chan) && Roomy(j, p)
    ensures var o := PairStep(j, p);
            if o.Busy? then && PairInv(j, o.p) && Measure(j, o.p) < Measure(j, p)
                            && Usable(o.p.net, j.chan) && Roomy(j, o.p)
            else o.Over? && Done(j, o.p)
  {
    hide PairStep, Core, Roomy, Measure, Done;
    RunnerFacts(j, p);
    if NextAct(j, p) == Complete || j.bytes == [] {
      QuietStep(j, p);
    } else if p.net.sched.cur == Some(j.sender) {
      SenderStep(j, p);
    } else {
      ReceiverStep(j, p);
    }
  }

  /** The two run to the end within as many steps as the measure says. */
  lemma {:induction false} PairFinishes<C(!new)>(j: Job<C>, p: Pair<C>, steps: nat)
    requires PairInv(j, p) && Usable(p.net, j.chan) && Roomy(j, p) && Measure(j, p) < steps
    ensures RunPair(j, p, steps).Over? && Done(j, RunPair(j, p, steps).p)
    decreases steps
  {
    hide PairInv, PairStep, Done, Measure, Roomy;
    MeasureIsNat(j, p);
    PairStepGoesOn(j, p);
    var o := PairStep(j, p);
    if o.Busy? {
      PairFinishes(j, o.p, steps - 1);
    }
  }

  lemma MeasureIsNat<C(!new)>(j: Job<C>, p: Pair<C>)
    requires PairInv(j, p)
    ensures Measure(j, p) >= 0
  {
  }

  /** The start of a transfer: the two are alone, in their own code, and the channel is empty. */
  ghost predicate Ready<C(!new)>(j: Job<C>, net: Net<C>) {
    && Inv(net) && j.sender != j.receiver
    && j.sender in net.sched.alive && j.receiver in net.sched.alive
    && (forall c :: c in net.sched.alive ==> c == j.sender || c == j.receiver)
    && j.sender in net.task && net.task[j.sender].Own?
    && j.receiver in net.task && net.task[j.receiver].Own?
    && Usable(net, j.chan) && net.channels[j.chan].queue.stored == []
  }

  lemma ReadyIsTogether<C(!new)>(j: Job<C>, net: Net<C>)
    requires Ready(j, net)
    ensures Together(j, Pair(net, false, false)) && Useful(j, Pair(net, false, false))
    ensures Written(j, Pair(net, false, false)) == Read(j, Pair(net, false, false)) == 0
    ensures Measure(j, Pair(net, false, false)) == 2 + 2 * |j.bytes| + |net.sched.alive|
    ensures HasRunner(net) && NextAct(j, Pair(net, false, false)) != Complete
  {
    hide Core, IsLocked;
    RunnerFacts(j, Pair(net, false, false));
  }

  /** More is still to be written than a buffer of at most one byte will ever take again. */
  ghost predicate Hopeless<C(!new)>(j: Job<C>, p: Pair<C>) {
    && Together(j, p) && p.net.bufSize < 2 && Usable(p.net, j.chan)
    && p.net.channels[j.chan].queue.size == p.net.bufSize
    && |j.bytes| - Written(j, p) > p.net.channels[j.chan].queue.Free()
  }

  /** While bytes are still to be written, neither of the two is done. */
  lemma Unfinished<C(!new)>(j: Job<C>, p: Pair<C>)
    requires Together(j, p) && Written(j, p) < |j.bytes|
    ensures Read(j, p) < |j.bytes|
    ensures p.net.task[j.sender].Own? ==> !p.sent
    ensures p.net.task[j.receiver].Own? ==> !p.received
  {
  }

  /** A read from a buffer of at most one byte makes no room: the place it empties is given up. */
  lemma NoRoomMade(q: Fifo, n: nat)
    requires q.Fits() && q.size < 2
    ensures Pop(q, n).Free() <= q.Free()
  {
  }

  /** Every step of a hopeless transfer hands control to the other one and leaves it hopeless. */
  lemma HopelessGoesOn<C(!new)>(j: Job<C>, p: Pair<C>)
    requires Hopeless(j, p) && p.net.sched.cur.Some?
    ensures PairStep(j, p).Busy? && Hopeless(j, PairStep(j, p).p)
    ensures PairStep(j, p).p.net.sched.cur == Some(Other(j, p.net.sched.cur.value))
  {
    hide Together, Written, PairStep;
    RunnerFacts(j, p);
    if p.net.sched.cur == Some(j.sender) {
      HopelessSender(j, p);
    } else {
      HopelessReceiver(j, p);
    }
  }

  lemma HopelessSender<C(!new)>(j: Job<C>, p: Pair<C>)
    requires Hopeless(j, p) && p.net.sched.cur == Some(j.sender) && HasRunner(p.net)
    ensures PairStep(j, p).Busy? && Hopeless(j, PairStep(j, p).p)
    ensures PairStep(j, p).p.net.sched.cur == Some(j.receiver)
  {
    hide Core, SendTurn, Useful, SenderOk, ReceiverOk, PairStep, Together, Written, Read, Push;
    Unfinished(j, p);
    SenderAt(j, p);
    SenderTurn(j, p, Written(j, p));
    SenderActs(j, p, Written(j, p));
  }

  lemma HopelessReceiver<C(!new)>(j: Job<C>, p: Pair<C>)
    requires Hopeless(j, p) && p.net.sched.cur == Some(j.receiver) && HasRunner(p.net)
    ensures PairStep(j, p).Busy? && Hopeless(j, PairStep(j, p).p)
    ensures PairStep(j, p).p.net.sched.cur == Some(j.sender)
  {
    hide Core, RecvTurn, Useful, SenderOk, ReceiverOk, PairStep, Together, Written, Read, Pop;
    Unfinished(j, p);
    ReceiverAt(j, p);
    TurnFinds(j, p);
    assert j.bytes[..0] == [];
    NoRoomMade(p.net.channels[j.chan].queue, |j.bytes| - Read(j, p));
    ReceiverTurn(j, p, j.bytes[..Read(j, p)]);
    ReceiverActs(j, p, j.bytes[..Read(j, p)]);
  }

  /** A hopeless transfer never ends: the two pass control to and fro for ever. */
  lemma {:induction false} HopelessNeverEnds<C(!new)>(j: Job<C>, p: Pair<C>, steps: nat)
    requires Hopeless(j, p) && p.net.sched.cur.Some?
    ensures RunPair(j, p, steps).Busy?
    ensures var c := p.net.sched.cur.value;
            RunPair(j, p, steps).p.net.sched.cur == Some(if steps % 2 == 0 then c else Other(j, c))
    decreases steps
  {
    hide Hopeless, PairStep;
    HopelessRunner(j, p);
    if steps > 0 {
      HopelessGoesOn(j, p);
      HopelessNeverEnds(j, PairStep(j, p).p, steps - 1);
    }
  }

  lemma HopelessRunner<C(!new)>(j: Job<C>, p: Pair<C>)
    requires Hopeless(j, p)
    ensures j.sender != j.receiver && (p.net.sched.cur == Some(j.sender) || p.net.sched.cur == Some(j.receiver))
  {
    RunnerFacts(j, p);
  }

  // ---- exactly when a transfer ends

  /** The running routine is its own caller, and its call does not end at its first turn. */
  ghost predicate MustWait<C>(j: Job<C>, net: Net<C>)
    requires Usable(net, j.chan)
  {
    if net.sched.cur == Some(j.sender) then |j.bytes| > net.channels[j.chan].queue.Capacity() else j.bytes != []
  }

  /** What a transfer needs to end: a buffer of two bytes, or one that takes all bytes at once; and a
      routine that starts as its own caller must have to wait, or else control passes to it when it
      has ended. */
  ghost predicate Ends<C>(j: Job<C>, net: Net<C>)
    requires Usable(net, j.chan)
  {
    && (net.bufSize >= 2 || |j.bytes| <= net.channels[j.chan].queue.Capacity())
    && (OwnCaller(net.sched) ==> MustWait(j, net))
  }

  /** The first step of a routine whose call ends at its first turn. */
  lemma EmptyFirst<C(!new)>(j: Job<C>, net: Net<C>)
    requires Ready(j, net) && j.bytes == []
    ensures var o := PairStep(j, Pair(net, false, false));
            && o.Busy? && PartDone(j, o.p) && (OwnCaller(net.sched) ==> OwnCaller(o.p.net.sched))
  {
    hide Core, SendTurn, RecvTurn;
    ReadyIsTogether(j, net);
    RunnerFacts(j, Pair(net, false, false));
  }

  lemma FullFirst<C(!new)>(j: Job<C>, net: Net<C>)
    requires Ready(j, net) && net.sched.cur == Some(j.sender) && j.bytes != []
    requires |j.bytes| <= net.channels[j.chan].queue.Capacity()
    ensures var o := PairStep(j, Pair(net, false, false));
            && o.Busy? && PartDone(j, o.p) && (OwnCaller(net.sched) ==> OwnCaller(o.p.net.sched))
  {
    hide Core, SendTurn, PairStep, NextAct, Written;
    ReadyIsTogether(j, net);
    TurnFinds(j, Pair(net, false, false));
    SendTurnGoes(net, j.sender, j.receiver, j.chan, j.bytes, 0);
    SenderActs(j, Pair(net, false, false), 0);
  }

  /** The running routine is at the end of its part. */
  ghost predicate PartDone<C>(j: Job<C>, p: Pair<C>) {
    && HasRunner(p.net) && p.net.task[p.net.sched.cur.value].Own?
    && (p.net.sched.cur == Some(j.sender) || p.net.sched.cur == Some(j.receiver)) && j.sender != j.receiver
    && (p.net.sched.cur == Some(j.sender) ==> p.sent)
    && (p.net.sched.cur == Some(j.receiver) ==> p.received)
  }

  lemma OwnCallerStops<C(!new)>(j: Job<C>, p: Pair<C>, steps: nat)
    requires PairStep(j, p).Busy? && PartDone(j, PairStep(j, p).p) && OwnCaller(PairStep(j, p).p.net.sched)
    ensures !RunPair(j, p, steps).Over?
  {
    var next := PairStep(j, p).p;
    assert PairStep(j, next).Failed?;
    if steps > 1 {
      assert RunPair(j, p, steps) == RunPair(j, next, steps - 1);
    }
  }

  lemma OwnCallerFails<C(!new)>(j: Job<C>, net: Net<C>, steps: nat)
    requires Ready(j, net) && OwnCaller(net.sched) && !MustWait(j, net)
    ensures !RunPair(j, Pair(net, false, false), steps).Over?
  {
    hide PairStep, RunPair, PartDone, Core;
    if j.bytes == [] {
      EmptyFirst(j, net);
    } else {
      ReadyIsTogether(j, net);
      RunnerFacts(j, Pair(net, false, false));
      FullFirst(j, net);
    }
    OwnCallerStops(j, Pair(net, false, false), steps);
  }

  /** The first step of a routine that is its own caller and has to wait. */
  lemma OwnCallerStarts<C(!new)>(j: Job<C>, net: Net<C>)
    requires Ready(j, net) && OwnCaller(net.sched) && Ends(j, net)
    ensures var p := Pair(net, false, false);
            var o := PairStep(j, p);
            && o.Busy? && PairInv(j, o.p) && Usable(o.p.net, j.chan) && Roomy(j, o.p)
            && Measure(j, o.p) < Measure(j, p)
  {
    hide Core, PairStep, Together, Useful, PairInv, Measure, Written, Read, NextAct;
    var p := Pair(net, false, false);
    ReadyIsTogether(j, net);
    RunnerFacts(j, p);
    if net.sched.cur == Some(j.sender) {
      SenderStep(j, p);
    } else {
      ReceiverStep(j, p);
    }
  }

  /** One coroutine that sends `bytes` and one that receives as many, alone on an open and empty
      channel: both finish, whichever of them starts, and what arrives is what was sent. A buffer
      of two bytes is enough for any number of bytes. */
  lemma TransferFinishes<C(!new)>(j: Job<C>, net: Net<C>)
    requires Ready(j, net) && Ends(j, net)
    ensures var o := RunPair(j, Pair(net, false, false), 2 * |j.bytes| + |net.sched.alive| + 3);
            && o.Over? && o.p.net.sched.alive == []
            && j.sender in o.p.net.task && o.p.net.task[j.sender] == Own(|j.bytes|, [])
            && j.receiver in o.p.net.task && o.p.net.task[j.receiver] == Own(|j.bytes|, j.bytes)
  {
    hide Core, PairStep, Together, Useful, Measure, Written, Read, NextAct;
    var p, steps := Pair(net, false, false), 2 * |j.bytes| + |net.sched.alive| + 3;
    ReadyIsTogether(j, net);
    if OwnCaller(net.sched) {
      OwnCallerStarts(j, net);
      PairFinishes(j, PairStep(j, p).p, steps - 1);
    } else {
      PairFinishes(j, p, steps);
    }
  }

  /** Exactly when a transfer ends. */
  lemma TransferFinishesIff<C(!new)>(j: Job<C>, net: Net<C>)
    requires Ready(j, net)
    ensures (exists steps: nat :: RunPair(j, Pair(net, false, false), steps).Over?) <==> Ends(j, net)
  {
    hide RunPair, Core, PairInv, Useful, NextAct, MustWait;
    var p := Pair(net, false, false);
    if Ends(j, net) {
      TransferFinishes(j, net);
    } else {
      ReadyIsTogether(j, net);
      TurnFinds(j, p);
      forall steps: nat ensures !RunPair(j, p, steps).Over? {
        if net.bufSize >= 2 || |j.bytes| <= net.channels[j.chan].queue.Capacity() {
          OwnCallerFails(j, net, steps);
        } else {
          HopelessNeverEnds(j, p, steps);
        }
      }
    }
  }

  /** The engine after the main routine has registered a second one and opened a channel. */
  function Prepared<C(==)>(main: C, other: C, bufSize: nat): (r: Net<C>) {
    var s := Registered(Started(main), other);
    Net(s, map[0 := Opened(bufSize)], map[], map[main := Own(0, [])][other := Own(0, [])], bufSize)
  }

  /** The start of a transfer is reached in a run, with either routine as the sender. */
  lemma ReadyIsReached<C(!new)>(main: C, other: C, bufSize: nat, bytes: seq<byte>)
    requires main != other
    ensures Leads(Initial(main, bufSize), [Launch(other), Create], Going(Prepared(main, other, bufSize)))
    ensures Ready(Job(main, other, 0, bytes), Prepared(main, other, bufSize))
    ensures Ready(Job(other, main, 0, bytes), Prepared(main, other, bufSize))
  {
    var start: Net<C> := Initial(main, bufSize);
    var acts: seq<Act<C>> := [Launch(other), Create];
    var next := Perform(start, acts[0]).net;
    assert acts[1..] == [Create] && acts[1..][1..] == [];
    assert Leads(Prepared(main, other, bufSize), [], Going(Prepared(main, other, bufSize)));
    assert Leads(next, acts[1..], Going(Prepared(main, other, bufSize)));
    InitialHolds(main, bufSize);
    RunsKeep(start, acts, Going(Prepared(main, other, bufSize)));
  }

  /** Two bytes never get through a buffer of one byte. */
  lemma TwoBytesThroughOne<C(!new)>(main: C, other: C, steps: nat)
    requires main != other
    ensures !RunPair(Job(main, other, 0, [7, 7]), Pair(Prepared(main, other, 1), false, false), steps).Over?
  {
    ReadyIsReached(main, other, 1, [7, 7]);
    TransferFinishesIff(Job(main, other, 0, [7, 7]), Prepared(main, other, 1));
  }
}
