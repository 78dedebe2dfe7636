/** Blocking channels on cooperative coroutines (hw-net-engine/src/net-engine.cpp) as a step
    machine: one step is what the running routine does up to the next point at which control
    may pass to another one. */
module NetMachine {
  import opened Options
  import opened Seqs
  import opened Fifos
  import opened Scheduling
  import opened EngineRuns

  /** A channel and the bytes that went in and came out of it so far. */
  datatype Chan = Chan(queue: Fifo, sent: seq<byte>, received: seq<byte>)

  /** What a routine is in the middle of: its own code, with the answer of its last channel call
      and the bytes that call delivered, or a call of send or recv that is not done yet. */
  datatype Task =
    | Own(answer: int, got: seq<byte>)
    | Sending(chan: int, bytes: seq<byte>, written: nat)
    | Receiving(chan: int, want: nat, got: seq<byte>)

  /** `locks` is the table of routines that ever waited on a channel; entries are never erased. */
  datatype Net<C> = Net(sched: Sched<C>, channels: map<int, Chan>, locks: map<int, seq<C>>,
                        task: map<C, Task>, bufSize: nat)

  /** A step goes on; or `start` returns; or the engine stops with a dead lock; or no routine can
      continue; or a call uses a channel that is not there any more. */
  datatype NetOutcome<C> =
    | Going(net: Net<C>)
    | Ended(net: Net<C>)
    | Dead(net: Net<C>)
    | Lost(net: Net<C>)
    | Broken(net: Net<C>)

  /** What the running routine does next. `Continue` goes on with a suspended send or recv. */
  datatype Act<C> =
    | Send(chan: int, bytes: seq<byte>)
    | Recv(chan: int, want: nat)
    | Continue
    | PassOn(target: Option<C>)
    | Launch(c: C)
    | Complete
    | Create
    | CreateAt(chan: int)
    | Close(chan: int)

  // ---- the lock table

  function Lock<C(==)>(net: Net<C>, chan: int, c: C, reason: LockedState): (r: Net<C>) {
    net.(sched := net.sched.(locked := net.sched.locked[c := reason]),
         locks := net.locks[chan := (if chan in net.locks then net.locks[chan] else []) + [c]])
  }

  function UnlockAll<C(==)>(net: Net<C>, chan: int, reason: LockedState): (n: Net<C>)
    ensures n.(sched := net.sched) == net && n.sched.(locked := net.sched.locked) == net.sched
    ensures n.sched.locked.Keys == net.sched.locked.Keys
  {
    if chan in net.locks then
      net.(sched := net.sched.(locked :=
        map c | c in net.sched.locked ::
          if c in net.locks[chan] && net.sched.locked[c] == reason then NotLocked else net.sched.locked[c]))
    else net
  }

  // ---- descriptors

  /** The least number from `n` on that is not a key; `rest` holds the keys from `n` on. */
  function LeastUnused(keys: set<int>, n: nat, rest: set<int>): (d: nat)
    requires rest <= keys && forall k :: k in keys && k >= n ==> k in rest
    ensures d >= n && d !in keys && forall i :: n <= i < d ==> i in keys
    decreases rest
  {
    if n in rest then LeastUnused(keys, n + 1, rest - {n}) else n
  }

  /** What `create_channel()` chooses: the search starts at 0 and stops at the first key of the
      table, in ascending order, that is not the next number, so a negative key stops it at once. */
  function NewDescriptor(keys: set<int>): (r: int) {
    if exists k :: k in keys && k < 0 then 0 else LeastUnused(keys, 0, keys)
  }

  /** The chosen descriptor is unused, unless a negative descriptor is open and 0 is too. */
  lemma NewDescriptorIsUnusedIff(keys: set<int>)
    ensures NewDescriptor(keys) !in keys <==> 0 !in keys || forall k :: k in keys ==> k >= 0
    ensures (forall k :: k in keys ==> k >= 0) ==>
              NewDescriptor(keys) !in keys && forall i :: 0 <= i < NewDescriptor(keys) ==> i in keys
  {
  }

  /** With descriptors -1 and 0 open, `create_channel()` chooses 0 and so replaces an open channel. */
  lemma OpenChannelIsReplaced()
    ensures NewDescriptor({-1, 0}) == 0
  {
    assert -1 in {-1, 0};
  }

  // ---- steps

  function Opened(bufSize: nat): (r: Chan) {
    Chan(Fifo(bufSize, [], false), [], [])
  }

  function Switch<C(==)>(net: Net<C>, target: Option<C>): (o: NetOutcome<C>)
    requires net.sched.cur.Some? ==> net.sched.cur.value in net.sched.caller
    ensures o.net.(sched := net.sched) == net
    ensures o.net.sched.alive == net.sched.alive && o.net.sched.locked == net.sched.locked
  {
    match Decide(net.sched, target)
    case Running(s) => Going(net.(sched := s))
    case Returned(s) => Ended(net.(sched := s))
    case Stopped(s) => Dead(net.(sched := s))
    case Stuck(s) => Lost(net.(sched := s))
  }

  /** A channel after a write of `bytes`, and after a read of up to `n` bytes. */
  function AfterWrite(ch: Chan, bytes: seq<byte>): (r: Chan)
    requires ch.queue.Fits()
  {
    Chan(Push(ch.queue, bytes), ch.sent + bytes[..Accepted(ch.queue, |bytes|)], ch.received)
  }

  function AfterRead(ch: Chan, n: nat): (r: Chan)
    requires ch.queue.Fits()
  {
    Chan(Pop(ch.queue, n), ch.sent, ch.received + Delivered(ch.queue, n))
  }

  /** The effect of one write of a send: bytes go in and the waiting readers are unlocked. */
  function Wrote<C(==)>(net: Net<C>, chan: int, rest: seq<byte>): (r: Net<C>)
    requires chan in net.channels && net.channels[chan].queue.Fits()
  {
    UnlockAll(net.(channels := net.channels[chan := AfterWrite(net.channels[chan], rest)]), chan, LockedRead)
  }

  /** The effect of one read of a recv: bytes come out and the waiting writers are unlocked. */
  function ReadOut<C(==)>(net: Net<C>, chan: int, n: nat): (r: Net<C>)
    requires chan in net.channels && net.channels[chan].queue.Fits()
  {
    UnlockAll(net.(channels := net.channels[chan := AfterRead(net.channels[chan], n)]), chan, LockedWrite)
  }

  /** One turn of the loop of `send_channel`, for routine `c`, up to the next yield or return. */
  function SendTurn<C(==)>(net: Net<C>, c: C, chan: int, bytes: seq<byte>, written: nat): (o: NetOutcome<C>)
    requires net.sched.cur == Some(c) && c in net.sched.caller
    requires chan in net.channels && net.channels[chan].queue.Fits() && written <= |bytes|
    ensures o.net.bufSize == net.bufSize && o.net.channels.Keys == net.channels.Keys
  {
    var now := written + Accepted(net.channels[chan].queue, |bytes| - written);
    var after := Wrote(net, chan, bytes[written..]);
    if now == |bytes| then Going(after.(task := after.task[c := Own(now, [])]))
    else Switch(Lock(after.(task := after.task[c := Sending(chan, bytes, now)]), chan, c, LockedWrite), None)
  }

  /** One turn of the loop of `recv_channel`. */
  function RecvTurn<C(==)>(net: Net<C>, c: C, chan: int, want: nat, got: seq<byte>): (o: NetOutcome<C>)
    requires net.sched.cur == Some(c) && c in net.sched.caller
    requires chan in net.channels && net.channels[chan].queue.Fits() && |got| <= want
    ensures o.net.bufSize == net.bufSize && o.net.channels.Keys == net.channels.Keys
  {
    var now := got + Delivered(net.channels[chan].queue, want - |got|);
    var after := ReadOut(net, chan, want - |got|);
    if |now| == want then Going(after.(task := after.task[c := Own(want, now)]))
    else Switch(Lock(after.(task := after.task[c := Receiving(chan, want, now)]), chan, c, LockedRead), None)
  }

  /** The running routine has its records. */
  predicate HasRunner<C(==)>(net: Net<C>) {
    net.sched.cur.Some? && net.sched.cur.value in net.sched.caller && net.sched.cur.value in net.task
  }

  /** A new channel may take the place of channel `d`: no live routine is locked for writing on it.
      (A buffer without room is full, new or not.) On an unused descriptor nobody is locked. */
  predicate Replaceable<C(==)>(net: Net<C>, d: int) {
    || net.bufSize == 0
    || forall c :: c in net.sched.alive && c in net.task && c in net.sched.locked ==>
         !(net.task[c].Sending? && net.task[c].chan == d && net.sched.locked[c] == LockedWrite)
  }

  /** A routine may act in its own code, or continue the call it is in the middle of; targets are
      live, new routines are new, no routine ends as its own caller, and `create_channel()` replaces no
      channel on which a routine is locked for writing. */
  predicate MayAct<C(==)>(net: Net<C>, a: Act<C>) {
    && HasRunner(net)
    && var c := net.sched.cur.value;
       (a.Continue? <==> !net.task[c].Own?)
       && match a
          case PassOn(t) => t.Some? ==> t.value in net.sched.alive
          case Complete => !OwnCaller(net.sched)
          case Launch(d) => d !in net.sched.caller
          case Create => Replaceable(net, NewDescriptor(net.channels.Keys))
          case _ => true
  }

  /** The channel a call works on is there, and its buffer is in order. */
  predicate Usable<C(==)>(net: Net<C>, chan: int) {
    chan in net.channels && net.channels[chan].queue.Fits()
  }

  function Perform<C(==)>(net: Net<C>, a: Act<C>): (r: NetOutcome<C>)
    requires MayAct(net, a)
  {
    var c := net.sched.cur.value;
    match a
    case Send(chan, bytes) =>
      if chan !in net.channels then Going(net.(task := net.task[c := Own(-1, [])]))
      else if bytes == [] then Going(net.(task := net.task[c := Own(0, [])]))
      else if !Usable(net, chan) then Broken(net)
      else SendTurn(net, c, chan, bytes, 0)
    case Recv(chan, want) =>
      if chan !in net.channels then Going(net.(task := net.task[c := Own(-1, [])]))
      else if want == 0 then Going(net.(task := net.task[c := Own(0, [])]))
      else if !Usable(net, chan) then Broken(net)
      else RecvTurn(net, c, chan, want, [])
    case Continue =>
      (match net.task[c]
       case Sending(chan, bytes, written) =>
         if Usable(net, chan) && written <= |bytes| then SendTurn(net, c, chan, bytes, written) else Broken(net)
       case Receiving(chan, want, got) =>
         if Usable(net, chan) && |got| <= want then RecvTurn(net, c, chan, want, got) else Broken(net)
       case Own(_, _) => Going(net))
    case PassOn(t) => Switch(net, t)
    case Launch(d) => Going(net.(sched := Registered(net.sched, d), task := net.task[d := Own(0, [])]))
    case Complete => Switch(net.(sched := Completed(net.sched)), net.sched.caller[c])
    case Create =>
      var d := NewDescriptor(net.channels.Keys);
      Going(net.(channels := net.channels[d := Opened(net.bufSize)]))
    case CreateAt(d) =>
      Going(if d in net.channels then net else net.(channels := net.channels[d := Opened(net.bufSize)]))
    case Close(d) =>
      Going(if d in net.locks && net.locks[d] != [] then net else net.(channels := net.channels - {d}))
  }

  // ---- the invariant

  /** Why routine `c` is suspended, if it is: a routine locked for reading waits on an empty
      channel, a routine locked for writing on a full one, and a routine in the middle of a call
      is in the lock list of an open channel. */
  ghost predicate Waits<C>(net: Net<C>, c: C)
    requires c in net.task && c in net.sched.locked
  {
    match net.task[c]
    case Own(_, _) => net.sched.locked[c] == NotLocked
    case Sending(chan, bytes, written) =>
      && written < |bytes| && InCall(net, c, chan)
      && net.sched.locked[c] != LockedRead
      && (net.sched.locked[c] == LockedWrite ==>
            net.channels[chan].queue.Fits() && net.channels[chan].queue.Free() == 0)
    case Receiving(chan, want, got) =>
      && |got| < want && InCall(net, c, chan)
      && net.sched.locked[c] != LockedWrite
      && (net.sched.locked[c] == LockedRead ==> net.channels[chan].queue.stored == [])
  }

  ghost predicate InCall<C>(net: Net<C>, c: C, chan: int) {
    chan in net.channels && chan in net.locks && c in net.locks[chan]
  }

  /** What went into a channel is what came out of it followed by what it holds, in order. */
  ghost predicate Conserves(ch: Chan) {
    && ch.queue.Fits()
    && ch.sent == ch.received + ch.queue.stored
    && (ch.queue.drained <==> ch.received != [])
  }

  ghost predicate Core<C(!new)>(net: Net<C>) {
    && Sound(net.sched)
    && net.task.Keys == net.sched.caller.Keys
    && (forall c :: c in net.sched.alive ==> Waits(net, c))
    && (forall c :: c in net.sched.locked && c !in net.sched.alive ==> net.sched.locked[c] == NotLocked)
    && (forall d :: d in net.channels ==> Conserves(net.channels[d]) && net.channels[d].queue.size == net.bufSize)
  }

  /** The invariant between steps: besides, the running routine is not locked. */
  ghost predicate Inv<C(!new)>(net: Net<C>) {
    Core(net) && net.sched.cur.Some? && !IsLocked(net.sched, net.sched.cur.value)
  }

  // ---- every step keeps it

  /** Other routines are not disturbed when the locks of one kind are released and nothing else
      of what they wait for changes. */
  lemma WroteKeepsWaits<C(!new)>(net: Net<C>, chan: int, rest: seq<byte>, c: C)
    requires chan in net.channels && net.channels[chan].queue.Fits()
    requires c in net.task && c in net.sched.locked && Waits(net, c)
    ensures Waits(Wrote(net, chan, rest), c)
  {
  }

  lemma ReadOutKeepsWaits<C(!new)>(net: Net<C>, chan: int, n: nat, c: C)
    requires chan in net.channels && net.channels[chan].queue.Fits()
    requires c in net.task && c in net.sched.locked && Waits(net, c)
    ensures Waits(ReadOut(net, chan, n), c)
  {
  }

  lemma WroteKeepsCore<C(!new)>(net: Net<C>, chan: int, rest: seq<byte>)
    requires Core(net) && chan in net.channels
    ensures Core(Wrote(net, chan, rest))
  {
    var after := Wrote(net, chan, rest);
    forall c | c in after.sched.alive ensures Waits(after, c) {
      WroteKeepsWaits(net, chan, rest, c);
    }
    var ch := net.channels[chan];
    Regroup(ch.received, ch.queue.stored, rest[..Accepted(ch.queue, |rest|)]);
  }

  lemma ReadOutKeepsCore<C(!new)>(net: Net<C>, chan: int, n: nat)
    requires Core(net) && chan in net.channels
    ensures Core(ReadOut(net, chan, n))
  {
    var after := ReadOut(net, chan, n);
    forall c | c in after.sched.alive ensures Waits(after, c) {
      ReadOutKeepsWaits(net, chan, n, c);
    }
    var ch := net.channels[chan];
    Regroup(ch.received, Delivered(ch.queue, n), Pop(ch.queue, n).stored);
  }

  /** A write to a channel unlocks every routine that waits to read from it and no routine that waits
      to write; and whoever it unlocks has waited on that channel. */
  lemma WriteWakesReaders<C(!new)>(net: Net<C>, chan: int, rest: seq<byte>, c: C)
    requires Core(net) && chan in net.channels && c in net.sched.alive
    ensures var before, after := net.sched.locked[c], Wrote(net, chan, rest).sched.locked[c];
      && (before == LockedRead && net.task[c].chan == chan ==> after == NotLocked)
      && (before != LockedRead ==> after == before)
      && (before != after ==> chan in net.locks && c in net.locks[chan] && after == NotLocked)
  {
    assert Waits(net, c);
  }

  /** A read from a channel unlocks every routine that waits to write to it and no routine that waits
      to read; and whoever it unlocks has waited on that channel. */
  lemma ReadWakesWriters<C(!new)>(net: Net<C>, chan: int, n: nat, c: C)
    requires Core(net) && chan in net.channels && c in net.sched.alive
    ensures var before, after := net.sched.locked[c], ReadOut(net, chan, n).sched.locked[c];
      && (before == LockedWrite && net.task[c].chan == chan ==> after == NotLocked)
      && (before != LockedWrite ==> after == before)
      && (before != after ==> chan in net.locks && c in net.locks[chan] && after == NotLocked)
  {
    assert Waits(net, c);
  }

  /** Putting the running routine to sleep keeps the invariant if it has a reason to wait. */
  lemma SleepKeepsCore<C(!new)>(net: Net<C>, c: C, t: Task, chan: int, reason: LockedState)
    requires Inv(net) && net.sched.cur == Some(c) && chan in net.channels
    requires
      || (t.Sending? && t.chan == chan && t.written < |t.bytes| && reason == LockedWrite && net.channels[chan].queue.Free() == 0)
      || (t.Receiving? && t.chan == chan && |t.got| < t.want && reason == LockedRead && net.channels[chan].queue.stored == [])
    ensures Core(Lock(net.(task := net.task[c := t]), chan, c, reason))
  {
    var after := Lock(net.(task := net.task[c := t]), chan, c, reason);
    forall d | d in after.sched.alive ensures Waits(after, d) {
      assert Waits(net, d);
    }
  }

  /** What holds of the outcome of a step. */
  ghost predicate Kept<C(!new)>(o: NetOutcome<C>) {
    && !o.Broken? && Core(o.net)
    && (o.Going? ==> Inv(o.net))
    && (o.Ended? ==> o.net.sched.alive == [])
    && (o.Dead? || o.Lost? ==> o.net.sched.alive != [] && forall c :: c in o.net.sched.alive ==> IsLocked(o.net.sched, c))
  }

  /** Nothing a routine waits for depends on who runs or who called whom. */
  lemma RescheduledKeeps<C(!new)>(net: Net<C>, s: Sched<C>)
    requires Core(net) && Sound(s)
    requires s.alive == net.sched.alive && s.locked == net.sched.locked && s.caller.Keys == net.sched.caller.Keys
    ensures Core(net.(sched := s))
  {
    hide CallerIsLive, NoDup, Conserves;
    var after := net.(sched := s);
    forall c | c in after.sched.alive ensures Waits(after, c) {
      assert Waits(net, c);
    }
  }

  /** What the scheduler leaves alone. */
  lemma DecideParts<C(!new)>(s: Sched<C>, target: Option<C>)
    requires Sound(s) && (target.Some? ==> target.value in s.alive)
    ensures s.cur.Some? ==> s.cur.value in s.caller && s.alive != []
    ensures var n := Decide(s, target).s;
            n.alive == s.alive && n.locked == s.locked && n.caller.Keys == s.caller.Keys
    ensures !Decide(s, target).Running? ==> Decide(s, target).s == s
  {
    ResumesUnlocked(s, target);
  }

  /** Switching keeps the invariant, and gives control to a routine that is not locked. */
  lemma SwitchKeeps<C(!new)>(net: Net<C>, target: Option<C>)
    requires Core(net)
    requires target.Some? ==> target.value in net.sched.alive
    ensures Kept(Switch(net, target))
    ensures Switch(net, target).Going? ==> !IsLocked(net.sched, Switch(net, target).net.sched.cur.value)
  {
    hide Conserves, Waits, Sound, Choose, Decide;
    DecideParts(net.sched, target);
    DecideIsSound(net.sched, target);
    if Decide(net.sched, target).Running? {
      RescheduledKeeps(net, Decide(net.sched, target).s);
    } else {
      assert Switch(net, target).net == net;
    }
  }

  /** Nothing more fits into the channel, or nothing is left in it. */
  ghost predicate IsFull<C>(net: Net<C>, chan: int) {
    Usable(net, chan) && net.channels[chan].queue.Free() == 0
  }

  ghost predicate IsEmpty<C>(net: Net<C>, chan: int) {
    Usable(net, chan) && net.channels[chan].queue.stored == []
  }

  /** A write that does not take all bytes fills the channel; a read that wants more empties it. */
  lemma WroteKeepsInv<C(!new)>(net: Net<C>, chan: int, rest: seq<byte>)
    requires Inv(net) && Usable(net, chan)
    ensures Inv(Wrote(net, chan, rest))
    ensures Wrote(net, chan, rest).sched.cur == net.sched.cur && Wrote(net, chan, rest).sched.caller == net.sched.caller
    ensures Usable(Wrote(net, chan, rest), chan)
    ensures Accepted(net.channels[chan].queue, |rest|) < |rest| ==> IsFull(Wrote(net, chan, rest), chan)
  {
    hide Waits, Sound, Conserves;
    WroteKeepsCore(net, chan, rest);
  }

  lemma ReadOutKeepsInv<C(!new)>(net: Net<C>, chan: int, n: nat)
    requires Inv(net) && Usable(net, chan)
    ensures Inv(ReadOut(net, chan, n))
    ensures ReadOut(net, chan, n).sched.cur == net.sched.cur && ReadOut(net, chan, n).sched.caller == net.sched.caller
    ensures Usable(ReadOut(net, chan, n), chan)
    ensures |Delivered(net.channels[chan].queue, n)| < n ==> IsEmpty(ReadOut(net, chan, n), chan)
  {
    hide Waits, Sound, Conserves;
    ReadOutKeepsCore(net, chan, n);
  }

  /** Routine `c` is in the middle of call `t`, locked for `reason`, in the lock list, and not running. */
  ghost predicate Asleep<C>(o: NetOutcome<C>, c: C, t: Task, reason: LockedState) {
    && !t.Own? && c in o.net.task && o.net.task[c] == t
    && c in o.net.sched.locked && o.net.sched.locked[c] == reason
    && InCall(o.net, c, t.chan)
    && (o.Going? ==> o.net.sched.cur != Some(c))
  }

  /** Routine `c` is back in its own code with an answer, and still running. */
  ghost predicate Answered<C>(o: NetOutcome<C>, c: C, t: Task) {
    t.Own? && o.Going? && o.net.sched.cur == Some(c) && c in o.net.task && o.net.task[c] == t
  }

  /** One turn of a send either finishes it, or leaves the channel full and the sender locked. */
  lemma SendTurnKeeps<C(!new)>(net: Net<C>, c: C, chan: int, bytes: seq<byte>, written: nat)
    requires Inv(net) && net.sched.cur == Some(c) && Usable(net, chan) && written < |bytes|
    requires c in net.sched.caller
    ensures Kept(SendTurn(net, c, chan, bytes, written))
    ensures var o := SendTurn(net, c, chan, bytes, written);
            var now := written + Accepted(net.channels[chan].queue, |bytes| - written);
            if now == |bytes| then Answered(o, c, Own(now, []))
            else Asleep(o, c, Sending(chan, bytes, now), LockedWrite) && IsFull(o.net, chan)
  {
    hide Core, Wrote, Switch, Lock, IsLocked;
    WroteKeepsInv(net, chan, bytes[written..]);
    var now := written + Accepted(net.channels[chan].queue, |bytes| - written);
    var after := Wrote(net, chan, bytes[written..]);
    if now == |bytes| {
      AwakeKeeps(after, c, Own(now, []));
    } else {
      SleepKeeps(after, c, Sending(chan, bytes, now), chan, LockedWrite);
    }
  }

  /** One turn of a recv either finishes it, or leaves the channel empty and the receiver locked. */
  lemma RecvTurnKeeps<C(!new)>(net: Net<C>, c: C, chan: int, want: nat, got: seq<byte>)
    requires Inv(net) && net.sched.cur == Some(c) && Usable(net, chan) && |got| < want
    requires c in net.sched.caller
    ensures Kept(RecvTurn(net, c, chan, want, got))
    ensures var o := RecvTurn(net, c, chan, want, got);
            var now := got + Delivered(net.channels[chan].queue, want - |got|);
            if |now| == want then Answered(o, c, Own(want, now))
            else Asleep(o, c, Receiving(chan, want, now), LockedRead) && IsEmpty(o.net, chan)
  {
    hide Core, ReadOut, Switch, Lock, IsLocked;
    ReadOutKeepsInv(net, chan, want - |got|);
    var now := got + Delivered(net.channels[chan].queue, want - |got|);
    var after := ReadOut(net, chan, want - |got|);
    if |now| == want {
      AwakeKeeps(after, c, Own(want, now));
    } else {
      SleepKeeps(after, c, Receiving(chan, want, now), chan, LockedRead);
    }
  }

  lemma AwakeKeeps<C(!new)>(net: Net<C>, c: C, t: Task)
    requires Inv(net) && net.sched.cur == Some(c) && t.Own?
    ensures Inv(net.(task := net.task[c := t]))
  {
    var after := net.(task := net.task[c := t]);
    forall d | d in after.sched.alive ensures Waits(after, d) {
      assert Waits(net, d);
    }
  }

  /** Going to sleep with a reason keeps the invariant and hands control to another routine. */
  lemma SleepKeeps<C(!new)>(net: Net<C>, c: C, t: Task, chan: int, reason: LockedState)
    requires Inv(net) && net.sched.cur == Some(c) && c in net.sched.caller
    requires
      || (t.Sending? && t.chan == chan && t.written < |t.bytes| && reason == LockedWrite && IsFull(net, chan))
      || (t.Receiving? && t.chan == chan && |t.got| < t.want && reason == LockedRead && IsEmpty(net, chan))
    ensures var o := Switch(Lock(net.(task := net.task[c := t]), chan, c, reason), None);
            && Kept(o) && Asleep(o, c, t, reason)
            && o.net.channels == net.channels && o.net.sched.alive == net.sched.alive
  {
    hide Core, Kept, Decide;
    SleepKeepsCore(net, c, t, chan, reason);
    var asleep := Lock(net.(task := net.task[c := t]), chan, c, reason);
    SwitchKeeps(asleep, None);
  }

  /** Opening a channel, under an unused descriptor or in the place of an open channel, keeps the
      invariant exactly if no live routine is locked for writing on the channel it replaces: such a
      routine would stay locked on an empty channel. */
  lemma OpenKeepsIff<C(!new)>(net: Net<C>, d: int)
    requires Inv(net)
    ensures Inv(net.(channels := net.channels[d := Opened(net.bufSize)])) <==> Replaceable(net, d)
  {
    hide Sound;
    var after := net.(channels := net.channels[d := Opened(net.bufSize)]);
    forall c | c in net.sched.alive
      ensures c in net.task && c in net.sched.locked && Waits(net, c)
      ensures Waits(after, c) <==>
                || net.bufSize == 0
                || !(net.task[c].Sending? && net.task[c].chan == d && net.sched.locked[c] == LockedWrite)
    {
      AliveHasTask(net, c);
    }
  }

  lemma AliveHasTask<C(!new)>(net: Net<C>, c: C)
    requires Core(net) && c in net.sched.alive
    ensures c in net.task && c in net.sched.locked && Waits(net, c)
  {
  }

  lemma CurIsAlive<C(!new)>(net: Net<C>)
    requires Inv(net)
    ensures net.sched.cur.value in net.sched.alive
  {
  }

  /** Under an unused descriptor a channel can always be opened. */
  lemma UnusedIsReplaceable<C(!new)>(net: Net<C>, d: int)
    requires Core(net) && d !in net.channels
    ensures Replaceable(net, d)
  {
    forall c | c in net.sched.alive ensures c in net.task && c in net.sched.locked && Waits(net, c) {
      AliveHasTask(net, c);
    }
  }

  lemma CloseKeeps<C(!new)>(net: Net<C>, d: int)
    requires Inv(net) && !(d in net.locks && net.locks[d] != [])
    ensures Inv(net.(channels := net.channels - {d}))
  {
    var after := net.(channels := net.channels - {d});
    forall c | c in after.sched.alive ensures Waits(after, c) {
      assert Waits(net, c);
    }
  }

  lemma LaunchKeeps<C(!new)>(net: Net<C>, d: C)
    requires Inv(net) && d !in net.sched.caller
    ensures Inv(net.(sched := Registered(net.sched, d), task := net.task[d := Own(0, [])]))
  {
    var after := net.(sched := Registered(net.sched, d), task := net.task[d := Own(0, [])]);
    forall c | c in after.sched.alive ensures Waits(after, c) {
      assert c == d || (c in net.sched.alive && Waits(net, c));
    }
  }

  lemma CompleteKeeps<C(!new)>(net: Net<C>)
    requires Inv(net) && net.task[net.sched.cur.value].Own? && !OwnCaller(net.sched)
    ensures Core(net.(sched := Completed(net.sched)))
    ensures var k := net.sched.caller[net.sched.cur.value]; k.Some? ==> k.value in Completed(net.sched).alive
  {
    var after := net.(sched := Completed(net.sched));
    CompletedIsSound(net.sched);
    WithoutRemoves(net.sched.alive, net.sched.cur.value);
    forall c | c in after.sched.alive ensures Waits(after, c) {
      assert Waits(net, c);
    }
  }

  lemma OpenIsUsable<C(!new)>(net: Net<C>)
    requires Core(net)
    ensures forall d :: d in net.channels ==> Usable(net, d)
  {
  }

  lemma StepKeeps<C(!new)>(net: Net<C>, a: Act<C>)
    requires Inv(net) && MayAct(net, a)
    ensures Kept(Perform(net, a))
  {
    hide Conserves, CallerIsLive, Switch, SendTurn, RecvTurn;
    OpenIsUsable(net);
    var c := net.sched.cur.value;
    assert Waits(net, c);
    match a
    case Send(chan, bytes) =>
      if chan !in net.channels || bytes == [] {
        AwakeKeeps(net, c, Own(if chan !in net.channels then -1 else 0, []));
      } else {
        SendTurnKeeps(net, c, chan, bytes, 0);
      }
    case Recv(chan, want) =>
      if chan !in net.channels || want == 0 {
        AwakeKeeps(net, c, Own(if chan !in net.channels then -1 else 0, []));
      } else {
        RecvTurnKeeps(net, c, chan, want, []);
      }
    case Continue =>
      match net.task[c] {
        case Sending(chan, bytes, written) => SendTurnKeeps(net, c, chan, bytes, written);
        case Receiving(chan, want, got) => RecvTurnKeeps(net, c, chan, want, got);
        case Own(_, _) =>
      }
    case PassOn(t) => SwitchKeeps(net, t);
    case Launch(d) => LaunchKeeps(net, d);
    case Complete =>
      CompleteKeeps(net);
      SwitchKeeps(net.(sched := Completed(net.sched)), net.sched.caller[c]);
    case Create => OpenKeepsIff(net, NewDescriptor(net.channels.Keys));
    case CreateAt(d) =>
      if d !in net.channels {
        UnusedIsReplaceable(net, d);
        OpenKeepsIff(net, d);
      }
    case Close(d) => if !(d in net.locks && net.locks[d] != []) { CloseKeeps(net, d); }
  }

  // ---- whole runs

  /** `o` is reached from `net` by the acts `acts`. */
  ghost predicate Leads<C(!new)>(net: Net<C>, acts: seq<Act<C>>, o: NetOutcome<C>)
    decreases |acts|
  {
    if acts == [] then o == Going(net)
    else
      && MayAct(net, acts[0])
      && var n := Perform(net, acts[0]);
         if n.Going? then Leads(n.net, acts[1..], o) else |acts| == 1 && o == n
  }

  lemma {:induction false} RunsKeep<C(!new)>(net: Net<C>, acts: seq<Act<C>>, o: NetOutcome<C>)
    requires Inv(net) && Leads(net, acts, o)
    ensures Kept(o)
    decreases |acts|
  {
    hide Core, Perform;
    if acts != [] {
      StepKeeps(net, acts[0]);
      var n := Perform(net, acts[0]);
      if n.Going? {
        RunsKeep(n.net, acts[1..], o);
      }
    }
  }

  /** The engine as `start` leaves it to the main routine: no channel, no lock. */
  function Initial<C(==)>(main: C, bufSize: nat): (r: Net<C>) {
    Net(Started(main), map[], map[], map[main := Own(0, [])], bufSize)
  }

  lemma InitialHolds<C(!new)>(main: C, bufSize: nat)
    ensures Inv(Initial(main, bufSize))
  {
    assert Initial(main, bufSize).sched.alive == [main];
  }

  /** No lost wakeup, in every run: a routine locked for reading waits on an open channel that is
      empty, a routine locked for writing waits on an open channel without free room, and each is
      in the lock list of its channel. */
  lemma NoLostWakeup<C(!new)>(main: C, bufSize: nat, acts: seq<Act<C>>, o: NetOutcome<C>, c: C)
    requires Leads(Initial(main, bufSize), acts, o)
    requires c in o.net.sched.alive
    ensures c in o.net.sched.locked && c in o.net.task
    ensures o.net.sched.locked[c] == LockedRead ==>
              && o.net.task[c].Receiving? && |o.net.task[c].got| < o.net.task[c].want
              && var chan := o.net.task[c].chan;
                 && chan in o.net.channels && chan in o.net.locks && c in o.net.locks[chan]
                 && o.net.channels[chan].queue.stored == []
    ensures o.net.sched.locked[c] == LockedWrite ==>
              && o.net.task[c].Sending? && o.net.task[c].written < |o.net.task[c].bytes|
              && var chan := o.net.task[c].chan;
                 && chan in o.net.channels && chan in o.net.locks && c in o.net.locks[chan]
                 && o.net.channels[chan].queue.Fits() && o.net.channels[chan].queue.Free() == 0
  {
    InitialHolds(main, bufSize);
    RunsKeep(Initial(main, bufSize), acts, o);
    assert Waits(o.net, c);
  }

  /** No call ever uses a channel that is gone. A routine that runs is never locked; when the
      engine stops with a dead lock, every live routine is in the middle of a call on an empty or
      full channel; `start` returns only when no routine is left. */
  lemma StopsForAReason<C(!new)>(main: C, bufSize: nat, acts: seq<Act<C>>, o: NetOutcome<C>)
    requires Leads(Initial(main, bufSize), acts, o)
    ensures !o.Broken?
    ensures o.Going? ==> o.net.sched.cur.Some? && o.net.sched.cur.value in o.net.sched.alive
                         && !IsLocked(o.net.sched, o.net.sched.cur.value)
    ensures o.Ended? ==> o.net.sched.alive == []
    ensures o.Dead? || o.Lost? ==>
              forall c :: c in o.net.sched.alive ==>
                && c in o.net.task && !o.net.task[c].Own? && o.net.task[c].chan in o.net.channels
                && var q := o.net.channels[o.net.task[c].chan].queue;
                   if o.net.task[c].Receiving? then q.stored == [] else q.Fits() && q.Free() == 0
  {
    InitialHolds(main, bufSize);
    RunsKeep(Initial(main, bufSize), acts, o);
    forall c | c in o.net.sched.alive && (o.Dead? || o.Lost?)
      ensures c in o.net.task && Waits(o.net, c) && IsLocked(o.net.sched, c)
    {
    }
  }

  /** With a buffer of two bytes or more, nobody waits to read from a channel on which somebody waits
      to write: it cannot be empty and full at once. */
  lemma ReadersAndWritersApart<C(!new)>(main: C, bufSize: nat, acts: seq<Act<C>>, o: NetOutcome<C>, c: C, d: C)
    requires Leads(Initial(main, bufSize), acts, o) && bufSize >= 2
    requires c in o.net.sched.alive && d in o.net.sched.alive
    requires c in o.net.sched.locked && o.net.sched.locked[c] == LockedRead
    requires d in o.net.sched.locked && o.net.sched.locked[d] == LockedWrite
    ensures c in o.net.task && o.net.task[c].Receiving? && d in o.net.task && o.net.task[d].Sending?
    ensures o.net.task[c].chan != o.net.task[d].chan
  {
    hide Sound, Waits, Perform;
    InitialHolds(main, bufSize);
    RunsKeep(Initial(main, bufSize), acts, o);
    SizeStays(Initial(main, bufSize), acts, o);
    NoLostWakeup(main, bufSize, acts, o, c);
    NoLostWakeup(main, bufSize, acts, o, d);
  }

  /** Over any interleaving of senders and receivers, the bytes written to an open channel are the
      bytes read from it followed by the buffered ones. */
  lemma BytesStayInOrder<C(!new)>(main: C, bufSize: nat, acts: seq<Act<C>>, o: NetOutcome<C>, chan: int)
    requires Leads(Initial(main, bufSize), acts, o) && chan in o.net.channels
    ensures var ch := o.net.channels[chan];
            ch.sent == ch.received + ch.queue.stored && |ch.queue.stored| <= bufSize
  {
    hide Waits, Sound, Perform;
    InitialHolds(main, bufSize);
    RunsKeep(Initial(main, bufSize), acts, o);
    SizeStays(Initial(main, bufSize), acts, o);
  }

  /** The step is a `create_channel()` that chooses the descriptor of an open channel. */
  predicate Replaces<C(==)>(net: Net<C>, a: Act<C>, d: int) {
    a.Create? && d in net.channels && NewDescriptor(net.channels.Keys) == d
  }

  lemma StepKeepsOpen<C(!new)>(net: Net<C>, a: Act<C>)
    requires Inv(net) && MayAct(net, a)
    ensures Perform(net, a).net.bufSize == net.bufSize
    ensures forall c :: c in net.sched.alive && !net.task[c].Own? ==>
              net.task[c].chan in net.channels && net.task[c].chan in Perform(net, a).net.channels
    ensures !a.Send? && !a.Recv? && !a.Continue? ==>
              forall c :: c in net.sched.alive && !net.task[c].Own? && !Replaces(net, a, net.task[c].chan) ==>
                Perform(net, a).net.channels[net.task[c].chan] == net.channels[net.task[c].chan]
  {
    hide CallerIsLive, NoDup, Conserves, Switch, SendTurn, RecvTurn;
    assert forall c :: c in net.sched.alive ==> Waits(net, c);
  }

  lemma {:induction false} SizeStays<C(!new)>(net: Net<C>, acts: seq<Act<C>>, o: NetOutcome<C>)
    requires Inv(net) && Leads(net, acts, o)
    ensures o.net.bufSize == net.bufSize
    decreases |acts|
  {
    hide Core, Perform;
    if acts != [] {
      StepKeepsOpen(net, acts[0]);
      StepKeeps(net, acts[0]);
      var n := Perform(net, acts[0]);
      if n.Going? {
        SizeStays(n.net, acts[1..], o);
      }
    }
  }

  /** A channel is not destroyed while some live routine is in the middle of a call on it, nor changed
      but by a call on it or a `create_channel()` that replaces it. */
  lemma BusyChannelStaysOpen<C(!new)>(main: C, bufSize: nat, acts: seq<Act<C>>, net: Net<C>, c: C, a: Act<C>)
    requires Leads(Initial(main, bufSize), acts, Going(net)) && MayAct(net, a)
    requires c in net.sched.alive && c in net.task && !net.task[c].Own?
    ensures net.task[c].chan in net.channels
    ensures net.task[c].chan in Perform(net, a).net.channels
    ensures !a.Send? && !a.Recv? && !a.Continue? && !Replaces(net, a, net.task[c].chan) ==>
              Perform(net, a).net.channels[net.task[c].chan] == net.channels[net.task[c].chan]
  {
    hide Perform, Sound, Waits, Conserves, Started;
    InitialHolds(main, bufSize);
    RunsKeep(Initial(main, bufSize), acts, Going(net));
    StepKeepsOpen(net, a);
  }
}
