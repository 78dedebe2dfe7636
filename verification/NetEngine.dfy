/** The channel calls of the network engine, on its own tables (hw-net-engine/src/net-engine.cpp).
    Each method does to the tables what the step machine says. */
module NetEngines {
  import opened Options
  import opened Fifos
  import opened Scheduling
  import opened EngineRuns
  import opened Engines
  import opened Channels
  import opened Seqs
  import M = NetMachine

  const DEFAULT_CHANNEL_BUF_SIZE: nat := 4096

  ghost predicate IsLeast(s: set<int>, m: int) {
    m in s && forall k :: k in s ==> m <= k
  }

  lemma {:induction false} LeastExists(s: set<int>, x: int) returns (m: int)
    requires x in s
    ensures IsLeast(s, m)
    decreases s
  {
    if forall k :: k in s ==> x <= k {
      m := x;
    } else {
      var y :| y in s && y < x;
      var z := LeastExists(s - {x}, y);
      m := z;
      assert forall k :: k in s ==> k == x || k in s - {x};
    }
  }

  /** A number that is not a key while all smaller ones are is the least unused one. */
  lemma LeastUnusedIs(keys: set<int>, d: nat)
    requires d !in keys && forall i :: 0 <= i < d ==> i in keys
    ensures M.LeastUnused(keys, 0, keys) == d
  {
  }

  /** The search of `create_channel()`: the keys in ascending order against 0, 1, 2, ... */
  method SearchDescriptor(keys: set<int>) returns (chd: int)
    ensures chd == M.NewDescriptor(keys)
    ensures if exists k :: k in keys && k < 0 then chd == 0
            else 0 <= chd && chd !in keys && forall i :: 0 <= i < chd ==> i in keys
  {
    chd := 0;
    var rest := keys;
    while rest != {}
      invariant chd >= 0 && rest <= keys
      invariant forall k :: k in keys ==> k in rest || 0 <= k < chd
      invariant forall k :: 0 <= k < chd ==> k in keys && k !in rest
      invariant chd > 0 ==> forall k :: k in rest ==> k >= 0
      decreases rest
    {
      ghost var some :| some in rest;
      ghost var least := LeastExists(rest, some);
      assert IsLeast(rest, least);
      var first: int :| first in rest && forall k :: k in rest ==> first <= k;
      if first != chd {
        if first >= 0 {
          LeastUnusedIs(keys, chd);
        }
        return;
      }
      chd := chd + 1;
      rest := rest - {first};
    }
    LeastUnusedIs(keys, chd);
  }

  /** The lock lists of the engine are those of the step machine. */
  ghost predicate LocksMatch(all: seq<Context>, table: map<int, seq<Context>>, locks: map<int, seq<nat>>) {
    && table.Keys == locks.Keys
    && (forall d :: d in table ==> locks[d] == Ids(table[d]) && forall c :: c in table[d] ==> Known(all, c))
  }

  lemma LocksPush(all: seq<Context>, table: map<int, seq<Context>>, locks: map<int, seq<nat>>, d: int, c: Context)
    requires LocksMatch(all, table, locks) && Known(all, c)
    ensures LocksMatch(all, table[d := (if d in table then table[d] else []) + [c]],
                       locks[d := (if d in locks then locks[d] else []) + [c.id]])
  {
  }

  /** The lock lists do not depend on contexts made later. */
  lemma LocksGrow(all: seq<Context>, pc: Context, table: map<int, seq<Context>>, locks: map<int, seq<nat>>)
    requires LocksMatch(all, table, locks)
    ensures LocksMatch(all + [pc], table, locks)
  {
  }

  ghost function Bufs(channels: map<int, Channel>): (r: set<array<byte>>) {
    set d | d in channels :: channels[d].buf
  }

  /** The channels are apart from each other. */
  ghost predicate Apart(channels: map<int, Channel>) {
    forall d, e :: d in channels && e in channels && d != e ==>
      channels[d] != channels[e] && channels[d].buf != channels[e].buf
  }

  ghost predicate Holds(c: Channel, q: Fifo)
    reads c, c.buf
  {
    c.Valid() && c.Queue() == q
  }

  /** The channels hold the queues of the step machine. */
  ghost predicate ChannelsMatch(channels: map<int, Channel>, chans: map<int, M.Chan>)
    reads channels.Values, Bufs(channels)
  {
    && channels.Keys == chans.Keys && Apart(channels)
    && (forall d :: d in channels ==> Holds(channels[d], chans[d].queue))
  }

  /** A new channel is apart from all others. */
  lemma OpenedMatches(channels: map<int, Channel>, chans: map<int, M.Chan>, d: int, c: Channel, bufSize: nat)
    requires ChannelsMatch(channels, chans)
    requires c.Valid() && c.Queue() == Fifo(bufSize, [], false)
    requires forall e :: e in channels ==> channels[e] != c && channels[e].buf != c.buf
    ensures ChannelsMatch(channels[d := c], chans[d := M.Opened(bufSize)])
  {
  }

  /** A new channel of the engine takes 4096 bytes. */
  lemma OpenedTakes()
    ensures var q := M.Opened(DEFAULT_CHANNEL_BUF_SIZE).queue;
            q.Fits() && forall n: nat :: Accepted(q, n) == n <==> n <= 4096
  {
  }

  lemma ClosedMatches(channels: map<int, Channel>, chans: map<int, M.Chan>, d: int)
    requires ChannelsMatch(channels, chans)
    ensures ChannelsMatch(channels - {d}, chans - {d})
  {
  }

  /** `now` is `before` after the first `i` of the waiting routines have been looked at. */
  ghost predicate Released(before: map<nat, LockedState>, now: map<nat, LockedState>,
      ids: seq<nat>, i: nat, reason: LockedState)
    requires i <= |ids|
  {
    && now.Keys == before.Keys
    && forall k :: k in before ==>
         now[k] == if k in ids[..i] && before[k] == reason then NotLocked else before[k]
  }

  lemma ReleaseOne(before: map<nat, LockedState>, now: map<nat, LockedState>,
      ids: seq<nat>, i: nat, reason: LockedState)
    requires i < |ids| && ids[i] in before && reason != NotLocked
    requires Released(before, now, ids, i, reason)
    ensures Released(before, if now[ids[i]] == reason then now[ids[i] := NotLocked] else now, ids, i + 1, reason)
  {
    assert ids[..i+1] == ids[..i] + [ids[i]];
  }

  /** Looking at every routine of the lock list releases exactly what the step machine releases. */
  lemma ReleasedAll(net: M.Net<nat>, now: map<nat, LockedState>, chan: int, reason: LockedState)
    requires chan in net.locks && Released(net.sched.locked, now, net.locks[chan], |net.locks[chan]|, reason)
    ensures M.UnlockAll(net, chan, reason) == net.(sched := net.sched.(locked := now))
  {
    assert net.locks[chan][..|net.locks[chan]|] == net.locks[chan];
  }

  lemma QueuesFit(channels: map<int, Channel>, chans: map<int, M.Chan>, d: int)
    requires ChannelsMatch(channels, chans) && d in channels
    ensures d in chans && chans[d].queue.Fits()
  {
  }

  lemma BufsHold(channels: map<int, Channel>)
    ensures forall e :: e in channels ==> channels[e].buf in Bufs(channels)
  {
  }

  lemma HoldsNow(c: Channel, q: Fifo)
    requires c.Valid() && c.Queue() == q
    ensures Holds(c, q)
  {
  }

  /** Writes to one channel; the others are not disturbed. */
  method WriteTo(channels: map<int, Channel>, ghost chans: map<int, M.Chan>, d: int, channel: Channel,
                 from: array<byte>, off: nat, nbytes: nat)
      returns (n: nat)
    requires ChannelsMatch(channels, chans) && d in channels && channels[d] == channel
    requires d in chans && chans[d].queue.Fits()
    requires off + nbytes <= from.Length && from !in Bufs(channels)
    modifies channel`end, channel.buf
    ensures ChannelsMatch(channels, chans[d := M.AfterWrite(chans[d], from[off..off+nbytes])])
    ensures n == Accepted(chans[d].queue, nbytes)
  {
    hide RingQueue, Push;
    assert channel.buf in Bufs(channels);
    n := channel.Write(from, off, nbytes);
  }

  /** Reads from one channel; the others are not disturbed. */
  method ReadFrom(channels: map<int, Channel>, ghost chans: map<int, M.Chan>, d: int, channel: Channel,
                 to: array<byte>, off: nat, nbytes: nat)
      returns (n: nat)
    requires ChannelsMatch(channels, chans) && d in channels && channels[d] == channel
    requires d in chans && chans[d].queue.Fits()
    requires off + nbytes <= to.Length && to !in Bufs(channels)
    modifies channel`start, to
    ensures ChannelsMatch(channels, chans[d := M.AfterRead(chans[d], nbytes)])
    ensures n == |Delivered(chans[d].queue, nbytes)|
    ensures to[..] == Patch(old(to[..]), off, Delivered(chans[d].queue, nbytes))
  {
    hide RingQueue, Pop, Patch, Delivered, Bufs, Channel.Queue;
    BufsHold(channels);
    n := channel.Read(to, off, nbytes);
    HoldsNow(channel, Pop(chans[d].queue, nbytes));
  }

  /** The turns of the step machine, once it is known how much was written or read. */
  lemma SendTurnIs(net: M.Net<nat>, c: nat, chan: int, bytes: seq<byte>, written: nat, now: nat)
    requires net.sched.cur == Some(c) && c in net.sched.caller && M.Usable(net, chan) && written <= |bytes|
    requires now == written + Accepted(net.channels[chan].queue, |bytes| - written)
    ensures var after := M.Wrote(net, chan, bytes[written..]);
            M.SendTurn(net, c, chan, bytes, written) ==
            if now == |bytes| then M.Going(after.(task := after.task[c := M.Own(now, [])]))
            else M.Switch(M.Lock(after.(task := after.task[c := M.Sending(chan, bytes, now)]),
                                 chan, c, LockedWrite), None)
  {
  }

  lemma RecvTurnIs(net: M.Net<nat>, c: nat, chan: int, want: nat, got: seq<byte>, now: seq<byte>)
    requires net.sched.cur == Some(c) && c in net.sched.caller && M.Usable(net, chan) && |got| <= want
    requires now == got + Delivered(net.channels[chan].queue, want - |got|)
    ensures var after := M.ReadOut(net, chan, want - |got|);
            M.RecvTurn(net, c, chan, want, got) ==
            if |now| == want then M.Going(after.(task := after.task[c := M.Own(want, now)]))
            else M.Switch(M.Lock(after.(task := after.task[c := M.Receiving(chan, want, now)]),
                                 chan, c, LockedRead), None)
  {
  }

  class NetEngine {
    const engine: Engine
    var channels: map<int, Channel>
    var locksTable: map<int, seq<Context>>

    /** The whole engine as the step machine sees it. */
    ghost var net: M.Net<nat>

    ghost predicate Valid()
      reads this, channels.Values, Bufs(channels)
      reads engine, engine.all`caller, engine.all`callee, engine.all`locked, engine.list`next, engine.list`prev
    {
      && engine.Valid() && net.sched == engine.state
      && ChannelsMatch(channels, net.channels) && LocksMatch(engine.all, locksTable, net.locks)
      && net.bufSize == DEFAULT_CHANNEL_BUF_SIZE
    }

    constructor ()
      ensures Valid() && fresh(engine)
      ensures net == M.Net(Sched([], None, map[], map[]), map[], map[], map[], DEFAULT_CHANNEL_BUF_SIZE)
    {
      var e := new Engine();
      engine := e;
      channels := map[];
      locksTable := map[];
      net := M.Net(Sched([], None, map[], map[]), map[], map[], map[], DEFAULT_CHANNEL_BUF_SIZE);
    }

    /** The channel is there, and it takes `n` bytes at once exactly if there are no more than `room`. */
    ghost predicate TakesUpTo(d: int, room: nat)
      reads this`net
    {
      M.Usable(net, d) && forall n: nat :: Accepted(net.channels[d].queue, n) == n <==> n <= room
    }

    /** Puts a new channel under a descriptor; one that is open under it is replaced. */
    method Open(d: int)
      requires Valid()
      modifies this`channels, this`net
      ensures Valid()
      ensures net == old(net).(channels := old(net).channels[d := M.Opened(DEFAULT_CHANNEL_BUF_SIZE)])
      ensures channels == old(channels)[d := channels[d]] && fresh(channels[d]) && fresh(channels[d].buf)
      ensures TakesUpTo(d, 4096)
    {
      hide Engine.Valid, LocksMatch, Holds, Apart, Channel.Queue, Accepted;
      TablesAgree();
      OpenedTakes();
      var c := new Channel(DEFAULT_CHANNEL_BUF_SIZE);
      OpenedMatches(channels, net.channels, d, c, DEFAULT_CHANNEL_BUF_SIZE);
      channels := channels[d := c];
      net := net.(channels := net.channels[d := M.Opened(DEFAULT_CHANNEL_BUF_SIZE)]);
    }

    /** Opens a channel under a descriptor of the engine's choice. */
    method CreateChannel() returns (chd: int)
      requires Valid()
      modifies this`channels, this`net
      ensures Valid() && chd == M.NewDescriptor(old(net).channels.Keys)
      ensures net == old(net).(channels := old(net).channels[chd := M.Opened(DEFAULT_CHANNEL_BUF_SIZE)])
      ensures channels == old(channels)[chd := channels[chd]] && fresh(channels[chd]) && fresh(channels[chd].buf)
      ensures TakesUpTo(chd, 4096)
    {
      hide Engine.Valid, LocksMatch, Holds, Apart, Channel.Queue, M.NewDescriptor, M.Opened, TakesUpTo;
      TablesAgree();
      chd := SearchDescriptor(channels.Keys);
      Open(chd);
    }

    /** Opens a channel under a given descriptor, unless it is open already. */
    method CreateChannelAt(d: int) returns (r: int)
      requires Valid()
      modifies this`channels, this`net
      ensures Valid() && r == d
      ensures net == if d in old(net).channels then old(net)
                     else old(net).(channels := old(net).channels[d := M.Opened(DEFAULT_CHANNEL_BUF_SIZE)])
      ensures d !in old(net).channels ==> TakesUpTo(d, 4096)
    {
      hide NetEngine.Valid, M.Opened, TakesUpTo;
      TablesAgree();
      if d !in channels {
        Open(d);
      }
      r := d;
    }

    /** Closes a channel, unless its lock list is not empty. */
    method CloseChannel(d: int) returns (r: int)
      requires Valid()
      modifies this`channels, this`net
      ensures Valid()
      ensures r == if d in old(net).locks && old(net).locks[d] != [] then -1 else 0
      ensures net == if r == -1 then old(net) else old(net).(channels := old(net).channels - {d})
    {
      hide Engine.Valid, Holds, Apart;
      if d in locksTable && locksTable[d] != [] {
        return -1;
      }
      ClosedMatches(channels, net.channels, d);
      channels := channels - {d};
      net := net.(channels := net.channels - {d});
      r := 0;
    }

    /** Locks a context and appends it to the lock list of a channel. */
    method Lock(chan: int, c: Context, reason: LockedState)
      requires Valid() && Known(engine.all, c)
      modifies this`locksTable, this`net, engine`state, c`locked
      ensures Valid() && net == M.Lock(old(net), chan, c.id, reason)
    {
      hide Engine.Valid, LocksMatch, Holds, Apart;
      TablesAgree();
      LocksPush(engine.all, locksTable, net.locks, chan, c);
      engine.SetLocked(c, reason);
      var was := if chan in locksTable then locksTable[chan] else [];
      locksTable := locksTable[chan := was + [c]];
      net := M.Lock(net, chan, c.id, reason);
    }

    lemma TablesAgree()
      requires Valid()
      ensures locksTable.Keys == net.locks.Keys && channels.Keys == net.channels.Keys
    {
    }

    /** Unlocks the routines of a lock list that wait for `reason`; the list keeps its entries. */
    method UnlockAll(chan: int, reason: LockedState)
      requires Valid() && reason != NotLocked
      modifies this`net, engine`state, engine.all`locked
      ensures Valid() && net == M.UnlockAll(old(net), chan, reason)
    {
      hide Engine.Valid, Released, Holds, Apart;
      TablesAgree();
      if chan in locksTable {
        var waiting := locksTable[chan];
        ghost var ids, before := Ids(waiting), engine.state.locked;
        assert Released(before, before, ids, 0, reason) by { ReleaseNone(before, ids, reason); }
        for i := 0 to |waiting|
          invariant net == old(net)
          invariant engine.Valid() && engine.all == old(engine.all) && engine.list == old(engine.list)
          invariant engine.state == net.sched.(locked := engine.state.locked)
          invariant Released(before, engine.state.locked, ids, i, reason)
        {
          engine.LockedHere(waiting[i]);
          engine.KnownIsRecorded(waiting[i]);
          ReleasedKeys(before, engine.state.locked, ids, i, reason);
          ReleaseOne(before, engine.state.locked, ids, i, reason);
          if waiting[i].locked == reason {
            engine.SetLocked(waiting[i], NotLocked);
          }
        }
        ReleasedAll(net, engine.state.locked, chan, reason);
        net := net.(sched := engine.state);
      }
    }

    /** Puts bytes into a channel and takes note of it. */
    method PutBytes(chan: int, channel: Channel, from: array<byte>, off: nat, nbytes: nat) returns (n: nat)
      requires Valid() && chan in channels && channels[chan] == channel
      requires off + nbytes <= from.Length && from !in Bufs(channels)
      modifies channel`end, channel.buf, this`net, engine`state, engine.all`locked
      ensures M.Usable(old(net), chan) && Valid()
      ensures net == M.Wrote(old(net), chan, from[off..off+nbytes])
      ensures n == Accepted(old(net).channels[chan].queue, nbytes)
    {
      hide Engine.Valid, LocksMatch, Holds, Apart, M.UnlockAll, Channel.Queue, Push, Accepted;
      TablesAgree();
      ghost var ch := net.channels[chan];
      QueuesFit(channels, net.channels, chan);
      n := WriteTo(channels, net.channels, chan, channel, from, off, nbytes);
      net := net.(channels := net.channels[chan := M.AfterWrite(ch, from[off..off+nbytes])]);
      UnlockAll(chan, LockedRead);
    }

    /** Takes bytes out of a channel and takes note of it. */
    method TakeBytes(chan: int, channel: Channel, to: array<byte>, off: nat, nbytes: nat) returns (n: nat)
      requires Valid() && chan in channels && channels[chan] == channel
      requires off + nbytes <= to.Length && to !in Bufs(channels)
      modifies channel`start, to, this`net, engine`state, engine.all`locked
      ensures M.Usable(old(net), chan) && Valid()
      ensures net == M.ReadOut(old(net), chan, nbytes)
      ensures n == |Delivered(old(net).channels[chan].queue, nbytes)| <= nbytes
      ensures to[..] == Patch(old(to[..]), off, Delivered(old(net).channels[chan].queue, nbytes))
    {
      hide Engine.Valid, LocksMatch, Holds, Apart, M.UnlockAll, Channel.Queue, Pop, Patch;
      TablesAgree();
      ghost var ch := net.channels[chan];
      QueuesFit(channels, net.channels, chan);
      n := ReadFrom(channels, net.channels, chan, channel, to, off, nbytes);
      net := net.(channels := net.channels[chan := M.AfterRead(ch, nbytes)]);
      UnlockAll(chan, LockedWrite);
    }

    /** The beginning of `start`: the main routine gets control. */
    method Start() returns (main: Context)
      requires Valid()
      requires net == M.Net(Sched([], None, map[], map[]), map[], map[], map[], DEFAULT_CHANNEL_BUF_SIZE)
      modifies this`net, engine
      ensures Valid() && fresh(main) && engine.curRoutine == main && engine.list == engine.all == [main]
      ensures net == M.Initial(main.id, DEFAULT_CHANNEL_BUF_SIZE)
    {
      hide Engine.Valid, Holds, Apart, Started;
      TablesAgree();
      main := engine.Start();
      net := M.Net(engine.state, map[], map[], map[main.id := M.Own(0, [])], DEFAULT_CHANNEL_BUF_SIZE);
    }

    /** `run`, called by the running routine: a new routine is registered. */
    method Launch() returns (pc: Context)
      requires Valid() && M.HasRunner(net) && net.task[net.sched.cur.value].Own?
      modifies this`net, engine`alive, engine`list, engine`all, engine`state, engine.list`prev
      ensures Valid() && fresh(pc) && Known(engine.all, pc) && engine.all == old(engine.all) + [pc]
      ensures M.MayAct(old(net), M.Launch(pc.id)) && M.Perform(old(net), M.Launch(pc.id)) == M.Going(net)
    {
      hide Engine.Valid, LocksMatch, Holds, Apart;
      pc := engine.Run();
      LocksGrow(old(engine.all), pc, locksTable, net.locks);
      net := net.(sched := engine.state, task := net.task[pc.id := M.Own(0, [])]);
    }

    /** The step goes on with `c` in control. */
    ghost predicate Runs(o: M.NetOutcome<nat>, c: Context)
      reads engine`curRoutine
    {
      o.Going? && engine.curRoutine == c && o.net.sched.cur == Some(c.id)
    }

    /** `sched(target)`: the scheduler picks who continues. */
    method PassOn(target: Context?) returns (ghost o: M.NetOutcome<nat>)
      requires Valid() && Known(engine.all, target)
      modifies this`net, engine`curRoutine, engine`state, engine.all`caller
      ensures old(net).sched.cur.Some? ==> old(net).sched.cur.value in old(net).sched.caller
      ensures o == M.Switch(old(net), Id(target)) && Valid() && net == o.net
      ensures M.MayAct(old(net), M.PassOn(Id(target))) ==> o == M.Perform(old(net), M.PassOn(Id(target)))
      ensures target != null && old(target.locked) == NotLocked ==> Runs(o, target)
      ensures
        && (target == null || old(target.locked) != NotLocked)
        && old(engine.curRoutine != null && engine.curRoutine.caller != null && engine.curRoutine.caller.locked == NotLocked)
        ==> Runs(o, old(engine.curRoutine.caller))
    {
      hide Engine.Valid, LocksMatch, Holds, Apart, Choose;
      engine.CurRecorded();
      var routine;
      ghost var d;
      routine, d := engine.Schedule(target);
      o := M.Switch(net, Id(target));
      net := net.(sched := engine.state);
    }

    /** Yields: `sched` without a target. */
    method Yield() returns (ghost o: M.NetOutcome<nat>)
      requires Valid()
      modifies this`net, engine`curRoutine, engine`state, engine.all`caller
      ensures old(net).sched.cur.Some? ==> old(net).sched.cur.value in old(net).sched.caller
      ensures o == M.Switch(old(net), None) && Valid() && net == o.net
      ensures
        old(engine.curRoutine != null && engine.curRoutine.caller != null && engine.curRoutine.caller.locked == NotLocked)
        ==> Runs(o, old(engine.curRoutine.caller))
    {
      hide NetEngine.Valid, M.Switch, M.MayAct, M.Perform;
      o := PassOn(null);
    }

    /** The running routine is on the alive list. */
    lemma RunnerIsListed()
      requires Valid() && M.Inv(net)
      ensures engine.curRoutine != null && engine.curRoutine in engine.list
    {
      var id := net.sched.cur.value;
      var i :| 0 <= i < |engine.state.alive| && engine.state.alive[i] == id;
      assert Known(engine.all, engine.list[i]) && engine.list[i].id == id;
    }

    /** The end of `run`: the running routine is done. */
    method Complete() returns (ghost o: M.NetOutcome<nat>)
      requires Valid() && M.Inv(net) && M.MayAct(net, M.Complete)
      modifies this`net, engine`curRoutine, engine`alive, engine`list, engine`state
      modifies engine.list`next, engine.list`prev, engine.all`caller
      ensures o == M.Perform(old(net), M.Complete) && Valid() && net == o.net
      ensures old(engine.curRoutine) != null
      ensures old(engine.curRoutine.caller != null && engine.curRoutine.caller.locked == NotLocked) ==>
        Runs(o, old(engine.curRoutine.caller))
    {
      hide Engine.Valid, LocksMatch, Holds, Apart, Choose, M.Inv, M.MayAct, M.Perform, Completed;
      RunnerIsListed();
      CompleteIs(net);
      var routine;
      ghost var d;
      routine, d := engine.Exit();
      o := M.Perform(net, M.Complete);
      net := net.(sched := engine.state);
    }

    /** What a turn of the running routine finds. */
    lemma TurnFinds(c: Context, chan: int)
      requires Valid() && engine.curRoutine == c && chan in channels
      ensures net.sched.cur == Some(c.id) && c.id in net.sched.caller && M.Usable(net, chan)
    {
      engine.CurRecorded();
    }

    /** The running routine is back in its own code. */
    method Wake(c: Context, ghost t: M.Task)
      requires Valid()
      modifies this`net
      ensures Valid() && net == old(net).(task := old(net).task[c.id := t])
    {
      hide Engine.Valid, LocksMatch, Holds, Apart;
      net := net.(task := net.task[c.id := t]);
    }

    /** Puts the running routine to sleep in the middle of a call: it is locked, and yields. */
    method Sleep(c: Context, chan: int, ghost t: M.Task, reason: LockedState) returns (ghost o: M.NetOutcome<nat>)
      requires Valid() && engine.curRoutine == c
      modifies this`locksTable, this`net, engine`curRoutine, engine`state, engine.all`locked, engine.all`caller
      ensures old(net).sched.cur == Some(c.id) && c.id in old(net).sched.caller
      ensures o == M.Switch(M.Lock(old(net).(task := old(net).task[c.id := t]), chan, c.id, reason), None)
      ensures Valid() && net == o.net
      ensures old(c.caller != null && c.caller != c && c.caller.locked == NotLocked) ==> Runs(o, old(c.caller))
    {
      hide Recorded, Listed, Linked, LocksMatch, Holds, Apart, M.Lock, M.Switch;
      engine.CurRecorded();
      assert Known(engine.all, c);
      net := net.(task := net.task[c.id := t]);
      Lock(chan, c, reason);
      o := Yield();
    }

    /** One turn of the loop of `send_channel`: a write, and a lock and a yield if bytes are left.
        The outcome tells a handover from a dead lock. */
    method SendTurn(c: Context, chan: int, channel: Channel, data: array<byte>, nbytes: nat, written: nat)
        returns (now: nat, ghost o: M.NetOutcome<nat>)
      requires Valid() && engine.curRoutine == c && chan in channels && channels[chan] == channel
      requires written <= nbytes <= data.Length && data !in Bufs(channels)
      modifies channel`end, channel.buf, this`locksTable, this`net, engine`curRoutine, engine`state
      modifies engine.all`locked, engine.all`caller
      ensures old(net).sched.cur == Some(c.id) && c.id in old(net).sched.caller && M.Usable(old(net), chan)
      ensures o == M.SendTurn(old(net), c.id, chan, data[..nbytes], written) && Valid() && net == o.net
      ensures now == written + Accepted(old(net).channels[chan].queue, nbytes - written)
    {
      hide NetEngine.Valid, M.UnlockAll, M.Lock, M.Switch, M.Wrote, M.SendTurn;
      TurnFinds(c, chan);
      SubSlice(data[..], 0, nbytes, written, nbytes);
      var n := PutBytes(chan, channel, data, written, nbytes - written);
      now := written + n;
      SendTurnIs(old(net), c.id, chan, data[..nbytes], written, now);
      if now == nbytes {
        Wake(c, M.Own(now, []));
        o := M.Going(net);
      } else {
        o := Sleep(c, chan, M.Sending(chan, data[..nbytes], now), LockedWrite);
      }
    }

    /** One turn of the loop of `recv_channel`. */
    method RecvTurn(c: Context, chan: int, channel: Channel, data: array<byte>, nbytes: nat, nread: nat)
        returns (now: nat, ghost o: M.NetOutcome<nat>)
      requires Valid() && engine.curRoutine == c && chan in channels && channels[chan] == channel
      requires nread <= nbytes <= data.Length && data !in Bufs(channels)
      modifies channel`start, data, this`locksTable, this`net, engine`curRoutine, engine`state
      modifies engine.all`locked, engine.all`caller
      ensures old(net).sched.cur == Some(c.id) && c.id in old(net).sched.caller && M.Usable(old(net), chan)
      ensures o == M.RecvTurn(old(net), c.id, chan, nbytes, old(data[..nread])) && Valid() && net == o.net
      ensures var got := Delivered(old(net).channels[chan].queue, nbytes - nread);
        now == nread + |got| <= nbytes && data[..] == Patch(old(data[..]), nread, got)
    {
      hide NetEngine.Valid, M.UnlockAll, M.Lock, M.Switch, M.ReadOut, M.RecvTurn, Patch, Delivered;
      TurnFinds(c, chan);
      var n := TakeBytes(chan, channel, data, nread, nbytes - nread);
      now := nread + n;
      Patched(old(data[..]), data[..], nread, Delivered(old(net).channels[chan].queue, nbytes - nread));
      RecvTurnIs(old(net), c.id, chan, nbytes, old(data[..nread]), data[..now]);
      if now == nbytes {
        Wake(c, M.Own(nbytes, data[..now]));
        o := M.Going(net);
      } else {
        o := Sleep(c, chan, M.Receiving(chan, nbytes, data[..now]), LockedRead);
      }
    }

    /** A call of `send_channel`, up to its first yield or its return; the answer, if it has returned. */
    method SendChannel(c: Context, chan: int, data: array<byte>, nbytes: nat)
        returns (r: Option<int>, ghost o: M.NetOutcome<nat>)
      requires Valid() && engine.curRoutine == c && nbytes <= data.Length && data !in Bufs(channels)
      requires M.MayAct(net, M.Send(chan, data[..nbytes]))
      modifies channels.Values, Bufs(channels), this`locksTable, this`net, engine`curRoutine, engine`state
      modifies engine.all`locked, engine.all`caller
      ensures o == M.Perform(old(net), M.Send(chan, old(data[..nbytes]))) && Valid() && net == o.net
      ensures chan !in old(net).channels ==> r == Some(-1)
      ensures chan in old(net).channels ==>
        && M.Usable(old(net), chan)
        && r == if Accepted(old(net).channels[chan].queue, nbytes) == nbytes then Some(nbytes) else None
    {
      hide NetEngine.Valid, M.MayAct, M.Perform, M.SendTurn;
      Tables(c);
      SendIs(net, c.id, chan, data[..nbytes]);
      if chan !in channels {
        Wake(c, M.Own(-1, []));
        r, o := Some(-1), M.Going(net);
        return;
      }
      TurnFinds(c, chan);
      if nbytes == 0 {
        Wake(c, M.Own(0, []));
        r, o := Some(0), M.Going(net);
      } else {
        var now;
        now, o := SendTurn(c, chan, channels[chan], data, nbytes, 0);
        r := if now == nbytes then Some(now) else None;
      }
    }

    /** A call of `recv_channel`, up to its first yield or its return; the bytes read so far are in
        `data`. */
    method RecvChannel(c: Context, chan: int, data: array<byte>, nbytes: nat)
        returns (r: Option<int>, ghost o: M.NetOutcome<nat>)
      requires Valid() && engine.curRoutine == c && nbytes <= data.Length && data !in Bufs(channels)
      requires M.MayAct(net, M.Recv(chan, nbytes))
      modifies channels.Values, data, this`locksTable, this`net, engine`curRoutine, engine`state
      modifies engine.all`locked, engine.all`caller
      ensures o == M.Perform(old(net), M.Recv(chan, nbytes)) && Valid() && net == o.net
      ensures chan !in old(net).channels ==> r == Some(-1) && data[..] == old(data[..])
      ensures chan in old(net).channels ==>
        var got := Delivered(old(net).channels[chan].queue, nbytes);
        && |got| <= nbytes && data[..] == Patch(old(data[..]), 0, got)
        && r == if |got| == nbytes then Some(nbytes) else None
    {
      hide NetEngine.Valid, M.MayAct, M.Perform, M.RecvTurn, Patch;
      Tables(c);
      RecvIs(net, c.id, chan, nbytes);
      if chan !in channels {
        Wake(c, M.Own(-1, []));
        r, o := Some(-1), M.Going(net);
        return;
      }
      TurnFinds(c, chan);
      if nbytes == 0 {
        PatchNothing(data[..], 0);
        Wake(c, M.Own(0, []));
        r, o := Some(0), M.Going(net);
      } else {
        assert data[..0] == [];
        var now;
        now, o := RecvTurn(c, chan, channels[chan], data, nbytes, 0);
        r := if now == nbytes then Some(now) else None;
      }
    }

    /** The next turn of a suspended `send_channel`, when its routine runs again. */
    method ContinueSend(c: Context, chan: int, data: array<byte>, nbytes: nat, written: nat)
        returns (r: Option<int>, now: nat, ghost o: M.NetOutcome<nat>)
      requires Valid() && engine.curRoutine == c && M.Usable(net, chan)
      requires written <= nbytes <= data.Length && data !in Bufs(channels)
      requires c.id in net.task && net.task[c.id] == M.Sending(chan, data[..nbytes], written)
      modifies channels.Values, Bufs(channels), this`locksTable, this`net, engine`curRoutine, engine`state
      modifies engine.all`locked, engine.all`caller
      ensures M.MayAct(old(net), M.Continue) && o == M.Perform(old(net), M.Continue) && Valid() && net == o.net
      ensures now == written + Accepted(old(net).channels[chan].queue, nbytes - written)
      ensures r == if now == nbytes then Some(nbytes) else None
    {
      hide NetEngine.Valid, M.MayAct, M.Perform, M.SendTurn;
      Tables(c);
      TurnFinds(c, chan);
      ContinueIs(net, c.id);
      now, o := SendTurn(c, chan, channels[chan], data, nbytes, written);
      r := if now == nbytes then Some(now) else None;
    }

    /** The next turn of a suspended `recv_channel`. */
    method ContinueRecv(c: Context, chan: int, data: array<byte>, nbytes: nat, nread: nat)
        returns (r: Option<int>, now: nat, ghost o: M.NetOutcome<nat>)
      requires Valid() && engine.curRoutine == c && M.Usable(net, chan)
      requires nread <= nbytes <= data.Length && data !in Bufs(channels)
      requires c.id in net.task && net.task[c.id] == M.Receiving(chan, nbytes, data[..nread])
      modifies channels.Values, data, this`locksTable, this`net, engine`curRoutine, engine`state
      modifies engine.all`locked, engine.all`caller
      ensures M.MayAct(old(net), M.Continue) && o == M.Perform(old(net), M.Continue) && Valid() && net == o.net
      ensures var got := Delivered(old(net).channels[chan].queue, nbytes - nread);
        now == nread + |got| <= nbytes && data[..] == Patch(old(data[..]), nread, got)
      ensures r == if now == nbytes then Some(nbytes) else None
    {
      hide NetEngine.Valid, M.MayAct, M.Perform, M.RecvTurn, Patch;
      Tables(c);
      TurnFinds(c, chan);
      ContinueIs(net, c.id);
      now, o := RecvTurn(c, chan, channels[chan], data, nbytes, nread);
      r := if now == nbytes then Some(now) else None;
    }

    lemma Tables(c: Context)
      requires Valid() && engine.curRoutine == c
      ensures net.sched.cur == Some(c.id) && channels.Keys == net.channels.Keys
    {
    }
  }

  lemma CompleteIs(net: M.Net<nat>)
    requires M.MayAct(net, M.Complete)
    ensures net.sched.cur.Some? && net.sched.cur.value in net.sched.caller
    ensures M.Perform(net, M.Complete)
            == M.Switch(net.(sched := Completed(net.sched)), net.sched.caller[net.sched.cur.value])
  {
    hide M.Switch;
  }

  /** What continuing a suspended call is. */
  lemma ContinueIs(net: M.Net<nat>, c: nat)
    requires net.sched.cur == Some(c) && c in net.task && c in net.sched.caller
    requires !net.task[c].Own? && M.Usable(net, net.task[c].chan)
    ensures M.MayAct(net, M.Continue)
    ensures net.task[c].Sending? && net.task[c].written <= |net.task[c].bytes| ==>
              var t := net.task[c];
              && M.Perform(net, M.Continue) == M.SendTurn(net, c, t.chan, t.bytes, t.written)
    ensures net.task[c].Receiving? && |net.task[c].got| <= net.task[c].want ==>
              var t := net.task[c];
              && M.Perform(net, M.Continue) == M.RecvTurn(net, c, t.chan, t.want, t.got)
  {
    hide M.SendTurn, M.RecvTurn;
  }

  lemma SendIs(net: M.Net<nat>, c: nat, chan: int, bytes: seq<byte>)
    requires M.MayAct(net, M.Send(chan, bytes)) && net.sched.cur == Some(c)
    ensures chan !in net.channels ==>
              M.Perform(net, M.Send(chan, bytes)) == M.Going(net.(task := net.task[c := M.Own(-1, [])]))
    ensures chan in net.channels && bytes == [] ==>
              M.Perform(net, M.Send(chan, bytes)) == M.Going(net.(task := net.task[c := M.Own(0, [])]))
    ensures bytes != [] && M.Usable(net, chan) && c in net.sched.caller ==>
              M.Perform(net, M.Send(chan, bytes)) == M.SendTurn(net, c, chan, bytes, 0)
  {
    hide M.SendTurn, M.RecvTurn, M.Switch;
  }

  lemma RecvIs(net: M.Net<nat>, c: nat, chan: int, want: nat)
    requires M.MayAct(net, M.Recv(chan, want)) && net.sched.cur == Some(c)
    ensures chan !in net.channels ==>
              M.Perform(net, M.Recv(chan, want)) == M.Going(net.(task := net.task[c := M.Own(-1, [])]))
    ensures chan in net.channels && want == 0 ==>
              M.Perform(net, M.Recv(chan, want)) == M.Going(net.(task := net.task[c := M.Own(0, [])]))
    ensures want != 0 && M.Usable(net, chan) && c in net.sched.caller ==>
              M.Perform(net, M.Recv(chan, want)) == M.RecvTurn(net, c, chan, want, [])
  {
    hide M.SendTurn, M.RecvTurn, M.Switch;
  }

  /** A patched buffer: the old bytes up to the patch, the patch, and the old bytes behind it. */
  lemma Patched(s: seq<byte>, t: seq<byte>, d: nat, data: seq<byte>)
    requires d + |data| <= |s| && t == Patch(s, d, data)
    ensures t[..d+|data|] == s[..d] + data && t[d+|data|..] == s[d+|data|..]
  {
  }

  lemma ReleaseNone(before: map<nat, LockedState>, ids: seq<nat>, reason: LockedState)
    ensures Released(before, before, ids, 0, reason)
  {
  }

  lemma ReleasedKeys(before: map<nat, LockedState>, now: map<nat, LockedState>,
      ids: seq<nat>, i: nat, reason: LockedState)
    requires i <= |ids| && Released(before, now, ids, i, reason)
    ensures now.Keys == before.Keys
  {
  }
}
