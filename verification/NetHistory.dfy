/** What runs of the network engine leave behind: the lock table, and the totals of all calls. */
module NetHistory {
  import opened Options
  import opened Seqs
  import opened Fifos
  import opened Scheduling
  import opened EngineRuns
  import opened NetMachine

  // ---- what the lock table never forgets

  /** The entries of `d` in the lock table are still there, and so is the channel. */
  ghost predicate EntriesStay<C>(net: Net<C>, after: Net<C>, d: int)
    requires d in net.locks
  {
    && d in after.locks && net.locks[d] <= after.locks[d]
    && (d in net.channels ==> d in after.channels)
  }

  lemma SendTurnKeepsEntries<C(!new)>(net: Net<C>, c: C, chan: int, bytes: seq<byte>, written: nat, d: int)
    requires net.sched.cur == Some(c) && c in net.sched.caller && d in net.locks
    requires Usable(net, chan) && written <= |bytes|
    ensures EntriesStay(net, SendTurn(net, c, chan, bytes, written).net, d)
  {
    hide Switch, Push, Accepted;
  }

  lemma RecvTurnKeepsEntries<C(!new)>(net: Net<C>, c: C, chan: int, want: nat, got: seq<byte>, d: int)
    requires net.sched.cur == Some(c) && c in net.sched.caller && d in net.locks
    requires Usable(net, chan) && |got| <= want
    ensures EntriesStay(net, RecvTurn(net, c, chan, want, got).net, d)
  {
    hide Switch, Pop, Delivered;
  }

  /** No step erases an entry of the lock table, nor closes a channel that has one. */
  lemma StepKeepsEntries<C(!new)>(net: Net<C>, a: Act<C>, d: int)
    requires MayAct(net, a) && d in net.locks && net.locks[d] != []
    ensures EntriesStay(net, Perform(net, a).net, d)
  {
    hide Choose, Switch, SendTurn, RecvTurn, Registered, Completed, NewDescriptor;
    var c := net.sched.cur.value;
    match a
    case Send(chan, bytes) =>
      if Usable(net, chan) {
        SendTurnKeepsEntries(net, c, chan, bytes, 0, d);
      }
    case Recv(chan, want) =>
      if Usable(net, chan) {
        RecvTurnKeepsEntries(net, c, chan, want, [], d);
      }
    case Continue =>
      match net.task[c] {
        case Sending(chan, bytes, written) =>
          if Usable(net, chan) && written <= |bytes| {
            SendTurnKeepsEntries(net, c, chan, bytes, written, d);
          }
        case Receiving(chan, want, got) =>
          if Usable(net, chan) && |got| <= want {
            RecvTurnKeepsEntries(net, c, chan, want, got, d);
          }
        case Own(_, _) =>
      }
    case _ =>
  }

  lemma {:induction false} RunKeepsEntries<C(!new)>(net: Net<C>, acts: seq<Act<C>>, o: NetOutcome<C>, d: int)
    requires Leads(net, acts, o) && Listed(net, d)
    ensures EntriesStay(net, o.net, d)
    decreases |acts|
  {
    hide Perform;
    if acts != [] {
      StepKeepsEntries(net, acts[0], d);
      var n := Perform(net, acts[0]);
      if n.Going? {
        RunKeepsEntries(n.net, acts[1..], o, d);
      }
    }
  }

  /** Some routine has waited on channel `d`: its entry is in the lock list. */
  ghost predicate Listed<C>(net: Net<C>, d: int) {
    d in net.locks && net.locks[d] != []
  }

  /** The step that led from `net` to `o` left the routine that ran in the middle of a call on `d`. */
  ghost predicate SleptOn<C>(net: Net<C>, o: NetOutcome<C>, d: int) {
    && net.sched.cur.Some? && net.sched.cur.value in o.net.task
    && var t := o.net.task[net.sched.cur.value]; !t.Own? && t.chan == d
  }

  /** In the run some routine had to wait on channel `d`. */
  ghost predicate Waited<C(!new)>(net: Net<C>, acts: seq<Act<C>>, d: int)
    decreases |acts|
  {
    && acts != [] && MayAct(net, acts[0])
    && var o := Perform(net, acts[0]);
       SleptOn(net, o, d) || (o.Going? && Waited(o.net, acts[1..], d))
  }

  lemma SendTurnLists<C(!new)>(net: Net<C>, c: C, chan: int, bytes: seq<byte>, written: nat, d: int)
    requires net.sched.cur == Some(c) && c in net.sched.caller
    requires Usable(net, chan) && written <= |bytes|
    ensures var o := SendTurn(net, c, chan, bytes, written);
            Listed(o.net, d) <==> Listed(net, d) || SleptOn(net, o, d)
  {
    hide Switch, Push, Accepted;
  }

  lemma RecvTurnLists<C(!new)>(net: Net<C>, c: C, chan: int, want: nat, got: seq<byte>, d: int)
    requires net.sched.cur == Some(c) && c in net.sched.caller
    requires Usable(net, chan) && |got| <= want
    ensures var o := RecvTurn(net, c, chan, want, got);
            Listed(o.net, d) <==> Listed(net, d) || SleptOn(net, o, d)
  {
    hide Switch, Pop, Delivered;
  }

  /** A step puts somebody into the lock list of `d` exactly if it leaves its routine waiting there. */
  lemma StepLists<C(!new)>(net: Net<C>, a: Act<C>, d: int)
    requires Inv(net) && MayAct(net, a)
    ensures Listed(Perform(net, a).net, d) <==> Listed(net, d) || SleptOn(net, Perform(net, a), d)
  {
    hide Switch, SendTurn, RecvTurn, Registered, Completed, NewDescriptor, Conserves, Replaceable;
    OpenIsUsable(net);
    var c := net.sched.cur.value;
    AliveHasTask(net, c);
    match a
    case Send(chan, bytes) =>
      if Usable(net, chan) {
        SendTurnLists(net, c, chan, bytes, 0, d);
      }
    case Recv(chan, want) =>
      if Usable(net, chan) {
        RecvTurnLists(net, c, chan, want, [], d);
      }
    case Continue =>
      match net.task[c] {
        case Sending(chan, bytes, written) => SendTurnLists(net, c, chan, bytes, written, d);
        case Receiving(chan, want, got) => RecvTurnLists(net, c, chan, want, got, d);
        case Own(_, _) =>
      }
    case _ =>
  }

  lemma {:induction false} RunLists<C(!new)>(net: Net<C>, acts: seq<Act<C>>, o: NetOutcome<C>, d: int)
    requires Inv(net) && Leads(net, acts, o)
    ensures Listed(o.net, d) <==> Listed(net, d) || Waited(net, acts, d)
    decreases |acts|
  {
    hide Core, Perform, SleptOn, Listed;
    if acts != [] {
      StepLists(net, acts[0], d);
      StepKeeps(net, acts[0]);
      var n := Perform(net, acts[0]);
      if n.Going? {
        RunLists(n.net, acts[1..], o, d);
      }
    }
  }

  /** `close_channel` closes an open channel exactly if no routine has had to wait on it, in the whole
      run so far; who waits now does not matter. */
  lemma ClosesIff<C(!new)>(main: C, bufSize: nat, acts: seq<Act<C>>, net: Net<C>, d: int)
    requires Leads(Initial(main, bufSize), acts, Going(net)) && d in net.channels && MayAct(net, Close(d))
    ensures d !in Perform(net, Close(d)).net.channels <==> !Waited(Initial(main, bufSize), acts, d)
  {
    hide Core, Waited;
    InitialHolds(main, bufSize);
    RunLists(Initial(main, bufSize), acts, Going(net), d);
  }

  /** A channel on which some routine has once had to wait is never closed again, however long ago
      that was: its entry is still in the lock table. */
  lemma OnceWaitedOnNeverCloses<C(!new)>(main: C, bufSize: nat, acts: seq<Act<C>>, net: Net<C>,
                                         more: seq<Act<C>>, o: NetOutcome<C>, d: int)
    requires Leads(Initial(main, bufSize), acts, Going(net)) && Leads(net, more, o)
    requires Waited(Initial(main, bufSize), acts, d) && d in net.channels
    ensures d in o.net.channels
  {
    hide Core, Waited, Leads;
    InitialHolds(main, bufSize);
    RunLists(Initial(main, bufSize), acts, Going(net), d);
    RunKeepsEntries(net, more, o, d);
  }

  // ---- what the calls ask for in all

  /** The bytes a call on channel `d` has still to write, or to read. */
  function Share(t: Task, d: int, writing: bool): (n: nat) {
    match t
    case Own(_, _) => 0
    case Sending(chan, bytes, written) =>
      if writing && chan == d && written <= |bytes| then |bytes| - written else 0
    case Receiving(chan, want, got) =>
      if !writing && chan == d && |got| <= want then want - |got| else 0
  }

  /** The same for all routines of a list. */
  ghost function Shares<C>(task: map<C, Task>, list: seq<C>, d: int, writing: bool): (n: nat)
    decreases |list|
  {
    if list == [] then 0
    else (if list[0] in task then Share(task[list[0]], d, writing) else 0) + Shares(task, list[1..], d, writing)
  }

  lemma {:induction false} SharesAgree<C(!new)>(a: map<C, Task>, b: map<C, Task>, list: seq<C>, d: int, writing: bool)
    requires forall c :: c in list ==> c in a && c in b && Share(a[c], d, writing) == Share(b[c], d, writing)
    ensures Shares(a, list, d, writing) == Shares(b, list, d, writing)
    decreases |list|
  {
    if list != [] {
      assert list[0] in list && forall c :: c in list[1..] ==> c in list;
      SharesAgree(a, b, list[1..], d, writing);
    }
  }

  /** One routine's part is exchanged for another. */
  lemma {:induction false} SharesChange<C(!new)>(task: map<C, Task>, list: seq<C>, c: C, t: Task, d: int, writing: bool)
    requires NoDup(list) && c in list && forall x :: x in list ==> x in task
    ensures Shares(task[c := t], list, d, writing) + Share(task[c], d, writing)
            == Shares(task, list, d, writing) + Share(t, d, writing)
    decreases |list|
  {
    var rest := list[1..];
    assert list == [list[0]] + rest;
    RestHasNoDup(list);
    if list[0] == c {
      SharesAgree(task, task[c := t], rest, d, writing);
    } else {
      SharesChange(task, rest, c, t, d, writing);
    }
  }

  lemma RestHasNoDup<C(!new)>(list: seq<C>)
    requires NoDup(list) && list != []
    ensures NoDup(list[1..]) && list[0] !in list[1..]
    ensures forall x :: x in list <==> x == list[0] || x in list[1..]
  {
    var rest := list[1..];
    assert list == [list[0]] + rest;
    forall i | 0 <= i < |rest| ensures rest[i] != list[0] {
      assert rest[i] == list[i+1];
    }
    forall i, j | 0 <= i < j < |rest| ensures rest[i] != rest[j] {
      assert rest[i] == list[i+1] && rest[j] == list[j+1];
    }
  }

  lemma {:induction false} SharesWithout<C(!new)>(task: map<C, Task>, list: seq<C>, c: C, d: int, writing: bool)
    requires c in task && task[c].Own?
    ensures Shares(task, Without(list, c), d, writing) == Shares(task, list, d, writing)
    decreases |list|
  {
    if list != [] && list[0] != c {
      assert Without(list, c) == [list[0]] + Without(list[1..], c);
      SharesWithout(task, list[1..], c, d, writing);
    }
  }

  /** The whole is nothing if every part is, and no less than any part. */
  lemma {:induction false} SharesBounds<C(!new)>(task: map<C, Task>, list: seq<C>, d: int, writing: bool)
    ensures forall c :: c in list && c in task ==> Share(task[c], d, writing) <= Shares(task, list, d, writing)
    ensures (forall c :: c in list && c in task ==> Share(task[c], d, writing) == 0) ==> Shares(task, list, d, writing) == 0
    decreases |list|
  {
    if list != [] {
      assert list[0] in list && forall c :: c in list <==> c == list[0] || c in list[1..];
      SharesBounds(task, list[1..], d, writing);
    }
  }

  /** How many bytes all calls on a channel since it was opened asked to send, and to receive. A call
      that was in progress when the channel was replaced counts with what it had left. */
  datatype Tally = Tally(offered: nat, asked: nat)

  ghost function Counted<C(!new)>(net: Net<C>, a: Act<C>, d: int, t: Tally): (r: Tally) {
    match a
    case Send(chan, bytes) => if chan == d && d in net.channels then t.(offered := t.offered + |bytes|) else t
    case Recv(chan, want) => if chan == d && d in net.channels then t.(asked := t.asked + want) else t
    case Create => if NewDescriptor(net.channels.Keys) == d then InProgress(net, d) else t
    case CreateAt(e) => if e == d && d !in net.channels then InProgress(net, d) else t
    case _ => t
  }

  ghost function InProgress<C(!new)>(net: Net<C>, d: int): (r: Tally) {
    Tally(Shares(net.task, net.sched.alive, d, true), Shares(net.task, net.sched.alive, d, false))
  }

  ghost function Totals<C(!new)>(net: Net<C>, acts: seq<Act<C>>, d: int, t: Tally): (r: Tally)
    decreases |acts|
  {
    if acts == [] || !MayAct(net, acts[0]) then t
    else
      var o := Perform(net, acts[0]);
      if o.Going? then Totals(o.net, acts[1..], d, Counted(net, acts[0], d, t)) else Counted(net, acts[0], d, t)
  }

  /** What was asked for is what has been done and what calls in progress have yet to do. */
  ghost predicate Balanced<C(!new)>(net: Net<C>, d: int, t: Tally) {
    d in net.channels ==>
      && t.offered == |net.channels[d].sent| + Shares(net.task, net.sched.alive, d, true)
      && t.asked == |net.channels[d].received| + Shares(net.task, net.sched.alive, d, false)
  }

  /** What a turn changes: the task of its routine and the channel. */
  lemma SendTurnParts<C(!new)>(net: Net<C>, c: C, chan: int, bytes: seq<byte>, written: nat)
    requires net.sched.cur == Some(c) && c in net.sched.caller && Usable(net, chan) && written <= |bytes|
    ensures var o := SendTurn(net, c, chan, bytes, written);
            var now := written + Accepted(net.channels[chan].queue, |bytes| - written);
            && o.net.sched.alive == net.sched.alive
            && o.net.channels == net.channels[chan := AfterWrite(net.channels[chan], bytes[written..])]
            && o.net.task == net.task[c := if now == |bytes| then Own(now, []) else Sending(chan, bytes, now)]
  {
    hide Switch, Accepted;
  }

  lemma RecvTurnParts<C(!new)>(net: Net<C>, c: C, chan: int, want: nat, got: seq<byte>)
    requires net.sched.cur == Some(c) && c in net.sched.caller && Usable(net, chan) && |got| <= want
    ensures var o := RecvTurn(net, c, chan, want, got);
            var now := got + Delivered(net.channels[chan].queue, want - |got|);
            && o.net.sched.alive == net.sched.alive
            && o.net.channels == net.channels[chan := AfterRead(net.channels[chan], want - |got|)]
            && o.net.task == net.task[c := if |now| == want then Own(want, now) else Receiving(chan, want, now)]
  {
    hide Switch, Delivered;
  }

  /** A routine's part changes from one task to another. */
  lemma ShareMoves<C(!new)>(net: Net<C>, c: C, t: Task, d: int)
    requires Core(net) && c in net.sched.alive
    ensures c in net.task
    ensures forall w :: Shares(net.task[c := t], net.sched.alive, d, w) + Share(net.task[c], d, w)
                        == Shares(net.task, net.sched.alive, d, w) + Share(t, d, w)
  {
    forall x | x in net.sched.alive ensures x in net.task {
      AliveHasTask(net, x);
    }
    forall w: bool
      ensures Shares(net.task[c := t], net.sched.alive, d, w) + Share(net.task[c], d, w)
              == Shares(net.task, net.sched.alive, d, w) + Share(t, d, w)
    {
      SharesChange(net.task, net.sched.alive, c, t, d, w);
    }
  }

  /** A turn moves bytes from what its call has to do to what has been done. */
  lemma SendTurnBalances<C(!new)>(net: Net<C>, c: C, chan: int, bytes: seq<byte>, written: nat, d: int, t: Tally)
    requires Inv(net) && net.sched.cur == Some(c) && c in net.sched.caller && c in net.task
    requires Usable(net, chan) && written <= |bytes| && Balanced(net, d, t)
    requires if net.task[c].Own? then written == 0 else net.task[c] == Sending(chan, bytes, written)
    ensures Balanced(SendTurn(net, c, chan, bytes, written).net, d,
                     if net.task[c].Own? && chan == d then t.(offered := t.offered + |bytes|) else t)
  {
    hide Core, SendTurn, Shares;
    CurIsAlive(net);
    SendTurnParts(net, c, chan, bytes, written);
    ShareMoves(net, c, SendTurn(net, c, chan, bytes, written).net.task[c], d);
  }

  lemma RecvTurnBalances<C(!new)>(net: Net<C>, c: C, chan: int, want: nat, got: seq<byte>, d: int, t: Tally)
    requires Inv(net) && net.sched.cur == Some(c) && c in net.sched.caller && c in net.task
    requires Usable(net, chan) && |got| <= want && Balanced(net, d, t)
    requires if net.task[c].Own? then got == [] else net.task[c] == Receiving(chan, want, got)
    ensures Balanced(RecvTurn(net, c, chan, want, got).net, d,
                     if net.task[c].Own? && chan == d then t.(asked := t.asked + want) else t)
  {
    hide Core, RecvTurn, Shares;
    CurIsAlive(net);
    RecvTurnParts(net, c, chan, want, got);
    ShareMoves(net, c, RecvTurn(net, c, chan, want, got).net.task[c], d);
  }

  /** A routine in its own code has nothing to do for any channel. */
  lemma OwnBalances<C(!new)>(net: Net<C>, c: C, t: Task, d: int, tally: Tally)
    requires Core(net) && c in net.sched.alive && c in net.task && net.task[c].Own? && t.Own? && Balanced(net, d, tally)
    ensures Balanced(net.(task := net.task[c := t]), d, tally)
  {
    hide Core, Shares;
    ShareMoves(net, c, t, d);
  }

  lemma LaunchBalances<C(!new)>(net: Net<C>, e: C, d: int, t: Tally)
    requires Inv(net) && e !in net.sched.caller && Balanced(net, d, t)
    ensures Balanced(net.(sched := Registered(net.sched, e), task := net.task[e := Own(0, [])]), d, t)
  {
    var task := net.task[e := Own(0, [])];
    assert ([e] + net.sched.alive)[1..] == net.sched.alive;
    SharesAgree(task, net.task, net.sched.alive, d, true);
    SharesAgree(task, net.task, net.sched.alive, d, false);
  }

  lemma CompleteBalances<C(!new)>(net: Net<C>, d: int, t: Tally)
    requires Inv(net) && HasRunner(net) && net.task[net.sched.cur.value].Own? && Balanced(net, d, t)
    ensures Balanced(net.(sched := Completed(net.sched)), d, t)
  {
    hide Core, Shares;
    SharesWithout(net.task, net.sched.alive, net.sched.cur.value, d, true);
    SharesWithout(net.task, net.sched.alive, net.sched.cur.value, d, false);
  }

  /** Every step keeps the balance of what was asked for and what is done and left. */
  lemma StepBalances<C(!new)>(net: Net<C>, a: Act<C>, d: int, t: Tally)
    requires Inv(net) && MayAct(net, a) && Balanced(net, d, t)
    ensures Balanced(Perform(net, a).net, d, Counted(net, a, d, t))
  {
    hide Core, Shares, Switch, SendTurn, RecvTurn, Registered, Completed, NewDescriptor, Replaceable, OwnCaller;
    OpenIsUsable(net);
    CurIsAlive(net);
    var c := net.sched.cur.value;
    AliveHasTask(net, c);
    match a
    case Send(chan, bytes) =>
      if chan !in net.channels {
        OwnBalances(net, c, Own(-1, []), d, t);
      } else if bytes == [] {
        OwnBalances(net, c, Own(0, []), d, t);
      } else {
        SendTurnBalances(net, c, chan, bytes, 0, d, t);
      }
    case Recv(chan, want) =>
      if chan !in net.channels {
        OwnBalances(net, c, Own(-1, []), d, t);
      } else if want == 0 {
        OwnBalances(net, c, Own(0, []), d, t);
      } else {
        RecvTurnBalances(net, c, chan, want, [], d, t);
      }
    case Continue =>
      match net.task[c] {
        case Sending(chan, bytes, written) => SendTurnBalances(net, c, chan, bytes, written, d, t);
        case Receiving(chan, want, got) => RecvTurnBalances(net, c, chan, want, got, d, t);
        case Own(_, _) =>
      }
    case Launch(e) => LaunchBalances(net, e, d, t);
    case Complete => CompleteBalances(net, d, t);
    case _ =>
  }

  lemma {:induction false} RunBalances<C(!new)>(net: Net<C>, acts: seq<Act<C>>, o: NetOutcome<C>, d: int, t: Tally)
    requires Inv(net) && Leads(net, acts, o) && Balanced(net, d, t)
    ensures Balanced(o.net, d, Totals(net, acts, d, t))
    decreases |acts|
  {
    hide Core, Perform, Balanced, Counted;
    if acts != [] {
      StepBalances(net, acts[0], d, t);
      StepKeeps(net, acts[0]);
      var n := Perform(net, acts[0]);
      if n.Going? {
        RunBalances(n.net, acts[1..], o, d, Counted(net, acts[0], d, t));
      }
    }
  }

  /** What all calls of a run asked of channel `d`. */
  ghost function Asked<C(!new)>(main: C, bufSize: nat, acts: seq<Act<C>>, d: int): (r: Tally) {
    Totals(Initial(main, bufSize), acts, d, Tally(0, 0))
  }

  /** When nobody can go on, the calls on every channel that somebody waits for do not match: a
      routine that waits to read wants bytes that nobody ever offered, and one that waits to write
      offers bytes that nobody ever asked for. */
  lemma StuckMeansMismatch<C(!new)>(main: C, bufSize: nat, acts: seq<Act<C>>, o: NetOutcome<C>, c: C)
    requires Leads(Initial(main, bufSize), acts, o) && bufSize >= 2 && (o.Dead? || o.Lost?)
    requires c in o.net.sched.alive
    ensures c in o.net.task && !o.net.task[c].Own?
    ensures var t := Asked(main, bufSize, acts, o.net.task[c].chan);
            if o.net.task[c].Receiving? then t.asked > t.offered else t.offered > t.asked
  {
    hide Core, Sound, Leads, Totals, Shares;
    InitialHolds(main, bufSize);
    RunsKeep(Initial(main, bufSize), acts, o);
    AliveHasTask(o.net, c);
    assert IsLocked(o.net.sched, c);
    var d := o.net.task[c].chan;
    RunBalances(Initial(main, bufSize), acts, o, d, Tally(0, 0));
    BytesStayInOrder(main, bufSize, acts, o, d);
    NoLostWakeup(main, bufSize, acts, o, c);
    SharesBounds(o.net.task, o.net.sched.alive, d, true);
    SharesBounds(o.net.task, o.net.sched.alive, d, false);
    forall x | x in o.net.sched.alive && x in o.net.task
      ensures Share(o.net.task[x], d, o.net.task[c].Receiving?) == 0
    {
      AliveHasTask(o.net, x);
      assert IsLocked(o.net.sched, x);
      if o.net.task[c].Receiving? && o.net.task[x].Sending? {
        ReadersAndWritersApart(main, bufSize, acts, o, c, x);
      } else if o.net.task[c].Sending? && o.net.task[x].Receiving? {
        ReadersAndWritersApart(main, bufSize, acts, o, x, c);
      }
    }
    SizeStays(Initial(main, bufSize), acts, o);
    StoredWhenFull(o.net, d);
  }

  /** A full channel of two bytes or more holds something. */
  lemma StoredWhenFull<C(!new)>(net: Net<C>, d: int)
    requires Core(net) && d in net.channels && net.bufSize >= 2
    ensures IsFull(net, d) ==> net.channels[d].queue.stored != []
  {
  }

  /** Any number of senders and receivers, on any number of channels with buffers of two bytes or more:
      if on every open channel as much was asked to be sent as to be received, nobody gets stuck. */
  lemma MatchedCallsNeverStop<C(!new)>(main: C, bufSize: nat, acts: seq<Act<C>>, o: NetOutcome<C>)
    requires Leads(Initial(main, bufSize), acts, o) && bufSize >= 2
    requires forall d :: d in o.net.channels ==>
      Asked(main, bufSize, acts, d).offered == Asked(main, bufSize, acts, d).asked
    ensures !o.Dead? && !o.Lost? && !o.Broken?
  {
    hide Core, Leads, Asked;
    InitialHolds(main, bufSize);
    RunsKeep(Initial(main, bufSize), acts, o);
    if o.Dead? || o.Lost? {
      var c := o.net.sched.alive[0];
      AliveHasTask(o.net, c);
      StuckMeansMismatch(main, bufSize, acts, o, c);
    }
  }
}
