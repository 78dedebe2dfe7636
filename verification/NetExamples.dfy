/** Runs in which a promise of the network engine is not kept. */
module NetExamples {
  import opened Options
  import opened Fifos
  import opened Scheduling
  import opened EngineRuns
  import opened NetMachine
  import opened NetHistory
  import opened Transfer

  /** A run goes on where another one stopped. */
  lemma {:induction false} LeadsThen<C(!new)>(net: Net<C>, acts: seq<Act<C>>, mid: Net<C>, more: seq<Act<C>>, o: NetOutcome<C>)
    requires Leads(net, acts, Going(mid)) && Leads(mid, more, o)
    ensures Leads(net, acts + more, o)
    decreases |acts|
  {
    hide MayAct, Perform;
    if acts == [] {
      assert acts + more == more;
    } else {
      assert (acts + more)[0] == acts[0] && (acts + more)[1..] == acts[1..] + more;
      LeadsThen(Perform(net, acts[0]).net, acts[1..], mid, more, o);
    }
  }

  lemma LeadsOnce<C(!new)>(net: Net<C>, a: Act<C>, next: Net<C>)
    requires MayAct(net, a) && Perform(net, a) == Going(next)
    ensures Leads(net, [a], Going(next))
  {
    assert [a][1..] == [];
  }

  /** One more step of a run that keeps the invariant. */
  lemma OneMore<C(!new)>(start: Net<C>, acts: seq<Act<C>>, net: Net<C>, a: Act<C>, next: Net<C>)
    requires Leads(start, acts, Going(net)) && Inv(net) && MayAct(net, a) && Perform(net, a) == Going(next)
    ensures Leads(start, acts + [a], Going(next)) && Inv(next)
  {
    hide Core, Leads, MayAct, Perform;
    LeadsOnce(net, a, next);
    LeadsThen(start, acts, net, [a], Going(next));
    StepKeeps(net, a);
  }

  /** `c` and `d` are the live routines, `c` runs and is not its own caller. */
  ghost predicate Both<C>(net: Net<C>, c: C, d: C) {
    && net.sched.cur == Some(c) && !OwnCaller(net.sched) && c != d
    && c in net.sched.alive && d in net.sched.alive && (forall x :: x in net.sched.alive ==> x == c || x == d)
    && c in net.sched.caller && c in net.task && d in net.task
  }

  lemma CurHasRecords<C(!new)>(net: Net<C>)
    requires Inv(net)
    ensures HasRunner(net)
  {
  }

  /** `main` asks for a byte of an empty channel and waits; `other` runs. */
  lemma MainWaits<C(!new)>(main: C, other: C, bufSize: nat) returns (net: Net<C>)
    requires main != other
    ensures Leads(Initial(main, bufSize), [Launch(other), Create, Recv(0, 1)], Going(net)) && Inv(net)
    ensures Both(net, other, main) && Listed(net, 0) && net.bufSize == bufSize
    ensures net.task[other].Own? && net.task[main] == Receiving(0, 1, [])
    ensures Usable(net, 0) && net.channels[0].queue == Fifo(bufSize, [], false)
  {
    hide Core, Leads, RecvTurn;
    ReadyIsReached(main, other, bufSize, []);
    var start: Net<C> := Prepared(main, other, bufSize);
    var a: Act<C> := Recv(0, 1);
    assert MayAct(start, a) && Perform(start, a) == RecvTurn(start, main, 0, 1, []);
    assert Delivered(Fifo(bufSize, [], false), 1) == [];
    assert Pop(Fifo(bufSize, [], false), 1) == Fifo(bufSize, [], false);
    RecvTurnGoes(start, main, other, 0, 1, []);
    RecvTurnKeeps(start, main, 0, 1, []);
    net := Perform(start, a).net;
    OneMore(Initial(main, bufSize), [Launch(other), Create], start, a, net);
    CurHasRecords(net);
    assert [Launch(other), Create] + [a] == [Launch(other), Create, Recv(0, 1)];
  }

  /** `other` sends the byte and ends; `main` runs again. */
  lemma OtherSends<C(!new)>(main: C, other: C, bufSize: nat) returns (net: Net<C>)
    requires main != other && bufSize >= 1
    ensures Leads(Initial(main, bufSize), [Launch(other), Create, Recv(0, 1), Send(0, [7]), Complete], Going(net))
    ensures Inv(net) && net.sched.cur == Some(main) && forall x :: x in net.sched.alive <==> x == main
    ensures main in net.task && net.task[main] == Receiving(0, 1, []) && HasRunner(net)
    ensures Usable(net, 0) && net.channels[0].queue == Fifo(bufSize, [7], false) && Listed(net, 0)
  {
    hide Core, Leads, SendTurn, IsLocked;
    var start := MainWaits(main, other, bufSize);
    var acts: seq<Act<C>> := [Launch(other), Create, Recv(0, 1)];
    var a: Act<C> := Send(0, [7]);
    assert MayAct(start, a) && Perform(start, a) == SendTurn(start, other, 0, [7], 0);
    assert [7][0..] == [7] && Push(Fifo(bufSize, [], false), [7]) == Fifo(bufSize, [7], false);
    SendTurnGoes(start, other, main, 0, [7], 0);
    var mid := Perform(start, a).net;
    OneMore(Initial(main, bufSize), acts, start, a, mid);
    assert acts + [a] == [Launch(other), Create, Recv(0, 1), Send(0, [7])];
    CurHasRecords(mid);
    net := OtherEnds(main, other, mid);
    OneMore(Initial(main, bufSize), acts + [a], mid, Complete, net);
    assert acts + [a] + [Complete] == [Launch(other), Create, Recv(0, 1), Send(0, [7]), Complete];
    StepKeepsEntries(start, a, 0);
    CurHasRecords(net);
  }

  /** `other` ends: its caller is not itself, so control passes to `main`. */
  lemma OtherEnds<C(!new)>(main: C, other: C, mid: Net<C>) returns (net: Net<C>)
    requires Inv(mid) && Both(mid, other, main) && !IsLocked(mid.sched, main) && mid.task[other].Own?
    ensures MayAct(mid, Complete) && Perform(mid, Complete) == Going(net)
    ensures net.channels == mid.channels && net.task == mid.task && net.locks == mid.locks
    ensures net.sched.cur == Some(main) && forall x :: x in net.sched.alive <==> x == main
  {
    hide CallerIsLive, Waits, Choose, IsLocked;
    OtherIsLeft(mid.sched, other, main);
    net := Perform(mid, Complete).net;
  }

  /** A channel on which nobody waits, and which cannot be closed: a routine waited there for a byte,
      the byte came, and both calls are over. */
  lemma QuietChannelStaysOpen<C(!new)>(main: C, other: C, bufSize: nat) returns (net: Net<C>)
    requires main != other && bufSize >= 1
    ensures Leads(Initial(main, bufSize), [Launch(other), Create, Recv(0, 1), Send(0, [7]), Complete, Continue], Going(net))
    ensures forall c :: c in net.sched.alive ==> c in net.task && net.task[c].Own?
    ensures 0 in net.channels && MayAct(net, Close(0)) && Perform(net, Close(0)) == Going(net)
  {
    hide Core, Leads, RecvTurn, IsLocked;
    var start := OtherSends(main, other, bufSize);
    var acts: seq<Act<C>> := [Launch(other), Create, Recv(0, 1), Send(0, [7]), Complete];
    assert MayAct(start, Continue) && Perform(start, Continue) == RecvTurn(start, main, 0, 1, []);
    assert Delivered(Fifo(bufSize, [7], false), 1) == [7];
    RecvTurnKeeps(start, main, 0, 1, []);
    RecvTurnParts(start, main, 0, 1, []);
    net := Perform(start, Continue).net;
    OneMore(Initial(main, bufSize), acts, start, Continue, net);
    assert acts + [Continue] == [Launch(other), Create, Recv(0, 1), Send(0, [7]), Complete, Continue];
    StepKeepsEntries(start, Continue, 0);
    CurHasRecords(net);
  }

  /** Channels -1 and 0 are open and a second routine is registered. */
  lemma TwoChannels<C(!new)>(main: C, other: C, bufSize: nat) returns (net: Net<C>)
    requires main != other
    ensures Leads(Initial(main, bufSize), [CreateAt(-1), CreateAt(0), Launch(other)], Going(net)) && Inv(net)
    ensures Both(net, main, other) && net.task[main].Own? && net.task[other].Own? && net.bufSize == bufSize
    ensures net.channels == map[-1 := Opened(bufSize), 0 := Opened(bufSize)]
  {
    hide Core, Leads;
    var start: Net<C> := Initial(main, bufSize);
    var acts: seq<Act<C>> := [CreateAt(-1), CreateAt(0), Launch(other)];
    InitialHolds(main, bufSize);
    var one := Perform(start, acts[0]).net;
    LeadsOnce(start, acts[0], one);
    assert acts[..1] == [acts[0]];
    StepKeeps(start, acts[0]);
    var two := Perform(one, acts[1]).net;
    OneMore(start, acts[..1], one, acts[1], two);
    net := Perform(two, acts[2]).net;
    assert acts[..1] + [acts[1]] == acts[..2];
    OneMore(start, acts[..2], two, acts[2], net);
    assert acts[..2] + [acts[2]] == acts;
    assert net.sched.alive == [other, main];
    CurHasRecords(net);
  }

  /** A routine that waits for room on channel 0, while -1 is open too: the next `create_channel()`
      puts an empty channel in its place, and the routine stays locked for writing on it. */
  lemma ReplacementStrandsWriter<C(!new)>(main: C, other: C, bufSize: nat, bytes: seq<byte>) returns (net: Net<C>)
    requires main != other && 1 <= bufSize < |bytes|
    ensures Leads(Initial(main, bufSize), [CreateAt(-1), CreateAt(0), Launch(other), Send(0, bytes)], Going(net))
    ensures net.sched.cur == Some(other) && other in net.task && net.task[other].Own?
    ensures main in net.sched.alive && main in net.sched.locked && net.sched.locked[main] == LockedWrite
    ensures NewDescriptor(net.channels.Keys) == 0 && !Replaceable(net, 0)
    ensures Opened(net.bufSize).queue.Fits() && Opened(net.bufSize).queue.Free() > 0
    ensures !Inv(net.(channels := net.channels[0 := Opened(net.bufSize)]))
  {
    hide Core, Leads, SendTurn;
    var start := TwoChannels(main, other, bufSize);
    var acts: seq<Act<C>> := [CreateAt(-1), CreateAt(0), Launch(other)];
    var a: Act<C> := Send(0, bytes);
    CurHasRecords(start);
    OpenIsUsable(start);
    assert MayAct(start, a) && Perform(start, a) == SendTurn(start, main, 0, bytes, 0);
    assert bytes[0..] == bytes;
    SendTurnGoes(start, main, other, 0, bytes, 0);
    SendTurnKeeps(start, main, 0, bytes, 0);
    SendTurnParts(start, main, 0, bytes, 0);
    net := Perform(start, a).net;
    OneMore(Initial(main, bufSize), acts, start, a, net);
    assert acts + [a] == [CreateAt(-1), CreateAt(0), Launch(other), Send(0, bytes)];
    assert net.channels.Keys == {-1, 0};
    OpenChannelIsReplaced();
    OpenKeepsIff(net, 0);
  }
}
