/** What a user of the network engine may rely on, with the buffers its own channels get. */
module NetEngineClient {
  import opened Options
  import opened Fifos
  import opened Scheduling
  import opened Engines
  import opened NetEngines
  import opened Transfer
  import M = NetMachine

  /** On a channel that was just opened, a send is answered at its first turn exactly if it is of no
      more than 4096 bytes; the answer is their number. */
  method SendOnNew(e: NetEngine, c: Context, data: array<byte>, nbytes: nat) returns (chd: int, r: Option<int>)
    requires e.Valid() && e.engine.curRoutine == c && M.HasRunner(e.net) && e.net.task[c.id].Own?
    requires nbytes <= data.Length && data !in Bufs(e.channels)
    modifies e`channels, e`locksTable, e`net, e.engine`curRoutine, e.engine`state
    modifies e.engine.all`locked, e.engine.all`caller
    modifies e.channels.Values, Bufs(e.channels)
    ensures e.Valid() && r == if nbytes <= 4096 then Some(nbytes) else None
  {
    hide NetEngine.Valid, M.Perform;
    e.Tables(c);
    chd := e.CreateChannel();
    ghost var o;
    r, o := e.SendChannel(c, chd, data, nbytes);
  }

  /** A new engine in which the main routine has registered a second one and opened a channel. */
  method Prepare() returns (e: NetEngine, main: Context, other: Context)
    ensures fresh(e) && e.Valid() && e.engine.curRoutine == main && main.id != other.id
    ensures e.net == Prepared(main.id, other.id, 4096)
  {
    hide NetEngine.Valid;
    e := new NetEngine();
    main := e.Start();
    other := e.Launch();
    var chd := e.CreateChannel();
  }

  /** A buffer of 4096 bytes is enough for every transfer, and the running routine is not its own caller. */
  lemma PreparedEnds<C(!new)>(main: C, other: C, j: Job<C>)
    requires main != other && j.chan == 0
    ensures var net := Prepared(main, other, 4096);
            |net.sched.alive| == 2 && M.Usable(net, 0) && Ends(j, net)
  {
  }

  /** On such an engine, either of the two can send any bytes to the other one: both end, and the
      bytes arrive. */
  lemma AnyTransferFinishes<C(!new)>(main: C, other: C, fromMain: bool, bytes: seq<byte>)
    requires main != other
    ensures var j := if fromMain then Job(main, other, 0, bytes) else Job(other, main, 0, bytes);
            var o := RunPair(j, Pair(Prepared(main, other, 4096), false, false), 2 * |bytes| + 5);
            && o.Over? && o.p.net.sched.alive == []
            && j.sender in o.p.net.task && o.p.net.task[j.sender] == M.Own(|bytes|, [])
            && j.receiver in o.p.net.task && o.p.net.task[j.receiver] == M.Own(|bytes|, bytes)
  {
    hide RunPair, Ready, M.Leads, Ends, Prepared;
    var j := if fromMain then Job(main, other, 0, bytes) else Job(other, main, 0, bytes);
    ReadyIsReached(main, other, 4096, bytes);
    PreparedEnds(main, other, j);
    TransferFinishes(j, Prepared(main, other, 4096));
  }
}
