/** Whole runs of the coroutine engine: registration, switching and completion
    (hw-coroutines/include/coroutine/engine.h, hw-coroutines/src/engine.cpp). */
module EngineRuns {
  import opened Options
  import opened Scheduling

  /** What the running routine may do. `Relock` stands for whatever channel calls do to the
      locks; the engine without locks never uses it. */
  datatype Move<C> =
    | Spawn(c: C)
    | SchedTo(target: C)
    | Yield
    | Finish
    | Relock(locked: map<C, LockedState>)

  /** A run goes on, or `start` has returned, or the engine has stopped with a dead lock, or it
      has no routine to continue with. */
  datatype Outcome<C> = Running(s: Sched<C>) | Returned(s: Sched<C>) | Stopped(s: Sched<C>) | Stuck(s: Sched<C>)

  function Decide<C(==)>(s: Sched<C>, target: Option<C>): (r: Outcome<C>)
    requires s.cur.Some? ==> s.cur.value in s.caller
  {
    match Choose(s, target)
    case Resume(r) => Running(Resumed(s, r))
    case Return => Returned(s)
    case DeadLock => Stopped(s)
    case NoTarget => Stuck(s)
  }

  function Without<C(==)>(s: seq<C>, c: C): (r: seq<C>) {
    if s == [] then [] else if s[0] == c then s[1..] else [s[0]] + Without(s[1..], c)
  }

  /** Registers a routine at the head of the alive list; the current routine is its caller. */
  function Registered<C(==)>(s: Sched<C>, c: C): (r: Sched<C>) {
    s.(alive := [c] + s.alive, caller := s.caller[c := s.cur], locked := s.locked[c := NotLocked])
  }

  /** The current routine is done: it leaves the alive list and no routine is current. */
  function Completed<C(==)>(s: Sched<C>): (r: Sched<C>)
    requires s.cur.Some?
  {
    s.(alive := Without(s.alive, s.cur.value), cur := None)
  }

  function Do<C(==)>(s: Sched<C>, m: Move<C>): (r: Outcome<C>)
    requires s.cur.Some? && s.cur.value in s.caller
  {
    match m
    case Spawn(c) => Running(Registered(s, c))
    case SchedTo(t) => Decide(s, Some(t))
    case Yield => Decide(s, None)
    case Finish => Decide(Completed(s), s.caller[s.cur.value])
    case Relock(l) => Running(s.(locked := l))
  }

  /** `start` registers the main routine and gives it control. */
  function Started<C(==)>(main: C): (r: Sched<C>) {
    Resumed(Registered(Sched([], None, map[], map[]), main), main)
  }

  /** A move of a run in which explicit targets are live and no routine ends as its own caller. */
  ghost predicate Allowed<C>(s: Sched<C>, m: Move<C>)
    requires s.cur.Some? && s.cur.value in s.caller
  {
    match m
    case Spawn(c) => c !in s.caller
    case SchedTo(t) => t in s.alive
    case Yield => true
    case Finish => !OwnCaller(s)
    case Relock(l) => l.Keys == s.locked.Keys
  }

  ghost predicate Sound<C(!new)>(s: Sched<C>) {
    WellFormed(s) && CallerIsLive(s)
  }

  /** `o` is reached from `s` by the moves `ms`, all of them allowed. */
  ghost predicate Reaches<C(!new)>(s: Sched<C>, ms: seq<Move<C>>, o: Outcome<C>)
    decreases |ms|
  {
    if ms == [] then o == Running(s)
    else
      && s.cur.Some? && s.cur.value in s.caller && Allowed(s, ms[0])
      && var n := Do(s, ms[0]);
         if n.Running? then Reaches(n.s, ms[1..], o) else |ms| == 1 && o == n
  }

  lemma {:induction false} WithoutRemoves<C(!new)>(s: seq<C>, c: C)
    requires NoDup(s)
    ensures NoDup(Without(s, c))
    ensures forall x :: x in Without(s, c) <==> x in s && x != c
  {
    if s != [] {
      var rest := s[1..];
      assert s == [s[0]] + rest;
      assert NoDup(rest) && s[0] !in rest by {
        forall i | 0 <= i < |rest| ensures rest[i] != s[0] {
          assert rest[i] == s[i+1];
        }
      }
      WithoutRemoves(rest, c);
      if s[0] != c {
        assert Without(s, c) == [s[0]] + Without(rest, c);
        assert forall i :: 0 <= i < |Without(rest, c)| ==> Without(rest, c)[i] in rest;
      }
    }
  }

  /** Removing the element at `k` of a list without duplicates takes out just that place. */
  lemma {:induction false} WithoutAt<C>(s: seq<C>, k: nat)
    requires NoDup(s) && k < |s|
    ensures Without(s, s[k]) == s[..k] + s[k+1..]
  {
    if k == 0 {
      assert s[..0] + s[1..] == s[1..];
    } else {
      WithoutAt(s[1..], k - 1);
      assert s[1..][..k-1] == s[1..k] && s[1..][k..] == s[k+1..];
      assert [s[0]] + (s[1..k] + s[k+1..]) == s[..k] + s[k+1..];
    }
  }

  lemma DecideIsSound<C(!new)>(s: Sched<C>, target: Option<C>)
    requires Sound(s)
    requires target.Some? ==> target.value in s.alive
    ensures Decide(s, target).Running? ==> Sound(Decide(s, target).s) && Decide(s, target).s.cur.Some?
    ensures Decide(s, target).Running? ==> !IsLocked(Decide(s, target).s, Decide(s, target).s.cur.value)
    ensures Decide(s, target).Returned? <==> s.cur.None? && s.alive == []
    ensures Decide(s, target).Stopped? <==> s.cur.Some? && forall c :: c in s.alive ==> IsLocked(s, c)
    ensures Decide(s, target).Stuck? <==> s.cur.None? && s.alive != [] && forall c :: c in s.alive ==> IsLocked(s, c)
  {
    ResumesUnlocked(s, target);
    DeadLockIff(s, target);
    StopsIff(s, target);
    if Choose(s, target).Resume? {
      ResumedKeeps(s, Choose(s, target).routine);
    }
  }

  lemma CompletedIsSound<C(!new)>(s: Sched<C>)
    requires Sound(s) && s.cur.Some? && !OwnCaller(s)
    ensures Sound(Completed(s))
    ensures s.caller[s.cur.value].Some? ==> s.caller[s.cur.value].value in Completed(s).alive
  {
    WithoutRemoves(s.alive, s.cur.value);
  }

  lemma StepIsSound<C(!new)>(s: Sched<C>, m: Move<C>)
    requires Sound(s) && s.cur.Some? && Allowed(s, m)
    ensures Do(s, m).Running? ==> Sound(Do(s, m).s) && Do(s, m).s.cur.Some?
    ensures Do(s, m).Returned? ==> m.Finish? && Do(s, m).s.alive == []
    ensures Do(s, m).Stopped? ==> forall c :: c in s.alive ==> IsLocked(s, c)
    ensures Do(s, m).Stuck? ==> m.Finish? && forall c :: c in Do(s, m).s.alive ==> IsLocked(s, c)
  {
    match m
    case Spawn(c) =>
    case SchedTo(t) => DecideIsSound(s, Some(t));
    case Yield => DecideIsSound(s, None);
    case Finish =>
      CompletedIsSound(s);
      DecideIsSound(Completed(s), s.caller[s.cur.value]);
    case Relock(l) =>
  }

  /** In every run in which explicit targets are live and no routine ends as its own caller, the
      running routine is live and its caller is null or live; `start` returns only when no routine
      is left, and a dead lock means that every live routine is locked. */
  lemma {:induction false} RunsAreSound<C(!new)>(s: Sched<C>, ms: seq<Move<C>>, o: Outcome<C>)
    requires Sound(s) && s.cur.Some? && Reaches(s, ms, o)
    ensures o.Running? ==> Sound(o.s) && o.s.cur.Some?
    ensures o.Returned? ==> o.s.alive == []
    ensures o.Stopped? || o.Stuck? ==> forall c :: c in o.s.alive ==> IsLocked(o.s, c)
    decreases |ms|
  {
    if ms != [] {
      StepIsSound(s, ms[0]);
      var n := Do(s, ms[0]);
      if n.Running? {
        RunsAreSound(n.s, ms[1..], o);
      }
    }
  }

  /** The same from the start of the engine, in its own words. */
  lemma EngineRunsAreSound<C(!new)>(main: C, ms: seq<Move<C>>, o: Outcome<C>)
    requires Reaches(Started(main), ms, o)
    ensures o.Running? ==>
              && o.s.cur.Some? && o.s.cur.value in o.s.alive && o.s.cur.value in o.s.caller
              && var caller := o.s.caller[o.s.cur.value];
                 caller.Some? ==> caller.value in o.s.alive
    ensures o.Returned? ==> o.s.alive == []
    ensures o.Stopped? || o.Stuck? ==> forall c :: c in o.s.alive ==> IsLocked(o.s, c)
  {
    assert Started(main).alive == [main];
    RunsAreSound(Started(main), ms, o);
  }

  /** When a routine completes, control passes to a finished routine exactly if the completing
      routine was last resumed by itself, so that it is its own caller. */
  lemma CompletionIff<C(!new)>(s: Sched<C>)
    requires WellFormed(s) && s.cur.Some? && !IsLocked(s, s.cur.value)
    requires s.caller[s.cur.value].Some? ==> s.caller[s.cur.value].value in s.alive
    ensures Do(s, Finish).Running? && Do(s, Finish).s.cur.value !in Do(s, Finish).s.alive
            <==> s.caller[s.cur.value] == s.cur
  {
    WithoutRemoves(s.alive, s.cur.value);
  }

  /** A lone routine that yields resumes itself, and its completion then hands control to itself. */
  lemma LoneYield<C(!new)>(main: C)
    ensures Do(Started(main), Yield).Running? && Do(Started(main), Yield).s.cur == Some(main)
    ensures var s := Do(Started(main), Yield).s;
            Do(s, Finish).Running? && Do(s, Finish).s.alive == [] && Do(s, Finish).s.cur == Some(main)
  {
    var s := Started(main);
    assert s.alive == [main];
    assert s.alive[1..] == [];
  }

  /** A routine that is its own caller keeps control when it yields, whoever else is waiting: nothing
      changes until another routine is resumed by name. */
  lemma OwnCallerKeepsControl<C(!new)>(s: Sched<C>)
    requires WellFormed(s) && OwnCaller(s) && !IsLocked(s, s.cur.value)
    ensures Do(s, Yield) == Running(s)
  {
    assert s.caller[s.cur.value := s.cur] == s.caller;
  }

  // ---- who gets control

  /** What the running routine can do without giving control away. */
  predicate OwnMove<C>(m: Move<C>) {
    m.Spawn? || m.Relock?
  }

  predicate Unlocks<C(==)>(o: Outcome<C>, c: C) {
    o.Running? && !IsLocked(o.s, c)
  }

  /** Control has passed to `c`, and `from` is its caller. */
  predicate Runs<C(==)>(o: Outcome<C>, c: C, from: Option<C>) {
    o.Running? && o.s.cur == Some(c) && c in o.s.caller && o.s.caller[c] == from
  }

  /** Own moves keep the running routine, its caller, and every live routine. */
  lemma {:induction false} OwnMovesStay<C(!new)>(s: Sched<C>, ms: seq<Move<C>>, o: Outcome<C>)
    requires WellFormed(s) && s.cur.Some? && Reaches(s, ms, o)
    requires forall i :: 0 <= i < |ms| ==> OwnMove(ms[i])
    ensures o.Running? && WellFormed(o.s) && o.s.cur == s.cur && o.s.caller[s.cur.value] == s.caller[s.cur.value]
    ensures forall c :: c in s.alive ==> c in o.s.alive
    decreases |ms|
  {
    if ms != [] {
      assert OwnMove(ms[0]);
      var n := Do(s, ms[0]).s;
      assert forall i :: 0 <= i < |ms| - 1 ==> OwnMove(ms[i+1]) && ms[1..][i] == ms[i+1];
      OwnMovesStay(n, ms[1..], o);
    }
  }

  /** `sched(b)` gives control to `b` if it is unlocked; a locked `b` counts as no target at all. */
  lemma TargetRuns<C(!new)>(s: Sched<C>, b: C)
    requires s.cur.Some? ==> s.cur.value in s.caller
    ensures if IsLocked(s, b) then Decide(s, Some(b)) == Decide(s, None) else Runs(Decide(s, Some(b)), b, s.cur)
    ensures Runs(DecidePlain(s, Some(b)), b, s.cur)
  {
  }

  /** A routine that gives control to another one gets it back as soon as that one yields or ends,
      whoever else is live and whatever the other one has done meanwhile on its own, unless it is
      locked by then. When the other one has ended, nobody is its caller. */
  lemma ControlComesBack<C(!new)>(s: Sched<C>, b: C, ms: seq<Move<C>>, o: Outcome<C>)
    requires WellFormed(s) && s.cur.Some? && b in s.alive && Some(b) != s.cur && !IsLocked(s, b)
    requires Decide(s, Some(b)).Running? ==> Reaches(Decide(s, Some(b)).s, ms, o)
    requires forall i :: 0 <= i < |ms| ==> OwnMove(ms[i])
    ensures Runs(Decide(s, Some(b)), b, s.cur) && Runs(o, b, s.cur)
    ensures Unlocks(o, s.cur.value) ==>
              && Runs(Decide(o.s, None), s.cur.value, Some(b))
              && Runs(Do(o.s, Finish), s.cur.value, None)
  {
    TargetRuns(s, b);
    ResumedKeeps(s, b);
    OwnMovesStay(Decide(s, Some(b)).s, ms, o);
  }

  /** The two steps by themselves. */
  lemma YieldGivesControlBack<C(!new)>(s: Sched<C>, a: C, b: C)
    requires WellFormed(s) && s.cur == Some(a) && b in s.alive && b != a && !IsLocked(s, a) && !IsLocked(s, b)
    ensures Decide(s, Some(b)).Running? && Runs(Decide(Decide(s, Some(b)).s, None), a, Some(b))
  {
    ControlComesBack(s, b, [], Decide(s, Some(b)));
  }

  /** Without an unlocked caller, or with no routine current, the first unlocked routine of the list
      other than the current one runs. */
  lemma FirstInLineRuns<C(!new)>(s: Sched<C>, i: nat)
    requires WellFormed(s) && i < |s.alive| && Some(s.alive[i]) != s.cur && !IsLocked(s, s.alive[i])
    requires forall j :: 0 <= j < i ==> Some(s.alive[j]) == s.cur || IsLocked(s, s.alive[j])
    requires s.cur.Some? && s.caller[s.cur.value].Some? ==> IsLocked(s, s.caller[s.cur.value].value)
    ensures Runs(Decide(s, None), s.alive[i], s.cur)
  {
    hide IsLocked, FirstUnlocked;
    FirstUnlockedIs(s, s.alive, s.cur, i);
  }

  /** A routine without an unlocked caller that registers another one and yields gives control to
      the new one. */
  lemma YoungestRunsFirst<C(!new)>(s: Sched<C>, c: C)
    requires WellFormed(s) && s.cur.Some? && c !in s.caller
    requires s.caller[s.cur.value].Some? ==> s.caller[s.cur.value].value != c && IsLocked(s, s.caller[s.cur.value].value)
    ensures Do(s, Spawn(c)).Running? && Runs(Do(Do(s, Spawn(c)).s, Yield), c, s.cur)
  {
    FirstInLineRuns(Registered(s, c), 0);
  }

  // ---- the engine without locks

  ghost predicate AllUnlocked<C(!new)>(s: Sched<C>) {
    forall c :: c in s.locked ==> s.locked[c] == NotLocked
  }

  function DecidePlain<C(==)>(s: Sched<C>, target: Option<C>): (r: Outcome<C>)
    requires s.cur.Some? ==> s.cur.value in s.caller
  {
    match ChoosePlain(s, target)
    case Resume(r) => Running(Resumed(s, r))
    case Return => Returned(s)
    case DeadLock => Stopped(s)
    case NoTarget => Stuck(s)
  }

  /** A move of the engine without locks. */
  function DoPlain<C(==)>(s: Sched<C>, m: Move<C>): (r: Outcome<C>)
    requires s.cur.Some? && s.cur.value in s.caller && !m.Relock?
  {
    match m
    case Spawn(c) => Running(Registered(s, c))
    case SchedTo(t) => DecidePlain(s, Some(t))
    case Yield => DecidePlain(s, None)
    case Finish => DecidePlain(Completed(s), s.caller[s.cur.value])
  }

  /** A run of the engine without locks. */
  ghost predicate ReachesPlain<C(!new)>(s: Sched<C>, ms: seq<Move<C>>, o: Outcome<C>)
    decreases |ms|
  {
    if ms == [] then o == Running(s)
    else
      && s.cur.Some? && s.cur.value in s.caller && !ms[0].Relock? && Allowed(s, ms[0])
      && var n := DoPlain(s, ms[0]);
         if n.Running? then ReachesPlain(n.s, ms[1..], o) else |ms| == 1 && o == n
  }

  /** Own moves of the engine without locks, which are registrations. */
  lemma {:induction false} SpawnsStay<C(!new)>(s: Sched<C>, ms: seq<Move<C>>, o: Outcome<C>)
    requires WellFormed(s) && s.cur.Some? && ReachesPlain(s, ms, o)
    requires forall i :: 0 <= i < |ms| ==> ms[i].Spawn?
    ensures o.Running? && WellFormed(o.s) && o.s.cur == s.cur && o.s.caller[s.cur.value] == s.caller[s.cur.value]
    decreases |ms|
  {
    if ms != [] {
      var n := DoPlain(s, ms[0]).s;
      assert forall i :: 0 <= i < |ms| - 1 ==> ms[i+1].Spawn? && ms[1..][i] == ms[i+1];
      SpawnsStay(n, ms[1..], o);
    }
  }

  /** Without locks control always comes back, and with no caller it goes to the first other routine
      of the list. */
  lemma PlainControlComesBack<C(!new)>(s: Sched<C>, b: C, ms: seq<Move<C>>, o: Outcome<C>)
    requires WellFormed(s) && s.cur.Some? && b in s.alive && Some(b) != s.cur
    requires DecidePlain(s, Some(b)).Running? ==> ReachesPlain(DecidePlain(s, Some(b)).s, ms, o)
    requires forall i :: 0 <= i < |ms| ==> ms[i].Spawn?
    ensures Runs(DecidePlain(s, Some(b)), b, s.cur) && Runs(o, b, s.cur)
    ensures Runs(DecidePlain(o.s, None), s.cur.value, Some(b))
    ensures Runs(DoPlain(o.s, Finish), s.cur.value, None)
  {
    TargetRuns(s, b);
    ResumedKeeps(s, b);
    SpawnsStay(DecidePlain(s, Some(b)).s, ms, o);
  }

  lemma PlainFirstInLineRuns<C(!new)>(s: Sched<C>, i: nat)
    requires WellFormed(s) && i < |s.alive| && Some(s.alive[i]) != s.cur
    requires forall j :: 0 <= j < i ==> Some(s.alive[j]) == s.cur
    requires s.cur.Some? ==> s.caller[s.cur.value].None?
    ensures Runs(DecidePlain(s, None), s.alive[i], s.cur)
  {
    hide FirstOther;
    if s.cur.Some? {
      FirstOtherIs(s.alive, s.cur.value, i);
    }
  }

  /** With nobody locked, a move is one of the engine without locks, and it leaves nobody locked. */
  lemma PlainStep<C(!new)>(s: Sched<C>, m: Move<C>)
    requires Sound(s) && AllUnlocked(s) && s.cur.Some? && !m.Relock? && Allowed(s, m)
    ensures Do(s, m) == DoPlain(s, m)
    ensures Do(s, m).Running? || Do(s, m).Returned?
    ensures AllUnlocked(Do(s, m).s)
  {
    hide Choose, ChoosePlain;
    match m
    case Spawn(c) =>
    case SchedTo(t) =>
      NoLocksIsPlain(s, Some(t));
      PlainDecides(s, Some(t));
    case Yield =>
      NoLocksIsPlain(s, None);
      PlainDecides(s, None);
    case Finish =>
      CompletedIsSound(s);
      NoLocksIsPlain(Completed(s), s.caller[s.cur.value]);
      PlainDecides(Completed(s), s.caller[s.cur.value]);
  }

  lemma PlainDecides<C(!new)>(s: Sched<C>, target: Option<C>)
    requires Sound(s) && AllUnlocked(s)
    requires target.Some? ==> target.value in s.alive
    ensures Decide(s, target).Running? || Decide(s, target).Returned?
    ensures AllUnlocked(Decide(s, target).s)
  {
    DecideIsSound(s, target);
    if s.cur.Some? {
      assert s.cur.value in s.alive && !IsLocked(s, s.cur.value);
    } else if s.alive != [] {
      assert s.alive[0] in s.alive && !IsLocked(s, s.alive[0]);
    }
  }

  /** The runs of the engine without locks are the lock-free runs of the engine with locks; they
      never end in a dead lock and never want for a routine to continue with. */
  lemma {:induction false} PlainRuns<C(!new)>(s: Sched<C>, ms: seq<Move<C>>, o: Outcome<C>)
    requires Sound(s) && AllUnlocked(s) && s.cur.Some? && forall i :: 0 <= i < |ms| ==> !ms[i].Relock?
    ensures ReachesPlain(s, ms, o) <==> Reaches(s, ms, o)
    ensures Reaches(s, ms, o) ==> (o.Running? || o.Returned?) && AllUnlocked(o.s)
    decreases |ms|
  {
    hide Do, DoPlain;
    if ms != [] && Allowed(s, ms[0]) {
      PlainStep(s, ms[0]);
      StepIsSound(s, ms[0]);
      var n := Do(s, ms[0]);
      if n.Running? {
        PlainRuns(n.s, ms[1..], o);
      }
    }
  }

  /** The same from `start` on: whatever the routines do, the engine without locks goes on until
      no routine is left. */
  lemma PlainEngineRuns<C(!new)>(main: C, ms: seq<Move<C>>, o: Outcome<C>)
    requires ReachesPlain(Started(main), ms, o)
    ensures Reaches(Started(main), ms, o)
    ensures if o.Running? then o.s.cur.Some? && o.s.cur.value in o.s.alive else o.Returned? && o.s.alive == []
  {
    assert Started(main).alive == [main];
    NoRelock(Started(main), ms, o);
    PlainRuns(Started(main), ms, o);
    RunsAreSound(Started(main), ms, o);
  }

  lemma {:induction false} NoRelock<C(!new)>(s: Sched<C>, ms: seq<Move<C>>, o: Outcome<C>)
    requires ReachesPlain(s, ms, o)
    ensures forall i :: 0 <= i < |ms| ==> !ms[i].Relock?
    decreases |ms|
  {
    if ms != [] {
      var n := DoPlain(s, ms[0]);
      if n.Running? {
        NoRelock(n.s, ms[1..], o);
        assert forall i :: 0 < i < |ms| ==> ms[i] == ms[1..][i-1];
      }
    }
  }
}
