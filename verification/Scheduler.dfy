/** Which coroutine runs next (hw-net-engine/src/engine.cpp, hw-coroutines/src/engine.cpp), as a
    function of the alive list, the current routine, the callers and the locks. */
module Scheduling {
  import opened Options

  datatype LockedState = NotLocked | LockedWrite | LockedRead

  /** `alive` is the list of live routines from its head on. A finished routine stays in `caller`
      and `locked` as an inert record, because others may still name it as their caller. */
  datatype Sched<C> = Sched(alive: seq<C>, cur: Option<C>, caller: map<C, Option<C>>, locked: map<C, LockedState>)

  /** What a call of `sched` leads to: a routine gets control; `sched` returns because no routine
      is left; the engine stops with a dead lock; or, with no current routine and every live
      routine locked, there is no routine to continue with. */
  datatype Decision<C> = Resume(routine: C) | Return | DeadLock | NoTarget

  predicate IsLocked<C(==)>(s: Sched<C>, c: C) {
    c in s.locked && s.locked[c] != NotLocked
  }

  /** The first routine of the list that is not locked and not `skip`. */
  function FirstUnlocked<C(==)>(s: Sched<C>, list: seq<C>, skip: Option<C>): (r: Option<C>)
    ensures r.Some? ==> r.value in list && !IsLocked(s, r.value) && r != skip
    ensures r.None? ==> forall c :: c in list && Some(c) != skip ==> IsLocked(s, c)
    decreases |list|
  {
    if list == [] then None
    else if Some(list[0]) != skip && !IsLocked(s, list[0]) then Some(list[0])
    else FirstUnlocked(s, list[1..], skip)
  }

  /** The decision of `sched(target)`. No routine ever has a callee, so the walks along callees
      stay where they are and a locked target is dropped. */
  function Choose<C(==)>(s: Sched<C>, target: Option<C>): (r: Decision<C>)
    requires s.cur.Some? ==> s.cur.value in s.caller
  {
    if target.Some? && !IsLocked(s, target.value) then Resume(target.value)
    else if s.cur.None? then
      if s.alive == [] then Return
      else match FirstUnlocked(s, s.alive, None)
        case Some(p) => Resume(p)
        case None => NoTarget
    else
      var caller := s.caller[s.cur.value];
      if caller.Some? && !IsLocked(s, caller.value) then Resume(caller.value)
      else match FirstUnlocked(s, s.alive, s.cur)
        case Some(p) => Resume(p)
        case None => if !IsLocked(s, s.cur.value) then Resume(s.cur.value) else DeadLock
  }

  /** The same decision in the engine without locks. */
  function ChoosePlain<C(==)>(s: Sched<C>, target: Option<C>): (r: Decision<C>)
    requires s.cur.Some? ==> s.cur.value in s.caller
  {
    if target.Some? then Resume(target.value)
    else if s.cur.None? then
      if s.alive == [] then Return else Resume(s.alive[0])
    else
      var caller := s.caller[s.cur.value];
      if caller.Some? then Resume(caller.value)
      else match FirstOther(s.alive, s.cur.value)
        case Some(p) => Resume(p)
        case None => Resume(s.cur.value)
  }

  function FirstOther<C(==)>(list: seq<C>, skip: C): (r: Option<C>)
    ensures r.Some? ==> r.value in list && r.value != skip
    ensures r.None? ==> forall c :: c in list ==> c == skip
    decreases |list|
  {
    if list == [] then None
    else if list[0] != skip then Some(list[0])
    else
      assert list == [skip] + list[1..];
      FirstOther(list[1..], skip)
  }

  /** Control passes to `routine`, which remembers the current routine as its caller. */
  function Resumed<C(==)>(s: Sched<C>, routine: C): (r: Sched<C>) {
    s.(caller := s.caller[routine := s.cur], cur := Some(routine))
  }

  ghost predicate NoDup<C>(s: seq<C>) {
    forall i, j :: 0 <= i < j < |s| ==> s[i] != s[j]
  }

  /** The records of an engine fit together: the current routine is live, and every live routine
      has its record. */
  ghost predicate WellFormed<C(!new)>(s: Sched<C>) {
    && NoDup(s.alive)
    && (s.cur.Some? ==> s.cur.value in s.alive)
    && (forall c :: c in s.alive ==> c in s.caller)
    && s.locked.Keys == s.caller.Keys
  }

  /** The running routine's caller is null or a live routine: itself, after it has resumed itself. */
  ghost predicate CallerIsLive<C>(s: Sched<C>)
    requires s.cur.Some? ==> s.cur.value in s.caller
  {
    s.cur.Some? ==>
      var caller := s.caller[s.cur.value];
      caller.Some? ==> caller.value in s.alive
  }

  /** The running routine is its own caller: it was last resumed by itself. */
  predicate OwnCaller<C(==)>(s: Sched<C>) {
    s.cur.Some? && s.cur.value in s.caller && s.caller[s.cur.value] == s.cur
  }

  // ---- what a decision says

  /** The search finds the routine at place `i` if it is the first one that it does not skip. */
  lemma {:induction false} FirstUnlockedIs<C(!new)>(s: Sched<C>, list: seq<C>, skip: Option<C>, i: nat)
    requires i < |list| && Some(list[i]) != skip && !IsLocked(s, list[i])
    requires forall j :: 0 <= j < i ==> Some(list[j]) == skip || IsLocked(s, list[j])
    ensures FirstUnlocked(s, list, skip) == Some(list[i])
    decreases i
  {
    hide IsLocked;
    if i > 0 {
      assert Some(list[0]) == skip || IsLocked(s, list[0]);
      FirstUnlockedIs(s, list[1..], skip, i - 1);
    }
  }

  lemma {:induction false} FirstOtherIs<C(!new)>(list: seq<C>, skip: C, i: nat)
    requires i < |list| && list[i] != skip && forall j :: 0 <= j < i ==> list[j] == skip
    ensures FirstOther(list, skip) == Some(list[i])
    decreases i
  {
    if i > 0 {
      FirstOtherIs(list[1..], skip, i - 1);
    }
  }

  /** A routine that gets control is live and not locked. */
  lemma ResumesUnlocked<C(!new)>(s: Sched<C>, target: Option<C>)
    requires WellFormed(s) && CallerIsLive(s)
    requires target.Some? ==> target.value in s.alive
    ensures Choose(s, target).Resume? ==>
              Choose(s, target).routine in s.alive && !IsLocked(s, Choose(s, target).routine)
  {
  }

  /** Dead lock is reported exactly when there is a current routine and every live one is locked. */
  lemma DeadLockIff<C(!new)>(s: Sched<C>, target: Option<C>)
    requires WellFormed(s) && CallerIsLive(s)
    requires target.Some? ==> target.value in s.alive
    ensures Choose(s, target).DeadLock? <==> s.cur.Some? && forall c :: c in s.alive ==> IsLocked(s, c)
  {
    if s.cur.Some? && s.caller[s.cur.value].Some? {
      assert s.caller[s.cur.value].value in s.alive;
    }
  }

  /** The other two ends: nothing is left to run, or nothing can run and no routine is current. */
  lemma StopsIff<C(!new)>(s: Sched<C>, target: Option<C>)
    requires WellFormed(s) && CallerIsLive(s)
    requires target.Some? ==> target.value in s.alive
    ensures Choose(s, target).Return? <==> s.cur.None? && s.alive == []
    ensures Choose(s, target).NoTarget? <==>
              s.cur.None? && s.alive != [] && forall c :: c in s.alive ==> IsLocked(s, c)
  {
    if s.alive != [] {
      assert s.alive[0] in s.alive;
    }
  }

  /** When exactly the current routine gives control to itself. */
  lemma ResumesItselfIff<C(!new)>(s: Sched<C>, target: Option<C>)
    requires WellFormed(s) && CallerIsLive(s) && s.cur.Some?
    requires target.Some? ==> target.value in s.alive
    ensures Choose(s, target) == Resume(s.cur.value) <==>
              && !IsLocked(s, s.cur.value)
              && (|| target == s.cur
                  || (s.caller[s.cur.value] == s.cur && (target.None? || IsLocked(s, target.value)))
                  || forall c :: c in s.alive && Some(c) != s.cur ==> IsLocked(s, c))
  {
    var caller := s.caller[s.cur.value];
    if caller.Some? {
      assert caller.value in s.alive;
    }
  }

  /** Control keeps the records fitting and the caller live; a routine is its own caller exactly if
      it resumed itself. */
  lemma ResumedKeeps<C(!new)>(s: Sched<C>, routine: C)
    requires WellFormed(s) && routine in s.alive
    ensures WellFormed(Resumed(s, routine))
    ensures CallerIsLive(Resumed(s, routine))
    ensures OwnCaller(Resumed(s, routine)) <==> s.cur == Some(routine)
  {
  }

  /** With no routine locked, the engine with locks schedules as the engine without them. */
  lemma NoLocksIsPlain<C(!new)>(s: Sched<C>, target: Option<C>)
    requires WellFormed(s)
    requires forall c :: c in s.locked ==> s.locked[c] == NotLocked
    ensures Choose(s, target) == ChoosePlain(s, target)
  {
    if s.cur.Some? {
      FirstsAgree(s, s.alive, s.cur.value);
    }
  }

  lemma {:induction false} FirstsAgree<C(!new)>(s: Sched<C>, list: seq<C>, skip: C)
    requires forall c :: c in s.locked ==> s.locked[c] == NotLocked
    ensures FirstUnlocked(s, list, Some(skip)) == FirstOther(list, skip)
    decreases |list|
  {
    if list != [] {
      FirstsAgree(s, list[1..], skip);
    }
  }

  /** One turn of the search loop over the list. */
  lemma FirstUnlockedTurn<C>(s: Sched<C>, list: seq<C>, i: nat, skip: Option<C>)
    requires i <= |list|
    ensures FirstUnlocked(s, list[i..], skip) ==
            if i == |list| then None
            else if Some(list[i]) != skip && !IsLocked(s, list[i]) then Some(list[i])
            else FirstUnlocked(s, list[i+1..], skip)
  {
    if i < |list| {
      assert list[i..][0] == list[i] && list[i..][1..] == list[i+1..];
    }
  }

  lemma FirstOtherTurn<C>(list: seq<C>, i: nat, skip: C)
    requires i <= |list|
    ensures FirstOther(list[i..], skip) ==
            if i == |list| then None
            else if list[i] != skip then Some(list[i])
            else FirstOther(list[i+1..], skip)
  {
    if i < |list| {
      assert list[i..][0] == list[i] && list[i..][1..] == list[i+1..];
    }
  }
}
