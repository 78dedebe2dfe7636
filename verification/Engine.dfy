/** The coroutine engine's records: contexts on a doubly linked list of live routines
    (hw-coroutines/include/coroutine/engine.h, hw-net-engine/include/coroutine/engine.h). */
module Engines {
  import opened Options
  import opened Seqs
  import opened Scheduling
  import opened EngineRuns

  class Context {
    var caller: Context?
    var callee: Context?
    var prev: Context?
    var next: Context?
    var locked: LockedState

    /** A number that names the context in proofs. */
    ghost const id: nat

    constructor (caller: Context?, ghost id: nat)
      ensures this.caller == caller && callee == null && prev == null && next == null
      ensures locked == NotLocked && this.id == id
    {
      this.caller := caller;
      this.callee := null;
      this.prev := null;
      this.next := null;
      this.locked := NotLocked;
      this.id := id;
    }
  }

  ghost function Id(c: Context?): (r: Option<nat>) {
    if c == null then None else Some(c.id)
  }

  ghost function Ids(s: seq<Context>): (r: seq<nat>)
    ensures |r| == |s| && forall i :: 0 <= i < |s| ==> r[i] == s[i].id
  {
    seq(|s|, i requires 0 <= i < |s| => s[i].id)
  }

  /** `list` is linked both ways, from `head` to null, and holds no routine twice. */
  ghost predicate Linked(head: Context?, list: seq<Context>)
    reads list`next, list`prev
  {
    && NoDup(list)
    && head == (if list == [] then null else list[0])
    && (forall i :: 0 <= i < |list| - 1 ==> list[i].next == list[i+1])
    && (forall i :: 0 <= i < |list| - 1 ==> list[i+1].prev == list[i])
    && (list != [] ==> list[0].prev == null && list[|list|-1].next == null)
  }

  /** `c` is null or one of the contexts of the engine. */
  ghost predicate Known(all: seq<Context>, c: Context?) {
    c == null || (c.id < |all| && all[c.id] == c)
  }

  /** Every context stands at the place of its number. */
  ghost predicate Indexed(all: seq<Context>) {
    forall i :: 0 <= i < |all| ==> all[i].id == i
  }

  /** The state says of every context who called it; none has a callee. */
  ghost predicate CallersRecorded(all: seq<Context>, caller: map<nat, Option<nat>>)
    reads all`caller, all`callee
  {
    && (forall k: nat :: k in caller <==> k < |all|)
    && (forall i :: 0 <= i < |all| ==>
          caller[i] == Id(all[i].caller) && Known(all, all[i].caller) && all[i].callee == null)
  }

  /** The state says of every context whether it is locked. */
  ghost predicate LocksRecorded(all: seq<Context>, locked: map<nat, LockedState>)
    reads all`locked
  {
    && (forall k: nat :: k in locked <==> k < |all|)
    && (forall i :: 0 <= i < |all| ==> locked[i] == all[i].locked)
  }

  ghost predicate Recorded(all: seq<Context>, s: Sched<nat>)
    reads all`caller, all`callee, all`locked
  {
    Indexed(all) && CallersRecorded(all, s.caller) && LocksRecorded(all, s.locked)
  }

  /** The members of the list are contexts of the engine, and the state lists them. */
  ghost predicate Listed(all: seq<Context>, list: seq<Context>, ids: seq<nat>) {
    (forall i :: 0 <= i < |list| ==> Known(all, list[i])) && ids == Ids(list)
  }

  lemma RecordedPush(all: seq<Context>, s: Sched<nat>, pc: Context)
    requires Recorded(all, s) && pc.id == |all| && pc.callee == null && pc.locked == NotLocked
    requires Known(all, pc.caller) && s.cur == Id(pc.caller)
    ensures pc.id !in s.caller && Recorded(all + [pc], Registered(s, pc.id))
  {
    var r := all + [pc];
    assert forall i :: 0 <= i < |r| ==> r[i] == if i < |all| then all[i] else pc;
  }

  lemma ListedPush(all: seq<Context>, list: seq<Context>, ids: seq<nat>, pc: Context)
    requires Listed(all, list, ids) && pc.id == |all|
    ensures Listed(all + [pc], [pc] + list, [pc.id] + ids)
    ensures pc !in list
  {
  }

  lemma LinkedPush(list: seq<Context>, pc: Context)
    requires NoDup(list) && pc !in list
    requires forall i :: 0 <= i < |list| - 1 ==> list[i].next == list[i+1] && list[i+1].prev == list[i]
    requires list != [] ==> list[0].prev == pc && list[|list|-1].next == null
    requires pc.prev == null && pc.next == (if list == [] then null else list[0])
    ensures Linked(pc, [pc] + list)
  {
  }

  lemma LinkedIsNoDup(head: Context?, list: seq<Context>)
    requires Linked(head, list)
    ensures NoDup(list)
  {
  }

  lemma Neighbours(head: Context?, list: seq<Context>, k: nat)
    requires Linked(head, list) && k < |list|
    ensures list[k].prev == (if k > 0 then list[k-1] else null)
    ensures list[k].next == (if k < |list| - 1 then list[k+1] else null)
  {
    if k > 0 {
      assert list[k-1+1].prev == list[k-1];
    }
  }

  /** A list is linked again when the neighbours of the routine at `k` point past it. */
  lemma LinkedDrop(list: seq<Context>, k: nat, head: Context?)
    requires NoDup(list) && k < |list|
    requires forall i :: 0 <= i < |list| - 1 && i != k && i != k - 1 ==> list[i].next == list[i+1] && list[i+1].prev == list[i]
    requires 0 < k < |list| - 1 ==> list[k-1].next == list[k+1] && list[k+1].prev == list[k-1]
    requires k == 0 && |list| > 1 ==> list[1].prev == null
    requires k > 0 ==> list[0].prev == null
    requires k == |list| - 1 && k > 0 ==> list[k-1].next == null
    requires k < |list| - 1 ==> list[|list|-1].next == null
    requires head == (if k > 0 then list[0] else if |list| > 1 then list[1] else null)
    ensures Linked(head, Drop(list, k))
  {
    DropIndex(list, k);
  }

  lemma ListedDrop(all: seq<Context>, list: seq<Context>, ids: seq<nat>, k: nat)
    requires Listed(all, list, ids) && NoDup(list) && k < |list|
    ensures Listed(all, Drop(list, k), Without(ids, list[k].id))
  {
    assert NoDup(ids);
    WithoutAt(ids, k);
    DropIndex(list, k);
    DropIndex(ids, k);
  }

  lemma RecordedCur(all: seq<Context>, s: Sched<nat>, t: Sched<nat>)
    requires Recorded(all, s) && t.caller == s.caller && t.locked == s.locked
    ensures Recorded(all, t)
  {
  }

  class Engine {
    var curRoutine: Context?
    var alive: Context?

    /** The live routines from the head of the list on, and every context ever made. */
    ghost var list: seq<Context>
    ghost var all: seq<Context>

    /** The engine as the scheduler sees it. */
    ghost var state: Sched<nat>

    ghost predicate Valid()
      reads this, all`caller, all`callee, all`locked, list`next, list`prev
    {
      && Recorded(all, state)
      && Linked(alive, list) && Listed(all, list, state.alive)
      && Known(all, curRoutine) && state.cur == Id(curRoutine)
    }

    constructor ()
      ensures Valid() && state == Sched([], None, map[], map[]) && all == []
    {
      curRoutine := null;
      alive := null;
      list := [];
      all := [];
      state := Sched([], None, map[], map[]);
    }

    /** Puts a context at the head of the list. */
    method LinkFront(pc: Context)
      requires Linked(alive, list) && pc !in list && pc.prev == null
      modifies this`alive, pc`next, list`prev
      ensures Linked(alive, [pc] + list) && alive == pc
    {
      pc.next := alive;
      alive := pc;
      if pc.next != null {
        pc.next.prev := pc;
      }
      LinkedPush(list, pc);
    }

    /** Makes a context for a new routine and puts it at the head of the list. */
    method Run() returns (pc: Context)
      requires Valid()
      modifies this`alive, this`list, this`all, this`state, list`prev
      ensures Valid() && fresh(pc) && Known(all, pc) && all == old(all) + [pc]
      ensures pc.id !in old(state).caller && state == Registered(old(state), pc.id)
      ensures alive == pc && list == [pc] + old(list)
      ensures pc.caller == curRoutine && pc.callee == null && pc.locked == NotLocked
    {
      hide Recorded, Listed, Linked, Registered;
      pc := new Context(curRoutine, |all|);
      ListedPush(all, list, state.alive, pc);
      RecordedPush(all, state, pc);
      RegisteredParts(state, pc.id);
      LinkFront(pc);
      all := all + [pc];
      list := [pc] + list;
      state := Registered(state, pc.id);
    }

    lemma LockedHere(c: Context)
      requires Valid() && Known(all, c)
      ensures IsLocked(state, c.id) <==> c.locked != NotLocked
    {
    }

    lemma SameId(c: Context, skip: Context?)
      requires Known(all, c) && Known(all, skip)
      ensures Some(c.id) == Id(skip) <==> c == skip
    {
    }

    /** Stepping along the list. */
    lemma ListStep(i: nat)
      requires Valid() && i <= |list|
      ensures |state.alive| == |list| && (i == 0 ==> alive == (if i < |list| then list[i] else null))
      ensures i < |list| ==>
                && Known(all, list[i]) && state.alive[i] == list[i].id
                && list[i].next == (if i + 1 < |list| then list[i+1] else null)
    {
    }

    /** The first routine of the list that is not locked and not `skip`, or null. */
    method FindUnlocked(skip: Context?) returns (r: Context?)
      requires Valid() && Known(all, skip)
      ensures Known(all, r) && Id(r) == FirstUnlocked(state, state.alive, Id(skip))
    {
      hide FirstUnlocked, IsLocked, Recorded, Linked, Listed;
      ghost var i := 0;
      r := alive;
      ListStep(0);
      assert state.alive[0..] == state.alive;
      while r != null
        invariant 0 <= i <= |list| && r == (if i < |list| then list[i] else null)
        invariant FirstUnlocked(state, state.alive, Id(skip)) == FirstUnlocked(state, state.alive[i..], Id(skip))
        decreases |list| - i
      {
        ListStep(i);
        FirstUnlockedTurn(state, state.alive, i, Id(skip));
        LockedHere(r);
        SameId(r, skip);
        if r != skip && r.locked == NotLocked {
          return;
        }
        r := r.next;
        i := i + 1;
      }
      FirstUnlockedTurn(state, state.alive, i, Id(skip));
    }

    /** The head of the list that is not `skip`, or null: the search of the engine without locks. */
    method FindOther(skip: Context) returns (r: Context?)
      requires Valid() && Known(all, skip)
      ensures Known(all, r) && Id(r) == FirstOther(state.alive, skip.id)
    {
      hide FirstOther, Recorded, Linked, Listed;
      ghost var i := 0;
      r := alive;
      ListStep(0);
      assert state.alive[0..] == state.alive;
      while r != null
        invariant 0 <= i <= |list| && r == (if i < |list| then list[i] else null)
        invariant FirstOther(state.alive, skip.id) == FirstOther(state.alive[i..], skip.id)
        decreases |list| - i
      {
        ListStep(i);
        FirstOtherTurn(state.alive, i, skip.id);
        SameId(r, skip);
        if r != skip {
          return;
        }
        r := r.next;
        i := i + 1;
      }
      FirstOtherTurn(state.alive, i, skip.id);
    }

    /** Takes the context at `k` out of the list. */
    method Unlink(pc: Context, ghost k: nat)
      requires Linked(alive, list) && k < |list| && pc == list[k]
      modifies this`alive, list`next, list`prev
      ensures Linked(alive, Drop(list, k))
    {
      Neighbours(alive, list, k);
      if pc.prev != null {
        pc.prev.next := pc.next;
      }
      if pc.next != null {
        pc.next.prev := pc.prev;
      }
      if alive == pc {
        alive := alive.next;
      }
      LinkedDrop(list, k, alive);
      pc.prev, pc.next := null, null;
      assert pc !in Drop(list, k) by { DropIndex(list, k); }
    }

    /** The current routine is done: it leaves the list, and nobody is current any more. */
    method Complete() returns (next: Context?)
      requires Valid() && curRoutine != null && curRoutine in list
      modifies this`curRoutine, this`alive, this`list, this`state, list`next, list`prev
      ensures Valid() && all == old(all) && curRoutine == null && state == Completed(old(state))
      ensures Known(all, next) && Id(next) == old(state).caller[old(state).cur.value]
      ensures next == old(curRoutine.caller)
    {
      hide Recorded, Listed, Completed, Linked;
      var pc := curRoutine;
      ghost var k: nat :| k < |list| && list[k] == pc;
      CallerRecorded(pc);
      next := pc.caller;
      LinkedIsNoDup(alive, list);
      ListedDrop(all, list, state.alive, k);
      Unlink(pc, k);
      curRoutine := null;
      list := Drop(list, k);
      CompletedParts(state);
      RecordedCur(all, state, Completed(state));
      state := Completed(state);
    }

    /** Sets the lock of a context. */
    method SetLocked(c: Context, locked: LockedState)
      requires Valid() && Known(all, c)
      modifies this`state, c`locked
      ensures Valid() && state == old(state).(locked := old(state).locked[c.id := locked])
      ensures c.locked == locked
    {
      hide Listed, Linked, CallersRecorded;
      c.locked := locked;
      state := state.(locked := state.locked[c.id := locked]);
    }

    /** Makes the current routine the caller of `routine`. */
    method SetCaller(routine: Context)
      requires Valid() && Known(all, routine)
      modifies this`state, routine`caller
      ensures Valid() && state == old(state).(caller := old(state).caller[routine.id := old(state).cur])
    {
      hide Listed, Linked, LocksRecorded;
      ghost var callers := state.caller[routine.id := state.cur];
      routine.caller := curRoutine;
      state := state.(caller := callers);
      forall i | 0 <= i < |all|
        ensures callers[i] == Id(all[i].caller) && Known(all, all[i].caller) && all[i].callee == null
      {
        assert all[i].id == i;
        assert i != routine.id ==> all[i] != routine;
      }
    }

    /** Gives control to `routine`; whoever was current becomes its caller. */
    method SwitchTo(routine: Context)
      requires Valid() && Known(all, routine)
      modifies this`curRoutine, this`state, routine`caller
      ensures Valid() && curRoutine == routine
      ensures state == Resumed(old(state), routine.id)
    {
      hide Listed, Linked, LocksRecorded, CallersRecorded, Indexed;
      SetCaller(routine);
      curRoutine := routine;
      state := state.(cur := Some(routine.id));
    }

    lemma KnownIsRecorded(c: Context)
      requires Valid() && Known(all, c)
      ensures c.id in state.locked && state.locked[c.id] == c.locked && c in all
    {
    }

    lemma CurRecorded()
      requires Valid()
      ensures state.cur.Some? ==> state.cur.value in state.caller
    {
    }

    /** The list is empty exactly when it has no head. */
    lemma HeadOfList()
      requires Valid()
      ensures alive == null <==> state.alive == []
    {
    }

    /** Which routine continues after a call of `sched(target)` in the engine with locks. No
        context has a callee, so a locked target is dropped at once and the chosen routine is
        not exchanged for a callee. */
    method PickRoutine(target: Context?) returns (routine: Context?, ghost d: Decision<nat>)
      requires Valid() && Known(all, target)
      ensures d == Choose(state, Id(target)) && Known(all, routine)
      ensures if routine != null then d == Resume(routine.id) else !d.Resume?
      ensures target != null && target.locked == NotLocked ==> routine == target
      ensures
        && (target == null || target.locked != NotLocked)
        && curRoutine != null && curRoutine.caller != null && curRoutine.caller.locked == NotLocked
        ==> routine == curRoutine.caller
    {
      hide FirstUnlocked, IsLocked, Recorded, Listed, Linked;
      CurRecorded();
      d := Choose(state, Id(target));
      routine := target;
      HeadOfList();
      if routine != null {
        LockedHere(routine);
        if routine.locked != NotLocked {
          routine := null;
        }
      }
      if routine == null && curRoutine == null {
        if alive != null {
          routine := FindUnlocked(null);
        }
      } else if routine == null {
        CallerRecorded(curRoutine);
        LockedHere(curRoutine);
        if curRoutine.caller != null {
          LockedHere(curRoutine.caller);
        }
        if curRoutine.caller != null && curRoutine.caller.locked == NotLocked {
          routine := curRoutine.caller;
        } else {
          routine := FindUnlocked(curRoutine);
          if routine == null && curRoutine.locked == NotLocked {
            routine := curRoutine;
          }
        }
      }
    }

    /** `sched` of the engine with locks. */
    method Schedule(target: Context?) returns (routine: Context?, ghost d: Decision<nat>)
      requires Valid() && Known(all, target)
      modifies this`curRoutine, this`state, all`caller
      ensures Valid() && d == Choose(old(state), Id(target))
      ensures if routine != null then d == Resume(routine.id) else !d.Resume?
      ensures curRoutine == (if routine != null then routine else old(curRoutine))
      ensures state == if d.Resume? then Resumed(old(state), d.routine) else old(state)
      ensures target != null && old(target.locked) == NotLocked ==> routine == target && curRoutine == target
      ensures
        && (target == null || old(target.locked) != NotLocked)
        && old(curRoutine != null && curRoutine.caller != null && curRoutine.caller.locked == NotLocked)
        ==> routine == old(curRoutine.caller) && curRoutine == routine
    {
      hide FirstUnlocked, IsLocked, Recorded, Listed, Linked, Choose;
      routine, d := PickRoutine(target);
      if routine != null {
        SwitchTo(routine);
      }
    }

    /** The end of `run`: the current routine leaves the engine, and its caller gets control; without
        a caller, or when the caller is locked, the scheduler picks somebody. */
    method Exit() returns (routine: Context?, ghost d: Decision<nat>)
      requires Valid() && curRoutine != null && curRoutine in list
      modifies this`curRoutine, this`alive, this`list, this`state, list`next, list`prev, all`caller
      ensures Valid() && old(state).cur.Some? && old(state).cur.value in old(state).caller
      ensures d == Choose(Completed(old(state)), old(state).caller[old(state).cur.value])
      ensures curRoutine == routine && if routine != null then d == Resume(routine.id) else !d.Resume?
      ensures state == if d.Resume? then Resumed(Completed(old(state)), d.routine) else Completed(old(state))
      ensures old(curRoutine.caller != null && curRoutine.caller.locked == NotLocked) ==>
        routine == old(curRoutine.caller) && curRoutine == routine
    {
      hide FirstUnlocked, IsLocked, Recorded, Listed, Linked, Choose, Completed, Resumed;
      CurRecorded();
      var next := Complete();
      routine, d := Schedule(next);
    }

    /** The beginning of `start`: the main routine is registered and gets control. */
    method Start() returns (main: Context)
      requires Valid() && state == Sched([], None, map[], map[])
      modifies this
      ensures Valid() && fresh(main) && curRoutine == main && all == [main] && state == Started(main.id)
      ensures list == [main]
    {
      ghost var zero: nat := 0;
      assert zero !in state.caller;
      assert list == [] && all == [];
      main := Run();
      StartedChoice(main.id);
      ghost var d;
      var routine;
      routine, d := Schedule(main);
    }

    /** The same choice in the engine without locks. */
    method PickPlain(target: Context?) returns (routine: Context?, ghost d: Decision<nat>)
      requires Valid() && Known(all, target)
      ensures d == ChoosePlain(state, Id(target)) && Known(all, routine)
      ensures if routine != null then d == Resume(routine.id) else !d.Resume?
      ensures target != null ==> routine == target
      ensures target == null && curRoutine != null && curRoutine.caller != null ==> routine == curRoutine.caller
    {
      hide FirstOther, Recorded, Linked;
      CurRecorded();
      d := ChoosePlain(state, Id(target));
      routine := target;
      HeadOfList();
      HeadIsFirst();
      if routine == null && curRoutine == null {
        routine := alive;
      } else if routine == null {
        CallerRecorded(curRoutine);
        if curRoutine.caller != null {
          routine := curRoutine.caller;
        } else {
          routine := FindOther(curRoutine);
          if routine == null {
            routine := curRoutine;
          }
        }
      }
    }

    lemma HeadIsFirst()
      requires Valid()
      ensures alive != null ==> Known(all, alive) && state.alive != [] && state.alive[0] == alive.id
    {
    }

    /** `sched` of the engine without locks. */
    method SchedulePlain(target: Context?) returns (routine: Context?, ghost d: Decision<nat>)
      requires Valid() && Known(all, target)
      modifies this`curRoutine, this`state, all`caller
      ensures Valid() && d == ChoosePlain(old(state), Id(target))
      ensures if routine != null then d == Resume(routine.id) else !d.Resume?
      ensures curRoutine == (if routine != null then routine else old(curRoutine))
      ensures state == if d.Resume? then Resumed(old(state), d.routine) else old(state)
      ensures target != null ==> routine == target && curRoutine == target
      ensures target == null && old(curRoutine) != null && old(curRoutine.caller) != null ==>
        routine == old(curRoutine.caller) && curRoutine == routine
    {
      hide FirstOther, Recorded, Listed, Linked, ChoosePlain;
      routine, d := PickPlain(target);
      if routine != null {
        SwitchTo(routine);
      }
    }

    lemma CallerRecorded(c: Context)
      requires Valid() && Known(all, c)
      ensures c.id in state.caller && state.caller[c.id] == Id(c.caller) && Known(all, c.caller)
      ensures c.callee == null && (c.caller != null ==> c.caller.callee == null)
    {
    }
  }

  lemma StartedChoice(main: nat)
    ensures Choose(Registered(Sched([], None, map[], map[]), main), Some(main)) == Resume(main)
  {
  }

  lemma RegisteredParts(s: Sched<nat>, c: nat)
    ensures Registered(s, c).alive == [c] + s.alive && Registered(s, c).cur == s.cur
  {
  }

  lemma CompletedParts(s: Sched<nat>)
    requires s.cur.Some?
    ensures Completed(s) == Sched(Without(s.alive, s.cur.value), None, s.caller, s.locked)
  {
  }
}
