/** What each call on the interruptible mutex and its condition variable does and answers, when the
    thread that makes it gets the raw mutex and is not kept waiting: the whole state it leaves. */
module LockCalls {
  import opened Util
  import opened IntrLock
  import opened LockWakeups

  /** A thread can take the raw mutex. */
  predicate CanEnter(s: State, t: Tid) {
    !s.aborted && s.mu.None? && t in s.pc
  }

  ghost function Entered(s: State, t: Tid, p: Pc): State {
    Goto(s, t, p).(mu := Some(t))
  }

  /** A thread inside that goes on, drops the lock on its way, takes it, or leaves. */
  lemma GoesOn(s: State, t: Tid, p: Pc, q: Pc, call: Call, rv: Status)
    requires t in s.pc
    ensures Goto(Entered(s, t, p), t, q) == Entered(s, t, q) && Release(Entered(s, t, p), t, q) == Goto(s, t, q).(mu := None)
    ensures Goto(DropLock(Entered(s, t, p), t), t, q) == Entered(DropLock(s, t), t, q)
    ensures Goto(TakeLock(Entered(s, t, p), t), t, q) == Entered(TakeLock(s, t), t, q)
    ensures Return(Entered(s, t, p), t, call, rv) == s.(pc := s.pc[t := Idle], mu := None, last := s.last[t := (call, rv)])
  {
    assert s.pc[t := p][t := q] == s.pc[t := q] && s.pc[t := p][t := Idle] == s.pc[t := Idle];
  }

  lemma AcquireLeads(s: State, t: Tid, run: seq<Action>, after: State)
    requires CanEnter(s, t) && AfterAcquire(s.pc[t]) != s.pc[t]
    requires Leads(Entered(s, t, AfterAcquire(s.pc[t])), run, after)
    ensures Leads(s, [Acquire(t)] + run, after)
  {
    hide Leads, Statement;
    LeadsOn(s, Acquire(t), run, after);
  }

  lemma SignalLeads(s: State, t: Tid, who: Option<Tid>, run: seq<Action>, after: State)
    requires !s.aborted && t in s.pc && (s.pc[t].UnlockSignal? || s.pc[t].WaitSignal?) && Signals(s, who)
    requires Leads(Signaled(s, t, who), run, after)
    ensures Leads(s, [Signal(t, who)] + run, after)
  {
    hide Leads, Statement, Signaled;
    LeadsOn(s, Signal(t, who), run, after);
  }

  /** A signal of the internal condition variable wakes some sleeper, if there is one. */
  ghost predicate Signals(s: State, who: Option<Tid>) {
    if who.Some? then who.value in Sleepers(s) else Sleepers(s) == {}
  }

  /** The thread's next step is a statement. */
  predicate Moves(s: State, t: Tid) {
    !s.aborted && t in s.pc && Inside(s.pc[t]) && !s.pc[t].UnlockSignal? && !s.pc[t].WaitSignal?
  }

  lemma Advance1(s: State, t: Tid)
    requires Moves(s, t)
    ensures Leads(s, [Advance(t)], Statement(s, t))
  {
    hide Leads, Statement;
    LeadsNowhere(Statement(s, t));
    AdvanceLeads(s, t, [], Statement(s, t));
    assert [Advance(t)] + [] == [Advance(t)];
  }

  lemma Advance2(s: State, t: Tid, mid: State)
    requires Moves(s, t)
    requires mid == Statement(s, t)
    requires Moves(mid, t)
    ensures Leads(s, [Advance(t), Advance(t)], Statement(mid, t))
  {
    hide Leads, Statement;
    Advance1(mid, t);
    AdvanceLeads(s, t, [Advance(t)], Statement(mid, t));
    assert [Advance(t)] + [Advance(t)] == [Advance(t), Advance(t)];
  }

  lemma Advance3(s: State, t: Tid, mid: State, late: State)
    requires Moves(s, t)
    requires mid == Statement(s, t)
    requires Moves(mid, t)
    requires late == Statement(mid, t)
    requires Moves(late, t)
    ensures Leads(s, [Advance(t), Advance(t), Advance(t)], Statement(late, t))
  {
    hide Leads, Statement;
    Advance2(mid, t, late);
    AdvanceLeads(s, t, [Advance(t), Advance(t)], Statement(late, t));
    assert [Advance(t)] + [Advance(t), Advance(t)] == [Advance(t), Advance(t), Advance(t)];
  }

  lemma Enter3(s: State, t: Tid, first: State, mid: State, late: State)
    requires CanEnter(s, t) && AfterAcquire(s.pc[t]) != s.pc[t] && first == Entered(s, t, AfterAcquire(s.pc[t]))
    requires Moves(first, t) && mid == Statement(first, t) && Moves(mid, t) && late == Statement(mid, t) && Moves(late, t)
    ensures Leads(s, [Acquire(t), Advance(t), Advance(t), Advance(t)], Statement(late, t))
  {
    hide Leads, Statement, Entered, CanEnter, AfterAcquire;
    Advance3(first, t, mid, late);
    AcquireLeads(s, t, [Advance(t), Advance(t), Advance(t)], Statement(late, t));
    assert [Acquire(t)] + [Advance(t), Advance(t), Advance(t)] == [Acquire(t), Advance(t), Advance(t), Advance(t)];
  }

  /** Two statements, a signal and one more statement. */
  lemma EnterAndSignal(s: State, t: Tid, first: State, mid: State, late: State, who: Option<Tid>, after: State)
    requires CanEnter(s, t) && AfterAcquire(s.pc[t]) != s.pc[t] && first == Entered(s, t, AfterAcquire(s.pc[t]))
    requires Moves(first, t) && mid == Statement(first, t) && Moves(mid, t) && late == Statement(mid, t)
    requires Leads(late, [Signal(t, who), Advance(t)], after)
    ensures Leads(s, [Acquire(t), Advance(t), Advance(t), Signal(t, who), Advance(t)], after)
  {
    hide Leads, Statement, Entered, CanEnter, AfterAcquire;
    var signal := [Signal(t, who), Advance(t)];
    AdvanceLeads(mid, t, signal, after);
    AdvanceLeads(first, t, [Advance(t)] + signal, after);
    AcquireLeads(s, t, [Advance(t)] + ([Advance(t)] + signal), after);
    assert [Acquire(t)] + ([Advance(t)] + ([Advance(t)] + signal)) == [Acquire(t), Advance(t), Advance(t), Signal(t, who), Advance(t)];
  }

  // ----- TryLock -----

  lemma TryTests(s: State, t: Tid)
    requires t in s.pc && s.pc[t].TryTest?
    ensures Statement(s, t)
         == match s.lock
            case Free => Goto(TakeLock(s, t), t, TryLeave(Ok))
            case Held => Goto(s, t, TryLeave(Busy))
            case Interrupted => Goto(s, t, TryLeave(MutexInterrupted))
  {
  }

  lemma TryLeaves(s: State, t: Tid)
    requires t in s.pc && s.pc[t].TryLeave?
    ensures Statement(s, t) == Return(s, t, TryLock, s.pc[t].rv)
  {
  }

  /** TryLock takes the lock and succeeds if and only if it finds it free; it is refused as busy if and
      only if the lock is held, and as interrupted if and only if it is interrupted. */
  lemma {:induction false} TryLockAnswers(s: State, t: Tid) returns (after: State)
    requires CanEnter(s, t) && s.pc[t].TryEnter?
    ensures Leads(s, [Acquire(t), Advance(t), Advance(t)], after)
    ensures after == s.(lock := if s.lock == Free then Held else s.lock,
                        owners := if s.lock == Free then s.owners + {t} else s.owners,
                        pc := s.pc[t := Idle], last := after.last)
    ensures t in after.last && after.last[t].0 == TryLock && after.last == s.last[t := after.last[t]]
    ensures after.last[t].1 == Ok <==> s.lock == Free
    ensures after.last[t].1 == Busy <==> s.lock == Held
    ensures after.last[t].1 == MutexInterrupted <==> s.lock == Interrupted
  {
    hide Leads, Statement;
    var s1 := Entered(s, t, TryTest);
    TryTests(s1, t);
    var s2 := Statement(s1, t);
    TryLeaves(s2, t);
    after := Statement(s2, t);
    Advance2(s1, t, s2);
    AcquireLeads(s, t, [Advance(t), Advance(t)], after);
    assert [Acquire(t)] + [Advance(t), Advance(t)] == [Acquire(t), Advance(t), Advance(t)];
    assert after.pc == s.pc[t := Idle];
  }

  // ----- Lock -----

  lemma LockTakes(s: State, t: Tid)
    requires t in s.pc && s.pc[t].LockTake? && s.lock != Held
    ensures Statement(s, t)
         == if s.lock == Free then Goto(TakeLock(s, t), t, LockLeave(Ok)) else Goto(s, t, LockLeave(MutexInterrupted))
  {
  }

  /** Lock, on entry or when it wakes up, goes to sleep if and only if it finds the lock held. */
  lemma {:induction false} LockSleeps(s: State, t: Tid) returns (after: State)
    requires CanEnter(s, t) && (s.pc[t].LockEnter? || s.pc[t].LockWoken?)
    ensures Leads(s, [Acquire(t), Advance(t)], after)
    ensures after.pc.Keys == s.pc.Keys && (Asleep(after.pc[t]) <==> s.lock == Held)
    ensures s.lock == Held ==> after == s.(pc := s.pc[t := LockAsleep])
  {
    hide Leads, Statement;
    var s1 := Entered(s, t, LockTest);
    LockTests(s1, t);
    after := Statement(s1, t);
    Advance1(s1, t);
    AcquireLeads(s, t, [Advance(t)], after);
    assert [Acquire(t)] + [Advance(t)] == [Acquire(t), Advance(t)];
    assert s.lock == Held ==> after.pc == s.pc[t := LockAsleep];
  }

  /** Otherwise it takes the lock and succeeds if that is free, and reports an interrupted one. */
  lemma {:induction false} LockAnswers(s: State, t: Tid) returns (after: State)
    requires CanEnter(s, t) && (s.pc[t].LockEnter? || s.pc[t].LockWoken?) && s.lock != Held
    ensures Leads(s, [Acquire(t), Advance(t), Advance(t), Advance(t)], after)
    ensures after == s.(lock := if s.lock == Free then Held else s.lock,
                        owners := if s.lock == Free then s.owners + {t} else s.owners,
                        pc := s.pc[t := Idle], last := after.last)
    ensures after.last == s.last[t := (Lock, if s.lock == Free then Ok else MutexInterrupted)]
  {
    hide Leads, Statement;
    var s1 := Entered(s, t, LockTest);
    LockTests(s1, t);
    var s2 := Statement(s1, t);
    LockTakes(s2, t);
    var s3 := Statement(s2, t);
    LockLeaves(s3, t);
    after := Statement(s3, t);
    Enter3(s, t, s1, s2, s3);
    assert after.pc == s.pc[t := Idle];
  }

  // ----- Unlock -----

  /** The state with one sleeper, or none, woken. */
  ghost function Roused(s: State, who: Option<Tid>): State
    requires who.Some? ==> who.value in s.pc
  {
    if who.Some? then Goto(s, who.value, WakeUp(s.pc[who.value])) else s
  }

  /** Unlock frees the lock, an interrupted one as well, gives it up and wakes one sleeper if there is
      any; it answers whether the lock was held. */
  lemma {:induction false} UnlockAnswers(s: State, t: Tid, who: Option<Tid>) returns (after: State)
    requires CanEnter(s, t) && s.pc[t].UnlockEnter? && Signals(s, who)
    ensures Leads(s, [Acquire(t), Advance(t), Advance(t), Signal(t, who), Advance(t)], after)
    ensures who.Some? ==> who.value in s.pc && who.value != t
    ensures after == s.(lock := Free, owners := s.owners - {t}, pc := Roused(s, who).pc[t := Idle], last := after.last)
    ensures after.last == s.last[t := (Unlock, if s.lock == Held then Ok else MutexPermission)]
  {
    hide Leads, Statement;
    var s1 := Entered(s, t, UnlockTest);
    Unlocks(s1, t);
    var s2 := Statement(s1, t);
    Unlocks(s2, t);
    var s3 := Statement(s2, t);
    assert s3.pc == s.pc[t := s3.pc[t]];
    SameSleepers(s, s3, t, who, Idle);
    hide Sleepers, Signals, Roused;
    after := UnlockEnds(s3, t, who);
    EnterAndSignal(s, t, s1, s2, s3, who, after);
  }

  lemma {:induction false} UnlockEnds(s: State, t: Tid, who: Option<Tid>) returns (after: State)
    requires !s.aborted && t in s.pc && s.pc[t].UnlockSignal? && Signals(s, who)
    ensures Leads(s, [Signal(t, who), Advance(t)], after)
    ensures who.Some? ==> who.value in s.pc && who.value != t
    ensures after == s.(pc := Roused(s, who).pc[t := Idle], mu := None, last := s.last[t := (Unlock, s.pc[t].rv)])
  {
    hide Leads, Statement;
    var s1 := Signaled(s, t, who);
    Unlocks(s1, t);
    after := Statement(s1, t);
    Advance1(s1, t);
    SignalLeads(s, t, who, [Advance(t)], after);
    assert [Signal(t, who)] + [Advance(t)] == [Signal(t, who), Advance(t)];
    assert after.pc == Roused(s, who).pc[t := Idle];
  }

  /** Who can be woken, and what that does, is as before a step that puts nobody to sleep. */
  lemma SameSleepers(s: State, after: State, t: Tid, who: Option<Tid>, p: Pc)
    requires t in s.pc && t in after.pc && after.pc == s.pc[t := after.pc[t]] && !Asleep(s.pc[t]) && !Asleep(after.pc[t])
    requires Signals(s, who)
    ensures Signals(after, who) && (who.Some? ==> who.value in s.pc && who.value in after.pc)
    ensures Roused(after, who).pc[t := p] == Roused(s, who).pc[t := p]
  {
    assert Sleepers(after) == Sleepers(s) && t !in Sleepers(s);
  }

  // ----- Intr -----

  /** Intr makes the lock interrupted whatever it was, takes it from nobody, and wakes every sleeper if
      it has found the lock held, and none otherwise. */
  lemma {:induction false} IntrInterrupts(s: State, t: Tid) returns (run: seq<Action>, after: State)
    requires CanEnter(s, t) && s.pc[t].IntrEnter?
    ensures Leads(s, [Acquire(t)] + (run + [Advance(t)]), after) && forall a :: a in run ==> a == Advance(t)
    ensures after.lock == Interrupted && after.owners == s.owners && after.mu.None? && after.pc.Keys == s.pc.Keys
    ensures forall u :: u in s.pc ==>
              after.pc[u] == if u == t then Idle else if s.lock == Held then WakeUp(s.pc[u]) else s.pc[u]
    ensures after.last == s.last[t := (Intr, Ok)]
  {
    hide Leads, Statement, CanRun, AfterRun;
    var s1 := Entered(s, t, IntrTest);
    var s2;
    run, s2 := IntrSection(s1, t);
    IntrLeaves(s2, t);
    after := Statement(s2, t);
    LeadsTo(s1, run, s2, t);
    AcquireLeads(s, t, run + [Advance(t)], after);
  }

  lemma LeadsTo(s: State, run: seq<Action>, m: State, t: Tid)
    requires Leads(s, run, m) && !m.aborted && t in m.pc && m.pc[t].IntrLeave?
    ensures Leads(s, run + [Advance(t)], Statement(m, t))
  {
    hide Statement;
    Extend(s, run, Advance(t));
  }

  // ----- Reset -----

  lemma ResetLeaves(s: State, t: Tid)
    requires t in s.pc && s.pc[t].ResetLeave?
    ensures Statement(s, t) == Return(s, t, Reset, Ok)
  {
  }

  /** Reset frees an interrupted lock, and ends the program if the lock is anything else. */
  lemma {:induction false} ResetAnswers(s: State, t: Tid) returns (run: seq<Action>, after: State)
    requires CanEnter(s, t) && s.pc[t].ResetEnter?
    ensures Leads(s, run, after) && run != [] && run[0] == Acquire(t) && forall a :: a in run[1..] ==> a == Advance(t)
    ensures after.aborted <==> s.lock != Interrupted
    ensures s.lock == Interrupted ==> after == s.(lock := Free, pc := s.pc[t := Idle], last := s.last[t := (Reset, Ok)])
  {
    hide Leads, Statement;
    var s1 := Entered(s, t, ResetTest);
    Resets(s1, t);
    var s2 := Statement(s1, t);
    if s.lock != Interrupted {
      after := s2;
      Advance1(s1, t);
      run := [Acquire(t)] + [Advance(t)];
      AcquireLeads(s, t, [Advance(t)], after);
    } else {
      Resets(s2, t);
      var s3 := Statement(s2, t);
      ResetLeaves(s3, t);
      after := Statement(s3, t);
      Enter3(s, t, s1, s2, s3);
      run := [Acquire(t), Advance(t), Advance(t), Advance(t)];
      assert after.pc == s.pc[t := Idle];
    }
  }

  // ----- The wait -----

  lemma WaitTests(s: State, t: Tid)
    requires t in s.pc && s.pc[t].WaitTest?
    ensures Statement(s, t)
         == Goto(s, t, match s.lock case Held => WaitFree(s.pc[t].timed) case Free => WaitFail(MutexPermission)
                       case Interrupted => WaitFail(InternalError))
  {
  }

  lemma WaitFrees(s: State, t: Tid)
    requires t in s.pc
    ensures s.pc[t].WaitFree? ==> Statement(s, t) == Goto(DropLock(s, t), t, WaitSignal(s.pc[t].timed))
    ensures s.pc[t].WaitSleep? ==> Statement(s, t) == Release(s, t, UserAsleep(s.pc[t].timed))
    ensures s.pc[t].WaitFail? ==> Statement(s, t) == Return(s, t, Wait(false), s.pc[t].rv)
  {
  }

  /** A wait is refused at once, with nothing changed, if and only if the lock is not held. */
  lemma {:induction false} WaitIsRefused(s: State, t: Tid) returns (after: State)
    requires CanEnter(s, t) && s.pc[t].WaitEnter? && s.lock != Held
    ensures Leads(s, [Acquire(t), Advance(t), Advance(t)], after)
    ensures after == s.(pc := s.pc[t := Idle], last := after.last)
    ensures after.last == s.last[t := (Wait(false), if s.lock == Free then MutexPermission else InternalError)]
  {
    hide Leads, Statement;
    var s1 := Entered(s, t, WaitTest(s.pc[t].timed));
    WaitTests(s1, t);
    var s2 := Statement(s1, t);
    WaitFrees(s2, t);
    after := Statement(s2, t);
    Advance2(s1, t, s2);
    AcquireLeads(s, t, [Advance(t), Advance(t)], after);
    assert [Acquire(t)] + [Advance(t), Advance(t)] == [Acquire(t), Advance(t), Advance(t)];
    assert after.pc == s.pc[t := Idle];
  }

  /** Otherwise it frees the lock, gives it up, wakes one sleeper if there is any and sleeps. */
  lemma {:induction false} WaitGivesUp(s: State, t: Tid, who: Option<Tid>) returns (after: State)
    requires CanEnter(s, t) && s.pc[t].WaitEnter? && s.lock == Held && Signals(s, who)
    ensures Leads(s, [Acquire(t), Advance(t), Advance(t), Signal(t, who), Advance(t)], after)
    ensures who.Some? ==> who.value in s.pc && who.value != t
    ensures after == s.(lock := Free, owners := s.owners - {t}, pc := Roused(s, who).pc[t := UserAsleep(s.pc[t].timed)])
  {
    var timed := s.pc[t].timed;
    var s1, s2 := Entered(s, t, WaitTest(timed)), Entered(s, t, WaitFree(timed));
    var s3 := Entered(DropLock(s, t), t, WaitSignal(timed));
    assert AfterAcquire(s.pc[t]) == WaitTest(timed) != s.pc[t];
    hide Leads, Statement, Moves, AfterAcquire;
    WaitTestStep(s, t, timed);
    WaitFreeStep(s, t, timed);
    SameSleepers(s, s3, t, who, UserAsleep(timed));
    hide Sleepers, Signals, Roused;
    after := WaitFallsAsleep(s3, t, who);
    EnterAndSignal(s, t, s1, s2, s3, who, after);
  }

  lemma WaitTestStep(s: State, t: Tid, timed: bool)
    requires t in s.pc && !s.aborted && s.lock == Held
    ensures var now := Entered(s, t, WaitTest(timed)); Moves(now, t) && Statement(now, t) == Entered(s, t, WaitFree(timed))
  {
    WaitTests(Entered(s, t, WaitTest(timed)), t);
    GoesOn(s, t, WaitTest(timed), WaitFree(timed), Lock, Ok);
    hide Statement;
  }

  lemma WaitFreeStep(s: State, t: Tid, timed: bool)
    requires t in s.pc && !s.aborted
    ensures var now := Entered(s, t, WaitFree(timed));
            Moves(now, t) && Statement(now, t) == Entered(DropLock(s, t), t, WaitSignal(timed))
  {
    WaitFrees(Entered(s, t, WaitFree(timed)), t);
    GoesOn(s, t, WaitFree(timed), WaitSignal(timed), Lock, Ok);
    hide Statement;
  }

  lemma {:induction false} WaitFallsAsleep(s: State, t: Tid, who: Option<Tid>) returns (after: State)
    requires !s.aborted && t in s.pc && s.pc[t].WaitSignal? && Signals(s, who)
    ensures Leads(s, [Signal(t, who), Advance(t)], after)
    ensures who.Some? ==> who.value in s.pc && who.value != t
    ensures after == s.(pc := Roused(s, who).pc[t := UserAsleep(s.pc[t].timed)], mu := None)
  {
    hide Leads, Statement;
    var s1 := Signaled(s, t, who);
    WaitFrees(s1, t);
    after := Statement(s1, t);
    Advance1(s1, t);
    SignalLeads(s, t, who, [Advance(t)], after);
    assert [Signal(t, who)] + [Advance(t)] == [Signal(t, who), Advance(t)];
    assert after.pc == Roused(s, who).pc[t := UserAsleep(s.pc[t].timed)];
  }

  /** Once woken, a wait goes on sleeping, now for the lock, if and only if that is held. */
  lemma {:induction false} WaitSleepsOn(s: State, t: Tid) returns (after: State)
    requires CanEnter(s, t) && (s.pc[t].UserWoken? || s.pc[t].WaitWoken?)
    ensures Leads(s, [Acquire(t), Advance(t)], after)
    ensures after.pc.Keys == s.pc.Keys && (Asleep(after.pc[t]) <==> s.lock == Held)
    ensures s.lock == Held ==> after == s.(pc := s.pc[t := WaitAsleep(s.pc[t].rv)])
  {
    hide Leads, Statement;
    var s1 := Entered(s, t, WaitRetest(s.pc[t].rv));
    WaitRetests(s1, t);
    after := Statement(s1, t);
    Advance1(s1, t);
    AcquireLeads(s, t, [Advance(t)], after);
    assert [Acquire(t)] + [Advance(t)] == [Acquire(t), Advance(t)];
    assert s.lock == Held ==> after.pc == s.pc[t := WaitAsleep(s.pc[t].rv)];
  }

  /** Otherwise it returns what woke it, with the lock if that is free, and without it if interrupted. */
  lemma {:induction false} WaitReturns(s: State, t: Tid) returns (after: State)
    requires CanEnter(s, t) && (s.pc[t].UserWoken? || s.pc[t].WaitWoken?) && s.lock != Held
    ensures Leads(s, [Acquire(t), Advance(t), Advance(t), Advance(t)], after)
    ensures after == s.(lock := if s.lock == Free then Held else s.lock,
                        owners := if s.lock == Free then s.owners + {t} else s.owners,
                        pc := s.pc[t := Idle], last := s.last[t := (Wait(false), s.pc[t].rv)])
  {
    var rv := s.pc[t].rv;
    var taken := if s.lock == Free then TakeLock(s, t) else s;
    var s1, s2, s3 := Entered(s, t, WaitRetest(rv)), Entered(s, t, WaitTake(rv)), Entered(taken, t, WaitLeave(rv));
    assert AfterAcquire(s.pc[t]) == WaitRetest(rv) != s.pc[t];
    hide Leads, Statement, Entered, Moves, AfterAcquire;
    RetestStep(s, t, rv);
    TakeStep(s, t, rv);
    LeaveStep(taken, t, rv);
    after := Statement(s3, t);
    Enter3(s, t, s1, s2, s3);
  }

  lemma RetestStep(s: State, t: Tid, rv: Status)
    requires t in s.pc && !s.aborted && s.lock != Held
    ensures var now := Entered(s, t, WaitRetest(rv)); Moves(now, t) && Statement(now, t) == Entered(s, t, WaitTake(rv))
  {
    WaitRetests(Entered(s, t, WaitRetest(rv)), t);
    GoesOn(s, t, WaitRetest(rv), WaitTake(rv), Lock, Ok);
    hide Statement;
  }

  lemma TakeStep(s: State, t: Tid, rv: Status)
    requires t in s.pc && !s.aborted
    ensures var now := Entered(s, t, WaitTake(rv));
            Moves(now, t) && Statement(now, t) == Entered(if s.lock == Free then TakeLock(s, t) else s, t, WaitLeave(rv))
  {
    WaitTakes(Entered(s, t, WaitTake(rv)), t);
    GoesOn(s, t, WaitTake(rv), WaitLeave(rv), Lock, Ok);
    hide Statement;
  }

  lemma LeaveStep(s: State, t: Tid, rv: Status)
    requires t in s.pc && !s.aborted
    ensures var now := Entered(s, t, WaitLeave(rv));
            && Moves(now, t)
            && Statement(now, t) == s.(pc := s.pc[t := Idle], mu := None, last := s.last[t := (Wait(false), rv)])
  {
    WaitLeaves(Entered(s, t, WaitLeave(rv)), t);
    GoesOn(s, t, WaitLeave(rv), Idle, Wait(false), rv);
    hide Statement;
  }

  // ----- Whole calls -----

  lemma BeginLeads(s: State, t: Tid, call: Call, now: State, run: seq<Action>, after: State)
    requires Enabled(s, Begin(t, call)) && now == Do(s, Begin(t, call)) && Leads(now, run, after)
    ensures Leads(s, [Begin(t, call)] + run, after)
  {
    hide Leads, Do, Enabled;
    LeadsOn(s, Begin(t, call), run, after);
  }

  /** A thread that has begun a call, and one that is back from it. */
  lemma BeginAndReturn(s: State, t: Tid, call: Call, p: Pc, answer: (Call, Status))
    requires Enabled(s, Begin(t, call)) && s.mu.None?
    ensures var now := Do(s, Begin(t, call));
            && CanEnter(now, t) && now.pc[t] == Entry(call)
            && now == s.(pc := s.pc[t := Entry(call)], last := s.last - {t}, sawIntr := s.sawIntr || call.Intr?)
            && now.pc[t := Idle] == s.pc && now.pc[t := p] == s.pc[t := p] && now.last[t := answer] == s.last[t := answer]
  {
    assert s.pc[t] == Idle;
  }

  /** A whole TryLock: it succeeds and has the lock if and only if it finds that free, is busy if and only
      if it is held, and interrupted if and only if it is; nothing else changes. */
  lemma {:induction false} WholeTryLock(s: State, t: Tid) returns (after: State)
    requires Enabled(s, Begin(t, TryLock)) && s.mu.None?
    ensures Leads(s, [Begin(t, TryLock), Acquire(t), Advance(t), Advance(t)], after)
    ensures var answer := match s.lock case Free => Ok case Held => Busy case Interrupted => MutexInterrupted;
            var last := s.last[t := (TryLock, answer)];
            after == if s.lock == Free then s.(lock := Held, owners := s.owners + {t}, last := last) else s.(last := last)
  {
    var answer := match s.lock case Free => Ok case Held => Busy case Interrupted => MutexInterrupted;
    BeginAndReturn(s, t, TryLock, Idle, (TryLock, answer));
    var now := Do(s, Begin(t, TryLock));
    hide Leads, Do, CanEnter, Enabled;
    after := TryLockAnswers(now, t);
    assert after.last[t] == (TryLock, answer);
    BeginLeads(s, t, TryLock, now, [Acquire(t), Advance(t), Advance(t)], after);
    assert [Begin(t, TryLock)] + [Acquire(t), Advance(t), Advance(t)] == [Begin(t, TryLock), Acquire(t), Advance(t), Advance(t)];
  }

  /** A whole Lock that does not have to wait takes a free lock, and reports an interrupted one. */
  lemma {:induction false} WholeLock(s: State, t: Tid) returns (after: State)
    requires Enabled(s, Begin(t, Lock)) && s.mu.None? && s.lock != Held
    ensures Leads(s, [Begin(t, Lock), Acquire(t), Advance(t), Advance(t), Advance(t)], after)
    ensures after == if s.lock == Free then s.(lock := Held, owners := s.owners + {t}, last := s.last[t := (Lock, Ok)])
                     else s.(last := s.last[t := (Lock, MutexInterrupted)])
  {
    BeginAndReturn(s, t, Lock, Idle, (Lock, if s.lock == Free then Ok else MutexInterrupted));
    var now := Do(s, Begin(t, Lock));
    hide Leads, Do, CanEnter, Enabled;
    after := LockAnswers(now, t);
    BeginLeads(s, t, Lock, now, [Acquire(t), Advance(t), Advance(t), Advance(t)], after);
    assert [Begin(t, Lock)] + [Acquire(t), Advance(t), Advance(t), Advance(t)]
        == [Begin(t, Lock), Acquire(t), Advance(t), Advance(t), Advance(t)];
  }

  /** One that finds the lock held is asleep, without an answer, and has changed nothing else. */
  lemma {:induction false} LockWaits(s: State, t: Tid) returns (after: State)
    requires Enabled(s, Begin(t, Lock)) && s.mu.None? && s.lock == Held
    ensures Leads(s, [Begin(t, Lock), Acquire(t), Advance(t)], after)
    ensures after == s.(pc := s.pc[t := LockAsleep], last := s.last - {t})
  {
    BeginAndReturn(s, t, Lock, LockAsleep, (Lock, Ok));
    var now := Do(s, Begin(t, Lock));
    hide Leads, Do, CanEnter, Enabled;
    after := LockSleeps(now, t);
    BeginLeads(s, t, Lock, now, [Acquire(t), Advance(t)], after);
    assert [Begin(t, Lock)] + [Acquire(t), Advance(t)] == [Begin(t, Lock), Acquire(t), Advance(t)];
  }

  /** A whole Unlock frees the lock, an interrupted one as well, wakes one sleeper if there is any, and
      answers whether the lock was held. */
  lemma {:induction false} WholeUnlock(s: State, t: Tid, who: Option<Tid>) returns (after: State)
    requires Enabled(s, Begin(t, Unlock)) && s.mu.None? && Signals(s, who)
    ensures Leads(s, [Begin(t, Unlock), Acquire(t), Advance(t), Advance(t), Signal(t, who), Advance(t)], after)
    ensures who.Some? ==> who.value in s.pc && Asleep(s.pc[who.value])
    ensures after == s.(lock := Free, owners := s.owners - {t}, pc := Roused(s, who).pc,
                        last := s.last[t := (Unlock, if s.lock == Held then Ok else MutexPermission)])
  {
    BeginAndReturn(s, t, Unlock, Idle, (Unlock, if s.lock == Held then Ok else MutexPermission));
    var now := Do(s, Begin(t, Unlock));
    SameSleepers(s, now, t, who, Idle);
    assert Roused(s, who).pc[t := Idle] == Roused(s, who).pc;
    hide Leads, Do, CanEnter, Enabled, Roused;
    after := UnlockAnswers(now, t, who);
    BeginLeads(s, t, Unlock, now, [Acquire(t), Advance(t), Advance(t), Signal(t, who), Advance(t)], after);
    assert [Begin(t, Unlock)] + [Acquire(t), Advance(t), Advance(t), Signal(t, who), Advance(t)]
        == [Begin(t, Unlock), Acquire(t), Advance(t), Advance(t), Signal(t, who), Advance(t)];
  }

  /** A whole Intr makes the lock interrupted, leaves it with whoever owns it, and wakes all sleepers if it
      has found the lock held, and none otherwise. */
  lemma {:induction false} WholeIntr(s: State, t: Tid) returns (run: seq<Action>, after: State)
    requires Enabled(s, Begin(t, Intr)) && s.mu.None?
    ensures Leads(s, [Begin(t, Intr)] + ([Acquire(t)] + run), after) && forall a :: a in run ==> a == Advance(t)
    ensures after.lock == Interrupted && after.owners == s.owners && after.mu.None? && after.pc.Keys == s.pc.Keys
    ensures forall u :: u in s.pc ==> after.pc[u] == if s.lock == Held then WakeUp(s.pc[u]) else s.pc[u]
    ensures after.last == s.last[t := (Intr, Ok)]
  {
    BeginAndReturn(s, t, Intr, Idle, (Intr, Ok));
    var now := Do(s, Begin(t, Intr));
    assert s.pc[t] == Idle;
    hide Leads, Do, CanEnter, Enabled;
    run, after := IntrInterrupts(now, t);
    run := run + [Advance(t)];
    BeginLeads(s, t, Intr, now, [Acquire(t)] + run, after);
  }

  /** A whole Reset frees an interrupted lock; any other ends the program. */
  lemma {:induction false} WholeReset(s: State, t: Tid) returns (run: seq<Action>, after: State)
    requires Enabled(s, Begin(t, Reset)) && s.mu.None?
    ensures Leads(s, [Begin(t, Reset)] + run, after) && run != [] && run[0] == Acquire(t)
    ensures forall a :: a in run[1..] ==> a == Advance(t)
    ensures after.aborted <==> s.lock != Interrupted
    ensures s.lock == Interrupted ==> after == s.(lock := Free, last := s.last[t := (Reset, Ok)])
  {
    BeginAndReturn(s, t, Reset, Idle, (Reset, Ok));
    var now := Do(s, Begin(t, Reset));
    hide Leads, Do, CanEnter, Enabled;
    run, after := ResetAnswers(now, t);
    BeginLeads(s, t, Reset, now, run, after);
  }

  /** A wait on a lock that is not held is refused, with nothing changed. */
  lemma {:induction false} WholeWaitRefused(s: State, t: Tid, timed: bool) returns (after: State)
    requires Enabled(s, Begin(t, Wait(timed))) && s.mu.None? && s.lock != Held
    ensures Leads(s, [Begin(t, Wait(timed)), Acquire(t), Advance(t), Advance(t)], after)
    ensures after == s.(last := s.last[t := (Wait(false), if s.lock == Free then MutexPermission else InternalError)])
  {
    BeginAndReturn(s, t, Wait(timed), Idle, (Wait(false), if s.lock == Free then MutexPermission else InternalError));
    var now := Do(s, Begin(t, Wait(timed)));
    hide Leads, Do, CanEnter, Enabled;
    after := WaitIsRefused(now, t);
    BeginLeads(s, t, Wait(timed), now, [Acquire(t), Advance(t), Advance(t)], after);
    assert [Begin(t, Wait(timed))] + [Acquire(t), Advance(t), Advance(t)] == [Begin(t, Wait(timed)), Acquire(t), Advance(t), Advance(t)];
  }

  /** Any other gives the lock up, wakes one sleeper if there is any, and sleeps. */
  lemma {:induction false} WaitBegins(s: State, t: Tid, timed: bool, who: Option<Tid>) returns (after: State)
    requires Enabled(s, Begin(t, Wait(timed))) && s.mu.None? && s.lock == Held && Signals(s, who)
    ensures Leads(s, [Begin(t, Wait(timed)), Acquire(t), Advance(t), Advance(t), Signal(t, who), Advance(t)], after)
    ensures who.Some? ==> who.value in s.pc && Asleep(s.pc[who.value])
    ensures after == s.(lock := Free, owners := s.owners - {t}, pc := Roused(s, who).pc[t := UserAsleep(timed)], last := s.last - {t})
  {
    BeginAndReturn(s, t, Wait(timed), Idle, (Wait(false), Ok));
    var now := Do(s, Begin(t, Wait(timed)));
    SameSleepers(s, now, t, who, UserAsleep(timed));
    hide Leads, Do, CanEnter, Enabled, Roused;
    after := WaitGivesUp(now, t, who);
    BeginLeads(s, t, Wait(timed), now, [Acquire(t), Advance(t), Advance(t), Signal(t, who), Advance(t)], after);
    assert [Begin(t, Wait(timed))] + [Acquire(t), Advance(t), Advance(t), Signal(t, who), Advance(t)]
        == [Begin(t, Wait(timed)), Acquire(t), Advance(t), Advance(t), Signal(t, who), Advance(t)];
  }
}
