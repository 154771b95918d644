/** Who wakes the threads asleep inside the interruptible mutex, and when somebody is left asleep. */
module LockWakeups {
  import opened Util
  import opened IntrLock

  /** About to test a lock that is free, or about to wake another thread that will. */
  predicate Pending(p: Pc) {
    match p
    case LockWoken | LockTest | LockTake | UnlockSignal(_)
       | WaitWoken(_) | WaitRetest(_) | WaitTake(_) | WaitSignal(_) => true
    case _ => false
  }

  ghost predicate SomePending(s: State) {
    exists t :: t in s.pc && Pending(s.pc[t])
  }

  ghost predicate SomeBroadcasting(s: State) {
    exists t :: t in s.pc && s.pc[t].IntrBroadcast?
  }

  ghost predicate WakeInvariant(s: State) {
    && (!s.sawIntr && s.lock == Free && Sleepers(s) != {} ==> SomePending(s))
    && (s.lock == Interrupted && s.foundHeld && Sleepers(s) != {} ==> SomeBroadcasting(s))
    && (s.lock == Interrupted && !s.foundHeld ==> s.owners == {})
    && (forall t :: t in s.pc && s.pc[t].IntrSet? && s.lock != Interrupted ==> s.foundHeld == s.pc[t].wasHeld)
  }

  ghost predicate Good(s: State) {
    Invariant(s) && WakeInvariant(s)
  }

  /** A step of `t` that leaves the lock as it is: others keep their positions or are woken, and `t`
      falls asleep only on a held lock. */
  ghost predicate LockKept(s: State, after: State, t: Tid) {
    && t in s.pc && after.pc.Keys == s.pc.Keys
    && (forall u :: u in s.pc && u != t ==>
          after.pc[u] == s.pc[u] || (Asleep(s.pc[u]) && Woken(after.pc[u])))
    && (Asleep(after.pc[t]) ==> Asleep(s.pc[t]) || s.lock == Held)
    && after.lock == s.lock && after.owners <= s.owners && after.foundHeld == s.foundHeld
    && (s.sawIntr ==> after.sawIntr)
    && !after.pc[t].IntrSet?
  }

  lemma {:induction false} WakeKept(s: State, after: State, t: Tid)
    requires WakeInvariant(s) && LockKept(s, after, t)
    requires !s.pc[t].IntrBroadcast?
    requires Pending(s.pc[t]) && s.lock == Free && Sleepers(after) != {} ==> SomePending(after)
    ensures WakeInvariant(after)
  {
    assert s.lock != Held ==> Sleepers(after) <= Sleepers(s);
    if !after.sawIntr && after.lock == Free && Sleepers(after) != {} {
      assert Sleepers(s) != {};
      var w :| w in s.pc && Pending(s.pc[w]);
      if w != t {
        assert Pending(after.pc[w]);
      }
    }
    if after.lock == Interrupted && after.foundHeld && Sleepers(after) != {} {
      assert Sleepers(s) != {};
      var w :| w in s.pc && s.pc[w].IntrBroadcast?;
      assert after.pc[w].IntrBroadcast?;
    }
  }

  /** Only the holder of the raw mutex is on its way. */
  lemma {:induction false} OnlyOneInside(s: State, t: Tid)
    requires Invariant(s) && t in s.pc && Inside(s.pc[t])
    ensures forall u :: u in s.pc && Inside(s.pc[u]) ==> u == t
  {
    AtThread(s, t);
    forall u | u in s.pc && Inside(s.pc[u]) ensures u == t {
      AtThread(s, u);
    }
  }

  lemma {:induction false} OutsideKeeps(s: State, a: Action)
    requires Good(s) && Enabled(s, a)
    requires a.Begin? || a.Acquire? || a.Spurious? || a.UserWake?
    ensures WakeInvariant(Do(s, a))
  {
    hide Invariant, ThreadOk, Statement, WakeInvariant, Sleepers;
    var after := Do(s, a);
    assert SleepersShrink: Pending(s.pc[a.t]) ==> Pending(after.pc[a.t]);
    assert LockKept(s, after, a.t);
    if Pending(s.pc[a.t]) {
      assert SomePending(after) by { assert Pending(after.pc[a.t]); }
    }
    WakeKept(s, after, a.t);
  }

  lemma {:induction false} SignalKeepsWake(s: State, t: Tid, who: Option<Tid>)
    requires Good(s) && Enabled(s, Signal(t, who))
    ensures WakeInvariant(Do(s, Signal(t, who)))
  {
    hide Invariant, ThreadOk, Statement, WakeInvariant;
    var after := Do(s, Signal(t, who));
    assert LockKept(s, after, t);
    if who.Some? {
      assert Pending(after.pc[who.value]);
    } else {
      assert Sleepers(after) == {};
    }
    WakeKept(s, after, t);
  }

  predicate Taking(p: Pc) {
    p.LockTake? || p.TryTest? || p.WaitTake?
  }

  lemma {:induction false} TakeKeepsWake(s: State, t: Tid)
    requires Good(s) && t in s.pc && Taking(s.pc[t]) && s.lock == Free
    ensures WakeInvariant(Statement(s, t))
  {
    OnlyOneInside(s, t);
  }

  lemma {:induction false} DropKeepsWake(s: State, t: Tid)
    requires Good(s) && t in s.pc && (s.pc[t].UnlockFree? || s.pc[t].WaitFree?)
    ensures WakeInvariant(Statement(s, t))
  {
    OnlyOneInside(s, t);
    assert Pending(Statement(s, t).pc[t]);
  }

  lemma {:induction false} IntrTestKeepsWake(s: State, t: Tid)
    requires Good(s) && t in s.pc && s.pc[t].IntrTest?
    ensures WakeInvariant(Statement(s, t))
  {
    OnlyOneInside(s, t);
    AtThread(s, t);
    IntrTests(s, t);
    hide Invariant, Statement;
    assert Sleepers(Statement(s, t)) == Sleepers(s);
  }

  lemma {:induction false} IntrSetKeepsWake(s: State, t: Tid)
    requires Good(s) && t in s.pc && s.pc[t].IntrSet?
    ensures WakeInvariant(Statement(s, t))
  {
    OnlyOneInside(s, t);
    AtThread(s, t);
    IntrSets(s, t);
    hide Invariant, Statement;
    assert Sleepers(Statement(s, t)) == Sleepers(s);
    if s.pc[t].wasHeld {
      assert Statement(s, t).pc[t].IntrBroadcast?;
    }
  }

  lemma {:induction false} IntrBroadcastKeepsWake(s: State, t: Tid)
    requires Good(s) && t in s.pc && s.pc[t].IntrBroadcast?
    ensures WakeInvariant(Statement(s, t))
  {
    OnlyOneInside(s, t);
    AtThread(s, t);
    IntrBroadcasts(s, t);
    BroadcastWakesAll(s, t);
    hide Invariant, Statement, Sleepers, ThreadOk;
  }

  lemma BroadcastWakesAll(s: State, t: Tid)
    requires t in s.pc && s.pc[t].IntrBroadcast?
    ensures Sleepers(Statement(s, t)) == {}
  {
    IntrBroadcasts(s, t);
    hide Statement;
  }

  lemma {:induction false} ResetKeepsWake(s: State, t: Tid)
    requires Good(s) && t in s.pc && s.pc[t].ResetFree?
    ensures WakeInvariant(Statement(s, t))
  {
    AtThread(s, t);
    assert Sleepers(Statement(s, t)) == {};
  }

  predicate Leaving(p: Pc) {
    p.LockLeave? || p.TryLeave? || p.UnlockLeave? || p.IntrLeave? || p.ResetLeave? || p.WaitFail? || p.WaitLeave?
  }

  /** What a statement does that leaves the lock alone: it moves one thread. */
  ghost predicate MovesOne(s: State, after: State, t: Tid)
    requires t in s.pc
  {
    && t in after.pc && after.pc == s.pc[t := after.pc[t]]
    && after.lock == s.lock && after.owners == s.owners && after.foundHeld == s.foundHeld && after.sawIntr == s.sawIntr
    && !after.pc[t].IntrSet?
    && (Asleep(after.pc[t]) ==> s.lock == Held)
    && (Pending(s.pc[t]) && s.lock == Free ==> Pending(after.pc[t]))
  }

  lemma {:induction false} LeavingMovesOne(s: State, t: Tid)
    requires t in s.pc && Leaving(s.pc[t])
    ensures MovesOne(s, Statement(s, t), t)
  {
    hide MovesOne;
    match s.pc[t] {
      case LockLeave(rv) => ReturnMovesOne(s, t, Lock, rv);
      case TryLeave(rv) => ReturnMovesOne(s, t, TryLock, rv);
      case UnlockLeave(rv) => ReturnMovesOne(s, t, Unlock, rv);
      case IntrLeave => ReturnMovesOne(s, t, Intr, Ok);
      case ResetLeave => ReturnMovesOne(s, t, Reset, Ok);
      case WaitFail(rv) => ReturnMovesOne(s, t, Wait(false), rv);
      case WaitLeave(rv) => ReturnMovesOne(s, t, Wait(false), rv);
    }
  }

  lemma {:induction false} ReturnMovesOne(s: State, t: Tid, call: Call, rv: Status)
    requires t in s.pc && !Pending(s.pc[t])
    ensures MovesOne(s, Return(s, t, call, rv), t)
  {
  }

  lemma {:induction false} MoveMovesOne(s: State, t: Tid, p: Pc)
    requires t in s.pc && !p.IntrSet? && (Asleep(p) ==> s.lock == Held)
    requires Pending(s.pc[t]) && s.lock == Free ==> Pending(p)
    ensures MovesOne(s, Goto(s, t, p), t) && MovesOne(s, Release(s, t, p), t)
  {
  }

  lemma {:induction false} TestMovesOne(s: State, t: Tid)
    requires t in s.pc && (Taking(s.pc[t]) ==> s.lock != Free)
    requires var p := s.pc[t]; p.LockTest? || p.LockTake? || p.TryTest? || p.UnlockTest? || p.ResetTest?
    ensures MovesOne(s, Statement(s, t), t)
  {
    hide MovesOne;
    match s.pc[t] {
      case LockTest => MoveMovesOne(s, t, if s.lock == Held then LockAsleep else LockTake);
      case LockTake => MoveMovesOne(s, t, LockLeave(if s.lock == Interrupted then MutexInterrupted else InternalError));
      case TryTest => MoveMovesOne(s, t, TryLeave(if s.lock == Held then Busy else MutexInterrupted));
      case UnlockTest => MoveMovesOne(s, t, UnlockFree(if s.lock != Held then MutexPermission else Ok));
      case ResetTest => ResetTestMovesOne(s, t);
    }
  }

  lemma {:induction false} ResetTestMovesOne(s: State, t: Tid)
    requires t in s.pc && s.pc[t].ResetTest?
    ensures MovesOne(s, Statement(s, t), t)
  {
    Resets(s, t);
    hide Statement;
  }

  lemma {:induction false} WaitMovesOne(s: State, t: Tid)
    requires t in s.pc && (Taking(s.pc[t]) ==> s.lock != Free)
    requires var p := s.pc[t]; p.WaitTest? || p.WaitSleep? || p.WaitRetest? || p.WaitTake?
    ensures MovesOne(s, Statement(s, t), t)
  {
    hide MovesOne, Goto, Release;
    match s.pc[t] {
      case WaitTest(timed) =>
        MoveMovesOne(s, t, match s.lock case Held => WaitFree(timed) case Free => WaitFail(MutexPermission) case Interrupted => WaitFail(InternalError));
      case WaitSleep(timed) => MoveMovesOne(s, t, UserAsleep(timed));
      case WaitRetest(rv) => MoveMovesOne(s, t, if s.lock == Held then WaitAsleep(rv) else WaitTake(rv));
      case WaitTake(rv) => MoveMovesOne(s, t, WaitLeave(rv));
    }
  }

  lemma {:induction false} PlainKeepsWake(s: State, t: Tid)
    requires Good(s) && Enabled(s, Advance(t))
    requires Taking(s.pc[t]) ==> s.lock != Free
    requires var p := s.pc[t];
             !p.IntrTest? && !p.IntrSet? && !p.IntrBroadcast? && !p.ResetFree? && !p.UnlockFree? && !p.WaitFree?
    ensures WakeInvariant(Statement(s, t))
  {
    hide Invariant, ThreadOk, WakeInvariant, Sleepers, Statement;
    var p := s.pc[t];
    if Leaving(p) {
      LeavingMovesOne(s, t);
    } else if p.WaitTest? || p.WaitSleep? || p.WaitRetest? || p.WaitTake? {
      WaitMovesOne(s, t);
    } else {
      TestMovesOne(s, t);
    }
    WakeKept(s, Statement(s, t), t);
  }

  lemma {:induction false} StatementKeepsWake(s: State, t: Tid)
    requires Good(s) && Enabled(s, Advance(t))
    ensures WakeInvariant(Statement(s, t))
  {
    hide Invariant, ThreadOk, WakeInvariant, Sleepers, Statement;
    match s.pc[t] {
      case IntrTest => IntrTestKeepsWake(s, t);
      case IntrSet(_) => IntrSetKeepsWake(s, t);
      case IntrBroadcast => IntrBroadcastKeepsWake(s, t);
      case ResetFree => ResetKeepsWake(s, t);
      case UnlockFree(_) => DropKeepsWake(s, t);
      case WaitFree(_) => DropKeepsWake(s, t);
      case _ => if Taking(s.pc[t]) && s.lock == Free { TakeKeepsWake(s, t); } else { PlainKeepsWake(s, t); }
    }
  }

  lemma {:induction false} StepKeepsGood(s: State, a: Action)
    requires Good(s) && Enabled(s, a)
    ensures Good(Do(s, a))
  {
    hide Invariant, WakeInvariant, Statement;
    StepKeepsInvariant(s, a);
    match a {
      case Advance(t) => StatementKeepsWake(s, t);
      case Signal(t, who) => SignalKeepsWake(s, t, who);
      case _ => OutsideKeeps(s, a);
    }
  }

  lemma {:induction false} RunKeepsGood(s: State, run: seq<Action>)
    requires Good(s) && CanRun(s, run)
    ensures Good(AfterRun(s, run))
    decreases |run|
  {
    hide Good;
    if run != [] {
      StepKeepsGood(s, run[0]);
      RunKeepsGood(Do(s, run[0]), run[1..]);
    }
  }

  lemma {:induction false} ReachableIsGood(s: State)
    requires Reachable(s)
    ensures Good(s)
  {
    hide Good;
    var start, run :| Initial(start) && CanRun(start, run) && AfterRun(start, run) == s;
    assert Good(start) by { InitialIsGood(start); }
    RunKeepsGood(start, run);
  }

  lemma {:induction false} InitialIsGood(s: State)
    requires Initial(s)
    ensures Good(s)
  {
  }

  /** In runs without `Intr` no wake-up is lost: while threads sleep on a free lock, one is woken or
      about to be, and if nobody is inside, one that is woken is still to test the lock. */
  lemma {:induction false} NoLostWakeup(s: State)
    requires Reachable(s) && !s.sawIntr && s.lock == Free && Sleepers(s) != {}
    ensures SomePending(s)
    ensures s.mu.None? ==> exists t :: t in s.pc && Woken(s.pc[t])
  {
    ReachableIsGood(s);
    var t :| t in s.pc && Pending(s.pc[t]);
    AtThread(s, t);
  }

  /** Once an `Intr` that found the lock held is through, nobody sleeps while it stays interrupted. */
  lemma {:induction false} HeldIntrWakesAll(s: State)
    requires Reachable(s) && s.lock == Interrupted && s.foundHeld
    ensures Sleepers(s) != {} ==> s.mu.Some? && s.mu.value in s.pc && s.pc[s.mu.value].IntrBroadcast?
  {
    ReachableIsGood(s);
    if Sleepers(s) != {} {
      var t :| t in s.pc && s.pc[t].IntrBroadcast?;
      AtThread(s, t);
    }
  }

  // ----- An interrupt that finds the lock free -----

  predicate Waking(p: Pc) {
    p.UnlockSignal? || p.WaitSignal? || p.IntrBroadcast?
  }

  /** Asleep with nobody left to wake it: the lock is interrupted and has no owner. */
  ghost predicate Stranded(s: State, u: Tid) {
    && u in s.pc && Asleep(s.pc[u])
    && s.lock == Interrupted && s.owners == {}
    && forall t :: t in s.pc ==> !Waking(s.pc[t])
  }

  lemma {:induction false} StatementStrands(s: State, t: Tid, u: Tid)
    requires Invariant(s) && Stranded(s, u) && Enabled(s, Advance(t))
    ensures Stranded(Statement(s, t), u)
  {
    AtThread(s, t);
  }

  lemma {:induction false} StepStrands(s: State, a: Action, u: Tid)
    requires Invariant(s) && Stranded(s, u) && Enabled(s, a) && a != Spurious(u)
    ensures Stranded(Do(s, a), u)
  {
    hide Invariant, Statement;
    match a {
      case Advance(t) => StatementStrands(s, t, u);
      case _ =>
    }
  }

  lemma {:induction false} StrandedForever(s: State, run: seq<Action>, u: Tid)
    requires Invariant(s) && Stranded(s, u) && CanRun(s, run) && Spurious(u) !in run
    ensures Stranded(AfterRun(s, run), u)
    decreases |run|
  {
    hide Invariant, Stranded;
    if run != [] {
      StepStrands(s, run[0], u);
      StepKeepsInvariant(s, run[0]);
      StrandedForever(Do(s, run[0]), run[1..], u);
    }
  }

  lemma {:induction false} LeadsOn(s: State, a: Action, run: seq<Action>, after: State)
    requires Enabled(s, a) && Leads(Do(s, a), run, after)
    ensures Leads(s, [a] + run, after)
  {
    assert ([a] + run)[1..] == run;
  }

  /** The statements `Intr` makes under the raw mutex, without its last, which lets go of that. */
  lemma {:induction false} IntrSection(s: State, t: Tid) returns (run: seq<Action>, after: State)
    requires t in s.pc && s.pc[t].IntrTest? && !s.aborted
    ensures Leads(s, run, after) && forall a :: a in run ==> a == Advance(t)
    ensures after.lock == Interrupted && after.owners == s.owners && after.pc.Keys == s.pc.Keys
    ensures after.last == s.last && !after.aborted
    ensures forall u :: u in s.pc ==>
              after.pc[u] == if u == t then IntrLeave else if s.lock == Held then WakeUp(s.pc[u]) else s.pc[u]
  {
    hide Leads, CanRun, AfterRun, Statement, Enabled, Do;
    IntrTests(s, t);
    var one := Statement(s, t);
    IntrSets(one, t);
    var two := Statement(one, t);
    run := [];
    if s.lock == Held {
      IntrBroadcasts(two, t);
      after := Statement(two, t);
      LeadsNowhere(after);
      AdvanceLeads(two, t, [], after);
      run := [Advance(t)] + [];
    } else {
      after := two;
      LeadsNowhere(after);
    }
    AdvanceLeads(one, t, run, after);
    AdvanceLeads(s, t, [Advance(t)] + run, after);
    run := [Advance(t)] + ([Advance(t)] + run);
  }

  lemma AdvanceLeads(s: State, t: Tid, run: seq<Action>, after: State)
    requires !s.aborted && t in s.pc && Inside(s.pc[t]) && !s.pc[t].UnlockSignal? && !s.pc[t].WaitSignal?
    requires Leads(Statement(s, t), run, after)
    ensures Leads(s, [Advance(t)] + run, after)
  {
    hide Leads, Statement;
    LeadsOn(s, Advance(t), run, after);
  }

  lemma LeadsNowhere(s: State)
    ensures Leads(s, [], s)
  {
  }

  /** `Intr` leaves nobody asleep exactly when it finds the lock held or nobody asleep before; whom
      it leaves asleep only a spurious wake-up can ever bring back. */
  lemma {:induction false} IntrStrandsIff(s: State, t: Tid) returns (run: seq<Action>, after: State)
    requires Reachable(s) && t in s.pc && s.pc[t].IntrTest? && !s.aborted
    ensures Leads(s, run, after) && t in after.pc && after.pc[t].IntrLeave? && (forall a :: a in run ==> a == Advance(t))
    ensures Sleepers(after) == {} <==> s.lock == Held || Sleepers(s) == {}
    ensures s.lock != Held ==> Sleepers(after) == Sleepers(s)
    ensures forall later, u :: CanRun(after, later) && u in Sleepers(after) && Spurious(u) !in later
              ==> u in Sleepers(AfterRun(after, later))
  {
    ReachableIsGood(s);
    run, after := IntrSection(s, t);
    AtThread(s, t);
    RunKeepsInvariant(s, run);
    SleepersAfterIntr(s, after, t);
    forall later, u | CanRun(after, later) && u in Sleepers(after) && Spurious(u) !in later
      ensures u in Sleepers(AfterRun(after, later))
    {
      SleeperIsStranded(s, after, t, u);
      StrandedForever(after, later, u);
    }
  }

  lemma {:induction false} SleepersAfterIntr(s: State, after: State, t: Tid)
    requires t in s.pc && s.pc[t].IntrTest? && after.pc.Keys == s.pc.Keys
    requires forall u :: u in s.pc ==>
               after.pc[u] == if u == t then IntrLeave else if s.lock == Held then WakeUp(s.pc[u]) else s.pc[u]
    ensures Sleepers(after) == if s.lock == Held then {} else Sleepers(s)
  {
  }

  lemma {:induction false} NobodyElseWakes(s: State, t: Tid)
    requires Invariant(s) && t in s.pc && s.pc[t].IntrTest?
    ensures forall v :: v in s.pc ==> !Waking(s.pc[v])
  {
    OnlyOneInside(s, t);
  }

  lemma {:induction false} SleeperIsStranded(s: State, after: State, t: Tid, u: Tid)
    requires Good(s) && t in s.pc && s.pc[t].IntrTest? && after.pc.Keys == s.pc.Keys && s.lock != Held
    requires forall v :: v in s.pc ==> after.pc[v] == if v == t then IntrLeave else s.pc[v]
    requires after.lock == Interrupted && after.owners == s.owners && u in Sleepers(after)
    ensures Stranded(after, u)
  {
    hide Invariant;
    AtThread(s, t);
    NobodyElseWakes(s, t);
    assert u in Sleepers(s);
  }

  // ----- Waiting on the caller's condition variable -----

  lemma NotHeldAtTheEnd(s: State, t: Tid)
    requires Reachable(s) && t in s.pc && s.pc[t].WaitTake?
    ensures s.lock != Held && t !in s.owners
  {
    hide Reachable, Invariant;
    ReachableKeepsInvariant(s);
    AtThread(s, t);
  }

  /** `NaClIntrCondVarWait` gives its caller the lock back exactly when it finds it free at the end,
      else the lock is interrupted; what it returns does not tell the two apart. */
  lemma {:induction false} WaitOwnsIff(s: State, t: Tid) returns (run: seq<Action>, after: State)
    requires Reachable(s) && t in s.pc && s.pc[t].WaitTake? && !s.aborted
    ensures Leads(s, run, after) && run == [Advance(t), Advance(t)]
    ensures t in after.last && after.last[t] == (Wait(false), s.pc[t].rv)
    ensures t in after.owners <==> s.lock == Free
    ensures t !in after.owners <==> after.lock == Interrupted
  {
    NotHeldAtTheEnd(s, t);
    hide Leads, CanRun, AfterRun, Invariant, Statement, Enabled, Do, Reachable, ThreadOk;
    WaitTakes(s, t);
    var one := Statement(s, t);
    WaitLeaves(one, t);
    after := Statement(one, t);
    LeadsNowhere(after);
    AdvanceLeads(one, t, [], after);
    AdvanceLeads(s, t, [Advance(t)] + [], after);
    run := [Advance(t)] + ([Advance(t)] + []);
  }

  // ----- Runs that show it -----

  lemma {:induction false} Then(s: State, m: State, a: Action)
    requires CanReach(s, m) && Enabled(m, a)
    ensures CanReach(s, Do(m, a))
  {
    var run :| Leads(s, run, m);
    Extend(s, run, a);
    assert Leads(s, run + [a], Do(m, a));
  }

  lemma Advances(start: State, s: State, t: Tid)
    requires CanReach(start, s) && !s.aborted && t in s.pc && Inside(s.pc[t]) && !s.pc[t].UnlockSignal? && !s.pc[t].WaitSignal?
    ensures CanReach(start, Statement(s, t))
  {
    hide CanReach, Statement;
    Then(start, s, Advance(t));
  }

  lemma ReachesItself(s: State)
    ensures CanReach(s, s)
  {
    assert Leads(s, [], s);
  }

  lemma {:induction false} Extend(s: State, run: seq<Action>, a: Action)
    requires CanRun(s, run) && Enabled(AfterRun(s, run), a)
    ensures CanRun(s, run + [a]) && AfterRun(s, run + [a]) == Do(AfterRun(s, run), a)
    decreases |run|
  {
    if run == [] {
      assert [a][1..] == [];
    } else {
      Extend(Do(s, run[0]), run[1..], a);
      assert (run + [a])[1..] == run[1..] + [a];
    }
  }

  /** A thread calls and gets the raw mutex at once. */
  lemma {:induction false} Enters(start: State, s: State, t: Tid, call: Call) returns (after: State)
    requires CanReach(start, s) && s.mu.None? && Enabled(s, Begin(t, call))
    ensures CanReach(start, after)
    ensures after == s.(pc := s.pc[t := AfterAcquire(Entry(call))], mu := Some(t),
                        sawIntr := s.sawIntr || call.Intr?, last := after.last)
  {
    hide CanReach, Sleepers, Statement;
    Then(start, s, Begin(t, call));
    var s1 := Do(s, Begin(t, call));
    Then(start, s1, Acquire(t));
    after := Do(s1, Acquire(t));
    assert after.pc == s.pc[t := AfterAcquire(Entry(call))];
  }

  lemma CanBegin(s: State, t: Tid)
    requires !s.aborted && t in s.pc && s.pc[t].Idle? && forall u :: u in s.pc ==> !InReset(s.pc[u])
    ensures Enabled(s, Begin(t, Lock)) && (t in s.owners ==> Enabled(s, Begin(t, Unlock)))
  {
  }

  /** A call that finds the lock free and runs alone takes it. */
  lemma {:induction false} TakesTheLock(start: State, s: State, t: Tid) returns (after: State)
    requires CanReach(start, s) && !s.aborted && t in s.pc && s.pc[t].Idle? && s.mu.None? && s.lock == Free
    requires forall u :: u in s.pc ==> !InReset(s.pc[u])
    ensures CanReach(start, after) && after == s.(lock := Held, owners := s.owners + {t}, last := after.last)
  {
    hide CanReach, Statement, Enabled;
    assert Enabled(s, Begin(t, Lock)) by { CanBegin(s, t); }
    var s2 := Enters(start, s, t, Lock);
    Advances(start, s2, t);
    LockTests(s2, t);
    var s3 := Statement(s2, t);
    Advances(start, s3, t);
    LockTakesFree(s3, t);
    var s4 := Statement(s3, t);
    Advances(start, s4, t);
    LockLeaves(s4, t);
    after := Statement(s4, t);
    assert after.pc == s.pc;
  }

  lemma {:induction false} FallsAsleep(start: State, s: State, t: Tid) returns (after: State)
    requires CanReach(start, s) && !s.aborted && t in s.pc && s.pc[t].Idle? && s.mu.None? && s.lock == Held
    requires forall u :: u in s.pc ==> !InReset(s.pc[u])
    ensures CanReach(start, after) && after == s.(pc := s.pc[t := LockAsleep], last := after.last)
  {
    hide CanReach;
    var s2 := Enters(start, s, t, Lock);
    Then(start, s2, Advance(t));
    after := Do(s2, Advance(t));
    assert after.pc == s.pc[t := LockAsleep];
  }

  lemma Wakes(start: State, s: State, t: Tid, w: Tid)
    requires CanReach(start, s) && !s.aborted && t in s.pc && s.pc[t].UnlockSignal? && w in s.pc && s.pc[w].LockAsleep?
    ensures CanReach(start, Signaled(s, t, Some(w)))
  {
    hide CanReach, Statement, Signaled;
    assert w in Sleepers(s);
    Then(start, s, Signal(t, Some(w)));
  }

  lemma {:induction false} UnlocksFor(start: State, s: State, t: Tid, w: Tid) returns (after: State)
    requires CanReach(start, s) && !s.aborted && t in s.pc && s.pc[t].Idle? && s.mu.None? && t in s.owners && s.lock == Held
    requires w in s.pc && s.pc[w].LockAsleep?
    requires forall u :: u in s.pc ==> !InReset(s.pc[u])
    ensures CanReach(start, after)
    ensures after == s.(lock := Free, owners := s.owners - {t}, pc := s.pc[w := LockWoken], last := after.last)
  {
    hide CanReach, Statement, Enabled;
    CanBegin(s, t);
    var s2 := Enters(start, s, t, Unlock);
    Unlocks(s2, t);
    Advances(start, s2, t);
    var s3 := Statement(s2, t);
    Unlocks(s3, t);
    Advances(start, s3, t);
    var s4 := Statement(s3, t);
    assert s4.pc[t] == UnlockSignal(Ok);
    Wakes(start, s4, t, w);
    var s5 := Signaled(s4, t, Some(w));
    Unlocks(s5, t);
    Advances(start, s5, t);
    after := Statement(s5, t);
    assert after.pc == s.pc[w := LockWoken];
  }

  const IDLE_THREADS := State(Free, None, map[0 := Idle, 1 := Idle, 2 := Idle], {}, map[], false, false, false)

  /** `Intr` does run into sleepers of a free lock: two threads wait for the owner, which unlocks,
      wakes the first and interrupts before that one runs. The second is then asleep for good. */
  lemma {:induction false} IntrCanStrand() returns (s: State)
    ensures Reachable(s) && !s.aborted && 0 in s.pc && s.pc[0].IntrTest? && s.lock == Free && 2 in Sleepers(s)
  {
    hide CanReach;
    ReachesItself(IDLE_THREADS);
    s := TakesTheLock(IDLE_THREADS, IDLE_THREADS, 0);
    s := FallsAsleep(IDLE_THREADS, s, 1);
    s := FallsAsleep(IDLE_THREADS, s, 2);
    s := UnlocksFor(IDLE_THREADS, s, 0, 1);
    s := Enters(IDLE_THREADS, s, 0, Intr);
    assert Initial(IDLE_THREADS);
    ReachedFrom(IDLE_THREADS, s);
  }

  lemma ReachedFrom(start: State, s: State)
    requires Initial(start) && CanReach(start, s)
    ensures Reachable(s)
  {
  }

  lemma {:induction false} StartsWaiting(start: State, s: State, t: Tid) returns (after: State)
    requires CanReach(start, s) && !s.aborted && t in s.pc && s.pc[t].Idle? && s.mu.None? && t in s.owners && s.lock == Held
    requires Sleepers(s) == {} && forall u :: u in s.pc ==> !InReset(s.pc[u])
    ensures CanReach(start, after)
    ensures after == s.(lock := Free, owners := s.owners - {t}, pc := s.pc[t := UserAsleep(false)], last := after.last)
  {
    hide CanReach, Sleepers;
    var s2 := Enters(start, s, t, Wait(false));
    var s4 := GivesUp(start, s2, t);
    assert s4.pc == s.pc[t := WaitSignal(false)];
    NoNewSleeper(s, s4, t);
    after := SignalsNobody(start, s4, t);
    assert after.pc == s.pc[t := UserAsleep(false)];
  }

  lemma {:induction false} GivesUp(start: State, s: State, t: Tid) returns (after: State)
    requires CanReach(start, s) && !s.aborted && t in s.pc && s.pc[t] == WaitTest(false) && s.lock == Held
    ensures CanReach(start, after)
    ensures after == s.(lock := Free, owners := s.owners - {t}, pc := s.pc[t := WaitFree(false)][t := WaitSignal(false)])
  {
    hide CanReach, Sleepers;
    Then(start, s, Advance(t));
    var s1 := Do(s, Advance(t));
    Then(start, s1, Advance(t));
    after := Do(s1, Advance(t));
  }

  lemma {:induction false} NoNewSleeper(s: State, after: State, t: Tid)
    requires t in s.pc && after.pc == s.pc[t := WaitSignal(false)] && Sleepers(s) == {}
    ensures Sleepers(after) == {}
  {
    assert Sleepers(after) <= Sleepers(s);
  }

  lemma {:induction false} SignalsNobody(start: State, s: State, t: Tid) returns (after: State)
    requires CanReach(start, s) && !s.aborted && t in s.pc && s.pc[t] == WaitSignal(false) && Sleepers(s) == {}
    ensures CanReach(start, after)
    ensures after == s.(pc := s.pc[t := WaitSleep(false)][t := UserAsleep(false)], mu := None)
  {
    hide CanReach, Sleepers;
    Then(start, s, Signal(t, None));
    var s1 := Do(s, Signal(t, None));
    Then(start, s1, Advance(t));
    after := Do(s1, Advance(t));
  }

  /** The rest of an `Intr` that finds the lock free. */
  lemma {:induction false} Interrupts(start: State, s: State, t: Tid) returns (after: State)
    requires CanReach(start, s) && !s.aborted && t in s.pc && s.pc[t].IntrTest? && s.lock == Free && s.mu == Some(t)
    ensures CanReach(start, after)
    ensures after == s.(lock := Interrupted, pc := s.pc[t := Idle], mu := None, foundHeld := false, last := after.last)
  {
    hide CanReach, Statement;
    IntrTests(s, t);
    Advances(start, s, t);
    var s1 := Statement(s, t);
    IntrSets(s1, t);
    Advances(start, s1, t);
    var s2 := Statement(s1, t);
    IntrLeaves(s2, t);
    Advances(start, s2, t);
    after := Statement(s2, t);
    assert after.pc == s.pc[t := Idle];
  }

  /** A wait that ends while the lock is interrupted. */
  lemma {:induction false} WaitsInVain(start: State, s: State, u: Tid) returns (after: State)
    requires CanReach(start, s) && !s.aborted && u in s.pc && s.pc[u] == UserAsleep(false)
    requires s.lock == Interrupted && s.mu.None?
    ensures CanReach(start, after) && after.owners == s.owners && u in after.last && after.last[u] == (Wait(false), Ok)
  {
    hide CanReach, Sleepers;
    Then(start, s, UserWake(u, Ok));
    var s1 := Do(s, UserWake(u, Ok));
    Then(start, s1, Acquire(u));
    var s2 := Do(s1, Acquire(u));
    after := RetestsInVain(start, s2, u);
  }

  lemma {:induction false} RetestsInVain(start: State, s: State, u: Tid) returns (after: State)
    requires CanReach(start, s) && !s.aborted && u in s.pc && s.pc[u] == WaitRetest(Ok) && s.lock == Interrupted
    ensures CanReach(start, after) && after.owners == s.owners && u in after.last && after.last[u] == (Wait(false), Ok)
  {
    hide CanReach, Statement;
    WaitRetests(s, u);
    Advances(start, s, u);
    var s1 := Statement(s, u);
    WaitTakes(s1, u);
    Advances(start, s1, u);
    var s2 := Statement(s1, u);
    WaitLeaves(s2, u);
    Advances(start, s2, u);
    after := Statement(s2, u);
  }

  /** A wait does come to report success to a thread that has not got the lock back. */
  lemma {:induction false} WaitCanLoseTheLock() returns (s: State, t: Tid)
    ensures Reachable(s) && t in s.last && s.last[t] == (Wait(false), Ok) && t !in s.owners
  {
    hide CanReach;
    ReachesItself(IDLE_THREADS);
    s := TakesTheLock(IDLE_THREADS, IDLE_THREADS, 0);
    assert Sleepers(s) == {};
    s := StartsWaiting(IDLE_THREADS, s, 0);
    s := Enters(IDLE_THREADS, s, 1, Intr);
    s := Interrupts(IDLE_THREADS, s, 1);
    t := 0;
    s := WaitsInVain(IDLE_THREADS, s, t);
    assert Initial(IDLE_THREADS);
    ReachedFrom(IDLE_THREADS, s);
  }

  /** A lock that is free while threads sleep on it gets an owner: in runs without `Intr`, some woken
      thread has only to be scheduled to become it, and the sleepers stay for that owner to wake. */
  lemma {:induction false} WokenTakesTheLock(s: State) returns (w: Tid, after: State)
    requires Reachable(s) && !s.aborted && !s.sawIntr && s.mu.None? && s.lock == Free && Sleepers(s) != {}
    ensures CanReach(s, after) && w in s.pc && Woken(s.pc[w]) && w in after.owners && after.lock == Held
    ensures Sleepers(after) == Sleepers(s)
  {
    hide CanReach;
    NoLostWakeup(s);
    w :| w in s.pc && Woken(s.pc[w]);
    after := Takes(s, w);
    assert Sleepers(after) == Sleepers(s);
  }

  lemma Acquires(start: State, s: State, t: Tid)
    requires CanReach(start, s) && !s.aborted && s.mu.None? && t in s.pc && AfterAcquire(s.pc[t]) != s.pc[t]
    ensures CanReach(start, Goto(s, t, AfterAcquire(s.pc[t])).(mu := Some(t)))
  {
    hide CanReach, Statement;
    Then(start, s, Acquire(t));
  }

  lemma {:induction false} Takes(s: State, w: Tid) returns (after: State)
    requires !s.aborted && s.mu.None? && s.lock == Free && w in s.pc && Woken(s.pc[w])
    ensures CanReach(s, after) && after.lock == Held && w in after.owners
    ensures w in after.pc && after.pc == s.pc[w := after.pc[w]] && !Asleep(after.pc[w])
  {
    hide CanReach, Sleepers, Statement, Enabled;
    ReachesItself(s);
    Acquires(s, s, w);
    var s1 := Goto(s, w, AfterAcquire(s.pc[w])).(mu := Some(w));
    Advances(s, s1, w);
    var s2 := Statement(s1, w);
    if s1.pc[w].LockTest? {
      LockTests(s1, w);
      LockTakesFree(s2, w);
    } else {
      WaitRetests(s1, w);
      WaitTakes(s2, w);
    }
    Advances(s, s2, w);
    after := Statement(s2, w);
    assert after.pc == s.pc[w := after.pc[w]];
  }
}
