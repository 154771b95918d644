/** The interruptible mutex and condition variable: a lock that is free, held or interrupted, kept
    under a raw mutex and an internal condition variable, as a step relation over any number of
    threads. Every access to the lock's state is a step of its own. */
module IntrLock {
  import opened Util

  type Tid = nat

  datatype LockState = Free | Held | Interrupted

  datatype Status = Ok | InternalError | Busy | MutexPermission | MutexInterrupted | TimedOut

  datatype Call = Lock | TryLock | Unlock | Wait(timed: bool) | Intr | Reset

  /** Where a thread is. `...Enter` is before the raw mutex is taken, `...Asleep` and `...Woken` are
      inside a wait on the lock's internal condition variable, `User...` inside one on the caller's
      condition variable; at every other point but `Idle` the thread has the raw mutex. */
  datatype Pc =
    | Idle
    | LockEnter | LockTest | LockAsleep | LockWoken | LockTake | LockLeave(rv: Status)
    | TryEnter | TryTest | TryLeave(rv: Status)
    | UnlockEnter | UnlockTest | UnlockFree(rv: Status) | UnlockSignal(rv: Status) | UnlockLeave(rv: Status)
    | IntrEnter | IntrTest | IntrSet(wasHeld: bool) | IntrBroadcast | IntrLeave
    | ResetEnter | ResetTest | ResetFree | ResetLeave
    | WaitEnter(timed: bool) | WaitTest(timed: bool) | WaitFail(rv: Status)
    | WaitFree(timed: bool) | WaitSignal(timed: bool) | WaitSleep(timed: bool)
    | UserAsleep(timed: bool) | UserWoken(rv: Status)
    | WaitRetest(rv: Status) | WaitAsleep(rv: Status) | WaitWoken(rv: Status) | WaitTake(rv: Status) | WaitLeave(rv: Status)

  /** `mu` is the holder of the raw mutex; `owners` are the threads that own the lock, by having made
      it held and not having freed it since; `last` is what a thread's last finished call returned.
      `sawIntr` tells whether `Intr` has ever been called, `foundHeld` whether the call that made the
      lock interrupted had found it held. */
  datatype State = State(
    lock: LockState, mu: Option<Tid>, pc: map<Tid, Pc>, owners: set<Tid>,
    last: map<Tid, (Call, Status)>, sawIntr: bool, foundHeld: bool, aborted: bool)

  datatype Action =
    | Begin(t: Tid, call: Call)
    | Acquire(t: Tid)                  // the raw mutex, on entry or after a wake-up
    | Advance(t: Tid)                  // the next statement under the raw mutex
    | Signal(t: Tid, who: Option<Tid>) // a signal of the internal condition variable
    | Spurious(t: Tid)                 // a wake-up from it that nobody asked for
    | UserWake(t: Tid, rv: Status)     // any wake-up from the caller's condition variable, with any status

  predicate Asleep(p: Pc) {
    p.LockAsleep? || p.WaitAsleep?
  }

  predicate Woken(p: Pc) {
    p.LockWoken? || p.WaitWoken?
  }

  /** Holding the raw mutex. */
  predicate Inside(p: Pc) {
    match p
    case Idle | LockEnter | LockAsleep | LockWoken | TryEnter | UnlockEnter | IntrEnter | ResetEnter
       | WaitEnter(_) | UserAsleep(_) | UserWoken(_) | WaitAsleep(_) | WaitWoken(_) => false
    case _ => true
  }

  predicate InReset(p: Pc) {
    p.ResetEnter? || p.ResetTest? || p.ResetFree? || p.ResetLeave?
  }

  ghost function Sleepers(s: State): set<Tid> {
    set t | t in s.pc && Asleep(s.pc[t])
  }

  function Entry(c: Call): Pc {
    match c
    case Lock => LockEnter
    case TryLock => TryEnter
    case Unlock => UnlockEnter
    case Wait(timed) => WaitEnter(timed)
    case Intr => IntrEnter
    case Reset => ResetEnter
  }

  function AfterAcquire(p: Pc): Pc {
    match p
    case LockEnter => LockTest
    case LockWoken => LockTest
    case TryEnter => TryTest
    case UnlockEnter => UnlockTest
    case IntrEnter => IntrTest
    case ResetEnter => ResetTest
    case WaitEnter(timed) => WaitTest(timed)
    case UserWoken(rv) => WaitRetest(rv)
    case WaitWoken(rv) => WaitRetest(rv)
    case _ => p
  }

  function WakeUp(p: Pc): Pc {
    match p
    case LockAsleep => LockWoken
    case WaitAsleep(rv) => WaitWoken(rv)
    case _ => p
  }

  /** When a step may be taken. Only owners unlock or wait; `Reset` is called, and runs, only while
      no thread owns the lock or is inside another call. */
  ghost predicate Enabled(s: State, a: Action) {
    && !s.aborted
    && a.t in s.pc
    && match a
       case Begin(t, call) =>
         && s.pc[t].Idle?
         && (forall u :: u in s.pc ==> !InReset(s.pc[u]))
         && ((call.Unlock? || call.Wait?) ==> t in s.owners)
         && (call.Reset? ==> s.owners == {} && forall u :: u in s.pc ==> s.pc[u].Idle?)
       case Acquire(t) => s.mu.None? && AfterAcquire(s.pc[t]) != s.pc[t]
       case Advance(t) => Inside(s.pc[t]) && !s.pc[t].UnlockSignal? && !s.pc[t].WaitSignal?
       case Signal(t, who) =>
         && (s.pc[t].UnlockSignal? || s.pc[t].WaitSignal?)
         && (if who.Some? then who.value in Sleepers(s) else Sleepers(s) == {})
       case Spurious(t) => Asleep(s.pc[t])
       case UserWake(t, rv) => s.pc[t].UserAsleep?
  }

  ghost function Goto(s: State, t: Tid, p: Pc): State {
    s.(pc := s.pc[t := p])
  }

  /** Releases the raw mutex and goes on elsewhere. */
  ghost function Release(s: State, t: Tid, p: Pc): State {
    Goto(s, t, p).(mu := None)
  }

  ghost function Return(s: State, t: Tid, call: Call, rv: Status): State {
    Release(s, t, Idle).(last := s.last[t := (call, rv)])
  }

  /** Makes a free lock held; `t` owns it from here on. */
  ghost function TakeLock(s: State, t: Tid): State {
    s.(lock := Held, owners := s.owners + {t})
  }

  ghost function DropLock(s: State, t: Tid): State {
    s.(lock := Free, owners := s.owners - {t})
  }

  /** The statement at a thread's position. */
  ghost function Statement(s: State, t: Tid): State
    requires t in s.pc
  {
    match s.pc[t]
    case LockTest => if s.lock == Held then Release(s, t, LockAsleep) else Goto(s, t, LockTake)
    case LockTake =>
      if s.lock == Free then Goto(TakeLock(s, t), t, LockLeave(Ok))
      else Goto(s, t, LockLeave(if s.lock == Interrupted then MutexInterrupted else InternalError))
    case LockLeave(rv) => Return(s, t, Lock, rv)
    case TryTest =>
      (match s.lock
       case Free => Goto(TakeLock(s, t), t, TryLeave(Ok))
       case Held => Goto(s, t, TryLeave(Busy))
       case Interrupted => Goto(s, t, TryLeave(MutexInterrupted)))
    case TryLeave(rv) => Return(s, t, TryLock, rv)
    case UnlockTest => Goto(s, t, UnlockFree(if s.lock != Held then MutexPermission else Ok))
    case UnlockFree(rv) => Goto(DropLock(s, t), t, UnlockSignal(rv))
    case UnlockLeave(rv) => Return(s, t, Unlock, rv)
    case IntrTest =>
      Goto(s, t, IntrSet(s.lock == Held)).(foundHeld := if s.lock == Interrupted then s.foundHeld else s.lock == Held)
    case IntrSet(wasHeld) => Goto(s.(lock := Interrupted), t, if wasHeld then IntrBroadcast else IntrLeave)
    case IntrBroadcast => s.(pc := (map u | u in s.pc :: WakeUp(s.pc[u]))[t := IntrLeave])
    case IntrLeave => Return(s, t, Intr, Ok)
    case ResetTest => if s.lock != Interrupted then s.(aborted := true) else Goto(s, t, ResetFree)
    case ResetFree => Goto(s.(lock := Free), t, ResetLeave)
    case ResetLeave => Return(s, t, Reset, Ok)
    case WaitTest(timed) =>
      (match s.lock
       case Held => Goto(s, t, WaitFree(timed))
       case Free => Goto(s, t, WaitFail(MutexPermission))
       case Interrupted => Goto(s, t, WaitFail(InternalError)))
    case WaitFail(rv) => Return(s, t, Wait(false), rv)
    case WaitFree(timed) => Goto(DropLock(s, t), t, WaitSignal(timed))
    case WaitSleep(timed) => Release(s, t, UserAsleep(timed))
    case WaitRetest(rv) => if s.lock == Held then Release(s, t, WaitAsleep(rv)) else Goto(s, t, WaitTake(rv))
    case WaitTake(rv) => if s.lock == Free then Goto(TakeLock(s, t), t, WaitLeave(rv)) else Goto(s, t, WaitLeave(rv))
    case WaitLeave(rv) => Return(s, t, Wait(false), rv)
    case _ => s
  }

  ghost function Signaled(s: State, t: Tid, who: Option<Tid>): State
    requires t in s.pc && (s.pc[t].UnlockSignal? || s.pc[t].WaitSignal?) && (who.Some? ==> who.value in s.pc)
  {
    var next := if s.pc[t].UnlockSignal? then UnlockLeave(s.pc[t].rv) else WaitSleep(s.pc[t].timed);
    var woken := if who.Some? then Goto(s, who.value, WakeUp(s.pc[who.value])) else s;
    Goto(woken, t, next)
  }

  ghost function Do(s: State, a: Action): State
    requires Enabled(s, a)
  {
    match a
    case Begin(t, call) => Goto(s, t, Entry(call)).(last := s.last - {t}, sawIntr := s.sawIntr || call.Intr?)
    case Acquire(t) => Goto(s, t, AfterAcquire(s.pc[t])).(mu := Some(t))
    case Advance(t) => Statement(s, t)
    case Signal(t, who) =>
      Signaled(s, t, who)
    case Spurious(t) => Goto(s, t, WakeUp(s.pc[t]))
    case UserWake(t, rv) => Goto(s, t, UserWoken(rv))
  }

  ghost predicate Initial(s: State) {
    && s.lock == Free && s.mu == None && s.owners == {} && s.last == map[]
    && !s.sawIntr && !s.foundHeld && !s.aborted
    && forall t :: t in s.pc ==> s.pc[t].Idle?
  }

  ghost predicate CanRun(s: State, run: seq<Action>)
    decreases |run|
  {
    run == [] || (Enabled(s, run[0]) && CanRun(Do(s, run[0]), run[1..]))
  }

  ghost function AfterRun(s: State, run: seq<Action>): State
    requires CanRun(s, run)
    decreases |run|
  {
    if run == [] then s else AfterRun(Do(s, run[0]), run[1..])
  }

  ghost predicate Reachable(s: State) {
    exists start, run :: Initial(start) && CanRun(start, run) && AfterRun(start, run) == s
  }

  // ----- Exclusion -----

  /** At most one owner; a free lock has none, a held lock has one. */
  ghost predicate Exclusive(s: State) {
    && (forall t, u :: t in s.owners && u in s.owners ==> t == u)
    && (s.lock == Free ==> s.owners == {})
    && (s.lock == Held ==> s.owners != {})
  }

  /** What holds of one thread. */
  ghost predicate ThreadOk(s: State, t: Tid)
    requires t in s.pc
  {
    && (Inside(s.pc[t]) <==> s.mu == Some(t))
    && match s.pc[t]
       case LockTake => s.lock != Held
       case LockLeave(rv) => rv == Ok ==> t in s.owners
       case TryLeave(rv) => rv == Ok ==> t in s.owners
       case UnlockEnter => t in s.owners
       case UnlockTest => t in s.owners
       case UnlockFree(_) => t in s.owners
       case UnlockSignal(_) => t !in s.owners
       case UnlockLeave(_) => t !in s.owners
       case WaitEnter(_) => t in s.owners
       case WaitTest(_) => t in s.owners
       case WaitFree(_) => t in s.owners && s.lock == Held
       case WaitFail(rv) => t in s.owners && rv == InternalError
       case WaitSignal(_) => t !in s.owners
       case WaitSleep(_) => t !in s.owners
       case UserAsleep(_) => t !in s.owners
       case UserWoken(_) => t !in s.owners
       case WaitRetest(_) => t !in s.owners
       case WaitAsleep(_) => t !in s.owners
       case WaitWoken(_) => t !in s.owners
       case WaitTake(_) => s.lock != Held && t !in s.owners
       case WaitLeave(_) => t in s.owners || s.sawIntr
       case IntrEnter => s.sawIntr
       case IntrTest => s.sawIntr
       case IntrSet(wasHeld) => s.sawIntr && (wasHeld <==> s.lock == Held)
       case IntrBroadcast => s.sawIntr && s.lock == Interrupted
       case ResetEnter => s.owners == {} && OthersIdle(s, t)
       case ResetTest => s.owners == {} && OthersIdle(s, t)
       case ResetFree => s.owners == {} && OthersIdle(s, t)
       case ResetLeave => s.owners == {} && OthersIdle(s, t)
       case _ => true
  }

  ghost predicate OthersIdle(s: State, t: Tid) {
    forall u :: u in s.pc && u != t ==> s.pc[u].Idle?
  }

  /** What a thread may conclude from the value its last call returned. */
  ghost predicate ResultOk(s: State, t: Tid)
    requires t in s.last
  {
    var (call, rv) := s.last[t];
    && ((call.Lock? || call.TryLock?) && rv == Ok ==> t in s.owners)
    && (call.Unlock? ==> t !in s.owners)
    && (call.Wait? && !s.sawIntr ==> t in s.owners)
  }

  ghost predicate Invariant(s: State) {
    && Exclusive(s)
    && (s.mu.Some? ==> s.mu.value in s.pc)
    && s.owners <= s.pc.Keys
    && (s.lock == Interrupted ==> s.sawIntr)
    && (forall t :: t in s.pc ==> ThreadOk(s, t))
    && (forall t :: t in s.last ==> t in s.pc && s.pc[t].Idle? && ResultOk(s, t))
  }

  /** A step of `t` as the other threads see it: it may change what the raw mutex protects only while
      it holds that, changes nobody's ownership but its own, and moves others only by waking them. */
  ghost predicate StepOf(s: State, after: State, t: Tid) {
    && t in s.pc && after.pc.Keys == s.pc.Keys
    && (forall u :: u in s.pc && u != t ==>
          && (after.pc[u] == s.pc[u] || (Asleep(s.pc[u]) && after.pc[u] == WakeUp(s.pc[u])))
          && (u in after.owners <==> u in s.owners)
          && !InReset(s.pc[u]))
    && after.owners <= s.owners + {t}
    && (after.lock == s.lock || s.mu == Some(t))
    && (after.mu == s.mu || (s.mu.None? && after.mu == Some(t)) || (s.mu == Some(t) && after.mu.None?))
    && (s.sawIntr ==> after.sawIntr)
    && (forall u :: u in after.last && u != t ==> u in s.last && after.last[u] == s.last[u])
  }

  lemma {:induction false} OthersKept(s: State, after: State, t: Tid, u: Tid)
    requires Invariant(s) && StepOf(s, after, t) && u in s.pc && u != t
    ensures ThreadOk(after, u)
    ensures u in after.last ==> after.pc[u].Idle? && ResultOk(after, u)
  {
    assert ThreadOk(s, u);
  }

  lemma {:induction false} KeptByStepOf(s: State, after: State, t: Tid)
    requires Invariant(s) && StepOf(s, after, t)
    requires Exclusive(after) && (after.lock == Interrupted ==> after.sawIntr) && ThreadOk(after, t)
    requires t in after.last ==> after.pc[t].Idle? && ResultOk(after, t)
    ensures Invariant(after)
  {
    forall u | u in after.pc ensures ThreadOk(after, u) {
      if u != t {
        OthersKept(s, after, t, u);
      }
    }
    forall u | u in after.last ensures u in after.pc && after.pc[u].Idle? && ResultOk(after, u) {
      if u != t {
        OthersKept(s, after, t, u);
      }
    }
  }

  /** No thread resets while another is on its way. */
  lemma {:induction false} NobodyResets(s: State, t: Tid)
    requires Invariant(s) && t in s.pc && !s.pc[t].Idle?
    ensures forall u :: u in s.pc && u != t ==> !InReset(s.pc[u])
  {
    forall u | u in s.pc && u != t ensures !InReset(s.pc[u]) {
      assert ThreadOk(s, u);
    }
  }

  lemma AtThread(s: State, t: Tid)
    requires Invariant(s) && t in s.pc
    ensures ThreadOk(s, t) && Exclusive(s) && (s.lock == Interrupted ==> s.sawIntr)
    ensures t in s.last ==> s.pc[t].Idle?
  {
  }

  // ----- Single statements -----

  lemma IntrTests(s: State, t: Tid)
    requires t in s.pc && s.pc[t].IntrTest?
    ensures Statement(s, t)
         == Goto(s, t, IntrSet(s.lock == Held)).(foundHeld := if s.lock == Interrupted then s.foundHeld else s.lock == Held)
  {
  }

  lemma IntrSets(s: State, t: Tid)
    requires t in s.pc && s.pc[t].IntrSet?
    ensures Statement(s, t) == Goto(s.(lock := Interrupted), t, if s.pc[t].wasHeld then IntrBroadcast else IntrLeave)
  {
  }

  lemma IntrBroadcasts(s: State, t: Tid)
    requires t in s.pc && s.pc[t].IntrBroadcast?
    ensures var after := Statement(s, t);
            && after == s.(pc := after.pc) && after.pc.Keys == s.pc.Keys
            && forall u :: u in s.pc ==> after.pc[u] == if u == t then IntrLeave else WakeUp(s.pc[u])
  {
  }

  lemma IntrLeaves(s: State, t: Tid)
    requires t in s.pc && s.pc[t].IntrLeave?
    ensures Statement(s, t) == Return(s, t, Intr, Ok)
  {
  }

  lemma Resets(s: State, t: Tid)
    requires t in s.pc && (s.pc[t].ResetTest? || s.pc[t].ResetFree?)
    ensures Statement(s, t)
         == if s.pc[t].ResetFree? then Goto(s.(lock := Free), t, ResetLeave)
            else if s.lock != Interrupted then s.(aborted := true) else Goto(s, t, ResetFree)
  {
  }

  lemma LockTests(s: State, t: Tid)
    requires t in s.pc && s.pc[t].LockTest?
    ensures Statement(s, t) == if s.lock == Held then Release(s, t, LockAsleep) else Goto(s, t, LockTake)
  {
  }

  lemma LockTakesFree(s: State, t: Tid)
    requires t in s.pc && s.pc[t].LockTake? && s.lock == Free
    ensures Statement(s, t) == Goto(TakeLock(s, t), t, LockLeave(Ok))
  {
  }

  lemma LockLeaves(s: State, t: Tid)
    requires t in s.pc && s.pc[t].LockLeave?
    ensures Statement(s, t) == Return(s, t, Lock, s.pc[t].rv)
  {
  }

  lemma Unlocks(s: State, t: Tid)
    requires t in s.pc
    ensures s.pc[t].UnlockTest? ==> Statement(s, t) == Goto(s, t, UnlockFree(if s.lock != Held then MutexPermission else Ok))
    ensures s.pc[t].UnlockFree? ==> Statement(s, t) == Goto(DropLock(s, t), t, UnlockSignal(s.pc[t].rv))
    ensures s.pc[t].UnlockLeave? ==> Statement(s, t) == Return(s, t, Unlock, s.pc[t].rv)
  {
  }

  lemma WaitRetests(s: State, t: Tid)
    requires t in s.pc && s.pc[t].WaitRetest?
    ensures Statement(s, t)
         == if s.lock == Held then Release(s, t, WaitAsleep(s.pc[t].rv)) else Goto(s, t, WaitTake(s.pc[t].rv))
  {
  }

  lemma WaitTakes(s: State, t: Tid)
    requires t in s.pc && s.pc[t].WaitTake?
    ensures Statement(s, t) == Goto(if s.lock == Free then TakeLock(s, t) else s, t, WaitLeave(s.pc[t].rv))
  {
  }

  lemma WaitLeaves(s: State, t: Tid)
    requires t in s.pc && s.pc[t].WaitLeave?
    ensures Statement(s, t) == Return(s, t, Wait(false), s.pc[t].rv)
  {
  }

  // The kinds of move a statement makes; each says what the new position asks for.

  lemma {:induction false} GotoKeeps(s: State, t: Tid, p: Pc)
    requires Invariant(s) && t in s.pc && Inside(s.pc[t]) && t !in s.last
    requires Inside(p) && ThreadOk(Goto(s, t, p), t)
    ensures Invariant(Goto(s, t, p))
  {
    hide Statement, CanRun, Sleepers, Invariant;
    NobodyResets(s, t);
    AtThread(s, t);
    KeptByStepOf(s, Goto(s, t, p), t);
  }

  lemma {:induction false} ReleaseKeeps(s: State, t: Tid, p: Pc)
    requires Invariant(s) && t in s.pc && Inside(s.pc[t]) && t !in s.last
    requires p.LockAsleep? || ((p.WaitAsleep? || p.UserAsleep?) && t !in s.owners)
    ensures Invariant(Release(s, t, p))
  {
    hide Statement, CanRun, Sleepers, Invariant;
    NobodyResets(s, t);
    AtThread(s, t);
    KeptByStepOf(s, Release(s, t, p), t);
  }

  lemma {:induction false} ReturnKeeps(s: State, t: Tid, call: Call, rv: Status)
    requires Invariant(s) && t in s.pc && Inside(s.pc[t])
    requires ResultOk(Return(s, t, call, rv), t)
    ensures Invariant(Return(s, t, call, rv))
  {
    hide Statement, CanRun, Sleepers, Invariant;
    NobodyResets(s, t);
    AtThread(s, t);
    KeptByStepOf(s, Return(s, t, call, rv), t);
  }

  lemma {:induction false} TakeKeeps(s: State, t: Tid, p: Pc)
    requires Invariant(s) && t in s.pc && Inside(s.pc[t]) && t !in s.last && s.lock == Free
    requires Inside(p) && ThreadOk(Goto(TakeLock(s, t), t, p), t)
    ensures Invariant(Goto(TakeLock(s, t), t, p))
  {
    hide Statement, CanRun, Sleepers, Invariant;
    NobodyResets(s, t);
    AtThread(s, t);
    KeptByStepOf(s, Goto(TakeLock(s, t), t, p), t);
  }

  lemma {:induction false} DropKeeps(s: State, t: Tid, p: Pc)
    requires Invariant(s) && t in s.pc && Inside(s.pc[t]) && t !in s.last && t in s.owners
    requires Inside(p) && ThreadOk(Goto(DropLock(s, t), t, p), t)
    ensures Invariant(Goto(DropLock(s, t), t, p))
  {
    hide Statement, CanRun, Sleepers, Invariant;
    NobodyResets(s, t);
    AtThread(s, t);
    KeptByStepOf(s, Goto(DropLock(s, t), t, p), t);
  }

  lemma {:induction false} IntrTestKeeps(s: State, t: Tid)
    requires Invariant(s) && t in s.pc && t !in s.last && s.pc[t].IntrTest?
    ensures Invariant(Statement(s, t))
  {
    IntrTests(s, t);
    hide Statement, CanRun, Sleepers, Invariant;
    NobodyResets(s, t);
    AtThread(s, t);
    KeptByStepOf(s, Statement(s, t), t);
  }

  lemma {:induction false} IntrSetKeeps(s: State, t: Tid)
    requires Invariant(s) && t in s.pc && t !in s.last && s.pc[t].IntrSet?
    ensures Invariant(Statement(s, t))
  {
    IntrSets(s, t);
    hide Statement, CanRun, Sleepers, Invariant;
    NobodyResets(s, t);
    AtThread(s, t);
    KeptByStepOf(s, Statement(s, t), t);
  }

  lemma {:induction false} BroadcastIsStepOf(s: State, t: Tid)
    requires Invariant(s) && t in s.pc && s.pc[t].IntrBroadcast?
    ensures StepOf(s, Statement(s, t), t)
  {
    IntrBroadcasts(s, t);
    hide Statement, CanRun, Sleepers, Invariant, ThreadOk;
    NobodyResets(s, t);
  }

  lemma {:induction false} IntrBroadcastKeeps(s: State, t: Tid)
    requires Invariant(s) && t in s.pc && t !in s.last && s.pc[t].IntrBroadcast?
    ensures Invariant(Statement(s, t))
  {
    BroadcastIsStepOf(s, t);
    IntrBroadcasts(s, t);
    hide Statement, CanRun, Sleepers, Invariant, StepOf;
    AtThread(s, t);
    KeptByStepOf(s, Statement(s, t), t);
  }

  lemma {:induction false} ResetTestKeeps(s: State, t: Tid)
    requires Invariant(s) && t in s.pc && t !in s.last && s.pc[t].ResetTest?
    ensures Invariant(Statement(s, t))
  {
    Resets(s, t);
    hide Statement, CanRun, Sleepers;
    if s.lock == Interrupted {
      hide Invariant;
      AtThread(s, t);
      GotoKeeps(s, t, ResetFree);
    } else {
      AbortKeeps(s);
    }
  }

  lemma AbortKeeps(s: State)
    requires Invariant(s)
    ensures Invariant(s.(aborted := true))
  {
  }

  lemma {:induction false} ResetFreeKeeps(s: State, t: Tid)
    requires Invariant(s) && t in s.pc && t !in s.last && s.pc[t].ResetFree?
    ensures Invariant(Statement(s, t))
  {
    Resets(s, t);
    hide Statement, CanRun, Sleepers, Invariant;
    AtThread(s, t);
    NobodyResets(s, t);
    KeptByStepOf(s, Statement(s, t), t);
  }

  lemma {:induction false} WaitStatementKeeps(s: State, t: Tid)
    requires Invariant(s) && t in s.pc && Inside(s.pc[t]) && t !in s.last
    requires s.pc[t].WaitTest? || s.pc[t].WaitFree? || s.pc[t].WaitSleep?
    ensures Invariant(Statement(s, t))
  {
    hide StepOf, Exclusive, Invariant;
    AtThread(s, t);
    FreeHasNoOwner(s);
    match s.pc[t] {
      case WaitTest(timed) =>
        match s.lock {
          case Held => GotoKeeps(s, t, WaitFree(timed));
          case Free => assert false;
          case Interrupted => GotoKeeps(s, t, WaitFail(InternalError));
        }
      case WaitFree(timed) => DropKeeps(s, t, WaitSignal(timed));
      case WaitSleep(timed) => ReleaseKeeps(s, t, UserAsleep(timed));
    }
  }

  lemma {:induction false} RetestKeeps(s: State, t: Tid)
    requires Invariant(s) && t in s.pc && t !in s.last && s.pc[t].WaitRetest?
    ensures Invariant(Statement(s, t))
  {
    WaitRetests(s, t);
    hide StepOf, Exclusive, Invariant, Statement;
    AtThread(s, t);
    if s.lock == Held {
      ReleaseKeeps(s, t, WaitAsleep(s.pc[t].rv));
    } else {
      GotoKeeps(s, t, WaitTake(s.pc[t].rv));
    }
  }

  lemma {:induction false} WaitTakeKeeps(s: State, t: Tid)
    requires Invariant(s) && t in s.pc && t !in s.last && s.pc[t].WaitTake?
    ensures Invariant(Statement(s, t))
  {
    WaitTakes(s, t);
    hide StepOf, Exclusive, Invariant, Statement;
    AtThread(s, t);
    if s.lock == Free {
      TakeKeeps(s, t, WaitLeave(s.pc[t].rv));
    } else {
      GotoKeeps(s, t, WaitLeave(s.pc[t].rv));
    }
  }

  lemma FreeHasNoOwner(s: State)
    requires Exclusive(s)
    ensures s.lock == Free ==> forall t :: t !in s.owners
  {
  }

  lemma {:induction false} LockStatementKeeps(s: State, t: Tid)
    requires Invariant(s) && t in s.pc && Inside(s.pc[t]) && t !in s.last
    requires s.pc[t].LockTest? || s.pc[t].LockTake? || s.pc[t].TryTest? || s.pc[t].UnlockTest? || s.pc[t].UnlockFree?
    ensures Invariant(Statement(s, t))
  {
    hide StepOf, Exclusive, Invariant;
    AtThread(s, t);
    match s.pc[t] {
      case LockTest =>
        if s.lock == Held { ReleaseKeeps(s, t, LockAsleep); } else { GotoKeeps(s, t, LockTake); }
      case LockTake =>
        if s.lock == Free {
          TakeKeeps(s, t, LockLeave(Ok));
        } else {
          GotoKeeps(s, t, LockLeave(MutexInterrupted));
        }
      case TryTest =>
        match s.lock {
          case Free => TakeKeeps(s, t, TryLeave(Ok));
          case Held => GotoKeeps(s, t, TryLeave(Busy));
          case Interrupted => GotoKeeps(s, t, TryLeave(MutexInterrupted));
        }
      case UnlockTest => GotoKeeps(s, t, UnlockFree(if s.lock != Held then MutexPermission else Ok));
      case UnlockFree(rv) => DropKeeps(s, t, UnlockSignal(rv));
    }
  }

  lemma {:induction false} LeaveKeeps(s: State, t: Tid)
    requires Invariant(s) && t in s.pc
    requires var p := s.pc[t];
             p.LockLeave? || p.TryLeave? || p.UnlockLeave? || p.IntrLeave? || p.ResetLeave? || p.WaitFail? || p.WaitLeave?
    ensures Invariant(Statement(s, t))
  {
    hide StepOf, Exclusive, Invariant;
    AtThread(s, t);
    match s.pc[t] {
      case LockLeave(rv) => ReturnKeeps(s, t, Lock, rv);
      case TryLeave(rv) => ReturnKeeps(s, t, TryLock, rv);
      case UnlockLeave(rv) => ReturnKeeps(s, t, Unlock, rv);
      case IntrLeave => ReturnKeeps(s, t, Intr, Ok);
      case ResetLeave => ReturnKeeps(s, t, Reset, Ok);
      case WaitFail(rv) => ReturnKeeps(s, t, Wait(false), rv);
      case WaitLeave(rv) => ReturnKeeps(s, t, Wait(false), rv);
    }
  }

  lemma {:induction false} StatementKeepsInvariant(s: State, t: Tid)
    requires Invariant(s) && Enabled(s, Advance(t))
    ensures Invariant(Statement(s, t))
  {
    hide StepOf, Exclusive, ThreadOk, ResultOk, Statement;
    assert t !in s.last;
    match s.pc[t] {
      case LockTest => LockStatementKeeps(s, t);
      case LockTake => LockStatementKeeps(s, t);
      case TryTest => LockStatementKeeps(s, t);
      case UnlockTest => LockStatementKeeps(s, t);
      case UnlockFree(_) => LockStatementKeeps(s, t);
      case IntrTest => IntrTestKeeps(s, t);
      case IntrSet(_) => IntrSetKeeps(s, t);
      case IntrBroadcast => IntrBroadcastKeeps(s, t);
      case ResetTest => ResetTestKeeps(s, t);
      case ResetFree => ResetFreeKeeps(s, t);
      case WaitTest(_) => WaitStatementKeeps(s, t);
      case WaitFree(_) => WaitStatementKeeps(s, t);
      case WaitSleep(_) => WaitStatementKeeps(s, t);
      case WaitRetest(_) => RetestKeeps(s, t);
      case WaitTake(_) => WaitTakeKeeps(s, t);
      case _ => LeaveKeeps(s, t);
    }
  }

  lemma {:induction false} BeginKeeps(s: State, t: Tid, call: Call)
    requires Invariant(s) && Enabled(s, Begin(t, call))
    ensures Invariant(Do(s, Begin(t, call)))
  {
    hide Statement, CanRun, Sleepers, Invariant;
    AtThread(s, t);
    KeptByStepOf(s, Do(s, Begin(t, call)), t);
  }

  lemma {:induction false} AcquireKeeps(s: State, t: Tid)
    requires Invariant(s) && Enabled(s, Acquire(t))
    ensures Invariant(Do(s, Acquire(t)))
  {
    hide Statement, CanRun, Sleepers, Invariant;
    NobodyResets(s, t);
    AtThread(s, t);
    KeptByStepOf(s, Do(s, Acquire(t)), t);
  }

  lemma {:induction false} SignalIsStepOf(s: State, t: Tid, who: Option<Tid>)
    requires Invariant(s) && t in s.pc && (s.pc[t].UnlockSignal? || s.pc[t].WaitSignal?)
    requires who.Some? ==> who.value in s.pc && Asleep(s.pc[who.value])
    ensures StepOf(s, Signaled(s, t, who), t)
  {
    hide Statement, CanRun, Invariant, ThreadOk;
    NobodyResets(s, t);
  }

  lemma {:induction false} SignalKeeps(s: State, t: Tid, who: Option<Tid>)
    requires Invariant(s) && Enabled(s, Signal(t, who))
    ensures Invariant(Do(s, Signal(t, who)))
  {
    hide Statement, CanRun, Invariant, StepOf;
    assert who.Some? ==> who.value in s.pc && Asleep(s.pc[who.value]);
    hide Sleepers, Enabled;
    AtThread(s, t);
    SignalIsStepOf(s, t, who);
    KeptByStepOf(s, Signaled(s, t, who), t);
  }

  lemma {:induction false} SpuriousKeeps(s: State, t: Tid)
    requires Invariant(s) && Enabled(s, Spurious(t))
    ensures Invariant(Do(s, Spurious(t)))
  {
    hide Statement, CanRun, Sleepers, Invariant;
    NobodyResets(s, t);
    AtThread(s, t);
    KeptByStepOf(s, Do(s, Spurious(t)), t);
  }

  lemma {:induction false} UserWakeKeeps(s: State, t: Tid, rv: Status)
    requires Invariant(s) && Enabled(s, UserWake(t, rv))
    ensures Invariant(Do(s, UserWake(t, rv)))
  {
    hide Statement, CanRun, Sleepers, Invariant;
    NobodyResets(s, t);
    AtThread(s, t);
    KeptByStepOf(s, Do(s, UserWake(t, rv)), t);
  }

  lemma {:induction false} StepKeepsInvariant(s: State, a: Action)
    requires Invariant(s) && Enabled(s, a)
    ensures Invariant(Do(s, a))
  {
    hide Invariant;
    match a {
      case Begin(t, call) => BeginKeeps(s, t, call);
      case Acquire(t) => AcquireKeeps(s, t);
      case Advance(t) => StatementKeepsInvariant(s, t);
      case Signal(t, who) => SignalKeeps(s, t, who);
      case Spurious(t) => SpuriousKeeps(s, t);
      case UserWake(t, rv) => UserWakeKeeps(s, t, rv);
    }
  }

  // ----- Whole runs -----

  ghost predicate Leads(s: State, run: seq<Action>, after: State) {
    CanRun(s, run) && AfterRun(s, run) == after
  }

  ghost predicate CanReach(s: State, after: State) {
    exists run :: Leads(s, run, after)
  }

  lemma {:induction false} RunKeepsInvariant(s: State, run: seq<Action>)
    requires Invariant(s) && CanRun(s, run)
    ensures Invariant(AfterRun(s, run))
    decreases |run|
  {
    hide Invariant;
    if run != [] {
      StepKeepsInvariant(s, run[0]);
      RunKeepsInvariant(Do(s, run[0]), run[1..]);
    }
  }

  /** Whatever the interleaving: one owner at most, none when free, one when held; a call that
      reports the lock taken has it, an unlocker does not, and unless interrupted a waiter has. */
  lemma {:induction false} ReachableIsExclusive(s: State)
    requires Reachable(s)
    ensures Exclusive(s)
    ensures forall t :: t in s.last ==> ResultOk(s, t)
    ensures forall t :: t in s.pc && s.pc[t].WaitTest? ==> s.lock != Free
    ensures forall t, u :: t in s.pc && u in s.pc && Inside(s.pc[t]) && Inside(s.pc[u]) ==> t == u
  {
    ReachableKeepsInvariant(s);
    forall t | t in s.pc ensures ThreadOk(s, t) {
      AtThread(s, t);
    }
  }

  lemma {:induction false} ReachableKeepsInvariant(s: State)
    requires Reachable(s)
    ensures Invariant(s)
  {
    var start, run :| Initial(start) && CanRun(start, run) && AfterRun(start, run) == s;
    RunKeepsInvariant(start, run);
  }
}
