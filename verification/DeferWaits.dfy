/** When a pending group is sure not to be started before a pending function has been called, whatever
    the functions that run in between defer. */
module DeferWaits {
  import opened Defer

  /** Pending groups that wait for one of themselves, each but `c`: none of them can be started before `c`. */
  ghost predicate Holds(groups: Groups, names: set<Name>, c: Name) {
    names <= groups.Keys && forall n :: n in names && n != c ==> groups[n].after * names != {}
  }

  /** `b` waits for `c`, directly or through pending groups, or is caught in a cycle of them. */
  ghost predicate HeldBack(groups: Groups, b: Name, c: Name) {
    exists names :: Holds(groups, names, c) && b in names
  }

  /** No run from here starts `b` before it has called `t`. */
  ghost predicate NeverOvertaken(s: State, b: Name, t: Task) {
    forall run :: CanRun(s, run) && Start(b) !in run && Enabled(AfterRun(s, run), Start(b)) ==> t in AfterRun(s, run).called
  }

  // ----- Held back means not overtaken -----

  /** `t` still holds back `b`, or is about to be called, or has been. */
  ghost predicate InTime(s: State, names: set<Name>, b: Name, c: Name, t: Task) {
    || (Holds(s.groups, names, c) && b in names && c in s.groups && t in s.groups[c].funcs)
    || t in s.queue
    || t in s.called
  }

  lemma {:induction false} DefersInTime(s: State, call: Call, names: set<Name>, b: Name, c: Name, t: Task)
    requires InTime(s, names, b, c, t)
    ensures InTime(Defers(s, call), names, b, c, t)
  {
    hide Deferred;
    var after := Defers(s, call).groups;
    if Holds(s.groups, names, c) && b in names && c in s.groups && t in s.groups[c].funcs {
      DeferredGroup(s.groups, s.context, call, |s.deferred|, c);
      forall n | n in names ensures n in after && (n != c ==> after[n].after * names != {}) {
        DeferredGroup(s.groups, s.context, call, |s.deferred|, n);
        assert s.groups[n].after <= after[n].after;
      }
    }
  }

  lemma {:induction false} StartInTime(s: State, n: Name, names: set<Name>, b: Name, c: Name, t: Task)
    requires InTime(s, names, b, c, t) && Enabled(s, Start(n))
    ensures InTime(Do(s, Start(n)), names, b, c, t)
  {
    if n != c && Holds(s.groups, names, c) {
      assert n !in names;
    }
  }

  lemma {:induction false} StepInTime(s: State, a: Action, names: set<Name>, b: Name, c: Name, t: Task)
    requires InTime(s, names, b, c, t) && Enabled(s, a)
    ensures InTime(Do(s, a), names, b, c, t)
  {
    match a {
      case Collect(call) => DefersInTime(s, call, names, b, c, t);
      case Request => DefersInTime(s, s.script[0], names, b, c, t);
      case Start(n) => StartInTime(s, n, names, b, c, t);
      case _ =>
    }
  }

  lemma {:induction false} RunInTime(s: State, run: seq<Action>, names: set<Name>, b: Name, c: Name, t: Task)
    requires InTime(s, names, b, c, t) && CanRun(s, run)
    ensures InTime(AfterRun(s, run), names, b, c, t)
    decreases |run|
  {
    hide InTime;
    if run != [] {
      StepInTime(s, run[0], names, b, c, t);
      RunInTime(Do(s, run[0]), run[1..], names, b, c, t);
    }
  }

  // ----- Not held back means it can be overtaken -----

  /** The functions of a group can all be called and defer nothing. */
  lemma {:induction false} CallsThrough(s: State) returns (run: seq<Action>)
    requires s.stage == Executing && s.script == []
    ensures CanRun(s, run) && forall a :: a in run ==> a == Invoke([])
    ensures var end := AfterRun(s, run); Choosing(end) && end.groups == s.groups
    decreases |s.queue|
  {
    if s.queue == [] {
      run := [];
    } else {
      var a := Invoke([]);
      var rest := CallsThrough(Do(s, a));
      run := [a] + rest;
      assert run[1..] == rest;
    }
  }

  lemma {:induction false} TakesOut(s: State, n: Name) returns (run: seq<Action>)
    requires Enabled(s, Start(n))
    ensures CanRun(s, run) && forall a :: a in run ==> a == Start(n) || a == Invoke([])
    ensures var end := AfterRun(s, run); Choosing(end) && end.groups == s.groups - {n}
  {
    var a := Start(n);
    var rest := CallsThrough(Do(s, a));
    run := [a] + rest;
    assert run[1..] == rest;
  }

  lemma {:induction false} NobodyReadyHolds(groups: Groups, c: Name)
    requires forall n :: n in groups && n != c ==> !Ready(groups, n)
    ensures Holds(groups, groups.Keys, c)
  {
    forall n | n in groups && n != c ensures groups[n].after * groups.Keys != {} {
      assert !Ready(groups, n);
      var m :| m in groups[n].after && m in groups.Keys;
      assert m in groups[n].after * groups.Keys;
    }
  }

  /** Some ready group is not `c` while `b` is not held back by it. */
  lemma {:induction false} ReadyApart(groups: Groups, b: Name, c: Name) returns (n: Name)
    requires b in groups && !HeldBack(groups, b, c)
    ensures Ready(groups, n) && n != c
  {
    if forall n :: n in groups && n != c ==> !Ready(groups, n) {
      NobodyReadyHolds(groups, c);
    }
    n :| n in groups && n != c && Ready(groups, n);
  }

  lemma {:induction false} HeldBackInMore(groups: Groups, b: Name, c: Name, n: Name)
    requires HeldBack(groups - {n}, b, c)
    ensures HeldBack(groups, b, c)
  {
    var names :| Holds(groups - {n}, names, c) && b in names;
    assert Holds(groups, names, c);
  }

  /** A group that is not held back can be started with `c` still pending. */
  lemma {:induction false} CanOvertake(s: State, b: Name, c: Name) returns (run: seq<Action>)
    requires Choosing(s) && b in s.groups && c in s.groups && b != c && !HeldBack(s.groups, b, c)
    ensures CanRun(s, run) && Start(b) !in run
    ensures var end := AfterRun(s, run);
            Enabled(end, Start(b)) && c in end.groups && end.groups[c] == s.groups[c]
    decreases |s.groups|
  {
    hide HeldBack;
    if Ready(s.groups, b) {
      run := [];
    } else {
      var n := ReadyApart(s.groups, b, c);
      var one := TakesOut(s, n);
      if HeldBack(s.groups - {n}, b, c) {
        HeldBackInMore(s.groups, b, c, n);
      }
      var two := CanOvertake(AfterRun(s, one), b, c);
      RunsJoin(s, one, two);
      run := one + two;
    }
  }

  lemma {:induction false} OneOfEach(tasks: seq<Task>, t: Task)
    requires forall i :: 0 <= i < |tasks| ==> tasks[i].id == i
    ensures multiset(tasks)[t] <= 1
    decreases |tasks|
  {
    if tasks != [] {
      var front, last := tasks[..|tasks| - 1], tasks[|tasks| - 1];
      assert tasks == front + [last];
      OneOfEach(front, t);
      if t == last {
        assert t !in front;
        assert multiset(front)[t] == 0;
      }
    }
  }

  /** A pending function has not been called yet. */
  lemma {:induction false} PendingIsNotCalled(s: State, c: Name, t: Task)
    requires Invariant(s) && c in s.groups && t in s.groups[c].funcs
    ensures t !in s.called
  {
    assert t.home == c;
    assert Of(s.called, c) + Queued(s, c) + Pending(s, c) == Of(s.deferred, c);
    OfCounts(s.called, t);
    OfCounts(s.deferred, t);
    OneOfEach(s.deferred, t);
    assert t in multiset(Pending(s, c));
    assert multiset(Of(s.deferred, c)) == multiset(Of(s.called, c)) + multiset(Queued(s, c)) + multiset(Pending(s, c));
    assert t in s.called ==> t in multiset(s.called);
  }

  /** Between two groups, a pending group is sure not to be started before a pending function of another
      has been called if and only if the second group holds the first back. */
  lemma {:induction false} NeverOvertakenIff(s: State, b: Name, c: Name, t: Task)
    requires Reachable(s) && Choosing(s) && b in s.groups && c in s.groups && b != c && t in s.groups[c].funcs
    ensures NeverOvertaken(s, b, t) <==> HeldBack(s.groups, b, c)
  {
    ReachableKeepsInvariant(s);
    if HeldBack(s.groups, b, c) {
      var names :| Holds(s.groups, names, c) && b in names;
      forall run | CanRun(s, run) && Start(b) !in run && Enabled(AfterRun(s, run), Start(b)) ensures t in AfterRun(s, run).called {
        RunInTime(s, run, names, b, c, t);
      }
    } else {
      var run := CanOvertake(s, b, c);
      RunKeepsInvariant(s, run);
      PendingIsNotCalled(AfterRun(s, run), c, t);
    }
  }

  /** What linking is for: a group made to wait for another is held back by it. */
  lemma {:induction false} WaitingIsHeldBack(groups: Groups, b: Name, c: Name)
    requires b in groups && c in groups && c in groups[b].after
    ensures HeldBack(groups, b, c)
  {
    assert c in groups[b].after * {b, c};
    assert Holds(groups, {b, c}, c);
  }
}
