/** Running groups whose functions defer nothing: which groups are run does not depend on how the
    ready ones are picked, they are run in a topological order, and the cycle error means a cycle. */
module DeferOrder {
  import opened Defer
  import opened DeferEnd

  /** A run in which nothing is deferred, neither before the groups are run nor by a function. */
  predicate DefersNothing(run: seq<Action>) {
    forall a :: a in run ==> QuietAction(a)
  }

  predicate QuietAction(a: Action) {
    !a.Collect? && (a.Invoke? ==> a.script == [])
  }

  /** One call of `ExecuteDefer` defers nothing if the program gives its functions nothing to defer. */
  lemma {:induction false} EmptyBodiesDeferNothing(p: Program, s: State, run: seq<Action>)
    requires CanRun(s, run) && Obeys(p, s, run) && OneCall(run) && forall f :: f in p ==> p[f] == []
    ensures DefersNothing(run)
    decreases |run|
  {
    if run != [] {
      EmptyBodiesDeferNothing(p, Do(s, run[0]), run[1..]);
      assert run == [run[0]] + run[1..];
    }
  }

  ghost predicate WaitsForSome(groups: Groups, n: Name)
    requires n in groups
  {
    exists a :: a in groups[n].after && a in groups
  }

  /** Between two groups a group can be started if and only if it waits for no pending one. */
  lemma StartsIff(s: State, n: Name)
    requires Choosing(s)
    ensures Enabled(s, Start(n)) <==> n in s.groups && !WaitsForSome(s.groups, n)
  {
    ReadyIs(s.groups, n);
    hide Ready, WaitsForSome;
  }

  /** It fails if and only if some are left and each of them waits for a pending one. */
  lemma {:induction false} FailsIff(s: State)
    requires Choosing(s)
    ensures Enabled(s, Fail) <==> s.groups != map[] && forall n :: n in s.groups ==> WaitsForSome(s.groups, n)
  {
    hide Ready, WaitsForSome;
    forall n | n in s.groups ensures Ready(s.groups, n) <==> !WaitsForSome(s.groups, n) {
      ReadyIs(s.groups, n);
    }
  }

  lemma ReadyIs(groups: Groups, n: Name)
    ensures Ready(groups, n) <==> n in groups && !WaitsForSome(groups, n)
  {
  }

  /** Between two groups, or before the first. */
  predicate AtRest(s: State) {
    s.queue == [] && s.script == []
  }

  /** The groups have been run as far as they can be. */
  ghost predicate Exhausted(s: State) {
    s.queue == [] && s.script == [] && forall n :: n in s.groups ==> !Ready(s.groups, n)
  }

  /** Groups each of which waits for one of them: none can ever be the first to start. */
  ghost predicate Deadlocked(groups: Groups, names: set<Name>) {
    names <= groups.Keys && forall n :: n in names ==> groups[n].after * names != {}
  }

  // ----- What a quiet run keeps -----

  /** `s` comes from `start` by taking groups out, none of them deadlocked; what was called since is
      in topological order. */
  ghost predicate RanFrom(start: State, s: State) {
    && s.script == []
    && s.deferred == start.deferred
    && (forall n :: n in s.groups ==> n in start.groups && s.groups[n] == start.groups[n])
    && (forall names :: Deadlocked(start.groups, names) ==> names <= s.groups.Keys)
    && start.called <= s.called
    && (forall i :: |start.called| <= i < |s.called| ==> Passed(start, s, s.called[i].home))
    && (s.queue != [] ==> Passed(start, s, s.context) && s.context !in start.groups[s.context].after)
    && InOrder(start, s.called)
  }

  /** `n` has been taken out, and before it all the groups it waits for; the one being run now is none
      of these. */
  ghost predicate Passed(start: State, s: State, n: Name) {
    && n in start.groups && n !in s.groups
    && forall a :: a in start.groups[n].after ==> a !in s.groups && (s.queue != [] && n != s.context ==> a != s.context)
  }

  /** No function comes before one of a group that its own group waits for. */
  ghost predicate InOrder(start: State, called: seq<Task>) {
    forall i, j :: |start.called| <= i < j < |called| && called[i].home in start.groups
      ==> called[j].home !in start.groups[called[i].home].after
  }

  lemma {:induction false} StartRuns(start: State, s: State, n: Name)
    requires RanFrom(start, s) && Invariant(s) && Enabled(s, Start(n))
    ensures RanFrom(start, Do(s, Start(n)))
  {
    var after := Do(s, Start(n));
    forall names | Deadlocked(start.groups, names) ensures names <= after.groups.Keys {
      assert n !in names;
    }
  }

  lemma {:induction false} InvokeRuns(start: State, s: State)
    requires RanFrom(start, s) && Invariant(s) && Enabled(s, Invoke([]))
    ensures RanFrom(start, Do(s, Invoke([])))
  {
    var after := Do(s, Invoke([]));
    assert s.queue[0] in s.queue;
    forall i | |start.called| <= i < |after.called| ensures Passed(start, after, after.called[i].home) {
      if i < |s.called| {
        assert Passed(start, s, s.called[i].home);
      }
    }
  }

  lemma {:induction false} StepRuns(start: State, s: State, a: Action)
    requires RanFrom(start, s) && Invariant(s) && Enabled(s, a) && QuietAction(a)
    ensures RanFrom(start, Do(s, a))
  {
    match a {
      case Start(n) => StartRuns(start, s, n);
      case Invoke(_) => InvokeRuns(start, s);
      case _ =>
    }
  }

  lemma {:induction false} RunRuns(start: State, s: State, run: seq<Action>)
    requires RanFrom(start, s) && Invariant(s) && CanRun(s, run) && DefersNothing(run)
    ensures RanFrom(start, AfterRun(s, run)) && Invariant(AfterRun(s, run))
    decreases |run|
  {
    hide RanFrom, Invariant;
    if run != [] {
      StepRuns(start, s, run[0]);
      StepKeepsInvariant(s, run[0]);
      RunRuns(start, Do(s, run[0]), run[1..]);
    }
  }

  lemma {:induction false} RanFromItself(s: State)
    requires AtRest(s)
    ensures RanFrom(s, s)
  {
  }

  // ----- Which groups are left -----

  /** However the ready groups are picked, those left at the end are the deadlocked ones. */
  lemma {:induction false} LeavesDeadlocked(start: State, run: seq<Action>)
    requires Invariant(start) && AtRest(start)
    requires CanRun(start, run) && DefersNothing(run) && Exhausted(AfterRun(start, run))
    ensures var left := AfterRun(start, run).groups.Keys;
            && Deadlocked(start.groups, left)
            && forall names :: Deadlocked(start.groups, names) ==> names <= left
  {
    RanFromItself(start);
    RunRuns(start, start, run);
    var end := AfterRun(start, run);
    forall n | n in end.groups ensures start.groups[n].after * end.groups.Keys != {} {
      assert !Ready(end.groups, n);
      var m :| m in end.groups[n].after && m in end.groups.Keys;
      assert m in start.groups[n].after * end.groups.Keys;
    }
  }

  /** Two runs that pick differently leave the same groups and call the same functions, each once,
      those of one group in one order. */
  lemma {:induction false} PicksDoNotMatter(start: State, one: seq<Action>, other: seq<Action>)
    requires Invariant(start) && AtRest(start)
    requires CanRun(start, one) && DefersNothing(one) && Exhausted(AfterRun(start, one))
    requires CanRun(start, other) && DefersNothing(other) && Exhausted(AfterRun(start, other))
    ensures AfterRun(start, one).groups == AfterRun(start, other).groups
    ensures forall n :: Of(AfterRun(start, one).called, n) == Of(AfterRun(start, other).called, n)
    ensures multiset(AfterRun(start, one).called) == multiset(AfterRun(start, other).called)
  {
    var a, b := AfterRun(start, one), AfterRun(start, other);
    RanFromItself(start);
    LeavesDeadlocked(start, one);
    LeavesDeadlocked(start, other);
    RunRuns(start, start, one);
    RunRuns(start, start, other);
    SameGroups(start, a, b);
    forall n ensures Of(a.called, n) == Of(b.called, n) {
      SameCalls(start, a, b, n);
    }
    forall t: Task ensures multiset(a.called)[t] == multiset(b.called)[t] {
      OfCounts(a.called, t);
      OfCounts(b.called, t);
    }
  }

  lemma {:induction false} SameGroups(start: State, a: State, b: State)
    requires RanFrom(start, a) && RanFrom(start, b) && a.groups.Keys == b.groups.Keys
    ensures a.groups == b.groups
  {
    forall n | n in a.groups ensures a.groups[n] == b.groups[n] {
      assert n in b.groups;
    }
  }

  lemma {:induction false} SameCalls(start: State, a: State, b: State, n: Name)
    requires RanFrom(start, a) && RanFrom(start, b) && Conserved(a) && Conserved(b)
    requires a.groups == b.groups && a.queue == [] && b.queue == []
    ensures Of(a.called, n) == Of(b.called, n)
  {
    assert Of(a.called, n) + Queued(a, n) + Pending(a, n) == Of(a.deferred, n);
    assert Of(b.called, n) + Queued(b, n) + Pending(b, n) == Of(b.deferred, n);
    assert Queued(a, n) == [] && Queued(b, n) == [] && Pending(a, n) == Pending(b, n);
    assert Of(a.called, n) + [] == Of(a.called, n) && Of(b.called, n) + [] == Of(b.called, n);
    SameFront(Of(a.called, n), Of(b.called, n), Pending(a, n));
  }

  lemma SameFront(a: seq<Task>, b: seq<Task>, c: seq<Task>)
    requires a + c == b + c
    ensures a == b
  {
    assert a == (a + c)[..|a|] && b == (b + c)[..|b|];
  }

  /** Every function of a group that is run is called exactly once, and no function before one of a
      group that its own waits for. */
  lemma {:induction false} CallsInTopologicalOrder(start: State, run: seq<Action>)
    requires Invariant(start) && AtRest(start)
    requires CanRun(start, run) && DefersNothing(run) && Exhausted(AfterRun(start, run))
    ensures var end := AfterRun(start, run);
            && start.called <= end.called && InOrder(start, end.called)
            && forall n :: n !in end.groups ==> Of(end.called, n) == Of(start.deferred, n)
  {
    RanFromItself(start);
    RunRuns(start, start, run);
    var end := AfterRun(start, run);
    forall n | n !in end.groups ensures Of(end.called, n) == Of(start.deferred, n) {
      assert Of(end.called, n) + Queued(end, n) + Pending(end, n) == Of(end.deferred, n);
    }
  }

  // ----- Cycles -----

  /** Each name waits for the next. */
  ghost predicate Chain(groups: Groups, path: seq<Name>) {
    && (forall i :: 0 <= i < |path| ==> path[i] in groups)
    && (forall i :: 0 < i < |path| ==> path[i] in groups[path[i - 1]].after)
  }

  ghost predicate IsCycle(groups: Groups, path: seq<Name>) {
    |path| >= 2 && path[0] == path[|path| - 1] && Chain(groups, path)
  }

  ghost predicate HasCycle(groups: Groups) {
    exists path :: IsCycle(groups, path)
  }

  lemma {:induction false} CycleIsDeadlocked(groups: Groups, path: seq<Name>)
    requires IsCycle(groups, path)
    ensures Deadlocked(groups, set n | n in path)
  {
    var names := set n | n in path;
    forall n | n in names ensures groups[n].after * names != {} {
      var i :| 0 <= i < |path| && path[i] == n;
      var next := if i + 1 < |path| then i + 1 else 1;
      assert path[next] in groups[n].after * names;
    }
  }

  lemma {:induction false} LongChain(groups: Groups, names: set<Name>, length: nat) returns (path: seq<Name>)
    requires Deadlocked(groups, names) && names != {} && length > 0
    ensures |path| == length && Chain(groups, path) && forall n :: n in path ==> n in names
  {
    if length == 1 {
      var n :| n in names;
      path := [n];
    } else {
      var shorter := LongChain(groups, names, length - 1);
      var last := shorter[|shorter| - 1];
      var next :| next in groups[last].after * names;
      path := shorter + [next];
    }
  }

  /** Too many names for the set they are from: two are the same. */
  lemma {:induction false} Repeats(path: seq<Name>, names: set<Name>) returns (i: nat, j: nat)
    requires |path| > |names| && forall n :: n in path ==> n in names
    ensures i < j < |path| && path[i] == path[j]
    decreases |names|
  {
    var last := |path| - 1;
    if k :| 0 <= k < last && path[k] == path[last] {
      i, j := k, last;
    } else {
      i, j := Repeats(path[..last], names - {path[last]});
    }
  }

  lemma {:induction false} DeadlockHasCycle(groups: Groups, names: set<Name>)
    requires Deadlocked(groups, names) && names != {}
    ensures HasCycle(groups)
  {
    var path := LongChain(groups, names, |names| + 1);
    var i, j := Repeats(path, names);
    assert IsCycle(groups, path[i..j + 1]);
  }

  /** Groups are left, and `ExecuteDefer` reports a cycle, exactly when some pending groups wait for
      each other in a circle. */
  lemma {:induction false} CycleErrorIff(start: State, run: seq<Action>)
    requires Invariant(start) && AtRest(start)
    requires CanRun(start, run) && DefersNothing(run) && Exhausted(AfterRun(start, run))
    ensures AfterRun(start, run).groups != map[] <==> HasCycle(start.groups)
  {
    hide Invariant, AtRest, CanRun, Exhausted, AfterRun;
    LeavesDeadlocked(start, run);
    var end := AfterRun(start, run);
    if end.groups != map[] {
      assert end.groups.Keys != {};
      DeadlockHasCycle(start.groups, end.groups.Keys);
    }
    if HasCycle(start.groups) {
      var path :| IsCycle(start.groups, path);
      CycleIsDeadlocked(start.groups, path);
      assert path[0] in set n | n in path;
    }
  }
}
