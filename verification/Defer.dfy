/** Deferred functions: named groups of functions, each run after the groups it waits for, while the
    functions that run may defer more. The order in which ready groups are found is arbitrary. */
module Defer {
  import opened Util

  /** The key of a group: no name at all, or a name, which may be empty. */
  datatype Name = NoName | Named(text: string)

  /** A function: its name, and which of the functions of that name it is. */
  datatype Func = Func(name: string, code: nat)

  /** The arguments of one call of `Defer`. */
  datatype Call = Call(name: Option<string>, func: Option<Func>, after: set<string>)

  /** A deferred function, the group it was deferred into, and how many were deferred before it. */
  datatype Task = Task(id: nat, home: Name, func: Func)

  datatype Group = Group(funcs: seq<Task>, after: set<Name>)

  type Groups = map<Name, Group>

  /** Python's truth value of a name. */
  predicate Truthy(n: Name) {
    n.Named? && n.text != ""
  }

  /** The group that a call of `Defer` is about. */
  function Target(call: Call): Name {
    var given := if call.name.Some? then Named(call.name.value) else NoName;
    if call.func.Some? && !Truthy(given) then Named(call.func.value.name) else given
  }

  function Names(s: set<string>): set<Name> {
    set a | a in s :: Named(a)
  }

  function NewTask(call: Call, id: nat): seq<Task> {
    if call.func.Some? then [Task(id, Target(call), call.func.value)] else []
  }

  /** The target's group once the function and the predecessors are added. */
  function Enlarged(groups: Groups, call: Call, id: nat): Group {
    var group := if Target(call) in groups then groups[Target(call)] else Group([], {});
    Group(group.funcs + NewTask(call, id), group.after + Names(call.after))
  }

  /** Whether `n` must wait for a target deferred into by a function of group `context`. */
  predicate Linked(groups: Groups, context: Name, target: Name, n: Name)
    requires n in groups
  {
    Truthy(context) && target != context && n != target && context in groups[n].after
  }

  /** The groups after a call of `Defer` made by a function of group `context`. */
  function Deferred(groups: Groups, context: Name, call: Call, id: nat): Groups {
    var base := groups[Target(call) := Enlarged(groups, call, id)];
    map n | n in base ::
      if Linked(base, context, Target(call), n) then base[n].(after := base[n].after + {Target(call)}) else base[n]
  }

  /** No group it waits for is pending. */
  predicate Ready(groups: Groups, n: Name) {
    n in groups && groups[n].after !! groups.Keys
  }

  // ----- Runs -----

  datatype Stage = Collecting | Executing | Raised

  /** `context` is the group being run, `queue` its functions still to be called and `script` what the
      function being called has still to defer. `deferred` are the functions deferred and `called`
      those called so far. */
  datatype State = State(
    stage: Stage, groups: Groups, context: Name, queue: seq<Task>, script: seq<Call>,
    deferred: seq<Task>, called: seq<Task>)

  datatype Action =
    | Collect(call: Call)          // somebody defers before the groups are run
    | Begin                        // `ExecuteDefer` is called
    | Start(name: Name)            // a ready group is taken out to be run
    | Invoke(script: seq<Call>)    // its next function is called, and is going to defer all this
    | Request                      // that function calls `Defer`
    | Finish                       // no group is left
    | Fail                         // groups are left, but none is ready

  predicate Choosing(s: State) {
    s.stage == Executing && s.queue == [] && s.script == []
  }

  ghost predicate Enabled(s: State, a: Action) {
    match a
    case Collect(_) => s.stage == Collecting
    case Begin => s.stage == Collecting
    case Start(name) => Choosing(s) && Ready(s.groups, name)
    case Invoke(_) => s.stage == Executing && s.script == [] && s.queue != []
    case Request => s.stage == Executing && s.script != []
    case Finish => Choosing(s) && s.groups == map[]
    case Fail => Choosing(s) && s.groups != map[] && forall n :: n in s.groups ==> !Ready(s.groups, n)
  }

  function Defers(s: State, call: Call): State {
    s.(groups := Deferred(s.groups, s.context, call, |s.deferred|),
       deferred := s.deferred + NewTask(call, |s.deferred|))
  }

  ghost function Do(s: State, a: Action): State
    requires Enabled(s, a)
  {
    match a
    case Collect(call) => Defers(s, call)
    case Begin => s.(stage := Executing)
    case Start(name) => s.(groups := s.groups - {name}, context := name, queue := s.groups[name].funcs)
    case Invoke(script) => s.(queue := s.queue[1..], called := s.called + [s.queue[0]], script := script)
    case Request => Defers(s, s.script[0]).(script := s.script[1..])
    case Finish => s.(stage := Collecting, context := NoName)
    case Fail => s.(stage := Raised, context := NoName)
  }

  const INITIAL := State(Collecting, map[], NoName, [], [], [], [])

  ghost predicate CanRun(s: State, run: seq<Action>)
    decreases |run|
  {
    run == [] || (Enabled(s, run[0]) && CanRun(Do(s, run[0]), run[1..]))
  }

  ghost function AfterRun(s: State, run: seq<Action>): State
    requires CanRun(s, run)
    decreases |run|
  {
    if run == [] then s else AfterRun(Do(s, run[0]), run[1..])
  }

  lemma {:induction false} RunsJoin(s: State, one: seq<Action>, two: seq<Action>)
    requires CanRun(s, one) && CanRun(AfterRun(s, one), two)
    ensures CanRun(s, one + two) && AfterRun(s, one + two) == AfterRun(AfterRun(s, one), two)
    decreases |one|
  {
    hide Enabled, Do;
    if one == [] {
      assert one + two == two;
    } else {
      RunsJoin(Do(s, one[0]), one[1..], two);
      assert (one + two)[1..] == one[1..] + two;
    }
  }

  ghost predicate Leads(s: State, run: seq<Action>, after: State) {
    CanRun(s, run) && AfterRun(s, run) == after
  }

  ghost predicate Reachable(s: State) {
    exists run :: Leads(INITIAL, run, s)
  }

  // ----- Every function is called once, in order -----

  /** The tasks that belong to group `n`. */
  function Of(tasks: seq<Task>, n: Name): seq<Task> {
    if tasks == [] then []
    else Of(tasks[..|tasks| - 1], n) + if tasks[|tasks| - 1].home == n then [tasks[|tasks| - 1]] else []
  }

  function Pending(s: State, n: Name): seq<Task> {
    if n in s.groups then s.groups[n].funcs else []
  }

  function Queued(s: State, n: Name): seq<Task> {
    if s.context == n then s.queue else []
  }

  /** Of each group, what was deferred is what was called, is about to be, and is pending, in order. */
  ghost predicate Conserved(s: State) {
    forall n :: Of(s.called, n) + Queued(s, n) + Pending(s, n) == Of(s.deferred, n)
  }

  ghost predicate Invariant(s: State) {
    && Conserved(s)
    && (forall n, t :: n in s.groups && t in s.groups[n].funcs ==> t.home == n)
    && (forall t :: t in s.queue ==> t.home == s.context)
    && (forall i :: 0 <= i < |s.deferred| ==> s.deferred[i].id == i)
    && (s.stage != Executing ==> s.queue == [] && s.script == [] && s.context == NoName)
    && (s.script != [] ==> s.called != [] && s.called[|s.called| - 1].home == s.context)
  }

  lemma OfOneMore(tasks: seq<Task>, t: Task, n: Name)
    ensures Of(tasks + [t], n) == Of(tasks, n) + if t.home == n then [t] else []
  {
    assert (tasks + [t])[..|tasks|] == tasks;
  }

  /** What a call of `Defer` makes of one group. */
  lemma {:induction false} DeferredGroup(groups: Groups, context: Name, call: Call, id: nat, n: Name)
    ensures var after := Deferred(groups, context, call, id);
            && (n in after <==> n in groups || n == Target(call))
            && (n == Target(call) ==> after[n] == Enlarged(groups, call, id))
            && (n in groups && n != Target(call) ==>
                  && after[n].funcs == groups[n].funcs
                  && after[n].after == groups[n].after + if Linked(groups, context, Target(call), n) then {Target(call)} else {})
  {
  }

  /** The call has put its function, with `id`, at the end of group `home` and given that group its
      predecessors. Of the others it has changed nothing, but that those that wait for the running group
      wait for `home` too, if the running group's name is not missing or empty and it is not `home`. */
  ghost predicate Placed(groups: Groups, after: Groups, context: Name, call: Call, id: nat, home: Name) {
    && after.Keys == groups.Keys + {home}
    && after[home].funcs == (if home in groups then groups[home].funcs else [])
                            + (if call.func.Some? then [Task(id, home, call.func.value)] else [])
    && (forall a :: a in after[home].after <==>
          (home in groups && a in groups[home].after) || (a.Named? && a.text in call.after))
    && forall n :: n in groups && n != home ==>
         var links := context.Named? && context.text != "" && context != home && context in groups[n].after;
         after[n].funcs == groups[n].funcs && after[n].after == groups[n].after + if links then {home} else {}
  }

  /** What a call of `Defer` does, and to which group: the one it names, unless it names none, or the
      empty name, and has a function; then the one of that function's name. */
  lemma {:induction false} DeferPlaces(groups: Groups, context: Name, call: Call, id: nat)
    ensures var after := Deferred(groups, context, call, id);
            match (call.name, call.func)
            case (Some(name), None) => Placed(groups, after, context, call, id, Named(name))
            case (None, None) => Placed(groups, after, context, call, id, NoName)
            case (None, Some(func)) => Placed(groups, after, context, call, id, Named(func.name))
            case (Some(name), Some(func)) => Placed(groups, after, context, call, id, Named(if name != "" then name else func.name))
  {
    PlacedAtTarget(groups, context, call, id);
    hide Placed, Deferred;
  }

  lemma PlacedAtTarget(groups: Groups, context: Name, call: Call, id: nat)
    ensures Placed(groups, Deferred(groups, context, call, id), context, call, id, Target(call))
  {
    hide Target;
    var after := Deferred(groups, context, call, id);
    forall n ensures n in after <==> n in groups || n == Target(call)
             ensures n in groups && n != Target(call) ==>
                       && after[n].funcs == groups[n].funcs
                       && after[n].after == groups[n].after + if Linked(groups, context, Target(call), n) then {Target(call)} else {}
    {
      DeferredGroup(groups, context, call, id, n);
    }
    DeferredGroup(groups, context, call, id, Target(call));
    hide Deferred, Target;
  }

  lemma OfAdded(s: State, call: Call, n: Name)
    ensures Of(Defers(s, call).deferred, n) == Of(s.deferred, n) + if n == Target(call) then NewTask(call, |s.deferred|) else []
  {
    hide Deferred;
    if call.func.Some? {
      OfOneMore(s.deferred, NewTask(call, |s.deferred|)[0], n);
    } else {
      assert s.deferred + NewTask(call, |s.deferred|) == s.deferred;
    }
  }

  lemma PendingAdded(s: State, call: Call, n: Name)
    ensures Pending(Defers(s, call), n) == Pending(s, n) + if n == Target(call) then NewTask(call, |s.deferred|) else []
  {
    hide Deferred;
    DeferredGroup(s.groups, s.context, call, |s.deferred|, n);
  }

  lemma AddAtTheEnd(a: seq<Task>, b: seq<Task>, c: seq<Task>, d: seq<Task>)
    ensures a + b + (c + d) == a + b + c + d
  {
  }

  lemma {:induction false} DefersConserves(s: State, call: Call, n: Name)
    requires Conserved(s)
    ensures var after := Defers(s, call);
            Of(after.called, n) + Queued(after, n) + Pending(after, n) == Of(after.deferred, n)
  {
    OfAdded(s, call, n);
    PendingAdded(s, call, n);
    assert Of(s.called, n) + Queued(s, n) + Pending(s, n) == Of(s.deferred, n);
    hide Deferred, Of, Pending, NewTask, Target, Conserved;
    AddAtTheEnd(Of(s.called, n), Queued(s, n), Pending(s, n), if n == Target(call) then NewTask(call, |s.deferred|) else []);
  }

  lemma {:induction false} DefersKeeps(s: State, call: Call)
    requires Invariant(s)
    ensures Invariant(Defers(s, call))
  {
    hide Deferred;
    var after := Defers(s, call);
    forall n ensures Of(after.called, n) + Queued(after, n) + Pending(after, n) == Of(after.deferred, n) {
      DefersConserves(s, call, n);
    }
    forall n, t | n in after.groups && t in after.groups[n].funcs ensures t.home == n {
      DeferredGroup(s.groups, s.context, call, |s.deferred|, n);
    }
  }

  lemma MoveOne(a: seq<Task>, t: Task, b: seq<Task>, c: seq<Task>, d: seq<Task>)
    requires a + ([t] + b) + c == d
    ensures a + [t] + b + c == d
  {
    assert a + ([t] + b) == a + [t] + b;
  }

  lemma PendingKept(s: State, script: seq<Call>, n: Name)
    requires Enabled(s, Invoke(script))
    ensures Pending(Do(s, Invoke(script)), n) == Pending(s, n)
  {
  }

  lemma InvokeConserves(s: State, script: seq<Call>, n: Name)
    requires Invariant(s) && Enabled(s, Invoke(script))
    ensures var after := Do(s, Invoke(script));
            Of(after.called, n) + Queued(after, n) + Pending(after, n) == Of(after.deferred, n)
  {
    hide Of, Pending;
    assert Of(s.called, n) + Queued(s, n) + Pending(s, n) == Of(s.deferred, n);
    var t := s.queue[0];
    assert t.home == s.context;
    hide Conserved, Invariant;
    PendingKept(s, script, n);
    OfOneMore(s.called, t, n);
    assert s.queue == [t] + s.queue[1..];
    if n == s.context {
      MoveOne(Of(s.called, n), t, s.queue[1..], Pending(s, n), Of(s.deferred, n));
    }
  }

  lemma {:induction false} InvokeKeeps(s: State, script: seq<Call>)
    requires Invariant(s) && Enabled(s, Invoke(script))
    ensures Invariant(Do(s, Invoke(script)))
  {
    hide Of;
    var after := Do(s, Invoke(script));
    forall n ensures Of(after.called, n) + Queued(after, n) + Pending(after, n) == Of(after.deferred, n) {
      InvokeConserves(s, script, n);
    }
    assert after.called == s.called + [s.queue[0]];
  }

  lemma StartConserves(s: State, name: Name, n: Name)
    requires Invariant(s) && Enabled(s, Start(name))
    ensures var after := Do(s, Start(name));
            Of(after.called, n) + Queued(after, n) + Pending(after, n) == Of(after.deferred, n)
  {
    hide Of;
    assert Of(s.called, n) + Queued(s, n) + Pending(s, n) == Of(s.deferred, n);
    assert Queued(s, n) == [];
  }

  lemma {:induction false} StartKeeps(s: State, name: Name)
    requires Invariant(s) && Enabled(s, Start(name))
    ensures Invariant(Do(s, Start(name)))
  {
    hide Of;
    var after := Do(s, Start(name));
    forall n ensures Of(after.called, n) + Queued(after, n) + Pending(after, n) == Of(after.deferred, n) {
      StartConserves(s, name, n);
    }
  }

  lemma {:induction false} StageKeeps(s: State, a: Action)
    requires Invariant(s) && Enabled(s, a) && (a.Begin? || a.Finish? || a.Fail?)
    ensures Invariant(Do(s, a))
  {
    var after := Do(s, a);
    forall n ensures Of(after.called, n) + Queued(after, n) + Pending(after, n) == Of(after.deferred, n) {
      assert Of(s.called, n) + Queued(s, n) + Pending(s, n) == Of(s.deferred, n);
      assert Queued(after, n) == Queued(s, n) && Pending(after, n) == Pending(s, n);
    }
  }

  lemma {:induction false} StepKeepsInvariant(s: State, a: Action)
    requires Invariant(s) && Enabled(s, a)
    ensures Invariant(Do(s, a))
  {
    hide Invariant;
    match a {
      case Collect(call) => DefersKeeps(s, call);
      case Request => RequestKeeps(s);
      case Invoke(script) => InvokeKeeps(s, script);
      case Start(name) => StartKeeps(s, name);
      case _ => StageKeeps(s, a);
    }
  }

  lemma {:induction false} RequestKeeps(s: State)
    requires Invariant(s) && Enabled(s, Request)
    ensures Invariant(Do(s, Request))
  {
    DefersKeeps(s, s.script[0]);
    hide Deferred, Of;
    var mid, after := Defers(s, s.script[0]), Do(s, Request);
    forall n ensures Of(after.called, n) + Queued(after, n) + Pending(after, n) == Of(after.deferred, n) {
      assert Of(mid.called, n) + Queued(mid, n) + Pending(mid, n) == Of(mid.deferred, n);
    }
  }

  lemma {:induction false} RunKeepsInvariant(s: State, run: seq<Action>)
    requires Invariant(s) && CanRun(s, run)
    ensures Invariant(AfterRun(s, run))
    decreases |run|
  {
    hide Invariant;
    if run != [] {
      StepKeepsInvariant(s, run[0]);
      RunKeepsInvariant(Do(s, run[0]), run[1..]);
    }
  }

  lemma {:induction false} ReachableKeepsInvariant(s: State)
    requires Reachable(s)
    ensures Invariant(s)
  {
    assert Invariant(INITIAL);
    var run :| Leads(INITIAL, run, s);
    RunKeepsInvariant(INITIAL, run);
  }

  /** When a group is started, every function ever deferred into the groups it waits for has been
      called, those of one group in the order in which they were deferred. */
  lemma {:induction false} StartsAfterItsPredecessors(s: State, b: Name)
    requires Reachable(s) && Enabled(s, Start(b))
    ensures forall a :: a in s.groups[b].after ==> Of(s.called, a) == Of(s.deferred, a)
  {
    ReachableKeepsInvariant(s);
    forall a | a in s.groups[b].after ensures Of(s.called, a) == Of(s.deferred, a) {
      PredecessorsCalled(s, b, a);
    }
  }

  lemma PredecessorsCalled(s: State, b: Name, a: Name)
    requires Invariant(s) && Enabled(s, Start(b)) && a in s.groups[b].after
    ensures Of(s.called, a) == Of(s.deferred, a)
  {
    hide Of;
    assert a !in s.groups;
    assert Of(s.called, a) + Queued(s, a) + Pending(s, a) == Of(s.deferred, a);
  }

  /** When the groups have been run, every function deferred has been called exactly once, those of
      one group in the order in which they were deferred. */
  lemma {:induction false} FinishesWithAllCalled(s: State)
    requires Reachable(s) && Enabled(s, Finish)
    ensures forall n :: Of(s.called, n) == Of(s.deferred, n)
    ensures multiset(s.called) == multiset(s.deferred)
  {
    ReachableKeepsInvariant(s);
    forall n ensures Of(s.called, n) == Of(s.deferred, n) {
      assert Of(s.called, n) + Queued(s, n) + Pending(s, n) == Of(s.deferred, n);
    }
    forall t: Task ensures multiset(s.called)[t] == multiset(s.deferred)[t] {
      OfCounts(s.called, t);
      OfCounts(s.deferred, t);
    }
  }

  lemma {:induction false} OfCounts(tasks: seq<Task>, t: Task)
    ensures multiset(Of(tasks, t.home))[t] == multiset(tasks)[t]
  {
    if tasks != [] {
      var rest, last := tasks[..|tasks| - 1], tasks[|tasks| - 1];
      OfCounts(rest, t);
      assert tasks == rest + [last];
    }
  }

  // ----- What a running function defers -----

  /** Every one of these functions is in a group that `b` waits for. */
  ghost predicate WaitsFor(s: State, b: Name, tasks: set<Task>) {
    && b in s.groups
    && forall t :: t in tasks ==> t in s.deferred && t.home in s.groups[b].after
  }

  /** `tasks`, and what they and their offspring defer into other groups than `b` in the run. */
  ghost function Offspring(s: State, run: seq<Action>, b: Name, tasks: set<Task>): set<Task>
    requires CanRun(s, run)
    decreases |run|
  {
    if run == [] then tasks
    else Offspring(Do(s, run[0]), run[1..], b, if run[0].Request? then tasks + NewOffspring(s, b, tasks) else tasks)
  }

  ghost function NewOffspring(s: State, b: Name, tasks: set<Task>): set<Task>
    requires s.script != []
  {
    if s.called != [] && s.called[|s.called| - 1] in tasks && Target(s.script[0]) != b
    then set t | t in NewTask(s.script[0], |s.deferred|) else {}
  }

  /** Whether the call of `Defer` being made links its target to the pending group `b`, which waits
      for the running one. */
  ghost predicate Follows(s: State, b: Name)
    requires Enabled(s, Request) && b in Do(s, Request).groups
  {
    Target(s.script[0]) in Do(s, Request).groups[b].after
  }

  /** A pending group that waits for the running one comes to wait for what that defers into another
      group, exactly unless the running group's name is empty. */
  lemma {:induction false} FollowsIff(s: State, b: Name)
    requires Enabled(s, Request) && b in s.groups && s.context in s.groups[b].after && Target(s.script[0]) != b
    ensures b in Do(s, Request).groups
    ensures Follows(s, b) <==> Truthy(s.context) || Target(s.script[0]) in s.groups[b].after
  {
    DeferredGroup(s.groups, s.context, s.script[0], |s.deferred|, b);
  }

  /** No function of a group with an empty name, or none, calls `Defer` in the run. */
  ghost predicate AllNamed(s: State, run: seq<Action>)
    requires CanRun(s, run)
    decreases |run|
  {
    run == [] || ((run[0].Request? ==> Truthy(s.context)) && AllNamed(Do(s, run[0]), run[1..]))
  }

  lemma {:induction false} RequestExtendsWaiting(s: State, b: Name, tasks: set<Task>)
    requires Invariant(s) && Enabled(s, Request) && WaitsFor(s, b, tasks) && Truthy(s.context)
    ensures WaitsFor(Do(s, Request), b, tasks + NewOffspring(s, b, tasks))
  {
    hide Deferred;
    DeferredGroup(s.groups, s.context, s.script[0], |s.deferred|, b);
  }

  lemma {:induction false} StepKeepsWaiting(s: State, a: Action, b: Name, tasks: set<Task>)
    requires Enabled(s, a) && WaitsFor(s, b, tasks) && a != Start(b) && !a.Request?
    ensures WaitsFor(Do(s, a), b, tasks)
  {
    if a.Collect? {
      DeferredGroup(s.groups, s.context, a.call, |s.deferred|, b);
    }
  }

  /** A pending group keeps waiting, until it is started, for everything that the functions it waits
      for defer, and that what they defer defers, and so on. */
  lemma {:induction false} KeepsWaitingForOffspring(s: State, run: seq<Action>, b: Name, tasks: set<Task>)
    requires Invariant(s) && WaitsFor(s, b, tasks)
    requires CanRun(s, run) && AllNamed(s, run) && Start(b) !in run
    ensures WaitsFor(AfterRun(s, run), b, Offspring(s, run, b, tasks))
    decreases |run|
  {
    hide Invariant, WaitsFor;
    if run != [] {
      StepKeepsInvariant(s, run[0]);
      if run[0].Request? {
        RequestExtendsWaiting(s, b, tasks);
        KeepsWaitingForOffspring(Do(s, run[0]), run[1..], b, tasks + NewOffspring(s, b, tasks));
      } else {
        StepKeepsWaiting(s, run[0], b, tasks);
        KeepsWaitingForOffspring(Do(s, run[0]), run[1..], b, tasks);
      }
    }
  }

  /** A group does not start before all of that has been called. */
  lemma {:induction false} StartsAfterOffspring(s: State, run: seq<Action>, b: Name, tasks: set<Task>)
    requires Reachable(s) && WaitsFor(s, b, tasks)
    requires CanRun(s, run) && AllNamed(s, run) && Start(b) !in run && Enabled(AfterRun(s, run), Start(b))
    ensures forall t :: t in Offspring(s, run, b, tasks) ==> t in AfterRun(s, run).called
  {
    var after := AfterRun(s, run);
    ReachableKeepsInvariant(s);
    RunKeepsInvariant(s, run);
    KeepsWaitingForOffspring(s, run, b, tasks);
    hide Of, Offspring, Ready, AllNamed, CanRun, AfterRun, Conserved;
    forall t | t in Offspring(s, run, b, tasks) ensures t in after.called {
      PredecessorsCalled(after, b, t.home);
      CalledIfDeferred(after, t);
    }
  }

  lemma CalledIfDeferred(s: State, t: Task)
    requires t in s.deferred && Of(s.called, t.home) == Of(s.deferred, t.home)
    ensures t in s.called
  {
    hide Of;
    OfCounts(s.called, t);
    OfCounts(s.deferred, t);
    assert t in multiset(s.deferred);
    assert t in multiset(s.called);
  }

  // ----- A group without a name -----

  lemma {:induction false} LeadsFurther(s: State, run: seq<Action>, m: State, a: Action)
    requires Leads(s, run, m) && Enabled(m, a)
    ensures Leads(s, run + [a], Do(m, a))
  {
    assert [a][1..] == [];
    RunsJoin(s, run, [a]);
  }

  lemma {:induction false} ReachesFurther(s: State, a: Action)
    requires Reachable(s) && Enabled(s, a)
    ensures Reachable(Do(s, a))
  {
    var run :| Leads(INITIAL, run, s);
    LeadsFurther(INITIAL, run, s, a);
  }

  /** Outside `ExecuteDefer` a call of `Defer` changes its target only. */
  lemma {:induction false} DeferredOutside(groups: Groups, call: Call, id: nat)
    ensures Deferred(groups, NoName, call, id) == groups[Target(call) := Enlarged(groups, call, id)]
  {
  }

  lemma InitialReachable()
    ensures Reachable(INITIAL)
  {
    assert Leads(INITIAL, [], INITIAL);
  }

  const LATE := Func("late", 0)
  const NAMELESS := Func("", 0)
  const NEXT := Func("next", 0)

  lemma {:induction false} NamelessIsRun() returns (s: State)
    ensures Reachable(s) && s.stage == Executing && s.context == Named("") && s.called == []
    ensures s.queue == [Task(0, Named(""), NAMELESS)] && s.script == [] && |s.deferred| == 2
    ensures s.groups.Keys == {Named("next")} && s.groups[Named("next")].after == {Named("")}
  {
    hide Reachable, Deferred;
    InitialReachable();
    var first, second := Call(None, Some(NAMELESS), {}), Call(None, Some(NEXT), {""});
    ReachesFurther(INITIAL, Collect(first));
    DeferredOutside(map[], first, 0);
    var s1 := Do(INITIAL, Collect(first));
    assert Names({""}) == {Named("")};
    ReachesFurther(s1, Collect(second));
    DeferredOutside(s1.groups, second, 1);
    var s2 := Do(s1, Collect(second));
    ReachesFurther(s2, Begin);
    var s3 := Do(s2, Begin);
    ReachesFurther(s3, Start(Named("")));
    s := Do(s3, Start(Named("")));
    assert s.groups.Keys == {Named("next")};
  }

  /** The condition is needed: a function with an empty name defers another, and the group that waits
      for the first is started, as the code has it, before that has been called. */
  lemma {:induction false} NamelessIsOvertaken() returns (before: State, after: State)
    ensures Reachable(before) && Enabled(before, Request) && after == Do(before, Request)
    ensures var b := Named("next");
            && b in before.groups && before.context in before.groups[b].after
            && Target(before.script[0]) != b && before.script[0].func == Some(LATE)
            && Enabled(after, Start(b)) && forall t :: t in after.called ==> t.func != LATE
  {
    hide Reachable, Deferred;
    var s := NamelessIsRun();
    var script := [Call(None, Some(LATE), {})];
    ReachesFurther(s, Invoke(script));
    before := Do(s, Invoke(script));
    after := Do(before, Request);
    DeferredGroup(before.groups, before.context, before.script[0], 2, Named("next"));
    DeferredGroup(before.groups, before.context, before.script[0], 2, Named(""));
  }
}
