/** The deferred groups of a root environment, changed in place by `Defer` and run by `ExecuteDefer`;
    every way of picking ready groups is a run of the state machine. */
module DeferRoots {
  import opened Defer
  import opened DeferEnd

  /** `Running` is a call that has not ended within its limit. */
  datatype Outcome = Done | Cycle | Reentrant | Running {
    function Stage(): Stage {
      match this
      case Done => Collecting
      case Cycle => Raised
      case _ => Executing
    }
  }

  class DeferRoot {
    const program: Program   // what the functions defer when they are called
    var groups: Groups
    var context: Name        // the global defer context
    var deferred: seq<Task>
    var called: seq<Task>

    constructor (program: Program)
      ensures this.program == program && View(Collecting, [], []) == INITIAL
    {
      this.program := program;
      groups := map[];
      context := NoName;
      deferred := [];
      called := [];
    }

    ghost function View(stage: Stage, queue: seq<Task>, script: seq<Call>): State
      reads this
    {
      State(stage, groups, context, queue, script, deferred, called)
    }

    method Defer(call: Call)
      modifies this
      ensures forall stage, queue, script :: View(stage, queue, script) == Defers(old(View(stage, queue, script)), call)
    {
      var name := Target(call);
      if name !in groups {
        groups := groups[name := Group([], {})];
      }
      if call.func.Some? {
        var task := Task(|deferred|, name, call.func.value);
        deferred := deferred + [task];
        groups := groups[name := groups[name].(funcs := groups[name].funcs + [task])];
      }
      groups := groups[name := groups[name].(after := groups[name].after + Names(call.after))];
      ghost var id := |old(deferred)|;
      assert groups[name] == Enlarged(old(groups), call, id);
      assert groups == old(groups)[name := Enlarged(old(groups), call, id)];
      assert deferred == old(deferred) + NewTask(call, id);
      if Truthy(context) && name != context {
        LinkOthers(name);
      }
      assert groups == Deferred(old(groups), context, call, id);
    }

    /** Makes the groups that wait for the running one wait for `name` too. */
    method LinkOthers(name: Name)
      requires Truthy(context) && name != context
      modifies this`groups
      ensures groups == map n | n in old(groups) ::
                if Linked(old(groups), context, name, n) then old(groups)[n].(after := old(groups)[n].after + {name})
                else old(groups)[n]
    {
      var others := groups.Keys;
      while others != {}
        invariant others <= groups.Keys == old(groups).Keys
        invariant forall n :: n in groups ==>
                    groups[n] == if n !in others && Linked(old(groups), context, name, n)
                                 then old(groups)[n].(after := old(groups)[n].after + {name}) else old(groups)[n]
      {
        var other :| other in others;
        others := others - {other};
        if other != name && context in groups[other].after {
          groups := groups[other := groups[other].(after := groups[other].after + {name})];
        }
      }
    }

    /** Calls the functions of a group that has been taken out, each of which defers what it will. */
    method RunGroup(tasks: seq<Task>, ghost start: State, ghost before: seq<Action>) returns (ghost run: seq<Action>)
      requires Goes(program, start, before, View(Executing, tasks, []))
      modifies this
      ensures Goes(program, start, run, View(Executing, [], [])) && Starts(run) == Starts(before)
    {
      hide Goes, Starts;
      run := before;
      var i := 0;
      while i < |tasks|
        invariant 0 <= i <= |tasks| && Starts(run) == Starts(before)
        invariant Goes(program, start, run, View(Executing, tasks[i..], []))
      {
        var func := tasks[i].func;
        GoesFurther(program, start, run, View(Executing, tasks[i..], []), Invoke(Body(program, func)));
        run := run + [Invoke(Body(program, func))];
        called := called + [tasks[i]];
        run := CallFunc(func, tasks[i + 1..], start, run);
        i := i + 1;
      }
      assert tasks[i..] == [];
    }

    method CallFunc(func: Func, ghost queue: seq<Task>, ghost start: State, ghost before: seq<Action>) returns (ghost run: seq<Action>)
      requires Goes(program, start, before, View(Executing, queue, Body(program, func)))
      modifies this
      ensures Goes(program, start, run, View(Executing, queue, [])) && Starts(run) == Starts(before)
    {
      hide Goes, Starts;
      run := before;
      var script := Body(program, func);
      var i := 0;
      while i < |script|
        invariant 0 <= i <= |script| && Starts(run) == Starts(before)
        invariant Goes(program, start, run, View(Executing, queue, script[i..]))
      {
        GoesFurther(program, start, run, View(Executing, queue, script[i..]), Request);
        run := run + [Request];
        Defer(script[i]);
        i := i + 1;
      }
      assert script[i..] == [];
    }

    /** Runs ready groups until none is left, or none is ready, or `limit` of them have been run: the
        functions may defer for ever. */
    method ExecuteDefer(limit: nat) returns (outcome: Outcome, ghost run: seq<Action>)
      modifies this
      ensures outcome.Reentrant? <==> Truthy(old(context))
      ensures outcome.Reentrant? ==> unchanged(this)
      ensures !outcome.Reentrant? ==> Goes(program, old(View(Executing, [], [])), run, View(outcome.Stage(), [], []))
      ensures outcome.Done? ==> groups == map[]
      ensures outcome.Cycle? ==> groups != map[] && forall n :: n in groups ==> !Ready(groups, n)
      ensures outcome.Running? ==> Starts(run) == limit
      ensures outcome.Running? ==> forall n: nat :: BoundedBy(program, old(View(Executing, [], [])), n) ==> limit <= n
    {
      if Truthy(context) {
        return Reentrant, [];
      }
      hide Goes, BoundedBy, Starts;
      ghost var start := View(Executing, [], []);
      GoesNowhere(program, start);
      NothingStarted();
      run := [];
      var count := 0;
      while groups != map[] && count < limit
        invariant Goes(program, start, run, View(Executing, [], [])) && Starts(run) == count <= limit
      {
        if name: Name :| name in groups && Ready(groups, name) {
          GoesFurther(program, start, run, View(Executing, [], []), Start(name));
          run := run + [Start(name)];
          var tasks := groups[name].funcs;
          context := name;
          groups := groups - {name};
          run := RunGroup(tasks, start, run);
          count := count + 1;
        } else {
          GoesFurther(program, start, run, View(Executing, [], []), Fail);
          run := run + [Fail];
          context := NoName;
          return Cycle, run;
        }
      }
      if groups != map[] {
        NotEnough(program, start, run, View(Executing, [], []));
        return Running, run;
      }
      GoesFurther(program, start, run, View(Executing, [], []), Finish);
      run := run + [Finish];
      context := NoName;
      return Done, run;
    }
  }

  lemma NothingStarted()
    ensures Starts([]) == 0
  {
  }

  /** A bound on the runs bounds the groups started. */
  lemma NotEnough(p: Program, s: State, run: seq<Action>, m: State)
    requires Goes(p, s, run, m)
    ensures forall n: nat :: BoundedBy(p, s, n) ==> Starts(run) <= n
  {
    StartsAtMost(run);
  }
}
