/** Whether `ExecuteDefer` comes to an end, given what each function defers when it is called. */
module DeferEnd {
  import opened Util
  import opened Defer

  /** What each function defers; the others defer nothing. */
  type Program = map<Func, seq<Call>>

  function Body(p: Program, f: Func): seq<Call> {
    if f in p then p[f] else []
  }

  /** Every function called in the run defers what the program says. */
  ghost predicate Obeys(p: Program, s: State, run: seq<Action>)
    requires CanRun(s, run)
    decreases |run|
  {
    run == [] || (
      && (run[0].Invoke? ==> run[0].script == Body(p, s.queue[0].func))
      && Obeys(p, Do(s, run[0]), run[1..]))
  }

  /** The steps of one call of `ExecuteDefer`. */
  predicate OneCall(run: seq<Action>) {
    forall i :: 0 <= i < |run| ==> !run[i].Collect? && !run[i].Begin?
  }

  ghost predicate BoundedBy(p: Program, s: State, n: nat) {
    forall run :: CanRun(s, run) && Obeys(p, s, run) && OneCall(run) ==> |run| <= n
  }

  ghost predicate Bounded(p: Program, s: State) {
    exists n: nat :: BoundedBy(p, s, n)
  }

  // ----- Functions that come to defer themselves -----

  ghost predicate DefersTo(p: Program, f: Func, g: Func) {
    exists i :: 0 <= i < |Body(p, f)| && Body(p, f)[i].func == Some(g)
  }

  ghost predicate IsChain(p: Program, chain: seq<Func>) {
    chain != [] && forall i :: 0 <= i < |chain| - 1 ==> DefersTo(p, chain[i], chain[i + 1])
  }

  /** The chain comes back to its `i`-th function. */
  ghost predicate Returns(p: Program, chain: seq<Func>, i: nat) {
    IsChain(p, chain) && i < |chain| - 1 && chain[i] == chain[|chain| - 1]
  }

  /** The function leads, by deferrals, to one that leads to itself. */
  ghost predicate Recurs(p: Program, f: Func) {
    exists chain, i :: Returns(p, chain, i) && chain[0] == f
  }

  ghost predicate RecursInTasks(p: Program, tasks: seq<Task>) {
    exists t :: t in tasks && Recurs(p, t.func)
  }

  ghost predicate RecursInScript(p: Program, script: seq<Call>) {
    exists c :: c in script && c.func.Some? && Recurs(p, c.func.value)
  }

  /** Some function still to be called, or about to be deferred, leads to one that leads to itself. */
  ghost predicate RecursIn(p: Program, s: State) {
    || (exists n :: n in s.groups && RecursInTasks(p, s.groups[n].funcs))
    || RecursInTasks(p, s.queue)
    || RecursInScript(p, s.script)
  }

  /** No chain of deferrals from the function has more than `k` steps. */
  ghost predicate Within(p: Program, f: Func, k: nat)
    decreases k
  {
    forall i :: 0 <= i < |Body(p, f)| && Body(p, f)[i].func.Some? ==> k > 0 && Within(p, Body(p, f)[i].func.value, k - 1)
  }

  lemma {:induction false} WithinMore(p: Program, f: Func, k: nat)
    requires Within(p, f, k)
    ensures Within(p, f, k + 1)
    decreases k
  {
    forall i | 0 <= i < |Body(p, f)| && Body(p, f)[i].func.Some? ensures Within(p, Body(p, f)[i].func.value, k) {
      WithinMore(p, Body(p, f)[i].func.value, k - 1);
    }
  }

  lemma {:induction false} LongChain(p: Program, f: Func, k: nat) returns (chain: seq<Func>)
    requires !Within(p, f, k)
    ensures IsChain(p, chain) && chain[0] == f && |chain| == k + 2
    decreases k
  {
    var i :| 0 <= i < |Body(p, f)| && Body(p, f)[i].func.Some? && !(k > 0 && Within(p, Body(p, f)[i].func.value, k - 1));
    var g := Body(p, f)[i].func.value;
    assert DefersTo(p, f, g);
    if k == 0 {
      chain := [f, g];
    } else {
      var rest := LongChain(p, g, k - 1);
      chain := [f] + rest;
    }
  }

  /** Too many functions for the set they are from: two are the same. */
  lemma {:induction false} Repeats(chain: seq<Func>, funcs: set<Func>) returns (i: nat, j: nat)
    requires |chain| > |funcs| && forall f :: f in chain ==> f in funcs
    ensures i < j < |chain| && chain[i] == chain[j]
    decreases |funcs|
  {
    var last := |chain| - 1;
    if k :| 0 <= k < last && chain[k] == chain[last] {
      i, j := k, last;
    } else {
      i, j := Repeats(chain[..last], funcs - {chain[last]});
    }
  }

  /** Without a return every chain is as short as the program. */
  lemma {:induction false} WithinUnlessRecurs(p: Program, f: Func)
    requires !Recurs(p, f)
    ensures Within(p, f, |p.Keys|)
  {
    var k := |p.Keys|;
    if !Within(p, f, k) {
      var chain := LongChain(p, f, k);
      forall g | g in chain[..k + 1] ensures g in p.Keys {
        var i :| 0 <= i < k + 1 && chain[i] == g;
        assert DefersTo(p, chain[i], chain[i + 1]);
      }
      var i, j := Repeats(chain[..k + 1], p.Keys);
      assert Returns(p, chain[..j + 1], i);
    }
  }

  /** Where a function leads to one that leads to itself, so does one that it defers. */
  lemma {:induction false} RecursNext(p: Program, f: Func) returns (i: nat)
    requires Recurs(p, f)
    ensures i < |Body(p, f)| && Body(p, f)[i].func.Some? && Recurs(p, Body(p, f)[i].func.value)
  {
    var chain: seq<Func>, k: nat :| Returns(p, chain, k) && chain[0] == f;
    var g := chain[1];
    assert DefersTo(p, chain[0], chain[0 + 1]);
    i :| 0 <= i < |Body(p, f)| && Body(p, f)[i].func == Some(g);
    var rest := chain[1..];
    forall m | 0 <= m < |rest| - 1 ensures DefersTo(p, rest[m], rest[m + 1]) {
      assert DefersTo(p, chain[m + 1], chain[m + 1 + 1]);
    }
    if k > 0 {
      assert Returns(p, rest, k - 1);
    } else {
      var back := rest + [g];
      forall m | 0 <= m < |back| - 1 ensures DefersTo(p, back[m], back[m + 1]) {
        if m == |rest| - 1 {
          assert back[m] == chain[0];
        } else {
          assert DefersTo(p, rest[m], rest[m + 1]);
        }
      }
      assert Returns(p, back, 0);
    }
  }

  // ----- Bounded unless a function recurs -----

  /** What calling a function amounts to, chains of deferrals followed for `k` steps. */
  function FuncWeight(p: Program, f: Func, k: nat): nat
    decreases k, 0, 0
  {
    1 + if k == 0 then 0 else ScriptWeight(p, Body(p, f), k - 1)
  }

  function CallWeight(p: Program, call: Call, k: nat): nat
    decreases k, 1, 0
  {
    2 + if call.func.Some? then FuncWeight(p, call.func.value, k) else 0
  }

  function ScriptWeight(p: Program, script: seq<Call>, k: nat): nat
    decreases k, 1, |script|
  {
    if script == [] then 0 else CallWeight(p, script[0], k) + ScriptWeight(p, script[1..], k)
  }

  function TasksWeight(p: Program, tasks: seq<Task>, k: nat): nat {
    if tasks == [] then 0 else FuncWeight(p, tasks[0].func, k) + TasksWeight(p, tasks[1..], k)
  }

  ghost function GroupsWeight(p: Program, groups: Groups, k: nat): nat
    decreases |groups|
  {
    if groups == map[] then 0
    else
      var n :| n in groups;
      1 + TasksWeight(p, groups[n].funcs, k) + GroupsWeight(p, groups - {n}, k)
  }

  /** What the calls still to be made and the groups still to be started amount to. */
  ghost function Measure(p: Program, s: State, k: nat): nat {
    GroupsWeight(p, s.groups, k) + TasksWeight(p, s.queue, k) + ScriptWeight(p, s.script, k)
  }

  ghost predicate WithinTasks(p: Program, tasks: seq<Task>, k: nat) {
    forall t :: t in tasks ==> Within(p, t.func, k)
  }

  ghost predicate WithinScript(p: Program, script: seq<Call>, k: nat) {
    forall c :: c in script && c.func.Some? ==> Within(p, c.func.value, k)
  }

  ghost predicate WithinAll(p: Program, s: State, k: nat) {
    && (forall n :: n in s.groups ==> WithinTasks(p, s.groups[n].funcs, k))
    && WithinTasks(p, s.queue, k)
    && WithinScript(p, s.script, k)
  }

  /** Following chains further than they are long adds nothing. */
  lemma {:induction false} FuncWeightIsStable(p: Program, f: Func, k: nat, m: nat)
    requires Within(p, f, k) && m > k
    ensures FuncWeight(p, f, m) == FuncWeight(p, f, m + 1)
    decreases k, 1, 0
  {
    if k == 0 {
      NoFuncs(p, Body(p, f), m - 1);
    } else {
      forall c | c in Body(p, f) && c.func.Some? ensures Within(p, c.func.value, k - 1) {
        var i :| 0 <= i < |Body(p, f)| && Body(p, f)[i] == c;
      }
      ScriptWeightIsStable(p, Body(p, f), k - 1, m - 1);
    }
  }

  lemma {:induction false} ScriptWeightIsStable(p: Program, script: seq<Call>, k: nat, m: nat)
    requires WithinScript(p, script, k) && m > k
    ensures ScriptWeight(p, script, m) == ScriptWeight(p, script, m + 1)
    decreases k, 2, |script|
  {
    if script != [] {
      assert script[0] in script;
      if script[0].func.Some? {
        FuncWeightIsStable(p, script[0].func.value, k, m);
      }
      ScriptWeightIsStable(p, script[1..], k, m);
    }
  }

  lemma {:induction false} NoFuncs(p: Program, script: seq<Call>, k: nat)
    requires forall i :: 0 <= i < |script| ==> script[i].func.None?
    ensures ScriptWeight(p, script, k) == ScriptWeight(p, script, k + 1)
    decreases |script|
  {
    if script != [] {
      NoFuncs(p, script[1..], k);
    }
  }

  /** Calling a function replaces its weight by what it is going to defer. */
  lemma {:induction false} BodyWeight(p: Program, f: Func, k: nat)
    requires Within(p, f, k)
    ensures FuncWeight(p, f, k + 1) == 1 + ScriptWeight(p, Body(p, f), k + 1)
    ensures WithinScript(p, Body(p, f), k)
  {
    forall c | c in Body(p, f) && c.func.Some? ensures k > 0 && Within(p, c.func.value, k - 1) {
      var i :| 0 <= i < |Body(p, f)| && Body(p, f)[i] == c;
    }
    if k == 0 {
      NoFuncs(p, Body(p, f), 0);
    } else {
      ScriptWeightIsStable(p, Body(p, f), k - 1, k);
      forall c | c in Body(p, f) && c.func.Some? ensures Within(p, c.func.value, k) {
        WithinMore(p, c.func.value, k - 1);
      }
    }
  }

  lemma {:induction false} WeightWithout(p: Program, groups: Groups, n: Name, k: nat)
    requires n in groups
    ensures GroupsWeight(p, groups, k) == 1 + TasksWeight(p, groups[n].funcs, k) + GroupsWeight(p, groups - {n}, k)
    decreases |groups|
  {
    hide TasksWeight;
    var m :| m in groups && GroupsWeight(p, groups, k) == 1 + TasksWeight(p, groups[m].funcs, k) + GroupsWeight(p, groups - {m}, k);
    if m != n {
      WeightWithout(p, groups - {m}, n, k);
      WeightWithout(p, groups - {n}, m, k);
      assert groups - {m} - {n} == groups - {n} - {m};
    }
  }

  /** The weight of groups does not depend on what they wait for. */
  lemma {:induction false} WeightOfFuncs(p: Program, groups: Groups, others: Groups, k: nat)
    requires groups.Keys == others.Keys && forall n :: n in groups ==> groups[n].funcs == others[n].funcs
    ensures GroupsWeight(p, groups, k) == GroupsWeight(p, others, k)
    decreases |groups|
  {
    if groups == map[] {
      assert others == map[];
    } else {
      var n :| n in groups;
      WeightWithout(p, groups, n, k);
      WeightWithout(p, others, n, k);
      WeightOfFuncs(p, groups - {n}, others - {n}, k);
    }
  }

  lemma {:induction false} TasksWeightOfTwo(p: Program, a: seq<Task>, b: seq<Task>, k: nat)
    ensures TasksWeight(p, a + b, k) == TasksWeight(p, a, k) + TasksWeight(p, b, k)
    decreases |a|
  {
    if a == [] {
      assert a + b == b;
    } else {
      TasksWeightOfTwo(p, a[1..], b, k);
      assert (a + b)[1..] == a[1..] + b;
    }
  }

  lemma NewTaskWeight(p: Program, call: Call, id: nat, k: nat)
    ensures TasksWeight(p, NewTask(call, id), k) + 2 == CallWeight(p, call, k)
  {
  }

  lemma {:induction false} DeferredWeight(p: Program, groups: Groups, context: Name, call: Call, id: nat, k: nat)
    ensures GroupsWeight(p, Deferred(groups, context, call, id), k) < GroupsWeight(p, groups, k) + CallWeight(p, call, k)
  {
    hide TasksWeight, CallWeight;
    var target := Target(call);
    var after := Deferred(groups, context, call, id);
    forall n | n in groups && n != target ensures after[n].funcs == groups[n].funcs {
      DeferredGroup(groups, context, call, id, n);
    }
    WeightWithout(p, after, target, k);
    DeferredGroup(groups, context, call, id, target);
    WeightOfFuncs(p, after - {target}, groups - {target}, k);
    NewTaskWeight(p, call, id, k);
    if target in groups {
      WeightWithout(p, groups, target, k);
      TasksWeightOfTwo(p, groups[target].funcs, NewTask(call, id), k);
    } else {
      assert groups - {target} == groups && [] + NewTask(call, id) == NewTask(call, id);
    }
  }

  lemma {:induction false} DeferredWithin(p: Program, groups: Groups, context: Name, call: Call, id: nat, k: nat)
    requires forall n :: n in groups ==> WithinTasks(p, groups[n].funcs, k)
    requires call.func.Some? ==> Within(p, call.func.value, k)
    ensures var after := Deferred(groups, context, call, id);
            forall n :: n in after ==> WithinTasks(p, after[n].funcs, k)
  {
    hide Within, Deferred;
    var after := Deferred(groups, context, call, id);
    forall n | n in after ensures WithinTasks(p, after[n].funcs, k) {
      DeferredGroup(groups, context, call, id, n);
    }
  }

  ghost predicate ObeysOnce(p: Program, s: State, a: Action)
    requires Enabled(s, a)
  {
    !a.Collect? && !a.Begin? && (a.Invoke? ==> a.script == Body(p, s.queue[0].func))
  }

  /** Whatever is picked, a step leaves less to do, if chains of deferrals are no longer than `k`. */
  lemma {:induction false} StepGetsCloser(p: Program, s: State, a: Action, k: nat)
    requires Enabled(s, a) && ObeysOnce(p, s, a) && !a.Finish? && !a.Fail?
    requires WithinAll(p, s, k)
    ensures WithinAll(p, Do(s, a), k) && Measure(p, Do(s, a), k + 1) < Measure(p, s, k + 1)
  {
    hide Within, Deferred, FuncWeight, CallWeight;
    match a {
      case Start(name) => WeightWithout(p, s.groups, name, k + 1);
      case Invoke(script) =>
        assert s.queue[0] in s.queue;
        BodyWeight(p, s.queue[0].func, k);
      case Request =>
        assert s.script[0] in s.script;
        DeferredWeight(p, s.groups, s.context, s.script[0], |s.deferred|, k + 1);
        DeferredWithin(p, s.groups, s.context, s.script[0], |s.deferred|, k);
    }
  }

  lemma NothingAfterTheEnd(s: State, run: seq<Action>)
    requires s.stage != Executing && CanRun(s, run) && OneCall(run)
    ensures run == []
  {
  }

  lemma {:induction false} RunIsShort(p: Program, s: State, run: seq<Action>, k: nat)
    requires CanRun(s, run) && Obeys(p, s, run) && OneCall(run) && WithinAll(p, s, k)
    ensures |run| <= Measure(p, s, k + 1) + 1
    decreases |run|
  {
    hide WithinAll, Measure;
    if run != [] {
      var a := run[0];
      if a.Finish? || a.Fail? {
        NothingAfterTheEnd(Do(s, a), run[1..]);
      } else {
        StepGetsCloser(p, s, a, k);
        RunIsShort(p, Do(s, a), run[1..], k);
      }
    }
  }

  /** If no function leads to one that leads to itself, every call of `ExecuteDefer` ends: whatever
      ready groups are picked and whatever waits for what, its runs are no longer than this. */
  lemma {:induction false} EndsUnlessRecurring(p: Program, s: State)
    requires !RecursIn(p, s)
    ensures BoundedBy(p, s, Measure(p, s, |p.Keys| + 1) + 1)
  {
    var k := |p.Keys|;
    forall n | n in s.groups ensures WithinTasks(p, s.groups[n].funcs, k) {
      TasksWithin(p, s.groups[n].funcs);
    }
    TasksWithin(p, s.queue);
    forall c | c in s.script && c.func.Some? ensures Within(p, c.func.value, k) {
      WithinUnlessRecurs(p, c.func.value);
    }
    assert WithinAll(p, s, k);
    hide WithinAll, Measure, RecursIn;
    forall run | CanRun(s, run) && Obeys(p, s, run) && OneCall(run) ensures |run| <= Measure(p, s, k + 1) + 1 {
      RunIsShort(p, s, run, k);
    }
  }

  lemma TasksWithin(p: Program, tasks: seq<Task>)
    requires !RecursInTasks(p, tasks)
    ensures WithinTasks(p, tasks, |p.Keys|)
  {
    hide Within, Recurs;
    forall t | t in tasks ensures Within(p, t.func, |p.Keys|) {
      WithinUnlessRecurs(p, t.func);
    }
  }

  // ----- Unbounded where nothing waits -----

  predicate NoAfter(script: seq<Call>) {
    forall c :: c in script ==> c.after == {}
  }

  /** No group waits for another, and no function makes one. */
  ghost predicate Unwaiting(p: Program, s: State) {
    && (forall f :: f in p ==> NoAfter(p[f]))
    && (forall n :: n in s.groups ==> s.groups[n].after == {})
    && NoAfter(s.script)
  }

  lemma {:induction false} DeferredUnwaiting(groups: Groups, context: Name, call: Call, id: nat)
    requires (forall n :: n in groups ==> groups[n].after == {}) && call.after == {}
    ensures var after := Deferred(groups, context, call, id); forall n :: n in after ==> after[n].after == {}
  {
    hide Deferred;
    var after := Deferred(groups, context, call, id);
    forall n | n in after ensures after[n].after == {} {
      DeferredGroup(groups, context, call, id, n);
    }
  }

  lemma {:induction false} DeferredKeepsTasks(p: Program, groups: Groups, context: Name, call: Call, id: nat)
    ensures var after := Deferred(groups, context, call, id);
            && (call.func.Some? && Recurs(p, call.func.value) ==> exists n :: n in after && RecursInTasks(p, after[n].funcs))
            && ((exists n :: n in groups && RecursInTasks(p, groups[n].funcs)) ==> exists n :: n in after && RecursInTasks(p, after[n].funcs))
  {
    hide Deferred, Recurs;
    var after := Deferred(groups, context, call, id);
    if call.func.Some? && Recurs(p, call.func.value) {
      DeferredGroup(groups, context, call, id, Target(call));
      assert NewTask(call, id)[0] in after[Target(call)].funcs;
    }
    if n :| n in groups && RecursInTasks(p, groups[n].funcs) {
      DeferredGroup(groups, context, call, id, n);
      var t :| t in groups[n].funcs && Recurs(p, t.func);
      assert t in after[n].funcs;
    }
  }

  lemma {:induction false} RequestGoesOn(p: Program, s: State)
    requires s.stage == Executing && Unwaiting(p, s) && RecursIn(p, s) && s.script != []
    ensures Unwaiting(p, Do(s, Request)) && RecursIn(p, Do(s, Request))
  {
    hide Deferred, Recurs, RecursInTasks;
    assert s.script[0] in s.script;
    DeferredUnwaiting(s.groups, s.context, s.script[0], |s.deferred|);
    DeferredKeepsTasks(p, s.groups, s.context, s.script[0], |s.deferred|);
    if c :| c in s.script && c.func.Some? && Recurs(p, c.func.value) {
      assert c == s.script[0] || c in s.script[1..];
    }
  }

  lemma {:induction false} InvokeGoesOn(p: Program, s: State) returns (a: Action)
    requires s.stage == Executing && Unwaiting(p, s) && RecursIn(p, s) && s.script == [] && s.queue != []
    ensures a.Invoke? && Enabled(s, a) && ObeysOnce(p, s, a) && Unwaiting(p, Do(s, a)) && RecursIn(p, Do(s, a))
  {
    hide Recurs;
    var f := s.queue[0].func;
    a := Invoke(Body(p, f));
    if Recurs(p, f) {
      var i := RecursNext(p, f);
      assert Body(p, f)[i] in Body(p, f);
    } else if RecursInTasks(p, s.queue) {
      var t :| t in s.queue && Recurs(p, t.func);
      assert t in s.queue[1..];
    }
  }

  lemma {:induction false} StartGoesOn(p: Program, s: State) returns (a: Action)
    requires Choosing(s) && Unwaiting(p, s) && RecursIn(p, s)
    ensures a.Start? && Enabled(s, a) && ObeysOnce(p, s, a) && Unwaiting(p, Do(s, a)) && RecursIn(p, Do(s, a))
  {
    hide Recurs;
    var n :| n in s.groups && RecursInTasks(p, s.groups[n].funcs);
    a := Start(n);
  }

  /** Where nothing waits and a function recurs, `ExecuteDefer` has always another step to make. */
  lemma {:induction false} GoesOn(p: Program, s: State) returns (a: Action)
    requires s.stage == Executing && Unwaiting(p, s) && RecursIn(p, s)
    ensures Enabled(s, a) && ObeysOnce(p, s, a) && Do(s, a).stage == Executing
    ensures Unwaiting(p, Do(s, a)) && RecursIn(p, Do(s, a))
  {
    hide Unwaiting, RecursIn;
    if s.script != [] {
      RequestGoesOn(p, s);
      a := Request;
    } else if s.queue != [] {
      a := InvokeGoesOn(p, s);
    } else {
      a := StartGoesOn(p, s);
    }
  }

  lemma {:induction false} RunsOn(p: Program, s: State, n: nat) returns (run: seq<Action>)
    requires s.stage == Executing && Unwaiting(p, s) && RecursIn(p, s)
    ensures CanRun(s, run) && Obeys(p, s, run) && OneCall(run) && |run| == n
    decreases n
  {
    hide Unwaiting, RecursIn;
    if n == 0 {
      run := [];
    } else {
      var a := GoesOn(p, s);
      var rest := RunsOn(p, Do(s, a), n - 1);
      run := [a] + rest;
      assert run[1..] == rest;
    }
  }

  /** Where nothing waits for anything, `ExecuteDefer` ends if and only if no function still to be
      called leads to one that leads to itself. */
  lemma {:induction false} EndsIff(p: Program, s: State)
    requires s.stage == Executing && Unwaiting(p, s)
    ensures Bounded(p, s) <==> !RecursIn(p, s)
  {
    hide Unwaiting, RecursIn;
    if !RecursIn(p, s) {
      EndsUnlessRecurring(p, s);
    } else if Bounded(p, s) {
      var n: nat :| BoundedBy(p, s, n);
      var run := RunsOn(p, s, n + 1);
    }
  }

  // ----- Whatever waits for what -----

  predicate SameScript(a: seq<Call>, b: seq<Call>) {
    |a| == |b| && forall i :: 0 <= i < |a| ==> a[i].name == b[i].name && a[i].func == b[i].func
  }

  /** The same deferrals, but for the groups they wait for. */
  ghost predicate SameDeferrals(p: Program, q: Program) {
    p.Keys == q.Keys && forall f :: f in p ==> SameScript(p[f], q[f])
  }

  ghost predicate SameButAfter(s: State, t: State) {
    && t == s.(groups := t.groups, script := t.script)
    && s.groups.Keys == t.groups.Keys && (forall n :: n in s.groups ==> s.groups[n].funcs == t.groups[n].funcs)
    && SameScript(s.script, t.script)
  }

  lemma {:induction false} SameRecurs(p: Program, q: Program, f: Func)
    requires SameDeferrals(p, q) && Recurs(p, f)
    ensures Recurs(q, f)
  {
    var chain: seq<Func>, i: nat :| Returns(p, chain, i) && chain[0] == f;
    forall m | 0 <= m < |chain| - 1 ensures DefersTo(q, chain[m], chain[m + 1]) {
      assert DefersTo(p, chain[m], chain[m + 1]);
      var k :| 0 <= k < |Body(p, chain[m])| && Body(p, chain[m])[k].func == Some(chain[m + 1]);
      assert Body(q, chain[m])[k].func == Some(chain[m + 1]);
    }
    assert Returns(q, chain, i);
  }

  lemma {:induction false} SameRecursIn(p: Program, q: Program, s: State, t: State)
    requires SameDeferrals(p, q) && SameButAfter(s, t) && RecursIn(p, s)
    ensures RecursIn(q, t)
  {
    hide Recurs, SameDeferrals;
    forall f | Recurs(p, f) ensures Recurs(q, f) {
      SameRecurs(p, q, f);
    }
    if n :| n in s.groups && RecursInTasks(p, s.groups[n].funcs) {
      assert RecursInTasks(q, t.groups[n].funcs);
    }
    if RecursInScript(p, s.script) {
      var c :| c in s.script && c.func.Some? && Recurs(p, c.func.value);
      var i :| 0 <= i < |s.script| && s.script[i] == c;
      assert t.script[i] in t.script;
    }
  }

  lemma SameBackwards(p: Program, q: Program, s: State, t: State)
    requires SameDeferrals(p, q) && SameButAfter(s, t)
    ensures SameDeferrals(q, p) && SameButAfter(t, s)
  {
  }

  function Unlinked(script: seq<Call>): (r: seq<Call>)
    ensures SameScript(script, r) && NoAfter(r)
  {
    if script == [] then [] else [script[0].(after := {})] + Unlinked(script[1..])
  }

  lemma {:induction false} WithoutAfter(p: Program, s: State) returns (q: Program, t: State)
    ensures SameDeferrals(p, q) && SameButAfter(s, t) && Unwaiting(q, t)
  {
    q := map f | f in p :: Unlinked(p[f]);
    var groups := map n | n in s.groups :: s.groups[n].(after := {});
    t := s.(groups := groups, script := Unlinked(s.script));
  }

  /** The deferrals alone make every call of `ExecuteDefer` end, whatever the groups and the deferred
      functions wait for, if and only if no function still to be called leads to one that leads to
      itself. */
  lemma {:induction false} EndsWhateverWaitsIff(p: Program, s: State)
    requires s.stage == Executing
    ensures (forall q, t :: SameDeferrals(p, q) && SameButAfter(s, t) ==> Bounded(q, t)) <==> !RecursIn(p, s)
  {
    hide RecursIn, Bounded, SameDeferrals, SameButAfter, Unwaiting;
    forall q, t | SameDeferrals(p, q) && SameButAfter(s, t)
      ensures RecursIn(p, s) <==> RecursIn(q, t)
      ensures !RecursIn(q, t) ==> Bounded(q, t)
    {
      SameBackwards(p, q, s, t);
      if RecursIn(p, s) {
        SameRecursIn(p, q, s, t);
      }
      if RecursIn(q, t) {
        SameRecursIn(q, p, t, s);
      } else {
        NotRecurringIsBounded(q, t);
      }
    }
    if RecursIn(p, s) {
      var q, t := WithoutAfter(p, s);
      assert t.stage == Executing by {
        SameStage(s, t);
      }
      EndsIff(q, t);
    }
  }

  lemma NotRecurringIsBounded(p: Program, s: State)
    requires !RecursIn(p, s)
    ensures Bounded(p, s)
  {
    EndsUnlessRecurring(p, s);
  }

  lemma SameStage(s: State, t: State)
    requires SameButAfter(s, t)
    ensures s.stage == t.stage
  {
  }

  // ----- Runs step by step -----

  /** A run of one call that obeys the program. */
  ghost predicate Goes(p: Program, s: State, run: seq<Action>, m: State) {
    Leads(s, run, m) && Obeys(p, s, run) && OneCall(run)
  }

  lemma GoesNowhere(p: Program, s: State)
    ensures Goes(p, s, [], s)
  {
  }

  function Starts(run: seq<Action>): nat {
    if run == [] then 0 else (if run[0].Start? then 1 else 0) + Starts(run[1..])
  }

  lemma {:induction false} StartsJoin(one: seq<Action>, two: seq<Action>)
    ensures Starts(one + two) == Starts(one) + Starts(two)
    decreases |one|
  {
    if one == [] {
      assert one + two == two;
    } else {
      StartsJoin(one[1..], two);
      assert (one + two)[1..] == one[1..] + two;
    }
  }

  lemma Prepended(p: Program, s: State, a: Action, rest: seq<Action>)
    requires Enabled(s, a) && (a.Invoke? ==> a.script == Body(p, s.queue[0].func))
    requires CanRun(Do(s, a), rest) && Obeys(p, Do(s, a), rest)
    ensures CanRun(s, [a] + rest) && Obeys(p, s, [a] + rest)
    ensures AfterRun(s, [a] + rest) == AfterRun(Do(s, a), rest)
    ensures Starts([a] + rest) == Starts(rest) + if a.Start? then 1 else 0
  {
    assert ([a] + rest)[1..] == rest;
  }

  lemma {:induction false} Joins(s: State, one: seq<Action>, two: seq<Action>, p: Program)
    requires CanRun(s, one) && CanRun(AfterRun(s, one), two) && Obeys(p, s, one) && Obeys(p, AfterRun(s, one), two)
    ensures CanRun(s, one + two) && AfterRun(s, one + two) == AfterRun(AfterRun(s, one), two) && Obeys(p, s, one + two)
    decreases |one|
  {
    RunsJoin(s, one, two);
    hide Enabled, Do, Starts, Body;
    if one == [] {
      assert one + two == two;
    } else {
      Joins(Do(s, one[0]), one[1..], two, p);
      Prepended(p, s, one[0], one[1..] + two);
      assert one + two == [one[0]] + (one[1..] + two);
    }
  }

  lemma {:induction false} GoesFurther(p: Program, s: State, run: seq<Action>, m: State, a: Action)
    requires Goes(p, s, run, m) && Enabled(m, a) && ObeysOnce(p, m, a)
    ensures Goes(p, s, run + [a], Do(m, a))
    ensures Starts(run + [a]) == Starts(run) + if a.Start? then 1 else 0
  {
    Prepended(p, m, a, []);
    assert [a] + [] == [a];
    Joins(s, run, [a], p);
    StartsJoin(run, [a]);
  }

  lemma {:induction false} StartsAtMost(run: seq<Action>)
    ensures Starts(run) <= |run|
  {
    if run != [] {
      StartsAtMost(run[1..]);
    }
  }

  // ----- Two functions that defer themselves -----

  const SELF := Func("self", 0)
  const AGAIN := Call(None, Some(SELF), {})
  const AGAIN_AFTER := Call(None, Some(SELF), {"self"})

  /** Only the group `self` is pending, with its one function, waiting for nothing. */
  predicate Alone(s: State) {
    && Choosing(s) && s.groups.Keys == {Named("self")}
    && var g := s.groups[Named("self")]; g.after == {} && |g.funcs| == 1 && g.funcs[0].func == SELF
  }

  lemma {:induction false} RoundOfSelf(s: State, call: Call) returns (run: seq<Action>, after: State)
    requires Alone(s) && Target(call) == Named("self") && call.func == Some(SELF)
    ensures CanRun(s, run) && AfterRun(s, run) == after && Obeys(map[SELF := [call]], s, run) && Starts(run) == 1
    ensures Choosing(after) && after.groups.Keys == {Named("self")}
    ensures var g := after.groups[Named("self")];
            g.after == Names(call.after) && |g.funcs| == 1 && g.funcs[0].func == SELF
  {
    hide Deferred;
    var p: Program := map[SELF := [call]];
    var a, b, c := Start(Named("self")), Invoke([call]), Request;
    var s1 := Do(s, a);
    var s2 := Do(s1, b);
    after := Do(s2, c);
    AloneAgain(s2.groups, s2.context, call, |s2.deferred|);
    Prepended(p, s2, c, []);
    Prepended(p, s1, b, [c] + []);
    Prepended(p, s, a, [b] + ([c] + []));
    run := [a] + ([b] + ([c] + []));
  }

  lemma AloneAgain(groups: Groups, context: Name, call: Call, id: nat)
    requires groups == map[] && Target(call) == Named("self") && call.func == Some(SELF)
    ensures var after := Deferred(groups, context, call, id);
            && after.Keys == {Named("self")} && after[Named("self")].after == Names(call.after)
            && |after[Named("self")].funcs| == 1 && after[Named("self")].funcs[0].func == SELF
  {
    hide Deferred;
    DeferredGroup(groups, context, call, id, Named("self"));
    forall n ensures n in Deferred(groups, context, call, id) <==> n == Named("self") {
      DeferredGroup(groups, context, call, id, n);
    }
  }

  /** A function that defers itself keeps `ExecuteDefer` going: its group is started any number of times. */
  lemma {:induction false} SelfDeferringNeverEnds(n: nat) returns (run: seq<Action>, s: State)
    ensures Leads(INITIAL, run, s) && Obeys(map[SELF := [AGAIN]], INITIAL, run) && Starts(run) == n && Alone(s)
    decreases n
  {
    hide Deferred;
    var p: Program := map[SELF := [AGAIN]];
    if n == 0 {
      AloneAgain(map[], NoName, AGAIN, 0);
      var s1 := Do(INITIAL, Collect(AGAIN));
      s := Do(s1, Begin);
      Prepended(p, s1, Begin, []);
      Prepended(p, INITIAL, Collect(AGAIN), [Begin] + []);
      run := [Collect(AGAIN)] + ([Begin] + []);
    } else {
      var before, m := SelfDeferringNeverEnds(n - 1);
      var round;
      round, s := RoundOfSelf(m, AGAIN);
      Joins(INITIAL, before, round, p);
      StartsJoin(before, round);
      run := before + round;
    }
  }

  /** A recurring function need not: if it defers itself after itself, the first round ends in the
      cycle error. */
  lemma {:induction false} SelfWaitingEnds(s: State) returns (run: seq<Action>, after: State)
    requires Alone(s)
    ensures Recurs(map[SELF := [AGAIN_AFTER]], SELF)
    ensures Leads(s, run, after) && Obeys(map[SELF := [AGAIN_AFTER]], s, run) && Starts(run) == 1 && Enabled(after, Fail)
  {
    var p: Program := map[SELF := [AGAIN_AFTER]];
    assert Body(p, SELF)[0].func == Some(SELF);
    assert Returns(p, [SELF, SELF], 0);
    run, after := RoundOfSelf(s, AGAIN_AFTER);
    assert Named("self") in after.groups[Named("self")].after;
  }
}
