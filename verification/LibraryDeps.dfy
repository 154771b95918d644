/** The order of libraries on a link line: a depth-first closure of the dependency relation that
    revisits what it is asked for and is reversed at the end. */
module LibraryDeps {

  type Lib = string

  /** What a library depends on directly; the relation may be cyclic. */
  type Relation = map<Lib, seq<Lib>>

  function Deps(deps: Relation, l: Lib): seq<Lib> {
    if l in deps then deps[l] else []
  }

  // ----- Reachability -----

  ghost predicate IsPath(deps: Relation, path: seq<Lib>) {
    path != [] && forall i :: 0 < i < |path| ==> path[i] in Deps(deps, path[i - 1])
  }

  ghost predicate PathBetween(deps: Relation, path: seq<Lib>, a: Lib, b: Lib) {
    IsPath(deps, path) && path[0] == a && path[|path| - 1] == b
  }

  ghost predicate Reaches(deps: Relation, a: Lib, b: Lib) {
    exists path :: PathBetween(deps, path, a, b)
  }

  ghost predicate ReachableFrom(deps: Relation, libraries: seq<Lib>, l: Lib) {
    exists a :: a in libraries && Reaches(deps, a, l)
  }

  lemma {:induction false} ReachesSelf(deps: Relation, a: Lib)
    ensures Reaches(deps, a, a)
  {
    assert PathBetween(deps, [a], a, a);
  }

  lemma {:induction false} ReachesOneMore(deps: Relation, a: Lib, b: Lib, c: Lib)
    requires Reaches(deps, a, b) && c in Deps(deps, b)
    ensures Reaches(deps, a, c)
  {
    var path :| PathBetween(deps, path, a, b);
    assert PathBetween(deps, path + [c], a, c);
  }

  lemma {:induction false} ReachesOneBefore(deps: Relation, a: Lib, b: Lib, c: Lib)
    requires b in Deps(deps, a) && Reaches(deps, b, c)
    ensures Reaches(deps, a, c)
  {
    var path :| PathBetween(deps, path, b, c);
    assert PathBetween(deps, [a] + path, a, c);
  }

  /** A set that contains the dependencies of its members contains what they reach. */
  lemma {:induction false} ClosedHoldsReachable(deps: Relation, s: set<Lib>, path: seq<Lib>)
    requires IsPath(deps, path) && path[0] in s
    requires forall l, d :: l in s && d in Deps(deps, l) ==> d in s
    ensures path[|path| - 1] in s
    decreases |path|
  {
    if |path| > 1 {
      assert path[1] in Deps(deps, path[0]);
      ClosedHoldsReachable(deps, s, path[1..]);
    }
  }

  /** Every library that a visit can meet. */
  ghost function Universe(deps: Relation): set<Lib> {
    set l, d | l in deps && d in deps[l] :: d
  }

  // ----- What a link line is meant to be -----

  ghost predicate Subsequence(a: seq<Lib>, b: seq<Lib>)
    decreases |b|
  {
    a == [] || (b != [] && ((a[0] == b[0] && Subsequence(a[1..], b[1..])) || Subsequence(a, b[1..])))
  }

  /** Each dependency occurs after every occurrence of its dependent, but for those on a cycle. */
  ghost predicate Ordered(deps: Relation, line: seq<Lib>) {
    forall i, d :: 0 <= i < |line| && d in Deps(deps, line[i]) ==> d in line[i + 1..] || Reaches(deps, d, line[i])
  }

  /** Asked for, or not, `l` is needed by something asked for after the last time `l` is. */
  ghost predicate NeededLater(deps: Relation, libraries: seq<Lib>, l: Lib) {
    exists k :: 0 <= k <= |libraries| && l !in libraries[k..] && ReachableFrom(deps, libraries[k..], l)
  }

  ghost function Occurrences(deps: Relation, libraries: seq<Lib>, l: Lib): nat {
    multiset(libraries)[l] + if NeededLater(deps, libraries, l) then 1 else 0
  }

  /** The link line promised: what the arguments reach, with the arguments in order, dependencies
      after their dependents, and every library as often as it is asked for, and once more if
      something asked for after that needs it. */
  ghost predicate IsLine(deps: Relation, libraries: seq<Lib>, line: seq<Lib>) {
    && (forall l :: l in line <==> ReachableFrom(deps, libraries, l))
    && Subsequence(libraries, line)
    && Ordered(deps, line)
    && (forall l :: multiset(line)[l] == Occurrences(deps, libraries, l))
  }

  // ----- The visit, in the order it collects -----

  ghost function Elements(s: seq<Lib>): set<Lib> {
    set l | l in s
  }

  ghost predicate Distinct(s: seq<Lib>) {
    forall i, j :: 0 <= i < j < |s| ==> s[i] != s[j]
  }

  /** `Ordered`, read backwards. */
  ghost predicate Collected(deps: Relation, closure: seq<Lib>) {
    forall i, d :: 0 <= i < |closure| && d in Deps(deps, closure[i]) ==> d in closure[..i] || Reaches(deps, d, closure[i])
  }

  /** Between two steps of the visit: what was visited was collected or is being visited (`open`),
      and what was collected has its dependencies visited. */
  ghost predicate Sound(deps: Relation, visited: set<Lib>, closure: seq<Lib>, open: set<Lib>) {
    && visited == Elements(closure) + open
    && (forall l, d :: l in closure && d in Deps(deps, l) ==> d in visited)
    && Collected(deps, closure)
  }

  ghost predicate Before(s: seq<Lib>, a: Lib, b: Lib) {
    exists i, j :: 0 <= i < j < |s| && s[i] == a && s[j] == b
  }

  /** `x` was collected for the `j`-th of the libraries, or for what that needs, and everything listed
      behind that one came first. */
  ghost predicate CollectedFor(deps: Relation, libraries: seq<Lib>, out: seq<Lib>, x: Lib, j: nat)
    requires j < |libraries|
  {
    && Reaches(deps, libraries[j], x)
    && forall q :: j < q < |libraries| && libraries[q] in out && libraries[q] != x ==> Before(out, libraries[q], x)
  }

  /** What is collected for a list of libraries, from its `i`-th on, is collected last first. */
  ghost predicate LastFirst(deps: Relation, libraries: seq<Lib>, i: nat, out: seq<Lib>) {
    forall x :: x in out ==> exists j :: i <= j < |libraries| && CollectedFor(deps, libraries, out, x, j)
  }

  lemma {:induction false} LastFirstGrows(deps: Relation, libraries: seq<Lib>, i: nat, out: seq<Lib>, more: seq<Lib>)
    requires i < |libraries| && LastFirst(deps, libraries, i + 1, out)
    requires forall x :: x in more ==> Reaches(deps, libraries[i], x)
    requires forall q :: i < q < |libraries| ==> libraries[q] !in more
    ensures LastFirst(deps, libraries, i, out + more)
  {
    hide Reaches;
    var all := out + more;
    forall x | x in all ensures exists j :: i <= j < |libraries| && CollectedFor(deps, libraries, all, x, j) {
      if x in out {
        var j :| i + 1 <= j < |libraries| && CollectedFor(deps, libraries, out, x, j);
        forall q | j < q < |libraries| && libraries[q] in all && libraries[q] != x ensures Before(all, libraries[q], x) {
          BeforeStays(out, more, libraries[q], x);
        }
        assert CollectedFor(deps, libraries, all, x, j);
      } else {
        forall q | i < q < |libraries| && libraries[q] in all && libraries[q] != x ensures Before(all, libraries[q], x) {
          BeforeMore(out, more, libraries[q], x);
        }
        assert CollectedFor(deps, libraries, all, x, i);
      }
    }
  }

  lemma BeforeStays(s: seq<Lib>, more: seq<Lib>, a: Lib, b: Lib)
    requires Before(s, a, b)
    ensures Before(s + more, a, b)
  {
    var i, j :| 0 <= i < j < |s| && s[i] == a && s[j] == b;
    assert (s + more)[i] == a && (s + more)[j] == b;
  }

  lemma BeforeMore(s: seq<Lib>, more: seq<Lib>, a: Lib, b: Lib)
    requires a in s && b in more
    ensures Before(s + more, a, b)
  {
    var i :| 0 <= i < |s| && s[i] == a;
    var j :| 0 <= j < |more| && more[j] == b;
    assert (s + more)[i] == a && (s + more)[|s| + j] == b;
  }

  lemma SkippedIsLastFirst(deps: Relation, libraries: seq<Lib>, i: nat, out: seq<Lib>)
    requires LastFirst(deps, libraries, i + 1, out)
    ensures LastFirst(deps, libraries, i, out)
  {
    hide CollectedFor;
  }

  lemma {:induction false} CollectOne(deps: Relation, visited: set<Lib>, closure: seq<Lib>, open: set<Lib>, l: Lib)
    requires Sound(deps, visited, closure, open + {l})
    requires forall d :: d in Deps(deps, l) ==> d in visited
    requires forall g :: g in open ==> Reaches(deps, g, l)
    ensures Sound(deps, visited, closure + [l], open)
  {
    ReachesSelf(deps, l);
    var now := closure + [l];
    forall i, d | 0 <= i < |now| && d in Deps(deps, now[i])
      ensures d in now[..i] || Reaches(deps, d, now[i])
    {
      if i < |closure| {
        assert now[..i] == closure[..i];
      } else {
        assert now[..i] == closure;
      }
    }
  }

  lemma InUniverse(deps: Relation, parent: Lib, l: Lib)
    requires l in Deps(deps, parent)
    ensures l in Universe(deps)
  {
    assert parent in deps && l in deps[parent];
  }

  lemma NewOnes(visited: set<Lib>, out: seq<Lib>)
    requires out != [] && out[|out| - 1] !in visited && forall l :: l in out[..|out| - 1] ==> l !in visited
    ensures Elements(out) !! visited && out[|out| - 1] in Elements(out)
  {
    forall l | l in out ensures l !in visited {
      var i :| 0 <= i < |out| && out[i] == l;
      assert i < |out| - 1 ==> out[..|out| - 1][i] == l;
    }
  }

  lemma NoneListedBehind(libraries: seq<Lib>, i: nat, before: set<Lib>, more: seq<Lib>)
    requires i < |libraries| && Elements(more) !! before && forall l :: l in libraries[i + 1..] ==> l in before
    ensures forall q :: i < q < |libraries| ==> libraries[q] !in more
  {
    forall q | i < q < |libraries| ensures libraries[q] !in more {
      assert libraries[q] == libraries[i + 1..][q - i - 1];
      assert libraries[q] !in Elements(more);
    }
  }

  lemma DistinctTogether(a: seq<Lib>, b: seq<Lib>)
    requires Distinct(a) && Distinct(b) && Elements(a) !! Elements(b)
    ensures Distinct(a + b) && Elements(a + b) == Elements(a) + Elements(b)
  {
    forall i, j | 0 <= i < j < |a + b| ensures (a + b)[i] != (a + b)[j] {
      if i < |a| <= j {
        assert a[i] in Elements(a) && b[j - |a|] in Elements(b);
      }
    }
  }

  lemma AllReachOneMore(deps: Relation, open: set<Lib>, parent: Lib, l: Lib)
    requires l in Deps(deps, parent) && forall g :: g in open ==> Reaches(deps, g, parent)
    ensures forall g :: g in open ==> Reaches(deps, g, l)
  {
    forall g | g in open ensures Reaches(deps, g, l) {
      ReachesOneMore(deps, g, parent, l);
    }
  }

  lemma ReachesAllOf(deps: Relation, parent: Lib, library: Lib, out: seq<Lib>)
    requires library in Deps(deps, parent) && forall l :: l in out ==> Reaches(deps, library, l)
    ensures forall l :: l in out ==> Reaches(deps, parent, l)
  {
    forall l | l in out ensures Reaches(deps, parent, l) {
      ReachesOneBefore(deps, parent, library, l);
    }
  }

  class Visit {
    const deps: Relation
    var visited: set<Lib>
    var closure: seq<Lib>

    constructor (deps: Relation)
      ensures this.deps == deps && visited == {} && closure == []
    {
      this.deps := deps;
      visited := {};
      closure := [];
    }

    /** Visits the unvisited ones of some dependencies of `parent`, last first. */
    method VisitList(libraries: seq<Lib>, ghost parent: Lib, ghost open: set<Lib>) returns (ghost out: seq<Lib>)
      requires Sound(deps, visited, closure, open)
      requires forall l :: l in libraries ==> l in Deps(deps, parent)
      requires forall g :: g in open ==> Reaches(deps, g, parent)
      modifies this
      ensures Sound(deps, visited, closure, open)
      ensures closure == old(closure) + out
      ensures visited == old(visited) + Elements(out) && Elements(out) !! old(visited) && Distinct(out)
      ensures forall l :: l in libraries ==> l in visited
      ensures forall l :: l in out ==> Reaches(deps, parent, l)
      ensures LastFirst(deps, libraries, 0, out)
      decreases Universe(deps) - visited, 0
    {
      out := [];
      assert Distinct(out) && Elements(out) == {} && LastFirst(deps, libraries, |libraries|, out);
      hide Sound, Reaches, Distinct, LastFirst, Elements;
      var i := |libraries|;
      while i > 0
        invariant 0 <= i <= |libraries|
        invariant Sound(deps, visited, closure, open)
        invariant closure == old(closure) + out
        invariant visited == old(visited) + Elements(out) && Elements(out) !! old(visited) && Distinct(out)
        invariant forall l :: l in libraries[i..] ==> l in visited
        invariant forall l :: l in out ==> Reaches(deps, parent, l)
        invariant LastFirst(deps, libraries, i, out)
      {
        i := i - 1;
        var library := libraries[i];
        SkippedIsLastFirst(deps, libraries, i, out);
        if library !in visited {
          AllReachOneMore(deps, open, parent, library);
          InUniverse(deps, parent, library);
          ghost var before := visited;
          ghost var more := VisitLibrary(library, open);
          NewOnes(before, more);
          DistinctTogether(out, more);
          ReachesAllOf(deps, parent, library, more);
          NoneListedBehind(libraries, i, before, more);
          LastFirstGrows(deps, libraries, i, out, more);
          out := out + more;
        }
      }
    }

    /** Visits a library, whether it has been before or not, and collects it after its dependencies. */
    method VisitLibrary(library: Lib, ghost open: set<Lib>) returns (ghost out: seq<Lib>)
      requires Sound(deps, visited, closure, open)
      requires forall g :: g in open ==> Reaches(deps, g, library)
      modifies this
      ensures Sound(deps, visited, closure, open)
      ensures out != [] && out[|out| - 1] == library && closure == old(closure) + out
      ensures visited == old(visited) + Elements(out)
      ensures library !in out[..|out| - 1] && Distinct(out) && forall l :: l in out[..|out| - 1] ==> l !in old(visited)
      ensures forall l :: l in out ==> Reaches(deps, library, l)
      ensures LastFirst(deps, Deps(deps, library), 0, out[..|out| - 1])
      decreases Universe(deps) - visited - {library}, 1
    {
      ReachesSelf(deps, library);
      visited := visited + {library};
      ghost var before := visited;
      out := VisitList(Deps(deps, library), library, open + {library});
      CollectOne(deps, visited, closure, open, library);
      closure := closure + [library];
      ghost var inner := out;
      out := out + [library];
      assert out[..|out| - 1] == inner;
    }
  }

  // ----- The whole line -----

  function Reversed(s: seq<Lib>): (r: seq<Lib>)
    ensures |r| == |s| && forall i :: 0 <= i < |s| ==> r[i] == s[|s| - 1 - i]
  {
    if s == [] then [] else Reversed(s[1..]) + [s[0]]
  }

  lemma {:induction false} ReversedSplits(a: seq<Lib>, b: seq<Lib>)
    ensures Reversed(a + b) == Reversed(b) + Reversed(a)
  {
  }

  lemma {:induction false} ReversedHolds(s: seq<Lib>)
    ensures multiset(Reversed(s)) == multiset(s)
  {
    if s != [] {
      ReversedHolds(s[1..]);
      assert s == [s[0]] + s[1..];
    }
  }

  lemma {:induction false} CollectedMeansOrdered(deps: Relation, closure: seq<Lib>)
    requires Collected(deps, closure)
    ensures Ordered(deps, Reversed(closure))
  {
    var line := Reversed(closure);
    forall i, d | 0 <= i < |line| && d in Deps(deps, line[i])
      ensures d in line[i + 1..] || Reaches(deps, d, line[i])
    {
      var j := |closure| - 1 - i;
      if d in closure[..j] {
        var k :| 0 <= k < j && closure[k] == d;
        assert line[i + 1..][|closure| - 1 - k - (i + 1)] == d;
      }
    }
  }

  lemma {:induction false} SubsequenceLater(a: seq<Lib>, b: seq<Lib>, prefix: seq<Lib>)
    requires Subsequence(a, b)
    ensures Subsequence(a, prefix + b)
    decreases |prefix|
  {
    if prefix == [] {
      assert prefix + b == b;
    } else {
      SubsequenceLater(a, b, prefix[1..]);
      assert (prefix + b)[1..] == prefix[1..] + b;
    }
  }

  /** Another visited argument stands in front of the line so far. */
  lemma {:induction false} SubsequenceGrows(libraries: seq<Lib>, k: nat, closure: seq<Lib>, out: seq<Lib>)
    requires k < |libraries| && out != [] && out[|out| - 1] == libraries[k]
    requires Subsequence(libraries[k + 1..], Reversed(closure))
    ensures Subsequence(libraries[k..], Reversed(closure + out))
  {
    var inner := out[..|out| - 1];
    assert closure + out == (closure + inner) + [libraries[k]];
    ReversedSplits(closure + inner, [libraries[k]]);
    ReversedSplits(closure, inner);
    SubsequenceLater(libraries[k + 1..], Reversed(closure), Reversed(inner));
    var line := [libraries[k]] + (Reversed(inner) + Reversed(closure));
    assert line[1..] == Reversed(inner) + Reversed(closure);
    assert libraries[k..][1..] == libraries[k + 1..];
    assert Reversed([libraries[k]]) == [libraries[k]];
    assert Reversed(closure + out) == line;
  }

  /** What is visited after one more argument is what that or a later one reaches. */
  lemma {:induction false} VisitedGrows(deps: Relation, libraries: seq<Lib>, k: nat, before: set<Lib>, after: set<Lib>, out: seq<Lib>)
    requires k < |libraries| && libraries[k] in out && after == before + Elements(out)
    requires forall l :: l in before <==> ReachableFrom(deps, libraries[k + 1..], l)
    requires forall l :: l in out ==> Reaches(deps, libraries[k], l)
    requires forall l, d :: l in after && d in Deps(deps, l) ==> d in after
    ensures forall l :: l in after <==> ReachableFrom(deps, libraries[k..], l)
  {
    assert libraries[k..] == [libraries[k]] + libraries[k + 1..];
    forall l | l in after ensures ReachableFrom(deps, libraries[k..], l) {
      if l in out {
        assert libraries[k] in libraries[k..];
      } else {
        var a :| a in libraries[k + 1..] && Reaches(deps, a, l);
        assert a in libraries[k..];
      }
    }
    forall l | ReachableFrom(deps, libraries[k..], l) ensures l in after {
      var a :| a in libraries[k..] && Reaches(deps, a, l);
      var path :| PathBetween(deps, path, a, l);
      if a in libraries[k + 1..] {
        ReachesSelf(deps, a);
        assert ReachableFrom(deps, libraries[k + 1..], a);
      } else {
        assert a == libraries[k];
      }
      ClosedHoldsReachable(deps, after, path);
    }
  }

  lemma DistinctCounts(s: seq<Lib>, l: Lib)
    requires Distinct(s)
    ensures multiset(s)[l] == if l in s then 1 else 0
    decreases |s|
  {
    if s != [] {
      assert s == [s[0]] + s[1..];
      DistinctCounts(s[1..], l);
    }
  }

  lemma {:induction false} NeededLaterMeansReachable(deps: Relation, libraries: seq<Lib>, l: Lib)
    requires NeededLater(deps, libraries, l)
    ensures ReachableFrom(deps, libraries, l)
  {
    var k :| 0 <= k <= |libraries| && l !in libraries[k..] && ReachableFrom(deps, libraries[k..], l);
    var a :| a in libraries[k..] && Reaches(deps, a, l);
    assert a in libraries;
  }

  lemma {:induction false} NeededLaterGrows(deps: Relation, a: Lib, libraries: seq<Lib>, l: Lib)
    ensures NeededLater(deps, [a] + libraries, l)
       <==> NeededLater(deps, libraries, l) || (l !in [a] + libraries && ReachableFrom(deps, [a] + libraries, l))
  {
    var all := [a] + libraries;
    if NeededLater(deps, all, l) {
      var k :| 0 <= k <= |all| && l !in all[k..] && ReachableFrom(deps, all[k..], l);
      if k == 0 {
        assert all[k..] == all;
      } else {
        assert all[k..] == libraries[k - 1..];
      }
    }
    if NeededLater(deps, libraries, l) {
      var k :| 0 <= k <= |libraries| && l !in libraries[k..] && ReachableFrom(deps, libraries[k..], l);
      assert all[k + 1..] == libraries[k..];
    }
    if l !in all && ReachableFrom(deps, all, l) {
      assert all[0..] == all;
    }
  }

  lemma {:induction false} CountGrows(deps: Relation, a: Lib, libraries: seq<Lib>, before: set<Lib>, out: seq<Lib>, l: Lib)
    requires out != [] && out[|out| - 1] == a && Distinct(out) && forall x :: x in out[..|out| - 1] ==> x !in before
    requires forall x :: x in before <==> ReachableFrom(deps, libraries, x)
    requires forall x :: x in before + Elements(out) <==> ReachableFrom(deps, [a] + libraries, x)
    ensures multiset(out)[l] + Occurrences(deps, libraries, l) == Occurrences(deps, [a] + libraries, l)
  {
    DistinctCounts(out, l);
    NeededLaterGrows(deps, a, libraries, l);
    assert l in libraries ==> l in before by {
      ReachesSelf(deps, l);
    }
    if l != a {
      assert l in out <==> l in out[..|out| - 1] by {
        assert out == out[..|out| - 1] + [a];
      }
      if NeededLater(deps, libraries, l) {
        NeededLaterMeansReachable(deps, libraries, l);
      }
      assert libraries[0..] == libraries;
    }
  }

  /** The line in pieces: behind each argument comes what it needs and no later argument does, its
      dependencies in the order in which they are listed, as far as they do not need each other. */
  ghost predicate InPieces(deps: Relation, libraries: seq<Lib>, line: seq<Lib>)
    decreases |libraries|
  {
    if libraries == [] then line == [] else exists inner, rest :: IsPiece(deps, libraries[0], inner, rest, line) && InPieces(deps, libraries[1..], rest)
  }

  /** `inner` is collected last first, so that in the line, which is reversed, what is listed first comes first. */
  ghost predicate IsPiece(deps: Relation, a: Lib, inner: seq<Lib>, rest: seq<Lib>, line: seq<Lib>) {
    && line == [a] + Reversed(inner) + rest
    && LastFirst(deps, Deps(deps, a), 0, inner)
    && Distinct(inner) && Elements(inner) !! Elements(rest)
  }

  lemma {:induction false} PiecesGrow(deps: Relation, libraries: seq<Lib>, i: nat, before: set<Lib>, closure: seq<Lib>, out: seq<Lib>)
    requires i < |libraries| && out != [] && out[|out| - 1] == libraries[i]
    requires InPieces(deps, libraries[i + 1..], Reversed(closure)) && LastFirst(deps, Deps(deps, libraries[i]), 0, out[..|out| - 1])
    requires Distinct(out) && before == Elements(closure) && forall x :: x in out[..|out| - 1] ==> x !in before
    ensures InPieces(deps, libraries[i..], Reversed(closure + out))
  {
    hide LastFirst, Reversed, InPieces;
    var a, inner, rest := libraries[i], out[..|out| - 1], Reversed(closure);
    ReversedSplits(closure, out);
    ReversedSplits(inner, [a]);
    assert out == inner + [a];
    ReversedOne(a);
    forall x | x in inner ensures x !in rest {
      ReversedElements(closure, x);
      assert x !in Elements(closure);
    }
    assert Reversed(closure + out) == [a] + Reversed(inner) + rest;
    assert Distinct(inner) by {
      assert forall i :: 0 <= i < |inner| ==> inner[i] == out[i];
    }
    assert IsPiece(deps, a, inner, rest, Reversed(closure + out));
    assert libraries[i..][1..] == libraries[i + 1..] && libraries[i..][0] == a;
    OnePiece(deps, libraries[i..], inner, rest, Reversed(closure + out));
  }

  lemma OnePiece(deps: Relation, libraries: seq<Lib>, inner: seq<Lib>, rest: seq<Lib>, line: seq<Lib>)
    requires libraries != [] && IsPiece(deps, libraries[0], inner, rest, line) && InPieces(deps, libraries[1..], rest)
    ensures InPieces(deps, libraries, line)
  {
    hide IsPiece;
  }

  lemma ReversedElements(s: seq<Lib>, x: Lib)
    ensures x in Reversed(s) <==> x in s
  {
    hide Reversed;
    if x in s {
      var i :| 0 <= i < |s| && s[i] == x;
      assert Reversed(s)[|s| - 1 - i] == x;
    }
  }

  lemma NoPieces(deps: Relation)
    ensures InPieces(deps, [], Reversed([]))
  {
  }

  lemma ReversedOne(a: Lib)
    ensures Reversed([a]) == [a]
  {
  }

  method AddLibDeps(deps: Relation, libraries: seq<Lib>) returns (line: seq<Lib>)
    ensures IsLine(deps, libraries, line) && InPieces(deps, libraries, line)
  {
    hide InPieces, LastFirst;
    NoPieces(deps);
    var visit := new Visit(deps);
    var i := |libraries|;
    while i > 0
      invariant 0 <= i <= |libraries| && visit.deps == deps
      invariant Sound(deps, visit.visited, visit.closure, {})
      invariant forall l :: l in visit.visited <==> ReachableFrom(deps, libraries[i..], l)
      invariant Subsequence(libraries[i..], Reversed(visit.closure))
      invariant forall l :: multiset(visit.closure)[l] == Occurrences(deps, libraries[i..], l)
      invariant InPieces(deps, libraries[i..], Reversed(visit.closure))
    {
      i := i - 1;
      ghost var visited, closure := visit.visited, visit.closure;
      ghost var out := visit.VisitLibrary(libraries[i], {});
      GrowsByVisit(deps, libraries, i, visited, closure, out, visit.visited);
      PiecesGrow(deps, libraries, i, visited, closure, out);
    }
    line := Reversed(visit.closure);
    assert libraries[0..] == libraries;
    LineOf(deps, libraries, visit.visited, visit.closure);
  }

  lemma LineOf(deps: Relation, libraries: seq<Lib>, visited: set<Lib>, closure: seq<Lib>)
    requires Sound(deps, visited, closure, {}) && forall l :: l in visited <==> ReachableFrom(deps, libraries, l)
    requires Subsequence(libraries, Reversed(closure)) && forall l :: multiset(closure)[l] == Occurrences(deps, libraries, l)
    ensures IsLine(deps, libraries, Reversed(closure))
  {
    hide Reversed, Subsequence, ReachableFrom, Occurrences, Ordered;
    var line := Reversed(closure);
    CollectedMeansOrdered(deps, closure);
    ReversedHolds(closure);
    assert forall l :: l in line <==> l in multiset(line);
    assert forall l :: l in visited <==> l in multiset(closure);
  }

  lemma {:induction false} GrowsByVisit(deps: Relation, libraries: seq<Lib>, i: nat,
                                        before: set<Lib>, closure: seq<Lib>, out: seq<Lib>, after: set<Lib>)
    requires i < |libraries| && out != [] && out[|out| - 1] == libraries[i]
    requires Distinct(out) && forall x :: x in out[..|out| - 1] ==> x !in before
    requires after == before + Elements(out) && Sound(deps, after, closure + out, {})
    requires forall l :: l in out ==> Reaches(deps, libraries[i], l)
    requires forall l :: l in before <==> ReachableFrom(deps, libraries[i + 1..], l)
    requires Subsequence(libraries[i + 1..], Reversed(closure))
    requires forall l :: multiset(closure)[l] == Occurrences(deps, libraries[i + 1..], l)
    ensures forall l :: l in after <==> ReachableFrom(deps, libraries[i..], l)
    ensures Subsequence(libraries[i..], Reversed(closure + out))
    ensures forall l :: multiset(closure + out)[l] == Occurrences(deps, libraries[i..], l)
  {
    hide Occurrences, Distinct, Subsequence, Reversed, Reaches, Collected, ReachableFrom;
    VisitedGrows(deps, libraries, i, before, after, out);
    SubsequenceGrows(libraries, i, closure, out);
    assert libraries[i..] == [libraries[i]] + libraries[i + 1..];
    forall l ensures multiset(closure + out)[l] == Occurrences(deps, libraries[i..], l) {
      CountGrows(deps, libraries[i], libraries[i + 1..], before, out, l);
    }
  }

  // ----- What follows for every line that `AddLibDeps` can return -----

  ghost predicate OnCycle(deps: Relation, l: Lib, d: Lib) {
    d in Deps(deps, l) && Reaches(deps, d, l)
  }

  /** Without cycles every dependency comes after the last occurrence of what needs it. */
  lemma {:induction false} AcyclicLineLinks(deps: Relation, libraries: seq<Lib>, line: seq<Lib>)
    requires IsLine(deps, libraries, line)
    requires forall l, d :: !OnCycle(deps, l, d)
    ensures forall i, d :: 0 <= i < |line| && d in Deps(deps, line[i]) ==> d in line[i + 1..]
  {
    forall i, d | 0 <= i < |line| && d in Deps(deps, line[i]) ensures d in line[i + 1..] {
      assert !OnCycle(deps, line[i], d);
    }
  }

  lemma {:induction false} DistinctIff(s: seq<Lib>)
    ensures Distinct(s) <==> forall l :: multiset(s)[l] <= 1
  {
    if Distinct(s) {
      forall l ensures multiset(s)[l] <= 1 {
        DistinctCounts(s, l);
      }
    } else {
      var i, j :| 0 <= i < j < |s| && s[i] == s[j];
      assert s == s[..j] + s[j..];
      assert s[i] == s[..j][i] && s[j] == s[j..][0];
      assert s[i] in multiset(s[..j]) && s[i] in multiset(s[j..]);
      assert multiset(s) == multiset(s[..j]) + multiset(s[j..]);
      assert multiset(s)[s[i]] > 1;
    }
  }

  /** A line is free of duplicates exactly when the arguments are, and none of them is needed by a
      later one. */
  lemma {:induction false} NoDuplicatesIff(deps: Relation, libraries: seq<Lib>, line: seq<Lib>)
    requires IsLine(deps, libraries, line)
    ensures Distinct(line) <==>
              && Distinct(libraries)
              && forall i, j :: 0 <= i < j < |libraries| ==> !Reaches(deps, libraries[j], libraries[i])
  {
    DistinctIff(line);
    DistinctIff(libraries);
    if Distinct(line) {
      forall l ensures multiset(libraries)[l] <= 1 {
        assert multiset(line)[l] <= 1;
      }
      forall i, j | 0 <= i < j < |libraries| ensures !Reaches(deps, libraries[j], libraries[i]) {
        if Reaches(deps, libraries[j], libraries[i]) {
          TwiceIfNeededLater(deps, libraries, line, i, j);
        }
      }
    } else {
      var l :| multiset(line)[l] > 1;
      if Distinct(libraries) {
        assert l in libraries && NeededLater(deps, libraries, l);
        EarlierNeeded(deps, libraries, l);
      }
    }
  }

  lemma {:induction false} LaterNeed(deps: Relation, libraries: seq<Lib>, i: nat, j: nat)
    requires i < j < |libraries| && Distinct(libraries) && Reaches(deps, libraries[j], libraries[i])
    ensures NeededLater(deps, libraries, libraries[i])
  {
    assert libraries[j..][0] == libraries[j];
    assert libraries[i] !in libraries[j..];
    assert ReachableFrom(deps, libraries[j..], libraries[i]);
  }

  lemma {:induction false} TwiceIfNeededLater(deps: Relation, libraries: seq<Lib>, line: seq<Lib>, i: nat, j: nat)
    requires IsLine(deps, libraries, line) && Distinct(libraries)
    requires i < j < |libraries| && Reaches(deps, libraries[j], libraries[i])
    ensures multiset(line)[libraries[i]] >= 2
  {
    LaterNeed(deps, libraries, i, j);
    assert libraries[i] in multiset(libraries);
  }

  lemma {:induction false} EarlierNeeded(deps: Relation, libraries: seq<Lib>, l: Lib)
    requires l in libraries && NeededLater(deps, libraries, l)
    ensures exists i, j :: 0 <= i < j < |libraries| && Reaches(deps, libraries[j], libraries[i])
  {
    var k :| 0 <= k <= |libraries| && l !in libraries[k..] && ReachableFrom(deps, libraries[k..], l);
    var a :| a in libraries[k..] && Reaches(deps, a, l);
    var j :| 0 <= j < |libraries| - k && libraries[k..][j] == a;
    var i :| 0 <= i < |libraries| && libraries[i] == l;
    assert forall x :: k <= x < |libraries| ==> libraries[x] == libraries[k..][x - k];
    assert libraries[k + j] == a;
  }

  /** So duplicates are not removed: a library asked for once comes out twice when a later one
      depends on it. */
  lemma {:induction false} OneArgumentTwice(line: seq<Lib>)
    requires IsLine(map["b" := ["a"]], ["a", "b"], line)
    ensures multiset(line)["a"] == 2
  {
    var deps: Relation := map["b" := ["a"]];
    ReachesSelf(deps, "b");
    ReachesOneMore(deps, "b", "b", "a");
    assert ["a", "b"][1..] == ["b"];
    assert ReachableFrom(deps, ["a", "b"][1..], "a");
  }
}
