/** The depth-first cycle check of the proposal DAG (noe/noe_parser.py, `_has_cycle`). */
module CycleCheck {

  /** `dag.get(node, [])` */
  function Children<T(==)>(dag: map<T, seq<T>>, node: T): seq<T> {
    if node in dag then dag[node] else []
  }

  // ----- What the check is about -----

  ghost predicate IsPath<T>(dag: map<T, seq<T>>, p: seq<T>) {
    p != [] && forall i :: 0 <= i < |p| - 1 ==> p[i + 1] in Children(dag, p[i])
  }

  ghost predicate Joins<T>(dag: map<T, seq<T>>, p: seq<T>, a: T, b: T) {
    IsPath(dag, p) && p[0] == a && p[|p| - 1] == b
  }

  ghost predicate OnCycle<T(!new)>(dag: map<T, seq<T>>, node: T) {
    exists p :: |p| >= 2 && Joins(dag, p, node, node)
  }

  ghost predicate ReachesCycle<T(!new)>(dag: map<T, seq<T>>, node: T) {
    exists p, m :: Joins(dag, p, node, m) && OnCycle(dag, m)
  }

  /** No edge leaves these nodes. */
  ghost predicate IsClosed<T(!new)>(dag: map<T, seq<T>>, nodes: set<T>) {
    forall n, c :: n in nodes && c in Children(dag, n) ==> c in nodes
  }

  lemma StaysInside<T(!new)>(dag: map<T, seq<T>>, nodes: set<T>, node: T)
    requires IsClosed(dag, nodes) && node in nodes
    ensures forall i :: 0 <= i < |Children(dag, node)| ==> Children(dag, node)[i] in nodes
  {
  }

  // ----- The search -----

  /** The stack is a path, and every finished node has only nodes finished before it as children. */
  ghost predicate Consistent<T(!new)>(dag: map<T, seq<T>>, recStack: set<T>, visited: set<T>, stack: seq<T>,
                                             finished: seq<T>) {
    && (forall x :: x in recStack <==> x in stack)
    && (forall x :: x in visited <==> x in stack || x in finished)
    && (stack != [] ==> IsPath(dag, stack))
    && Ranked(dag, finished)
  }

  /** `rec_stack` and `visited`; the ghost fields order what the two sets hold. */
  class Search<T(==, !new)> {
    const dag: map<T, seq<T>>
    var recStack: set<T>
    var visited: set<T>
    ghost var stack: seq<T>      // the current branch, root first
    ghost var finished: seq<T>   // the nodes left for good, in that order

    constructor (dag: map<T, seq<T>>)
      ensures this.dag == dag && Valid()
      ensures stack == finished == [] && visited == {}
    {
      this.dag := dag;
      recStack, visited := {}, {};
      stack, finished := [], [];
    }

    ghost predicate Valid()
      reads this
    {
      Consistent(dag, recStack, visited, stack, finished)
    }

    method HasCycle(node: T, ghost universe: set<T>) returns (found: bool)
      requires Valid() && visited <= universe && node in universe
      requires IsClosed(dag, universe)
      requires stack != [] ==> node in Children(dag, stack[|stack| - 1])
      modifies this
      ensures found ==> ReachesCycle(dag, node)
      ensures !found ==> Valid() && stack == old(stack) && old(visited) <= visited <= universe
      ensures !found ==> Grows(old(finished), finished) && node in finished
      decreases universe - visited
    {
      if node in recStack {
        BackEdge(dag, stack, node);
        return true;
      }
      NothingFinished(finished);
      if node in visited {
        return false;
      }
      Push(dag, recStack, visited, stack, finished, node);
      StaysInside(dag, universe, node);
      hide *;
      visited := visited + {node};
      recStack := recStack + {node};
      stack := stack + [node];
      var children := Children(dag, node);
      for i := 0 to |children|
        invariant Valid() && stack == old(stack) + [node]
        invariant old(visited) + {node} <= visited <= universe
        invariant Grows(old(finished), finished)
        invariant forall j :: 0 <= j < i ==> children[j] in finished
      {
        ghost var before := finished;
        var inChild := HasCycle(children[i], universe);
        if inChild {
          StepToCycle(dag, node, children[i]);
          return true;
        }
        StillFinished(old(finished), before, finished);
      }
      Pop(dag, recStack, visited, old(stack), finished, node);
      recStack := recStack - {node};
      stack := old(stack);
      OneMoreFinished(old(finished), finished, node);
      finished := finished + [node];
      return false;
    }
  }

  /** Nodes are only added at the end. */
  ghost predicate Grows<T>(before: seq<T>, after: seq<T>) {
    before <= after
  }

  lemma NothingFinished<T>(finished: seq<T>)
    ensures Grows(finished, finished)
  {
  }

  lemma StillFinished<T>(a: seq<T>, b: seq<T>, c: seq<T>)
    requires Grows(a, b) && Grows(b, c)
    ensures Grows(a, c) && forall x :: x in b ==> x in c
  {
  }

  lemma OneMoreFinished<T>(a: seq<T>, b: seq<T>, node: T)
    requires Grows(a, b)
    ensures Grows(a, b + [node])
  {
  }

  lemma Push<T(!new)>(dag: map<T, seq<T>>, recStack: set<T>, visited: set<T>, stack: seq<T>, finished: seq<T>, node: T)
    requires Consistent(dag, recStack, visited, stack, finished)
    requires node !in visited && (stack != [] ==> node in Children(dag, stack[|stack| - 1]))
    ensures Consistent(dag, recStack + {node}, visited + {node}, stack + [node], finished)
    ensures node !in stack
  {
  }

  lemma Pop<T(!new)>(dag: map<T, seq<T>>, recStack: set<T>, visited: set<T>, stack: seq<T>, finished: seq<T>, node: T)
    requires Consistent(dag, recStack, visited, stack + [node], finished) && node !in stack
    requires forall j :: 0 <= j < |Children(dag, node)| ==> Children(dag, node)[j] in finished
    ensures Consistent(dag, recStack - {node}, visited, stack, finished + [node])
  {
    RankedAppend(dag, finished, node);
    forall i | 0 <= i < |stack| - 1 ensures stack[i + 1] in Children(dag, stack[i]) {
      var longer := stack + [node];
      assert longer[i + 1] in Children(dag, longer[i]);
    }
  }

  /** `_has_cycle(node, set(), set())`: true exactly when some cycle can be reached from the node. */
  method HasCycle<T(==, !new)>(dag: map<T, seq<T>>, node: T) returns (found: bool)
    ensures found <==> ReachesCycle(dag, node)
  {
    var search := new Search(dag);
    ghost var targets := set n, c | n in dag && c in dag[n] :: c;
    found := search.HasCycle(node, dag.Keys + targets + {node});
    if !found {
      FinishedIsAcyclic(dag, search.finished, node);
    }
  }

  // ----- Cycles found -----

  lemma BackEdge<T(!new)>(dag: map<T, seq<T>>, stack: seq<T>, node: T)
    requires IsPath(dag, stack) && node in stack && node in Children(dag, stack[|stack| - 1])
    ensures ReachesCycle(dag, node)
  {
    var i :| 0 <= i < |stack| && stack[i] == node;
    var loop := stack[i..] + [node];
    assert Joins(dag, loop, node, node);
    assert Joins(dag, [node], node, node);
  }

  lemma StepToCycle<T(!new)>(dag: map<T, seq<T>>, node: T, child: T)
    requires child in Children(dag, node) && ReachesCycle(dag, child)
    ensures ReachesCycle(dag, node)
  {
    var p, m :| Joins(dag, p, child, m) && OnCycle(dag, m);
    assert Joins(dag, [node] + p, node, m);
  }

  // ----- No cycle among finished nodes -----

  ghost predicate Ranked<T>(dag: map<T, seq<T>>, finished: seq<T>) {
    forall i :: 0 <= i < |finished| ==>
      forall c :: c in Children(dag, finished[i]) ==> c in finished[..i]
  }

  lemma RankedAppend<T>(dag: map<T, seq<T>>, finished: seq<T>, node: T)
    requires Ranked(dag, finished)
    requires forall j :: 0 <= j < |Children(dag, node)| ==> Children(dag, node)[j] in finished
    ensures Ranked(dag, finished + [node])
  {
    var next := finished + [node];
    forall i | 0 <= i < |next| ensures forall c :: c in Children(dag, next[i]) ==> c in next[..i] {
      assert next[..i] == finished[..i];
    }
  }

  /** A path from a finished node only meets nodes finished earlier. */
  lemma {:induction false} PathDescends<T>(dag: map<T, seq<T>>, finished: seq<T>, p: seq<T>, i: nat) returns (j: nat)
    requires Ranked(dag, finished) && IsPath(dag, p) && i < |finished| && finished[i] == p[0]
    ensures j <= i && finished[j] == p[|p| - 1]
    ensures |p| >= 2 ==> j < i
    decreases |p|
  {
    if |p| == 1 {
      j := i;
    } else {
      assert p[1] in finished[..i];
      var k :| 0 <= k < i && finished[k] == p[1];
      j := PathDescends(dag, finished, p[1..], k);
    }
  }

  lemma {:induction false} NotOnCycle<T(!new)>(dag: map<T, seq<T>>, finished: seq<T>, i: nat)
    requires Ranked(dag, finished) && i < |finished|
    ensures !OnCycle(dag, finished[i])
    decreases i
  {
    if OnCycle(dag, finished[i]) {
      var p :| |p| >= 2 && Joins(dag, p, finished[i], finished[i]);
      var j := PathDescends(dag, finished, p, i);
      NotOnCycle(dag, finished, j);
    }
  }

  lemma FinishedIsAcyclic<T(!new)>(dag: map<T, seq<T>>, finished: seq<T>, node: T)
    requires Ranked(dag, finished) && node in finished
    ensures !ReachesCycle(dag, node)
  {
    if ReachesCycle(dag, node) {
      var p, m :| Joins(dag, p, node, m) && OnCycle(dag, m);
      var i :| 0 <= i < |finished| && finished[i] == node;
      var j := PathDescends(dag, finished, p, i);
      NotOnCycle(dag, finished, j);
    }
  }
}
