/** Reachability in a directed graph, and what a finished worklist search knows. */
module Reachability {

  type Edges<!N> = (N, N) -> bool

  ghost predicate IsPath<N(!new)>(edge: Edges<N>, path: seq<N>)
  {
    |path| > 0 && forall i :: 0 < i < |path| ==> edge(path[i - 1], path[i])
  }

  ghost predicate Reachable<N(!new)>(edge: Edges<N>, start: N, node: N)
  {
    exists path :: IsPath(edge, path) && path[0] == start && path[|path| - 1] == node
  }

  lemma StepIsReachable<N(!new)>(edge: Edges<N>, start: N, node: N, succ: N)
    requires Reachable(edge, start, node) && edge(node, succ)
    ensures Reachable(edge, start, succ)
  {
    var path :| IsPath(edge, path) && path[0] == start && path[|path| - 1] == node;
    assert IsPath(edge, path + [succ]);
  }

  ghost predicate ClosedUnder<N(!new)>(edge: Edges<N>, nodes: set<N>)
  {
    forall node, succ :: node in nodes && edge(node, succ) ==> succ in nodes
  }

  lemma {:induction false} PathStaysIn<N(!new)>(edge: Edges<N>, nodes: set<N>, path: seq<N>)
    requires ClosedUnder(edge, nodes) && IsPath(edge, path) && path[0] in nodes
    ensures path[|path| - 1] in nodes
  {
    if |path| > 1 {
      PathStaysIn(edge, nodes, path[..|path| - 1]);
    }
  }

  /** A set that contains the start and all successors of its members contains everything reachable. */
  lemma ClosedContainsReachable<N(!new)>(edge: Edges<N>, nodes: set<N>, start: N)
    requires ClosedUnder(edge, nodes) && start in nodes
    ensures forall node :: Reachable(edge, start, node) ==> node in nodes
  {
    forall node | Reachable(edge, start, node) ensures node in nodes {
      var path :| IsPath(edge, path) && path[0] == start && path[|path| - 1] == node;
      PathStaysIn(edge, nodes, path);
    }
  }

  /** The state of a worklist search: everything found is reachable, everything visited is expanded. */
  ghost predicate SearchInv<N(!new)>(edge: Edges<N>, start: N, visited: set<N>, pending: seq<N>)
  {
    && (start in visited || start in pending)
    && (forall node :: node in visited || node in pending ==> Reachable(edge, start, node))
    && (forall node, succ :: node in visited && edge(node, succ) ==> succ in visited || succ in pending)
  }

  lemma SearchStarts<N(!new)>(edge: Edges<N>, start: N)
    ensures SearchInv(edge, start, {}, [start])
  {
    assert IsPath(edge, [start]);
  }

  lemma SearchSkips<N(!new)>(edge: Edges<N>, start: N, visited: set<N>, pending: seq<N>)
    requires SearchInv(edge, start, visited, pending)
    requires |pending| > 0 && pending[|pending| - 1] in visited
    ensures SearchInv(edge, start, visited, pending[..|pending| - 1])
  {
    var rest, last := pending[..|pending| - 1], pending[|pending| - 1];
    assert forall node :: node in pending <==> node in rest || node == last by {
      assert pending == rest + [last];
    }
  }

  /** Visiting the last pending node, whose successors are these. */
  lemma SearchExpands<N(!new)>(edge: Edges<N>, start: N, visited: set<N>, pending: seq<N>, succs: seq<N>)
    requires SearchInv(edge, start, visited, pending) && |pending| > 0
    requires forall succ :: succ in succs <==> edge(pending[|pending| - 1], succ)
    ensures SearchInv(edge, start, visited + {pending[|pending| - 1]}, pending[..|pending| - 1] + succs)
  {
    var rest, last := pending[..|pending| - 1], pending[|pending| - 1];
    assert forall node :: node in pending <==> node in rest || node == last by {
      assert pending == rest + [last];
    }
    forall succ | succ in succs ensures Reachable(edge, start, succ) {
      StepIsReachable(edge, start, last, succ);
    }
  }

  /** An exhausted worklist has visited exactly the reachable nodes. */
  lemma SearchEnds<N(!new)>(edge: Edges<N>, start: N, visited: set<N>)
    requires SearchInv(edge, start, visited, [])
    ensures forall node :: node in visited <==> Reachable(edge, start, node)
  {
    ClosedContainsReachable(edge, visited, start);
  }
}
