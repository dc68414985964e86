/** Paths in a graph given by the successors of each node. */
module Reachability {
  type Graph = map<string, seq<string>>

  function Successors(g: Graph, a: string): seq<string> {
    if a in g then g[a] else []
  }

  ghost predicate IsPath(g: Graph, path: seq<string>) {
    path != [] && forall i | 0 < i < |path| :: path[i] in Successors(g, path[i - 1])
  }

  ghost predicate Reaches(g: Graph, a: string, b: string) {
    exists path :: IsPath(g, path) && path[0] == a && path[|path| - 1] == b
  }

  lemma ReachesItself(g: Graph, a: string)
    ensures Reaches(g, a, a)
  {
    assert IsPath(g, [a]);
  }

  lemma ReachesSuccessor(g: Graph, a: string, b: string)
    requires b in Successors(g, a)
    ensures Reaches(g, a, b)
  {
    assert IsPath(g, [a, b]);
  }

  lemma ReachesOnward(g: Graph, a: string, b: string, c: string)
    requires Reaches(g, a, b) && Reaches(g, b, c)
    ensures Reaches(g, a, c)
  {
    var p :| IsPath(g, p) && p[0] == a && p[|p| - 1] == b;
    var q :| IsPath(g, q) && q[0] == b && q[|q| - 1] == c;
    var r := p + q[1..];
    forall i | 0 < i < |r|
      ensures r[i] in Successors(g, r[i - 1])
    {
      if i >= |p| {
        assert r[i] == q[i - |p| + 1] && r[i - 1] == q[i - |p|];
      }
    }
    assert IsPath(g, r);
  }

  ghost predicate ClosedSet(g: Graph, nodes: set<string>) {
    forall a, b | a in nodes && b in Successors(g, a) :: b in nodes
  }

  /** Nothing outside a closed set is reached from inside it. */
  lemma ReachesWithin(g: Graph, nodes: set<string>, a: string, b: string)
    requires ClosedSet(g, nodes) && a in nodes && Reaches(g, a, b)
    ensures b in nodes
  {
    var path :| IsPath(g, path) && path[0] == a && path[|path| - 1] == b;
    PathWithin(g, nodes, path, |path| - 1);
  }

  lemma {:induction false} PathWithin(g: Graph, nodes: set<string>, path: seq<string>, i: nat)
    requires ClosedSet(g, nodes) && IsPath(g, path) && path[0] in nodes && i < |path|
    ensures path[i] in nodes
  {
    if i > 0 {
      PathWithin(g, nodes, path, i - 1);
    }
  }
}
