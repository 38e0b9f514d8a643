/** The dependency graph a chain is compiled to: vertices in declaration order,
    each with its edges resolved to the position of the node it depends on. */
module Graph {

  /** How a dependent waits for a dependency. */
  datatype Wait = Started | Ready | Exit

  datatype Link = Link(dep: nat, wait: Wait)

  datatype Vertex = Vertex(oneshot: bool, exec: bool, scheduled: bool, optional: bool, links: seq<Link>)

  type Graph = seq<Vertex>

  ghost predicate Resolved(g: Graph) {
    forall i, k :: 0 <= i < |g| && 0 <= k < |g[i].links| ==> g[i].links[k].dep < |g|
  }

  predicate DependsOn(v: Vertex, j: nat) {
    exists k :: 0 <= k < |v.links| && v.links[k].dep == j
  }

  ghost predicate IsRank(g: Graph, rank: seq<nat>) {
    && |rank| == |g|
    && forall i, j {:trigger DependsOn(g[i], j)} ::
         0 <= i < |g| && 0 <= j < |g| && DependsOn(g[i], j) ==> rank[j] < rank[i]
  }

  /** A topological rank exists. */
  ghost predicate Acyclic(g: Graph) {
    exists rank :: IsRank(g, rank)
  }

  /** No node waits for one dependency in two different modes. */
  ghost predicate OneModePerDep(v: Vertex) {
    forall a, b :: 0 <= a < |v.links| && 0 <= b < |v.links| && v.links[a].dep == v.links[b].dep ==>
      v.links[a].wait == v.links[b].wait
  }

  ghost predicate ModeConsistent(g: Graph) {
    forall i :: 0 <= i < |g| ==> OneModePerDep(g[i])
  }

  ghost predicate NoExitEdges(g: Graph) {
    forall i, k :: 0 <= i < |g| && 0 <= k < |g[i].links| ==> g[i].links[k].wait != Exit
  }

  /** Only oneshots are waited for until they exit. */
  ghost predicate ExitEdgesToOneshots(g: Graph) {
    forall i, k :: 0 <= i < |g| && 0 <= k < |g[i].links| && g[i].links[k].wait == Exit && g[i].links[k].dep < |g| ==>
      g[g[i].links[k].dep].oneshot
  }

  /** Some edge to j waits for its start or its readiness, not for its exit. */
  predicate AwaitsSuccess(v: Vertex, j: nat) {
    exists k :: 0 <= k < |v.links| && v.links[k].dep == j && v.links[k].wait != Exit
  }

  /** Some edge is not one that waits for the exit of j. */
  predicate BeyondExit(v: Vertex, j: nat) {
    exists k :: 0 <= k < |v.links| && v.links[k] != Link(j, Exit)
  }

  /** p starts at i and each element depends on the next: its end is an ancestor of i. */
  ghost predicate IsDependencyPath(g: Graph, p: seq<nat>) {
    && |p| > 0
    && (forall k :: 0 <= k < |p| ==> p[k] < |g|)
    && (forall k :: 0 <= k < |p| - 1 ==> DependsOn(g[p[k]], p[k + 1]))
  }
}
