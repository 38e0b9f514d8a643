/** From a script's chain to a run: what normalisation and validation guarantee the coordinator. */
module ChainRun {
  import opened Options
  import opened Graph
  import opened Chain
  import opened ChainValidation
  import CoordinatorDeadlock
  import CoordinatorGate
  import CoordinatorLiveness

  /** The node waits for each dependency that it names in one mode. */
  ghost predicate OneModeAt(nodes: seq<Node>, i: nat)
    requires i < |nodes| && EdgesOk(nodes[i])
  {
    var edges := EdgesOf(nodes[i]);
    forall a, b :: 0 <= a < |edges| && 0 <= b < |edges| && edges[a].name == edges[b].name ==>
      edges[a].waitFor == edges[b].waitFor
  }

  /** No node names one dependency with two wait modes. */
  ghost predicate ModesAgree(nodes: seq<Node>)
    requires forall i :: 0 <= i < |nodes| ==> EdgesOk(nodes[i])
  {
    forall i :: 0 <= i < |nodes| ==> OneModeAt(nodes, i)
  }

  /** What a run is given: the normal form of the chain, once it validates. */
  method Prepare(c: Chain) returns (r: Result<seq<Node>, ChainError>)
    ensures r.Ok? <==> NormalizeOk(c) && WellFormed(NormalForm(c).nodes) && Acyclic(GraphOf(NormalForm(c).nodes))
    ensures r.Ok? ==> r.value == NormalForm(c).nodes
  {
    hide NormalForm, WellFormed, Acyclic, GraphOf, ErrorHolds, NormalizeOk;
    var norm := Normalized(c);
    if norm.Err? { return Err(norm.error); }
    var err := ValidateChain(norm.value.nodes);
    if err.Some? { return Err(err.value); }
    return Ok(norm.value.nodes);
  }

  /** A link leads to the node that the edge names, in the edge's mode. */
  lemma LinkTarget(nodes: seq<Node>, i: nat, k: nat)
    requires WellFormed(nodes) && i < |nodes| && k < |GraphOf(nodes)[i].links|
    ensures var l := GraphOf(nodes)[i].links[k];
            && l.dep < |nodes| && l.dep != i && !nodes[l.dep].exec && (nodes[i].exec ==> nodes[l.dep].oneshot)
            && nodes[l.dep].name == EdgesOf(nodes[i])[k].name && l.wait == EdgesOf(nodes[i])[k].waitFor
  {
    GraphResolved(nodes, i, k);
  }

  /** The graph of a validated chain resolves and has the nodes' kinds; no node depends on an exec node,
      no oneshot is an exec or scheduled node, and its wait modes agree when the chain's do. */
  lemma ValidatedGraph(nodes: seq<Node>)
    requires WellFormed(nodes)
    ensures Resolved(GraphOf(nodes)) && CoordinatorDeadlock.ValidKinds(GraphOf(nodes))
    ensures ModesAgree(nodes) ==> ModeConsistent(GraphOf(nodes))
    ensures |GraphOf(nodes)| == |nodes|
    ensures forall i :: 0 <= i < |nodes| ==>
              var v := GraphOf(nodes)[i];
              && v.oneshot == nodes[i].oneshot && v.exec == nodes[i].exec && v.scheduled == nodes[i].scheduler
              && v.optional == nodes[i].optional && |v.links| == |EdgesOf(nodes[i])|
  {
    var g := GraphOf(nodes);
    GraphIsResolved(nodes);
    forall i, j | 0 <= i < |g| && 0 <= j < |g| && DependsOn(g[i], j) ensures !g[j].exec {
      var k: nat :| k < |g[i].links| && g[i].links[k].dep == j;
      LinkTarget(nodes, i, k);
    }
    forall i | 0 <= i < |g| && g[i].oneshot ensures !g[i].exec && !g[i].scheduled {
      assert FormOk(nodes[i]);
    }
    if ModesAgree(nodes) { ModesAgreeInGraph(nodes); }
  }

  lemma ModesAgreeInGraph(nodes: seq<Node>)
    requires WellFormed(nodes) && ModesAgree(nodes)
    ensures ModeConsistent(GraphOf(nodes))
  {
    var g := GraphOf(nodes);
    forall i, a, b | 0 <= i < |g| && 0 <= a < |g[i].links| && 0 <= b < |g[i].links|
                     && g[i].links[a].dep == g[i].links[b].dep
      ensures g[i].links[a].wait == g[i].links[b].wait
    {
      assert OneModeAt(nodes, i);
      LinkTarget(nodes, i, a);
      LinkTarget(nodes, i, b);
    }
  }

  /** A node that uses dependsOn alone waits for all its dependencies in one mode, never for exit. */
  lemma DependsOnFormAgrees(nodes: seq<Node>)
    requires WellFormed(nodes) && forall i :: 0 <= i < |nodes| ==> nodes[i].dependsOnEdges == []
    ensures ModesAgree(nodes) && ModeConsistent(GraphOf(nodes))
    ensures NoExitEdges(GraphOf(nodes)) && ExitEdgesToOneshots(GraphOf(nodes))
  {
    assert ModesAgree(nodes);
    ModesAgreeInGraph(nodes);
    var g := GraphOf(nodes);
    forall i, k | 0 <= i < |g| && 0 <= k < |g[i].links| ensures g[i].links[k].wait != Exit {
      LinkTarget(nodes, i, k);
    }
  }

  /** A chain that passes validation and whose prone triples can be brought about runs to the end,
      whatever its processes do, if and only if it has no such triple. */
  lemma ValidChainsFinish(nodes: seq<Node>)
    requires WellFormed(nodes) && Acyclic(GraphOf(nodes))
    requires forall w: nat, o: nat, x: nat :: CoordinatorLiveness.Prone(GraphOf(nodes), w, o, x) ==>
               CoordinatorDeadlock.Realisable(GraphOf(nodes), w, o, x)
    ensures CoordinatorLiveness.DeadlockFree(GraphOf(nodes)) <==> !CoordinatorLiveness.DeadlockProne(GraphOf(nodes))
  {
    ValidatedGraph(nodes);
    CoordinatorDeadlock.DeadlockFreedom(GraphOf(nodes));
  }

  /** So does every valid chain in the dependsOn form. */
  lemma DependsOnChainsFinish(nodes: seq<Node>)
    requires WellFormed(nodes) && Acyclic(GraphOf(nodes))
    requires forall i :: 0 <= i < |nodes| ==> nodes[i].dependsOnEdges == []
    ensures CoordinatorLiveness.DeadlockFree(GraphOf(nodes)) <==> !CoordinatorLiveness.DeadlockProne(GraphOf(nodes))
  {
    hide GraphOf, WellFormed, CoordinatorDeadlock.Realisable, CoordinatorLiveness.DeadlockFree;
    var g := GraphOf(nodes);
    ValidatedGraph(nodes);
    DependsOnFormAgrees(nodes);
    forall w: nat, o: nat, x: nat | CoordinatorLiveness.Prone(g, w, o, x)
      ensures CoordinatorDeadlock.Realisable(g, w, o, x)
    {
      CoordinatorDeadlock.ExitEdgesRealisable(g, w, o, x);
    }
    ValidChainsFinish(nodes);
  }

  /** In a valid chain, the gate holds a node that can be started back until all its edges are
      signalled, in every run, exactly when it waits for each dependency in one mode. Only a node
      that does not, and repeats an edge too, is left out. */
  lemma GateHoldsExactly(nodes: seq<Node>, c: set<nat>, i: nat)
    requires WellFormed(nodes) && Acyclic(GraphOf(nodes)) && CoordinatorDeadlock.Startable(GraphOf(nodes), c) && i in c
    requires i < |nodes|
    requires OneModeAt(nodes, i) ||
             forall a, b :: 0 <= a < b < |EdgesOf(nodes[i])| ==> EdgesOf(nodes[i])[a] != EdgesOf(nodes[i])[b]
    ensures CoordinatorGate.GateSafe(GraphOf(nodes), i) <==> OneModeAt(nodes, i)
  {
    hide CoordinatorGate.GateSafe, Acyclic;
    var g, edges := GraphOf(nodes), EdgesOf(nodes[i]);
    ValidatedGraph(nodes);
    forall a, b | 0 <= a < |edges| && 0 <= b < |edges|
      ensures g[i].links[a].dep == g[i].links[b].dep <==> edges[a].name == edges[b].name
      ensures g[i].links[a].wait == edges[a].waitFor && g[i].links[b].wait == edges[b].waitFor
    {
      LinkTarget(nodes, i, a);
      LinkTarget(nodes, i, b);
    }
    if OneModeAt(nodes, i) {
      CoordinatorGate.GateSafeExactly(g, c, i);
    } else {
      CoordinatorGate.GateSafeDistinct(g, c, i);
    }
  }
}
