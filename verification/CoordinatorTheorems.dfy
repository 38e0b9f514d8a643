/** What the coordinator guarantees over all runs. */
module CoordinatorTheorems {
  import opened Options
  import opened Graph
  import opened Coordinator
  import opened CoordinatorInvariant
  import opened CoordinatorSteps

  // ---- Gate safety ----

  /** While a node with one wait mode per dependency is Pending its counter is the number of edges
      not yet signalled, and it starts running only when each edge's own wait mode has been
      signalled, whatever the other nodes of the chain look like. */
  lemma GateSafety(g: Graph, s: State, a: Step, i: nat)
    requires Reachable(g, s) && Sized(g, s) && Enabled(g, s, a) && i < |g| && OneModePerDep(g[i])
    ensures s.es[i].state.Pending? ==> s.es[i].pending == Unsignalled(g[i].links, s)
    ensures s.es[i].state.Pending? && Do(g, s, a).es[i].state.Running? ==> AllSignalled(g, s, i)
  {
    ReachableInvariant(g, s);
    KeepsLocals(g, s, a);
    if Do(g, s, a).es[i].state.Running? {
      KeepsRanSatisfied(g, s, a);
      SignalsOf(g, s, a);
      assert Local(g[i], s.es[i], s.pcs[i], s.last[i], s.cancelled);
      if Actor(a) == Some(i) { ActorLocal(g, s, a, i); } else { BystanderEntry(g, s, a, i); }
    }
  }

  /** One decrement per entry of the dependents list takes off exactly the edges that the signal
      satisfies if and only if the node waits for that dependency in a single mode. */
  lemma DecrementExact(v: Vertex, x: Entry, l: Link)
    requires x.state.Pending? && HasEdgeWaiting(v, l.dep, l.wait)
    ensures NotifyOne(v, x, l.dep, l.wait).pending == x.pending - CountMode(v.links, l)
            <==> forall k :: 0 <= k < |v.links| && v.links[k].dep == l.dep ==> v.links[k].wait == l.wait
  {
    ModeCount(v.links, l);
  }

  // ---- Runs, step by step ----

  lemma ReachStep(g: Graph, s: State, a: Step)
    requires Reachable(g, s) && Sized(g, s) && Enabled(g, s, a)
    ensures Sized(g, Do(g, s, a)) && Reachable(g, Do(g, s, a))
  {
    var n: nat :| Leads(g, Init(g), s, n);
    assert Next(g, s, Do(g, s, a));
    assert Leads(g, Init(g), Do(g, s, a), n + 1);
  }

  lemma ReachInit(g: Graph)
    requires Resolved(g)
    ensures Reachable(g, Init(g))
  {
    assert Leads(g, Init(g), Init(g), 0);
  }

  const TWO_MODES: Graph := [Vertex(false, false, false, false, []),
                             Vertex(false, false, false, false, [Link(0, Started), Link(0, Ready)])]

  lemma TwoModesStart() returns (s: State)
    ensures Reachable(TWO_MODES, s) && Sized(TWO_MODES, s) && s.pcs == [Held, Waiting]
    ensures s.es[0] == Entry(Running, 0, true, false, false, false, false)
    ensures s.es[1] == Entry(Pending, 2, false, false, false, false, false)
  {
    var g := TWO_MODES;
    ReachInit(g);
    s := Init(g);
    ReachStep(g, s, FrontierStep);
    s := Do(g, s, FrontierStep);
    ReachStep(g, s, Wake(0));
    s := Do(g, s, Wake(0));
    ReachStep(g, s, Move(0, Held, None));
    s := Do(g, s, Move(0, Held, None));
  }

  /** A node that waits for one dependency in two modes is released by the first of the two
      signals: here node 1 runs although node 0 is not ready. */
  lemma TwoModesReleaseEarly()
    ensures exists s :: Reachable(TWO_MODES, s) && Sized(TWO_MODES, s) && s.es[1].state.Running? && !s.es[0].readyC
  {
    var g := TWO_MODES;
    var s := TwoModesStart();
    ReachStep(g, s, Signal(0));
    s := Do(g, s, Signal(0));
    assert g[1].links[0] == Link(0, Started);
    assert CountLinks(g[1].links, 0) == 2 by { assert g[1].links[..1] == [Link(0, Started)]; }
    assert s.es[1].goClosed;
    ReachStep(g, s, Wake(1));
    assert Do(g, s, Wake(1)).es[1].state.Running?;
  }

  // ---- The transitive success gate ----

  lemma StartedOneshotSucceeded(g: Graph, s: State, i: nat)
    requires Sized(g, s) && Locals(g, s) && i < |g| && s.es[i].startedC
    ensures g[i].oneshot ==> s.last[i] == Some(0) && !Holds(s.pcs[i])
    ensures s.es[i].readyC ==> s.es[i].startedC
  {
    assert Local(g[i], s.es[i], s.pcs[i], s.last[i], s.cancelled);
  }

  /** v waits for the success of j, and for each dependency in one mode. */
  ghost predicate SuccessStep(v: Vertex, j: nat) {
    OneModePerDep(v) && AwaitsSuccess(v, j)
  }

  /** Each node on the path but the last waits for the success of the next. */
  ghost predicate IsSuccessPath(g: Graph, p: seq<nat>) {
    IsDependencyPath(g, p) && forall k :: 0 <= k < |p| - 1 ==> SuccessStep(g[p[k]], p[k + 1])
  }

  lemma AwaitedStarted(g: Graph, s: State, i: nat, j: nat)
    requires Invariant(g, s) && i < |g| && j < |g| && SuccessStep(g[i], j)
    requires s.es[i].state.Running? || s.es[i].startedC
    ensures s.es[j].startedC && (g[j].oneshot ==> s.last[j] == Some(0) && !Holds(s.pcs[j]))
  {
    var k :| 0 <= k < |g[i].links| && g[i].links[k].dep == j && g[i].links[k].wait != Exit;
    assert AllSignalled(g, s, i);
    assert Signalled(s, g[i].links[k]);
    StartedOneshotSucceeded(g, s, j);
  }

  /** When a node runs, every ancestor has started that it reaches without an exit edge, and the last
      attempt of every such oneshot exited with code 0. */
  lemma {:induction false} TransitiveSuccess(g: Graph, s: State, p: seq<nat>)
    requires Reachable(g, s) && Sized(g, s) && IsSuccessPath(g, p) && |p| > 1
    requires s.es[p[0]].state.Running? || s.es[p[0]].startedC
    ensures var j := p[|p| - 1]; s.es[j].startedC && (g[j].oneshot ==> s.last[j] == Some(0) && !Holds(s.pcs[j]))
    decreases |p|
  {
    hide SuccessStep, Reachable;
    ReachableInvariant(g, s);
    AwaitedStarted(g, s, p[0], p[1]);
    if |p| > 2 {
      var q := p[1..];
      TailIsPath(g, p);
      TransitiveSuccess(g, s, q);
    }
  }

  lemma TailIsPath(g: Graph, p: seq<nat>)
    requires IsSuccessPath(g, p) && |p| > 1
    ensures IsSuccessPath(g, p[1..])
  {
    hide SuccessStep;
    var q := p[1..];
    forall n | 0 <= n < |q| - 1 ensures DependsOn(g[q[n]], q[n + 1]) {
      assert DependsOn(g[p[n + 1]], p[n + 1 + 1]);
    }
    forall n | 0 <= n < |q| - 1 ensures SuccessStep(g[q[n]], q[n + 1]) {
      assert SuccessStep(g[p[n + 1]], p[n + 1 + 1]);
    }
  }

  // ---- Init DAG, then exec ----

  /** m reaches i along a success path, or along one and a last edge of any mode. */
  ghost predicate IsInitOf(g: Graph, m: nat, i: nat) {
    m < |g| && i < |g| && exists j: nat :: IsLastBefore(g, m, j, i)
  }

  ghost predicate IsLastBefore(g: Graph, m: nat, j: nat, i: nat) {
    j < |g| && DependsOn(g[j], i) && OneModePerDep(g[j])
    && (j == m || exists p :: IsSuccessPath(g, p) && |p| > 1 && p[0] == m && p[|p| - 1] == j)
  }

  /** Every node but m is a oneshot that has to be over, one way or another, before m runs. */
  ghost predicate InitThenExec(g: Graph, m: nat) {
    && m < |g| && !g[m].oneshot && g[m].exec
    && forall i :: 0 <= i < |g| && i != m ==> g[i].oneshot && IsInitOf(g, m, i)
  }

  /** A oneshot that a running node waits for, in any mode, is not counted active. */
  lemma AwaitedIdle(g: Graph, s: State, j: nat, i: nat)
    requires Invariant(g, s) && j < |g| && i < |g| && DependsOn(g[j], i) && OneModePerDep(g[j])
    requires (s.es[j].state.Running? || s.es[j].startedC) && g[i].oneshot
    ensures !Holds(s.pcs[i])
  {
    var k :| 0 <= k < |g[j].links| && g[j].links[k].dep == i;
    assert AllSignalled(g, s, j);
    assert Signalled(s, g[j].links[k]);
    assert Local(g[i], s.es[i], s.pcs[i], s.last[i], s.cancelled);
  }

  lemma AncestorIdle(g: Graph, s: State, m: nat, i: nat)
    requires Reachable(g, s) && Sized(g, s) && m < |g| && s.es[m].state.Running?
    requires i < |g| && g[i].oneshot && IsInitOf(g, m, i)
    ensures !Holds(s.pcs[i])
  {
    hide Reachable, OneModePerDep, Invariant;
    ReachableInvariant(g, s);
    var j: nat :| IsLastBefore(g, m, j, i);
    if j != m {
      var p :| IsSuccessPath(g, p) && |p| > 1 && p[0] == m && p[|p| - 1] == j;
      TransitiveSuccess(g, s, p);
    }
    AwaitedIdle(g, s, j, i);
  }

  /** The exec guard never trips: nothing is counted active when it is evaluated. */
  lemma ExecGuardHolds(g: Graph, s: State, m: nat, last: Option<int>)
    requires Reachable(g, s) && InitThenExec(g, m) && Sized(g, s) && s.pcs[m].Entered?
    ensures s.active == 0
    ensures !Enabled(g, s, Move(m, Leaving(Some(ActiveSiblings)), last))
    ensures Enabled(g, s, Move(m, Execing, s.last[m]))
  {
    hide Reachable, IsInitOf, Counts, RanSatisfied, RoutedReleased, Provenance, Reports;
    ReachableInvariant(g, s);
    assert Local(g[m], s.es[m], s.pcs[m], s.last[m], s.cancelled);
    forall i | 0 <= i < |s.pcs| ensures !Holds(s.pcs[i]) {
      if i != m { AncestorIdle(g, s, m, i); }
    }
    NoHolders(s.pcs);
  }

  /** The guard looks for supervised processes, running oneshots and scheduled jobs in progress: an exec
      node that is no oneshot goes on exactly if there is none, and fails exactly if there is one. */
  lemma ExecGuardExactly(g: Graph, s: State, m: nat)
    requires Reachable(g, s) && Sized(g, s) && m < |g| && s.pcs[m].Entered? && g[m].exec && !g[m].oneshot
    ensures var busy := exists i :: 0 <= i < |g| && s.pcs[i] in {Held, HeldStarted, HeldReady, Attempt, Ticking};
            && (Enabled(g, s, Move(m, Execing, s.last[m])) <==> !busy)
            && (Enabled(g, s, Move(m, Leaving(Some(ActiveSiblings)), s.last[m])) <==> busy)
  {
    hide Reachable, Locals, Counts, RanSatisfied, RoutedReleased, Provenance, Reports;
    ReachableInvariant(g, s);
    if s.active > 0 {
      var i := SomeHolder(s.pcs);
    } else if i :| 0 <= i < |s.pcs| && Holds(s.pcs[i]) {
      HolderCounts(s.pcs, i);
    }
  }

  lemma {:induction false} HolderCounts(pcs: seq<Pc>, i: nat)
    requires i < |pcs| && Holds(pcs[i])
    ensures CountHolders(pcs) > 0
  {
    var n := |pcs| - 1;
    if i < n { HolderCounts(pcs[..n], i); }
  }

  // ---- Node life cycle ----

  function Age(st: NodeState): nat {
    match st
    case Pending => 0
    case Running => 1
    case Skipped => 1
    case Exited => 2
  }

  /** One step moves a node's state forward or leaves it; a skipped node does not run. */
  lemma StateForward(g: Graph, s: State, a: Step, i: nat)
    requires Sized(g, s) && Locals(g, s) && Enabled(g, s, a) && i < |g|
    ensures var st, st' := s.es[i].state, Do(g, s, a).es[i].state;
            Age(st) <= Age(st') && (Age(st) == Age(st') ==> st == st')
  {
    assert Local(g[i], s.es[i], s.pcs[i], s.last[i], s.cancelled);
    if Actor(a) == Some(i) { ActorLocal(g, s, a, i); } else { Bystander(g, s, a, i); }
  }

  lemma FirstErrorStays(g: Graph, s: State, a: Step)
    requires Sized(g, s) && Enabled(g, s, a) && s.errCh.Some?
    ensures Do(g, s, a).errCh == s.errCh
  {
  }

  /** Over a whole run, states only move forward, a node that was skipped never runs, and the
      first error recorded stays. */
  lemma {:induction false} LifeForward(g: Graph, s: State, s': State, n: nat, i: nat)
    requires Reachable(g, s) && Leads(g, s, s', n) && i < |g| && Sized(g, s) && Sized(g, s')
    ensures Reachable(g, s')
    ensures Age(s.es[i].state) <= Age(s'.es[i].state)
    ensures s.es[i].state.Skipped? ==> s'.es[i].state.Skipped? || s'.es[i].state.Exited?
    ensures s.errCh.Some? ==> s'.errCh == s.errCh
    decreases n
  {
    if n > 0 {
      var m :| Leads(g, s, m, n - 1) && Next(g, m, s');
      hide Do, Enabled, Reachable, Invariant;
      LifeForward(g, s, m, n - 1, i);
      ReachableLocals(g, m);
      var a :| Enabled(g, m, a) && Do(g, m, a) == s';
      ReachStep(g, m, a);
      StateForward(g, m, a, i);
      if m.errCh.Some? { FirstErrorStays(g, m, a); }
    }
  }

  /** A node is skipped only while an edge of it is unsatisfied, and after a dependency has left. */
  lemma SkippedOnlyUnsatisfied(g: Graph, s: State, a: Step, i: nat)
    requires Reachable(g, s) && Sized(g, s) && Enabled(g, s, a) && i < |g|
    requires !s.es[i].state.Skipped? && Do(g, s, a).es[i].state.Skipped?
    ensures s.es[i].state.Pending? && !s.es[i].goClosed
    ensures Sized(g, Do(g, s, a)) && !AllSignalled(g, Do(g, s, a), i)
    ensures HasRoutedDep(g, Do(g, s, a), i)
  {
    hide Do, Reachable, Leads;
    ReachableInvariant(g, s);
    var s' := Do(g, s, a);
    MarkedBy(g, s, a, i);
    StateForward(g, s, a, i);
    assert Local(g[i], s.es[i], s.pcs[i], s.last[i], s.cancelled);
    SkipLeavesEdge(g, s, a, i);
  }

  lemma SkipLeavesEdge(g: Graph, s: State, a: Step, i: nat)
    requires Invariant(g, s) && Enabled(g, s, a) && i < |g|
    requires s.es[i].state.Pending? && !s.es[i].goClosed && Do(g, s, a).es[i].state.Skipped?
    requires a.Leave? && a.i < |g| && DependsOn(g[i], a.i) && Sized(g, Do(g, s, a))
    ensures !AllSignalled(g, Do(g, s, a), i)
  {
    hide SameSignals, OneMoreSignal, RanSatisfied, Reports, OneModePerDep;
    var s' := Do(g, s, a);
    SignalsOf(g, s, a);
    assert Local(g[a.i], s.es[a.i], s.pcs[a.i], s.last[a.i], s.cancelled);
    BystanderEntry(g, s, a, i);
    var x1 := if Given(g, s, a).Some? then NotifyOne(g[i], s.es[i], a.i, Exit) else s.es[i];
    assert g[i].links != [] && !x1.goClosed && x1.pending > 0;
    if Given(g, s, a).Some? {
      var l := Given(g, s, a).value;
      DroppedAtLeast(g[i], l);
      UnsignalledDrops(g[i].links, s, s', l);
    } else {
      UnsignalledSame(g[i].links, s, s');
    }
    assert Unsignalled(g[i].links, s') >= x1.pending;
    UnsignalledZero(g[i].links, s');
  }

  /** On a shutdown exactly the waiting nodes that have not been released give up: once all its edges
      are signalled, a node runs, if only for its own checks. */
  lemma SatisfiedNeverBails(g: Graph, s: State, i: nat)
    requires Reachable(g, s) && Sized(g, s) && s.frontier && i < |g| && s.pcs[i].Waiting? && s.es[i].state.Pending?
    ensures s.cancelled ==> (Enabled(g, s, Bail(i)) <==> !Enabled(g, s, Wake(i)))
    ensures AllSignalled(g, s, i) ==> Enabled(g, s, Wake(i)) && !Enabled(g, s, Bail(i))
  {
    ReachableInvariant(g, s);
    UnsignalledZero(g[i].links, s);
  }

  // ---- What processes may do ----

  /** An attempt of a oneshot counts as its success exactly if it exits with code 0; it can be repeated
      after any other code. */
  lemma AttemptSucceeds(g: Graph, s: State, i: nat, code: int)
    requires Sized(g, s) && i < |g| && s.pcs[i].Attempt?
    ensures Enabled(g, s, Move(i, Succeeded, Some(code))) <==> code == 0
    ensures Enabled(g, s, Move(i, Attempt, Some(code))) <==> code != 0
  {
  }

  /** What an entered node starts with depends on its kind: an attempt, a scheduler's signal, or a
      supervised process. A scheduler's jobs come and go. */
  lemma LifecycleStarts(g: Graph, s: State, i: nat)
    requires Sized(g, s) && i < |g|
    ensures s.pcs[i].Entered? ==>
              && (Enabled(g, s, Move(i, Attempt, s.last[i])) <==> g[i].oneshot)
              && (Enabled(g, s, Signal(i)) <==> g[i].scheduled && !g[i].oneshot && !g[i].exec)
              && (Enabled(g, s, Move(i, Held, s.last[i])) <==> !g[i].scheduled && !g[i].oneshot && !g[i].exec)
    ensures Enabled(g, s, Move(i, Ticking, s.last[i])) <==> s.pcs[i].SchedReady?
    ensures Enabled(g, s, Move(i, SchedReady, s.last[i])) <==> s.pcs[i].Ticking?
  {
  }

  /** A lifecycle can fail at any time before a oneshot's success, outside a scheduler's two signals. It
      can end without an error once a process is ready, between scheduled jobs or in one, when the
      image is replaced, or, for a oneshot that has not succeeded, when it is cancelled or drained. */
  lemma LifecycleEnds(g: Graph, s: State, i: nat, id: int)
    requires Sized(g, s) && i < |g|
    ensures Enabled(g, s, Move(i, Leaving(Some(Reported(id))), s.last[i])) <==>
            s.pcs[i] in {Entered, Held, HeldStarted, HeldReady, Attempt, SchedReady, Ticking, Execing}
    ensures Enabled(g, s, Move(i, Leaving(None), s.last[i])) <==>
            s.pcs[i] in {HeldReady, SchedReady, Ticking, Execing}
            || (s.pcs[i].Attempt? && (s.cancelled || s.es[i].drained))
  {
  }

  // ---- The result of Run ----

  ghost predicate Finished(g: Graph, s: State)
    requires Sized(g, s)
  {
    forall i :: 0 <= i < |g| ==> Returned(s.pcs[i])
  }

  /** Once every goroutine has returned, Run's result is nil exactly when no non-optional node
      reported an error, and otherwise it is the first error that was recorded. */
  lemma RunResult(g: Graph, s: State)
    requires Reachable(g, s) && Sized(g, s) && Finished(g, s)
    ensures s.errCh.None? <==> forall i :: 0 <= i < |g| && !g[i].optional ==> !(s.pcs[i].Left? && s.pcs[i].left.Some?)
    ensures s.errCh.Some? ==> s.reports != [] && s.errCh.value == s.reports[0].1
                              && s.reports[0].0 < |g| && s.pcs[s.reports[0].0] == Left(Some(s.errCh.value))
  {
    ReachableInvariant(g, s);
  }
}
