/** What an exit edge guarantees of the node that it waits for. */
module CoordinatorExit {
  import opened Options
  import opened Graph
  import opened Coordinator
  import opened CoordinatorInvariant
  import opened CoordinatorSteps
  import opened CoordinatorTheorems
  import opened CoordinatorCounter
  import opened CoordinatorDeadlock

  /** w runs only after o, a oneshot, has succeeded, in every run. */
  ghost predicate SuccessGuaranteed(g: Graph, w: nat, o: nat)
    requires w < |g| && o < |g|
  {
    forall s :: Reachable(g, s) && Sized(g, s) && s.es[w].state.Running? ==> s.es[o].startedC && s.last[o] == Some(0)
  }

  /** Cancelling the chain while o runs lets it leave without an error, and without signalling. */
  lemma CancelledLeaves(g: Graph, s: State, b: set<nat>, o: nat) returns (s': State)
    requires CalmBut(g, s, b, {}, o) && o < |g| && o !in b && g[o].oneshot && s.pcs[o] == Attempt
    ensures Calm(g, s', b, {o})
  {
    hide Reachable;
    ReachableLocals(g, s);
    LocalAt(g, s, o);
    ReachStep(g, s, Cancel);
    var s1 := Do(g, s, Cancel);
    var leave := Move(o, Leaving(None), s.last[o]);
    ReachStep(g, s1, leave);
    var s2 := Do(g, s1, leave);
    ReachableLocals(g, s2);
    ReachStep(g, s2, Leave(o));
    LeaveChannels(g, s2, o);
    s' := Do(g, s2, Leave(o));
    forall d | 0 <= d < |g| && d != o
      ensures s'.pcs[d] == s.pcs[d] && s'.es[d].state == s.es[d].state
              && s'.es[d].startedC == s.es[d].startedC && s'.es[d].readyC == s.es[d].readyC
    {
      BystanderEntry(g, s2, Leave(o), d);
    }
  }

  /** A waiting node that has been released runs, cancelled or not. */
  lemma WakesUp(g: Graph, s: State, w: nat, o: nat) returns (s': State)
    requires Reachable(g, s) && Sized(g, s) && w < |g| && o < |g| && w != o
    requires Untouched(s.es[w], s.pcs[w]) && s.es[w].goClosed
    ensures Reachable(g, s') && Sized(g, s') && s'.es[w].state.Running? && s'.es[o].startedC == s.es[o].startedC
    ensures s'.cancelled == s.cancelled
  {
    ReachStep(g, s, Wake(w));
    s' := Do(g, s, Wake(w));
  }

  /** c holds the other dependencies of w and what they need, which is not o, or the exit of o alone. */
  ghost predicate OthersStartable(g: Graph, w: nat, o: nat, c: set<nat>)
    requires w < |g|
  {
    StartableAfter(g, c, {o}) && forall k :: 0 <= k < |g[w].links| && g[w].links[k].dep != o ==> g[w].links[k].dep in c
  }

  /** With these up and o gone, all edges of w are signalled but those that need the success of o. */
  lemma AllButSuccess(g: Graph, s: State, b: set<nat>, w: nat, o: nat)
    requires Calm(g, s, b, {o}) && w < |g| && o < |g| && w != o && w !in b && ExitsOfOneshots(g, w)
    requires forall k :: 0 <= k < |g[w].links| && g[w].links[k].dep != o ==> g[w].links[k].dep in b
    ensures forall k :: 0 <= k < |g[w].links| && g[w].links[k] !in SuccessSignals(o) ==> Signalled(s, g[w].links[k])
    ensures Untouched(s.es[w], s.pcs[w]) && !s.es[o].startedC
  {
    forall k | 0 <= k < |g[w].links| && g[w].links[k] !in SuccessSignals(o) ensures Signalled(s, g[w].links[k]) {
      SignalOfEdge(g[w], k);
    }
  }

  /** A run in which w, which is released without the success of o, runs although o has not succeeded. */
  lemma RunsWithoutSuccess(g: Graph, w: nat, o: nat, c: set<nat>, c': set<nat>)
    requires Resolved(g) && Acyclic(g) && ValidKinds(g) && w < |g| && o < |g| && g[o].oneshot
    requires DependsOn(g[w], o) && !NeedsSuccess(g, w, o) && ExitsOfOneshots(g, w)
    requires OthersStartable(g, w, o, c) && Startable(g, c') && o in c'
    ensures !SuccessGuaranteed(g, w, o)
  {
    hide Do, Enabled, Reachable;
    var rank :| IsRank(g, rank);
    var s0 := StartCalm(g);
    var s1, b1 := BringDepsUp(g, rank, c', s0, {}, {}, o, |g[o].links|);
    var s2 := Running(g, s1, b1, o);
    var s3 := CancelledLeaves(g, s2, b1, o);
    var s4, b := BringDepsUp(g, rank, c, s3, b1, {o}, w, |g[w].links|);
    AllButSuccess(g, s4, b, w, o);
    ReleasedWithout(g, s4, w, SuccessSignals(o));
    var s5 := WakesUp(g, s4, w, o);
  }

  /** A node that is not released without the success of o never runs without it. */
  lemma NeedingIsGuaranteed(g: Graph, w: nat, o: nat)
    requires Resolved(g) && w < |g| && o < |g| && g[o].oneshot && NeedsSuccess(g, w, o)
    ensures SuccessGuaranteed(g, w, o)
  {
    forall s | Reachable(g, s) && Sized(g, s) && s.es[w].state.Running?
      ensures s.es[o].startedC && s.last[o] == Some(0)
    {
      var n: nat :| Leads(g, Init(g), s, n);
      RanWith(g, s, n, w, SuccessSignals(o));
      ReachableLocals(g, s);
      assert Local(g[o], s.es[o], s.pcs[o], s.last[o], s.cancelled);
    }
  }

  lemma Running(g: Graph, s: State, b: set<nat>, o: nat) returns (s': State)
    requires CalmBut(g, s, b, {}, o) && o < |g| && ExitsOfOneshots(g, o) && Untouched(s.es[o], s.pcs[o]) && g[o].oneshot
    requires DepsUp(g, b, {}, o)
    ensures CalmBut(g, s', b, {}, o) && s'.pcs[o] == Attempt
  {
    s' := Enter(g, s, b, {}, o);
    s' := QuietStep(g, s', b, {}, o, Move(o, Attempt, s'.last[o]));
  }

  /** When can a node rely on the success of a oneshot o that it waits for? If its other dependencies
      can be started without that success: exactly when they and the exit of o do not release it. A
      oneshot that is cancelled, or drained, leaves without an error, which satisfies an exit edge. */
  lemma SuccessExactly(g: Graph, w: nat, o: nat)
    requires Resolved(g) && Acyclic(g) && ValidKinds(g) && w < |g| && o < |g| && g[o].oneshot
    requires DependsOn(g[w], o) && ExitsOfOneshots(g, w)
    requires (exists c :: OthersStartable(g, w, o, c)) && exists c' :: Startable(g, c') && o in c'
    ensures SuccessGuaranteed(g, w, o) <==> NeedsSuccess(g, w, o)
  {
    if NeedsSuccess(g, w, o) {
      NeedingIsGuaranteed(g, w, o);
    } else {
      var c :| OthersStartable(g, w, o, c);
      var c' :| Startable(g, c') && o in c';
      RunsWithoutSuccess(g, w, o, c, c');
    }
  }

  /** For a node with one wait mode per dependency that is so exactly when its mode for o is not exit. */
  lemma NeedsSuccessExactly(g: Graph, w: nat, o: nat)
    requires w < |g| && DependsOn(g[w], o) && OneModePerDep(g[w])
    ensures NeedsSuccess(g, w, o) <==> AwaitsSuccess(g[w], o)
  {
    var v, missing := g[w], SuccessSignals(o);
    var j: nat :| j < |v.links| && v.links[j].dep == o;
    if k :| 0 <= k < |v.links| && v.links[k].dep == o && v.links[k].wait != Exit {
      SignalOfEdge(v, k);
      assert v.links[k] in missing * EdgeSet(v);
      AgreeingHeldBack(v, missing);
    } else {
      ChargedOnce(v, |v.links|, EdgeSet(v) - missing);
    }
  }

  /** In particular for a node with a single edge. */
  lemma SingleEdgeExactly(g: Graph, w: nat, o: nat, mode: Wait)
    requires Resolved(g) && Acyclic(g) && ExitEdgesToOneshots(g) && ValidKinds(g) && w < |g| && o < |g|
    requires g[w].links == [Link(o, mode)] && g[o].oneshot
    ensures SuccessGuaranteed(g, w, o) <==> mode != Exit
  {
    hide SuccessGuaranteed, ValidKinds, Acyclic, NeedsSuccess;
    var c := AllStartable(g);
    assert g[w].links[0] == Link(o, mode);
    assert OthersStartable(g, w, o, {});
    SuccessExactly(g, w, o);
    NeedsSuccessExactly(g, w, o);
  }

  /** Nor does it take a shutdown: when a service that o depends on, and w does not, exits, o is drained. */
  lemma DrainSatisfiesExit(g: Graph, w: nat, o: nat, x: nat, c: set<nat>, c': set<nat>) returns (s: State)
    requires Resolved(g) && Acyclic(g) && ValidKinds(g) && w < |g| && o < |g| && x < |g|
    requires DependsOn(g[w], o) && !NeedsSuccess(g, w, o) && ExitsOfOneshots(g, w)
    requires OthersStartable(g, w, o, c) && Startable(g, c) && Startable(g, c') && o in c'
    requires g[o].oneshot && DependsOn(g[o], x) && !g[x].oneshot && !DependsOn(g[w], x)
    ensures Reachable(g, s) && Sized(g, s) && s.es[w].state.Running? && !s.es[o].startedC && !s.cancelled
  {
    hide Do, Enabled, Reachable;
    var rank :| IsRank(g, rank);
    s := StartCalm(g);
    var b1, b;
    s, b1 := BringDepsUp(g, rank, c, s, {}, {}, w, |g[w].links|);
    assert o !in b1;
    s, b := BringDepsUp(g, rank, c', s, b1, {}, o, |g[o].links|);
    s := DrainedByService(g, s, b, w, o, x);
    s := WakesUp(g, s, w, o);
  }

  lemma DrainedByService(g: Graph, s: State, b: set<nat>, w: nat, o: nat, x: nat) returns (s': State)
    requires CalmBut(g, s, b, {}, o) && w < |g| && o < |g| && x < |g| && ExitsOfOneshots(g, o)
    requires DepsUp(g, b, {}, o)
    requires g[o].oneshot && !g[x].oneshot && DependsOn(g[o], x) && !DependsOn(g[w], x)
    requires Untouched(s.es[o], s.pcs[o]) && w !in b && w != o && ExitsOfOneshots(g, w) && !NeedsSuccess(g, w, o)
    requires forall k :: 0 <= k < |g[w].links| && g[w].links[k].dep != o ==> g[w].links[k].dep in b
    ensures Live(g, s') && !s'.es[o].startedC && Untouched(s'.es[w], s'.pcs[w]) && s'.es[w].goClosed
  {
    hide Reachable;
    var k: nat :| k < |g[o].links| && g[o].links[k].dep == x;
    s' := Running(g, s, b, o);
    assert Up(g[x], s'.es[x], s'.pcs[x]) && Untouched(s'.es[w], s'.pcs[w]);
    var s1 := ServiceExits(g, s', w, o, x);
    var s2 := DrainedLeaves(g, s1, o);
    forall k | 0 <= k < |g[w].links| && g[w].links[k] !in SuccessSignals(o) ensures Signalled(s2, g[w].links[k]) {
      var d := g[w].links[k].dep;
      SignalOfEdge(g[w], k);
      assert d != x && (d != o ==> Up(g[d], s'.es[d], s'.pcs[d]));
    }
    ReleasedWithout(g, s2, w, SuccessSignals(o));
    s' := s2;
  }
}
