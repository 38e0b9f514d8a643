/** The inductive invariant of the coordinator and its preservation by every step. */
module CoordinatorInvariant {
  import opened Options
  import opened Graph
  import opened Coordinator

  // ---- Counting unsatisfied edges ----

  function Unsignalled(links: seq<Link>, s: State): nat
    requires |s.pcs| == |s.es|
    requires forall k :: 0 <= k < |links| ==> links[k].dep < |s.es|
  {
    if links == [] then 0
    else Unsignalled(links[..|links| - 1], s) + if Signalled(s, links[|links| - 1]) then 0 else 1
  }

  function CountMode(links: seq<Link>, l: Link): nat {
    if links == [] then 0
    else CountMode(links[..|links| - 1], l) + if links[|links| - 1] == l then 1 else 0
  }

  /** s' has exactly one more signal than s. */
  ghost predicate OneMoreSignal(s: State, s': State, l: Link) {
    && |s.pcs| == |s.es| == |s'.es| == |s'.pcs|
    && l.dep < |s.es|
    && !Signalled(s, l)
    && forall m: Link :: m.dep < |s.es| ==> (Signalled(s', m) <==> Signalled(s, m) || m == l)
  }

  ghost predicate SameSignals(s: State, s': State) {
    && |s.pcs| == |s.es| == |s'.es| == |s'.pcs|
    && forall m: Link :: m.dep < |s.es| ==> (Signalled(s', m) <==> Signalled(s, m))
  }

  lemma {:induction false} UnsignalledDrops(links: seq<Link>, s: State, s': State, l: Link)
    requires OneMoreSignal(s, s', l)
    requires forall k :: 0 <= k < |links| ==> links[k].dep < |s.es|
    ensures Unsignalled(links, s') == Unsignalled(links, s) - CountMode(links, l)
  {
    if links != [] {
      UnsignalledDrops(links[..|links| - 1], s, s', l);
      assert Signalled(s', links[|links| - 1]) <==> Signalled(s, links[|links| - 1]) || links[|links| - 1] == l;
    }
  }

  lemma {:induction false} UnsignalledSame(links: seq<Link>, s: State, s': State)
    requires SameSignals(s, s')
    requires forall k :: 0 <= k < |links| ==> links[k].dep < |s.es|
    ensures Unsignalled(links, s') == Unsignalled(links, s)
  {
    if links != [] {
      UnsignalledSame(links[..|links| - 1], s, s');
      assert Signalled(s', links[|links| - 1]) <==> Signalled(s, links[|links| - 1]);
    }
  }

  lemma {:induction false} UnsignalledZero(links: seq<Link>, s: State)
    requires |s.pcs| == |s.es|
    requires forall k :: 0 <= k < |links| ==> links[k].dep < |s.es|
    ensures Unsignalled(links, s) == 0 <==> forall k :: 0 <= k < |links| ==> Signalled(s, links[k])
    ensures Unsignalled(links, s) <= |links|
  {
    if links != [] {
      var front := links[..|links| - 1];
      UnsignalledZero(front, s);
      assert forall k :: 0 <= k < |front| ==> front[k] == links[k];
    }
  }

  /** One decrement per edge is right exactly for the node that waits for `e` in that mode alone;
      the others lose one count for each edge of another mode. */
  lemma {:induction false} ModeCount(links: seq<Link>, l: Link)
    ensures CountMode(links, l) <= CountLinks(links, l.dep)
    ensures CountMode(links, l) > 0 <==> exists k :: 0 <= k < |links| && links[k] == l
    ensures CountMode(links, l) == CountLinks(links, l.dep)
            <==> forall k :: 0 <= k < |links| && links[k].dep == l.dep ==> links[k].wait == l.wait
  {
    if links != [] {
      var n := |links| - 1;
      var front := links[..n];
      ModeCount(front, l);
      assert forall k :: 0 <= k < n ==> front[k] == links[k];
      if CountMode(front, l) > 0 {
        var k :| 0 <= k < |front| && front[k] == l;
        assert links[k] == l;
      }
    }
  }

  // ---- The invariant ----

  predicate Fresh(x: Entry) { !x.startedC && !x.readyC && !x.exitedC }

  predicate Unreleased(x: Entry) {
    Fresh(x) && !x.drained && (x.state.Pending? || (x.state.Skipped? && x.goClosed))
  }

  /** A oneshot that has signalled succeeded in its last attempt; readiness follows the start. */
  predicate Outcome(v: Vertex, x: Entry, last: Option<int>, err: Option<Failure>) {
    && (x.readyC ==> x.startedC)
    && (v.oneshot && x.startedC ==> x.readyC && last == Some(0) && err.None?)
  }

  /** How a node's entry, its goroutine and its last exit code fit together. */
  predicate Local(v: Vertex, x: Entry, pc: Pc, last: Option<int>, cancelled: bool) {
    && (InLifecycle(pc) || pc.Leaving? <==> x.state.Running?)
    && (x.state.Running? ==> x.goClosed && !x.exitedC)
    && match pc
       case Waiting => Unreleased(x)
       case Bailed => Unreleased(x) && cancelled
       case SkipLeaving => x.state.Skipped? && x.goClosed && Fresh(x) && !x.drained
       case Entered => Fresh(x)
       case Held => Fresh(x) && !v.oneshot
       case HeldStarted => x.startedC && !x.readyC && !v.oneshot
       case HeldReady => x.startedC && x.readyC && !v.oneshot
       case Attempt => Fresh(x) && v.oneshot
       case Succeeded => Fresh(x) && v.oneshot && last == Some(0)
       case SucceededStarted => x.startedC && !x.readyC && v.oneshot && last == Some(0)
       case SchedStarted => x.startedC && !x.readyC && !v.oneshot && !v.exec
       case SchedReady => x.startedC && x.readyC && !v.oneshot && !v.exec
       case Ticking => x.startedC && x.readyC && !v.oneshot && !v.exec
       case Execing => Fresh(x) && !v.oneshot && v.exec
       case Leaving(err) => Outcome(v, x, last, err)
       case Failing(e) => x.state.Exited? && x.exitedC && !v.optional && Outcome(v, x, last, Some(e))
       case Left(err) => x.state.Exited? && x.exitedC && Outcome(v, x, last, err)
  }

  /** j has reported an exit that skips or drains its dependents. */
  predicate Routed(g: Graph, s: State, j: nat)
    requires |s.pcs| == |g| && j < |g|
  {
    s.pcs[j].Left? && Routes(g[j], s.pcs[j].left)
  }

  /** A oneshot that is leaving, or left, without an error and without succeeding. */
  predicate Silent(v: Vertex, x: Entry, pc: Pc) {
    v.oneshot && !x.startedC && (pc == Leaving(None) || pc == Left(None))
  }

  ghost predicate Locals(g: Graph, s: State)
    requires Sized(g, s)
  {
    forall i :: 0 <= i < |g| ==> Local(g[i], s.es[i], s.pcs[i], s.last[i], s.cancelled)
  }

  /** The pending counter is at most the number of unsatisfied edges, and exactly that for a node
      with one wait mode per dependency; goCh is closed exactly when it has reached zero. */
  ghost predicate Counts(g: Graph, s: State)
    requires Sized(g, s)
  {
    forall i :: 0 <= i < |g| && s.es[i].state.Pending? ==>
      && s.es[i].pending <= Unsignalled(g[i].links, s)
      && (OneModePerDep(g[i]) ==> s.es[i].pending == Unsignalled(g[i].links, s))
      && (s.es[i].goClosed ==> s.es[i].pending <= 0)
      && (s.es[i].pending <= 0 && (s.frontier || g[i].links != []) ==> s.es[i].goClosed)
  }

  ghost predicate RanSatisfied(g: Graph, s: State)
    requires Sized(g, s)
  {
    forall i :: 0 <= i < |g| && OneModePerDep(g[i]) && (s.es[i].state.Running? || s.es[i].startedC) ==>
      AllSignalled(g, s, i)
  }

  /** Dependents of a node whose exit was routed no longer wait. */
  ghost predicate RoutedReleased(g: Graph, s: State)
    requires Sized(g, s)
  {
    forall d, j :: 0 <= d < |g| && 0 <= j < |g| && d != j && DependsOn(g[d], j) ==>
      (Routed(g, s, j) && s.es[d].state.Pending? ==> s.es[d].goClosed)
  }

  ghost predicate HasRoutedDep(g: Graph, s: State, i: nat)
    requires Sized(g, s) && i < |g|
  {
    exists j :: 0 <= j < |g| && DependsOn(g[i], j) && Routed(g, s, j)
  }

  /** A skipped or drained node has a dependency that left and routed its exit. */
  ghost predicate Provenance(g: Graph, s: State)
    requires Sized(g, s)
  {
    forall i :: 0 <= i < |g| ==>
      && (s.es[i].drained || s.es[i].state.Skipped? ==> HasRoutedDep(g, s, i))
      && (Silent(g[i], s.es[i], s.pcs[i]) ==> s.cancelled || HasRoutedDep(g, s, i))
  }

  /** The error slot holds the first report; reports are exactly the fatal exits that got that far. */
  ghost predicate Reports(g: Graph, s: State)
    requires Sized(g, s)
  {
    && s.errCh == (if s.reports == [] then None else Some(s.reports[0].1))
    && (s.reports != [] ==> s.cancelled)
    && (forall k :: 0 <= k < |s.reports| ==>
          s.reports[k].0 < |g| && !g[s.reports[k].0].optional
          && s.pcs[s.reports[k].0] == Left(Some(s.reports[k].1)))
    && (forall i :: 0 <= i < |g| && s.pcs[i].Left? && s.pcs[i].left.Some? && !g[i].optional ==>
          (i, s.pcs[i].left.value) in s.reports)
  }

  function CountHolders(pcs: seq<Pc>): nat {
    if pcs == [] then 0
    else CountHolders(pcs[..|pcs| - 1]) + if Holds(pcs[|pcs| - 1]) then 1 else 0
  }

  ghost predicate Invariant(g: Graph, s: State) {
    && Sized(g, s)
    && Locals(g, s)
    && Counts(g, s)
    && RanSatisfied(g, s)
    && RoutedReleased(g, s)
    && Provenance(g, s)
    && Reports(g, s)
    && s.active == CountHolders(s.pcs)
  }

  // ---- What a step does to the signals ----

  /** The link whose signal a step gives, if any. */
  function Given(g: Graph, s: State, a: Step): Option<Link>
    requires |s.pcs| == |g|
  {
    match a
    case Signal(i) =>
      if i < |g| && NextSignal(g[i], s.pcs[i]).Some? then Some(Link(i, NextSignal(g[i], s.pcs[i]).value.0)) else None
    case Leave(i) =>
      if i < |g| && (s.pcs[i].SkipLeaving? || s.pcs[i].Leaving?) && ExitError(s.pcs[i]).None? then Some(Link(i, Exit))
      else None
    case _ => None
  }

  /** Routing changes no node's channels except goCh. */
  ghost predicate SameChannels(es: seq<Entry>, es': seq<Entry>) {
    && |es'| == |es|
    && forall d :: 0 <= d < |es| ==>
         es'[d].startedC == es[d].startedC && es'[d].readyC == es[d].readyC && es'[d].exitedC == es[d].exitedC
  }

  lemma SignalGives(g: Graph, s: State, i: nat)
    requires Sized(g, s) && Locals(g, s) && Enabled(g, s, Signal(i))
    ensures OneMoreSignal(s, Do(g, s, Signal(i)), Link(i, NextSignal(g[i], s.pcs[i]).value.0))
  {
    var s' := Do(g, s, Signal(i));
    var (mode, pc) := NextSignal(g[i], s.pcs[i]).value;
    assert Local(g[i], s.es[i], s.pcs[i], s.last[i], s.cancelled);
    var es1 := s.es[i := if mode == Started then s.es[i].(startedC := true) else s.es[i].(readyC := true)];
    assert s'.es == Notify(g, es1, i, mode);
    assert SameChannels(es1, s'.es);
  }

  lemma LeaveChannels(g: Graph, s: State, i: nat)
    requires Sized(g, s) && Locals(g, s) && Enabled(g, s, Leave(i))
    ensures SameChannels(s.es[i := s.es[i].(exitedC := true, state := Exited)], Do(g, s, Leave(i)).es)
  {
    assert Local(g[i], s.es[i], s.pcs[i], s.last[i], s.cancelled);
    var err := ExitError(s.pcs[i]);
    var es1 := s.es[i := s.es[i].(exitedC := true, state := Exited)];
    var es2 := if err.None? then Notify(g, es1, i, Exit) else es1;
    assert SameChannels(es1, es2);
    assert SameChannels(es2, Cascade(g, es2, i));
  }

  lemma LeaveGives(g: Graph, s: State, i: nat)
    requires Sized(g, s) && Locals(g, s) && Enabled(g, s, Leave(i))
    ensures ExitError(s.pcs[i]).None? ==> OneMoreSignal(s, Do(g, s, Leave(i)), Link(i, Exit))
    ensures ExitError(s.pcs[i]).Some? ==> SameSignals(s, Do(g, s, Leave(i)))
  {
    LeaveChannels(g, s, i);
  }

  lemma SignalsOf(g: Graph, s: State, a: Step)
    requires Sized(g, s) && Locals(g, s) && Enabled(g, s, a)
    ensures Given(g, s, a).Some? ==> OneMoreSignal(s, Do(g, s, a), Given(g, s, a).value)
    ensures Given(g, s, a).None? ==> SameSignals(s, Do(g, s, a))
  {
    match a
    case Signal(i) => SignalGives(g, s, i);
    case Leave(i) => LeaveGives(g, s, i);
    case _ =>
  }
}
