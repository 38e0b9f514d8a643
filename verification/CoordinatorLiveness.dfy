/** When can a run stop short? A node can be left waiting forever, because a oneshot that is
    skipped or drained leaves without an error and without signalling. */
module CoordinatorLiveness {
  import opened Options
  import opened Graph
  import opened Coordinator
  import opened CoordinatorInvariant
  import opened CoordinatorSteps
  import opened CoordinatorTheorems

  /** Nothing can happen any more, short of an external cancellation. */
  ghost predicate Quiescent(g: Graph, s: State)
    requires Sized(g, s)
  {
    forall a :: Enabled(g, s, a) ==> a == Cancel
  }

  ghost predicate DeadlockFree(g: Graph) {
    forall s :: Reachable(g, s) && Sized(g, s) && Quiescent(g, s) ==> Finished(g, s)
  }

  predicate Stuck(s: State, i: nat)
    requires i < |s.es| && |s.es| == |s.pcs|
  {
    s.pcs[i].Waiting? && s.es[i].state.Pending? && !s.es[i].goClosed && !s.cancelled
  }

  ghost predicate AllDepsOneshot(g: Graph, w: nat)
    requires w < |g|
  {
    forall j :: 0 <= j < |g| && DependsOn(g[w], j) ==> g[j].oneshot
  }

  /** w waits for oneshots only, for the success of one of them; that one, o, can be skipped or
      drained by its dependency x, whose exit does not reach w. When x must not fail, its clean exit
      skips or drains o only if that is not all that o waits for. */
  ghost predicate Prone(g: Graph, w: nat, o: nat, x: nat) {
    && w < |g| && o < |g| && x < |g|
    && AllDepsOneshot(g, w)
    && AwaitsSuccess(g[w], o) && DependsOn(g[o], x) && !DependsOn(g[w], x)
    && (g[x].optional || (!g[x].oneshot && BeyondExit(g[o], x)))
  }

  ghost predicate DeadlockProne(g: Graph) {
    exists w, o, x :: Prone(g, w, o, x)
  }

  /** What a node does next if nothing goes wrong. */
  function Continue(g: Graph, s: State, i: nat): Step
    requires |s.pcs| == |s.es| == |s.last| == |g| && i < |g|
  {
    match s.pcs[i]
    case Waiting => if s.es[i].goClosed then Wake(i) else Bail(i)
    case SkipLeaving => Leave(i)
    case Entered =>
      if g[i].oneshot then Move(i, Attempt, s.last[i])
      else if g[i].exec then
        Move(i, if s.active == 0 then Execing else Leaving(Some(ActiveSiblings)), s.last[i])
      else if g[i].scheduled then Signal(i)
      else Move(i, Held, s.last[i])
    case HeldReady => Move(i, Leaving(None), s.last[i])
    case Attempt => Move(i, Succeeded, Some(0))
    case SchedReady => Move(i, Leaving(None), s.last[i])
    case Ticking => Move(i, SchedReady, s.last[i])
    case Execing => Move(i, Leaving(None), s.last[i])
    case Leaving(_) => Leave(i)
    case Failing(_) => Fail(i)
    case _ => Signal(i)
  }

  lemma ContinueEnabled(g: Graph, s: State, i: nat)
    requires Sized(g, s) && Locals(g, s) && i < |g| && !Returned(s.pcs[i])
    requires s.pcs[i].Waiting? ==> s.es[i].goClosed || s.cancelled
    ensures Enabled(g, s, Continue(g, s, i)) && Continue(g, s, i) != Cancel
    ensures Actor(Continue(g, s, i)) == Some(i)
  {
    assert Local(g[i], s.es[i], s.pcs[i], s.last[i], s.cancelled);
  }

  /** In a quiescent state a node that has not returned waits for goCh, uncancelled, with an
      unsatisfied edge. */
  lemma QuiescentStuck(g: Graph, s: State, i: nat)
    requires Invariant(g, s) && Quiescent(g, s) && i < |g| && !Returned(s.pcs[i])
    ensures Stuck(s, i) && s.frontier
    ensures exists k :: 0 <= k < |g[i].links| && !Signalled(s, g[i].links[k])
  {
    assert Enabled(g, s, FrontierStep) <==> !s.frontier;
    assert Local(g[i], s.es[i], s.pcs[i], s.last[i], s.cancelled);
    if !s.pcs[i].Waiting? || s.es[i].goClosed || s.cancelled {
      ContinueEnabled(g, s, i);
    }
    UnsignalledZero(g[i].links, s);
  }

  lemma {:induction false} MinimalStuck(g: Graph, s: State, rank: seq<nat>, i: nat) returns (w: nat)
    requires Sized(g, s) && IsRank(g, rank) && i < |g| && Stuck(s, i)
    ensures w < |g| && Stuck(s, w)
    ensures forall j :: 0 <= j < |g| && DependsOn(g[w], j) ==> !Stuck(s, j)
    decreases rank[i]
  {
    if j :| 0 <= j < |g| && DependsOn(g[i], j) && Stuck(s, j) {
      w := MinimalStuck(g, s, rank, j);
    } else {
      w := i;
    }
  }

  /** A dependency that has returned without releasing a stuck node is a oneshot that left
      without an error. */
  lemma DepOfStuck(g: Graph, s: State, w: nat, j: nat)
    requires Invariant(g, s) && w < |g| && j < |g| && w != j && Stuck(s, w) && DependsOn(g[w], j) && Returned(s.pcs[j])
    ensures g[j].oneshot && s.pcs[j] == Left(None)
    ensures !Routed(g, s, j)
  {
    assert Local(g[j], s.es[j], s.pcs[j], s.last[j], s.cancelled);
    var x := s.es[w];
    assert Routed(g, s, j) && x.state.Pending? ==> x.goClosed;
  }

  lemma UnsignalledOneshot(g: Graph, s: State, w: nat, k: nat)
    requires Invariant(g, s) && w < |g| && k < |g[w].links| && !Signalled(s, g[w].links[k])
    requires var o := g[w].links[k].dep; g[o].oneshot && s.pcs[o] == Left(None)
    ensures var o := g[w].links[k].dep; Silent(g[o], s.es[o], s.pcs[o])
  {
    var o := g[w].links[k].dep;
    assert Local(g[o], s.es[o], s.pcs[o], s.last[o], s.cancelled);
  }

  // ---- Runs do not go on by themselves ----

  /** How far a goroutine is from its end. */
  function Weight(pc: Pc): nat {
    match pc
    case Waiting => 12
    case Entered => 11
    case Held => 10
    case Attempt => 10
    case HeldStarted => 9
    case Succeeded => 9
    case HeldReady => 8
    case SucceededStarted => 8
    case SchedStarted => 8
    case Execing => 8
    case Ticking => 7
    case SchedReady => 6
    case SkipLeaving => 2
    case Leaving(_) => 2
    case Failing(_) => 1
    case Bailed => 0
    case Left(_) => 0
  }

  function TotalWeight(pcs: seq<Pc>): nat {
    if pcs == [] then 0 else TotalWeight(pcs[..|pcs| - 1]) + Weight(pcs[|pcs| - 1])
  }

  lemma {:induction false} WeightUpdate(pcs: seq<Pc>, i: nat, pc: Pc)
    requires i < |pcs|
    ensures TotalWeight(pcs[i := pc]) == TotalWeight(pcs) - Weight(pcs[i]) + Weight(pc)
  {
    var n := |pcs| - 1;
    if i == n {
      assert pcs[i := pc][..n] == pcs[..n];
    } else {
      WeightUpdate(pcs[..n], i, pc);
      assert pcs[i := pc][..n] == pcs[..n][i := pc];
    }
  }

  /** What is left to do, when no process is restarted and no job is started again. */
  function Budget(s: State): nat {
    TotalWeight(s.pcs) + (if s.frontier then 0 else 1) + (if s.cancelled then 0 else 1)
  }

  /** A oneshot's retry, or the start of a scheduled run. */
  predicate Repeats(s: State, a: Step) {
    a.Move? && a.i < |s.pcs| && ((s.pcs[a.i].Attempt? && a.pc.Attempt?) || (s.pcs[a.i].SchedReady? && a.pc.Ticking?))
  }

  lemma GoroutineNears(g: Graph, s: State, a: Step, i: nat)
    requires Sized(g, s) && Enabled(g, s, a) && Actor(a) == Some(i)
    ensures i < |s.pcs|
    ensures Repeats(s, a) ==> Weight(PcAfter(g, s, a, i)) <= Weight(s.pcs[i]) + 1
    ensures !Repeats(s, a) ==> Weight(PcAfter(g, s, a, i)) < Weight(s.pcs[i])
  {
  }

  /** Every other step of the frontier, of a goroutine or from outside brings the end nearer. */
  lemma StepsEnd(g: Graph, s: State, a: Step)
    requires Sized(g, s) && Enabled(g, s, a)
    ensures Repeats(s, a) ==> Budget(Do(g, s, a)) <= Budget(s) + 1
    ensures !Repeats(s, a) ==> Budget(Do(g, s, a)) < Budget(s)
  {
    hide PcAfter, Weight, Repeats, CanMove;
    if Actor(a).Some? {
      var i := Actor(a).value;
      GoroutineNears(g, s, a, i);
      WeightUpdate(s.pcs, i, PcAfter(g, s, a, i));
    } else {
      assert !Repeats(s, a) by { NotMove(s, a); }
    }
  }

  lemma NotMove(s: State, a: Step)
    requires Actor(a).None?
    ensures !Repeats(s, a)
  {
  }

  /** A run of n steps, r of which repeat something. */
  ghost predicate LeadsWith(g: Graph, s: State, s': State, n: nat, r: nat)
    decreases n
  {
    if n == 0 then Sized(g, s) && s == s' && r == 0
    else exists m, again :: LastStep(g, m, s', again) && r >= Once(again) && LeadsWith(g, s, m, n - 1, r - Once(again))
  }

  function Once(again: bool): nat { if again then 1 else 0 }

  ghost predicate LastStep(g: Graph, s: State, s': State, again: bool) {
    Sized(g, s) && Sized(g, s') && exists a :: Enabled(g, s, a) && Do(g, s, a) == s' && Repeats(s, a) == again
  }

  lemma {:induction false} CountRepeats(g: Graph, s: State, s': State, n: nat) returns (r: nat)
    requires Leads(g, s, s', n)
    ensures LeadsWith(g, s, s', n, r) && r <= n
    decreases n
  {
    r := 0;
    if n > 0 {
      hide LastStep;
      var m :| Leads(g, s, m, n - 1) && Next(g, m, s');
      r := CountRepeats(g, s, m, n - 1);
      var again := StepRepeats(g, m, s');
      r := r + Once(again);
    }
  }

  lemma StepRepeats(g: Graph, s: State, s': State) returns (again: bool)
    requires Next(g, s, s')
    ensures LastStep(g, s, s', again)
  {
    hide Do, Enabled, Repeats;
    var a :| Enabled(g, s, a) && Do(g, s, a) == s';
    again := Repeats(s, a);
  }

  lemma LastSpends(g: Graph, s: State, s': State, again: bool)
    requires LastStep(g, s, s', again)
    ensures Budget(s') + 1 <= Budget(s) + 2 * Once(again)
  {
    hide Do, Enabled, Repeats, Budget;
    var a :| Enabled(g, s, a) && Do(g, s, a) == s' && Repeats(s, a) == again;
    StepsEnd(g, s, a);
  }

  lemma {:induction false} BudgetSpent(g: Graph, s: State, s': State, n: nat, r: nat)
    requires LeadsWith(g, s, s', n, r)
    ensures n + Budget(s') <= Budget(s) + 2 * r
    decreases n
  {
    hide LastStep, Budget, Once;
    if n > 0 {
      var m, again :| LastStep(g, m, s', again) && r >= Once(again) && LeadsWith(g, s, m, n - 1, r - Once(again));
      BudgetSpent(g, s, m, n - 1, r - Once(again));
      LastSpends(g, m, s', again);
    }
  }

  lemma {:induction false} InitWeight(pcs: seq<Pc>)
    requires forall i :: 0 <= i < |pcs| ==> pcs[i].Waiting?
    ensures TotalWeight(pcs) == 12 * |pcs|
  {
    if pcs != [] { InitWeight(pcs[..|pcs| - 1]); }
  }

  /** Every run ends, unless oneshots are retried or jobs started for ever: its length is bounded by
      the size of the chain and the number of such repetitions. */
  lemma RunsEnd(g: Graph, s: State, n: nat, r: nat)
    requires LeadsWith(g, Init(g), s, n, r)
    ensures n <= 12 * |g| + 2 + 2 * r
  {
    BudgetSpent(g, Init(g), s, n, r);
    InitWeight(Init(g).pcs);
  }

  /** Repetition never holds up a run: where nothing but repetition is possible, nothing is. */
  lemma RepetitionCanStop(g: Graph, s: State)
    requires Reachable(g, s) && Sized(g, s)
    ensures Quiescent(g, s) <==> forall a :: Enabled(g, s, a) ==> a == Cancel || Repeats(s, a)
  {
    ReachableInvariant(g, s);
    if a :| Enabled(g, s, a) && Repeats(s, a) {
      ContinueEnabled(g, s, a.i);
      assert !Repeats(s, Continue(g, s, a.i));
    }
  }

  // ---- A node that waits for the exit of one other alone ----

  ghost predicate OnlyAwaitsExit(g: Graph, o: nat, x: nat) {
    o < |g| && x < |g| && !g[x].optional && g[o].links != [] && !BeyondExit(g[o], x)
  }

  /** Such a node is never skipped or drained, and leaves silently only on cancellation. */
  ghost predicate NeverMarked(g: Graph, s: State, o: nat)
    requires Sized(g, s) && o < |g|
  {
    && !s.es[o].drained && !s.es[o].state.Skipped?
    && (Silent(g[o], s.es[o], s.pcs[o]) ==> s.cancelled)
  }

  lemma {:induction false} AllToOne(links: seq<Link>, x: nat)
    requires forall k :: 0 <= k < |links| ==> links[k].dep == x
    ensures CountLinks(links, x) == |links|
  {
    if links != [] { AllToOne(links[..|links| - 1], x); }
  }

  /** The exit that would skip or drain it releases it first, or has been waited for already. */
  lemma ExitReleases(g: Graph, s: State, o: nat, x: nat)
    requires Invariant(g, s) && OnlyAwaitsExit(g, o, x) && o != x && Enabled(g, s, Leave(x))
    requires ExitError(s.pcs[x]).None?
    ensures s.es[o].state.Pending? ==> CascadeOne(g[o], NotifyOne(g[o], s.es[o], x, Exit), x).state.Pending?
    ensures !s.es[o].state.Running?
  {
    var links := g[o].links;
    assert forall k :: 0 <= k < |links| ==> links[k] == Link(x, Exit);
    AllToOne(links, x);
    UnsignalledZero(links, s);
    assert HasEdgeWaiting(g[o], x, Exit) by { assert links[0] == Link(x, Exit); }
    assert !Signalled(s, links[0]);
    if s.es[o].state.Running? { RunningSignalled(g, s, o, 0); }
  }

  lemma RunningSignalled(g: Graph, s: State, i: nat, k: nat)
    requires Invariant(g, s) && i < |g| && OneModePerDep(g[i]) && s.es[i].state.Running? && k < |g[i].links|
    ensures Signalled(s, g[i].links[k])
  {
    assert AllSignalled(g, s, i);
  }

  lemma StaysUnmarked(g: Graph, s: State, a: Step, o: nat, x: nat)
    requires Invariant(g, s) && Enabled(g, s, a) && OnlyAwaitsExit(g, o, x) && NeverMarked(g, s, o)
    ensures Sized(g, Do(g, s, a)) && NeverMarked(g, Do(g, s, a), o)
  {
    hide Do, Enabled, Local;
    KeepsLocals(g, s, a);
    var s' := Do(g, s, a);
    if (s'.es[o].drained && !s.es[o].drained) || (s'.es[o].state.Skipped? && !s.es[o].state.Skipped?) {
      MarkedBy(g, s, a, o);
      UnmarkedByExit(g, s, a, o, x);
    }
    if Silent(g[o], s'.es[o], s'.pcs[o]) {
      SilentOrigin(g, s, a, o);
      StaysCancelled(g, s, a);
    }
  }

  lemma StaysCancelled(g: Graph, s: State, a: Step)
    requires Sized(g, s) && Enabled(g, s, a)
    ensures s.cancelled ==> Do(g, s, a).cancelled
  {
  }

  lemma UnmarkedByExit(g: Graph, s: State, a: Step, o: nat, x: nat)
    requires Invariant(g, s) && Enabled(g, s, a) && OnlyAwaitsExit(g, o, x) && NeverMarked(g, s, o)
    requires a.Leave? && a.i < |g| && DependsOn(g[o], a.i) && Routes(g[a.i], ExitError(s.pcs[a.i]))
    ensures Sized(g, Do(g, s, a)) && !Do(g, s, a).es[o].drained && !Do(g, s, a).es[o].state.Skipped?
  {
    assert a.i == x;
    if o == x {
      ActorUnmarked(g, s, a);
    } else {
      ExitReleases(g, s, o, x);
      BystanderEntry(g, s, a, o);
    }
  }

  lemma {:induction false} UnmarkedAlong(g: Graph, s: State, n: nat, o: nat, x: nat)
    requires Resolved(g) && Leads(g, Init(g), s, n) && OnlyAwaitsExit(g, o, x)
    ensures Sized(g, s) && NeverMarked(g, s, o)
    decreases n
  {
    if n > 0 {
      hide Do, Enabled, NeverMarked, OnlyAwaitsExit;
      var m :| Leads(g, Init(g), m, n - 1) && Next(g, m, s);
      assert o < |g| by { OnlyNode(g, o, x); }
      UnmarkedAlong(g, m, n - 1, o, x);
      assert Reachable(g, m);
      ReachableInvariant(g, m);
      var a :| Enabled(g, m, a) && Do(g, m, a) == s;
      StaysUnmarked(g, m, a, o, x);
    }
  }

  lemma OnlyNode(g: Graph, o: nat, x: nat)
    requires OnlyAwaitsExit(g, o, x)
    ensures o < |g|
  {
  }

  /** A oneshot that left silently without a cancellation awaits more than one exit. */
  lemma SilentBeyondExit(g: Graph, s: State, o: nat, x: nat)
    requires Reachable(g, s) && Sized(g, s) && o < |g| && x < |g| && DependsOn(g[o], x) && !s.cancelled
    requires Silent(g[o], s.es[o], s.pcs[o])
    ensures g[x].optional || BeyondExit(g[o], x)
  {
    if OnlyAwaitsExit(g, o, x) {
      var n: nat :| Leads(g, Init(g), s, n);
      UnmarkedAlong(g, s, n, o, x);
    }
  }

  /** A node can be left waiting only because a oneshot left by nodeExited(nil) without
      succeeding: some stuck node w waits for nothing but oneshots that left without an error,
      one of them, o, never signalled, and o was skipped or drained by x, which w does not see. */
  lemma StuckBecauseSilent(g: Graph, s: State, rank: seq<nat>, i: nat) returns (w: nat, o: nat, x: nat)
    requires Reachable(g, s) && Sized(g, s) && IsRank(g, rank)
    requires Quiescent(g, s) && i < |g| && !Returned(s.pcs[i])
    ensures Prone(g, w, o, x)
    ensures Stuck(s, w) && Silent(g[o], s.es[o], s.pcs[o]) && Routed(g, s, x)
    ensures forall j :: 0 <= j < |g| && DependsOn(g[w], j) ==> s.pcs[j] == Left(None)
  {
    ReachableInvariant(g, s);
    QuiescentStuck(g, s, i);
    w := MinimalStuck(g, s, rank, i);
    forall j | 0 <= j < |g| && DependsOn(g[w], j)
      ensures g[j].oneshot && s.pcs[j] == Left(None) && !Routed(g, s, j)
    {
      if !Returned(s.pcs[j]) { QuiescentStuck(g, s, j); }
      DepOfStuck(g, s, w, j);
    }
    QuiescentStuck(g, s, w);
    var k :| 0 <= k < |g[w].links| && !Signalled(s, g[w].links[k]);
    o := g[w].links[k].dep;
    assert DependsOn(g[w], o);
    UnsignalledOneshot(g, s, w, k);
    assert HasRoutedDep(g, s, o);
    x :| 0 <= x < |g| && DependsOn(g[o], x) && Routed(g, s, x);
    SilentBeyondExit(g, s, o, x);
  }

  /** A chain without such a triple always runs to the end, whatever its nodes do. */
  lemma NotProneNeverDeadlocks(g: Graph)
    requires Acyclic(g) && !DeadlockProne(g)
    ensures DeadlockFree(g)
  {
    var rank :| IsRank(g, rank);
    forall s | Reachable(g, s) && Sized(g, s) && Quiescent(g, s)
      ensures Finished(g, s)
    {
      if i :| 0 <= i < |g| && !Returned(s.pcs[i]) {
        var w, o, x := StuckBecauseSilent(g, s, rank, i);
      }
    }
  }

  /** In particular, it is enough that oneshots depend on nothing but oneshots that must succeed. */
  lemma OneshotDepsSuffice(g: Graph)
    requires Acyclic(g)
    requires forall i, j {:trigger DependsOn(g[i], j)} ::
               0 <= i < |g| && 0 <= j < |g| && g[i].oneshot && DependsOn(g[i], j) ==> g[j].oneshot && !g[j].optional
    ensures DeadlockFree(g)
  {
    NotProneNeverDeadlocks(g);
  }
}
