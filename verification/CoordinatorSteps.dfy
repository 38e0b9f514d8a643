/** Every step of the coordinator keeps the invariant. */
module CoordinatorSteps {
  import opened Options
  import opened Graph
  import opened Coordinator
  import opened CoordinatorInvariant

  /** What the router may do to the entry of a node other than the one that acts. */
  predicate Evolves(x: Entry, x': Entry) {
    && x'.startedC == x.startedC && x'.readyC == x.readyC && x'.exitedC == x.exitedC
    && (x'.state == x.state || (x.state.Pending? && !x.goClosed && x'.state.Skipped? && x'.goClosed))
    && (x.goClosed ==> x'.goClosed)
    && (x.drained ==> x'.drained)
    && (x'.drained != x.drained ==> x.state.Running?)
    && (x'.goClosed && !x.goClosed ==> x'.state.Skipped? || x'.pending <= 0)
  }

  function Actor(a: Step): Option<nat> {
    match a
    case FrontierStep => None
    case Cancel => None
    case Bail(i) => Some(i)
    case Wake(i) => Some(i)
    case Signal(i) => Some(i)
    case Move(i, _, _) => Some(i)
    case Leave(i) => Some(i)
    case Fail(i) => Some(i)
  }

  /** The entry of a node other than the one that acts, after the step. */
  function BystanderAfter(v: Vertex, s: State, g: Graph, a: Step, x: Entry): Entry
    requires |s.pcs| == |g|
  {
    match a
    case FrontierStep => FrontierOne(x)
    case Signal(i) => if Given(g, s, a).Some? then NotifyOne(v, x, i, Given(g, s, a).value.wait) else x
    case Leave(i) =>
      if i < |g| then
        var x1 := if Given(g, s, a).Some? then NotifyOne(v, x, i, Exit) else x;
        if Routes(g[i], ExitError(s.pcs[i])) then CascadeOne(v, x1, i) else x1
      else x
    case _ => x
  }

  lemma SignalEntry(g: Graph, s: State, i: nat, d: nat)
    requires Sized(g, s) && Locals(g, s) && Enabled(g, s, Signal(i)) && d < |g| && i != d
    ensures Do(g, s, Signal(i)).es[d] == BystanderAfter(g[d], s, g, Signal(i), s.es[d])
  {
    assert Local(g[i], s.es[i], s.pcs[i], s.last[i], s.cancelled);
  }

  lemma LeaveEntry(g: Graph, s: State, i: nat, d: nat)
    requires Sized(g, s) && Locals(g, s) && Enabled(g, s, Leave(i)) && d < |g| && i != d
    ensures Do(g, s, Leave(i)).es[d] == BystanderAfter(g[d], s, g, Leave(i), s.es[d])
  {
    assert Local(g[i], s.es[i], s.pcs[i], s.last[i], s.cancelled);
  }

  lemma BystanderEntry(g: Graph, s: State, a: Step, d: nat)
    requires Sized(g, s) && Locals(g, s) && Enabled(g, s, a) && d < |g| && Actor(a) != Some(d)
    ensures Sized(g, Do(g, s, a))
    ensures Do(g, s, a).es[d] == BystanderAfter(g[d], s, g, a, s.es[d])
    ensures Do(g, s, a).pcs[d] == s.pcs[d] && Do(g, s, a).last[d] == s.last[d]
  {
    match a
    case Signal(i) => SignalEntry(g, s, i, d);
    case Leave(i) => LeaveEntry(g, s, i, d);
    case _ =>
  }

  lemma Bystander(g: Graph, s: State, a: Step, d: nat)
    requires Sized(g, s) && Locals(g, s) && Enabled(g, s, a) && d < |g| && Actor(a) != Some(d)
    ensures Sized(g, Do(g, s, a))
    ensures Evolves(s.es[d], Do(g, s, a).es[d])
    ensures Do(g, s, a).pcs[d] == s.pcs[d] && Do(g, s, a).last[d] == s.last[d]
  {
    hide Do, Enabled, Local;
    BystanderEntry(g, s, a, d);
  }

  lemma ActorLocal(g: Graph, s: State, a: Step, i: nat)
    requires Sized(g, s) && Locals(g, s) && Enabled(g, s, a) && Actor(a) == Some(i)
    ensures Sized(g, Do(g, s, a))
    ensures var s' := Do(g, s, a); Local(g[i], s'.es[i], s'.pcs[i], s'.last[i], s'.cancelled)
  {
    assert Local(g[i], s.es[i], s.pcs[i], s.last[i], s.cancelled);
  }

  lemma KeepsLocals(g: Graph, s: State, a: Step)
    requires Sized(g, s) && Locals(g, s) && Enabled(g, s, a)
    ensures Sized(g, Do(g, s, a)) && Locals(g, Do(g, s, a))
  {
    var s' := Do(g, s, a);
    forall d | 0 <= d < |g|
      ensures |s'.es| == |s'.pcs| == |s'.last| == |g| && Local(g[d], s'.es[d], s'.pcs[d], s'.last[d], s'.cancelled)
    {
      if Actor(a) == Some(d) { ActorLocal(g, s, a, d); } else { Bystander(g, s, a, d); }
      assert Local(g[d], s.es[d], s.pcs[d], s.last[d], s.cancelled);
    }
  }

  // ---- The counters ----

  /** What a signal takes off a node's counter: every edge to that dependency, if one waits for it. */
  function Dropped(v: Vertex, given: Option<Link>): nat {
    if given.Some? && HasEdgeWaiting(v, given.value.dep, given.value.wait) then CountLinks(v.links, given.value.dep)
    else 0
  }

  /** That is at least the edges it satisfies, and exactly those if the wait modes agree. */
  lemma DroppedAtLeast(v: Vertex, l: Link)
    ensures Dropped(v, Some(l)) >= CountMode(v.links, l)
    ensures OneModePerDep(v) ==> Dropped(v, Some(l)) == CountMode(v.links, l)
  {
    ModeCount(v.links, l);
  }

  /** The effect of a step on the pending counter of a node that stays Pending. */
  lemma PendingAfter(g: Graph, s: State, a: Step, d: nat)
    requires Sized(g, s) && Locals(g, s) && Enabled(g, s, a) && d < |g|
    requires Do(g, s, a).es[d].state.Pending?
    ensures s.es[d].state.Pending?
    ensures var x, x' := s.es[d], Do(g, s, a).es[d];
            var dropped := Dropped(g[d], Given(g, s, a));
            && x'.pending == x.pending - dropped
            && (x'.goClosed <==>
                 x.goClosed || (dropped > 0 && x'.pending <= 0) || (a == FrontierStep && x.pending == 0))
  {
    if Actor(a) == Some(d) {
      ActorLocal(g, s, a, d);
      assert Local(g[d], s.es[d], s.pcs[d], s.last[d], s.cancelled);
    } else {
      BystanderEntry(g, s, a, d);
      if Given(g, s, a).Some? { ModeCount(g[d].links, Given(g, s, a).value); }
    }
  }

  lemma KeepsCounts(g: Graph, s: State, a: Step)
    requires Sized(g, s) && Locals(g, s) && Counts(g, s) && Enabled(g, s, a)
    ensures Sized(g, Do(g, s, a)) && Counts(g, Do(g, s, a))
  {
    KeepsLocals(g, s, a);
    SignalsOf(g, s, a);
    var s' := Do(g, s, a);
    forall d | 0 <= d < |g| && s'.es[d].state.Pending?
      ensures && s'.es[d].pending <= Unsignalled(g[d].links, s')
              && (OneModePerDep(g[d]) ==> s'.es[d].pending == Unsignalled(g[d].links, s'))
              && (s'.es[d].goClosed ==> s'.es[d].pending <= 0)
              && (s'.es[d].pending <= 0 && (s'.frontier || g[d].links != []) ==> s'.es[d].goClosed)
    {
      hide OneModePerDep, Do, Local, Signalled, SameSignals, OneMoreSignal;
      PendingAfter(g, s, a, d);
      if Given(g, s, a).Some? {
        UnsignalledDrops(g[d].links, s, s', Given(g, s, a).value);
        DroppedAtLeast(g[d], Given(g, s, a).value);
      } else {
        UnsignalledSame(g[d].links, s, s');
      }
    }
  }

  lemma KeepsRanSatisfied(g: Graph, s: State, a: Step)
    requires Sized(g, s) && Locals(g, s) && Counts(g, s) && RanSatisfied(g, s) && Enabled(g, s, a)
    ensures Sized(g, Do(g, s, a)) && RanSatisfied(g, Do(g, s, a))
  {
    hide OneModePerDep;
    KeepsLocals(g, s, a);
    SignalsOf(g, s, a);
    var s' := Do(g, s, a);
    forall d | 0 <= d < |g| && OneModePerDep(g[d]) && (s'.es[d].state.Running? || s'.es[d].startedC)
      ensures AllSignalled(g, s', d)
    {
      if Actor(a) == Some(d) {
        assert Local(g[d], s.es[d], s.pcs[d], s.last[d], s.cancelled);
        if a.Wake? { UnsignalledZero(g[d].links, s); }
      } else {
        Bystander(g, s, a, d);
      }
      assert AllSignalled(g, s, d);
    }
  }

  // ---- Routing ----

  /** Only an exit routes, and a routed exit stays routed. */
  lemma RoutedAfter(g: Graph, s: State, a: Step, j: nat)
    requires Sized(g, s) && Locals(g, s) && Enabled(g, s, a) && j < |g|
    ensures Sized(g, Do(g, s, a))
    ensures Routed(g, s, j) ==> Routed(g, Do(g, s, a), j)
    ensures Routed(g, Do(g, s, a), j) && !Routed(g, s, j) ==>
              a == Leave(j) && Routes(g[j], ExitError(s.pcs[j]))
  {
    assert Local(g[j], s.es[j], s.pcs[j], s.last[j], s.cancelled);
    if Actor(a) == Some(j) { ActorLocal(g, s, a, j); } else { BystanderEntry(g, s, a, j); }
  }

  lemma KeepsRoutedReleased(g: Graph, s: State, a: Step)
    requires Sized(g, s) && Locals(g, s) && RoutedReleased(g, s) && Enabled(g, s, a)
    ensures Sized(g, Do(g, s, a)) && RoutedReleased(g, Do(g, s, a))
  {
    KeepsLocals(g, s, a);
    var s' := Do(g, s, a);
    forall d, j | 0 <= d < |g| && 0 <= j < |g| && d != j && DependsOn(g[d], j)
                  && Routed(g, s', j) && s'.es[d].state.Pending?
      ensures s'.es[d].goClosed
    {
      RoutedAfter(g, s, a, j);
      if Actor(a) == Some(d) {
        assert Local(g[d], s.es[d], s.pcs[d], s.last[d], s.cancelled);
      } else {
        BystanderEntry(g, s, a, d);
      }
    }
  }

  lemma ActorUnmarked(g: Graph, s: State, a: Step)
    requires Sized(g, s) && Locals(g, s) && Enabled(g, s, a)
    ensures Actor(a).Some? ==>
              var i := Actor(a).value;
              var x, x' := s.es[i], Do(g, s, a).es[i];
              (x'.drained ==> x.drained) && (x'.state.Skipped? ==> x.state.Skipped?)
    ensures Sized(g, Do(g, s, a))
    ensures a.Leave? && Routes(g[a.i], ExitError(s.pcs[a.i])) ==> Routed(g, Do(g, s, a), a.i)
  {
    if Actor(a).Some? { var i := Actor(a).value; assert Local(g[i], s.es[i], s.pcs[i], s.last[i], s.cancelled); }
  }

  /** A node is skipped or drained only by the exit of a dependency that routes it. */
  lemma MarkedBy(g: Graph, s: State, a: Step, d: nat)
    requires Sized(g, s) && Locals(g, s) && Enabled(g, s, a) && d < |g|
    requires var x, x' := s.es[d], Do(g, s, a).es[d];
             (x'.drained && !x.drained) || (x'.state.Skipped? && !x.state.Skipped?)
    ensures a.Leave? && a.i < |g| && DependsOn(g[d], a.i) && Routes(g[a.i], ExitError(s.pcs[a.i]))
    ensures Sized(g, Do(g, s, a)) && Routed(g, Do(g, s, a), a.i)
    ensures !Do(g, s, a).es[d].state.Skipped? || s.es[d].state.Skipped? || (s.es[d].state.Pending? && !s.es[d].goClosed)
  {
    hide Do;
    ActorUnmarked(g, s, a);
    if Actor(a) != Some(d) { BystanderEntry(g, s, a, d); }
  }

  lemma HasRoutedDepStays(g: Graph, s: State, a: Step, d: nat)
    requires Sized(g, s) && Locals(g, s) && Enabled(g, s, a) && d < |g| && HasRoutedDep(g, s, d)
    ensures Sized(g, Do(g, s, a)) && HasRoutedDep(g, Do(g, s, a), d)
  {
    var j :| 0 <= j < |g| && DependsOn(g[d], j) && Routed(g, s, j);
    RoutedAfter(g, s, a, j);
  }

  lemma SilentOrigin(g: Graph, s: State, a: Step, d: nat)
    requires Sized(g, s) && Locals(g, s) && Enabled(g, s, a) && d < |g|
    requires var s' := Do(g, s, a); Silent(g[d], s'.es[d], s'.pcs[d])
    ensures Silent(g[d], s.es[d], s.pcs[d]) || s.cancelled || s.es[d].drained || s.es[d].state.Skipped?
  {
    assert Local(g[d], s.es[d], s.pcs[d], s.last[d], s.cancelled);
    if Actor(a) == Some(d) { ActorLocal(g, s, a, d); } else { BystanderEntry(g, s, a, d); }
  }

  lemma KeepsProvenance(g: Graph, s: State, a: Step)
    requires Sized(g, s) && Locals(g, s) && Provenance(g, s) && Enabled(g, s, a)
    ensures Sized(g, Do(g, s, a)) && Provenance(g, Do(g, s, a))
  {
    KeepsLocals(g, s, a);
    var s' := Do(g, s, a);
    forall d | 0 <= d < |g|
      ensures && (s'.es[d].drained || s'.es[d].state.Skipped? ==> HasRoutedDep(g, s', d))
              && (Silent(g[d], s'.es[d], s'.pcs[d]) ==> s'.cancelled || HasRoutedDep(g, s', d))
    {
      if HasRoutedDep(g, s, d) { HasRoutedDepStays(g, s, a, d); }
      if (s'.es[d].drained && !s.es[d].drained) || (s'.es[d].state.Skipped? && !s.es[d].state.Skipped?) {
        MarkedBy(g, s, a, d);
      }
      if Silent(g[d], s'.es[d], s'.pcs[d]) { SilentOrigin(g, s, a, d); }
    }
  }

  // ---- Errors and the active counter ----

  lemma KeepsReports(g: Graph, s: State, a: Step)
    requires Sized(g, s) && Locals(g, s) && Reports(g, s) && Enabled(g, s, a)
    ensures Sized(g, Do(g, s, a)) && Reports(g, Do(g, s, a))
  {
    KeepsLocals(g, s, a);
    var s' := Do(g, s, a);
    forall i | 0 <= i < |g|
      ensures s'.pcs[i].Left? && s'.pcs[i].left.Some? && !g[i].optional ==> (i, s'.pcs[i].left.value) in s'.reports
      ensures s.pcs[i].Left? ==> s'.pcs[i] == s.pcs[i]
    {
      assert Local(g[i], s.es[i], s.pcs[i], s.last[i], s.cancelled);
      if Actor(a) == Some(i) { ActorLocal(g, s, a, i); } else { BystanderEntry(g, s, a, i); }
      if a == Fail(i) { assert s'.reports[|s.reports|] == (i, s.pcs[i].fatal); }
    }
    if a.Fail? {
      assert Local(g[a.i], s.es[a.i], s.pcs[a.i], s.last[a.i], s.cancelled);
    }
  }

  lemma {:induction false} CountUpdate(pcs: seq<Pc>, i: nat, pc: Pc)
    requires i < |pcs|
    ensures CountHolders(pcs[i := pc])
            == CountHolders(pcs) - (if Holds(pcs[i]) then 1 else 0) + (if Holds(pc) then 1 else 0)
    ensures Holds(pcs[i]) ==> CountHolders(pcs) > 0
  {
    var n := |pcs| - 1;
    if i == n {
      assert pcs[i := pc][..n] == pcs[..n];
    } else {
      CountUpdate(pcs[..n], i, pc);
      assert pcs[i := pc][..n] == pcs[..n][i := pc];
    }
  }

  lemma KeepsActive(g: Graph, s: State, a: Step)
    requires Sized(g, s) && s.active == CountHolders(s.pcs) && Enabled(g, s, a)
    ensures Do(g, s, a).active == CountHolders(Do(g, s, a).pcs)
  {
    hide Local, ExitEntries, SignalEntries, FrontierEntries;
    if Actor(a).Some? {
      var i := Actor(a).value;
      CountUpdate(s.pcs, i, Do(g, s, a).pcs[i]);
    }
  }

  // ---- The whole invariant, over runs ----

  lemma InvariantKept(g: Graph, s: State, a: Step)
    requires Invariant(g, s) && Enabled(g, s, a)
    ensures Invariant(g, Do(g, s, a))
  {
    KeepsLocals(g, s, a);
    KeepsCounts(g, s, a);
    KeepsRanSatisfied(g, s, a);
    KeepsRoutedReleased(g, s, a);
    KeepsProvenance(g, s, a);
    KeepsReports(g, s, a);
    KeepsActive(g, s, a);
  }

  lemma {:induction false} NoneSignalledInit(g: Graph, links: seq<Link>)
    requires forall k :: 0 <= k < |links| ==> links[k].dep < |g|
    ensures Unsignalled(links, Init(g)) == |links|
  {
    if links != [] { NoneSignalledInit(g, links[..|links| - 1]); }
  }

  lemma {:induction false} NoHolders(pcs: seq<Pc>)
    requires forall i :: 0 <= i < |pcs| ==> !Holds(pcs[i])
    ensures CountHolders(pcs) == 0
  {
    if pcs != [] { NoHolders(pcs[..|pcs| - 1]); }
  }

  lemma {:induction false} SomeHolder(pcs: seq<Pc>) returns (i: nat)
    requires CountHolders(pcs) > 0
    ensures i < |pcs| && Holds(pcs[i])
  {
    i := |pcs| - 1;
    if !Holds(pcs[i]) { i := SomeHolder(pcs[..i]); }
  }

  lemma InvariantInit(g: Graph)
    requires Resolved(g)
    ensures Invariant(g, Init(g))
  {
    var s := Init(g);
    forall i | 0 <= i < |g| ensures s.es[i].pending == Unsignalled(g[i].links, s) {
      NoneSignalledInit(g, g[i].links);
    }
    NoHolders(s.pcs);
  }

  lemma {:induction false} InvariantAlong(g: Graph, s: State, s': State, n: nat)
    requires Invariant(g, s) && Leads(g, s, s', n)
    ensures Invariant(g, s')
    decreases n
  {
    hide Invariant, Do, Enabled;
    if n > 0 {
      var m :| Leads(g, s, m, n - 1) && Next(g, m, s');
      InvariantAlong(g, s, m, n - 1);
      var a :| Enabled(g, m, a) && Do(g, m, a) == s';
      InvariantKept(g, m, a);
    }
  }

  lemma {:induction false} LeadsSized(g: Graph, s: State, s': State, n: nat)
    requires Leads(g, s, s', n)
    ensures Sized(g, s) && Sized(g, s')
    decreases n
  {
    if n > 0 {
      var m :| Leads(g, s, m, n - 1) && Next(g, m, s');
      LeadsSized(g, s, m, n - 1);
    }
  }

  /** Every reachable state satisfies the invariant. */
  lemma ReachableInvariant(g: Graph, s: State)
    requires Reachable(g, s)
    ensures Invariant(g, s)
  {
    var n: nat :| Leads(g, Init(g), s, n);
    LeadsSized(g, Init(g), s, n);
    InvariantInit(g);
    InvariantAlong(g, Init(g), s, n);
  }

  lemma ReachableLocals(g: Graph, s: State)
    requires Reachable(g, s)
    ensures Sized(g, s) && Locals(g, s)
  {
    ReachableInvariant(g, s);
  }
}
