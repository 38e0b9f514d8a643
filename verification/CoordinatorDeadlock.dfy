/** The converse of NotProneNeverDeadlocks: in a validated chain every deadlock-prone triple that can be
    brought about is realised by a run that ends with a node waiting for ever. */
module CoordinatorDeadlock {
  import opened Options
  import opened Graph
  import opened Coordinator
  import opened CoordinatorInvariant
  import opened CoordinatorSteps
  import opened CoordinatorTheorems
  import opened CoordinatorLiveness
  import opened CoordinatorCounter

  /** What validation guarantees of the node kinds. */
  ghost predicate ValidKinds(g: Graph) {
    && (forall i :: 0 <= i < |g| && g[i].oneshot ==> !g[i].exec && !g[i].scheduled)
    && (forall i, j {:trigger DependsOn(g[i], j)} :: 0 <= i < |g| && 0 <= j < |g| && DependsOn(g[i], j) ==> !g[j].exec)
  }

  /** The node waits for the exit of oneshots only. */
  ghost predicate ExitsOfOneshots(g: Graph, i: nat)
    requires i < |g|
  {
    forall k :: 0 <= k < |g[i].links| && g[i].links[k].wait == Exit ==>
      g[i].links[k].dep < |g| && g[g[i].links[k].dep].oneshot
  }

  /** c holds whatever its nodes depend on, and they wait for the exit of oneshots only. */
  ghost predicate Startable(g: Graph, c: set<nat>) { StartableAfter(g, c, {}) }

  /** ... or whatever they depend on beyond the exit of a node in z. */
  ghost predicate StartableAfter(g: Graph, c: set<nat>, z: set<nat>) {
    forall i :: i in c ==>
      && i < |g| && i !in z && ExitsOfOneshots(g, i)
      && forall k :: 0 <= k < |g[i].links| ==> g[i].links[k].dep in c || ExitOf(g[i].links[k], z)
  }

  predicate ExitOf(l: Link, z: set<nat>) { l.wait == Exit && l.dep in z }

  // ---- Bringing nodes up, one after the other ----

  predicate Up(v: Vertex, x: Entry, pc: Pc) {
    && x.startedC && x.readyC
    && (if v.oneshot then pc == Left(None) else pc.HeldReady? || pc.SchedReady?)
  }

  predicate Untouched(x: Entry, pc: Pc) { pc.Waiting? && x.state.Pending? }

  ghost predicate Alive(g: Graph, s: State) {
    Reachable(g, s) && Sized(g, s) && s.frontier
  }

  ghost predicate Live(g: Graph, s: State) { Alive(g, s) && !s.cancelled }

  predicate Gone(x: Entry, pc: Pc) { pc == Left(None) && !x.startedC }

  /** The nodes in z have left silently, those in b are up, and all others but i have not been touched.
      The chain has not been cancelled if z is empty. */
  ghost predicate CalmBut(g: Graph, s: State, b: set<nat>, z: set<nat>, i: nat) {
    && Alive(g, s) && (s.cancelled ==> z != {})
    && forall d :: 0 <= d < |g| && d != i ==>
         if d in z then Gone(s.es[d], s.pcs[d])
         else if d in b then Up(g[d], s.es[d], s.pcs[d])
         else Untouched(s.es[d], s.pcs[d])
  }

  ghost predicate Calm(g: Graph, s: State, b: set<nat>, z: set<nat>) {
    CalmBut(g, s, b, z, |g|)
  }

  lemma LocalAt(g: Graph, s: State, i: nat)
    requires Alive(g, s) && i < |g|
    ensures Local(g[i], s.es[i], s.pcs[i], s.last[i], s.cancelled)
  {
    ReachableLocals(g, s);
  }

  /** While it waits, a node is released once its edges are satisfied. */
  lemma ReleasedAt(g: Graph, s: State, i: nat)
    requires Alive(g, s) && i < |g| && s.es[i].state.Pending? && AllSignalled(g, s, i)
    ensures s.es[i].goClosed
  {
    ReachableInvariant(g, s);
    UnsignalledZero(g[i].links, s);
  }

  lemma Others(g: Graph, s: State, a: Step, d: nat)
    requires Alive(g, s) && Enabled(g, s, a) && d < |g| && Actor(a) != Some(d)
    ensures Sized(g, Do(g, s, a))
    ensures Do(g, s, a).es[d] == BystanderAfter(g[d], s, g, a, s.es[d]) && Evolves(s.es[d], Do(g, s, a).es[d])
    ensures Do(g, s, a).pcs[d] == s.pcs[d]
  {
    hide Do, Enabled, Local, Reachable;
    ReachableLocals(g, s);
    Bystander(g, s, a, d);
    BystanderEntry(g, s, a, d);
  }

  lemma Unrouted(g: Graph, s: State, a: Step, d: nat)
    requires Alive(g, s) && Enabled(g, s, a) && d < |g| && Actor(a) != Some(d)
    requires a.Leave? ==> !Routes(g[a.i], ExitError(s.pcs[a.i])) || !DependsOn(g[d], a.i)
    ensures Sized(g, Do(g, s, a)) && Do(g, s, a).pcs[d] == s.pcs[d]
    ensures var x, x' := s.es[d], Do(g, s, a).es[d];
            x'.state == x.state && x'.startedC == x.startedC && x'.readyC == x.readyC && x'.drained == x.drained
  {
    Others(g, s, a, d);
  }

  lemma StepOn(g: Graph, s: State, a: Step)
    requires Alive(g, s) && Enabled(g, s, a) && !a.Fail? && !a.Cancel?
    ensures Alive(g, Do(g, s, a)) && Do(g, s, a).cancelled == s.cancelled
  {
    ReachableLocals(g, s);
    KeepsLocals(g, s, a);
    ReachStep(g, s, a);
  }

  lemma LeftUnstarted(g: Graph, s: State, i: nat)
    requires Alive(g, s) && i < |g| && Enabled(g, s, Leave(i))
    ensures var x, x' := s.es[i], Do(g, s, Leave(i)).es[i]; x'.startedC == x.startedC && x'.readyC == x.readyC
  {
    ReachableLocals(g, s);
    LeaveChannels(g, s, i);
  }

  /** A step of i that neither routes an exit nor fails the chain leaves the others calm. */
  lemma QuietStep(g: Graph, s: State, b: set<nat>, z: set<nat>, i: nat, a: Step) returns (s': State)
    requires CalmBut(g, s, b, z, i) && Enabled(g, s, a) && Actor(a) == Some(i) && !a.Fail?
    requires i < |g| && (a.Leave? ==> !Routes(g[i], ExitError(s.pcs[i])))
    ensures s' == Do(g, s, a) && CalmBut(g, s', b, z, i)
  {
    s' := Do(g, s, a);
    StepOn(g, s, a);
    forall d | 0 <= d < |g| && d != i
      ensures if d in z then Gone(s'.es[d], s'.pcs[d])
              else if d in b then Up(g[d], s'.es[d], s'.pcs[d]) else Untouched(s'.es[d], s'.pcs[d])
    {
      Unrouted(g, s, a, d);
    }
  }

  /** Every edge of i leads to a node that is up, or waits for the exit of one that has left. */
  ghost predicate DepsUp(g: Graph, b: set<nat>, z: set<nat>, i: nat)
    requires i < |g|
  {
    forall k :: 0 <= k < |g[i].links| ==>
      var l := g[i].links[k]; l.dep != i && ((l.dep in b && l.dep !in z) || ExitOf(l, z))
  }

  /** With all its dependencies up, an untouched node is released, and enters its lifecycle. */
  lemma Enter(g: Graph, s: State, b: set<nat>, z: set<nat>, i: nat) returns (s': State)
    requires CalmBut(g, s, b, z, i) && i < |g| && ExitsOfOneshots(g, i) && Untouched(s.es[i], s.pcs[i])
    requires DepsUp(g, b, z, i)
    ensures CalmBut(g, s', b, z, i) && s'.pcs[i].Entered?
  {
    forall k | 0 <= k < |g[i].links| ensures Signalled(s, g[i].links[k]) {
      var j := g[i].links[k].dep;
      assert j in z || Up(g[j], s.es[j], s.pcs[j]);
    }
    ReleasedAt(g, s, i);
    s' := QuietStep(g, s, b, z, i, Wake(i));
  }

  lemma SignalTwice(g: Graph, s: State, b: set<nat>, z: set<nat>, i: nat) returns (s': State)
    requires CalmBut(g, s, b, z, i) && i < |g|
    requires s.pcs[i] in {Held, Succeeded} || (s.pcs[i].Entered? && NextSignal(g[i], Entered).Some?)
    ensures CalmBut(g, s', b, z, i) && s'.es[i].startedC && s'.es[i].readyC
    ensures s'.pcs[i] == match s.pcs[i] case Held => HeldReady case Succeeded => Leaving(None) case _ => SchedReady
  {
    hide Reachable, Local;
    s' := QuietStep(g, s, b, z, i, Signal(i));
    s' := QuietStep(g, s', b, z, i, Signal(i));
    ReadyHolds(g, s', i);
  }

  lemma ReadyHolds(g: Graph, s: State, i: nat)
    requires Alive(g, s) && i < |g|
    ensures s.pcs[i].HeldReady? || s.pcs[i].SchedReady? ==> s.es[i].startedC && s.es[i].readyC
  {
    LocalAt(g, s, i);
  }

  lemma RaiseOneshot(g: Graph, s: State, b: set<nat>, z: set<nat>, i: nat) returns (s': State)
    requires CalmBut(g, s, b, z, i) && i < |g| && s.pcs[i].Entered? && g[i].oneshot
    ensures CalmBut(g, s', b, z, i) && Up(g[i], s'.es[i], s'.pcs[i])
  {
    s' := QuietStep(g, s, b, z, i, Move(i, Attempt, s.last[i]));
    s' := QuietStep(g, s', b, z, i, Move(i, Succeeded, Some(0)));
    s' := SignalTwice(g, s', b, z, i);
    LeftUnstarted(g, s', i);
    s' := QuietStep(g, s', b, z, i, Leave(i));
  }

  lemma RaiseService(g: Graph, s: State, b: set<nat>, z: set<nat>, i: nat) returns (s': State)
    requires CalmBut(g, s, b, z, i) && i < |g| && s.pcs[i].Entered? && !g[i].oneshot && !g[i].exec
    ensures CalmBut(g, s', b, z, i) && Up(g[i], s'.es[i], s'.pcs[i])
  {
    s' := s;
    if !g[i].scheduled { s' := QuietStep(g, s', b, z, i, Move(i, Held, s.last[i])); }
    s' := SignalTwice(g, s', b, z, i);
  }

  /** The nodes in b' that are not in b are in c and have rank less than r. */
  ghost predicate AddedBelow(g: Graph, rank: seq<nat>, c: set<nat>, b: set<nat>, b': set<nat>, r: nat)
    requires |rank| == |g|
  {
    b <= b' && forall n :: n in b' ==> n in b || (n in c && n < |g| && rank[n] < r)
  }

  lemma DepBelow(g: Graph, rank: seq<nat>, i: nat, k: nat)
    requires IsRank(g, rank) && ValidKinds(g) && Resolved(g) && i < |g| && k < |g[i].links|
    ensures var j := g[i].links[k].dep; j < |g| && rank[j] < rank[i] && !g[j].exec
  {
    assert DependsOn(g[i], g[i].links[k].dep);
  }

  /** Brings node i of c up, and first whatever it depends on. */
  lemma {:induction false} BringUp(g: Graph, rank: seq<nat>, c: set<nat>, s: State, b: set<nat>, z: set<nat>, i: nat)
    returns (s': State, b': set<nat>)
    requires Calm(g, s, b, z) && StartableAfter(g, c, z) && ValidKinds(g) && IsRank(g, rank)
    requires i in c && i < |g| && !g[i].exec
    ensures Calm(g, s', b', z) && AddedBelow(g, rank, c, b, b', rank[i] + 1) && i in b'
    decreases rank[i], |g[i].links| + 1
  {
    if i in b { return s, b; }
    s', b' := BringDepsUp(g, rank, c, s, b, z, i, |g[i].links|);
    s' := Enter(g, s', b', z, i);
    if g[i].oneshot { s' := RaiseOneshot(g, s', b', z, i); } else { s' := RaiseService(g, s', b', z, i); }
    b' := b' + {i};
  }

  /** Brings up those of the first n dependencies of i that are in c. */
  lemma {:induction false} BringDepsUp(g: Graph, rank: seq<nat>, c: set<nat>, s: State, b: set<nat>, z: set<nat>,
                                       i: nat, n: nat) returns (s': State, b': set<nat>)
    requires Calm(g, s, b, z) && StartableAfter(g, c, z) && ValidKinds(g) && IsRank(g, rank)
    requires Resolved(g) && i < |g| && n <= |g[i].links|
    ensures Calm(g, s', b', z) && AddedBelow(g, rank, c, b, b', rank[i])
    ensures forall k :: 0 <= k < n ==> g[i].links[k].dep != i && (g[i].links[k].dep in c ==> g[i].links[k].dep in b')
    decreases rank[i], n
  {
    s', b' := s, b;
    if n > 0 {
      s', b' := BringDepsUp(g, rank, c, s', b', z, i, n - 1);
      DepBelow(g, rank, i, n - 1);
      if g[i].links[n - 1].dep in c {
        s', b' := BringUp(g, rank, c, s', b', z, g[i].links[n - 1].dep);
      }
    }
  }

  // ---- Silencing the oneshot ----

  predicate NoError(pc: Pc) { !pc.Failing? && (pc.Leaving? ==> pc.err.None?) }

  /** w waits for o, which has left silently; nothing w depends on has routed its exit, and no
      error is on its way to the chain. */
  ghost predicate Doomed(g: Graph, s: State, w: nat, o: nat) {
    && Live(g, s)
    && w < |g| && o < |g| && AllDepsOneshot(g, w) && AwaitsSuccess(g[w], o)
    && Untouched(s.es[w], s.pcs[w])
    && s.pcs[o] == Left(None) && !s.es[o].startedC && !s.es[o].readyC
    && (forall i :: 0 <= i < |g| ==> NoError(s.pcs[i]))
    && (forall j :: 0 <= j < |g| && DependsOn(g[w], j) ==> !Routed(g, s, j))
  }

  /** The signals of o that come with its success. */
  function SuccessSignals(o: nat): set<Link> { {Link(o, Started), Link(o, Ready)} }

  function AllSignals(x: nat): set<Link> { SuccessSignals(x) + {Link(x, Exit)} }

  /** w is not released by the signals of the others and the exit of o. */
  ghost predicate NeedsSuccess(g: Graph, w: nat, o: nat)
    requires w < |g|
  {
    HeldBackWithout(g[w], SuccessSignals(o))
  }

  /** An optional dependency fails before signalling: o is skipped. */
  lemma OptionalFails(g: Graph, s: State, b: set<nat>, w: nat, o: nat, x: nat) returns (s': State)
    requires CalmBut(g, s, b, {}, x) && Prone(g, w, o, x) && HeldBackWithout(g[o], AllSignals(x)) && g[x].optional
    requires s.pcs[x].Entered? && o !in b && w !in b && o != x && w != x && w != o
    ensures Live(g, s') && Untouched(s'.es[w], s'.pcs[w]) && s'.pcs[x] == Left(Some(Reported(1)))
    ensures s'.es[o].state.Skipped? && s'.es[o].goClosed && s'.pcs[o].Waiting?
    ensures forall i :: 0 <= i < |g| && i != x ==> s'.pcs[i] == s.pcs[i]
  {
    var fail := Leaving(Some(Reported(1)));
    var s1 := QuietStep(g, s, b, {}, x, Move(x, fail, s.last[x]));
    LocalAt(g, s, x);
    UnreleasedWithout(g, s1, o, AllSignals(x));
    s' := Do(g, s1, Leave(x));
    StepOn(g, s1, Leave(x));
    Others(g, s1, Leave(x), o);
    Unrouted(g, s1, Leave(x), w);
    forall i | 0 <= i < |g| && i != x ensures s'.pcs[i] == s.pcs[i] {
      Others(g, s1, Leave(x), i);
    }
  }

  lemma SkippedLeaves(g: Graph, s: State, o: nat) returns (s': State)
    requires Live(g, s) && o < |g| && g[o].oneshot
    requires s.es[o].state.Skipped? && s.es[o].goClosed && s.pcs[o].Waiting?
    ensures Live(g, s') && s'.pcs == s.pcs[o := Left(None)] && !s'.es[o].startedC && !s'.es[o].readyC
    ensures forall d :: 0 <= d < |g| && d != o ==> s'.es[d].state == s.es[d].state
  {
    LocalAt(g, s, o);
    var s1 := Do(g, s, Wake(o));
    StepOn(g, s, Wake(o));
    LeftUnstarted(g, s1, o);
    s' := Do(g, s1, Leave(o));
    StepOn(g, s1, Leave(o));
    forall d | 0 <= d < |g| && d != o ensures s'.es[d].state == s.es[d].state {
      Unrouted(g, s1, Leave(o), d);
    }
  }

  lemma SilenceBySkip(g: Graph, s: State, b: set<nat>, w: nat, o: nat, x: nat) returns (s': State)
    requires CalmBut(g, s, b, {}, x) && Prone(g, w, o, x) && HeldBackWithout(g[o], AllSignals(x))
    requires g[x].optional && g[o].oneshot
    requires s.pcs[x].Entered? && o !in b && w !in b && o != x && w != x && w != o
    ensures Doomed(g, s', w, o)
  {
    var s1 := OptionalFails(g, s, b, w, o, x);
    s' := SkippedLeaves(g, s1, o);
    forall j | 0 <= j < |g| && j != o && j != x ensures NoError(s'.pcs[j]) && (g[j].oneshot ==> !Routed(g, s', j)) {
      assert s'.pcs[j] == s.pcs[j];
      assert if j in b then Up(g[j], s.es[j], s.pcs[j]) else Untouched(s.es[j], s.pcs[j]);
    }
  }

  /** d has given the same signals. */
  predicate SameSignalsOf(x: Entry, x': Entry) { x'.startedC == x.startedC && x'.readyC == x.readyC }

  lemma DrainedLeaves(g: Graph, s: State, o: nat) returns (s': State)
    requires Live(g, s) && o < |g| && g[o].oneshot && s.es[o].drained && s.pcs[o] == Attempt
    ensures Live(g, s') && s'.pcs == s.pcs[o := Left(None)] && !s'.es[o].startedC && !s'.es[o].readyC
    ensures forall d :: 0 <= d < |g| && d != o ==> s'.es[d].state == s.es[d].state && SameSignalsOf(s.es[d], s'.es[d])
  {
    LocalAt(g, s, o);
    var leave := Move(o, Leaving(None), s.last[o]);
    var s1 := Do(g, s, leave);
    StepOn(g, s, leave);
    LeftUnstarted(g, s1, o);
    s' := Do(g, s1, Leave(o));
    StepOn(g, s1, Leave(o));
    forall d | 0 <= d < |g| && d != o
      ensures s'.es[d].state == s.es[d].state && SameSignalsOf(s.es[d], s'.es[d])
    {
      Unrouted(g, s1, Leave(o), d);
    }
  }

  /** A supervised dependency exits while o runs: o is drained. */
  lemma ServiceExits(g: Graph, s: State, w: nat, o: nat, x: nat) returns (s': State)
    requires Live(g, s) && w < |g| && o < |g| && x < |g| && DependsOn(g[o], x) && !DependsOn(g[w], x)
    requires !g[x].oneshot && o != x && w != x
    requires s.pcs[o] == Attempt && (s.pcs[x].HeldReady? || s.pcs[x].SchedReady?)
    requires Untouched(s.es[w], s.pcs[w])
    ensures Live(g, s') && s'.pcs == s.pcs[x := Left(None)] && s'.es[o].drained && s'.es[w].state.Pending?
    ensures forall d :: 0 <= d < |g| && d != x ==> SameSignalsOf(s.es[d], s'.es[d])
  {
    var leave := Move(x, Leaving(None), s.last[x]);
    var s1 := Do(g, s, leave);
    StepOn(g, s, leave);
    s' := Do(g, s1, Leave(x));
    StepOn(g, s1, Leave(x));
    LocalAt(g, s1, o);
    Others(g, s1, Leave(x), o);
    Unrouted(g, s1, Leave(x), w);
    forall d | 0 <= d < |g| && d != x ensures SameSignalsOf(s.es[d], s'.es[d]) {
      Others(g, s1, Leave(x), d);
    }
  }

  lemma SilenceByDrain(g: Graph, s: State, b: set<nat>, w: nat, o: nat, x: nat) returns (s': State)
    requires CalmBut(g, s, b, {}, o) && Prone(g, w, o, x) && !g[x].oneshot && g[o].oneshot
    requires s.pcs[o].Entered? && x in b && w !in b && o != x && w != x && w != o
    ensures Doomed(g, s', w, o)
  {
    var s1 := QuietStep(g, s, b, {}, o, Move(o, Attempt, s.last[o]));
    assert Up(g[x], s1.es[x], s1.pcs[x]);
    var s2 := ServiceExits(g, s1, w, o, x);
    s' := DrainedLeaves(g, s2, o);
    forall j | 0 <= j < |g| && j != o && j != x ensures NoError(s'.pcs[j]) && (g[j].oneshot ==> !Routed(g, s', j)) {
      assert s'.pcs[j] == s1.pcs[j];
      assert if j in b then Up(g[j], s1.es[j], s1.pcs[j]) else Untouched(s1.es[j], s1.pcs[j]);
    }
  }

  // ---- Letting everything else finish ----

  ghost predicate Harmless(g: Graph, s: State, i: nat)
    requires Sized(g, s)
  {
    && i < |g| && !Returned(s.pcs[i]) && !(s.pcs[i].Entered? && s.active > 0)
    && (s.pcs[i].Waiting? ==> s.es[i].goClosed)
  }

  /** Some node can take a step that does no harm: an exec node waits until nothing is active. */
  lemma HarmlessStep(g: Graph, s: State, a: Step, w: nat, o: nat) returns (i: nat)
    requires Doomed(g, s, w, o) && Enabled(g, s, a) && a != Cancel
    ensures Harmless(g, s, i)
  {
    i := Actor(a).value;
    if s.pcs[i].Entered? && s.active > 0 {
      ReachableInvariant(g, s);
      i := SomeHolder(s.pcs);
    }
  }

  /** Where a harmless continuation leads: nearer the end, and to no error. */
  lemma ContinueNears(g: Graph, s: State, i: nat)
    requires Live(g, s) && Harmless(g, s, i) && NoError(s.pcs[i]) && Enabled(g, s, Continue(g, s, i))
    ensures var pc := PcAfter(g, s, Continue(g, s, i), i); NoError(pc) && Weight(pc) < Weight(s.pcs[i])
    ensures !Continue(g, s, i).Fail? && !Continue(g, s, i).Cancel?
    ensures Continue(g, s, i).Leave? ==> ExitError(s.pcs[i]).None?
  {
  }

  lemma DoomedStep(g: Graph, s: State, w: nat, o: nat, i: nat)
    requires Doomed(g, s, w, o) && NeedsSuccess(g, w, o)
    requires Harmless(g, s, i) && Enabled(g, s, Continue(g, s, i))
    requires Actor(Continue(g, s, i)) == Some(i)
    ensures var s' := Do(g, s, Continue(g, s, i));
            Doomed(g, s', w, o) && TotalWeight(s'.pcs) < TotalWeight(s.pcs)
  {
    var a := Continue(g, s, i);
    var s' := Do(g, s, a);
    ContinueNears(g, s, i);
    ReachableLocals(g, s);
    StepOn(g, s, a);
    WeightUpdate(s.pcs, i, PcAfter(g, s, a, i));
    UnreleasedWithout(g, s, w, SuccessSignals(o));
    forall j | 0 <= j < |g| && DependsOn(g[w], j) ensures !Routed(g, s', j) {
      RoutedAfter(g, s, a, j);
    }
    Unrouted(g, s, a, w);
    Others(g, s, a, o);
  }

  lemma {:induction false} Settle(g: Graph, s: State, w: nat, o: nat) returns (s': State)
    requires Doomed(g, s, w, o) && NeedsSuccess(g, w, o)
    ensures Doomed(g, s', w, o) && Quiescent(g, s')
    decreases TotalWeight(s.pcs)
  {
    if a :| Enabled(g, s, a) && a != Cancel {
      var i := HarmlessStep(g, s, a, w, o);
      ReachableLocals(g, s);
      ContinueEnabled(g, s, i);
      DoomedStep(g, s, w, o, i);
      s' := Settle(g, Do(g, s, Continue(g, s, i)), w, o);
    } else {
      s' := s;
    }
  }

  // ---- The exact condition ----

  lemma StartCalm(g: Graph) returns (s: State)
    requires Resolved(g)
    ensures Calm(g, s, {}, {})
  {
    ReachInit(g);
    s := Do(g, Init(g), FrontierStep);
    ReachStep(g, Init(g), FrontierStep);
  }

  lemma ProneBySkip(g: Graph, rank: seq<nat>, c: set<nat>, w: nat, o: nat, x: nat) returns (s: State)
    requires Resolved(g) && IsRank(g, rank) && ValidKinds(g) && Startable(g, c) && x in c
    requires Prone(g, w, o, x) && g[x].optional && rank[x] < rank[o] < rank[w] && g[o].oneshot && !g[x].exec
    requires HeldBackWithout(g[o], AllSignals(x))
    ensures Doomed(g, s, w, o)
  {
    var s0 := StartCalm(g);
    var s1, b := BringDepsUp(g, rank, c, s0, {}, {}, x, |g[x].links|);
    s := Enter(g, s1, b, {}, x);
    s := SilenceBySkip(g, s, b, w, o, x);
  }

  lemma ProneByDrain(g: Graph, rank: seq<nat>, c: set<nat>, w: nat, o: nat, x: nat) returns (s: State)
    requires Resolved(g) && IsRank(g, rank) && ValidKinds(g) && Startable(g, c) && o in c
    requires Prone(g, w, o, x) && !g[x].oneshot && rank[x] < rank[o] < rank[w] && g[o].oneshot
    ensures Doomed(g, s, w, o)
  {
    var s0 := StartCalm(g);
    var s1, b := BringDepsUp(g, rank, c, s0, {}, {}, o, |g[o].links|);
    var k :| 0 <= k < |g[o].links| && g[o].links[k].dep == x;
    s := Enter(g, s1, b, {}, o);
    s := SilenceByDrain(g, s, b, w, o, x);
  }

  /** What it takes to bring the triple about: w is held back without the success of o; an optional x
      can be started, and o is held back without its signals; any other x can be up with o running. */
  ghost predicate Realisable(g: Graph, w: nat, o: nat, x: nat)
    requires w < |g| && o < |g| && x < |g|
  {
    && NeedsSuccess(g, w, o)
    && if g[x].optional then HeldBackWithout(g[o], AllSignals(x)) && exists c :: Startable(g, c) && x in c
       else exists c :: Startable(g, c) && o in c
  }

  /** A triple that can be brought about deadlocks in some run. */
  lemma ProneDeadlocks(g: Graph, w: nat, o: nat, x: nat)
    requires Resolved(g) && Acyclic(g) && ValidKinds(g)
    requires Prone(g, w, o, x) && Realisable(g, w, o, x)
    ensures !DeadlockFree(g)
  {
    var rank :| IsRank(g, rank);
    var s;
    if g[x].optional {
      var c :| Startable(g, c) && x in c;
      s := ProneBySkip(g, rank, c, w, o, x);
    } else {
      var c :| Startable(g, c) && o in c;
      s := ProneByDrain(g, rank, c, w, o, x);
    }
    var s' := Settle(g, s, w, o);
    assert !Returned(s'.pcs[w]) && Sized(g, s');
  }

  /** In a validated chain whose prone triples can be brought about, no run stops short of the end
      (Run returns once each started lifecycle returns) if and only if it has no such triple: no node
      waits for oneshots alone, and for the success of one that depends on something that is not a
      oneshot, or is optional, and that the node itself does not depend on. */
  lemma DeadlockFreedom(g: Graph)
    requires Resolved(g) && Acyclic(g) && ValidKinds(g)
    requires forall w: nat, o: nat, x: nat :: Prone(g, w, o, x) ==> Realisable(g, w, o, x)
    ensures DeadlockFree(g) <==> !DeadlockProne(g)
  {
    if DeadlockProne(g) {
      var w: nat, o: nat, x: nat :| Prone(g, w, o, x);
      ProneDeadlocks(g, w, o, x);
    } else {
      NotProneNeverDeadlocks(g);
    }
  }

  /** It is enough that wait modes agree and exit edges lead to oneshots. */
  lemma ExitEdgesRealisable(g: Graph, w: nat, o: nat, x: nat)
    requires Resolved(g) && ModeConsistent(g) && ExitEdgesToOneshots(g) && Prone(g, w, o, x)
    ensures Realisable(g, w, o, x)
  {
    hide HeldBackWithout;
    var c := AllStartable(g);
    var k :| 0 <= k < |g[w].links| && g[w].links[k].dep == o && g[w].links[k].wait != Exit;
    assert g[w].links[k] in SuccessSignals(o) * EdgeSet(g[w]) by { SignalOfEdge(g[w], k); }
    AgreeingHeldBack(g[w], SuccessSignals(o));
    var j :| 0 <= j < |g[o].links| && g[o].links[j].dep == x;
    assert g[o].links[j] in AllSignals(x) * EdgeSet(g[o]) by { SignalOfEdge(g[o], j); }
    AgreeingHeldBack(g[o], AllSignals(x));
  }

  lemma SignalOfEdge(v: Vertex, k: nat)
    requires k < |v.links|
    ensures v.links[k] in AllSignals(v.links[k].dep) && v.links[k] in EdgeSet(v)
    ensures v.links[k].wait != Exit ==> v.links[k] in SuccessSignals(v.links[k].dep)
  {
    var l := v.links[k];
    assert l == Link(l.dep, l.wait);
    match l.wait
    case Started =>
    case Ready =>
    case Exit =>
  }

  ghost function Below(n: nat): (c: set<nat>)
    ensures forall i: nat :: i in c <==> i < n
  {
    if n == 0 then {} else Below(n - 1) + {n - 1}
  }

  lemma AllStartable(g: Graph) returns (c: set<nat>)
    requires Resolved(g) && ExitEdgesToOneshots(g)
    ensures Startable(g, c) && forall i: nat :: i in c <==> i < |g|
  {
    c := Below(|g|);
  }

  /** A legal chain that can wait for ever: a supervised node 0, a oneshot 1 that starts with it,
      and a node 2 that starts after the oneshot. If node 0 exits while the oneshot runs, the
      oneshot is drained, leaves without an error and without signalling, and node 2 hangs. */
  lemma LegalChainDeadlocks()
    ensures !DeadlockFree([Vertex(false, false, false, false, []),
                           Vertex(true, false, false, false, [Link(0, Started)]),
                           Vertex(false, false, false, false, [Link(1, Started)])])
  {
    var g := [Vertex(false, false, false, false, []),
              Vertex(true, false, false, false, [Link(0, Started)]),
              Vertex(false, false, false, false, [Link(1, Started)])];
    LegalChainIsProne(g);
    hide DeadlockFree, Prone, Realisable;
    ExitEdgesRealisable(g, 2, 1, 0);
    ProneDeadlocks(g, 2, 1, 0);
  }

  lemma LegalChainIsProne(g: Graph)
    requires g == [Vertex(false, false, false, false, []),
                   Vertex(true, false, false, false, [Link(0, Started)]),
                   Vertex(false, false, false, false, [Link(1, Started)])]
    ensures Resolved(g) && ModeConsistent(g) && Acyclic(g) && ExitEdgesToOneshots(g) && ValidKinds(g)
    ensures Prone(g, 2, 1, 0)
  {
    assert g[1].links[0].dep == 0 && g[2].links[0].dep == 1;
    assert IsRank(g, [0, 1, 2]);
  }
}
