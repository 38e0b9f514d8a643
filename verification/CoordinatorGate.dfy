/** Which nodes does the gate hold back? Every signal costs the counter all edges to its dependency,
    so a node with several wait modes for one dependency may run before its last signal. */
module CoordinatorGate {
  import opened Options
  import opened Graph
  import opened Coordinator
  import opened CoordinatorInvariant
  import opened CoordinatorSteps
  import opened CoordinatorTheorems
  import opened CoordinatorCounter
  import opened CoordinatorDeadlock

  /** In no run does the node run with an edge that is not signalled. */
  ghost predicate GateSafe(g: Graph, i: nat)
    requires i < |g|
  {
    forall s :: Reachable(g, s) && Sized(g, s) && s.es[i].state.Running? ==> AllSignalled(g, s, i)
  }

  /** No edge is there twice in the same mode. */
  ghost predicate DistinctLinks(v: Vertex) {
    forall a, b :: 0 <= a < b < |v.links| ==> v.links[a] != v.links[b]
  }

  /** No signal can be missing without the node being held back. */
  ghost predicate PaysInFull(v: Vertex) {
    forall l :: l in v.links ==> HeldBackWithout(v, {l})
  }

  /** A node that pays in full is held back until all its edges are signalled, in every run. */
  lemma PayingIsSafe(g: Graph, i: nat)
    requires Resolved(g) && i < |g| && PaysInFull(g[i])
    ensures GateSafe(g, i)
  {
    hide HeldBackWithout, Signalled;
    forall s, k | Reachable(g, s) && Sized(g, s) && s.es[i].state.Running? && 0 <= k < |g[i].links|
      ensures Signalled(s, g[i].links[k])
    {
      var n: nat :| Leads(g, Init(g), s, n);
      RanWith(g, s, n, i, {g[i].links[k]});
    }
  }

  // ---- The last signal ----

  function Rank(w: Wait): nat {
    match w case Started => 0 case Ready => 1 case Exit => 2
  }

  /** No edge waits for a later signal of the same dependency. */
  ghost predicate IsLatest(v: Vertex, l: Link) {
    l in v.links && forall m :: m in v.links && m.dep == l.dep ==> Rank(m.wait) <= Rank(l.wait)
  }

  /** It does not matter which signal of a dependency is missing. */
  lemma SameCharge(v: Vertex, l: Link, m: Link)
    requires l in v.links && m in v.links && l.dep == m.dep
    ensures HeldBackWithout(v, {l}) <==> HeldBackWithout(v, {m})
  {
    var n, all := |v.links|, EdgeSet(v);
    ChargedMore(v.links, n, all - {l}, l);
    ChargedMore(v.links, n, all - {m}, m);
    assert all - {l} + {l} == all && all - {m} + {m} == all;
  }

  lemma LatestOf(v: Vertex, l: Link) returns (latest: Link)
    requires l in v.links
    ensures IsLatest(v, latest) && latest.dep == l.dep
  {
    if m :| m in v.links && m.dep == l.dep && m.wait == Exit {
      latest := m;
    } else if m :| m in v.links && m.dep == l.dep && m.wait == Ready {
      latest := m;
    } else {
      latest := l;
    }
  }

  /** The other dependencies of i can be started without d. */
  ghost predicate CanComeLast(g: Graph, i: nat, d: nat)
    requires i < |g|
  {
    exists c :: OthersWithout(g, i, d, c)
  }

  ghost predicate OthersWithout(g: Graph, i: nat, d: nat, c: set<nat>)
    requires i < |g|
  {
    Startable(g, c) && d !in c && forall k :: 0 <= k < |g[i].links| && g[i].links[k].dep != d ==> g[i].links[k].dep in c
  }

  /** Lets d give the signals before the given one, and no other. */
  lemma RaiseUntil(g: Graph, s: State, b: set<nat>, d: nat, mode: Wait) returns (s': State)
    requires CalmBut(g, s, b, {}, d) && d < |g| && ExitsOfOneshots(g, d) && Untouched(s.es[d], s.pcs[d])
    requires DepsUp(g, b, {}, d) && !g[d].exec && (mode == Exit ==> g[d].oneshot)
    ensures CalmBut(g, s', b, {}, d) && !Signalled(s', Link(d, mode))
    ensures forall w :: Rank(w) < Rank(mode) ==> Signalled(s', Link(d, w))
  {
    hide Reachable;
    s' := s;
    if mode == Started {
      LocalAt(g, s, d);
    } else {
      s' := Enter(g, s', b, {}, d);
      s' := BeforeSignals(g, s', b, d);
      if mode == Ready {
        s' := QuietStep(g, s', b, {}, d, Signal(d));
        LocalAt(g, s', d);
      } else {
        s' := SignalTwice(g, s', b, {}, d);
      }
    }
  }

  lemma BeforeSignals(g: Graph, s: State, b: set<nat>, d: nat) returns (s': State)
    requires CalmBut(g, s, b, {}, d) && d < |g| && s.pcs[d].Entered? && !g[d].exec
    ensures CalmBut(g, s', b, {}, d)
    ensures NextSignal(g[d], s'.pcs[d]).Some? && NextSignal(g[d], s'.pcs[d]).value.0 == Started
    ensures g[d].oneshot ==> s'.pcs[d].Succeeded?
  {
    hide Reachable;
    s' := s;
    if g[d].oneshot {
      s' := QuietStep(g, s', b, {}, d, Move(d, Attempt, s'.last[d]));
      s' := QuietStep(g, s', b, {}, d, Move(d, Succeeded, Some(0)));
    } else if !g[d].scheduled {
      s' := QuietStep(g, s', b, {}, d, Move(d, Held, s'.last[d]));
    }
  }

  /** A node that does not pay for a dependency which can come last runs too early in some run. */
  lemma OverpaidUnsafe(g: Graph, c: set<nat>, i: nat, l: Link)
    requires Resolved(g) && Acyclic(g) && Startable(g, c) && ValidKinds(g) && i in c && i < |g|
    requires IsLatest(g[i], l) && !HeldBackWithout(g[i], {l}) && CanComeLast(g, i, l.dep)
    ensures !GateSafe(g, i)
  {
    hide Do, Enabled, Reachable, Local, HeldBackWithout;
    var rank :| IsRank(g, rank);
    var d := l.dep;
    var k :| 0 <= k < |g[i].links| && g[i].links[k] == l;
    DepBelow(g, rank, i, k);
    var others :| OthersWithout(g, i, d, others);
    var s0 := StartCalm(g);
    var s1, b1 := BringDepsUp(g, rank, others, s0, {}, {}, i, |g[i].links|);
    var s2, b := BringDepsUp(g, rank, c, s1, b1, {}, d, |g[d].links|);
    assert d !in b && i !in b;
    var s := RaiseUntil(g, s2, b, d, l.wait);
    AllButLatest(g, s, b, i, l);
    ReleasedWithout(g, s, i, {l});
    RunsUnsignalled(g, s, i);
  }

  lemma AllButLatest(g: Graph, s: State, b: set<nat>, i: nat, l: Link)
    requires CalmBut(g, s, b, {}, l.dep) && i < |g| && i !in b && i != l.dep && ExitsOfOneshots(g, i)
    requires IsLatest(g[i], l) && l.dep < |g| && !Signalled(s, l)
    requires forall w :: Rank(w) < Rank(l.wait) ==> Signalled(s, Link(l.dep, w))
    requires forall k :: 0 <= k < |g[i].links| && g[i].links[k].dep != l.dep ==> g[i].links[k].dep in b
    ensures Untouched(s.es[i], s.pcs[i]) && !AllSignalled(g, s, i)
    ensures forall k :: 0 <= k < |g[i].links| && g[i].links[k] !in {l} ==> Signalled(s, g[i].links[k])
  {
    forall k | 0 <= k < |g[i].links| && g[i].links[k] != l ensures Signalled(s, g[i].links[k]) {
      var m := g[i].links[k];
      if m.dep == l.dep {
        assert Rank(m.wait) < Rank(l.wait) && m == Link(l.dep, m.wait);
      } else {
        assert Up(g[m.dep], s.es[m.dep], s.pcs[m.dep]);
      }
    }
  }

  lemma RunsUnsignalled(g: Graph, m: State, i: nat)
    requires Reachable(g, m) && Sized(g, m) && i < |g| && Untouched(m.es[i], m.pcs[i])
    requires m.es[i].goClosed && !AllSignalled(g, m, i)
    ensures !GateSafe(g, i)
  {
    var s := Do(g, m, Wake(i));
    ReachStep(g, m, Wake(i));
    ReachableLocals(g, m);
    SignalsOf(g, m, Wake(i));
    assert s.es[i].state.Running?;
    var k :| 0 <= k < |g[i].links| && !Signalled(m, g[i].links[k]);
    assert !Signalled(s, g[i].links[k]);
  }

  // ---- One mode per dependency ----

  /** Without a signal of a dependency that is waited for in two modes every edge still pays. */
  lemma {:induction false} TwoModesCharge(v: Vertex, n: nat, l: Link)
    requires n <= |v.links| && Modes(EdgeSet(v), l.dep) >= 2
    ensures Charged(v.links, n, EdgeSet(v) - {l}) >= n
  {
    if n > 0 {
      TwoModesCharge(v, n - 1, l);
      EdgePays(v, n - 1, l, l.dep);
    }
  }

  lemma EdgePays(v: Vertex, k: nat, l: Link, d: nat)
    requires k < |v.links| && Modes(EdgeSet(v), d) >= 2
    ensures var pays := Modes(EdgeSet(v) - {l}, v.links[k].dep);
            && (v.links[k] != l ==> pays >= 1)
            && (v.links[k].dep == d ==> pays >= if l.dep == d then 1 else 2)
  {
    var e := v.links[k];
    assert e in EdgeSet(v) && e == Link(e.dep, e.wait);
    match e.wait
    case Started =>
    case Ready =>
    case Exit =>
  }

  lemma BothModes(v: Vertex, l: Link, m: Link)
    requires l in v.links && m in v.links && l.dep == m.dep && l.wait != m.wait
    ensures Modes(EdgeSet(v), l.dep) >= 2
  {
    assert l in EdgeSet(v) && m in EdgeSet(v);
    assert l == Link(l.dep, l.wait) && m == Link(l.dep, m.wait);
  }

  /** A node pays in full exactly when it waits for each dependency in one mode, whatever it repeats. */
  lemma PaysExactly(v: Vertex)
    ensures PaysInFull(v) <==> OneModePerDep(v)
  {
    hide Charged, Modes;
    if OneModePerDep(v) {
      forall l | l in v.links ensures HeldBackWithout(v, {l}) {
        assert l in {l} * EdgeSet(v);
        AgreeingHeldBack(v, {l});
      }
    } else {
      var l, m :| l in v.links && m in v.links && l.dep == m.dep && l.wait != m.wait;
      BothModes(v, l, m);
      TwoModesCharge(v, |v.links|, l);
      assert !HeldBackWithout(v, {l});
    }
  }

  /** The gate holds a node back until all its edges are signalled, in every run, if and only if it
      waits for each dependency in one mode; unless the dependencies that it does not pay for in full
      are all needed by others, and so never come last. */
  lemma GateSafeExactly(g: Graph, c: set<nat>, i: nat)
    requires Resolved(g) && Acyclic(g) && Startable(g, c) && ValidKinds(g) && i in c && i < |g|
    requires !OneModePerDep(g[i]) ==>
               exists l :: l in g[i].links && !HeldBackWithout(g[i], {l}) && CanComeLast(g, i, l.dep)
    ensures GateSafe(g, i) <==> OneModePerDep(g[i])
  {
    hide GateSafe, HeldBackWithout, CanComeLast, OneModePerDep;
    PaysExactly(g[i]);
    if OneModePerDep(g[i]) {
      PayingIsSafe(g, i);
    } else {
      var l :| l in g[i].links && !HeldBackWithout(g[i], {l}) && CanComeLast(g, i, l.dep);
      var latest := LatestOf(g[i], l);
      SameCharge(g[i], l, latest);
      OverpaidUnsafe(g, c, i, latest);
    }
  }

  // ---- No edge repeated ----

  lemma {:induction false} HighestDep(g: Graph, rank: seq<nat>, i: nat, n: nat) returns (l: Link)
    requires Resolved(g) && IsRank(g, rank) && i < |g| && 0 < n <= |g[i].links|
    ensures l in g[i].links[..n]
    ensures forall k :: 0 <= k < n ==> rank[g[i].links[k].dep] <= rank[l.dep]
  {
    l := g[i].links[n - 1];
    if n > 1 {
      var before := HighestDep(g, rank, i, n - 1);
      assert g[i].links[..n][..n - 1] == g[i].links[..n - 1];
      if rank[before.dep] > rank[l.dep] { l := before; }
    }
  }

  /** Of the dependencies of i, one of greatest rank can come last. */
  lemma HighestComesLast(g: Graph, rank: seq<nat>, c: set<nat>, i: nat, d: nat)
    requires Resolved(g) && IsRank(g, rank) && Startable(g, c) && i in c && i < |g| && d < |g|
    requires forall k :: 0 <= k < |g[i].links| ==> rank[g[i].links[k].dep] <= rank[d]
    ensures CanComeLast(g, i, d)
  {
    var others := set n | n in c && n < |g| && rank[n] <= rank[d] && n != d;
    forall n, k | n in others && 0 <= k < |g[n].links| ensures g[n].links[k].dep in others {
      assert DependsOn(g[n], g[n].links[k].dep);
    }
    assert OthersWithout(g, i, d, others);
  }

  lemma {:induction false} CountAt(links: seq<Link>, k: nat)
    requires k < |links|
    ensures CountLinks(links, links[k].dep) >= 1
  {
    var n := |links| - 1;
    if k < n { CountAt(links[..n], k); }
  }

  lemma {:induction false} CountTwo(links: seq<Link>, a: nat, b: nat)
    requires a < b < |links| && links[a].dep == links[b].dep
    ensures CountLinks(links, links[a].dep) >= 2
  {
    var n := |links| - 1;
    if b < n { CountTwo(links[..n], a, b); } else { CountAt(links[..n], a); }
  }

  /** Without the signal l each edge still pays once, the one for l excepted, and each edge to another
      dependency with two modes pays twice. */
  lemma {:induction false} ChargedWithout(v: Vertex, n: nat, l: Link, d: nat)
    requires n <= |v.links| && DistinctLinks(v) && Modes(EdgeSet(v), d) >= 2
    ensures var given := EdgeSet(v) - {l};
            Charged(v.links, n, given) >=
              if l.dep == d then n else n + CountLinks(v.links[..n], d) - if l in v.links[..n] then 1 else 0
  {
    if n > 0 {
      ChargedWithout(v, n - 1, l, d);
      assert v.links[..n][..n - 1] == v.links[..n - 1];
      EdgePays(v, n - 1, l, d);
      assert v.links[n - 1] == l ==> l !in v.links[..n - 1];
    }
  }

  lemma TwoModesOverpay(v: Vertex)
    requires DistinctLinks(v) && !OneModePerDep(v)
    ensures v.links != [] && forall l :: l in v.links ==> !HeldBackWithout(v, {l})
  {
    hide Charged, CountLinks, Modes;
    var links := v.links;
    var a, b :| 0 <= a < |links| && 0 <= b < |links| && links[a].dep == links[b].dep && links[a].wait != links[b].wait;
    var d := links[a].dep;
    BothModes(v, links[a], links[b]);
    CountTwo(links, if a < b then a else b, if a < b then b else a);
    forall l | l in links ensures !HeldBackWithout(v, {l}) {
      ChargedWithout(v, |links|, l, d);
      assert links[..|links|] == links;
    }
  }

  /** Without repeated edges nothing more is asked: the dependency of highest rank comes last. */
  lemma GateSafeDistinct(g: Graph, c: set<nat>, i: nat)
    requires Resolved(g) && Acyclic(g) && Startable(g, c) && ValidKinds(g) && i in c && i < |g| && DistinctLinks(g[i])
    ensures GateSafe(g, i) <==> OneModePerDep(g[i])
  {
    hide GateSafe, HeldBackWithout, CanComeLast, Acyclic;
    var v := g[i];
    if !OneModePerDep(v) {
      TwoModesOverpay(v);
      var rank := SomeRank(g);
      assert v.links != [];
      var l := HighestDep(g, rank, i, |v.links|);
      HighestComesLast(g, rank, c, i, l.dep);
      assert l in v.links && !HeldBackWithout(v, {l});
    }
    GateSafeExactly(g, c, i);
  }

  lemma SomeRank(g: Graph) returns (rank: seq<nat>)
    requires Acyclic(g)
    ensures IsRank(g, rank)
  {
    rank :| IsRank(g, rank);
  }
}
