/** What a waiting node's counter is, in every run: each signal costs it all edges to the dependency
    that gives it. */
module CoordinatorCounter {
  import opened Options
  import opened Graph
  import opened Coordinator
  import opened CoordinatorInvariant
  import opened CoordinatorSteps
  import opened CoordinatorTheorems

  function EdgeSet(v: Vertex): set<Link> {
    set l | l in v.links
  }

  /** In how many modes a dependency has given its signal. */
  function Modes(given: set<Link>, dep: nat): nat {
    (if Link(dep, Started) in given then 1 else 0) + (if Link(dep, Ready) in given then 1 else 0)
    + (if Link(dep, Exit) in given then 1 else 0)
  }

  /** What a set of signals costs: the first n edges each pay for every mode of their dependency. */
  function Charged(links: seq<Link>, n: nat, given: set<Link>): nat
    requires n <= |links|
  {
    if n == 0 then 0 else Charged(links, n - 1, given) + Modes(given, links[n - 1].dep)
  }

  /** The counter of the node when these signals, all of which it waits for, have been given. */
  function CounterAt(v: Vertex, given: set<Link>): int {
    |v.links| - Charged(v.links, |v.links|, given)
  }

  lemma {:induction false} ChargedLess(links: seq<Link>, n: nat, given: set<Link>, given': set<Link>)
    requires n <= |links| && given <= given'
    ensures Charged(links, n, given) <= Charged(links, n, given')
  {
    if n > 0 { ChargedLess(links, n - 1, given, given'); }
  }

  lemma {:induction false} ChargedMore(links: seq<Link>, n: nat, given: set<Link>, l: Link)
    requires n <= |links| && l !in given
    ensures Charged(links, n, given + {l}) == Charged(links, n, given) + CountLinks(links[..n], l.dep)
  {
    if n > 0 {
      ChargedMore(links, n - 1, given, l);
      assert links[..n][..n - 1] == links[..n - 1];
      OneMoreMode(given, l, links[n - 1].dep);
    }
  }

  lemma OneMoreMode(given: set<Link>, l: Link, dep: nat)
    requires l !in given
    ensures Modes(given + {l}, dep) == Modes(given, dep) + if l.dep == dep then 1 else 0
  {
    assert l == Link(l.dep, l.wait);
    match l.wait
    case Started =>
    case Ready =>
    case Exit =>
  }

  lemma {:induction false} ChargedNothing(links: seq<Link>, n: nat)
    requires n <= |links|
    ensures Charged(links, n, {}) == 0
  {
    if n > 0 { ChargedNothing(links, n - 1); }
  }

  /** With one wait mode per dependency each edge pays once, for its own signal. */
  lemma {:induction false} ChargedOnce(v: Vertex, n: nat, given: set<Link>)
    requires OneModePerDep(v) && n <= |v.links| && given <= EdgeSet(v)
    ensures Charged(v.links, n, given) <= n
    ensures Charged(v.links, n, given) == n <==> forall k :: 0 <= k < n ==> v.links[k] in given
  {
    if n > 0 {
      ChargedOnce(v, n - 1, given);
      ModeOfEdge(v, n - 1, given);
    }
  }

  lemma ModeOfEdge(v: Vertex, k: nat, given: set<Link>)
    requires OneModePerDep(v) && k < |v.links| && given <= EdgeSet(v)
    ensures Modes(given, v.links[k].dep) == if v.links[k] in given then 1 else 0
  {
    forall l | l in given && l.dep == v.links[k].dep ensures l == v.links[k] {
      assert l in EdgeSet(v);
      var j :| 0 <= j < |v.links| && v.links[j] == l;
    }
  }

  // ---- Along every run ----

  /** The signals that the node waits for and that have been given. */
  ghost function SignalsTo(v: Vertex, s: State): set<Link>
    requires |s.pcs| == |s.es| && forall k :: 0 <= k < |v.links| ==> v.links[k].dep < |s.es|
  {
    set l | l in v.links && Signalled(s, l)
  }

  ghost predicate CounterExact(g: Graph, s: State, i: nat)
    requires Sized(g, s) && i < |g|
  {
    s.es[i].state.Pending? ==> s.es[i].pending == CounterAt(g[i], SignalsTo(g[i], s))
  }

  lemma CounterDrops(v: Vertex, s: State, s': State, l: Link)
    requires OneMoreSignal(s, s', l) && forall k :: 0 <= k < |v.links| ==> v.links[k].dep < |s.es|
    ensures CounterAt(v, SignalsTo(v, s')) == CounterAt(v, SignalsTo(v, s)) - Dropped(v, Some(l))
  {
    hide Signalled, Charged;
    var links, before, after := v.links, SignalsTo(v, s), SignalsTo(v, s');
    if HasEdgeWaiting(v, l.dep, l.wait) {
      assert l in links;
      assert after == before + {l};
      ChargedMore(links, |links|, before, l);
      assert links[..|links|] == links;
    } else {
      assert l !in links;
      assert after == before;
    }
  }

  lemma CounterKept(g: Graph, s: State, a: Step, i: nat)
    requires Sized(g, s) && Locals(g, s) && Enabled(g, s, a) && i < |g| && CounterExact(g, s, i)
    ensures Sized(g, Do(g, s, a)) && CounterExact(g, Do(g, s, a), i)
  {
    hide Do, Local, Signalled, OneMoreSignal, CounterAt;
    KeepsLocals(g, s, a);
    SignalsOf(g, s, a);
    var s' := Do(g, s, a);
    if s'.es[i].state.Pending? {
      PendingAfter(g, s, a, i);
      if Given(g, s, a).Some? {
        CounterDrops(g[i], s, s', Given(g, s, a).value);
      } else {
        assert SignalsTo(g[i], s') == SignalsTo(g[i], s);
      }
    }
  }

  /** In every run, a waiting node's counter is its number of edges less, for each of them, the
      number of modes that it is waited for in and has given its signal in. */
  lemma {:induction false} CounterAlong(g: Graph, s: State, n: nat, i: nat)
    requires Resolved(g) && Leads(g, Init(g), s, n) && i < |g|
    ensures Sized(g, s) && CounterExact(g, s, i)
    decreases n
  {
    if n == 0 {
      assert SignalsTo(g[i], s) == {};
      ChargedNothing(g[i].links, |g[i].links|);
    } else {
      hide Do, Enabled, CounterExact;
      var m :| Leads(g, Init(g), m, n - 1) && Next(g, m, s);
      CounterAlong(g, m, n - 1, i);
      assert Reachable(g, m);
      ReachableLocals(g, m);
      var a :| Enabled(g, m, a) && Do(g, m, a) == s;
      CounterKept(g, m, a, i);
    }
  }

  /** Without the missing signals the others do not use the counter up. */
  ghost predicate HeldBackWithout(v: Vertex, missing: set<Link>) {
    CounterAt(v, EdgeSet(v) - missing) > 0
  }

  /** Then the node is not released before one of them is given. */
  lemma UnreleasedWithout(g: Graph, s: State, i: nat, missing: set<Link>)
    requires Reachable(g, s) && Sized(g, s) && i < |g| && s.es[i].state.Pending? && HeldBackWithout(g[i], missing)
    requires forall l :: l in missing && l in g[i].links ==> !Signalled(s, l)
    ensures !s.es[i].goClosed
  {
    hide Signalled, Local, Charged;
    ReachableInvariant(g, s);
    var n: nat :| Leads(g, Init(g), s, n);
    CounterAlong(g, s, n, i);
    var v := g[i];
    ChargedLess(v.links, |v.links|, SignalsTo(v, s), EdgeSet(v) - missing);
  }

  /** A node with one wait mode per dependency is held back without any one of its signals. */
  lemma AgreeingHeldBack(v: Vertex, missing: set<Link>)
    requires OneModePerDep(v) && missing * EdgeSet(v) != {}
    ensures HeldBackWithout(v, missing)
  {
    var l :| l in missing * EdgeSet(v);
    var k :| 0 <= k < |v.links| && v.links[k] == l;
    ChargedOnce(v, |v.links|, EdgeSet(v) - missing);
  }

  /** The last of its signals before these use it up: the node is released by then. */
  lemma ReleasedWithout(g: Graph, s: State, i: nat, missing: set<Link>)
    requires Reachable(g, s) && Sized(g, s) && s.frontier && i < |g| && s.es[i].state.Pending?
    requires !HeldBackWithout(g[i], missing)
    requires forall k :: 0 <= k < |g[i].links| && g[i].links[k] !in missing ==> Signalled(s, g[i].links[k])
    ensures s.es[i].goClosed
  {
    hide Signalled, Local, Charged;
    ReachableInvariant(g, s);
    var n: nat :| Leads(g, Init(g), s, n);
    CounterAlong(g, s, n, i);
    var v := g[i];
    ChargedLess(v.links, |v.links|, EdgeSet(v) - missing, SignalsTo(v, s));
  }

  ghost predicate SomeGiven(g: Graph, s: State, i: nat, missing: set<Link>)
    requires Sized(g, s) && i < |g|
  {
    exists k :: 0 <= k < |g[i].links| && g[i].links[k] in missing && Signalled(s, g[i].links[k])
  }

  /** In no run does the node run before one of them is given. */
  lemma {:induction false} RanWith(g: Graph, s: State, n: nat, i: nat, missing: set<Link>)
    requires Resolved(g) && Leads(g, Init(g), s, n) && i < |g| && HeldBackWithout(g[i], missing)
    ensures Sized(g, s) && (s.es[i].state.Running? || s.es[i].startedC ==> SomeGiven(g, s, i, missing))
    decreases n
  {
    if n > 0 {
      hide Do, Enabled, HeldBackWithout, SomeGiven;
      var m :| Leads(g, Init(g), m, n - 1) && Next(g, m, s);
      RanWith(g, m, n - 1, i, missing);
      assert Reachable(g, m);
      ReachableLocals(g, m);
      ReleasedSomeGiven(g, m, i, missing);
      var a :| Enabled(g, m, a) && Do(g, m, a) == s;
      RanStep(g, m, a, i, missing);
    }
  }

  lemma ReleasedSomeGiven(g: Graph, s: State, i: nat, missing: set<Link>)
    requires Reachable(g, s) && Sized(g, s) && i < |g| && HeldBackWithout(g[i], missing)
    ensures s.es[i].state.Pending? && s.es[i].goClosed ==> SomeGiven(g, s, i, missing)
  {
    hide HeldBackWithout, Signalled, Reachable;
    if s.es[i].state.Pending? && !SomeGiven(g, s, i, missing) { UnreleasedWithout(g, s, i, missing); }
  }

  lemma RanStep(g: Graph, s: State, a: Step, i: nat, missing: set<Link>)
    requires Sized(g, s) && Locals(g, s) && Enabled(g, s, a) && i < |g|
    requires s.es[i].state.Running? || s.es[i].startedC ==> SomeGiven(g, s, i, missing)
    requires s.es[i].state.Pending? && s.es[i].goClosed ==> SomeGiven(g, s, i, missing)
    ensures Sized(g, Do(g, s, a))
    ensures var s' := Do(g, s, a); s'.es[i].state.Running? || s'.es[i].startedC ==> SomeGiven(g, s', i, missing)
  {
    KeepsLocals(g, s, a);
    SignalsOf(g, s, a);
    if Actor(a) == Some(i) {
      assert Local(g[i], s.es[i], s.pcs[i], s.last[i], s.cancelled);
    } else {
      Bystander(g, s, a, i);
    }
  }
}
