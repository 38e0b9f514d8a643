/** The event router as the program runs it: node entries linked to their dependents, updated in
    place under the coordinator's mutex. Every method is shown to have the effect on the entries
    that the transition system gives it, and to close each channel at most once. */
module CoordinatorRouter {
  import opened Options
  import opened Graph
  import opened Coordinator

  /** Closing a channel; closing one that is closed already panics. */
  function Close(closed: bool): (after: bool)
    requires !closed
    ensures after
  {
    true
  }

  class NodeEntry {
    const id: nat
    const node: Vertex
    var dependents: seq<NodeEntry>
    var state: NodeState
    var pending: int
    var drained: bool
    // Is the channel closed?
    var goCh: bool
    var started: bool
    var ready: bool
    var exited: bool
    // What the entry remembers of that.
    var goClosed: bool
    var startedC: bool
    var readyC: bool
    var exitedC: bool

    constructor (id: nat, node: Vertex)
      ensures this.id == id && this.node == node && dependents == [] && ChannelsMatch()
      ensures View() == Entry(Pending, |node.links|, false, false, false, false, false)
    {
      this.id, this.node, dependents := id, node, [];
      goCh, started, ready, exited := false, false, false, false;
      state, pending := Pending, |node.links|;
      goClosed, startedC, readyC, exitedC, drained := false, false, false, false, false;
    }

    ghost predicate ChannelsMatch()
      reads this
    {
      goCh == goClosed && started == startedC && ready == readyC && exited == exitedC
    }

    ghost function View(): Entry
      reads this
    {
      Entry(state, pending, goClosed, startedC, readyC, exitedC, drained)
    }

    method WaitsFor(dep: nat, mode: Wait) returns (r: bool)
      ensures r == HasEdgeWaiting(node, dep, mode)
    {
      for k := 0 to |node.links|
        invariant forall n :: 0 <= n < k ==> node.links[n] != Link(dep, mode)
      {
        if node.links[k].dep == dep && node.links[k].wait == mode { return true; }
      }
      return false;
    }

    method CloseGo()
      requires ChannelsMatch()
      modifies this`goClosed, this`goCh
      ensures ChannelsMatch() && View() == old(View()).(goClosed := true)
    {
      if !goClosed {
        goClosed := true;
        goCh := Close(goCh);
      }
    }

    method DecrementPending()
      requires ChannelsMatch()
      modifies this`goClosed, this`pending, this`goCh
      ensures ChannelsMatch()
      ensures View() == Decremented(old(View()))
    {
      if state == Pending {
        pending := pending - 1;
        if pending <= 0 { CloseGo(); }
      }
    }

    /** What the exit of a dependency does to this node. */
    method DependencyLeft()
      requires ChannelsMatch()
      modifies this`goClosed, this`state, this`drained, this`goCh
      ensures ChannelsMatch()
      ensures View() == CascadeAlways(old(View()))
    {
      match state
      case Pending =>
        if !goClosed {
          state := Skipped;
          CloseGo();
        }
      case Running => drained := true;
      case _ =>
    }
  }

  // ---- The dependents lists ----

  /** Node d, once for each of its edges to `dep`. */
  function Repeat(d: nat, n: nat): seq<nat> {
    seq(n, _ => d)
  }

  /** The dependents of `dep` among the first n nodes, in order, once per edge. */
  function Dependents(g: Graph, dep: nat, n: nat): seq<nat>
    requires n <= |g|
  {
    if n == 0 then [] else Dependents(g, dep, n - 1) + Repeat(n - 1, CountLinks(g[n - 1].links, dep))
  }

  lemma {:induction false} RepeatCount(d: nat, n: nat, i: nat)
    ensures multiset(Repeat(d, n))[i] == if i == d then n else 0
  {
    if n > 0 {
      RepeatCount(d, n - 1, i);
      assert Repeat(d, n) == Repeat(d, n - 1) + [d];
    }
  }

  /** A node occurs in the dependents list once for each of its edges to that dependency. */
  lemma {:induction false} DependentsCount(g: Graph, dep: nat, n: nat, d: nat)
    requires n <= |g| && d < |g|
    ensures multiset(Dependents(g, dep, n))[d] == if d < n then CountLinks(g[d].links, dep) else 0
  {
    if n > 0 {
      DependentsCount(g, dep, n - 1, d);
      RepeatCount(n - 1, CountLinks(g[n - 1].links, dep), d);
    }
  }

  lemma {:induction false} DependsCounted(links: seq<Link>, dep: nat)
    ensures CountLinks(links, dep) > 0 <==> exists k :: 0 <= k < |links| && links[k].dep == dep
  {
    if links != [] {
      var front := links[..|links| - 1];
      DependsCounted(front, dep);
      assert forall k :: 0 <= k < |front| ==> front[k] == links[k];
      if CountLinks(front, dep) > 0 {
        var k :| 0 <= k < |front| && front[k].dep == dep;
        assert links[k].dep == dep;
      }
    }
  }

  // ---- The router ----

  /** Part of a notification: k of a node's edges have been counted off. */
  function NotifyPart(v: Vertex, x: Entry, e: nat, mode: Wait, k: nat): Entry {
    if x.state.Pending? && HasEdgeWaiting(v, e, mode) && k > 0 then
      x.(pending := x.pending - k, goClosed := x.goClosed || x.pending - k <= 0)
    else x
  }

  function Decremented(x: Entry): Entry {
    if !x.state.Pending? then x
    else x.(pending := x.pending - 1, goClosed := x.goClosed || x.pending - 1 <= 0)
  }

  /** The entries once the nodes in `counted` have been counted off, each as often as it occurs. */
  function Unblocked(g: Graph, es: seq<Entry>, e: nat, mode: Wait, counted: multiset<nat>): seq<Entry>
    requires |es| == |g|
  {
    seq(|es|, d requires 0 <= d < |es| => NotifyPart(g[d], es[d], e, mode, counted[d]))
  }

  lemma Unblocked0(g: Graph, es: seq<Entry>, e: nat, mode: Wait)
    requires |es| == |g|
    ensures Unblocked(g, es, e, mode, multiset{}) == es
  {
  }

  lemma UnblockedNext(g: Graph, es: seq<Entry>, e: nat, mode: Wait, counted: multiset<nat>, i: nat)
    requires |es| == |g| && i < |es|
    ensures var was := Unblocked(g, es, e, mode, counted);
            Unblocked(g, es, e, mode, counted + multiset{i})
            == was[i := if HasEdgeWaiting(g[i], e, mode) then Decremented(was[i]) else was[i]]
  {
  }

  lemma UnblockedAll(g: Graph, es: seq<Entry>, e: nat, mode: Wait, counted: multiset<nat>)
    requires |es| == |g| && forall d :: 0 <= d < |g| ==> counted[d] == CountLinks(g[d].links, e)
    ensures Unblocked(g, es, e, mode, counted) == Notify(g, es, e, mode)
  {
    forall d | 0 <= d < |g| ensures Unblocked(g, es, e, mode, counted)[d] == NotifyOne(g[d], es[d], e, mode) {
      DependsCounted(g[d].links, e);
    }
  }

  /** The entries once the nodes in ids have been told of an exit. */
  function CascadePart(es: seq<Entry>, ids: seq<nat>): seq<Entry> {
    seq(|es|, d requires 0 <= d < |es| => if d in ids then CascadeAlways(es[d]) else es[d])
  }

  lemma CascadeNone(es: seq<Entry>)
    ensures CascadePart(es, []) == es
  {
  }

  lemma CascadeAll(g: Graph, es: seq<Entry>, e: nat, ids: seq<nat>)
    requires |es| == |g| && forall d :: 0 <= d < |g| ==> (d in ids <==> DependsOn(g[d], e))
    ensures CascadePart(es, ids) == Cascade(g, es, e)
  {
  }

  lemma CascadeNext(es: seq<Entry>, ids: seq<nat>, i: nat)
    requires i < |es|
    ensures CascadePart(es, ids + [i]) == CascadePart(es, ids)[i := CascadeAlways(CascadePart(es, ids)[i])]
  {
  }

  class Router {
    var entries: seq<NodeEntry>
    var cancelled: bool
    var errCh: Option<Failure>
    ghost var graph: Graph
    ghost var dependents: seq<seq<NodeEntry>>

    ghost predicate Valid()
      reads this, entries
    {
      && |entries| == |graph| == |dependents|
      && (forall i, j :: 0 <= i < j < |entries| ==> entries[i] != entries[j])
      && (forall i :: 0 <= i < |entries| ==>
            entries[i].id == i && entries[i].node == graph[i] && entries[i].ChannelsMatch()
            && entries[i].dependents == dependents[i])
      && AllLinked(graph, entries, dependents)
    }

    ghost predicate Has(e: NodeEntry)
      reads this
    {
      e.id < |entries| && entries[e.id] == e
    }

    ghost function View(): (es: seq<Entry>)
      reads this, entries
      ensures |es| == |entries|
    {
      seq(|entries|, i requires 0 <= i < |entries| reads this, entries => entries[i].View())
    }

    method UnblockOne(d: NodeEntry, ghost i: nat, dep: nat, mode: Wait)
      requires Valid() && i < |entries| && entries[i] == d
      modifies d
      ensures Valid()
      ensures var x := old(View())[i];
              View() == old(View())[i := if HasEdgeWaiting(graph[i], dep, mode) then Decremented(x) else x]
    {
      var waiting := d.WaitsFor(dep, mode);
      if waiting { d.DecrementPending(); }
    }

    /** Counts off the edges of every dependent of e that waits in this mode. */
    method Unblock(e: NodeEntry, mode: Wait)
      requires Valid() && Has(e)
      modifies entries
      ensures Valid() && View() == Notify(graph, old(View()), e.id, mode)
    {
      ghost var ids := Positions(graph, entries, dependents, e.id);
      hide Unblocked, Notify;
      ghost var was := View();
      Unblocked0(graph, was, e.id, mode);
      for t := 0 to |e.dependents|
        invariant Valid() && unchanged(this) && ids[..0] == []
        invariant View() == Unblocked(graph, was, e.id, mode, multiset(ids[..t]))
      {
        assert ids[..t + 1] == ids[..t] + [ids[t]];
        UnblockedNext(graph, was, e.id, mode, multiset(ids[..t]), ids[t]);
        UnblockOne(e.dependents[t], ids[t], e.id, mode);
      }
      assert ids[..|ids|] == ids;
      UnblockedAll(graph, was, e.id, mode, multiset(ids));
    }

    method SignalStarted(e: NodeEntry)
      requires Valid() && Has(e)
      modifies entries
      ensures Valid() && View() == SignalEntries(graph, old(View()), e.id, Started)
    {
      if !e.startedC {
        e.startedC := true;
        e.started := Close(e.started);
        assert View() == old(View())[e.id := old(View())[e.id].(startedC := true)];
        Unblock(e, Started);
      } else {
        assert View() == old(View());
      }
    }

    method SignalReady(e: NodeEntry)
      requires Valid() && Has(e)
      modifies entries
      ensures Valid() && View() == SignalEntries(graph, old(View()), e.id, Ready)
    {
      if !e.readyC {
        e.readyC := true;
        e.ready := Close(e.ready);
        assert View() == old(View())[e.id := old(View())[e.id].(readyC := true)];
        Unblock(e, Ready);
      } else {
        assert View() == old(View());
      }
    }

    method RouteOne(d: NodeEntry, ghost i: nat)
      requires Valid() && i < |entries| && entries[i] == d
      modifies d
      ensures Valid() && View() == old(View())[i := CascadeAlways(old(View())[i])]
    {
      d.DependencyLeft();
    }

    /** Skips or drains the dependents of a node that has left. */
    method RouteExit(e: NodeEntry)
      requires Valid() && Has(e)
      modifies entries
      ensures Valid() && View() == Cascade(graph, old(View()), e.id)
    {
      ghost var ids := Positions(graph, entries, dependents, e.id);
      hide CascadePart, Cascade;
      ghost var was := View();
      CascadeNone(was);
      for t := 0 to |e.dependents|
        invariant Valid() && unchanged(this) && ids[..0] == []
        invariant View() == CascadePart(was, ids[..t])
      {
        assert ids[..t + 1] == ids[..t] + [ids[t]];
        CascadeNext(was, ids[..t], ids[t]);
        RouteOne(e.dependents[t], ids[t]);
      }
      assert ids[..|ids|] == ids;
      CascadeAll(graph, was, e.id, ids);
    }

    method MarkExited(e: NodeEntry)
      requires Valid() && Has(e) && !e.exitedC
      modifies e
      ensures Valid() && View() == old(View())[e.id := old(View())[e.id].(exitedC := true, state := Exited)]
    {
      e.exitedC := true;
      e.exited := Close(e.exited);
      e.state := Exited;
    }

    /** Reports a node's exit. The caller fails the chain with `fatal`, once the mutex is free. */
    method NodeExited(e: NodeEntry, err: Option<Failure>) returns (fatal: Option<Failure>)
      requires Valid() && Has(e)
      modifies entries
      ensures Valid() && View() == ExitEntries(graph, old(View()), e.id, err)
      ensures fatal == if !old(e.exitedC) && !e.node.optional then err else None
    {
      fatal := None;
      assert View()[e.id].exitedC == e.exitedC;
      if e.exitedC { return; }
      MarkExited(e);
      if err.None? { Unblock(e, Exit); }
      if err.Some? && !e.node.optional { return err; }
      if e.node.oneshot && err.None? { return; }
      RouteExit(e);
    }

    method FailChain(err: Failure)
      modifies this`errCh, this`cancelled
      ensures errCh == if old(errCh).None? then Some(err) else old(errCh)
      ensures cancelled == (old(errCh).None? || old(cancelled))
    {
      if errCh.None? {
        errCh := Some(err);
        cancelled := true;
      }
    }

    /** Unblocks the nodes without dependencies. */
    method ReleaseFrontier()
      requires Valid()
      modifies entries
      ensures Valid() && View() == FrontierEntries(old(View()))
    {
      ghost var was := View();
      for i := 0 to |entries|
        invariant Valid()
        invariant forall d :: 0 <= d < |entries| ==>
          entries[d].View() == if d < i then FrontierOne(was[d]) else was[d]
      {
        if entries[i].pending == 0 { entries[i].CloseGo(); }
      }
      assert View() == FrontierEntries(was);
    }

    /** The critical section of a node's goroutine after it has been woken. */
    method Begin(e: NodeEntry) returns (pc: Pc)
      requires Valid() && Has(e)
      modifies entries
      ensures Valid()
      ensures View() == if old(e.state.Pending?) then old(View())[e.id := old(View())[e.id].(state := Running)]
                        else old(View())
      ensures pc == match old(e.state) case Skipped => SkipLeaving case Pending => Entered case _ => Bailed
    {
      if e.state == Skipped {
        assert View() == old(View());
        return SkipLeaving;
      }
      if e.state != Pending {
        assert View() == old(View());
        return Bailed;
      }
      e.state := Running;
      assert View() == old(View())[e.id := old(View())[e.id].(state := Running)];
      return Entered;
    }

    constructor (g: Graph)
      requires Resolved(g)
      ensures Valid() && graph == g && View() == Init(g).es && !cancelled && errCh == None
    {
      var es := MakeEntries(g);
      LinkEntries(g, es);
      entries, graph, cancelled, errCh := es, g, false, None;
      dependents := seq(|es|, i requires 0 <= i < |es| reads es => es[i].dependents);
      new;
      assert View() == Init(g).es;
    }
  }

  // ---- Building the entries ----

  method MakeEntries(g: Graph) returns (es: seq<NodeEntry>)
    ensures |es| == |g| && fresh(es)
    ensures forall a, b :: 0 <= a < b < |es| ==> es[a] != es[b]
    ensures forall a :: 0 <= a < |es| ==> Blank(g, es[a], a) && es[a].dependents == []
  {
    es := [];
    for i := 0 to |g|
      invariant |es| == i && fresh(es)
      invariant forall a, b :: 0 <= a < b < i ==> es[a] != es[b]
      invariant forall a :: 0 <= a < i ==> Blank(g, es[a], a) && es[a].dependents == []
    {
      var e := new NodeEntry(i, g[i]);
      es := es + [e];
    }
  }

  /** A node's entry before the chain runs. */
  ghost predicate Blank(g: Graph, e: NodeEntry, i: nat)
    requires i < |g|
    reads e
  {
    && e.id == i && e.node == g[i] && e.ChannelsMatch()
    && e.View() == Entry(Pending, |g[i].links|, false, false, false, false, false)
  }

  /** The dependents of `dep` among the first i nodes, and the first k edges of node i. */
  function DependentsPart(g: Graph, dep: nat, i: nat, k: nat): seq<nat>
    requires i < |g| && k <= |g[i].links|
  {
    Dependents(g, dep, i) + Repeat(i, CountLinks(g[i].links[..k], dep))
  }

  lemma PartNext(g: Graph, i: nat, k: nat, a: nat)
    requires i < |g| && k < |g[i].links|
    ensures DependentsPart(g, a, i, k + 1)
            == if a == g[i].links[k].dep then DependentsPart(g, a, i, k) + [i] else DependentsPart(g, a, i, k)
  {
    assert g[i].links[..k + 1][..k] == g[i].links[..k];
  }

  lemma PartEnds(g: Graph, i: nat)
    requires i < |g|
    ensures forall a: nat :: DependentsPart(g, a, i, 0) == Dependents(g, a, i)
    ensures forall a: nat :: DependentsPart(g, a, i, |g[i].links|) == Dependents(g, a, i + 1)
  {
    assert g[i].links[..|g[i].links|] == g[i].links;
  }

  /** Appends node i to the dependents of each node it depends on, edge by edge. */
  method LinkOne(g: Graph, es: seq<NodeEntry>, i: nat)
    requires |es| == |g| && i < |g| && Resolved(g)
    requires forall a, b :: 0 <= a < b < |es| ==> es[a] != es[b]
    requires forall a :: 0 <= a < |es| ==> Linked(es, es[a].dependents, Dependents(g, a, i))
    modifies es`dependents
    ensures forall a :: 0 <= a < |es| ==> Linked(es, es[a].dependents, Dependents(g, a, i + 1))
  {
    hide Dependents, DependentsPart, Linked;
    PartEnds(g, i);
    for k := 0 to |g[i].links|
      invariant forall a :: 0 <= a < |es| ==> Linked(es, es[a].dependents, DependentsPart(g, a, i, k))
    {
      var dep := es[g[i].links[k].dep];
      ghost var was := seq(|es|, a requires 0 <= a < |es| reads es => es[a].dependents);
      dep.dependents := dep.dependents + [es[i]];
      forall a | 0 <= a < |es| ensures Linked(es, es[a].dependents, DependentsPart(g, a, i, k + 1)) {
        PartNext(g, i, k, a);
        LinkedNext(es, was[a], DependentsPart(g, a, i, k), i);
      }
    }
    PartEnds(g, i);
  }

  lemma LinkedNext(all: seq<NodeEntry>, es: seq<NodeEntry>, ids: seq<nat>, i: nat)
    requires Linked(all, es, ids) && i < |all|
    ensures Linked(all, es + [all[i]], ids + [i])
  {
  }

  method LinkEntries(g: Graph, es: seq<NodeEntry>)
    requires |es| == |g| && Resolved(g)
    requires forall a, b :: 0 <= a < b < |es| ==> es[a] != es[b]
    requires forall a :: 0 <= a < |es| ==> Blank(g, es[a], a) && es[a].dependents == []
    modifies es`dependents
    ensures forall a :: 0 <= a < |es| ==> Blank(g, es[a], a)
    ensures forall a :: 0 <= a < |es| ==> Linked(es, es[a].dependents, Dependents(g, a, |g|))
  {
    for i := 0 to |g|
      invariant forall a :: 0 <= a < |es| ==> Linked(es, es[a].dependents, Dependents(g, a, i))
    {
      LinkOne(g, es, i);
    }
  }

  ghost predicate AllLinked(g: Graph, all: seq<NodeEntry>, dependents: seq<seq<NodeEntry>>)
    requires |dependents| == |g|
  {
    forall i {:trigger Dependents(g, i, |g|)} :: 0 <= i < |g| ==> Linked(all, dependents[i], Dependents(g, i, |g|))
  }

  /** The positions of a node's dependents: each node once per edge. */
  lemma Positions(g: Graph, all: seq<NodeEntry>, dependents: seq<seq<NodeEntry>>, e: nat) returns (ids: seq<nat>)
    requires |dependents| == |g| && AllLinked(g, all, dependents) && e < |g|
    ensures Linked(all, dependents[e], ids)
    ensures forall d :: 0 <= d < |g| ==> multiset(ids)[d] == CountLinks(g[d].links, e)
    ensures forall d :: 0 <= d < |g| ==> (d in ids <==> DependsOn(g[d], e))
  {
    ids := Dependents(g, e, |g|);
    forall d | 0 <= d < |g|
      ensures multiset(ids)[d] == CountLinks(g[d].links, e) && (d in ids <==> DependsOn(g[d], e))
    {
      DependentsCount(g, e, |g|, d);
      DependsCounted(g[d].links, e);
      assert d in ids <==> multiset(ids)[d] > 0;
    }
  }

  /** es lists the entries whose positions are ids. */
  ghost predicate Linked(all: seq<NodeEntry>, es: seq<NodeEntry>, ids: seq<nat>) {
    |es| == |ids| && forall t :: 0 <= t < |ids| ==> ids[t] < |all| && es[t] == all[ids[t]]
  }

  function CascadeAlways(x: Entry): Entry {
    match x.state
    case Pending => if x.goClosed then x else x.(state := Skipped, goClosed := true)
    case Running => x.(drained := true)
    case _ => x
  }
}
