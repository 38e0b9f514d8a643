/** The chain coordinator as a transition system. One goroutine runs per node;
    every step below is one critical section of the coordinator's or the
    service's mutex, or one goroutine-local event of a node's lifecycle. */
module Coordinator {
  import opened Options
  import opened Graph

  datatype NodeState = Pending | Running | Exited | Skipped

  /** The bookkeeping of one node, guarded by the coordinator's mutex. `drained`
      says that the node's own context has been cancelled by a dependency's exit. */
  datatype Entry = Entry(state: NodeState, pending: int, goClosed: bool, startedC: bool, readyC: bool,
                         exitedC: bool, drained: bool)

  datatype Failure = ActiveSiblings | Reported(id: int)

  /** Where a node's goroutine is. */
  datatype Pc =
    | Waiting            // blocked on goCh or the chain context
    | SkipLeaving        // woke up skipped, about to report its exit
    | Entered            // lifecycle entered, nothing started
    | Held | HeldStarted | HeldReady             // supervised process, counted active
    | Attempt | Succeeded | SucceededStarted     // oneshot: running, then past endActive
    | SchedStarted | SchedReady | Ticking        // scheduler
    | Execing            // past the exec guard
    | Leaving(err: Option<Failure>)              // lifecycle returned, about to report it
    | Failing(fatal: Failure)                    // exit reported, about to fail the chain
    | Bailed             // returned without running
    | Left(left: Option<Failure>)                // returned after reporting its exit

  datatype State = State(es: seq<Entry>, pcs: seq<Pc>, last: seq<Option<int>>, active: nat, cancelled: bool,
                         frontier: bool, errCh: Option<Failure>, reports: seq<(nat, Failure)>)

  ghost predicate Sized(g: Graph, s: State) {
    && |s.es| == |s.pcs| == |s.last| == |g|
    && Resolved(g)
  }

  // ---- The event router's effect on the entries ----

  predicate HasEdgeWaiting(v: Vertex, dep: nat, mode: Wait) {
    exists k :: 0 <= k < |v.links| && v.links[k] == Link(dep, mode)
  }

  /** How often a node occurs in the dependents list of `dep`: once per edge, whatever its mode. */
  function CountLinks(links: seq<Link>, dep: nat): nat {
    if links == [] then 0
    else CountLinks(links[..|links| - 1], dep) + if links[|links| - 1].dep == dep then 1 else 0
  }

  function NotifyOne(v: Vertex, x: Entry, e: nat, mode: Wait): Entry {
    if x.state.Pending? && HasEdgeWaiting(v, e, mode) then
      var p := x.pending - CountLinks(v.links, e);
      x.(pending := p, goClosed := x.goClosed || p <= 0)
    else x
  }

  function Notify(g: Graph, es: seq<Entry>, e: nat, mode: Wait): seq<Entry>
    requires |es| == |g|
  {
    seq(|es|, d requires 0 <= d < |es| => NotifyOne(g[d], es[d], e, mode))
  }

  function CascadeOne(v: Vertex, x: Entry, e: nat): Entry {
    if !DependsOn(v, e) then x
    else match x.state
      case Pending => if x.goClosed then x else x.(state := Skipped, goClosed := true)
      case Running => x.(drained := true)
      case _ => x
  }

  function Cascade(g: Graph, es: seq<Entry>, e: nat): seq<Entry>
    requires |es| == |g|
  {
    seq(|es|, d requires 0 <= d < |es| => CascadeOne(g[d], es[d], e))
  }

  /** signalStarted and signalReady. */
  function SignalEntries(g: Graph, es: seq<Entry>, e: nat, mode: Wait): seq<Entry>
    requires |es| == |g| && e < |g| && mode != Exit
  {
    if mode == Started then
      if es[e].startedC then es else Notify(g, es[e := es[e].(startedC := true)], e, Started)
    else
      if es[e].readyC then es else Notify(g, es[e := es[e].(readyC := true)], e, Ready)
  }

  /** Does this exit skip or drain the node's dependents? */
  predicate Routes(v: Vertex, err: Option<Failure>) {
    if err.None? then !v.oneshot else v.optional
  }

  /** nodeExited. */
  function ExitEntries(g: Graph, es: seq<Entry>, e: nat, err: Option<Failure>): seq<Entry>
    requires |es| == |g| && e < |g|
  {
    if es[e].exitedC then es else
    var es1 := es[e := es[e].(exitedC := true, state := Exited)];
    var es2 := if err.None? then Notify(g, es1, e, Exit) else es1;
    if Routes(g[e], err) then Cascade(g, es2, e) else es2
  }

  function FrontierOne(x: Entry): Entry {
    if x.pending == 0 then x.(goClosed := true) else x
  }

  function FrontierEntries(es: seq<Entry>): seq<Entry> {
    seq(|es|, d requires 0 <= d < |es| => FrontierOne(es[d]))
  }

  // ---- Lifecycles ----

  /** Between beginActive and endActive. */
  predicate Holds(pc: Pc) {
    pc.Held? || pc.HeldStarted? || pc.HeldReady? || pc.Attempt? || pc.Ticking?
  }

  predicate InLifecycle(pc: Pc) {
    || pc.Entered? || pc.Held? || pc.HeldStarted? || pc.HeldReady? || pc.Attempt? || pc.Succeeded?
    || pc.SucceededStarted? || pc.SchedStarted? || pc.SchedReady? || pc.Ticking? || pc.Execing?
  }

  predicate Returned(pc: Pc) { pc.Bailed? || pc.Left? }

  /** The next signal a lifecycle sends, and where it is afterwards. */
  function NextSignal(v: Vertex, pc: Pc): Option<(Wait, Pc)> {
    match pc
    case Held => Some((Started, HeldStarted))
    case HeldStarted => Some((Ready, HeldReady))
    case Succeeded => Some((Started, SucceededStarted))
    case SucceededStarted => Some((Ready, Leaving(None)))
    case Entered => if v.scheduled && !v.oneshot && !v.exec then Some((Started, SchedStarted)) else None
    case SchedStarted => Some((Ready, SchedReady))
    case _ => None
  }

  predicate Ordinary(err: Option<Failure>) { err.None? || err.value.Reported? }

  predicate Failed(pc: Pc) { pc.Leaving? && pc.err.Some? && pc.err.value.Reported? }

  /** The moves of a lifecycle that send no signal. `last` and `last'` are the exit
      code of the node's last attempt before and after; `ctxDone` says that the
      node's context is cancelled. */
  predicate CanMove(v: Vertex, ctxDone: bool, active: nat, last: Option<int>, pc: Pc, pc': Pc, last': Option<int>) {
    match pc
    case Entered =>
      && last' == last
      && (|| Failed(pc')
          || (pc' == Attempt && v.oneshot)
          || (pc' == Held && !v.oneshot && !v.exec && !v.scheduled)
          || (pc' == Execing && !v.oneshot && v.exec && active == 0)
          || (pc' == Leaving(Some(ActiveSiblings)) && !v.oneshot && v.exec && active > 0))
    case Attempt =>
      || (pc' == Attempt && last'.Some? && last'.value != 0)
      || (pc' == Succeeded && last' == Some(0))
      || Failed(pc')
      || (pc' == Leaving(None) && ctxDone && last' == last)
    case Held => last' == last && Failed(pc')
    case HeldStarted => last' == last && Failed(pc')
    case HeldReady => last' == last && pc'.Leaving? && Ordinary(pc'.err)
    case SchedReady => last' == last && (pc' == Ticking || (pc'.Leaving? && Ordinary(pc'.err)))
    case Ticking => last' == last && (pc' == SchedReady || (pc'.Leaving? && Ordinary(pc'.err)))
    case Execing => last' == last && pc'.Leaving? && Ordinary(pc'.err)
    case _ => false
  }

  /** beginActive and endActive, as a move enters and leaves the supervised window. */
  function MoveActive(active: nat, pc: Pc, pc': Pc): nat {
    if Holds(pc') && !Holds(pc) then active + 1
    else if Holds(pc) && !Holds(pc') && active > 0 then active - 1
    else active
  }

  // ---- The transition system ----

  datatype Step =
    | FrontierStep
    | Cancel
    | Bail(i: nat)
    | Wake(i: nat)
    | Signal(i: nat)
    | Move(i: nat, pc: Pc, last: Option<int>)
    | Leave(i: nat)
    | Fail(i: nat)

  function Init(g: Graph): State {
    State(seq(|g|, i requires 0 <= i < |g| => Entry(Pending, |g[i].links|, false, false, false, false, false)),
          seq(|g|, i => Waiting), seq(|g|, i => None), 0, false, false, None, [])
  }

  ghost predicate Enabled(g: Graph, s: State, a: Step)
    requires Sized(g, s)
  {
    match a
    case FrontierStep => !s.frontier
    case Cancel => !s.cancelled
    case Bail(i) => i < |g| && s.pcs[i].Waiting? && s.cancelled && !s.es[i].goClosed
    case Wake(i) => i < |g| && s.pcs[i].Waiting? && s.es[i].goClosed
    case Signal(i) => i < |g| && NextSignal(g[i], s.pcs[i]).Some?
    case Move(i, pc, last) =>
      i < |g| && CanMove(g[i], s.cancelled || s.es[i].drained, s.active, s.last[i], s.pcs[i], pc, last)
    case Leave(i) => i < |g| && (s.pcs[i].SkipLeaving? || s.pcs[i].Leaving?)
    case Fail(i) => i < |g| && s.pcs[i].Failing?
  }

  function ExitError(pc: Pc): Option<Failure> {
    if pc.Leaving? then pc.err else None
  }

  function AfterExit(v: Vertex, err: Option<Failure>): Pc {
    if err.Some? && !v.optional then Failing(err.value) else Left(err)
  }

  /** Where the acting goroutine is after the step. */
  function PcAfter(g: Graph, s: State, a: Step, i: nat): Pc
    requires |s.pcs| == |s.es| == |g| && i < |g|
  {
    match a
    case Wake(_) =>
      (match s.es[i].state
       case Skipped => SkipLeaving
       case Pending => Entered
       case _ => Bailed)
    case Bail(_) => Bailed
    case Signal(_) => if NextSignal(g[i], s.pcs[i]).Some? then NextSignal(g[i], s.pcs[i]).value.1 else s.pcs[i]
    case Move(_, pc, _) => pc
    case Leave(_) => AfterExit(g[i], ExitError(s.pcs[i]))
    case Fail(_) => if s.pcs[i].Failing? then Left(Some(s.pcs[i].fatal)) else s.pcs[i]
    case _ => s.pcs[i]
  }

  ghost function Do(g: Graph, s: State, a: Step): State
    requires Sized(g, s) && Enabled(g, s, a)
  {
    match a
    case FrontierStep => s.(es := FrontierEntries(s.es), frontier := true)
    case Cancel => s.(cancelled := true)
    case Bail(i) => s.(pcs := s.pcs[i := PcAfter(g, s, a, i)])
    case Wake(i) =>
      s.(pcs := s.pcs[i := PcAfter(g, s, a, i)],
         es := if s.es[i].state.Pending? then s.es[i := s.es[i].(state := Running)] else s.es)
    case Signal(i) =>
      s.(pcs := s.pcs[i := PcAfter(g, s, a, i)],
         es := SignalEntries(g, s.es, i, NextSignal(g[i], s.pcs[i]).value.0))
    case Move(i, pc, last) =>
      s.(pcs := s.pcs[i := PcAfter(g, s, a, i)], last := s.last[i := last],
         active := MoveActive(s.active, s.pcs[i], pc))
    case Leave(i) =>
      s.(pcs := s.pcs[i := PcAfter(g, s, a, i)], es := ExitEntries(g, s.es, i, ExitError(s.pcs[i])))
    case Fail(i) =>
      var err := s.pcs[i].fatal;
      s.(pcs := s.pcs[i := PcAfter(g, s, a, i)], cancelled := true,
         errCh := if s.errCh.None? then Some(err) else s.errCh, reports := s.reports + [(i, err)])
  }

  ghost predicate Next(g: Graph, s: State, s': State) {
    Sized(g, s) && Sized(g, s') && exists a :: Enabled(g, s, a) && Do(g, s, a) == s'
  }

  /** A run of n steps leads from s to s'. */
  ghost predicate Leads(g: Graph, s: State, s': State, n: nat)
    decreases n
  {
    if n == 0 then Sized(g, s) && s == s' else exists m :: Leads(g, s, m, n - 1) && Next(g, m, s')
  }

  ghost predicate Reachable(g: Graph, s: State) {
    exists n :: Leads(g, Init(g), s, n)
  }

  /** The signal an edge waits for has been given. */
  predicate Signalled(s: State, l: Link)
    requires |s.pcs| == |s.es| && l.dep < |s.es|
  {
    match l.wait
    case Started => s.es[l.dep].startedC
    case Ready => s.es[l.dep].readyC
    case Exit => s.pcs[l.dep] == Left(None)
  }

  ghost predicate AllSignalled(g: Graph, s: State, i: nat)
    requires Sized(g, s) && i < |g|
  {
    forall k :: 0 <= k < |g[i].links| ==> Signalled(s, g[i].links[k])
  }
}
