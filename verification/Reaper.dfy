/** The process-wide reaper: one loop that waits for every child, any number of callers that
    subscribe to a child's exit, and a kernel that coalesces SIGCHLD. The kernel reuses a PID only
    when its last exit has reached its subscriber, and the loop is not stopped. */
module Reaper {
  import opened Options

  type Pid = nat

  datatype Status = Exited(code: nat) | Signaled(signal: nat) | Continued

  function ExitCode(status: Status): int {
    match status
    case Exited(code) => code
    case Signaled(signal) => 128 + signal
    case Continued => -1
  }

  /** A subscriber's channel: what was sent on it, and whether it is closed. */
  datatype Channel = Channel(sent: seq<int>, closed: bool)

  const EMPTY := Channel([], false)

  /** Where the wait loop is; the last three hold the child it is dealing with. */
  datatype Loop =
    | Idle
    | Draining
    | Reaped(pid: Pid, code: int)
    | Sending(pid: Pid, code: int)
    | Closing(pid: Pid)

  /** `raised` is a SIGCHLD on its way, `buffered` one in the loop's channel. `handing` and `handed`
      are the Register calls that found a cached exit and have yet to send it, or to close. */
  datatype State = State(
    alive: set<Pid>,
    exits: map<Pid, Status>,
    zombies: set<Pid>,
    raised: bool,
    buffered: bool,
    loop: Loop,
    waits: set<Pid>,
    pending: map<Pid, int>,
    handing: map<Pid, int>,
    handed: set<Pid>,
    channels: map<Pid, Channel>)

  datatype Step =
    | Fork(child: Pid)
    | Exit(child: Pid, status: Status)
    | Register(child: Pid)
    | Raise
    | TakeSignal
    | Wait4(child: Pid)
    | NoneLeft
    | Dispatch
    | Send
    | Close
    | HandOver(child: Pid)
    | HandClose(child: Pid)

  /** The steps of the reaper itself, as opposed to those of the children and the subscribers. */
  predicate Internal(step: Step) {
    !(step.Fork? || step.Exit? || step.Register?)
  }

  ghost predicate Initial(s: State) {
    s == State({}, map[], {}, false, false, Idle, {}, map[], map[], {}, map[])
  }

  /** The last exit of p, if any, is with its subscriber. */
  ghost predicate Collected(s: State, p: Pid) {
    p in s.exits ==> HeldOf(s.loop, p).Nothing? && p !in s.pending && p !in s.handing && p !in s.handed
  }

  ghost predicate Enabled(s: State, step: Step) {
    match step
    case Fork(p) => p !in s.alive && p !in s.zombies && Collected(s, p)
    case Exit(p, _) => p in s.alive
    case Register(p) => (p in s.alive || p in s.exits) && p !in s.channels
    case Raise => s.raised
    case TakeSignal => s.loop.Idle? && s.buffered
    case Wait4(p) => s.loop.Draining? && p in s.zombies && p in s.exits
    case NoneLeft => s.loop.Draining? && s.zombies == {}
    case Dispatch => s.loop.Reaped?
    case Send => s.loop.Sending? && s.loop.pid in s.channels
    case Close => s.loop.Closing? && s.loop.pid in s.channels
    case HandOver(p) => p in s.handing && p in s.channels
    case HandClose(p) => p in s.handed && p in s.channels
  }

  function Sent(s: State, p: Pid, code: int): map<Pid, Channel>
    requires p in s.channels
  {
    s.channels[p := s.channels[p].(sent := s.channels[p].sent + [code])]
  }

  function Closed(s: State, p: Pid): map<Pid, Channel>
    requires p in s.channels
  {
    s.channels[p := s.channels[p].(closed := true)]
  }

  /** A new child p: whatever the table knew of an earlier one does not count any more. */
  function Forked(s: State, p: Pid): State {
    s.(alive := s.alive + {p}, exits := s.exits - {p}, channels := s.channels - {p})
  }

  ghost function Do(s: State, step: Step): State
    requires Enabled(s, step)
  {
    match step
    case Fork(p) => Forked(s, p)
    case Exit(p, status) =>
      s.(alive := s.alive - {p}, exits := s.exits[p := status], zombies := s.zombies + {p}, raised := true)
    case Register(p) =>
      if p in s.pending then
        s.(pending := s.pending - {p}, handing := s.handing[p := s.pending[p]], channels := s.channels[p := EMPTY])
      else s.(waits := s.waits + {p}, channels := s.channels[p := EMPTY])
    case Raise => s.(raised := false, buffered := true)
    case TakeSignal => s.(buffered := false, loop := Draining)
    case Wait4(p) => s.(zombies := s.zombies - {p}, loop := Reaped(p, ExitCode(s.exits[p])))
    case NoneLeft => s.(loop := Idle)
    case Dispatch =>
      if s.loop.pid in s.waits then s.(waits := s.waits - {s.loop.pid}, loop := Sending(s.loop.pid, s.loop.code))
      else s.(pending := s.pending[s.loop.pid := s.loop.code], loop := Draining)
    case Send => s.(channels := Sent(s, s.loop.pid, s.loop.code), loop := Closing(s.loop.pid))
    case Close => s.(channels := Closed(s, s.loop.pid), loop := Draining)
    case HandOver(p) =>
      s.(channels := Sent(s, p, s.handing[p]), handing := s.handing - {p}, handed := s.handed + {p})
    case HandClose(p) => s.(channels := Closed(s, p), handed := s.handed - {p})
  }

  ghost predicate Next(s: State, s': State) {
    exists step :: Enabled(s, step) && s' == Do(s, step)
  }

  ghost predicate IsRun(run: seq<State>) {
    && run != [] && Initial(run[0])
    && forall k: nat :: k + 1 < |run| ==> Next(run[k], run[k + 1])
  }

  ghost predicate Reachable(s: State) {
    exists run :: IsRun(run) && run[|run| - 1] == s
  }

  // ---- The invariant: every exit is in exactly one place ----

  datatype Held = Nothing | JustReaped(code: int) | BeingSent(code: int) | BeingClosed

  /** All the state that is about one child. */
  datatype Child = Child(alive: bool, exit: Option<Status>, zombie: bool, held: Held, waits: bool,
                         pending: Option<int>, handing: Option<int>, handed: bool, channel: Option<Channel>)

  function At<T>(m: map<Pid, T>, p: Pid): Option<T> {
    if p in m then Some(m[p]) else None
  }

  function HeldOf(loop: Loop, p: Pid): Held {
    match loop
    case Reaped(q, code) => if q == p then JustReaped(code) else Nothing
    case Sending(q, code) => if q == p then BeingSent(code) else Nothing
    case Closing(q) => if q == p then BeingClosed else Nothing
    case _ => Nothing
  }

  function View(s: State, p: Pid): Child {
    Child(p in s.alive, At(s.exits, p), p in s.zombies, HeldOf(s.loop, p), p in s.waits,
          At(s.pending, p), At(s.handing, p), p in s.handed, At(s.channels, p))
  }

  /** A registered child waits on an empty, open channel. */
  predicate AwaitsOk(c: Child) {
    (c.waits <==> c.channel.Some?) && (c.channel.Some? ==> c.channel.value == EMPTY)
  }

  /** The exit of one child goes from the zombie to the loop, and from there to the subscriber, or
      to the cache and on to a later subscriber. */
  predicate ChildOk(c: Child) {
    if c.exit.None? then
      && !c.zombie && c.held.Nothing? && c.pending.None? && c.handing.None? && !c.handed && AwaitsOk(c)
      && (c.channel.Some? ==> c.alive)
    else
      var code := ExitCode(c.exit.value);
      && !c.alive
      && (if c.zombie then c.held.Nothing? && c.pending.None? && c.handing.None? && !c.handed && AwaitsOk(c)
          else if !c.held.Nothing? then
            && c.pending.None? && c.handing.None? && !c.handed
            && match c.held {
               case JustReaped(n) => n == code && AwaitsOk(c)
               case BeingSent(n) => n == code && !c.waits && c.channel == Some(EMPTY)
               case _ => !c.waits && c.channel == Some(Channel([code], false))
               }
          else if c.pending.Some? then
            c.pending.value == code && !c.waits && c.handing.None? && !c.handed && c.channel.None?
          else if c.handing.Some? then
            c.handing.value == code && !c.waits && !c.handed && c.channel == Some(EMPTY)
          else if c.handed then !c.waits && c.channel == Some(Channel([code], false))
          else !c.waits && c.channel == Some(Channel([code], true)))
  }

  ghost predicate Inv(s: State) {
    && (forall p: Pid :: ChildOk(View(s, p)))
    && (s.zombies != {} ==> s.raised || s.buffered || !s.loop.Idle?)
  }

  /** The child a step is about. */
  function Subject(s: State, step: Step): Option<Pid> {
    match step
    case Fork(p) => Some(p)
    case Exit(p, _) => Some(p)
    case Register(p) => Some(p)
    case Wait4(p) => Some(p)
    case HandOver(p) => Some(p)
    case HandClose(p) => Some(p)
    case _ => match s.loop {
      case Reaped(p, _) => Some(p)
      case Sending(p, _) => Some(p)
      case Closing(p) => Some(p)
      case _ => None
      }
  }

  lemma InitialInv(s: State)
    requires Initial(s)
    ensures Inv(s)
  {
  }

  /** A step of the loop leaves every other child as it was, */
  lemma LoopStepOthers(s: State, step: Step, p: Pid)
    requires Enabled(s, step) && Subject(s, step) != Some(p)
    requires step.Raise? || step.TakeSignal? || step.NoneLeft? || step.Dispatch? || step.Send? || step.Close?
    ensures View(Do(s, step), p) == View(s, p)
  {
    hide ExitCode;
  }

  /** ... as does a step of another child, or of its subscriber. */
  lemma ChildStepOthers(s: State, step: Step, p: Pid)
    requires Enabled(s, step) && Subject(s, step) != Some(p)
    requires step.Fork? || step.Exit? || step.Register? || step.Wait4? || step.HandOver? || step.HandClose?
    ensures View(Do(s, step), p) == View(s, p)
  {
    hide ExitCode;
  }

  lemma StepSubject(s: State, step: Step, p: Pid)
    requires Enabled(s, step) && Subject(s, step) == Some(p) && ChildOk(View(s, p))
    ensures ChildOk(View(Do(s, step), p))
  {
    assert forall code: int :: EMPTY.sent + [code] == [code];
  }

  lemma StepInv(s: State, step: Step)
    requires Inv(s) && Enabled(s, step)
    ensures Inv(Do(s, step))
  {
    hide View, ChildOk;
    var s' := Do(s, step);
    forall p: Pid ensures ChildOk(View(s', p)) {
      assert ChildOk(View(s, p));
      if Subject(s, step) == Some(p) {
        StepSubject(s, step, p);
      } else if Internal(step) && !step.Wait4? && !step.HandOver? && !step.HandClose? {
        LoopStepOthers(s, step, p);
      } else {
        ChildStepOthers(s, step, p);
      }
    }
  }

  lemma {:induction false} RunInv(run: seq<State>, k: nat)
    requires IsRun(run) && k < |run|
    ensures Inv(run[k])
  {
    hide Inv, Enabled, Do;
    if k == 0 {
      InitialInv(run[0]);
    } else {
      RunInv(run, k - 1);
      var i: nat := k - 1;
      assert Next(run[i], run[i + 1]);
      var step :| Enabled(run[i], step) && run[i + 1] == Do(run[i], step);
      StepInv(run[i], step);
    }
  }

  lemma ReachableInv(s: State)
    requires Reachable(s)
    ensures Inv(s)
  {
    hide Inv;
    var run :| IsRun(run) && run[|run| - 1] == s;
    RunInv(run, |run| - 1);
  }

  // ---- Delivery ----

  /** Each subscriber gets its own child's code, at most once, and the channel closes behind it. */
  lemma AtMostOnce(s: State, p: Pid)
    requires Reachable(s) && p in s.channels
    ensures s.channels[p].sent != [] ==> p in s.exits && s.channels[p].sent == [ExitCode(s.exits[p])]
    ensures s.channels[p].closed ==> s.channels[p].sent != []
  {
    ReachableInv(s);
    assert ChildOk(View(s, p));
  }

  /** What a subscriber gets is the code that the child exited with, or 128 and the signal that ended it. */
  lemma CodeIsTheChilds(s: State, p: Pid)
    requires Reachable(s) && p in s.channels && s.channels[p].sent != []
    ensures p in s.exits
    ensures match s.exits[p]
            case Exited(code) => s.channels[p].sent == [code]
            case Signaled(signal) => s.channels[p].sent == [128 + signal]
            case Continued => s.channels[p].sent == [-1]
  {
    AtMostOnce(s, p);
  }

  /** No step sends on a closed or full channel, or closes a channel twice. */
  lemma NeverPanics(s: State)
    requires Reachable(s)
    ensures s.loop.Sending? ==> s.loop.pid in s.channels && s.channels[s.loop.pid] == EMPTY
    ensures s.loop.Closing? ==> s.loop.pid in s.channels && !s.channels[s.loop.pid].closed
    ensures forall p :: p in s.handing ==> p in s.channels && s.channels[p] == EMPTY
    ensures forall p :: p in s.handed ==> p in s.channels && !s.channels[p].closed
  {
    ReachableInv(s);
    if s.loop.Sending? || s.loop.Closing? { assert ChildOk(View(s, s.loop.pid)); }
    forall p | p in s.handing ensures p in s.channels && s.channels[p] == EMPTY { assert ChildOk(View(s, p)); }
    forall p | p in s.handed ensures p in s.channels && !s.channels[p].closed { assert ChildOk(View(s, p)); }
  }

  /** No child is both waited for and cached. */
  lemma WaitsAndPendingDisjoint(s: State)
    requires Reachable(s)
    ensures s.waits !! s.pending.Keys
  {
    ReachableInv(s);
    forall p | p in s.waits ensures p !in s.pending { assert ChildOk(View(s, p)); }
  }

  /** An exited child that is not yet reaped has a SIGCHLD coming, or is about to be drained. */
  lemma NoZombieForgotten(s: State)
    requires Reachable(s) && s.zombies != {}
    ensures s.raised || s.buffered || !s.loop.Idle?
  {
    ReachableInv(s);
  }

  function LoopWeight(loop: Loop): nat {
    match loop
    case Idle => 0
    case Draining => 1
    case Reaped(_, _) => 4
    case Sending(_, _) => 3
    case Closing(_) => 2
  }

  function CallWork(s: State): nat {
    2 * |s.handing.Keys| + |s.handed|
  }

  function LoopWork(s: State): nat {
    (if s.raised then 3 else 0) + (if s.buffered then 2 else 0) + LoopWeight(s.loop)
  }

  /** How many steps of its own the reaper has left, at most. */
  function Work(s: State): nat {
    4 * |s.zombies| + LoopWork(s) + CallWork(s)
  }

  lemma TakeOne<T>(a: set<T>, x: T)
    requires x in a
    ensures |a - {x}| == |a| - 1
  {
  }

  lemma AddOne<T>(a: set<T>, x: T)
    ensures |a + {x}| <= |a| + 1
  {
    if x in a { assert a + {x} == a; }
  }

  lemma CallStepsEnd(s: State, step: Step)
    requires Enabled(s, step) && (step.HandOver? || step.HandClose?)
    ensures CallWork(Do(s, step)) < CallWork(s)
  {
    var s' := Do(s, step);
    if step.HandOver? {
      assert s'.handing.Keys == s.handing.Keys - {step.child};
      TakeOne(s.handing.Keys, step.child);
      AddOne(s.handed, step.child);
    } else {
      TakeOne(s.handed, step.child);
    }
  }

  lemma LoopStepsEnd(s: State, step: Step)
    requires Enabled(s, step) && Internal(step) && !step.HandOver? && !step.HandClose? && !step.Wait4?
    ensures LoopWork(Do(s, step)) < LoopWork(s)
    ensures Do(s, step).zombies == s.zombies && CallWork(Do(s, step)) == CallWork(s)
  {
  }

  /** The reaper's own steps run out. */
  lemma InternalStepsEnd(s: State, step: Step)
    requires Enabled(s, step) && Internal(step)
    ensures Work(Do(s, step)) < Work(s)
  {
    hide CallWork, LoopWork;
    if step.Wait4? {
      DrainStepEnds(s, step);
    } else if step.HandOver? || step.HandClose? {
      CallStepsEnd(s, step);
      CallStepsOnly(s, step);
    } else {
      LoopStepsEnd(s, step);
    }
  }

  lemma CallStepsOnly(s: State, step: Step)
    requires Enabled(s, step) && (step.HandOver? || step.HandClose?)
    ensures Do(s, step).zombies == s.zombies && LoopWork(Do(s, step)) == LoopWork(s)
  {
  }

  lemma DrainStepEnds(s: State, step: Step)
    requires Enabled(s, step) && step.Wait4?
    ensures Work(Do(s, step)) < Work(s)
  {
    TakeOne(s.zombies, step.child);
  }

  ghost predicate Quiet(s: State) {
    forall step :: Internal(step) ==> !Enabled(s, step)
  }

  /** Once the reaper has nothing left to do, no zombie is left, and every subscriber of an exited
      child has its code, whichever of the exit and the subscription came first. */
  lemma NothingLost(s: State)
    requires Reachable(s) && Quiet(s)
    ensures s.zombies == {}
    ensures forall p :: p in s.channels && p in s.exits ==> s.channels[p] == Channel([ExitCode(s.exits[p])], true)
    ensures forall p :: p in s.exits && p !in s.channels ==> At(s.pending, p) == Some(ExitCode(s.exits[p]))
  {
    ReachableInv(s);
    QuietLoop(s);
    forall p | p in s.exits
      ensures if p in s.channels then s.channels[p] == Channel([ExitCode(s.exits[p])], true)
              else At(s.pending, p) == Some(ExitCode(s.exits[p]))
    {
      assert ChildOk(View(s, p));
      assert !Enabled(s, HandOver(p)) && !Enabled(s, HandClose(p));
    }
  }

  /** A subscriber may come after the exit: it can always register for a child that has exited, and once
      the reaper is at rest two steps give it the code and close its channel. */
  lemma LateSubscriberServed(s: State, p: Pid)
    requires Reachable(s) && Quiet(s) && p in s.exits && p !in s.channels
    ensures Enabled(s, Register(p)) && Enabled(Do(s, Register(p)), HandOver(p))
    ensures var handed := Do(Do(s, Register(p)), HandOver(p));
            Enabled(handed, HandClose(p))
            && Do(handed, HandClose(p)).channels[p] == Channel([ExitCode(s.exits[p])], true)
  {
    NothingLost(s);
    assert EMPTY.sent + [ExitCode(s.exits[p])] == [ExitCode(s.exits[p])];
  }

  lemma BusyMoves(s: State) returns (step: Step)
    requires Inv(s) && (!s.loop.Idle? || s.zombies != {})
    ensures Internal(step) && Enabled(s, step)
  {
    match s.loop
    case Idle => step := if s.buffered then TakeSignal else Raise;
    case Draining =>
      step := NoneLeft;
      if s.zombies != {} {
        var p :| p in s.zombies;
        assert ChildOk(View(s, p));
        step := Wait4(p);
      }
    case Reaped(_, _) => step := Dispatch;
    case Sending(p, _) => assert ChildOk(View(s, p)); step := Send;
    case Closing(p) => assert ChildOk(View(s, p)); step := Close;
  }

  lemma QuietLoop(s: State)
    requires Inv(s) && Quiet(s)
    ensures s.loop.Idle? && s.zombies == {}
  {
    if !s.loop.Idle? || s.zombies != {} {
      var step := BusyMoves(s);
    }
  }

  // ---- PID reuse ----

  /** The exit of p has been reaped, but is not yet matched with a subscriber, or has been handed over. */
  ghost predicate Settled(s: State, p: Pid) {
    && p in s.exits && p !in s.zombies && p !in s.handing && p !in s.handed
    && (HeldOf(s.loop, p).Nothing? || HeldOf(s.loop, p).JustReaped?)
  }

  /** A child that takes over the PID of a reaped one keeps the invariant if and only if the old exit
      has been collected: it is neither cached nor still in the hands of the loop. */
  lemma ReuseExactly(s: State, p: Pid)
    requires Reachable(s) && Settled(s, p)
    ensures Inv(Forked(s, p)) <==> Collected(s, p)
  {
    ReachableInv(s);
    assert ChildOk(View(s, p));
    if Collected(s, p) {
      StepInv(s, Fork(p));
    } else {
      assert !ChildOk(View(Forked(s, p), p));
    }
  }

  ghost predicate Follows(s: State, steps: seq<Step>, s': State)
    decreases |steps|
  {
    if steps == [] then s == s' else Enabled(s, steps[0]) && Follows(Do(s, steps[0]), steps[1..], s')
  }

  /** Otherwise the old exit can go to the subscriber of the new, still running, child. */
  lemma ReuseMisdelivers(s: State, p: Pid) returns (steps: seq<Step>, s': State)
    requires Reachable(s) && Settled(s, p) && !Collected(s, p)
    ensures Follows(Forked(s, p), steps, s')
    ensures p in s'.alive && p in s'.channels && s'.channels[p].sent == [ExitCode(s.exits[p])]
  {
    ReachableInv(s);
    assert ChildOk(View(s, p));
    var code := ExitCode(s.exits[p]);
    assert EMPTY.sent + [code] == [code];
    var s0 := Forked(s, p);
    var s1 := Do(s0, Register(p));
    if p in s.pending {
      s' := Do(s1, HandOver(p));
      steps := [Register(p), HandOver(p)];
      FollowsTwo(s0, Register(p), HandOver(p));
    } else {
      var s2 := Do(s1, Dispatch);
      s' := Do(s2, Send);
      steps := [Register(p)] + [Dispatch, Send];
      FollowsTwo(s1, Dispatch, Send);
      assert steps[1..] == [Dispatch, Send];
    }
  }

  lemma FollowsTwo(s: State, a: Step, b: Step)
    requires Enabled(s, a) && Enabled(Do(s, a), b)
    ensures Follows(s, [a, b], Do(Do(s, a), b))
  {
    var rest := [a, b][1..];
    assert rest == [b] && rest[1..] == [];
    assert Follows(Do(Do(s, a), b), [], Do(Do(s, a), b));
    assert Follows(Do(s, a), rest, Do(Do(s, a), b));
  }

  // ---- The reaper's own maps ----

  /** A subscriber's channel, of capacity one. */
  class Port {
    var sent: Option<int>
    var closed: bool

    constructor ()
      ensures sent == None && !closed
    {
      sent := None;
      closed := false;
    }

    method Send(code: int)
      requires sent == None && !closed
      modifies this
      ensures sent == Some(code) && !closed
    {
      sent := Some(code);
    }

    method Close()
      requires !closed
      modifies this`closed
      ensures closed
    {
      closed := true;
    }
  }

  class Registry {
    var zombies: map<Pid, Status>
    var waits: map<Pid, Port>
    var pending: map<Pid, int>

    /** Every subscriber's channel is its own, open and empty; no child is both cached and waited for,
        or dead a second time. */
    ghost predicate Valid()
      reads this, waits.Values
    {
      && (forall p :: p in waits ==> waits[p].sent == None && !waits[p].closed)
      && (forall p, q :: p in waits && q in waits && waits[p] == waits[q] ==> p == q)
      && waits.Keys !! pending.Keys && zombies.Keys !! pending.Keys
    }

    constructor ()
      ensures Valid() && zombies == map[] && waits == map[] && pending == map[]
    {
      zombies, waits, pending := map[], map[], map[];
    }

    /** Subscribes to the exit of a child, in place of an earlier subscriber; hands a cached exit over
        at once. */
    method Register(pid: Pid) returns (port: Port)
      requires Valid()
      modifies this`waits, this`pending
      ensures Valid() && fresh(port)
      ensures pid in old(pending) ==> && port.sent == Some(old(pending)[pid]) && port.closed
                                      && pending == old(pending) - {pid} && waits == old(waits)
      ensures pid !in old(pending) ==> && port.sent == None && !port.closed
                                       && pending == old(pending) && waits == old(waits)[pid := port]
    {
      port := new Port();
      if pid in pending {
        var code := pending[pid];
        pending := pending - {pid};
        port.Send(code);
        port.Close();
        return;
      }
      waits := waits[pid := port];
    }

    /** Hands a reaped exit to its subscriber, or caches it for a later one. */
    method Dispatched(pid: Pid, code: int)
      requires Valid() && pid !in pending && pid !in zombies
      modifies this`waits, this`pending, if pid in waits then {waits[pid]} else {}
      ensures Valid()
      ensures pid in old(waits) ==> && waits == old(waits) - {pid} && pending == old(pending)
                                    && old(waits[pid]).sent == Some(code) && old(waits[pid]).closed
      ensures pid !in old(waits) ==> waits == old(waits) && pending == old(pending)[pid := code]
    {
      if pid in waits {
        var port := waits[pid];
        waits := waits - {pid};
        port.Send(code);
        port.Close();
      } else {
        pending := pending[pid := code];
      }
    }

    /** Reaps one zombie. */
    method ReapOne() returns (pid: Pid)
      requires Valid() && zombies != map[]
      modifies this, waits.Values
      ensures Valid()
      ensures pid in old(zombies) && zombies == old(zombies) - {pid}
      ensures pid in old(waits) ==> && waits == old(waits) - {pid} && pending == old(pending)
                                    && old(waits)[pid].sent == Some(ExitCode(old(zombies)[pid]))
                                    && old(waits)[pid].closed
      ensures pid !in old(waits) ==> waits == old(waits) && pending == old(pending)[pid := ExitCode(old(zombies)[pid])]
      ensures forall port: Port :: port in old(waits.Values) && (pid in old(waits) ==> port != old(waits)[pid]) ==>
                unchanged(port)
    {
      pid :| pid in zombies;
      var code := ExitCode(zombies[pid]);
      zombies := zombies - {pid};
      Dispatched(pid, code);
    }

    /** Reaps every zombie: each goes to its subscriber, once and with its own code, or to the cache. */
    method ReapAvailable()
      requires Valid()
      modifies this, waits.Values
      ensures Valid() && zombies == map[]
      ensures waits == old(waits) - old(zombies).Keys
      ensures pending == old(pending) + CachedExits(old(zombies), {}, old(waits).Keys)
      ensures forall p :: p in old(waits) && p in old(zombies) ==>
                old(waits)[p].sent == Some(ExitCode(old(zombies)[p])) && old(waits)[p].closed
    {
      hide CachedExits, Still;
      ghost var dead, subscribed, cached := zombies, waits, pending;
      NothingReaped(cached, dead, subscribed);
      while zombies != map[]
        invariant Valid()
        invariant zombies.Keys <= dead.Keys && forall p :: p in zombies ==> zombies[p] == dead[p]
        invariant waits == Still(subscribed, dead.Keys, zombies.Keys)
        invariant pending == cached + CachedExits(dead, zombies.Keys, subscribed.Keys)
        invariant forall p :: p in subscribed && p in dead && p !in zombies ==>
                    subscribed[p].sent == Some(ExitCode(dead[p])) && subscribed[p].closed
        decreases |zombies|
      {
        ghost var left := zombies.Keys;
        StillIn(subscribed, dead.Keys, left);
        var pid := ReapOne();
        CachedStep(cached, dead, left, subscribed.Keys, pid);
        StillStep(subscribed, dead.Keys, left, pid);
        assert zombies.Keys == left - {pid};
      }
      assert zombies.Keys == {};
      StillEnd(subscribed, dead.Keys);
    }
  }

  /** The subscribers still waiting when all but those left have been reaped. */
  function Still<V>(m: map<Pid, V>, dead: set<Pid>, left: set<Pid>): map<Pid, V> {
    m - (dead - left)
  }

  lemma StillIn<V>(m: map<Pid, V>, dead: set<Pid>, left: set<Pid>)
    ensures var now := Still(m, dead, left);
            && (forall p :: p in now ==> p in m && now[p] == m[p])
            && (forall p :: p in left ==> (p in now <==> p in m))
            && now.Values <= m.Values
  {
    var now := Still(m, dead, left);
    forall v | v in now.Values ensures v in m.Values {
      var p :| p in now && now[p] == v;
      assert p in m && m[p] == v;
    }
  }

  lemma StillStep<V>(m: map<Pid, V>, dead: set<Pid>, left: set<Pid>, pid: Pid)
    requires pid in left && left <= dead
    ensures Still(m, dead, left - {pid}) ==
            if pid in m then Still(m, dead, left) - {pid} else Still(m, dead, left)
  {
    assert m - (dead - (left - {pid})) == (m - (dead - left)) - {pid};
    assert pid !in m ==> m - (dead - (left - {pid})) == m - (dead - left);
  }

  lemma StillEnd<V>(m: map<Pid, V>, dead: set<Pid>)
    ensures Still(m, dead, {}) == m - dead
  {
  }

  lemma NothingReaped<V>(cached: map<Pid, int>, dead: map<Pid, Status>, m: map<Pid, V>)
    ensures Still(m, dead.Keys, dead.Keys) == m
    ensures cached + CachedExits(dead, dead.Keys, m.Keys) == cached
  {
    assert m - {} == m;
  }

  /** The exits reaped so far, all but those left, that nobody had subscribed to. */
  function CachedExits(dead: map<Pid, Status>, left: set<Pid>, subscribed: set<Pid>): map<Pid, int> {
    map p | p in dead && p !in left && p !in subscribed :: ExitCode(dead[p])
  }

  lemma CachedStep(cached: map<Pid, int>, dead: map<Pid, Status>, left: set<Pid>, subscribed: set<Pid>, pid: Pid)
    requires pid in left && pid in dead
    ensures cached + CachedExits(dead, left - {pid}, subscribed) ==
            if pid in subscribed then cached + CachedExits(dead, left, subscribed)
            else (cached + CachedExits(dead, left, subscribed))[pid := ExitCode(dead[pid])]
  {
    var before, after := CachedExits(dead, left, subscribed), CachedExits(dead, left - {pid}, subscribed);
    if pid in subscribed {
      assert after == before;
    } else {
      assert after == before[pid := ExitCode(dead[pid])];
    }
  }
}
