/** The script-entry gate: one script thread that parks and unparks, and any number of callback
    threads that enter the scripting engine while it is parked. Each step is one critical section. */
module VmGate {
  import opened Options

  /** Where a callback is: past the first isParked check; holding `entry`; past the second check;
      counted and inside the engine; on its way out, still holding `entry`. */
  datatype Callback = AtEntry | Locked | Checked | InVm | Unlocking

  /** The script thread: running (a script frame, or a host call while parked), or inside the
      outermost Unpark, asleep on the condition variable or woken and about to look again. */
  datatype Script = Running | Sleeping | Awake

  datatype State = State(parkN: nat, inFlight: nat, entry: Option<nat>, script: Script, callbacks: map<nat, Callback>)

  datatype Step =
    | Park
    | Unpark
    | Recheck
    | FirstCheck(i: nat)
    | Acquire(i: nat)
    | TryRefused(i: nat)
    | SecondCheck(i: nat)
    | Count(i: nat)
    | Finish(i: nat)
    | Release(i: nat)

  const INIT := State(0, 0, None, Running, map[])

  predicate Is(s: State, i: nat, c: Callback) {
    i in s.callbacks && s.callbacks[i] == c
  }

  predicate Enabled(s: State, a: Step) {
    match a
    case Park => s.script == Running
    case Unpark => s.script == Running
    case Recheck => s.script == Awake
    case FirstCheck(i) => i !in s.callbacks && s.parkN > 0
    case Acquire(i) => Is(s, i, AtEntry) && s.entry.None?
    case TryRefused(i) => Is(s, i, AtEntry) && s.entry.Some?
    case SecondCheck(i) => Is(s, i, Locked)
    case Count(i) => Is(s, i, Checked)
    case Finish(i) => Is(s, i, InVm)
    case Release(i) => Is(s, i, Unlocking)
  }

  // What each critical section does to the gate's own fields.

  function ParkFields(parkN: nat): nat { parkN + 1 }

  function UnparkFields(parkN: nat): nat { if parkN > 0 then parkN - 1 else parkN }

  function CountOut(inFlight: nat): nat { if inFlight > 0 then inFlight - 1 else 0 }

  /** The step function. With `merged`, the second check and the count are one critical section,
      which is not what the program does. */
  function Do(merged: bool, s: State, a: Step): State
    requires Enabled(s, a)
  {
    match a
    case Park => s.(parkN := ParkFields(s.parkN))
    case Unpark =>
      var n := UnparkFields(s.parkN);
      s.(parkN := n, script := if n == 0 && s.inFlight > 0 then Sleeping else Running)
    case Recheck => s.(script := if s.inFlight > 0 then Sleeping else Running)
    case FirstCheck(i) => s.(callbacks := s.callbacks[i := AtEntry])
    case Acquire(i) => s.(entry := Some(i), callbacks := s.callbacks[i := Locked])
    case TryRefused(i) => s.(callbacks := s.callbacks - {i})
    case SecondCheck(i) =>
      if s.parkN == 0 then s.(callbacks := s.callbacks[i := Unlocking])
      else if merged then s.(inFlight := s.inFlight + 1, callbacks := s.callbacks[i := InVm])
      else s.(callbacks := s.callbacks[i := Checked])
    case Count(i) => s.(inFlight := s.inFlight + 1, callbacks := s.callbacks[i := InVm])
    case Finish(i) =>
      s.(inFlight := CountOut(s.inFlight), callbacks := s.callbacks[i := Unlocking],
         script := if s.script == Sleeping then Awake else s.script)
    case Release(i) => s.(entry := None, callbacks := s.callbacks - {i})
  }

  ghost predicate Next(merged: bool, s: State, s': State) {
    exists a :: Enabled(s, a) && Do(merged, s, a) == s'
  }

  ghost predicate Leads(merged: bool, s: State, s': State, n: nat)
    decreases n
  {
    if n == 0 then s == s' else exists m :: Leads(merged, s, m, n - 1) && Next(merged, m, s')
  }

  ghost predicate Reachable(merged: bool, s: State) {
    exists n :: Leads(merged, INIT, s, n)
  }

  // ---- The invariant ----

  predicate HoldsEntry(c: Callback) { c != AtEntry }

  ghost predicate Invariant(s: State) {
    && (forall i :: i in s.callbacks && HoldsEntry(s.callbacks[i]) ==> s.entry == Some(i))
    && (s.entry.Some? ==> s.entry.value in s.callbacks && HoldsEntry(s.callbacks[s.entry.value]))
    && s.inFlight == (if s.entry.Some? && s.callbacks[s.entry.value] == InVm then 1 else 0)
    && (s.script == Sleeping ==> s.inFlight > 0)
    && (s.script != Running ==> s.parkN == 0)
  }

  lemma InvariantKept(merged: bool, s: State, a: Step)
    requires Invariant(s) && Enabled(s, a)
    ensures Invariant(Do(merged, s, a))
  {
  }

  lemma {:induction false} InvariantAlong(merged: bool, s: State, s': State, n: nat)
    requires Invariant(s) && Leads(merged, s, s', n)
    ensures Invariant(s')
    decreases n
  {
    if n > 0 {
      var m :| Leads(merged, s, m, n - 1) && Next(merged, m, s');
      InvariantAlong(merged, s, m, n - 1);
      var a :| Enabled(m, a) && Do(merged, m, a) == s';
      InvariantKept(merged, m, a);
    }
  }

  lemma ReachableInvariant(merged: bool, s: State)
    requires Reachable(merged, s)
    ensures Invariant(s)
  {
    var n: nat :| Leads(merged, INIT, s, n);
    InvariantAlong(merged, INIT, s, n);
  }

  // ---- Serialisation ----

  /** At most one callback holds `entry`, so at most one is inside the engine, and it is counted. */
  lemma CallbacksSerialised(merged: bool, s: State, i: nat, j: nat)
    requires Reachable(merged, s) && i in s.callbacks && j in s.callbacks
    requires HoldsEntry(s.callbacks[i]) && HoldsEntry(s.callbacks[j])
    ensures i == j && s.entry == Some(i)
    ensures s.inFlight == if s.callbacks[i] == InVm then 1 else 0
  {
    ReachableInvariant(merged, s);
  }

  /** The script is in a frame of its own, not parked and not in Unpark. */
  predicate FrameLive(s: State) { s.script == Running && s.parkN == 0 }

  /** The outermost Unpark returns only at an instant at which nobody is inside the engine. */
  lemma UnparkReturnsIdle(merged: bool, s: State, a: Step)
    requires Reachable(merged, s) && Enabled(s, a) && (a == Unpark || a == Recheck)
    requires FrameLive(Do(merged, s, a))
    ensures Do(merged, s, a).inFlight == 0
    ensures forall i :: !Is(Do(merged, s, a), i, InVm)
  {
    ReachableInvariant(merged, s);
    InvariantKept(merged, s, a);
  }

  /** Unpark sleeps only while a callback is inside, whose return wakes it. */
  lemma SleepersAreWoken(merged: bool, s: State)
    requires Reachable(merged, s) && s.script == Sleeping
    ensures s.entry.Some? && Enabled(s, Finish(s.entry.value))
    ensures Do(merged, s, Finish(s.entry.value)).script == Awake && Do(merged, s, Finish(s.entry.value)).inFlight == 0
  {
    ReachableInvariant(merged, s);
  }

  /** A callback that does not want to wait never has to: either it gets the lock, or it is refused and
      gone, leaving everything else as it was. */
  lemma EntryNeverBlocks(merged: bool, s: State, i: nat)
    requires Is(s, i, AtEntry)
    ensures Enabled(s, Acquire(i)) <==> !Enabled(s, TryRefused(i))
    ensures Enabled(s, TryRefused(i)) ==> Do(merged, s, TryRefused(i)) == s.(callbacks := s.callbacks - {i})
  {
  }

  // ---- Nested windows ----

  /** Unpark undoes one Park. */
  lemma UnparkUndoesPark(merged: bool, s: State)
    requires Enabled(s, Park) && Enabled(Do(merged, s, Park), Unpark)
    ensures Do(merged, Do(merged, s, Park), Unpark).parkN == s.parkN
  {
  }

  /** The steps lead from s to s'. */
  ghost predicate Takes(merged: bool, s: State, steps: seq<Step>, s': State)
    decreases |steps|
  {
    if steps == [] then s == s' else Enabled(s, steps[0]) && Takes(merged, Do(merged, s, steps[0]), steps[1..], s')
  }

  /** How many of the first k steps are a given one. */
  function CountOf(steps: seq<Step>, k: nat, a: Step): nat
    requires k <= |steps|
  {
    if k == 0 then 0 else CountOf(steps, k - 1, a) + if steps[k - 1] == a then 1 else 0
  }

  /** Nothing is unparked that was not parked. */
  ghost predicate Balanced(steps: seq<Step>) {
    forall k :: 0 <= k <= |steps| ==> CountOf(steps, k, Unpark) <= CountOf(steps, k, Park)
  }

  lemma {:induction false} CountOfPrefix(steps: seq<Step>, more: seq<Step>, k: nat, a: Step)
    requires k <= |steps|
    ensures CountOf(steps + more, k, a) == CountOf(steps, k, a)
  {
    if k > 0 { CountOfPrefix(steps, more, k - 1, a); }
  }

  /** `before` has led to s; the counter goes on counting. */
  lemma {:induction false} ParksCounted(merged: bool, before: seq<Step>, s: State, steps: seq<Step>, s': State)
    requires Takes(merged, s, steps, s') && Balanced(before + steps)
    requires s.parkN == CountOf(before, |before|, Park) - CountOf(before, |before|, Unpark)
    ensures var all := before + steps; s'.parkN == CountOf(all, |all|, Park) - CountOf(all, |all|, Unpark)
    decreases |steps|
  {
    if steps == [] {
      assert before + steps == before;
    } else {
      var a, now := steps[0], before + [steps[0]];
      assert now + steps[1..] == before + steps;
      CountOfPrefix(before, [a], |before|, Park);
      CountOfPrefix(before, [a], |before|, Unpark);
      CountOfPrefix(now, steps[1..], |now|, Park);
      CountOfPrefix(now, steps[1..], |now|, Unpark);
      ParksCounted(merged, now, Do(merged, s, a), steps[1..], s');
    }
  }

  /** Windows nest: after any run that parks before it unparks, the window is open, and callbacks are
      let in, exactly while more was parked than unparked. */
  lemma WindowOpenExactly(merged: bool, steps: seq<Step>, s: State, i: nat)
    requires Takes(merged, INIT, steps, s) && Balanced(steps)
    ensures var open := CountOf(steps, |steps|, Park) > CountOf(steps, |steps|, Unpark);
            && (s.parkN > 0 <==> open)
            && (i !in s.callbacks ==> (Enabled(s, FirstCheck(i)) <==> open))
            && (Is(s, i, Locked) ==> (Is(Do(merged, s, SecondCheck(i)), i, Unlocking) <==> !open))
  {
    assert [] + steps == steps;
    ParksCounted(merged, [], INIT, steps, s);
  }

  // ---- Exclusion of script and callbacks ----

  predicate Passed(s: State, i: nat) { Is(s, i, Checked) || Is(s, i, InVm) }

  /** A run during which the script stays unparked. */
  ghost predicate LeadsUnparked(s: State, s': State, n: nat)
    decreases n
  {
    s.parkN == 0 && s'.parkN == 0
    && if n == 0 then s == s' else exists m :: LeadsUnparked(s, m, n - 1) && Next(false, m, s')
  }

  /** While the script is unparked no callback passes the second check: the only one that can be
      inside the engine is the one that had passed it before. */
  lemma {:induction false} NoNewCallback(s: State, s': State, n: nat, i: nat)
    requires LeadsUnparked(s, s', n) && Passed(s', i)
    ensures Passed(s, i)
    decreases n
  {
    if n > 0 {
      var m :| LeadsUnparked(s, m, n - 1) && Next(false, m, s');
      NoNewCallback(s, m, n - 1, i);
    }
  }

  /** Exactly when exclusion fails: during the script frame that starts at s, a callback can be
      inside the engine if and only if one was between the second check and the count at s. */
  lemma ExclusionExactly(s: State, i: nat)
    requires Reachable(false, s) && FrameLive(s) && s.inFlight == 0
    ensures (exists s', n :: LeadsUnparked(s, s', n) && FrameLive(s') && Is(s', i, InVm)) <==> Is(s, i, Checked)
  {
    ReachableInvariant(false, s);
    if s', n: nat :| LeadsUnparked(s, s', n) && FrameLive(s') && Is(s', i, InVm) {
      NoNewCallback(s, s', n, i);
    }
    if Is(s, i, Checked) {
      var s' := Do(false, s, Count(i));
      assert LeadsUnparked(s, s, 0) && Next(false, s, s');
      assert LeadsUnparked(s, s', 1) && FrameLive(s') && Is(s', i, InVm);
    }
  }

  lemma ReachStep(merged: bool, s: State, a: Step)
    requires Reachable(merged, s) && Enabled(s, a)
    ensures Reachable(merged, Do(merged, s, a))
  {
    var n: nat :| Leads(merged, INIT, s, n);
    assert Next(merged, s, Do(merged, s, a));
    assert Leads(merged, INIT, Do(merged, s, a), n + 1);
  }

  /** It does fail: a callback checks, the script unparks and finds nobody counted, the callback
      enters beside the live script frame. */
  lemma ExclusionFails()
    ensures exists s :: Reachable(false, s) && FrameLive(s) && Is(s, 7, InVm)
  {
    var s := ParkedAndChecked();
    ReachStep(false, s, Unpark);
    s := Do(false, s, Unpark);
    ReachStep(false, s, Count(7));
    assert FrameLive(Do(false, s, Count(7)));
  }

  lemma ParkedAndChecked() returns (s: State)
    ensures Reachable(false, s) && s.parkN == 1 && s.inFlight == 0 && s.script == Running && Is(s, 7, Checked)
  {
    assert Leads(false, INIT, INIT, 0);
    ReachStep(false, INIT, Park);
    s := Do(false, INIT, Park);
    ReachStep(false, s, FirstCheck(7));
    s := Do(false, s, FirstCheck(7));
    ReachStep(false, s, Acquire(7));
    s := Do(false, s, Acquire(7));
    ReachStep(false, s, SecondCheck(7));
    s := Do(false, s, SecondCheck(7));
  }

  // ---- Checking and counting in one critical section ----

  ghost predicate Excluded(s: State) {
    && Invariant(s)
    && (forall i :: i in s.callbacks ==> s.callbacks[i] != Checked)
    && (FrameLive(s) ==> s.inFlight == 0)
  }

  lemma ExcludedKept(s: State, a: Step)
    requires Excluded(s) && Enabled(s, a)
    ensures Excluded(Do(true, s, a))
  {
    InvariantKept(true, s, a);
  }

  lemma {:induction false} ExcludedAlong(s: State, s': State, n: nat)
    requires Excluded(s) && Leads(true, s, s', n)
    ensures Excluded(s')
    decreases n
  {
    if n > 0 {
      var m :| Leads(true, s, m, n - 1) && Next(true, m, s');
      ExcludedAlong(s, m, n - 1);
      var a :| Enabled(m, a) && Do(true, m, a) == s';
      ExcludedKept(m, a);
    }
  }

  /** With the second check and the count in one section, no callback is ever inside the engine
      beside a live script frame. */
  lemma MergedExcludes(s: State, i: nat)
    requires Reachable(true, s) && FrameLive(s)
    ensures !Is(s, i, InVm)
  {
    var n: nat :| Leads(true, INIT, s, n);
    ExcludedAlong(INIT, s, n);
  }

  // ---- The gate as it runs ----

  predicate IsCallbackStep(a: Step) {
    !(a.Park? || a.Unpark? || a.Recheck?)
  }

  /** The callbacks can take these steps, one after the other. */
  predicate Follows(s: State, steps: seq<Step>)
    decreases |steps|
  {
    steps == [] || (IsCallbackStep(steps[0]) && Enabled(s, steps[0]) && Follows(Do(false, s, steps[0]), steps[1..]))
  }

  /** The gate's counters, and where the threads that use it are. */
  class Gate {
    var parkN: nat
    var inFlight: nat
    ghost var state: State

    ghost predicate Valid()
      reads this
    {
      Reachable(false, state) && parkN == state.parkN && inFlight == state.inFlight
    }

    constructor ()
      ensures Valid() && state == INIT
    {
      parkN, inFlight, state := 0, 0, INIT;
      new;
      assert Leads(false, INIT, INIT, 0);
    }

    method Park()
      requires Valid() && state.script == Running
      modifies this
      ensures Valid() && state == Do(false, old(state), Step.Park)
    {
      parkN := parkN + 1;
      ReachStep(false, state, Step.Park);
      state := Do(false, state, Step.Park);
    }

    /** One critical section of a callback. */
    method Callback(a: Step)
      requires Valid() && IsCallbackStep(a) && Enabled(state, a)
      modifies this
      ensures Valid() && state == Do(false, old(state), a) && parkN == old(parkN)
    {
      ReachableInvariant(false, state);
      if a.Count? {
        inFlight := inFlight + 1;
      } else if a.Finish? {
        inFlight := inFlight - 1;
      }
      ReachStep(false, state, a);
      state := Do(false, state, a);
    }

    /** Sleeps on the condition variable while the callbacks take the given steps. */
    method Wait(steps: seq<Step>) returns (woken: bool)
      requires Valid() && state.script == Sleeping && Follows(state, steps)
      modifies this
      ensures Valid() && parkN == old(parkN)
      ensures state.script == if woken then Awake else Sleeping
      ensures woken <==> exists k :: 0 <= k < |steps| && steps[k].Finish?
    {
      woken := false;
      for k := 0 to |steps|
        invariant Valid() && parkN == old(parkN) && Follows(state, steps[k..])
        invariant state.script == if woken then Awake else Sleeping
        invariant woken <==> exists j :: 0 <= j < k && steps[j].Finish?
      {
        assert steps[k..][0] == steps[k] && steps[k..][1..] == steps[k + 1..];
        woken := woken || steps[k].Finish?;
        Callback(steps[k]);
      }
    }

    /** Resumes the script. The outermost Unpark returns only when nobody is inside the engine,
        whatever the callbacks do meanwhile, and it does not return only while somebody is. */
    method Unpark(steps: seq<Step>) returns (returned: bool)
      requires Valid() && state.script == Running && Follows(Do(false, state, Step.Unpark), steps)
      modifies this
      ensures Valid() && parkN == UnparkFields(old(parkN))
      ensures parkN > 0 || old(inFlight) == 0 ==> returned && state == Do(false, old(state), Step.Unpark)
      ensures returned <==> state.script == Running
      ensures returned && parkN == 0 ==> inFlight == 0 && forall i :: !Is(state, i, InVm)
      ensures !returned ==> parkN == 0 && inFlight > 0 && exists i :: Is(state, i, InVm)
    {
      if parkN > 0 { parkN := parkN - 1; }
      ReachStep(false, state, Step.Unpark);
      state := Do(false, state, Step.Unpark);
      if parkN > 0 { return true; }
      var left := steps;
      while inFlight > 0
        invariant Valid() && parkN == UnparkFields(old(parkN)) == 0
        invariant state.script == if inFlight > 0 then Sleeping else Running
        invariant inFlight > 0 ==> Follows(state, left)
        invariant old(inFlight) == 0 ==> inFlight == 0 && state == Do(false, old(state), Step.Unpark)
        decreases |left|
      {
        var woken := Wait(left);
        ReachableInvariant(false, state);
        if !woken {
          assert Is(state, state.entry.value, InVm);
          return false;
        }
        ReachStep(false, state, Recheck);
        state := Do(false, state, Recheck);
        left := [];
      }
      ReachableInvariant(false, state);
      return true;
    }
  }
}
