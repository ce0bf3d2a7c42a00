/** Check, count, check again, against close and wait for zero: the admission
    pattern shared by gateway connections and API mutations.  Every atomic access
    is a step of its own, under sequential consistency. */
module Admission {

  /** Where a caller of `try_track` (or `try_admit_mutation`) stands. */
  datatype Caller = SawOpen | Counted | Granted | Refused

  datatype Gate = Gate(accepting: bool, active: nat, callers: map<nat, Caller>)

  datatype CallerStep =
    | FirstLoad(c: nat)
    | Add(c: nat)
    | SecondLoad(c: nat)
    | Release(c: nat)

  function Step(g: Gate, step: CallerStep): Gate {
    var c := step.c;
    match step
    case FirstLoad(_) => if c !in g.callers && g.accepting then g.(callers := g.callers[c := SawOpen]) else g
    case Add(_) =>
      if c in g.callers && g.callers[c] == SawOpen
      then g.(active := g.active + 1, callers := g.callers[c := Counted]) else g
    case SecondLoad(_) =>
      if c in g.callers && g.callers[c] == Counted
      then g.(callers := g.callers[c := if g.accepting then Granted else Refused]) else g
    case Release(_) =>
      if c in g.callers && g.callers[c] in {Granted, Refused} && g.active > 0
      then g.(active := g.active - 1, callers := g.callers - {c}) else g
  }

  function InCount(callers: map<nat, Caller>): set<nat> {
    set c | c in callers && callers[c] != SawOpen
  }

  /** The counter counts exactly the callers past their increment. */
  ghost predicate Counts(g: Gate) {
    g.active == |InCount(g.callers)|
  }

  predicate NothingGranted(g: Gate) {
    forall c <- g.callers :: g.callers[c] != Granted
  }

  lemma StepKeepsCount(g: Gate, step: CallerStep)
    requires Counts(g)
    ensures Counts(Step(g, step))
    ensures step.Release? && step.c in g.callers && g.callers[step.c] in {Granted, Refused} ==> g.active > 0
  {
    var c, h := step.c, Step(g, step);
    if c in g.callers && g.callers[c] in {Granted, Refused} { assert c in InCount(g.callers); }
    match step
    case FirstLoad(_) => assert InCount(h.callers) == InCount(g.callers);
    case Add(_) =>
      if c in g.callers && g.callers[c] == SawOpen { assert InCount(h.callers) == InCount(g.callers) + {c}; }
    case SecondLoad(_) => assert InCount(h.callers) == InCount(g.callers);
    case Release(_) =>
      if c in g.callers && g.callers[c] in {Granted, Refused} { assert InCount(h.callers) == InCount(g.callers) - {c}; }
  }

  /** A caller alone: it is granted if and only if the gate is open, counts while it is
      in, and leaves the gate as it found it. */
  lemma CallerAlone(g: Gate, c: nat)
    requires c !in g.callers
    ensures var counted := Step(Step(g, FirstLoad(c)), Add(c));
            var answered := Step(counted, SecondLoad(c));
            && (c in answered.callers && answered.callers[c] == Granted <==> g.accepting)
            && counted.active == g.active + (if g.accepting then 1 else 0)
            && Step(answered, Release(c)) == g
  {
    var answered := Step(Step(Step(g, FirstLoad(c)), Add(c)), SecondLoad(c));
    assert g.accepting ==> answered.callers - {c} == g.callers;
  }

  /** One that was counted before the gate closed is refused, and gives its count back. */
  lemma CaughtByClosing(g: Gate, c: nat)
    requires c in g.callers && g.callers[c] == Counted && g.active > 0
    ensures var h := Step(g.(accepting := false), SecondLoad(c));
            && h.callers[c] == Refused && Step(h, Release(c)).active == g.active - 1
            && Step(h, Release(c)).callers == g.callers - {c}
  {
  }

  lemma FreshNumber(used: set<nat>) returns (n: nat)
    ensures n !in used
  {
    n := 0;
    var rest := used;
    while rest != {}
      invariant rest <= used && forall x <- used :: x in rest || x < n
      decreases |rest|
    {
      var x :| x in rest;
      rest := rest - {x};
      n := if x < n then n else x + 1;
    }
  }

  /** While the gate is open a new caller gets through. */
  lemma OpenGateGrants(g: Gate, c: nat)
    requires g.accepting && c !in g.callers
    ensures !NothingGranted(Step(Step(Step(g, FirstLoad(c)), Add(c)), SecondLoad(c)))
  {
    var h := Step(Step(Step(g, FirstLoad(c)), Add(c)), SecondLoad(c));
    assert c in h.callers && h.callers[c] == Granted;
  }

  lemma ZeroMeansNothingGranted(g: Gate)
    requires Counts(g) && g.active == 0
    ensures NothingGranted(g)
  {
    assert forall c <- g.callers :: g.callers[c] == Granted ==> c in InCount(g.callers);
  }
}

/** Gateway connections, with the supervisor's phase lock. */
module GatewaySupervisor {
  import opened Admission

  datatype Phase = Starting | Ready | Failed | Stopping

  /** An administrative call between its atomic accesses.  The first two hold the
      phase lock. */
  datatype Admin = OpeningLocked | ClosingLocked | ClosingUnlocked | ShutdownClosing | ShutdownDone | Finished

  datatype State = State(phase: Phase, locked: bool, gate: Gate, admins: map<nat, Admin>)

  datatype Event =
    | Connection(step: CallerStep)
    | Begin(t: nat)
    | MarkReady(t: nat)
    | MarkFailed(t: nat)
    | Shutdown(t: nat)
    | StopAccepting(t: nat)
    | StoreFlag(t: nat)

  predicate HoldsLock(a: Admin) {
    a == OpeningLocked || a == ClosingLocked
  }

  /** A call that takes the phase lock, refused by `Stopping`. */
  function Enter(s: State, t: nat, phase: Phase, a: Admin): State {
    if t in s.admins || s.locked then s
    else if s.phase == Stopping then s.(admins := s.admins[t := Finished])
    else s.(phase := phase, locked := true, admins := s.admins[t := a])
  }

  function Next(s: State, e: Event): State {
    match e
    case Connection(step) => s.(gate := Step(s.gate, step))
    case Begin(t) => Enter(s, t, Starting, ClosingLocked)
    case MarkReady(t) => Enter(s, t, Ready, OpeningLocked)
    case MarkFailed(t) => Enter(s, t, Failed, ClosingLocked)
    case Shutdown(t) =>
      if t in s.admins || s.locked then s else s.(phase := Stopping, admins := s.admins[t := ShutdownClosing])
    case StopAccepting(t) => if t in s.admins then s else s.(admins := s.admins[t := ClosingUnlocked])
    case StoreFlag(t) =>
      if t !in s.admins || s.admins[t] in {ShutdownDone, Finished} then s
      else s.(gate := s.gate.(accepting := s.admins[t] == OpeningLocked),
              locked := s.locked && !HoldsLock(s.admins[t]),
              admins := s.admins[t := if s.admins[t] == ShutdownClosing then ShutdownDone else Finished])
  }

  function Run(s: State, events: seq<Event>): State
    decreases |events|
  {
    if events == [] then s else Run(Next(s, events[0]), events[1..])
  }

  const START := State(Starting, false, Gate(false, 0, map[]), map[])

  predicate ShutdownReturned(s: State) {
    exists t <- s.admins :: s.admins[t] == ShutdownDone
  }

  /** The phase lock has at most one holder. */
  predicate LockInv(s: State) {
    && (s.locked <==> exists t <- s.admins :: HoldsLock(s.admins[t]))
    && (forall t <- s.admins, u <- s.admins :: HoldsLock(s.admins[t]) && HoldsLock(s.admins[u]) ==> t == u)
  }

  ghost predicate Inv(s: State) {
    && Counts(s.gate)
    && LockInv(s)
    && (s.phase == Stopping ==> !s.locked)
    && (forall t <- s.admins :: s.admins[t] in {ShutdownClosing, ShutdownDone} ==> s.phase == Stopping)
    && (ShutdownReturned(s) ==> !s.gate.accepting)
  }

  lemma NextKeepsLock(s: State, e: Event)
    requires LockInv(s)
    ensures LockInv(Next(s, e))
  {
    var n := Next(s, e);
    if n.locked && s.locked {
      var t :| t in s.admins && HoldsLock(s.admins[t]);
      assert t in n.admins && n.admins[t] == s.admins[t];
    } else if n.locked {
      assert e.t in n.admins && HoldsLock(n.admins[e.t]);
    }
  }

  lemma NextKeepsInv(s: State, e: Event)
    requires Inv(s)
    ensures Inv(Next(s, e))
    ensures s.phase == Stopping ==> Next(s, e).phase == Stopping
    ensures ShutdownReturned(s) ==> ShutdownReturned(Next(s, e))
    ensures s.phase == Stopping && !s.gate.accepting ==> !Next(s, e).gate.accepting
  {
    var n := Next(s, e);
    NextKeepsLock(s, e);
    if e.Connection? { StepKeepsCount(s.gate, e.step); }
    if ShutdownReturned(s) {
      var t :| t in s.admins && s.admins[t] == ShutdownDone;
      assert t in n.admins && n.admins[t] == ShutdownDone;
    }
  }

  lemma {:induction false} RunKeepsInv(s: State, events: seq<Event>)
    requires Inv(s)
    ensures Inv(Run(s, events))
    ensures s.phase == Stopping ==> Run(s, events).phase == Stopping
    ensures ShutdownReturned(s) ==> ShutdownReturned(Run(s, events)) && !Run(s, events).gate.accepting
    decreases |events|
  {
    if events != [] {
      NextKeepsInv(s, events[0]);
      RunKeepsInv(Next(s, events[0]), events[1..]);
    }
  }

  lemma {:induction false} NothingGrantedStays(s: State, events: seq<Event>)
    requires Inv(s) && s.phase == Stopping && !s.gate.accepting && NothingGranted(s.gate)
    ensures NothingGranted(Run(s, events).gate)
    decreases |events|
  {
    if events != [] {
      NextKeepsInv(s, events[0]);
      NothingGrantedStays(Next(s, events[0]), events[1..]);
    }
  }

  /** Once `shutdown` has returned and a drain has read zero, no connection guard is
      live and none is ever granted again, whatever calls are still under way. */
  lemma {:induction false} DrainedAfterShutdownIsFinal(before: seq<Event>, later: seq<Event>)
    requires var s := Run(START, before); ShutdownReturned(s) && s.gate.active == 0
    ensures NothingGranted(Run(Run(START, before), later).gate)
  {
    var s := Run(START, before);
    assert InCount(START.gate.callers) == {};
    RunKeepsInv(START, before);
    ZeroMeansNothingGranted(s.gate);
    NothingGrantedStays(s, later);
  }

  /** Each administrative call, once its flag is stored, has done what it says, unless the
      supervisor was stopping; then only a shutdown still has an effect. */
  lemma CallsTakeEffect(s: State, t: nat)
    requires Inv(s) && t !in s.admins && !s.locked
    ensures var began := Next(Next(s, Begin(t)), StoreFlag(t));
            var ready := Next(Next(s, MarkReady(t)), StoreFlag(t));
            var failed := Next(Next(s, MarkFailed(t)), StoreFlag(t));
            && (s.phase != Stopping ==>
                  && began.phase == Starting && !began.gate.accepting && ready.phase == Ready && ready.gate.accepting
                  && failed.phase == Failed && !failed.gate.accepting)
            && (s.phase == Stopping ==> began.gate == ready.gate == failed.gate == s.gate)
            && !began.locked && !ready.locked && !failed.locked
    ensures var stopped := Next(Next(s, StopAccepting(t)), StoreFlag(t));
            stopped.phase == s.phase && !stopped.gate.accepting
    ensures var shut := Next(Next(s, Shutdown(t)), StoreFlag(t));
            shut.phase == Stopping && !shut.gate.accepting && ShutdownReturned(shut)
  {
    var shut := Next(Next(s, Shutdown(t)), StoreFlag(t));
    assert t in shut.admins && shut.admins[t] == ShutdownDone;
  }

  lemma GrantAhead(s: State) returns (events: seq<Event>)
    requires Inv(s) && !(s.phase == Stopping && !s.gate.accepting)
    ensures !NothingGranted(Run(s, events).gate)
  {
    var c := FreshNumber(s.gate.callers.Keys);
    var connect := [Connection(FirstLoad(c)), Connection(Add(c)), Connection(SecondLoad(c))];
    if s.gate.accepting {
      ConnectGrants(s, c);
      return connect;
    }
    var unlocked, prefix := s, [];
    if s.locked {
      var t :| t in s.admins && HoldsLock(s.admins[t]);
      unlocked, prefix := Next(s, StoreFlag(t)), [StoreFlag(t)];
      assert prefix == [StoreFlag(t)] + [];
      RunCons(s, StoreFlag(t), []);
    }
    var u := FreshNumber(unlocked.admins.Keys);
    var reopened := Next(Next(unlocked, MarkReady(u)), StoreFlag(u));
    ConnectGrants(reopened, c);
    var reopen := [MarkReady(u), StoreFlag(u)];
    assert reopen == [MarkReady(u)] + ([StoreFlag(u)] + []);
    RunCons(unlocked, MarkReady(u), [StoreFlag(u)] + []);
    RunCons(Next(unlocked, MarkReady(u)), StoreFlag(u), []);
    RunConcat(unlocked, reopen, connect);
    RunConcat(s, prefix, reopen + connect);
    events := prefix + (reopen + connect);
  }

  lemma ConnectGrants(s: State, c: nat)
    requires s.gate.accepting && c !in s.gate.callers
    ensures !NothingGranted(Run(s, [Connection(FirstLoad(c)), Connection(Add(c)), Connection(SecondLoad(c))]).gate)
  {
    var events := [Connection(FirstLoad(c)), Connection(Add(c)), Connection(SecondLoad(c))];
    var s1 := Next(s, events[0]);
    var s2 := Next(s1, events[1]);
    assert events == [events[0]] + ([events[1]] + ([events[2]] + []));
    RunCons(s, events[0], [events[1]] + ([events[2]] + []));
    RunCons(s1, events[1], [events[2]] + []);
    RunCons(s2, events[2], []);
    OpenGateGrants(s.gate, c);
  }

  lemma RunCons(s: State, e: Event, rest: seq<Event>)
    ensures Run(s, [e] + rest) == Run(Next(s, e), rest)
  {
    assert ([e] + rest)[1..] == rest;
  }

  lemma {:induction false} RunConcat(s: State, first: seq<Event>, second: seq<Event>)
    ensures Run(s, first + second) == Run(Run(s, first), second)
    decreases |first|
  {
    if first == [] {
      assert first + second == second;
    } else {
      assert (first + second)[1..] == first[1..] + second;
      RunConcat(Next(s, first[0]), first[1..], second);
    }
  }

  /** A drain that read zero is final if and only if the supervisor is stopping with
      the flag already down: stopping acceptance alone does not make it so. */
  lemma DrainFinalIff(s: State)
    requires Inv(s) && NothingGranted(s.gate)
    ensures (forall later :: NothingGranted(Run(s, later).gate)) <==> s.phase == Stopping && !s.gate.accepting
  {
    if s.phase == Stopping && !s.gate.accepting {
      forall later ensures NothingGranted(Run(s, later).gate) { NothingGrantedStays(s, later); }
    } else {
      var later := GrantAhead(s);
    }
  }
}

/** API mutations: the flag is never cleared, and the tracker is closed after it. */
module DaemonShutdown {
  import opened Admission

  datatype State = State(gate: Gate, triggers: set<nat>, closed: bool)

  datatype Event = Mutation(step: CallerStep) | RaiseFlag(t: nat) | CloseTracker(t: nat)

  function Next(s: State, e: Event): State {
    match e
    case Mutation(step) => s.(gate := Step(s.gate, step))
    case RaiseFlag(t) => s.(gate := s.gate.(accepting := false), triggers := s.triggers + {t})
    case CloseTracker(t) => if t in s.triggers then s.(closed := true) else s
  }

  function Run(s: State, events: seq<Event>): State
    decreases |events|
  {
    if events == [] then s else Run(Next(s, events[0]), events[1..])
  }

  const START := State(Gate(true, 0, map[]), {}, false)

  /** `wait_for_mutation_drain` completes when the tracker is closed and empty. */
  predicate Drained(s: State) {
    s.closed && s.gate.active == 0
  }

  ghost predicate Inv(s: State) {
    Counts(s.gate) && (s.closed || s.triggers != {} ==> !s.gate.accepting)
  }

  lemma {:induction false} RunKeepsInv(s: State, events: seq<Event>)
    requires Inv(s)
    ensures Inv(Run(s, events))
    ensures !s.gate.accepting && NothingGranted(s.gate) ==> NothingGranted(Run(s, events).gate)
    decreases |events|
  {
    if events != [] {
      if events[0].Mutation? { StepKeepsCount(s.gate, events[0].step); }
      RunKeepsInv(Next(s, events[0]), events[1..]);
    }
  }

  /** A trigger alone: no permit is given afterwards, and the drain completes as soon as
      no mutation is counted. */
  lemma TriggerDrains(s: State, t: nat)
    ensures var u := Next(Next(s, RaiseFlag(t)), CloseTracker(t));
            !u.gate.accepting && u.gate.callers == s.gate.callers && (Drained(u) <==> s.gate.active == 0)
  {
  }

  /** Once the drain has completed no mutation permit is live, and none is ever
      granted again. */
  lemma {:induction false} DrainedIsFinal(before: seq<Event>, later: seq<Event>)
    requires Drained(Run(START, before))
    ensures NothingGranted(Run(Run(START, before), later).gate)
  {
    assert InCount(START.gate.callers) == {};
    RunKeepsInv(START, before);
    ZeroMeansNothingGranted(Run(START, before).gate);
    RunKeepsInv(Run(START, before), later);
  }
}
