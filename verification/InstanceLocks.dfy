/** Per-instance locks kept in a weakly-held map: entries whose mutex nobody owns
    are pruned at every call.  Steps are the critical sections and the reference
    drops in between. */
module InstanceLocks {

  /** A caller of `lock`: inside the map section after pruning, or waiting for, or
      holding, the instance's mutex.  Waiting and holding own the mutex. */
  datatype Caller =
    | Pruned(id: string)
    | Waiting(id: string, mutex: nat)
    | Holding(id: string, mutex: nat)

  datatype State = State(locks: map<string, nat>, mapOwner: set<nat>, nextMutex: nat, callers: map<nat, Caller>)

  datatype Step =
    | EnterMap(c: nat, id: string)
    | TakeMutex(c: nat)
    | Acquire(c: nat)
    | Leave(c: nat)

  predicate Owns(a: Caller, mutex: nat) {
    !a.Pruned? && a.mutex == mutex
  }

  /** `strong_count() > 0`. */
  predicate Alive(s: State, mutex: nat) {
    exists c <- s.callers :: Owns(s.callers[c], mutex)
  }

  predicate IsHeld(s: State, mutex: nat) {
    exists c <- s.callers :: s.callers[c].Holding? && s.callers[c].mutex == mutex
  }

  function Next(s: State, step: Step): State {
    match step
    case EnterMap(c, id) =>
      if c in s.callers || s.mapOwner != {} then s
      else
        var alive := map i | i in s.locks && Alive(s, s.locks[i]) :: s.locks[i];
        State(alive, {c}, s.nextMutex, s.callers[c := Pruned(id)])
    case TakeMutex(c) =>
      if c !in s.callers || !s.callers[c].Pruned? then s
      else
        var id := s.callers[c].id;
        // The mutex may have died since the pruning; then a fresh one takes its place.
        if id in s.locks && Alive(s, s.locks[id])
        then s.(mapOwner := {}, callers := s.callers[c := Waiting(id, s.locks[id])])
        else State(s.locks[id := s.nextMutex], {}, s.nextMutex + 1, s.callers[c := Waiting(id, s.nextMutex)])
    case Acquire(c) =>
      if c in s.callers && s.callers[c].Waiting? && !IsHeld(s, s.callers[c].mutex)
      then s.(callers := s.callers[c := Holding(s.callers[c].id, s.callers[c].mutex)]) else s
    case Leave(c) =>
      if c in s.callers && !s.callers[c].Pruned? then s.(callers := s.callers - {c}) else s
  }

  function Run(s: State, steps: seq<Step>): State
    decreases |steps|
  {
    if steps == [] then s else Run(Next(s, steps[0]), steps[1..])
  }

  const START := State(map[], {}, 0, map[])

  /** Whoever waits for or holds an instance's lock owns the mutex the map names. */
  predicate Named(s: State, a: Caller) {
    a.Pruned? || (a.id in s.locks && s.locks[a.id] == a.mutex)
  }

  ghost predicate Inv(s: State) {
    && (forall i <- s.locks :: s.locks[i] < s.nextMutex)
    && (forall i <- s.locks, j <- s.locks :: s.locks[i] == s.locks[j] ==> i == j)
    && (forall c <- s.callers :: Named(s, s.callers[c]))
    && (forall c <- s.callers :: s.callers[c].Pruned? ==> s.mapOwner == {c})
    && (forall c <- s.callers, d <- s.callers ::
          s.callers[c].Holding? && s.callers[d].Holding? && s.callers[c].mutex == s.callers[d].mutex ==> c == d)
  }

  /** A mutex somebody owns is never pruned nor replaced. */
  lemma OwnedIsAlive(s: State, d: nat)
    requires Inv(s) && d in s.callers && !s.callers[d].Pruned?
    ensures s.callers[d].id in s.locks && s.locks[s.callers[d].id] == s.callers[d].mutex
    ensures Alive(s, s.callers[d].mutex)
  {
    assert Named(s, s.callers[d]) && Owns(s.callers[d], s.callers[d].mutex);
  }

  lemma PruningKeepsOwned(s: State, step: Step)
    requires Inv(s) && step.EnterMap?
    ensures Inv(Next(s, step))
  {
    forall c <- Next(s, step).callers ensures Named(Next(s, step), Next(s, step).callers[c]) {
      if c in s.callers && !s.callers[c].Pruned? { OwnedIsAlive(s, c); }
    }
  }

  lemma JoiningKeepsInv(s: State, c: nat, id: string)
    requires Inv(s) && c in s.callers && s.callers[c] == Pruned(id) && id in s.locks
    ensures Inv(s.(mapOwner := {}, callers := s.callers[c := Waiting(id, s.locks[id])]))
  {
    var n := s.(mapOwner := {}, callers := s.callers[c := Waiting(id, s.locks[id])]);
    forall d <- n.callers ensures Named(n, n.callers[d]) { assert Named(s, s.callers[d]); }
    forall d <- n.callers ensures !n.callers[d].Pruned? {
      assert s.callers[d].Pruned? ==> s.mapOwner == {d};
      assert s.mapOwner == {c} && (d != c ==> d !in s.mapOwner);
    }
  }

  lemma CreatingKeepsInv(s: State, c: nat, id: string)
    requires Inv(s) && c in s.callers && s.callers[c] == Pruned(id)
    requires id in s.locks ==> !Alive(s, s.locks[id])
    ensures Inv(State(s.locks[id := s.nextMutex], {}, s.nextMutex + 1, s.callers[c := Waiting(id, s.nextMutex)]))
  {
    var n := State(s.locks[id := s.nextMutex], {}, s.nextMutex + 1, s.callers[c := Waiting(id, s.nextMutex)]);
    forall d <- n.callers ensures Named(n, n.callers[d]) && !n.callers[d].Pruned? {
      assert s.callers[d].Pruned? ==> s.mapOwner == {d};
      assert s.mapOwner == {c} && (d != c ==> d !in s.mapOwner);
      if d != c { OwnedIsAlive(s, d); }
    }
  }

  lemma NextKeepsInv(s: State, step: Step)
    requires Inv(s)
    ensures Inv(Next(s, step))
  {
    match step
    case EnterMap(_, _) => PruningKeepsOwned(s, step);
    case TakeMutex(c) =>
      if c in s.callers && s.callers[c].Pruned? {
        var id := s.callers[c].id;
        if id in s.locks && Alive(s, s.locks[id]) { JoiningKeepsInv(s, c, id); } else { CreatingKeepsInv(s, c, id); }
      }
    case Acquire(_) =>
      forall d <- s.callers ensures Named(Next(s, step), Next(s, step).callers[d]) { assert Named(s, s.callers[d]); }
    case Leave(_) =>
      forall d <- Next(s, step).callers ensures Named(Next(s, step), Next(s, step).callers[d]) {
        assert Named(s, s.callers[d]);
      }
  }

  lemma {:induction false} RunKeepsInv(s: State, steps: seq<Step>)
    requires Inv(s)
    ensures Inv(Run(s, steps))
    decreases |steps|
  {
    if steps != [] {
      NextKeepsInv(s, steps[0]);
      RunKeepsInv(Next(s, steps[0]), steps[1..]);
    }
  }

  /** In every interleaving all callers of one instance share one mutex, callers of
      different instances do not, and at most one holds an instance's lock. */
  lemma MutualExclusion(steps: seq<Step>, c: nat, d: nat)
    requires var s := Run(START, steps);
             c in s.callers && d in s.callers && !s.callers[c].Pruned? && !s.callers[d].Pruned?
    ensures var s := Run(START, steps);
            && (s.callers[c].id == s.callers[d].id <==> s.callers[c].mutex == s.callers[d].mutex)
            && (s.callers[c].Holding? && s.callers[d].Holding? && s.callers[c].id == s.callers[d].id ==> c == d)
  {
    RunKeepsInv(START, steps);
    var s := Run(START, steps);
    assert Named(s, s.callers[c]) && Named(s, s.callers[d]);
  }

  lemma HeldIff(s: State, c: nat)
    requires Inv(s) && c in s.callers && !s.callers[c].Pruned?
    ensures IsHeld(s, s.callers[c].mutex) <==>
            exists d <- s.callers :: s.callers[d].Holding? && s.callers[d].id == s.callers[c].id
  {
    forall d <- s.callers | s.callers[d].Holding?
      ensures s.callers[d].mutex == s.callers[c].mutex <==> s.callers[d].id == s.callers[c].id
    {
      assert Named(s, s.callers[d]) && Named(s, s.callers[c]);
    }
  }

  /** Whoever finds the map free gets in, and leaves it queued for a mutex. */
  lemma CallerQueuesUp(s: State, c: nat, id: string)
    ensures s.mapOwner == {} && c !in s.callers ==>
              Next(s, EnterMap(c, id)).callers == s.callers[c := Pruned(id)]
    ensures c in s.callers && s.callers[c] == Pruned(id) ==>
              var t := Next(s, TakeMutex(c));
              && t.mapOwner == {} && c in t.callers && t.callers[c].Waiting? && t.callers[c].id == id
              && t.callers == s.callers[c := t.callers[c]]
  {
  }

  /** Entering the map takes out exactly the mutexes nobody owns. */
  lemma PrunedExactly(s: State, c: nat, id: string, i: string)
    requires s.mapOwner == {} && c !in s.callers
    ensures var t := Next(s, EnterMap(c, id));
            && (i in t.locks <==> i in s.locks && exists d <- s.callers :: Owns(s.callers[d], s.locks[i]))
            && (i in t.locks ==> t.locks[i] == s.locks[i])
  {
  }

  /** Whoever waits gets the lock if and only if nobody holds it for the same instance;
      leaving takes a caller out, so that nobody waits for one that is gone. */
  lemma AcquiredIff(s: State, c: nat)
    requires Inv(s) && c in s.callers && s.callers[c].Waiting?
    ensures var t := Next(s, Acquire(c));
            && t.callers[c].id == s.callers[c].id && t.callers == s.callers[c := t.callers[c]]
            && (t.callers[c].Holding? <==>
                  forall d <- s.callers :: s.callers[d].Holding? ==> s.callers[d].id != s.callers[c].id)
            && Next(t, Leave(c)).callers == s.callers - {c}
  {
    HeldIff(s, c);
  }
}
