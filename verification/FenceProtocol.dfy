/** Connection attempts, fences, republications and disconnects, interleaved at
    lock granularity.  Each `Step` is one critical section (or one atomic flag
    store); a run is any sequence of steps, so every interleaving is covered. */
module FenceProtocol {
  import opened Metadata
  import opened Basics
  import opened RouteView
  import opened RouteHistory
  import SR = SessionRegistry

  /** How a lookup names an instance.  Inferring the database from the username
      ends in a key lookup. */
  datatype Query = ByKey(slot: Slot) | ByPassword(protocol: Protocol, hash: string)

  predicate Finds(v: View, q: Query, id: string) {
    match q
    case ByKey(slot) => Routed(v, slot) == Some(id)
    case ByPassword(protocol, hash) => PasswordIds(v, protocol, hash) == {id}
  }

  /** PostgreSQL opens a pending session first and authenticates it later;
      MongoDB resolves twice and opens a session only the second time. */
  datatype Kind = Plain | PostgresLike | MongoLike

  datatype Phase = Opened | Checked | Returned | Rechecked | Authenticated | Serving

  datatype Attempt =
    | Resolved(id: string, stamp: nat, limit: Option<nat>, kind: Kind)
    | Holding(id: string, stamp: nat, limit: Option<nat>, kind: Kind, session: nat, phase: Phase)
    | Failing(id: string, session: nat)
    | Closed

  /** The resolver has handed the route to the connection. */
  predicate HasRoute(a: Attempt) {
    a.Holding? && a.phase !in {Opened, Checked}
  }

  datatype FencePhase = RoutesRemoved | Cancelling(left: set<nat>) | Drained

  /** `fence`, `fence_and_wait`, and the recovery fence that is pinned. */
  datatype FenceKind = JustFence | AndWait | Pin

  datatype Fencer = Fencer(id: string, stamp: nat, kind: FenceKind, phase: FencePhase)

  function FenceOp(kind: FenceKind, id: string): Op {
    if kind == Pin then PinRoutesFenced(id) else FenceRoutes(id)
  }

  /** A fence returns once every collected session is flagged, `fence_and_wait`
      once it has also seen the tenant without sessions. */
  predicate HasReturned(f: Fencer) {
    if f.kind == AndWait then f.phase == Drained else f.phase == Cancelling({})
  }

  datatype State = State(
    store: View, sessions: SR.Registry, attempts: map<nat, Attempt>, fencers: map<nat, Fencer>)

  datatype Step =
    | Write(op: Op)
    | Resolve(a: nat, query: Query, id: string, kind: Kind)
    | Reresolve(a: nat, query: Query)
    | OpenSession(a: nat)
    | Check(a: nat)
    | Authenticate(a: nat)
    | Disconnect(a: nat)
    | Fence(f: nat, id: string, how: FenceKind)
    | Collect(f: nat)
    | Flag(f: nat, session: nat)
    | Await(f: nat)

  function Current(v: View, a: Attempt): bool
    requires a.Resolved? || a.Holding?
  {
    RouteIsCurrent(v, a.id, Revision(a.stamp))
  }

  function PhaseAfterCheck(a: Attempt): Option<Phase>
    requires a.Holding?
  {
    match a.phase
    case Opened => Some(Checked)
    case Checked => Some(Returned)
    case Returned => if a.kind == PostgresLike then Some(Rechecked) else None
    case Rechecked => None
    case Authenticated => Some(Serving)
    case Serving => None
  }

  function NextAttempt(s: State, step: Step, a: Attempt): Attempt {
    match step
    case Reresolve(_, query) =>
      if !a.Resolved? || a.kind != MongoLike then a
      else if Finds(s.store, query, a.id) && Current(s.store, a) then Resolved(a.id, a.stamp, a.limit, Plain)
      else Closed
    case OpenSession(_) =>
      if !a.Resolved? || a.kind == MongoLike then a
      else if a.kind == Plain && SR.Full(s.sessions, a.id, a.limit) then Closed
      else Holding(a.id, a.stamp, a.limit, a.kind, s.sessions.nextId, Opened)
    case Check(_) =>
      if !a.Holding? || PhaseAfterCheck(a).None? then a
      else if Current(s.store, a) then a.(phase := PhaseAfterCheck(a).value)
      else Failing(a.id, a.session)
    case Authenticate(_) =>
      if !(a.Holding? && a.phase == Rechecked && a.session in s.sessions.live) then a
      else if SR.AuthOutcome(s.sessions, a.session, a.limit) == SR.Admitted then a.(phase := Authenticated)
      else Failing(a.id, a.session)
    case Disconnect(_) => Closed
    case _ => a
  }

  function NextSessions(r: SR.Registry, step: Step, a: Attempt): SR.Registry {
    match step
    case OpenSession(_) =>
      if !a.Resolved? || a.kind == MongoLike then r
      else if a.kind == Plain then SR.Inserted(r, a.id, a.limit, true)
      else SR.Inserted(r, a.id, None, false)
    case Authenticate(_) =>
      if a.Holding? && a.phase == Rechecked && a.session in r.live then SR.AfterAuth(r, a.session, a.limit) else r
    case Disconnect(_) =>
      if (a.Holding? || a.Failing?) && a.session in r.live then SR.Dropped(r, a.session) else r
    case _ => r
  }

  function NextFencer(r: SR.Registry, step: Step, f: Fencer): Fencer {
    match step
    case Collect(_) => if f.phase == RoutesRemoved then f.(phase := Cancelling(SR.Entry(r, f.id))) else f
    case Flag(_, session) => if f.phase.Cancelling? then f.(phase := Cancelling(f.phase.left - {session})) else f
    case Await(_) =>
      if f.kind == AndWait && f.phase == Cancelling({}) && SR.Entry(r, f.id) == {} then f.(phase := Drained) else f
    case _ => f
  }

  /** One step; a step that is not enabled changes nothing. */
  function Next(s: State, step: Step): State {
    match step
    case Write(op) => s.(store := RouteView.Apply(s.store, op))
    case Resolve(a, query, id, kind) =>
      if a !in s.attempts && Finds(s.store, query, id) && id in s.store.stamps && id in s.store.instances
      then
        var limit := ConnectionLimit(s.store.instances[id]);
        s.(attempts := s.attempts[a := Resolved(id, s.store.stamps[id], limit, kind)])
      else s
    case Fence(f, id, how) =>
      if f in s.fencers then s
      else if id !in s.store.instances then s
      else var store := RouteView.Apply(s.store, FenceOp(how, id));
           s.(store := store, fencers := s.fencers[f := Fencer(id, store.bumps, how, RoutesRemoved)])
    case Collect(f) =>
      if f in s.fencers then s.(fencers := s.fencers[f := NextFencer(s.sessions, step, s.fencers[f])]) else s
    case Await(f) =>
      if f in s.fencers then s.(fencers := s.fencers[f := NextFencer(s.sessions, step, s.fencers[f])]) else s
    case Flag(f, session) =>
      if f in s.fencers && s.fencers[f].phase.Cancelling? && session in s.fencers[f].phase.left
      then s.(fencers := s.fencers[f := NextFencer(s.sessions, step, s.fencers[f])],
              sessions := SR.Cancelled(s.sessions, session))
      else s
    case _ =>
      if step.a in s.attempts
      then s.(attempts := s.attempts[step.a := NextAttempt(s, step, s.attempts[step.a])],
              sessions := NextSessions(s.sessions, step, s.attempts[step.a]))
      else s
  }

  function Run(s: State, steps: seq<Step>): State
    decreases |steps|
  {
    if steps == [] then s else Run(Next(s, steps[0]), steps[1..])
  }

  /** The daemon at start: any consistent store, no connections. */
  predicate Initial(s: State) {
    s.sessions == SR.EMPTY && s.attempts == map[] && s.fencers == map[]
  }

  // ---- invariant ---------------------------------------------------------------------------

  /** The instance's stamp has not gone back behind `stamp`. */
  predicate AtLeast(v: View, id: string, stamp: nat) {
    1 <= stamp <= v.bumps && (id in v.stamps ==> v.stamps[id] >= stamp)
  }

  /** Moreover, an instance still at `stamp` is open, as it was when resolved. */
  predicate ResolvedAt(v: View, id: string, stamp: nat) {
    AtLeast(v, id, stamp) && (id in v.stamps && v.stamps[id] == stamp ==> Open(v, id))
  }

  predicate OwnsSession(r: SR.Registry, id: string, session: nat) {
    session in r.live && r.live[session].tenant == id
  }

  predicate AttemptOk(v: View, r: SR.Registry, a: Attempt) {
    match a
    case Resolved(id, stamp, _, _) => ResolvedAt(v, id, stamp)
    case Holding(id, stamp, _, _, session, _) => ResolvedAt(v, id, stamp) && OwnsSession(r, id, session)
    case Failing(id, session) => OwnsSession(r, id, session)
    case Closed => true
  }

  predicate SharesSession(a: Attempt, b: Attempt) {
    (a.Holding? || a.Failing?) && (b.Holding? || b.Failing?) && a.session == b.session
  }

  /** A route returned before the fence is flagged, or about to be. */
  predicate Covered(r: SR.Registry, f: Fencer, a: Attempt) {
    HasRoute(a) && a.id == f.id && a.stamp < f.stamp && f.phase != RoutesRemoved && a.session in r.live ==>
      r.live[a.session].cancelled || (f.phase.Cancelling? && a.session in f.phase.left)
  }

  ghost predicate Inv(s: State) {
    && Consistent(s.store)
    && SR.Listed(s.sessions)
    && (forall a <- s.attempts :: AttemptOk(s.store, s.sessions, s.attempts[a]))
    && (forall a <- s.attempts, b <- s.attempts :: SharesSession(s.attempts[a], s.attempts[b]) ==> a == b)
    && (forall f <- s.fencers :: AtLeast(s.store, s.fencers[f].id, s.fencers[f].stamp))
    && (forall f <- s.fencers, a <- s.attempts :: Covered(s.sessions, s.fencers[f], s.attempts[a]))
  }

  lemma AtLeastStays(v: View, op: Op, id: string, stamp: nat)
    requires AtLeast(v, id, stamp)
    ensures AtLeast(RouteView.Apply(v, op), id, stamp)
  {
  }

  lemma ResolvedAtStays(v: View, op: Op, id: string, stamp: nat)
    requires ResolvedAt(v, id, stamp)
    ensures ResolvedAt(RouteView.Apply(v, op), id, stamp)
  {
    AtLeastStays(v, op, id, stamp);
    if Target(op) != id { OthersAlike(v, op, id); }
  }

  lemma FoundIsOpen(v: View, q: Query, id: string)
    requires Consistent(v) && Finds(v, q, id)
    ensures Open(v, id)
  {
    match q
    case ByKey(slot) => assert Honest(v, slot, v.lastPublished[slot]);
    case ByPassword(protocol, hash) => assert id in PasswordIds(v, protocol, hash);
  }

  /** Before the counter wraps, a revision compares equal only to itself. */
  lemma CurrentIsExact(v: View, id: string, stamp: nat)
    requires Consistent(v) && AtLeast(v, id, stamp) && v.bumps < U64 - 1
    ensures RouteIsCurrent(v, id, Revision(stamp)) <==> id !in v.fenced && id in v.stamps && v.stamps[id] == stamp
  {
    if id in v.stamps { RevisionCollision(stamp, v.stamps[id]); }
  }

  /** What any step does to one session: only its owner's disconnect removes it,
      nothing moves it to another tenant, and a raised flag stays up. */
  predicate SessionKept(r: SR.Registry, r': SR.Registry, x: nat) {
    x in r.live ==>
      x in r'.live && r'.live[x].tenant == r.live[x].tenant && r'.live[x].cancelled == r.live[x].cancelled
  }

  lemma OthersSessionsKept(r: SR.Registry, step: Step, a: Attempt, x: nat)
    requires SR.Listed(r)
    requires (a.Holding? || a.Failing?) && a.session == x ==> !step.Disconnect?
    ensures SessionKept(r, NextSessions(r, step, a), x)
  {
  }

  lemma NextSessionsListed(r: SR.Registry, step: Step, a: Attempt)
    requires SR.Listed(r)
    ensures SR.Listed(NextSessions(r, step, a))
    ensures NextSessions(r, step, a).nextId >= r.nextId
  {
    match step
    case OpenSession(_) =>
      if a.Resolved? {
        SR.InsertedListed(r, a.id, a.limit, true);
        SR.InsertedListed(r, a.id, None, false);
      }
    case Authenticate(_) =>
      if a.Holding? && a.session in r.live { SR.AfterAuthListed(r, a.session, a.limit); }
    case Disconnect(_) =>
      if (a.Holding? || a.Failing?) && a.session in r.live { SR.DroppedListed(r, a.session); }
    case _ =>
  }

  predicate IsAttemptStep(step: Step) {
    step.Reresolve? || step.OpenSession? || step.Check? || step.Authenticate? || step.Disconnect?
  }

  /** The attempt that moves keeps its own part of the invariant. */
  lemma MovedAttemptOk(s: State, step: Step, a: Attempt)
    requires Inv(s) && IsAttemptStep(step) && AttemptOk(s.store, s.sessions, a)
    ensures AttemptOk(s.store, NextSessions(s.sessions, step, a), NextAttempt(s, step, a))
    ensures var b := NextAttempt(s, step, a);
            b.Holding? || b.Failing? ==>
              (if a.Holding? || a.Failing? then b.session == a.session else b.session == s.sessions.nextId)
  {
    if (a.Holding? || a.Failing?) && !step.Disconnect? { OthersSessionsKept(s.sessions, step, a, a.session); }
  }

  /** It obtains a route only while its revision is current, hence never after
      the fence. */
  lemma MovedAttemptCovered(s: State, step: Step, a: Attempt, f: Fencer)
    requires Inv(s) && IsAttemptStep(step) && AttemptOk(s.store, s.sessions, a)
    requires AtLeast(s.store, f.id, f.stamp) && Covered(s.sessions, f, a) && s.store.bumps < U64 - 1
    ensures Covered(NextSessions(s.sessions, step, a), f, NextAttempt(s, step, a))
  {
    if a.Holding? && !step.Disconnect? {
      OthersSessionsKept(s.sessions, step, a, a.session);
      CurrentIsExact(s.store, a.id, a.stamp);
    }
  }

  lemma AttemptStepKeepsAttempts(s: State, step: Step, b: nat)
    requires Inv(s) && IsAttemptStep(step) && step.a in s.attempts && b in s.attempts
    ensures AttemptOk(s.store, Next(s, step).sessions, Next(s, step).attempts[b])
  {
    var a := s.attempts[step.a];
    if b == step.a { MovedAttemptOk(s, step, a); }
    else if s.attempts[b].Holding? || s.attempts[b].Failing? {
      OthersSessionsKept(s.sessions, step, a, s.attempts[b].session);
    }
  }

  lemma AttemptStepKeepsCover(s: State, step: Step, f: nat, b: nat)
    requires Inv(s) && IsAttemptStep(step) && step.a in s.attempts && s.store.bumps < U64 - 1
    requires f in s.fencers && b in s.attempts
    ensures Covered(Next(s, step).sessions, s.fencers[f], Next(s, step).attempts[b])
  {
    var a := s.attempts[step.a];
    if b == step.a { MovedAttemptCovered(s, step, a, s.fencers[f]); }
    else if s.attempts[b].Holding? {
      OthersSessionsKept(s.sessions, step, a, s.attempts[b].session);
    }
  }

  lemma AttemptStepKeepsInv(s: State, step: Step)
    requires Inv(s) && IsAttemptStep(step) && step.a in s.attempts && s.store.bumps < U64 - 1
    ensures Inv(Next(s, step))
  {
    var a, t := s.attempts[step.a], Next(s, step);
    NextSessionsListed(s.sessions, step, a);
    MovedAttemptOk(s, step, a);
    forall b <- t.attempts ensures AttemptOk(t.store, t.sessions, t.attempts[b]) {
      AttemptStepKeepsAttempts(s, step, b);
    }
    forall f <- t.fencers, b <- t.attempts ensures Covered(t.sessions, t.fencers[f], t.attempts[b]) {
      AttemptStepKeepsCover(s, step, f, b);
    }
  }

  lemma StoreStepKeepsInv(s: State, op: Op)
    requires Inv(s)
    ensures Inv(s.(store := RouteView.Apply(s.store, op)))
  {
    ApplyKeepsConsistent(s.store, op);
    var t := s.(store := RouteView.Apply(s.store, op));
    forall a <- t.attempts ensures AttemptOk(t.store, t.sessions, t.attempts[a]) {
      var x := s.attempts[a];
      if x.Resolved? || x.Holding? { ResolvedAtStays(s.store, op, x.id, x.stamp); }
    }
    forall f <- t.fencers ensures AtLeast(t.store, t.fencers[f].id, t.fencers[f].stamp) {
      AtLeastStays(s.store, op, s.fencers[f].id, s.fencers[f].stamp);
    }
  }

  lemma FlagKeepsInv(s: State, step: Step)
    requires Inv(s) && step.Flag?
    ensures Inv(Next(s, step))
  {
    SR.CancelledListed(s.sessions, step.session);
    var t := Next(s, step);
    forall a <- t.attempts ensures AttemptOk(t.store, t.sessions, t.attempts[a]) {
      assert AttemptOk(s.store, s.sessions, s.attempts[a]);
    }
    forall f <- t.fencers, a <- t.attempts ensures Covered(t.sessions, t.fencers[f], t.attempts[a]) {
      assert Covered(s.sessions, s.fencers[f], s.attempts[a]) && AttemptOk(s.store, s.sessions, s.attempts[a]);
    }
  }

  lemma CollectKeepsInv(s: State, step: Step)
    requires Inv(s) && (step.Collect? || step.Await?)
    ensures Inv(Next(s, step))
  {
    var t := Next(s, step);
    forall f <- t.fencers, a <- t.attempts ensures Covered(t.sessions, t.fencers[f], t.attempts[a]) {
      assert Covered(s.sessions, s.fencers[f], s.attempts[a]) && AttemptOk(s.store, s.sessions, s.attempts[a]);
    }
  }

  lemma ResolveKeepsInv(s: State, step: Step)
    requires Inv(s) && step.Resolve?
    ensures Inv(Next(s, step))
  {
    if Finds(s.store, step.query, step.id) { FoundIsOpen(s.store, step.query, step.id); }
  }

  lemma NewFencerKeepsInv(s: State, f: nat, fencer: Fencer)
    requires Inv(s) && fencer.phase == RoutesRemoved && AtLeast(s.store, fencer.id, fencer.stamp)
    ensures Inv(s.(fencers := s.fencers[f := fencer]))
  {
  }

  lemma FenceKeepsInv(s: State, step: Step)
    requires Inv(s) && step.Fence?
    ensures Inv(Next(s, step))
  {
    var op := FenceOp(step.how, step.id);
    StoreStepKeepsInv(s, op);
    if step.f !in s.fencers && step.id in s.store.instances {
      var store := RouteView.Apply(s.store, op);
      NewFencerKeepsInv(s.(store := store), step.f, Fencer(step.id, store.bumps, step.how, RoutesRemoved));
    }
  }

  lemma NextKeepsInv(s: State, step: Step)
    requires Inv(s) && Next(s, step).store.bumps < U64 - 1
    ensures Inv(Next(s, step))
  {
    match step
    case Write(op) => StoreStepKeepsInv(s, op);
    case Resolve(_, _, _, _) => ResolveKeepsInv(s, step);
    case Fence(_, _, _) => FenceKeepsInv(s, step);
    case Collect(_) => CollectKeepsInv(s, step);
    case Await(_) => CollectKeepsInv(s, step);
    case Flag(_, _) => FlagKeepsInv(s, step);
    case _ => if step.a in s.attempts { AttemptStepKeepsInv(s, step); }
  }

  lemma BumpsOnlyGrow(s: State, step: Step)
    ensures s.store.bumps <= Next(s, step).store.bumps
  {
  }

  lemma {:induction false} RunBumpsOnlyGrow(s: State, steps: seq<Step>)
    ensures s.store.bumps <= Run(s, steps).store.bumps
    decreases |steps|
  {
    if steps != [] {
      BumpsOnlyGrow(s, steps[0]);
      RunBumpsOnlyGrow(Next(s, steps[0]), steps[1..]);
    }
  }

  lemma {:induction false} RunKeepsInv(s: State, steps: seq<Step>)
    requires Inv(s) && Run(s, steps).store.bumps < U64 - 1
    ensures Inv(Run(s, steps))
    decreases |steps|
  {
    if steps != [] {
      RunBumpsOnlyGrow(Next(s, steps[0]), steps[1..]);
      NextKeepsInv(s, steps[0]);
      RunKeepsInv(Next(s, steps[0]), steps[1..]);
    }
  }

  // ---- theorems ----------------------------------------------------------------------------

  /** In every interleaving, once a fence has returned true, every connection still
      holding a route resolved before that fence has been told to close. */
  lemma FenceReachesEveryOlderRoute(start: State, steps: seq<Step>, f: nat, a: nat)
    requires Initial(start) && Consistent(start.store)
    requires Run(start, steps).store.bumps < U64 - 1
    requires var s := Run(start, steps);
             && f in s.fencers && HasReturned(s.fencers[f])
             && a in s.attempts && HasRoute(s.attempts[a])
             && s.attempts[a].id == s.fencers[f].id && s.attempts[a].stamp < s.fencers[f].stamp
    ensures var s := Run(start, steps);
            s.attempts[a].session in s.sessions.live && s.sessions.live[s.attempts[a].session].cancelled
  {
    RunKeepsInv(start, steps);
    var s := Run(start, steps);
    assert AttemptOk(s.store, s.sessions, s.attempts[a]);
    assert Covered(s.sessions, s.fencers[f], s.attempts[a]);
  }

  /** An attempt whose revision is no longer current, and which has no route yet. */
  predicate Doomed(s: State, a: nat, id: string, stamp: nat) {
    && a in s.attempts
    && 1 <= stamp <= s.store.bumps && Stale(s.store, id, stamp)
    && Hopeless(s.attempts[a], id, stamp)
  }

  predicate Hopeless(a: Attempt, id: string, stamp: nat) {
    match a
    case Resolved(i, st, _, _) => i == id && st == stamp
    case Holding(i, st, _, _, _, _) => i == id && st == stamp && !HasRoute(a)
    case _ => true
  }

  lemma DoomedAttemptStays(s: State, step: Step, a: Attempt, id: string, stamp: nat)
    requires Consistent(s.store) && 1 <= stamp <= s.store.bumps < U64 - 1 && Stale(s.store, id, stamp)
    requires Hopeless(a, id, stamp)
    ensures Hopeless(NextAttempt(s, step, a), id, stamp)
  {
    if id in s.store.stamps { RevisionCollision(stamp, s.store.stamps[id]); }
  }

  lemma DoomedStays(s: State, step: Step, a: nat, id: string, stamp: nat)
    requires Consistent(s.store) && Doomed(s, a, id, stamp) && s.store.bumps < U64 - 1
    ensures Doomed(Next(s, step), a, id, stamp)
  {
    if step.Write? {
      StaleStays(s.store, step.op, id, stamp);
    } else if step.Fence? {
      StaleStays(s.store, FenceOp(step.how, step.id), id, stamp);
    } else {
      DoomedAttemptStays(s, step, s.attempts[a], id, stamp);
    }
  }

  /** From the moment a fence removes the routes, an attempt that resolved before
      it and has not been handed a route never will be, whatever follows. */
  lemma {:induction false} LateAttemptNeverReturns(s: State, steps: seq<Step>, f: nat, a: nat)
    requires Inv(s) && Run(s, steps).store.bumps < U64 - 1
    requires f in s.fencers && a in s.attempts && !HasRoute(s.attempts[a])
    requires s.attempts[a].Resolved? || s.attempts[a].Holding?
    requires s.attempts[a].id == s.fencers[f].id && s.attempts[a].stamp < s.fencers[f].stamp
    ensures a in Run(s, steps).attempts && !HasRoute(Run(s, steps).attempts[a])
  {
    assert AttemptOk(s.store, s.sessions, s.attempts[a]);
    assert AtLeast(s.store, s.fencers[f].id, s.fencers[f].stamp);
    DoomedForever(s, steps, a, s.attempts[a].id, s.attempts[a].stamp);
  }

  lemma {:induction false} DoomedForever(s: State, steps: seq<Step>, a: nat, id: string, stamp: nat)
    requires Inv(s) && Doomed(s, a, id, stamp) && Run(s, steps).store.bumps < U64 - 1
    ensures Doomed(Run(s, steps), a, id, stamp)
    decreases |steps|
  {
    if steps != [] {
      BumpsOnlyGrow(s, steps[0]);
      RunBumpsOnlyGrow(Next(s, steps[0]), steps[1..]);
      NextKeepsInv(s, steps[0]);
      DoomedStays(s, steps[0], a, id, stamp);
      DoomedForever(Next(s, steps[0]), steps[1..], a, id, stamp);
    }
  }

  // ---- a connection that nobody interferes with gets through -----------------------------

  predicate ActsOn(step: Step, a: nat) {
    (step.Resolve? || IsAttemptStep(step)) && step.a == a
  }

  predicate NotBy(steps: seq<Step>, a: nat) {
    forall step <- steps :: !ActsOn(step, a)
  }

  /** The step writes or fences the instance; a fence that is already under way does
      nothing when begun again. */
  predicate Touches(s: State, step: Step, id: string) {
    || (step.Write? && Target(step.op) == id)
    || (step.Fence? && step.id == id && step.f !in s.fencers)
  }

  predicate NoneTouches(s: State, steps: seq<Step>, id: string)
    decreases |steps|
  {
    steps == [] || (!Touches(s, steps[0], id) && NoneTouches(Next(s, steps[0]), steps[1..], id))
  }

  /** The instance is still as it was at `stamp`. */
  predicate Unchanged(s: State, id: string, stamp: nat) {
    id in s.store.stamps && s.store.stamps[id] == stamp
  }

  /** For an attempt, that is what the revision check asks. */
  lemma CurrentIffUnchanged(s: State, a: nat)
    requires Inv(s) && s.store.bumps < U64 - 1
    requires a in s.attempts && (s.attempts[a].Resolved? || s.attempts[a].Holding?)
    ensures Current(s.store, s.attempts[a]) <==> Unchanged(s, s.attempts[a].id, s.attempts[a].stamp)
  {
    assert AttemptOk(s.store, s.sessions, s.attempts[a]);
    CurrentIsExact(s.store, s.attempts[a].id, s.attempts[a].stamp);
  }

  lemma OpChangesIff(v: View, op: Op, id: string, stamp: nat)
    requires Consistent(v) && AtLeast(v, id, stamp)
    ensures AtLeast(RouteView.Apply(v, op), id, stamp)
    ensures var w := RouteView.Apply(v, op);
            id in w.stamps && w.stamps[id] == stamp <==> id in v.stamps && v.stamps[id] == stamp && Target(op) != id
  {
    AtLeastStays(v, op, id, stamp);
    if Target(op) != id { OthersAlike(v, op, id); }
  }

  lemma StepChangesIff(s: State, step: Step, id: string, stamp: nat)
    requires Consistent(s.store) && AtLeast(s.store, id, stamp)
    ensures AtLeast(Next(s, step).store, id, stamp)
    ensures Unchanged(Next(s, step), id, stamp) <==> Unchanged(s, id, stamp) && !Touches(s, step, id)
  {
    if step.Write? {
      OpChangesIff(s.store, step.op, id, stamp);
    } else if step.Fence? {
      OpChangesIff(s.store, FenceOp(step.how, step.id), id, stamp);
    }
  }

  /** While an attempt pauses, it stays where it is, and its instance stays as it was
      exactly if nobody touches it. */
  lemma {:induction false} Pause(s: State, others: seq<Step>, a: nat, id: string, stamp: nat)
    requires Inv(s) && Run(s, others).store.bumps < U64 - 1 && AtLeast(s.store, id, stamp)
    requires a in s.attempts && NotBy(others, a)
    ensures var t := Run(s, others);
            && Inv(t) && AtLeast(t.store, id, stamp) && a in t.attempts && t.attempts[a] == s.attempts[a]
            && (Unchanged(t, id, stamp) <==> Unchanged(s, id, stamp) && NoneTouches(s, others, id))
    decreases |others|
  {
    if others != [] {
      assert others[0] in others;
      RunBumpsOnlyGrow(Next(s, others[0]), others[1..]);
      NextKeepsInv(s, others[0]);
      StepChangesIff(s, others[0], id, stamp);
      StepBySomeoneElse(s, others[0], a);
      Pause(Next(s, others[0]), others[1..], a, id, stamp);
    }
  }

  lemma StepBySomeoneElse(s: State, step: Step, a: nat)
    requires a in s.attempts && !ActsOn(step, a)
    ensures a in Next(s, step).attempts && Next(s, step).attempts[a] == s.attempts[a]
  {
  }

  /** A lookup that finds an instance starts an attempt at its present state. */
  lemma ResolveStarts(s: State, a: nat, query: Query, id: string, kind: Kind)
    requires Inv(s) && a !in s.attempts && Finds(s.store, query, id)
    ensures var t := Next(s, Resolve(a, query, id, kind));
            && a in t.attempts && t.attempts[a].Resolved? && t.attempts[a].id == id && t.attempts[a].kind == kind
            && t.attempts[a].limit == ConnectionLimit(t.store.instances[id])
            && Unchanged(t, id, t.attempts[a].stamp) && Inv(t)
  {
    FoundIsOpen(s.store, query, id);
    ResolveKeepsInv(s, Resolve(a, query, id, kind));
  }

  /** MongoDB resolves again before it opens a session: it goes on exactly if the same
      instance is found and still the same. */
  lemma ActivationIff(s: State, a: nat, query: Query)
    requires Inv(s) && s.store.bumps < U64 - 1
    requires a in s.attempts && s.attempts[a].Resolved? && s.attempts[a].kind == MongoLike
    ensures var x, y := s.attempts[a], Next(s, Reresolve(a, query)).attempts[a];
            if Finds(s.store, query, x.id) && Unchanged(s, x.id, x.stamp)
            then y == Resolved(x.id, x.stamp, x.limit, Plain) else y == Closed
  {
    CurrentIffUnchanged(s, a);
  }

  /** A session is opened unless the quota is full, for PostgreSQL always, as pending. */
  lemma SessionOpens(s: State, a: nat)
    requires Inv(s) && s.store.bumps < U64 - 1
    requires a in s.attempts && s.attempts[a].Resolved? && s.attempts[a].kind != MongoLike
    ensures var x, t := s.attempts[a], Next(s, OpenSession(a));
            var y := t.attempts[a];
            && Inv(t) && t.store == s.store
            && (y.Holding? <==> x.kind == PostgresLike || !SR.Full(s.sessions, x.id, x.limit))
            && (y.Holding? ==> && y.id == x.id && y.stamp == x.stamp && y.limit == x.limit && y.kind == x.kind
                               && y.phase == Opened
                               && y.session in t.sessions.live
                               && t.sessions.live[y.session] == SR.Session(x.id, x.kind == Plain, false))
  {
    AttemptStepKeepsInv(s, OpenSession(a));
  }

  /** Attempt `a`, which was `x` with its session, has come to `phase` or has failed: not
      without reason, that is, not while it is `alive` and its instance unchanged. */
  ghost predicate OnTrack(s: State, a: nat, x: Attempt, phase: Phase, alive: bool)
    requires x.Holding?
  {
    && Inv(s) && a in s.attempts && AtLeast(s.store, x.id, x.stamp)
    && (s.attempts[a] == x.(phase := phase) || s.attempts[a] == Failing(x.id, x.session))
    && (alive && Unchanged(s, x.id, x.stamp) ==> s.attempts[a] == x.(phase := phase))
    && (!alive ==> s.attempts[a].Failing?)
  }

  /** A check moves it on if and only if it is alive and its instance unchanged. */
  lemma CheckOnTrack(s: State, a: nat, x: Attempt, phase: Phase, next: Phase, alive: bool)
    requires x.Holding? && OnTrack(s, a, x, phase, alive) && s.store.bumps < U64 - 1
    requires PhaseAfterCheck(x.(phase := phase)) == Some(next)
    ensures var t := Next(s, Check(a));
            && OnTrack(t, a, x, next, alive) && t.store == s.store
            && (t.attempts[a].Holding? <==> alive && Unchanged(s, x.id, x.stamp))
  {
    if s.attempts[a].Holding? { CurrentIffUnchanged(s, a); }
    AttemptStepKeepsInv(s, Check(a));
  }

  /** An attempt pauses for any steps of others, then checks. */
  function PauseAndCheck(s: State, others: seq<Step>, a: nat): State {
    Next(Run(s, others), Check(a))
  }

  lemma PausedCheck(s: State, others: seq<Step>, a: nat, x: Attempt, phase: Phase, next: Phase, alive: bool)
    requires x.Holding? && OnTrack(s, a, x, phase, alive) && NotBy(others, a)
    requires Run(s, others).store.bumps < U64 - 1 && PhaseAfterCheck(x.(phase := phase)) == Some(next)
    ensures var t := PauseAndCheck(s, others, a);
            && OnTrack(t, a, x, next, alive)
            && (t.attempts[a].Holding? <==> alive && Unchanged(t, x.id, x.stamp))
            && (Unchanged(t, x.id, x.stamp) <==> Unchanged(s, x.id, x.stamp) && NoneTouches(s, others, x.id))
  {
    Pause(s, others, a, x.id, x.stamp);
    CheckOnTrack(Run(s, others), a, x, phase, next, alive);
  }

  lemma PausedCheckFresh(s: State, others: seq<Step>, a: nat)
    requires Inv(s) && a in s.attempts && s.attempts[a].Holding? && PhaseAfterCheck(s.attempts[a]).Some?
    requires NotBy(others, a) && Run(s, others).store.bumps < U64 - 1
    ensures var x, t := s.attempts[a], PauseAndCheck(s, others, a);
            && OnTrack(t, a, x, PhaseAfterCheck(x).value, true)
            && (t.attempts[a].Holding? <==> Unchanged(t, x.id, x.stamp))
            && (Unchanged(t, x.id, x.stamp) <==> Unchanged(s, x.id, x.stamp) && NoneTouches(s, others, x.id))
  {
    var x := s.attempts[a];
    assert AttemptOk(s.store, s.sessions, x);
    PausedCheck(s, others, a, x, x.phase, PhaseAfterCheck(x).value, true);
  }

  /** Whatever others do in between, an attempt with a granted session has its route
      after its second check if and only if nobody wrote or fenced its instance since
      it was resolved. */
  lemma RouteReturnedIff(s: State, a: nat, first: seq<Step>, second: seq<Step>)
    requires Inv(s) && a in s.attempts && s.attempts[a].Holding? && s.attempts[a].phase == Opened
    requires NotBy(first, a) && NotBy(second, a)
    requires Run(PauseAndCheck(s, first, a), second).store.bumps < U64 - 1
    ensures var x, checked := s.attempts[a], PauseAndCheck(s, first, a);
            var t := PauseAndCheck(checked, second, a);
            && Inv(t) && a in t.attempts
            && t.attempts[a] ==
               if && Unchanged(s, x.id, x.stamp) && NoneTouches(s, first, x.id)
                  && NoneTouches(checked, second, x.id)
               then x.(phase := Returned) else Failing(x.id, x.session)
  {
    var x, checked := s.attempts[a], PauseAndCheck(s, first, a);
    RunBumpsOnlyGrow(checked, second);
    PausedCheckFresh(s, first, a);
    PausedCheck(checked, second, a, x, Checked, Returned, true);
  }

  /** The same from the lookup on: once resolved, after any steps of others the attempt
      opens a session unless its quota is full, and then its instance is unchanged if
      and only if nobody has touched it. */
  lemma OpensAfterResolve(s: State, a: nat, others: seq<Step>)
    requires Inv(s) && a in s.attempts && s.attempts[a].Resolved? && s.attempts[a].kind != MongoLike
    requires Unchanged(s, s.attempts[a].id, s.attempts[a].stamp)
    requires NotBy(others, a) && Run(s, others).store.bumps < U64 - 1
    ensures var x, waited := s.attempts[a], Run(s, others);
            var t := Next(waited, OpenSession(a));
            && Inv(t) && a in t.attempts
            && (t.attempts[a].Holding? <==> x.kind == PostgresLike || !SR.Full(waited.sessions, x.id, x.limit))
            && (t.attempts[a].Holding? ==>
                  && t.attempts[a].phase == Opened && t.attempts[a].id == x.id && t.attempts[a].stamp == x.stamp
                  && (Unchanged(t, x.id, x.stamp) <==> NoneTouches(s, others, x.id)))
  {
    var x := s.attempts[a];
    assert AttemptOk(s.store, s.sessions, x);
    Pause(s, others, a, x.id, x.stamp);
    SessionOpens(Run(s, others), a);
  }

  /** A PostgreSQL attempt asks to be authenticated: it is, unless its session has been
      cancelled or does not fit the quota. */
  lemma AuthenticateOnTrack(s: State, a: nat, x: Attempt)
    requires x.Holding? && OnTrack(s, a, x, Rechecked, true) && s.store.bumps < U64 - 1
    ensures var t := Next(s, Authenticate(a));
            && x.session in s.sessions.live && t.store == s.store
            && OnTrack(t, a, x, Authenticated, SR.Admissible(s.sessions, x.session, x.limit))
  {
    assert AttemptOk(s.store, s.sessions, s.attempts[a]);
    SR.AdmittedIff(s.sessions, x.session, x.limit);
    AttemptStepKeepsInv(s, Authenticate(a));
  }

  /** The state in which it asks, after its route was checked once more. */
  function Asking(s: State, a: nat, first: seq<Step>, second: seq<Step>): State {
    Run(PauseAndCheck(s, first, a), second)
  }

  lemma Asked(s: State, a: nat, first: seq<Step>, second: seq<Step>)
    requires Inv(s) && a in s.attempts && s.attempts[a].Holding?
    requires s.attempts[a].phase == Returned && s.attempts[a].kind == PostgresLike
    requires NotBy(first, a) && NotBy(second, a) && Asking(s, a, first, second).store.bumps < U64 - 1
    ensures var x, t := s.attempts[a], Asking(s, a, first, second);
            && OnTrack(t, a, x, Rechecked, true)
            && (Unchanged(t, x.id, x.stamp) <==>
                  && Unchanged(s, x.id, x.stamp) && NoneTouches(s, first, x.id)
                  && NoneTouches(PauseAndCheck(s, first, a), second, x.id))
  {
    var x, rechecked := s.attempts[a], PauseAndCheck(s, first, a);
    RunBumpsOnlyGrow(rechecked, second);
    PausedCheckFresh(s, first, a);
    Pause(rechecked, second, a, x.id, x.stamp);
  }

  lemma ServesOnceAsked(s: State, a: nat, x: Attempt, third: seq<Step>)
    requires x.Holding? && OnTrack(s, a, x, Rechecked, true) && NotBy(third, a)
    requires Run(Next(s, Authenticate(a)), third).store.bumps < U64 - 1
    ensures var answered := Next(s, Authenticate(a));
            var t := PauseAndCheck(answered, third, a);
            && a in t.attempts && x.session in s.sessions.live
            && (t.attempts[a] == x.(phase := Serving) <==>
                  && Unchanged(s, x.id, x.stamp) && NoneTouches(answered, third, x.id)
                  && SR.Admissible(s.sessions, x.session, x.limit))
  {
    var answered := Next(s, Authenticate(a));
    RunBumpsOnlyGrow(answered, third);
    BumpsOnlyGrow(s, Authenticate(a));
    AuthenticateOnTrack(s, a, x);
    PausedCheck(answered, third, a, x, Authenticated, Serving, SR.Admissible(s.sessions, x.session, x.limit));
  }

  /** It serves if and only if nobody writes or fences its instance before the last
      check, and when it asks, its session is not cancelled and fits the quota. */
  lemma PostgresServesIff(s: State, a: nat, first: seq<Step>, second: seq<Step>, third: seq<Step>)
    requires Inv(s) && a in s.attempts && s.attempts[a].Holding?
    requires s.attempts[a].phase == Returned && s.attempts[a].kind == PostgresLike
    requires NotBy(first, a) && NotBy(second, a) && NotBy(third, a)
    requires Run(Next(Asking(s, a, first, second), Authenticate(a)), third).store.bumps < U64 - 1
    ensures var x, asking := s.attempts[a], Asking(s, a, first, second);
            var answered := Next(asking, Authenticate(a));
            var t := PauseAndCheck(answered, third, a);
            && a in t.attempts && x.session in asking.sessions.live
            && (t.attempts[a] == x.(phase := Serving) <==>
                  && Unchanged(s, x.id, x.stamp) && NoneTouches(s, first, x.id)
                  && NoneTouches(PauseAndCheck(s, first, a), second, x.id) && NoneTouches(answered, third, x.id)
                  && SR.Admissible(asking.sessions, x.session, x.limit))
  {
    var asking := Asking(s, a, first, second);
    RunBumpsOnlyGrow(Next(asking, Authenticate(a)), third);
    BumpsOnlyGrow(asking, Authenticate(a));
    Asked(s, a, first, second);
    ServesOnceAsked(asking, a, s.attempts[a], third);
  }

  /** However it ended, hanging up takes its session out of the registry. */
  lemma DisconnectFrees(s: State, a: nat, tenant: string)
    requires Inv(s) && s.store.bumps < U64 - 1
    requires a in s.attempts && (s.attempts[a].Holding? || s.attempts[a].Failing?)
    ensures var x, t := s.attempts[a].session, Next(s, Disconnect(a));
            && t.attempts[a] == Closed && t.sessions.live == s.sessions.live - {x}
            && SR.Authenticated(t.sessions, tenant) == SR.Authenticated(s.sessions, tenant) - {x}
            && x !in SR.Entry(t.sessions, tenant)
  {
    assert AttemptOk(s.store, s.sessions, s.attempts[a]);
    SR.DropForgets(s.sessions, s.attempts[a].session, tenant);
  }

  /** A fence begun closes the instance at once, and pins it if and only if it is to. */
  lemma FenceTakesHold(s: State, f: nat, id: string, how: FenceKind)
    requires Inv(s) && f !in s.fencers && id in s.store.instances
    ensures var t := Next(s, Fence(f, id, how));
            && f in t.fencers && t.fencers[f].phase == RoutesRemoved && t.fencers[f].kind == how
            && Unreachable(t.store, id) && (id in t.store.pinned <==> how == Pin || id in s.store.pinned)
            && t.sessions == s.sessions && t.attempts == s.attempts
  {
    FenceKeepsInv(s, Fence(f, id, how));
    FenceAfter(s.store, FenceOp(how, id));
    FencedIsUnreachable(Next(s, Fence(f, id, how)).store, id);
  }

  // ---- a fence that nobody interferes with returns ----------------------------------------

  /** One flag at a time, until none is left to raise. */
  lemma FlagsRunOut(s: State, f: nat) returns (steps: seq<Step>)
    requires f in s.fencers && s.fencers[f].phase.Cancelling?
    ensures var t := Run(s, steps);
            && f in t.fencers && t.fencers[f] == s.fencers[f].(phase := Cancelling({}))
            && SR.Entry(t.sessions, s.fencers[f].id) == SR.Entry(s.sessions, s.fencers[f].id)
    decreases |s.fencers[f].phase.left|
  {
    var left := s.fencers[f].phase.left;
    if left == {} {
      steps := [];
    } else {
      var x :| x in left;
      var t := Next(s, Flag(f, x));
      var rest := FlagsRunOut(t, f);
      steps := [Flag(f, x)] + rest;
      assert steps[1..] == rest;
    }
  }

  /** Every fence begun can return by its own steps; the waiting kind then needs the
      tenant to have no session left. */
  lemma FenceCanReturn(s: State, f: nat) returns (steps: seq<Step>)
    requires f in s.fencers && s.fencers[f].phase == RoutesRemoved
    requires s.fencers[f].kind == AndWait ==> SR.Entry(s.sessions, s.fencers[f].id) == {}
    ensures f in Run(s, steps).fencers && HasReturned(Run(s, steps).fencers[f])
  {
    var collected := Next(s, Collect(f));
    var flags := FlagsRunOut(collected, f);
    if s.fencers[f].kind == AndWait {
      steps := [Collect(f)] + (flags + [Await(f)]);
      assert steps[1..] == flags + [Await(f)];
      RunConcat(collected, flags, [Await(f)]);
      assert [Await(f)][1..] == [];
    } else {
      steps := [Collect(f)] + flags;
      assert steps[1..] == flags;
    }
  }

  /** The wait is over if and only if all that was collected is flagged and the tenant has
      no session; no other step ends it. */
  lemma AwaitIff(s: State, f: nat)
    requires f in s.fencers && s.fencers[f].kind == AndWait && s.fencers[f].phase != Drained
    ensures Next(s, Await(f)).fencers[f].phase == Drained <==>
            s.fencers[f].phase == Cancelling({}) && SR.Entry(s.sessions, s.fencers[f].id) == {}
    ensures forall step: Step ::
              step != Await(f) && f in Next(s, step).fencers ==> Next(s, step).fencers[f].phase != Drained
  {
  }

  lemma {:induction false} RunConcat(s: State, first: seq<Step>, second: seq<Step>)
    ensures Run(s, first + second) == Run(Run(s, first), second)
    decreases |first|
  {
    if first == [] {
      assert first + second == second;
    } else {
      assert (first + second)[1..] == first[1..] + second;
      RunConcat(Next(s, first[0]), first[1..], second);
    }
  }

  // ---- beyond the returned route: PostgreSQL authenticates afterwards --------------------

  /** An attempt whose revision is no longer current, and which does not serve yet. */
  predicate Unserved(a: Attempt, id: string, stamp: nat) {
    match a
    case Resolved(i, st, _, _) => i == id && st == stamp
    case Holding(i, st, _, _, _, phase) => i == id && st == stamp && phase != Serving
    case _ => true
  }

  lemma UnservedStays(s: State, step: Step, a: Attempt, id: string, stamp: nat)
    requires Consistent(s.store) && 1 <= stamp <= s.store.bumps < U64 - 1 && Stale(s.store, id, stamp)
    requires Unserved(a, id, stamp)
    ensures Unserved(NextAttempt(s, step, a), id, stamp)
  {
    if id in s.store.stamps { RevisionCollision(stamp, s.store.stamps[id]); }
  }

  lemma StaleStaysStale(s: State, step: Step, id: string, stamp: nat)
    requires 1 <= stamp <= s.store.bumps && Stale(s.store, id, stamp)
    ensures 1 <= stamp <= Next(s, step).store.bumps && Stale(Next(s, step).store, id, stamp)
  {
    if step.Write? { StaleStays(s.store, step.op, id, stamp); }
    if step.Fence? { StaleStays(s.store, FenceOp(step.how, step.id), id, stamp); }
  }

  lemma StepKeepsUnserved(s: State, step: Step, a: nat, id: string, stamp: nat)
    requires Consistent(s.store) && 1 <= stamp <= s.store.bumps < U64 - 1 && Stale(s.store, id, stamp)
    requires a in s.attempts && Unserved(s.attempts[a], id, stamp)
    ensures a in Next(s, step).attempts && Unserved(Next(s, step).attempts[a], id, stamp)
  {
    UnservedStays(s, step, s.attempts[a], id, stamp);
  }

  lemma {:induction false} UnservedForever(s: State, steps: seq<Step>, a: nat, id: string, stamp: nat)
    requires Inv(s) && Run(s, steps).store.bumps < U64 - 1
    requires a in s.attempts && 1 <= stamp <= s.store.bumps && Stale(s.store, id, stamp)
    requires Unserved(s.attempts[a], id, stamp)
    ensures a in Run(s, steps).attempts && Unserved(Run(s, steps).attempts[a], id, stamp)
    decreases |steps|
  {
    if steps != [] {
      BumpsOnlyGrow(s, steps[0]);
      RunBumpsOnlyGrow(Next(s, steps[0]), steps[1..]);
      NextKeepsInv(s, steps[0]);
      StaleStaysStale(s, steps[0], id, stamp);
      StepKeepsUnserved(s, steps[0], a, id, stamp);
      UnservedForever(Next(s, steps[0]), steps[1..], a, id, stamp);
    }
  }

  /** From the fence on, an attempt resolved before it that does not serve yet never
      will, even if it already has its route or its authentication. */
  lemma LateAttemptNeverServes(s: State, steps: seq<Step>, f: nat, a: nat)
    requires Inv(s) && Run(s, steps).store.bumps < U64 - 1
    requires f in s.fencers && a in s.attempts && (s.attempts[a].Resolved? || s.attempts[a].Holding?)
    requires s.attempts[a].id == s.fencers[f].id && s.attempts[a].stamp < s.fencers[f].stamp
    requires s.attempts[a].Holding? ==> s.attempts[a].phase != Serving
    ensures var t := Run(s, steps);
            a in t.attempts && !(t.attempts[a].Holding? && t.attempts[a].phase == Serving)
  {
    assert AttemptOk(s.store, s.sessions, s.attempts[a]);
    assert AtLeast(s.store, s.fencers[f].id, s.fencers[f].stamp);
    UnservedForever(s, steps, a, s.attempts[a].id, s.attempts[a].stamp);
  }

  /** Session `x` of attempt `a` is pending, and nothing is left that could admit it:
      its revision is out of date, and if it has a route it is cancelled. */
  predicate Barred(r: SR.Registry, a: Attempt, id: string, stamp: nat, x: nat) {
    && x < r.nextId
    && (x in r.live ==>
          && !r.live[x].authenticated
          && match a
             case Holding(i, st, _, _, session, _) =>
               i == id && st == stamp && session == x && (HasRoute(a) ==> r.live[x].cancelled)
             case Failing(_, session) => session == x
             case _ => false)
  }

  /** Its owner cannot get it admitted. */
  lemma OwnerStaysBarred(s: State, step: Step, a: Attempt, id: string, stamp: nat, x: nat)
    requires Consistent(s.store) && SR.Listed(s.sessions) && IsAttemptStep(step) && Barred(s.sessions, a, id, stamp, x)
    requires 1 <= stamp <= s.store.bumps < U64 - 1 && Stale(s.store, id, stamp)
    ensures Barred(NextSessions(s.sessions, step, a), NextAttempt(s, step, a), id, stamp, x)
  {
    if id in s.store.stamps { RevisionCollision(stamp, s.store.stamps[id]); }
  }

  /** Nobody else touches it. */
  lemma OthersKeepBarred(r: SR.Registry, step: Step, b: Attempt, a: Attempt, id: string, stamp: nat, x: nat)
    requires SR.Listed(r) && Barred(r, a, id, stamp, x)
    requires x in r.live ==> !((b.Holding? || b.Failing?) && b.session == x)
    ensures Barred(NextSessions(r, step, b), a, id, stamp, x)
  {
  }

  lemma StepKeepsBarred(s: State, step: Step, a: nat, id: string, stamp: nat, x: nat)
    requires Inv(s) && s.store.bumps < U64 - 1 && a in s.attempts
    requires 1 <= stamp <= s.store.bumps && Stale(s.store, id, stamp)
    requires Barred(s.sessions, s.attempts[a], id, stamp, x)
    ensures a in Next(s, step).attempts && Barred(Next(s, step).sessions, Next(s, step).attempts[a], id, stamp, x)
  {
    if IsAttemptStep(step) && step.a in s.attempts {
      if step.a == a {
        OwnerStaysBarred(s, step, s.attempts[a], id, stamp, x);
      } else {
        assert !SharesSession(s.attempts[step.a], s.attempts[a]);
        OthersKeepBarred(s.sessions, step, s.attempts[step.a], s.attempts[a], id, stamp, x);
      }
    }
  }

  lemma {:induction false} BarredForever(s: State, steps: seq<Step>, a: nat, id: string, stamp: nat, x: nat)
    requires Inv(s) && Run(s, steps).store.bumps < U64 - 1 && a in s.attempts
    requires 1 <= stamp <= s.store.bumps && Stale(s.store, id, stamp)
    requires Barred(s.sessions, s.attempts[a], id, stamp, x)
    ensures var r := Run(s, steps).sessions; x in r.live ==> !r.live[x].authenticated
    decreases |steps|
  {
    if steps != [] {
      BumpsOnlyGrow(s, steps[0]);
      RunBumpsOnlyGrow(Next(s, steps[0]), steps[1..]);
      NextKeepsInv(s, steps[0]);
      StaleStaysStale(s, steps[0], id, stamp);
      StepKeepsBarred(s, steps[0], a, id, stamp, x);
      BarredForever(Next(s, steps[0]), steps[1..], a, id, stamp, x);
    }
  }

  /** Once a fence has returned, no session that is still pending for a route resolved
      before it is ever authenticated, so none ever counts against the quota. */
  lemma OlderPendingNeverAuthenticated(s: State, steps: seq<Step>, f: nat, a: nat)
    requires Inv(s) && Run(s, steps).store.bumps < U64 - 1
    requires f in s.fencers && HasReturned(s.fencers[f]) && a in s.attempts && s.attempts[a].Holding?
    requires s.attempts[a].id == s.fencers[f].id && s.attempts[a].stamp < s.fencers[f].stamp
    requires s.attempts[a].session in s.sessions.live ==> !s.sessions.live[s.attempts[a].session].authenticated
    ensures var r, x := Run(s, steps).sessions, s.attempts[a].session;
            x in r.live ==> !r.live[x].authenticated
  {
    var x := s.attempts[a];
    assert AttemptOk(s.store, s.sessions, x);
    assert AtLeast(s.store, s.fencers[f].id, s.fencers[f].stamp);
    assert Covered(s.sessions, s.fencers[f], x);
    BarredForever(s, steps, a, x.id, x.stamp, x.session);
  }

  predicate NoRoutes(s: State, id: string) {
    forall a <- s.attempts :: HasRoute(s.attempts[a]) ==> s.attempts[a].id != id
  }

  /** The step opens the instance to traffic: a write of it that publishes. */
  predicate Opens(s: State, step: Step, id: string) {
    step.Write? && Target(step.op) == id && Open(RouteView.Apply(s.store, step.op), id)
  }

  predicate NeverOpened(s: State, steps: seq<Step>, id: string)
    decreases |steps|
  {
    steps == [] || (!Opens(s, steps[0], id) && NeverOpened(Next(s, steps[0]), steps[1..], id))
  }

  /** `fence_and_wait` sees the tenant drained only when no connection holds a
      route to it. */
  lemma DrainedMeansNoRoutes(s: State, f: nat)
    requires Inv(s) && f in s.fencers && s.fencers[f].phase != Drained
    requires Next(s, Await(f)).fencers[f].phase == Drained
    ensures NoRoutes(Next(s, Await(f)), s.fencers[f].id)
  {
    forall a <- s.attempts | HasRoute(s.attempts[a]) ensures s.attempts[a].id != s.fencers[f].id {
      assert AttemptOk(s.store, s.sessions, s.attempts[a]);
    }
  }

  lemma StepKeepsClosed(s: State, step: Step, id: string)
    requires !Open(s.store, id) && !Opens(s, step, id)
    ensures !Open(Next(s, step).store, id)
  {
    if step.Write? && Target(step.op) != id { OthersAlike(s.store, step.op, id); }
    if step.Fence? && step.id != id { OthersAlike(s.store, FenceOp(step.how, step.id), id); }
  }

  lemma ClosedIsNotCurrent(s: State, a: nat, id: string)
    requires Inv(s) && !Open(s.store, id) && s.store.bumps < U64 - 1
    requires a in s.attempts && s.attempts[a].Holding? && s.attempts[a].id == id
    ensures !Current(s.store, s.attempts[a])
  {
    assert AttemptOk(s.store, s.sessions, s.attempts[a]);
    CurrentIsExact(s.store, id, s.attempts[a].stamp);
  }

  lemma StepGivesNoRoute(s: State, step: Step, id: string)
    requires Inv(s) && !Open(s.store, id) && s.store.bumps < U64 - 1 && NoRoutes(s, id)
    ensures NoRoutes(Next(s, step), id)
  {
    if step.Check? && step.a in s.attempts && s.attempts[step.a].Holding? && s.attempts[step.a].id == id {
      ClosedIsNotCurrent(s, step.a, id);
    }
  }

  /** Nobody holds or obtains a route to a closed instance before some write opens it
      again: late attempts may register a session, but none passes the check, even
      where a write of ineligible metadata has lifted the fence. */
  lemma {:induction false} NoRouteWhileClosed(s: State, steps: seq<Step>, id: string)
    requires Inv(s) && Run(s, steps).store.bumps < U64 - 1
    requires !Open(s.store, id) && NeverOpened(s, steps, id)
    ensures !Open(Run(s, steps).store, id)
    ensures NoRoutes(s, id) ==> NoRoutes(Run(s, steps), id)
    decreases |steps|
  {
    if steps != [] {
      BumpsOnlyGrow(s, steps[0]);
      RunBumpsOnlyGrow(Next(s, steps[0]), steps[1..]);
      NextKeepsInv(s, steps[0]);
      StepKeepsClosed(s, steps[0], id);
      if NoRoutes(s, id) { StepGivesNoRoute(s, steps[0], id); }
      NoRouteWhileClosed(Next(s, steps[0]), steps[1..], id);
    }
  }

  /** The operation stores metadata for the instance and may publish it. */
  predicate Carries(op: Op, id: string) {
    (op.Upsert? || op.OpenRoutes? || op.UpsertPreservingFence?) && op.m.id == id
  }

  /** The stop path: writes of ineligible metadata never open the instance. */
  lemma {:induction false} IneligibleWritesNeverOpen(s: State, steps: seq<Step>, id: string)
    requires forall step <- steps :: step.Write? && Carries(step.op, id) ==> !RouteEligible(step.op.m)
    ensures NeverOpened(s, steps, id)
    decreases |steps|
  {
    if steps != [] {
      assert steps[0] in steps;
      IneligibleWritesNeverOpen(Next(s, steps[0]), steps[1..], id);
    }
  }

  lemma DrainIsFinal(s: State, f: nat, later: seq<Step>)
    requires Inv(s) && f in s.fencers && s.fencers[f].phase != Drained && !Open(s.store, s.fencers[f].id)
    requires Next(s, Await(f)).fencers[f].phase == Drained
    requires Run(Next(s, Await(f)), later).store.bumps < U64 - 1
    requires NeverOpened(Next(s, Await(f)), later, s.fencers[f].id)
    ensures NoRoutes(Run(Next(s, Await(f)), later), s.fencers[f].id)
  {
    DrainedMeansNoRoutes(s, f);
    CollectKeepsInv(s, Await(f));
    NoRouteWhileClosed(Next(s, Await(f)), later, s.fencers[f].id);
  }

  lemma WaitIsFinal(s: State, f: nat, id: string, meanwhile: seq<Step>, later: seq<Step>)
    requires Inv(s) && !Open(s.store, id) && NeverOpened(s, meanwhile, id)
    requires var t := Run(s, meanwhile);
             && f in t.fencers && t.fencers[f].id == id && t.fencers[f].phase != Drained
             && Next(t, Await(f)).fencers[f].phase == Drained
             && NeverOpened(Next(t, Await(f)), later, id)
             && Run(Next(t, Await(f)), later).store.bumps < U64 - 1
    ensures NoRoutes(Run(Next(Run(s, meanwhile), Await(f)), later), id)
  {
    var t := Run(s, meanwhile);
    RunBumpsOnlyGrow(Next(t, Await(f)), later);
    RunKeepsInv(s, meanwhile);
    NoRouteWhileClosed(s, meanwhile, id);
    DrainIsFinal(t, f, later);
  }

  lemma FenceCloses(s: State, f: nat, id: string, how: FenceKind)
    requires Inv(s) && f !in s.fencers && id in s.store.instances
    ensures Inv(Next(s, Fence(f, id, how))) && !Open(Next(s, Fence(f, id, how)).store, id)
  {
    FenceKeepsInv(s, Fence(f, id, how));
  }

  /** `fence_and_wait` from its fence to its return and beyond: whatever the other
      threads do in `meanwhile` and `later`, short of a write that opens the instance,
      no connection holds or obtains a route to it once the wait has seen no session. */
  lemma FenceAndWaitIsFinal(s: State, fenced: State, f: nat, id: string, meanwhile: seq<Step>, later: seq<Step>)
    requires Inv(s) && f !in s.fencers && id in s.store.instances && fenced == Next(s, Fence(f, id, AndWait))
    requires NeverOpened(fenced, meanwhile, id)
    requires var t := Run(fenced, meanwhile);
             && f in t.fencers && t.fencers[f].id == id && t.fencers[f].phase != Drained
             && Next(t, Await(f)).fencers[f].phase == Drained
             && NeverOpened(Next(t, Await(f)), later, id)
             && Run(Next(t, Await(f)), later).store.bumps < U64 - 1
    ensures NoRoutes(Run(Next(Run(fenced, meanwhile), Await(f)), later), id)
  {
    FenceCloses(s, f, id, AndWait);
    WaitIsFinal(fenced, f, id, meanwhile, later);
  }

  // ---- the registry over whole runs -----------------------------------------------------------

  predicate QuotaAllowsSome(a: Attempt) {
    a.Resolved? || a.Holding? ==> a.limit != Some(0)
  }

  /** No quota the metadata can give excludes every session. */
  predicate QuotasPositive(s: State) {
    forall a <- s.attempts :: QuotaAllowsSome(s.attempts[a])
  }

  lemma NextKeepsEntries(s: State, step: Step)
    requires Inv(s) && QuotasPositive(s) && SR.NoEmptyEntries(s.sessions)
    ensures QuotasPositive(Next(s, step)) && SR.NoEmptyEntries(Next(s, step).sessions)
  {
    if IsAttemptStep(step) && step.a in s.attempts {
      var a := s.attempts[step.a];
      if step.OpenSession? && a.Resolved? {
        SR.EntriesStayInhabited(s.sessions, a.id, a.limit, true);
        SR.EntriesStayInhabited(s.sessions, a.id, None, false);
      } else if step.Disconnect? && (a.Holding? || a.Failing?) && a.session in s.sessions.live {
        SR.DroppedListed(s.sessions, a.session);
      }
    }
  }

  lemma {:induction false} EntriesStay(s: State, steps: seq<Step>)
    requires Inv(s) && QuotasPositive(s) && SR.NoEmptyEntries(s.sessions) && Run(s, steps).store.bumps < U64 - 1
    ensures SR.NoEmptyEntries(Run(s, steps).sessions)
    decreases |steps|
  {
    if steps != [] {
      RunBumpsOnlyGrow(Next(s, steps[0]), steps[1..]);
      NextKeepsInv(s, steps[0]);
      NextKeepsEntries(s, steps[0]);
      EntriesStay(Next(s, steps[0]), steps[1..]);
    }
  }

  /** In every interleaving the registry has an entry for exactly the tenants with a
      live session. */
  lemma EntryIffLive(start: State, steps: seq<Step>, tenant: string)
    requires Initial(start) && Consistent(start.store) && Run(start, steps).store.bumps < U64 - 1
    ensures var r := Run(start, steps).sessions;
            tenant in r.tenants <==> exists id <- r.live :: r.live[id].tenant == tenant
  {
    RunKeepsInv(start, steps);
    EntriesStay(start, steps);
    var r := Run(start, steps).sessions;
    if tenant in r.tenants {
      var id :| id in r.tenants[tenant];
      assert id in r.live && r.live[id].tenant == tenant;
    }
  }

  // ---- no session outlives its connection -----------------------------------------------------

  predicate Owns(a: Attempt, x: nat) {
    (a.Holding? || a.Failing?) && a.session == x
  }

  predicate HasOwner(s: State, x: nat) {
    exists a <- s.attempts :: Owns(s.attempts[a], x)
  }

  predicate NoOrphans(s: State) {
    forall x <- s.sessions.live :: HasOwner(s, x)
  }

  lemma MoveKeepsOwner(s: State, step: Step, a: Attempt, x: nat)
    requires SR.Listed(s.sessions) && IsAttemptStep(step) && x in NextSessions(s.sessions, step, a).live
    ensures x in s.sessions.live ==> (Owns(a, x) ==> Owns(NextAttempt(s, step, a), x))
    ensures x !in s.sessions.live ==> Owns(NextAttempt(s, step, a), x)
  {
  }

  lemma AttemptStepKeepsOwner(s: State, step: Step, x: nat)
    requires SR.Listed(s.sessions) && NoOrphans(s) && IsAttemptStep(step) && step.a in s.attempts
    requires x in NextSessions(s.sessions, step, s.attempts[step.a]).live
    ensures HasOwner(Next(s, step), x)
  {
    var t := Next(s, step);
    MoveKeepsOwner(s, step, s.attempts[step.a], x);
    if x in s.sessions.live {
      assert HasOwner(s, x);
      var b :| b in s.attempts && Owns(s.attempts[b], x);
      assert b in t.attempts && Owns(t.attempts[b], x);
    } else {
      assert step.a in t.attempts && Owns(t.attempts[step.a], x);
    }
  }

  lemma OtherStepKeepsOwner(s: State, step: Step, x: nat)
    requires HasOwner(s, x) && !IsAttemptStep(step)
    ensures HasOwner(Next(s, step), x)
  {
    var b :| b in s.attempts && Owns(s.attempts[b], x);
    assert b in Next(s, step).attempts && Next(s, step).attempts[b] == s.attempts[b];
  }

  lemma StepKeepsOwner(s: State, step: Step, x: nat)
    requires SR.Listed(s.sessions) && NoOrphans(s) && x in Next(s, step).sessions.live
    ensures HasOwner(Next(s, step), x)
  {
    if IsAttemptStep(step) {
      if step.a in s.attempts { AttemptStepKeepsOwner(s, step, x); }
    } else {
      assert x in s.sessions.live;
      OtherStepKeepsOwner(s, step, x);
    }
  }

  lemma {:induction false} RunKeepsOwners(s: State, steps: seq<Step>)
    requires Inv(s) && NoOrphans(s) && Run(s, steps).store.bumps < U64 - 1
    ensures NoOrphans(Run(s, steps))
    decreases |steps|
  {
    if steps != [] {
      RunBumpsOnlyGrow(Next(s, steps[0]), steps[1..]);
      NextKeepsInv(s, steps[0]);
      forall x <- Next(s, steps[0]).sessions.live ensures HasOwner(Next(s, steps[0]), x) {
        StepKeepsOwner(s, steps[0], x);
      }
      RunKeepsOwners(Next(s, steps[0]), steps[1..]);
    }
  }

  /** In every interleaving each live session belongs to a connection that has not hung
      up, so that none is ever left behind in the registry. */
  lemma NoSessionLeaks(start: State, steps: seq<Step>, x: nat)
    requires Initial(start) && Consistent(start.store) && Run(start, steps).store.bumps < U64 - 1
    requires x in Run(start, steps).sessions.live
    ensures HasOwner(Run(start, steps), x)
  {
    RunKeepsOwners(start, steps);
  }

  // ---- quota over whole runs ------------------------------------------------------------------

  predicate LimitedTo(limit: Option<nat>, bound: nat) {
    limit.Some? && limit.value <= bound
  }

  /** No step writes metadata that gives the tenant a larger quota. */
  predicate WritesWithin(step: Step, tenant: string, bound: nat) {
    step.Write? && (Carries(step.op, tenant) || (step.op.UpsertFenced? && step.op.m.id == tenant)) ==>
      LimitedTo(ConnectionLimit(step.op.m), bound)
  }

  ghost predicate LimitsInv(s: State, tenant: string, bound: nat) {
    && (tenant in s.store.instances ==> LimitedTo(ConnectionLimit(s.store.instances[tenant]), bound))
    && (forall a <- s.attempts | (s.attempts[a].Resolved? || s.attempts[a].Holding?) && s.attempts[a].id == tenant ::
          LimitedTo(s.attempts[a].limit, bound))
  }

  /** Sessions of one step: at most one more authenticated, and only under the limit. */
  lemma SessionsStayWithin(r: SR.Registry, step: Step, a: Attempt, tenant: string, bound: nat)
    requires SR.Listed(r) && |SR.Authenticated(r, tenant)| <= bound
    requires a.Holding? ==> OwnsSession(r, a.id, a.session)
    requires (a.Resolved? || a.Holding?) && a.id == tenant ==> LimitedTo(a.limit, bound)
    ensures |SR.Authenticated(NextSessions(r, step, a), tenant)| <= bound
  {
    match step
    case OpenSession(_) =>
      if a.Resolved? && a.kind != MongoLike {
        if a.kind == Plain {
          SR.InsertedElsewhere(r, a.id, a.limit, true, tenant);
          if a.id == tenant && !SR.Full(r, tenant, a.limit) { SR.InsertGrantWithinLimit(r, tenant, a.limit.value); }
        } else {
          SR.PendingTakesNoQuota(r, a.id, tenant);
        }
      }
    case Authenticate(_) =>
      if a.Holding? && a.phase == Rechecked {
        SR.AfterAuthElsewhere(r, a.session, a.limit, tenant);
        if a.id == tenant && !r.live[a.session].authenticated && SR.AuthOutcome(r, a.session, a.limit) == SR.Admitted {
          SR.AuthGrantWithinLimit(r, a.session, a.limit.value);
        }
      }
    case Disconnect(_) =>
      if (a.Holding? || a.Failing?) && a.session in r.live { SR.DroppedShrinks(r, a.session, tenant); }
    case _ =>
  }

  lemma NextKeepsLimits(s: State, step: Step, tenant: string, bound: nat)
    requires LimitsInv(s, tenant, bound) && WritesWithin(step, tenant, bound)
    ensures LimitsInv(Next(s, step), tenant, bound)
  {
  }

  lemma NextKeepsCount(s: State, step: Step, tenant: string, bound: nat)
    requires Inv(s) && LimitsInv(s, tenant, bound) && |SR.Authenticated(s.sessions, tenant)| <= bound
    ensures |SR.Authenticated(Next(s, step).sessions, tenant)| <= bound
  {
    if step.Flag? {
      SR.CancelledElsewhere(s.sessions, step.session, tenant);
    } else if IsAttemptStep(step) && step.a in s.attempts {
      assert AttemptOk(s.store, s.sessions, s.attempts[step.a]);
      SessionsStayWithin(s.sessions, step, s.attempts[step.a], tenant, bound);
    }
  }

  /** In every interleaving a tenant whose metadata never grants more than `bound`
      connections never has more than `bound` authenticated sessions. */
  lemma {:induction false} QuotaHolds(s: State, steps: seq<Step>, tenant: string, bound: nat)
    requires Inv(s) && Run(s, steps).store.bumps < U64 - 1
    requires LimitsInv(s, tenant, bound) && |SR.Authenticated(s.sessions, tenant)| <= bound
    requires forall step <- steps :: WritesWithin(step, tenant, bound)
    ensures |SR.Authenticated(Run(s, steps).sessions, tenant)| <= bound
    decreases |steps|
  {
    if steps != [] {
      assert steps[0] in steps;
      RunBumpsOnlyGrow(Next(s, steps[0]), steps[1..]);
      NextKeepsInv(s, steps[0]);
      NextKeepsLimits(s, steps[0], tenant, bound);
      NextKeepsCount(s, steps[0], tenant, bound);
      QuotaHolds(Next(s, steps[0]), steps[1..], tenant, bound);
    }
  }
}
