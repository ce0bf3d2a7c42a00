/** Reconciliation of dedicated instances with an arbitrary container engine, from
    boot, container events and runtime snapshots, down to what the route store
    publishes afterwards. */
module Reconcile {
  import opened Metadata
  import opened Basics
  import opened RouteView

  datatype ContainerStatus =
    ContainerRunning | ContainerCreated | ContainerStarting | ContainerStopped | ContainerFailed

  datatype Inspection = Seen(status: ContainerStatus, network: Option<string>) | Missing | InspectFailed

  datatype StopResult = StopDone | AlreadyStopped | StopFailed

  /** The engine's answers during one reconciliation, each of them arbitrary. */
  datatype Engine = Engine(stopInspection: Inspection, stop: StopResult, inspection: Inspection)

  predicate IsActive(s: ContainerStatus) {
    s == ContainerRunning || s == ContainerStarting
  }

  function Classify(s: ContainerStatus): Status {
    match s
    case ContainerRunning => Running
    case ContainerCreated => Stopped
    case ContainerStarting => Booting
    case ContainerStopped => Stopped
    case ContainerFailed => Failed
  }

  predicate Isolated(m: Instance, i: Inspection) {
    i.Seen? && i.network == Some("none") && m.backend.UnixSocket?
  }

  /** `stop_inactive_instance`. */
  predicate StoppedForSure(e: Engine) {
    match e.stopInspection
    case Missing => true
    case InspectFailed => false
    case Seen(status, _) => !IsActive(status) || e.stop != StopFailed
  }

  function ReconcileMetadata(m: Instance, e: Engine): Instance {
    if !e.inspection.Seen? then m.(status := Failed)
    else if Isolated(m, e.inspection) then m.(status := Classify(e.inspection.status))
    else m.(status := Quarantined, desired := WantStopped)
  }

  function ReconcileOne(m: Instance, e: Engine): Instance {
    var asked := if m.status == Quarantined then m.(desired := WantStopped) else m;
    if asked.desired == WantRunning then ReconcileMetadata(asked, e)
    else if asked.status == Quarantined then asked
    else if !StoppedForSure(e) then asked.(status := Failed)
    else ReconcileMetadata(asked, e)
  }

  /** The reconciliation reached its own inspection and found a container that is
      not isolated. */
  predicate Mismatch(m: Instance, e: Engine) {
    && m.status != Quarantined
    && (m.desired == WantStopped ==> StoppedForSure(e))
    && e.inspection.Seen? && !Isolated(m, e.inspection)
  }

  datatype Action = Started | StoppedAction | Exited(code: Option<int>) | Destroyed | OutOfMemory | Paused | Resumed

  predicate Activates(a: Action) {
    a == Started || a == Resumed
  }

  predicate Deactivates(a: Action) {
    !Activates(a)
  }

  predicate UnexpectedFailure(a: Action) {
    a.OutOfMemory? || (a.Exited? && a.code.Some? && a.code.value != 0)
  }

  /** What an event says, and what looking up its container gave. */
  datatype ContainerEvent = ContainerEvent(
    protocol: Protocol, action: Action, lookupFailed: bool, fromOldContainer: bool)

  /** Answers met on the event and snapshot path before reconciliation proper. */
  datatype Surroundings = Surroundings(probe: Inspection, activationFailed: bool)

  datatype Outcome = Outcome(activated: bool, result: Option<Instance>)

  const NOTHING := Outcome(false, None)

  predicate ForcedToFail(previous: Status, event: Option<ContainerEvent>, around: Surroundings) {
    || around.activationFailed
    || (event.Some? && UnexpectedFailure(event.value.action) && previous in {Booting, Running, Failed})
    || (event.Some? && Deactivates(event.value.action) && previous == Failed)
  }

  /** `reconcile_container_state`: whether the activation path fenced the routes, and
      the metadata to persist, if any. */
  function ContainerOutcome(m: Instance, event: Option<ContainerEvent>, around: Surroundings, e: Engine): Outcome {
    if m.mode == Shared then NOTHING
    else if event.Some? && event.value.protocol != m.protocol then NOTHING
    else if m.status == Deleting || m.status == Quarantined then NOTHING
    else if m.desired == WantStopped then Outcome(false, Some(ReconcileOne(m, e)))
    else if event.Some? && (event.value.lookupFailed || event.value.fromOldContainer) then NOTHING
    else if event.None? && m.status != Running && around.probe.InspectFailed? then NOTHING
    else
      var activated := if event.Some? then Activates(event.value.action)
                       else m.status != Running && around.probe.Seen? && IsActive(around.probe.status);
      var reconciled := ReconcileOne(m, e);
      var failed := ForcedToFail(m.status, event, around);
      Outcome(activated, Some(if failed then reconciled.(status := Failed) else reconciled))
  }

  /** `persist_reconciled` through the manager: durable first, then memory; a fresh
      quarantine fences before the durable write. */
  function Persist(v: View, previous: Status, m: Instance, durable: bool): View {
    if previous != Quarantined && m.status == Quarantined then
      var fenced := Apply(v, FenceRoutes(m.id));
      if durable then Apply(fenced, UpsertFenced(m)) else fenced
    else if durable then Apply(v, Upsert(m)) else v
  }

  datatype Step =
    | Boot(id: string, engine: Engine, durable: bool)
    | React(id: string, event: Option<ContainerEvent>, around: Surroundings, engine: Engine, durable: bool)

  function OutcomeOf(v: View, step: Step): Outcome {
    if step.id !in v.instances then NOTHING
    else match step
      case Boot(id, engine, _) =>
        if v.instances[id].mode == Dedicated
        then Outcome(false, Some(ReconcileOne(v.instances[id], engine))) else NOTHING
      case React(id, event, around, engine, _) => ContainerOutcome(v.instances[id], event, around, engine)
  }

  function Next(v: View, step: Step): View {
    var outcome := OutcomeOf(v, step);
    var w := if outcome.activated then Apply(v, FenceRoutes(step.id)) else v;
    if outcome.result.None? || step.id !in v.instances then w
    else Persist(w, v.instances[step.id].status, outcome.result.value, step.durable)
  }

  function Run(v: View, steps: seq<Step>): View
    decreases |steps|
  {
    if steps == [] then v else Run(Next(v, steps[0]), steps[1..])
  }

  // ---- one step ----------------------------------------------------------------------------

  lemma FenceStoresNothing(v: View, id: string)
    requires Consistent(v)
    ensures Consistent(Apply(v, FenceRoutes(id))) && Apply(v, FenceRoutes(id)).instances == v.instances
  {
    ApplyKeepsConsistent(v, FenceRoutes(id));
  }

  lemma UpsertFencedStores(v: View, m: Instance)
    requires Consistent(v)
    ensures Consistent(Apply(v, UpsertFenced(m))) && Apply(v, UpsertFenced(m)).instances == v.instances[m.id := m]
  {
    ApplyKeepsConsistent(v, UpsertFenced(m));
  }

  lemma UpsertStores(v: View, m: Instance)
    requires Consistent(v)
    ensures Consistent(Apply(v, Upsert(m))) && Apply(v, Upsert(m)).instances == v.instances[m.id := m]
  {
    ApplyKeepsConsistent(v, Upsert(m));
  }

  lemma PersistStores(v: View, previous: Status, m: Instance, durable: bool)
    requires Consistent(v)
    ensures Consistent(Persist(v, previous, m, durable))
    ensures Persist(v, previous, m, durable).instances == if durable then v.instances[m.id := m] else v.instances
  {
    if previous != Quarantined && m.status == Quarantined {
      FenceStoresNothing(v, m.id);
      UpsertFencedStores(Apply(v, FenceRoutes(m.id)), m);
    } else {
      UpsertStores(v, m);
    }
  }

  lemma OutcomeKeepsId(v: View, step: Step)
    requires Consistent(v) && OutcomeOf(v, step).result.Some?
    ensures OutcomeOf(v, step).result.value.id == step.id
  {
  }

  /** A step changes the stored metadata of its own instance only, to exactly the
      result it reached, and only if that was made durable. */
  lemma StoredAfter(v: View, step: Step)
    requires Consistent(v)
    ensures Consistent(Next(v, step))
    ensures var o := OutcomeOf(v, step);
            Next(v, step).instances ==
            if o.result.Some? && step.durable then v.instances[step.id := o.result.value] else v.instances
  {
    var o := OutcomeOf(v, step);
    FenceStoresNothing(v, step.id);
    var w := if o.activated then Apply(v, FenceRoutes(step.id)) else v;
    if o.result.Some? {
      OutcomeKeepsId(v, step);
      PersistStores(w, v.instances[step.id].status, o.result.value, step.durable);
    }
  }

  // ---- the result, on the engine's answers -----------------------------------------------------

  /** The inspection saw an isolated container in that state: no network, and a backend
      behind a Unix socket. */
  predicate Sees(m: Instance, e: Engine, status: ContainerStatus) {
    e.inspection == Seen(status, Some("none")) && m.backend.UnixSocket?
  }

  /** An instance meant to be stopped is, as far as the engine tells: its container is
      missing, is neither running nor starting, or was stopped just now. */
  predicate Halted(e: Engine) {
    match e.stopInspection
    case Missing => true
    case InspectFailed => false
    case Seen(status, _) =>
      status !in {ContainerRunning, ContainerStarting} || e.stop == StopDone || e.stop == AlreadyStopped
  }

  /** Reconciliation proper, for any answers of the engine: which status results, and
      that nothing else changes but that a quarantine is meant to stay stopped. */
  lemma ReconciledStatusIff(m: Instance, e: Engine)
    requires m.status != Quarantined
    ensures var r, asked := ReconcileOne(m, e), m.desired == WantRunning || Halted(e);
            && (r.status == Running <==> asked && Sees(m, e, ContainerRunning))
            && (r.status == Booting <==> asked && Sees(m, e, ContainerStarting))
            && (r.status == Stopped <==> asked && (Sees(m, e, ContainerCreated) || Sees(m, e, ContainerStopped)))
            && (r.status == Failed <==> !asked || !e.inspection.Seen? || Sees(m, e, ContainerFailed))
            && (r.status == Quarantined <==>
                  asked && e.inspection.Seen? && (e.inspection.network != Some("none") || !m.backend.UnixSocket?))
    ensures var r := ReconcileOne(m, e);
            && r == m.(status := r.status, desired := r.desired)
            && (r.desired == WantStopped <==> m.desired == WantStopped || r.status == Quarantined)
  {
  }

  lemma QuarantinedIsLeftAlone(m: Instance, e: Engine)
    requires m.status == Quarantined
    ensures ReconcileOne(m, e) == m.(desired := WantStopped)
  {
  }

  /** Which steps get to reconcile an instance: never a shared one; an event or a
      snapshot neither one being deleted nor a quarantined one, an event only for its
      own protocol; and, unless the instance is meant to be stopped, an event only from
      its present container, a snapshot only if it could look. */
  predicate Reached(m: Instance, step: Step) {
    && m.mode == Dedicated
    && (step.React? ==>
          && m.status !in {Deleting, Quarantined}
          && (step.event.Some? ==> step.event.value.protocol == m.protocol)
          && (m.desired == WantRunning ==>
                if step.event.Some? then !step.event.value.lookupFailed && !step.event.value.fromOldContainer
                else m.status == Running || !step.around.probe.InspectFailed?))
  }

  /** The event or snapshot found the container come up. */
  predicate CameUp(m: Instance, step: Step) {
    && step.React? && m.desired == WantRunning && Reached(m, step)
    && (if step.event.Some? then step.event.value.action in {Started, Resumed}
        else && m.status != Running && step.around.probe.Seen?
             && step.around.probe.status in {ContainerRunning, ContainerStarting})
  }

  /** The step reports a failure whatever the inspection shows: readiness or hardening
      failed, the container died of itself, or a failed one went down. */
  predicate FailsAnyway(m: Instance, step: Step) {
    && step.React? && m.desired == WantRunning
    && (|| step.around.activationFailed
        || (step.event.Some? && Died(step.event.value.action) && m.status in {Booting, Running, Failed})
        || (step.event.Some? && m.status == Failed && step.event.value.action !in {Started, Resumed}))
  }

  predicate Died(a: Action) {
    match a
    case OutOfMemory => true
    case Exited(code) => code.Some? && code.value != 0
    case _ => false
  }

  lemma ReachedIff(v: View, step: Step)
    requires step.id in v.instances
    ensures OutcomeOf(v, step).result.Some? <==> Reached(v.instances[step.id], step)
    ensures OutcomeOf(v, step).activated <==> CameUp(v.instances[step.id], step)
  {
  }

  /** The result of a step that reconciles, boot, event or snapshot. */
  lemma ResultIs(v: View, step: Step)
    requires step.id in v.instances && Reached(v.instances[step.id], step)
    ensures OutcomeOf(v, step).result.Some?
    ensures var m := v.instances[step.id];
            var plain := ReconcileOne(m, step.engine);
            OutcomeOf(v, step).result.value == if FailsAnyway(m, step) then plain.(status := Failed) else plain
  {
  }

  /** Hence for one meant to run: the result is running if and only if the step's own
      inspection saw an isolated running container, and nothing made it fail anyway. */
  lemma RunningIff(v: View, step: Step)
    requires step.id in v.instances && Reached(v.instances[step.id], step)
    requires v.instances[step.id].desired == WantRunning && v.instances[step.id].status != Quarantined
    ensures OutcomeOf(v, step).result.Some?
    ensures OutcomeOf(v, step).result.value.status == Running <==>
            Sees(v.instances[step.id], step.engine, ContainerRunning) && !FailsAnyway(v.instances[step.id], step)
  {
    ResultIs(v, step);
    ReconciledStatusIff(v.instances[step.id], step.engine);
  }

  /** The step finds the container not isolated, and says so. */
  predicate Quarantines(m: Instance, step: Step) {
    && m.status != Quarantined && (m.desired == WantRunning || Halted(step.engine))
    && step.engine.inspection.Seen? && (step.engine.inspection.network != Some("none") || !m.backend.UnixSocket?)
    && !FailsAnyway(m, step)
  }

  /** What a step does to the instance's traffic, on its inputs.  A stored result opens
      the instance exactly if it is running, meant to run, within its disk limit and not
      pinned; a result that could not be stored leaves it open exactly if nothing
      fenced it first. */
  lemma OpenAfterStepIff(v: View, step: Step)
    requires Consistent(v) && step.id in v.instances
    ensures var m := v.instances[step.id];
            Open(Next(v, step), step.id) <==>
            if !Reached(m, step) then Open(v, step.id)
            else if step.durable then
              && m.status != Quarantined && m.desired == WantRunning && !m.diskLimitBlocked && step.id !in v.pinned
              && Sees(m, step.engine, ContainerRunning) && !FailsAnyway(m, step)
            else Open(v, step.id) && !CameUp(m, step) && !Quarantines(m, step)
  {
    ReachedIff(v, step);
    if Reached(v.instances[step.id], step) {
      ResultIs(v, step);
      OpenAfterPersist(v, step);
    }
  }

  lemma OpenAfterPersist(v: View, step: Step)
    requires Consistent(v) && step.id in v.instances && OutcomeOf(v, step).result.Some?
    ensures var m, r := v.instances[step.id], OutcomeOf(v, step).result.value;
            Open(Next(v, step), step.id) <==>
            if step.durable then
              r.status == Running && r.desired == WantRunning && !m.diskLimitBlocked && step.id !in v.pinned
            else
              && Open(v, step.id) && !OutcomeOf(v, step).activated
              && (m.status == Quarantined || r.status != Quarantined)
  {
    OutcomeKeepsId(v, step);
  }

  /** Every `Running` a step persists comes from its own inspection of a container
      with no network, behind a Unix socket. */
  lemma RunningMeansInspected(v: View, step: Step)
    requires Consistent(v)
    requires OutcomeOf(v, step).result.Some? && OutcomeOf(v, step).result.value.status == Running
    ensures var i := step.engine.inspection;
            && i.Seen? && i.status == ContainerRunning && i.network == Some("none")
            && v.instances[step.id].backend.UnixSocket?
  {
  }

  /** For an open instance: whether the step gets to reconcile it at all. */
  predicate Reconciles(m: Instance, step: Step) {
    && m.mode == Dedicated
    && (step.React? && step.event.Some? ==>
          && step.event.value.protocol == m.protocol
          && !step.event.value.lookupFailed && !step.event.value.fromOldContainer)
  }

  lemma OpenReconcilesIff(v: View, step: Step)
    requires Open(v, step.id)
    ensures OutcomeOf(v, step).result.Some? <==> Reconciles(v.instances[step.id], step)
  {
  }

  /** The answers under which an unisolated container keeps its open route: an event
      or snapshot whose failure rewrites the quarantine, no activation to fence
      first, and a durable write that fails. */
  predicate RewriteLost(step: Step) {
    && step.React? && !step.durable
    && ForcedToFail(Running, step.event, step.around)
    && (step.event.Some? ==> !Activates(step.event.value.action))
  }

  /** An open instance whose container is found not isolated is closed if and only if
      the step gets to reconcile it and the rewrite is not lost. */
  lemma MismatchClosesRouteIff(v: View, step: Step)
    requires Consistent(v) && Open(v, step.id)
    requires step.engine.inspection.Seen? && !Isolated(v.instances[step.id], step.engine.inspection)
    ensures !Open(Next(v, step), step.id) <==> Reconciles(v.instances[step.id], step) && !RewriteLost(step)
    ensures Reconciles(v.instances[step.id], step) ==> OutcomeOf(v, step).result.value.desired == WantStopped
  {
    OpenReconcilesIff(v, step);
  }

  /** Such an input: the container ran out of memory, is found on a bridge network,
      and the result cannot be stored. */
  lemma UnisolatedRouteStaysOpen(m: Instance)
    requires RouteEligible(m) && m.mode == Dedicated && m.backend.UnixSocket?
    ensures var event := ContainerEvent(m.protocol, OutOfMemory, false, false);
            var found := Seen(ContainerRunning, Some("bridge"));
            var step := React(m.id, Some(event), Surroundings(found, false), Engine(found, StopDone, found), false);
            var v := Apply(EMPTY, Upsert(m));
            Mismatch(m, step.engine) && Open(Next(v, step), m.id)
  {
    var event := ContainerEvent(m.protocol, OutOfMemory, false, false);
    var found := Seen(ContainerRunning, Some("bridge"));
    var step := React(m.id, Some(event), Surroundings(found, false), Engine(found, StopDone, found), false);
    ApplyKeepsConsistent(EMPTY, Upsert(m));
    MismatchClosesRouteIff(Apply(EMPTY, Upsert(m)), step);
  }

  // ---- runs ----------------------------------------------------------------------------------

  /** No sequence of reconciliations takes an instance out of quarantine. */
  lemma {:induction false} QuarantineIsAbsorbing(v: View, steps: seq<Step>, id: string)
    requires Consistent(v) && id in v.instances && v.instances[id].status == Quarantined
    ensures id in Run(v, steps).instances && Run(v, steps).instances[id].status == Quarantined
    ensures !Open(Run(v, steps), id)
    decreases |steps|
  {
    if steps != [] {
      StoredAfter(v, steps[0]);
      QuarantineIsAbsorbing(Next(v, steps[0]), steps[1..], id);
    }
  }

  lemma {:induction false} StoppedStaysUnroutable(v: View, steps: seq<Step>, id: string)
    requires Consistent(v) && id in v.instances && v.instances[id].desired == WantStopped
    ensures id in Run(v, steps).instances && Run(v, steps).instances[id].desired == WantStopped
    ensures !Open(Run(v, steps), id)
    decreases |steps|
  {
    if steps != [] {
      StoredAfter(v, steps[0]);
      StoppedStaysUnroutable(Next(v, steps[0]), steps[1..], id);
    }
  }

  /** A mismatch whose result was made durable leaves the instance unroutable for
      every later sequence of reconciliations, even where an event rewrote the fresh
      quarantine to `Failed`. */
  lemma DurableMismatchStaysUnroutable(v: View, step: Step, later: seq<Step>)
    requires Consistent(v) && step.id in v.instances && step.durable
    requires OutcomeOf(v, step).result.Some? && Mismatch(v.instances[step.id], step.engine)
    ensures !Open(Run(Next(v, step), later), step.id)
  {
    StoredAfter(v, step);
    StoppedStaysUnroutable(Next(v, step), later, step.id);
  }
}
