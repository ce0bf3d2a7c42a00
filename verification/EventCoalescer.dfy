/** Container events are reconciled one at a time per instance; while an instance
    is busy only its newest event is kept. */
module EventCoalescer {

  import opened Basics
  import opened Sums

  /** `detail` stands for the action and container the event reports, which may well
      be equal for two events.  `arrival` tells them apart: it numbers the events of a
      subscription, is no part of the daemon's data, and decides nothing here. */
  datatype Event = Event(id: string, detail: nat, arrival: nat)

  /** A reconciliation, and how many events had arrived when it was spawned. */
  datatype Task = Task(event: Event, spawned: nat)

  const MAX_RUNNING: nat := 8

  /** What the monitor's event loop wakes up for. */
  datatype Wake = Arrived(id: string, detail: nat) | TaskFinished | StreamEnded | Shutdown

  predicate Ends(wake: Wake) {
    wake.StreamEnded? || wake.Shutdown?
  }

  predicate NoEndIn(wakes: seq<Wake>) {
    forall wake <- wakes :: !Ends(wake)
  }

  lemma NoEndStep(wakes: seq<Wake>, n: nat)
    requires n < |wakes|
    ensures NoEndIn(wakes[..n + 1]) <==> NoEndIn(wakes[..n]) && !Ends(wakes[n])
  {
    assert wakes[..n + 1] == wakes[..n] + [wakes[n]];
  }

  /** The events among what woke the loop, in order of arrival. */
  function Arrivals(wakes: seq<Wake>): seq<Event> {
    if wakes == [] then []
    else
      var rest, last := Arrivals(wakes[..|wakes| - 1]), wakes[|wakes| - 1];
      if last.Arrived? then rest + [Event(last.id, last.detail, |rest|)] else rest
  }

  /** Each instance's newest event. */
  function NewestOf(arrivals: seq<Event>): map<string, Event> {
    if arrivals == [] then map[]
    else
      var n := |arrivals| - 1;
      NewestOf(arrivals[..n])[arrivals[n].id := arrivals[n]]
  }

  /** It is one of the instance's own, and none of its events comes after it. */
  lemma {:induction false} NewestIsLast(arrivals: seq<Event>, id: string)
    requires forall k :: 0 <= k < |arrivals| ==> arrivals[k].arrival == k
    ensures id in NewestOf(arrivals) <==> exists e <- arrivals :: e.id == id
    ensures id in NewestOf(arrivals) ==>
              && NewestOf(arrivals)[id] in arrivals && NewestOf(arrivals)[id].id == id
              && forall e <- arrivals :: e.id == id ==> e.arrival <= NewestOf(arrivals)[id].arrival
  {
    if arrivals != [] {
      var n := |arrivals| - 1;
      NewestIsLast(arrivals[..n], id);
      assert forall e <- arrivals[..n] :: e in arrivals;
      assert forall e <- arrivals :: e in arrivals[..n] || e == arrivals[n];
    }
  }

  lemma {:induction false} ArrivalsNumbered(wakes: seq<Wake>, k: nat)
    requires k < |Arrivals(wakes)|
    ensures Arrivals(wakes)[k].arrival == k
  {
    var init := wakes[..|wakes| - 1];
    if k < |Arrivals(init)| { ArrivalsNumbered(init, k); }
  }

  /** The measure by which waiting and running work runs out. */
  function Work(pending: map<string, Event>, running: multiset<string>): nat {
    2 * |pending| + |running|
  }

  /** At most one task per instance, and none for an instance that is not active. */
  predicate OnePerInstance(running: multiset<string>, active: set<string>) {
    forall id <- running :: id in active && running[id] == 1
  }

  predicate AllRunning(running: multiset<string>, active: set<string>) {
    forall id <- active :: running[id] == 1
  }

  function EventOf(started: map<string, Task>, id: string): Option<Event> {
    if id in started then Some(started[id].event) else None
  }

  /** The newest event of every instance is either the one its newest task was
      spawned for, or waiting. */
  ghost predicate NothingLost(newest: map<string, Event>, started: map<string, Task>, pending: map<string, Event>) {
    forall id :: Get(newest, id) == if id in pending then Get(pending, id) else EventOf(started, id)
  }

  /** Every task was spawned after its event arrived. */
  predicate InTime(started: map<string, Task>, arrived: nat) {
    forall id <- started :: started[id].event.arrival < started[id].spawned <= arrived
  }

  predicate Waits(pending: map<string, Event>, arrived: nat) {
    forall id <- pending :: pending[id].id == id && pending[id].arrival < arrived
  }

  lemma TaskEnds(running: multiset<string>, active: set<string>, id: string)
    requires OnePerInstance(running, active) && id in running
    ensures OnePerInstance(running - multiset{id}, active - {id}) && |running - multiset{id}| == |running| - 1
    ensures OnePerInstance(running - multiset{id}, active)
    ensures AllRunning(running, active) ==> AllRunning(running - multiset{id}, active - {id})
    ensures running - multiset{id} + multiset{id} == running
  {
  }

  lemma TaskStarts(running: multiset<string>, active: set<string>, id: string)
    requires OnePerInstance(running, active) && id !in active
    ensures OnePerInstance(running + multiset{id}, active + {id})
    ensures AllRunning(running, active) ==> AllRunning(running + multiset{id}, active + {id})
  {
  }

  lemma WaitingStarts(newest: map<string, Event>, started: map<string, Task>, pending: map<string, Event>, t: Task)
    requires t.event.id in pending && pending[t.event.id] == t.event
    ensures NothingLost(newest, started, pending) ==>
              NothingLost(newest, started[t.event.id := t], pending - {t.event.id})
  {
  }

  lemma EventWaits(newest: map<string, Event>, started: map<string, Task>, pending: map<string, Event>, e: Event)
    requires NothingLost(newest, started, pending)
    ensures NothingLost(newest[e.id := e], started, pending[e.id := e])
  {
  }

  lemma EventStarts(newest: map<string, Event>, started: map<string, Task>, pending: map<string, Event>, t: Task)
    requires NothingLost(newest, started, pending) && t.event.id !in pending
    ensures NothingLost(newest[t.event.id := t.event], started[t.event.id := t], pending)
  {
  }

  lemma TimePasses(started: map<string, Task>, pending: map<string, Event>, e: Event)
    requires Waits(pending, e.arrival) && InTime(started, e.arrival)
    ensures Waits(pending, e.arrival + 1) && Waits(pending[e.id := e], e.arrival + 1)
    ensures InTime(started, e.arrival + 1)
  {
  }

  lemma OneMoreArrival(arrivals: seq<Event>, e: Event)
    ensures NewestOf(arrivals + [e]) == NewestOf(arrivals)[e.id := e]
  {
    assert (arrivals + [e])[..|arrivals|] == arrivals;
  }

  ghost predicate NoneDies(dies: nat -> bool) {
    forall k :: !dies(k)
  }

  class Coalescer {
    /** Tasks in flight, by the instance they reconcile. */
    var running: multiset<string>
    var active: set<string>
    var pending: map<string, Event>
    /** The number of the next event. */
    var arrived: nat
    /** Each instance's newest event, and its newest task. */
    ghost var newest: map<string, Event>
    ghost var started: map<string, Task>

    /** At most one task per instance and eight in all; an event waits only for an
        instance that counts as busy. */
    ghost predicate Bounded()
      reads this
    {
      && OnePerInstance(running, active)
      && |running| <= MAX_RUNNING
      && pending.Keys <= active
      && Waits(pending, arrived) && InTime(started, arrived)
    }

    /** Busy means running, and no newest event is lost. */
    ghost predicate Faithful()
      reads this
    {
      AllRunning(running, active) && NothingLost(newest, started, pending)
    }

    /** Each instance's newest event was given to a task spawned after it arrived. */
    ghost predicate AllReconciled()
      reads this
    {
      && (forall id :: EventOf(started, id) == Get(newest, id))
      && forall id <- newest :: id in started && newest[id].arrival < started[id].spawned
    }

    constructor ()
      ensures Bounded() && Faithful() && running == multiset{} && arrived == 0 && newest == map[]
    {
      running, active, pending, arrived := multiset{}, {}, map[], 0;
      newest, started := map[], map[];
    }

    method Spawn(event: Event)
      requires event.arrival < arrived && InTime(started, arrived)
      modifies this`running, this`started
      ensures running == old(running) + multiset{event.id}
      ensures started == old(started)[event.id := Task(event, arrived)] && InTime(started, arrived)
    {
      running := running + multiset{event.id};
      started := started[event.id := Task(event, arrived)];
    }

    method StartNew(event: Event)
      requires OnePerInstance(running, active) && event.id !in active
      requires event.arrival < arrived && InTime(started, arrived)
      modifies this`running, this`active, this`started
      ensures OnePerInstance(running, active)
      ensures running == old(running) + multiset{event.id} && active == old(active) + {event.id}
      ensures started == old(started)[event.id := Task(event, arrived)] && InTime(started, arrived)
      ensures old(AllRunning(running, active)) ==> AllRunning(running, active)
    {
      TaskStarts(running, active, event.id);
      active := active + {event.id};
      Spawn(event);
    }

    method Schedule(id: string, detail: nat)
      requires Bounded() && |running| < MAX_RUNNING
      modifies this
      ensures Bounded() && (old(Faithful()) ==> Faithful())
      ensures arrived == old(arrived) + 1 && newest == old(newest)[id := Event(id, detail, old(arrived))]
      ensures if id in old(active) then
                && pending == old(pending)[id := Event(id, detail, old(arrived))]
                && running == old(running) && active == old(active) && started == old(started)
              else
                && pending == old(pending)
                && running == old(running) + multiset{id} && active == old(active) + {id}
                && started == old(started)[id := Task(Event(id, detail, old(arrived)), arrived)]
    {
      var event := Event(id, detail, arrived);
      TimePasses(started, pending, event);
      if id in active {
        if Faithful() { EventWaits(newest, started, pending, event); }
        newest, arrived := newest[id := event], arrived + 1;
        pending := pending[id := event];
      } else {
        if Faithful() { EventStarts(newest, started, pending, Task(event, arrived + 1)); }
        newest, arrived := newest[id := event], arrived + 1;
        StartNew(event);
      }
    }

    /** The event that waited behind the task for `id` starts in its place. */
    method StartWaiting(id: string)
      requires Waits(pending, arrived) && InTime(started, arrived) && id in pending
      modifies this`running, this`pending, this`started
      ensures running == old(running) + multiset{id}
      ensures pending == old(pending) - {id} && |pending| == |old(pending)| - 1 && InTime(started, arrived)
      ensures started == old(started)[id := Task(old(pending)[id], arrived)]
      ensures old(NothingLost(newest, started, pending)) ==> NothingLost(newest, started, pending)
    {
      var event := pending[id];
      KeysCounted(pending, id, event);
      WaitingStarts(newest, started, pending, Task(event, arrived));
      pending := pending - {id};
      Spawn(event);
    }

    method Restart(id: string)
      requires Bounded() && id in running && id in pending
      modifies this`running, this`pending, this`started
      ensures Bounded() && (old(Faithful()) ==> Faithful())
      ensures running == old(running)
      ensures pending == old(pending) - {id} && |pending| == |old(pending)| - 1
      ensures started == old(started)[id := Task(old(pending)[id], arrived)]
    {
      TaskEnds(running, active, id);
      running := running - multiset{id};
      StartWaiting(id);
      assert running == old(running);
    }

    method Free(id: string)
      requires Bounded() && id in running && id !in pending
      modifies this`running, this`active
      ensures Bounded() && (old(Faithful()) ==> Faithful())
      ensures running == old(running) - multiset{id} && |running| < |old(running)| && active == old(active) - {id}
    {
      TaskEnds(running, active, id);
      running := running - multiset{id};
      active := active - {id};
    }

    /** A task for `id` has ended: its waiting event, if any, starts right away; else the
        instance is free again. */
    method Finish(id: string)
      requires Bounded() && id in running
      modifies this`running, this`active, this`pending, this`started
      ensures Bounded()
      ensures old(Faithful()) ==> Faithful()
      ensures Work(pending, running) < Work(old(pending), old(running))
      ensures if id in old(pending) then
                && started == old(started)[id := Task(old(pending)[id], arrived)] && pending == old(pending) - {id}
                && running == old(running) && active == old(active)
              else
                && started == old(started) && pending == old(pending)
                && running == old(running) - multiset{id} && active == old(active) - {id}
    {
      if id in pending { Restart(id); } else { Free(id); }
    }

    /** Waits for one task, any of those running.  If it `died`, the wait ends without
        bookkeeping. */
    method WaitForOne(died: bool) returns (id: string)
      requires Bounded() && running != multiset{}
      modifies this`running, this`active, this`pending, this`started
      ensures Bounded() && (!died && old(Faithful()) ==> Faithful())
      ensures Work(pending, running) < Work(old(pending), old(running))
      ensures id in old(running)
      ensures !died && id in old(pending) ==>
                started == old(started)[id := Task(old(pending)[id], arrived)] && pending == old(pending) - {id}
      ensures !died && id !in old(pending) ==> active == old(active) - {id} && pending == old(pending)
      ensures died ==> running == old(running) - multiset{id} && active == old(active) && pending == old(pending)
    {
      id :| id in running;
      TaskEnds(running, active, id);
      if died {
        running := running - multiset{id};
      } else {
        Finish(id);
      }
    }

    /** Runs every task to the end, waiting events included.  `dies` tells which
        waits, counted on `from`, meet a dead task: the first ends the drain.  If none does, each
        instance's newest event had a task spawned after it arrived, which has ended. */
    method Drain(dies: nat -> bool, from: nat) returns (ok: bool)
      requires Bounded()
      modifies this`running, this`active, this`pending, this`started
      ensures Bounded() && running == multiset{} && active == {} && pending == map[]
      ensures NoneDies(dies) ==> ok
      ensures ok && old(Faithful()) ==> AllReconciled()
    {
      ok := true;
      var waits := from;
      while running != multiset{}
        invariant Bounded() && ok && (old(Faithful()) ==> Faithful())
        decreases Work(pending, running)
      {
        var _ := WaitForOne(dies(waits));
        ok := !dies(waits);
        waits := waits + 1;
        if !ok {
          running := multiset{};
          break;
        }
      }
      assert ok && old(Faithful()) ==> active == {};
      active := {};
      pending := map[];
      AllStarted();
    }

    lemma AllStarted()
      requires InTime(started, arrived) && pending == map[]
      ensures NothingLost(newest, started, pending) ==> AllReconciled()
    {
      if NothingLost(newest, started, pending) {
        forall id <- newest ensures id in started && newest[id].arrival < started[id].spawned {
          assert Get(newest, id) == EventOf(started, id);
        }
      }
    }

    /** One turn of the loop; `died` says whether a finished task is a dead one. */
    method Handle(wake: Wake, died: bool) returns (ok: bool)
      requires Bounded() && Faithful() && |running| < MAX_RUNNING
      modifies this
      ensures Bounded() && (ok ==> Faithful())
      ensures ok <==> !(wake.TaskFinished? && died && old(running) != multiset{})
      ensures arrived == old(arrived) + (if wake.Arrived? then 1 else 0)
      ensures newest == if wake.Arrived? then old(newest)[wake.id := Event(wake.id, wake.detail, old(arrived))]
                        else old(newest)
      ensures wake.TaskFinished? && old(running) != multiset{} ==>
                Work(pending, running) < Work(old(pending), old(running))
      ensures wake.Arrived? ==> wake.id in active && (wake.id !in old(active) ==> wake.id in running)
    {
      ok := true;
      if wake.Arrived? {
        Schedule(wake.id, wake.detail);
      } else if wake.TaskFinished? && running != multiset{} {
        var _ := WaitForOne(died);
        ok := !died;
      }
    }

    /** With eight tasks running the loop only waits; else it takes what woke it. */
    method Turn(wake: Wake, died: bool) returns (ok: bool, taken: bool)
      requires Bounded() && Faithful()
      modifies this
      ensures Bounded() && (ok ==> Faithful()) && (!died ==> ok)
      ensures taken <==> |old(running)| < MAX_RUNNING
      ensures !taken ==> Work(pending, running) < Work(old(pending), old(running))
      ensures var arrives := taken && wake.Arrived?;
              && arrived == old(arrived) + (if arrives then 1 else 0)
              && newest == if arrives then old(newest)[wake.id := Event(wake.id, wake.detail, old(arrived))]
                           else old(newest)
    {
      taken := |running| < MAX_RUNNING;
      if taken {
        ok := Handle(wake, died);
      } else {
        var _ := WaitForOne(died);
        ok := !died;
      }
    }

    /** The loop has been given exactly the events among `wakes`. */
    ghost predicate Given(wakes: seq<Wake>)
      reads this
    {
      arrived == |Arrivals(wakes)| && newest == NewestOf(Arrivals(wakes))
    }

    /** One subscription to the event stream.  `wakes` is what the loop wakes up for, in
        any order; it stops reading events while eight tasks run.  `dies` tells which
        turns, and which waits of the final drain, meet a dead task. */
    method Monitor(wakes: seq<Wake>, dies: nat -> bool) returns (ok: bool, read: nat)
      requires Bounded() && Faithful() && running == multiset{} && arrived == 0 && newest == map[]
      modifies this
      ensures running == multiset{} && active == {} && pending == map[]
      ensures read <= |wakes| && Given(wakes[..read])
      ensures NoneDies(dies) ==> ok
      ensures ok ==> read == |wakes| || (read > 0 && Ends(wakes[read - 1]))
      ensures read > 0 ==> NoEndIn(wakes[..read - 1])
      ensures ok ==> AllReconciled()
    {
      read, ok := 0, true;
      var stopped, turn := false, 0;
      while read < |wakes| && ok && !stopped
        invariant read <= |wakes| && Bounded() && (ok ==> Faithful()) && Given(wakes[..read])
        invariant stopped ==> read > 0 && Ends(wakes[read - 1]) && NoEndIn(wakes[..read - 1])
        invariant !stopped ==> NoEndIn(wakes[..read])
        invariant NoneDies(dies) ==> ok
        decreases |wakes| - read, Work(pending, running)
      {
        GivenOneMore(wakes, read);
        var taken;
        ok, taken := Turn(wakes[read], dies(turn));
        turn := turn + 1;
        if taken {
          NoEndStep(wakes, read);
          stopped := Ends(wakes[read]);
          read := read + 1;
        }
      }
      if read > 0 && !stopped { NoEndStep(wakes, read - 1); }
      var drained := Drain(dies, turn);
      ok := ok && drained;
    }
  }

  lemma GivenOneMore(wakes: seq<Wake>, n: nat)
    requires n < |wakes|
    ensures var before, wake := Arrivals(wakes[..n]), wakes[n];
            if wake.Arrived? then
              var e := Event(wake.id, wake.detail, |before|);
              Arrivals(wakes[..n + 1]) == before + [e]
              && NewestOf(Arrivals(wakes[..n + 1])) == NewestOf(before)[wake.id := e]
            else Arrivals(wakes[..n + 1]) == before
  {
    assert wakes[..n + 1][..n] == wakes[..n];
    if wakes[n].Arrived? {
      OneMoreArrival(Arrivals(wakes[..n]), Event(wakes[n].id, wakes[n].detail, |Arrivals(wakes[..n])|));
    }
  }
}
