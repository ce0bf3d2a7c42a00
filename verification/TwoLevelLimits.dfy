/** API connections: a global permit first, then the peer's count. */
module ApiAdmission {

  import opened Sums

  type Peer(==, !new, 0) = nat

  /** Opening and leaving connections hold only the global permit. */
  datatype Phase = Opening | Admitted | Leaving

  datatype Conn = Conn(peer: Peer, phase: Phase)

  /** The two limits are at least one, as the constructor makes them. */
  datatype State = State(maxActive: nat, perPeer: nat, free: nat, active: map<Peer, nat>, conns: map<nat, Conn>)

  datatype Step =
    | TakeGlobal(c: nat, peer: Peer)
    | EnterPeer(c: nat)
    | LeavePeer(c: nat)
    | ReturnGlobal(c: nat)

  function Count(active: map<Peer, nat>, p: Peer): nat {
    if p in active then active[p] else 0
  }

  function Next(s: State, step: Step): State {
    match step
    case TakeGlobal(c, p) =>
      if c in s.conns || s.free == 0 then s
      else s.(free := s.free - 1, conns := s.conns[c := Conn(p, Opening)])
    case EnterPeer(c) =>
      if c !in s.conns || s.conns[c].phase != Opening then s else
      var p := s.conns[c].peer;
      if Count(s.active, p) >= s.perPeer then s.(conns := s.conns[c := Conn(p, Leaving)])
      else s.(active := s.active[p := Count(s.active, p) + 1], conns := s.conns[c := Conn(p, Admitted)])
    case LeavePeer(c) =>
      if c !in s.conns || s.conns[c].phase != Admitted then s else
      var p := s.conns[c].peer;
      var left := if Count(s.active, p) == 0 then 0 else Count(s.active, p) - 1;
      s.(active := if left == 0 then s.active - {p} else s.active[p := left],
         conns := s.conns[c := Conn(p, Leaving)])
    case ReturnGlobal(c) =>
      if c !in s.conns || s.conns[c].phase != Leaving then s
      else s.(free := s.free + 1, conns := s.conns - {c})
  }

  function Run(s: State, steps: seq<Step>): State
    decreases |steps|
  {
    if steps == [] then s else Run(Next(s, steps[0]), steps[1..])
  }

  function AtLeastOne(n: nat): nat {
    if n < 1 then 1 else n
  }

  function Start(maxActive: nat, maxPerPeer: nat): State {
    State(AtLeastOne(maxActive), AtLeastOne(maxPerPeer), AtLeastOne(maxActive), map[], map[])
  }

  ghost function Of(conns: map<nat, Conn>, p: Peer): set<nat> {
    set c | c in conns && conns[c] == Conn(p, Admitted)
  }

  ghost function AllAdmitted(conns: map<nat, Conn>): set<nat> {
    set c | c in conns && conns[c].phase == Admitted
  }

  /** The peer's count is its number of admitted connections, no zero is kept. */
  ghost predicate PeerCounted(s: State, p: Peer) {
    Count(s.active, p) == |Of(s.conns, p)| && (p in s.active ==> 1 <= s.active[p] <= s.perPeer)
  }

  ghost predicate Inv(s: State) {
    s.free + |s.conns| == s.maxActive && s.perPeer >= 1 && forall p :: PeerCounted(s, p)
  }

  function Counted(d: Conn, p: Peer): nat {
    if d == Conn(p, Admitted) then 1 else 0
  }

  /** How a connection's new phase changes the number of a peer's admitted ones. */
  lemma OfAfter(conns: map<nat, Conn>, c: nat, d: Conn, p: Peer)
    requires c in conns
    ensures |Of(conns[c := d], p)| == |Of(conns, p)| + Counted(d, p) - Counted(conns[c], p)
  {
    var was, now := Of(conns, p), Of(conns[c := d], p);
    if d == Conn(p, Admitted) { assert now == was + {c}; } else { assert now == was - {c}; }
  }

  lemma OnePeer(s: State, step: Step, p: Peer)
    requires Inv(s)
    ensures PeerCounted(Next(s, step), p)
  {
    var t, c := Next(s, step), step.c;
    assert PeerCounted(s, p);
    if step.TakeGlobal? || step.ReturnGlobal? {
      assert Of(t.conns, p) == Of(s.conns, p);
    } else if t != s {
      OfAfter(s.conns, c, t.conns[c], p);
      assert PeerCounted(s, s.conns[c].peer);
    }
  }

  lemma NextKeepsInv(s: State, step: Step)
    requires Inv(s)
    ensures Inv(Next(s, step))
  {
    var t := Next(s, step);
    forall p ensures PeerCounted(t, p) { OnePeer(s, step, p); }
    if t != s {
      KeysCounted(s.conns, step.c, if step.c in t.conns then t.conns[step.c] else Conn(0, Leaving));
    }
  }

  /** The whole run: capacity is conserved at both levels. */
  lemma {:induction false} RunKeepsInv(maxActive: nat, maxPerPeer: nat, steps: seq<Step>)
    ensures var s := Run(Start(maxActive, maxPerPeer), steps);
            && Inv(s) && s.maxActive == AtLeastOne(maxActive) && s.perPeer == AtLeastOne(maxPerPeer)
  {
    var s := Start(maxActive, maxPerPeer);
    forall p ensures PeerCounted(s, p) { assert Of(s.conns, p) == {}; }
    RunFrom(s, steps);
  }

  lemma {:induction false} RunFrom(s: State, steps: seq<Step>)
    requires Inv(s)
    ensures Inv(Run(s, steps)) && Run(s, steps).maxActive == s.maxActive && Run(s, steps).perPeer == s.perPeer
    decreases |steps|
  {
    if steps != [] {
      NextKeepsInv(s, steps[0]);
      RunFrom(Next(s, steps[0]), steps[1..]);
    }
  }

  ghost function AdmittedAmong(conns: map<nat, Conn>, peers: set<Peer>): set<nat> {
    set c | c in conns && conns[c].phase == Admitted && conns[c].peer in peers
  }

  lemma {:induction false} SumOverPeers(active: map<Peer, nat>, conns: map<nat, Conn>)
    requires forall p <- active :: active[p] == |Of(conns, p)|
    ensures Sum(active) == |AdmittedAmong(conns, active.Keys)|
    decreases |active|
  {
    if active == map[] {
      assert AdmittedAmong(conns, {}) == {};
    } else {
      var p :| p in active;
      assert (active - {p}).Keys == active.Keys - {p};
      SumOverPeers(active - {p}, conns);
      SumWithout(active, p);
      assert AdmittedAmong(conns, active.Keys) == AdmittedAmong(conns, active.Keys - {p}) + Of(conns, p);
    }
  }

  /** In every reachable state the peers' counts add up to the admitted connections,
      within the global cap. */
  lemma CountsSumToLive(s: State)
    requires Inv(s)
    ensures Sum(s.active) == |AllAdmitted(s.conns)| <= s.maxActive
  {
    forall c <- AllAdmitted(s.conns) ensures s.conns[c].peer in s.active {
      assert PeerCounted(s, s.conns[c].peer) && c in Of(s.conns, s.conns[c].peer);
    }
    assert forall p <- s.active :: PeerCounted(s, p);
    SumOverPeers(s.active, s.conns);
    assert AllAdmitted(s.conns) == AdmittedAmong(s.conns, s.active.Keys);
    SubsetNoLarger(AllAdmitted(s.conns), s.conns.Keys);
  }

  /** Once every connection is gone, both levels are as at the start. */
  lemma AllReturned(s: State)
    requires Inv(s) && s.conns == map[]
    ensures s.free == s.maxActive && s.active == map[]
  {
    forall p ensures p !in s.active { assert PeerCounted(s, p) && Of(s.conns, p) == {}; }
  }

  /** A request alone is admitted exactly when both levels have room; refused, it
      leaves both exactly as they were. */
  lemma RefusedLeavesNoTrace(s: State, c: nat, p: Peer)
    requires Inv(s) && c !in s.conns
    ensures var t := Run(s, [TakeGlobal(c, p), EnterPeer(c), ReturnGlobal(c)]);
            if s.free > 0 && |Of(s.conns, p)| < s.perPeer then c in t.conns && t.conns[c] == Conn(p, Admitted)
            else t == s
  {
    assert PeerCounted(s, p);
    var t1 := Next(s, TakeGlobal(c, p));
    var t2 := Next(t1, EnterPeer(c));
    var t3 := Next(t2, ReturnGlobal(c));
    assert Run(s, [TakeGlobal(c, p), EnterPeer(c), ReturnGlobal(c)]) == t3 by {
      var steps := [TakeGlobal(c, p), EnterPeer(c), ReturnGlobal(c)];
      assert steps[1..] == [EnterPeer(c), ReturnGlobal(c)] && steps[1..][1..] == [ReturnGlobal(c)];
      assert Run(t2, [ReturnGlobal(c)]) == Run(t3, []);
    }
    if s.free == 0 {
      assert t3 == s;
    } else if |Of(s.conns, p)| >= s.perPeer {
      assert t3.conns == s.conns;
    }
  }

  lemma CountedUpAndDown(active: map<Peer, nat>, p: Peer)
    requires p in active ==> active[p] >= 1
    ensures var count := Count(active, p);
            var up := active[p := count + 1];
            Count(up, p) == count + 1 && (if count == 0 then up - {p} else up[p := count]) == active
  {
  }

  lemma EnterAndLeave(s: State, c: nat, p: Peer)
    requires c in s.conns && s.conns[c] == Conn(p, Opening) && (p in s.active ==> s.active[p] >= 1)
    ensures Next(Next(s, EnterPeer(c)), LeavePeer(c)) == s.(conns := s.conns[c := Conn(p, Leaving)])
  {
    CountedUpAndDown(s.active, p);
    assert s.conns[c := Conn(p, Admitted)][c := Conn(p, Leaving)] == s.conns[c := Conn(p, Leaving)];
  }

  /** Coming and going, admitted or not, restores the state exactly. */
  lemma ComeAndGo(s: State, c: nat, p: Peer)
    requires Inv(s) && c !in s.conns
    ensures Next(Next(Next(Next(s, TakeGlobal(c, p)), EnterPeer(c)), LeavePeer(c)), ReturnGlobal(c)) == s
  {
    if s.free > 0 {
      assert PeerCounted(s, p);
      EnterAndLeave(Next(s, TakeGlobal(c, p)), c, p);
      assert s.conns[c := Conn(p, Opening)][c := Conn(p, Leaving)] - {c} == s.conns;
    }
  }
}

/** SQL buffer reservations: the tenant's bytes first, then the global ones. */
module QueryBudget {

  import opened Sums

  const TENANT_BYTES: nat := 32 * 1024 * 1024
  const U32: nat := 0x1_0000_0000

  type Tenant(==, !new, 0) = nat

  /** Opening: only the tenant's bytes are held.  Leaving: only the global ones. */
  datatype Phase = Opening | Live | Leaving

  datatype Request = Request(tenant: Tenant, bytes: nat, phase: Phase)

  /** `free`: the permits left in the semaphore of each budget object. */
  datatype State = State(cap: nat, global: nat, free: map<Tenant, nat>, requests: map<nat, Request>)

  datatype Step =
    | TakeTenant(r: nat, t: Tenant, bytes: nat)
    | TakeGlobal(r: nat)
    | DropTenant(r: nat)
    | DropGlobal(r: nat)

  /** A request whose `TakeGlobal` finds no room goes on with `DropTenant`. */
  function Next(s: State, step: Step): State {
    match step
    case TakeTenant(r, t, bytes) =>
      if r in s.requests || t !in s.free || bytes >= U32 || bytes > s.free[t] then s
      else s.(free := s.free[t := s.free[t] - bytes], requests := s.requests[r := Request(t, bytes, Opening)])
    case TakeGlobal(r) =>
      if r !in s.requests || s.requests[r].phase != Opening || s.requests[r].bytes > s.global then s
      else s.(global := s.global - s.requests[r].bytes, requests := s.requests[r := s.requests[r].(phase := Live)])
    case DropTenant(r) =>
      if r !in s.requests || s.requests[r].phase == Leaving || s.requests[r].tenant !in s.free then s else
      var q := s.requests[r];
      s.(free := s.free[q.tenant := s.free[q.tenant] + q.bytes],
         requests := if q.phase == Live then s.requests[r := q.(phase := Leaving)] else s.requests - {r})
    case DropGlobal(r) =>
      if r !in s.requests || s.requests[r].phase != Leaving then s
      else s.(global := s.global + s.requests[r].bytes, requests := s.requests - {r})
  }

  function Run(s: State, steps: seq<Step>): State
    decreases |steps|
  {
    if steps == [] then s else Run(Next(s, steps[0]), steps[1..])
  }

  /** The two levels; a request holds its bytes at one, both or neither. */
  datatype Level = Global | Of(tenant: Tenant)

  function Held(q: Request, level: Level): nat {
    match level
    case Global => if q.phase != Opening then q.bytes else 0
    case Of(t) => if q.tenant == t && q.phase != Leaving then q.bytes else 0
  }

  function AllHeld(requests: map<nat, Request>, level: Level): map<nat, nat> {
    map r | r in requests :: Held(requests[r], level)
  }

  ghost function Taken(requests: map<nat, Request>, level: Level): nat {
    Sum(AllHeld(requests, level))
  }

  lemma TakenAfter(requests: map<nat, Request>, r: nat, q: Request, level: Level)
    ensures Taken(requests[r := q], level) ==
            Taken(requests, level) + Held(q, level) - (if r in requests then Held(requests[r], level) else 0)
    ensures r in requests ==> Taken(requests - {r}, level) == Taken(requests, level) - Held(requests[r], level)
  {
    assert AllHeld(requests[r := q], level) == AllHeld(requests, level)[r := Held(q, level)];
    SumUpdated(AllHeld(requests, level), r, Held(q, level));
    if r in requests {
      assert AllHeld(requests - {r}, level) == AllHeld(requests, level) - {r};
      SumWithout(AllHeld(requests, level), r);
    }
  }

  ghost predicate Balanced(s: State, level: Level) {
    match level
    case Global => s.global + Taken(s.requests, level) == s.cap
    case Of(t) => t in s.free ==> s.free[t] + Taken(s.requests, level) == TENANT_BYTES
  }

  ghost predicate Inv(s: State) {
    forall level :: Balanced(s, level)
  }

  lemma NextKeepsBalance(s: State, step: Step, level: Level)
    requires Balanced(s, level)
    ensures Balanced(Next(s, step), level)
  {
    var u, r := Next(s, step), step.r;
    if u != s {
      TakenAfter(s.requests, r, if r in u.requests then u.requests[r] else s.requests[r], level);
    }
  }

  lemma {:induction false} RunKeepsInv(s: State, steps: seq<Step>)
    requires Inv(s)
    ensures Inv(Run(s, steps)) && Run(s, steps).cap == s.cap && Run(s, steps).free.Keys == s.free.Keys
    decreases |steps|
  {
    if steps != [] {
      forall level ensures Balanced(Next(s, steps[0]), level) { NextKeepsBalance(s, steps[0], level); }
      RunKeepsInv(Next(s, steps[0]), steps[1..]);
    }
  }

  /** Over every run, for any budgets: what is taken globally is exactly what live or
      leaving reservations hold, and each budget object accounts for its own bytes, so
      neither limit is ever exceeded. */
  lemma RunConserves(cap: nat, tenants: set<Tenant>, steps: seq<Step>)
    ensures var s := Run(State(cap, cap, map t | t in tenants :: TENANT_BYTES, map[]), steps);
            && s.global + Taken(s.requests, Global) == cap && s.free.Keys == tenants
            && forall t <- s.free :: s.free[t] + Taken(s.requests, Of(t)) == TENANT_BYTES
  {
    var start := State(cap, cap, map t | t in tenants :: TENANT_BYTES, map[]);
    forall level ensures Balanced(start, level) { assert AllHeld(start.requests, level) == map[]; }
    RunKeepsInv(start, steps);
    var s := Run(start, steps);
    assert Balanced(s, Global);
    assert forall t <- s.free :: Balanced(s, Of(t));
  }

  /** A reservation that either level refuses leaves both exactly as they were; it
      goes through exactly when it fits in 32 bits and in both. */
  lemma RefusedLeavesNoTrace(s: State, r: nat, t: Tenant, bytes: nat)
    requires r !in s.requests && t in s.free
    ensures var u := Next(Next(s, TakeTenant(r, t, bytes)), TakeGlobal(r));
            if bytes < U32 && bytes <= s.free[t] && bytes <= s.global
            then r in u.requests && u.requests[r] == Request(t, bytes, Live)
            else Next(u, DropTenant(r)) == s
  {
    var u := Next(s, TakeTenant(r, t, bytes));
    if bytes < U32 && s.global < bytes <= s.free[t] {
      assert u.requests - {r} == s.requests;
      assert u.free[t := s.free[t]] == s.free;
    }
  }

  /** Reserving and releasing, granted or not, restores the state exactly. */
  lemma ReserveAndRelease(s: State, r: nat, t: Tenant, bytes: nat)
    requires r !in s.requests && t in s.free
    ensures Next(Next(Next(Next(s, TakeTenant(r, t, bytes)), TakeGlobal(r)), DropTenant(r)), DropGlobal(r)) == s
  {
    var u := Next(s, TakeTenant(r, t, bytes));
    if bytes < U32 && bytes <= s.free[t] {
      assert u.free[t := s.free[t]] == s.free;
      assert u.requests - {r} == s.requests;
      assert s.requests[r := Request(t, bytes, Live)][r := Request(t, bytes, Leaving)] - {r} == s.requests;
    }
  }
}
