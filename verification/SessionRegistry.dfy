/** Live gateway sessions, kept per tenant. */
module SessionRegistry {
  import opened Basics
  import opened Sums

  datatype Session = Session(tenant: string, authenticated: bool, cancelled: bool)

  /** `live` are the sessions some connection still owns; `tenants` is the registry
      map, whose entries list session ids. */
  datatype Registry = Registry(tenants: map<string, set<nat>>, live: map<nat, Session>, nextId: nat)

  const EMPTY := Registry(map[], map[], 0)

  function Entry(r: Registry, tenant: string): set<nat> {
    if tenant in r.tenants then r.tenants[tenant] else {}
  }

  function Authenticated(r: Registry, tenant: string): set<nat> {
    set id | id in Entry(r, tenant) && id in r.live && r.live[id].authenticated
  }

  /** The registry lists exactly the live sessions, each under its own tenant. */
  ghost predicate Listed(r: Registry) {
    && (forall t <- r.tenants, id <- r.tenants[t] :: id in r.live && r.live[id].tenant == t)
    && (forall id <- r.live :: id in Entry(r, r.live[id].tenant) && id < r.nextId)
  }

  predicate NoEmptyEntries(r: Registry) {
    forall t <- r.tenants :: r.tenants[t] != {}
  }

  function StillLive(ids: set<nat>, live: map<nat, Session>): set<nat> {
    set id | id in ids && id in live
  }

  predicate Full(r: Registry, tenant: string, limit: Option<nat>) {
    limit.Some? && |Authenticated(r, tenant)| >= limit.value
  }

  /** `insert`: the entry is created even when the quota then refuses. */
  function Inserted(r: Registry, tenant: string, limit: Option<nat>, authenticated: bool): Registry {
    if Full(r, tenant, limit)
    then Registry(r.tenants[tenant := Entry(r, tenant)], r.live, r.nextId + 1)
    else Registry(r.tenants[tenant := Entry(r, tenant) + {r.nextId}],
                  r.live[r.nextId := Session(tenant, authenticated, false)], r.nextId + 1)
  }

  function Cancelled(r: Registry, id: nat): Registry {
    if id in r.live then r.(live := r.live[id := r.live[id].(cancelled := true)]) else r
  }

  function Flagged(live: map<nat, Session>, ids: set<nat>): map<nat, Session> {
    map id | id in live :: if id in ids then live[id].(cancelled := true) else live[id]
  }

  lemma FlaggedOneMore(live: map<nat, Session>, done: set<nat>, id: nat)
    requires id in live
    ensures Flagged(live, done)[id := Flagged(live, done)[id].(cancelled := true)] == Flagged(live, done + {id})
  {
  }

  datatype AuthResult = Admitted | Aborted | OverLimit

  function AuthOutcome(r: Registry, id: nat, limit: Option<nat>): AuthResult
    requires id in r.live
  {
    var s := r.live[id];
    if s.tenant !in r.tenants || s.cancelled then Aborted
    else if s.authenticated then Admitted
    else if Full(r, s.tenant, limit) then OverLimit
    else Admitted
  }

  function AfterAuth(r: Registry, id: nat, limit: Option<nat>): Registry
    requires id in r.live
  {
    if AuthOutcome(r, id, limit) == Admitted
    then r.(live := r.live[id := r.live[id].(authenticated := true)]) else r
  }

  /** A session's owner goes away. */
  function Dropped(r: Registry, id: nat): Registry
    requires id in r.live
  {
    var t := r.live[id].tenant;
    var rest := Entry(r, t) - {id};
    r.(live := r.live - {id},
       tenants := if t !in r.tenants then r.tenants
                  else if rest == {} then r.tenants - {t} else r.tenants[t := rest])
  }

  // ---- invariants ----------------------------------------------------------------------

  lemma AddedListed(r: Registry, tenant: string, s: Session)
    requires Listed(r) && s.tenant == tenant
    ensures Listed(Registry(r.tenants[tenant := Entry(r, tenant) + {r.nextId}], r.live[r.nextId := s], r.nextId + 1))
    ensures Listed(Registry(r.tenants[tenant := Entry(r, tenant)], r.live, r.nextId + 1))
  {
    var q := Registry(r.tenants[tenant := Entry(r, tenant) + {r.nextId}], r.live[r.nextId := s], r.nextId + 1);
    forall t <- q.tenants, id <- q.tenants[t] ensures id in q.live && q.live[id].tenant == t {
      if id != r.nextId || t != tenant {
        assert t in r.tenants && id in r.tenants[t] && id in r.live && id != r.nextId;
      }
    }
    forall id <- q.live ensures id in Entry(q, q.live[id].tenant) && id < q.nextId {
      assert id == r.nextId || id in Entry(r, r.live[id].tenant);
    }
  }

  lemma InsertedListed(r: Registry, tenant: string, limit: Option<nat>, authenticated: bool)
    requires Listed(r)
    ensures Listed(Inserted(r, tenant, limit, authenticated))
  {
    AddedListed(r, tenant, Session(tenant, authenticated, false));
  }

  lemma FullUnaffected(r: Registry, tenant: string, limit: Option<nat>)
    ensures var prepared := Registry(r.tenants[tenant := Entry(r, tenant)], r.live, r.nextId + 1);
            Full(prepared, tenant, limit) == Full(r, tenant, limit)
  {
    var prepared := Registry(r.tenants[tenant := Entry(r, tenant)], r.live, r.nextId + 1);
    assert Authenticated(prepared, tenant) == Authenticated(r, tenant);
  }

  lemma LastUpdateWins<K, V>(m: map<K, V>, k: K, first: V, last: V)
    ensures m[k := first][k := last] == m[k := last]
  {
  }

  lemma CancelledListed(r: Registry, id: nat)
    requires Listed(r)
    ensures Listed(Cancelled(r, id))
  {
  }

  lemma FlaggedListed(r: Registry, ids: set<nat>)
    requires Listed(r)
    ensures Listed(r.(live := Flagged(r.live, ids)))
  {
  }

  lemma AfterAuthListed(r: Registry, id: nat, limit: Option<nat>)
    requires Listed(r) && id in r.live
    ensures Listed(AfterAuth(r, id, limit))
  {
  }

  lemma DroppedListed(r: Registry, id: nat)
    requires Listed(r) && id in r.live
    ensures Listed(Dropped(r, id))
    ensures NoEmptyEntries(r) ==> NoEmptyEntries(Dropped(r, id))
  {
  }

  // ---- quota ---------------------------------------------------------------------------

  /** A grant with limit L leaves at most L authenticated sessions; a session that
      was already authenticated is not a grant. */
  lemma InsertGrantWithinLimit(r: Registry, tenant: string, limit: nat)
    requires Listed(r) && !Full(r, tenant, Some(limit))
    ensures |Authenticated(Inserted(r, tenant, Some(limit), true), tenant)| == |Authenticated(r, tenant)| + 1 <= limit
  {
    assert Authenticated(Inserted(r, tenant, Some(limit), true), tenant) == Authenticated(r, tenant) + {r.nextId};
  }

  lemma AuthGrantWithinLimit(r: Registry, id: nat, limit: nat)
    requires Listed(r) && id in r.live && !r.live[id].authenticated
    requires AuthOutcome(r, id, Some(limit)) == Admitted
    ensures var t := r.live[id].tenant;
            |Authenticated(AfterAuth(r, id, Some(limit)), t)| == |Authenticated(r, t)| + 1 <= limit
  {
    var t := r.live[id].tenant;
    assert Authenticated(AfterAuth(r, id, Some(limit)), t) == Authenticated(r, t) + {id};
  }

  /** A session opens exactly if the tenant has fewer authenticated ones than its
      limit, or no limit; it is then live as asked, and all others are as before. */
  lemma OpensIff(r: Registry, tenant: string, limit: Option<nat>, authenticated: bool)
    requires Listed(r)
    ensures var q := Inserted(r, tenant, limit, authenticated);
            && (r.nextId in q.live <==> limit.None? || |Authenticated(r, tenant)| < limit.value)
            && (r.nextId in q.live ==> q.live == r.live[r.nextId := Session(tenant, authenticated, false)])
            && (r.nextId !in q.live ==> q.live == r.live)
  {
  }

  /** It may be admitted: not cancelled, and counted already or within the limit. */
  predicate Admissible(r: Registry, id: nat, limit: Option<nat>)
    requires id in r.live
  {
    && !r.live[id].cancelled
    && (r.live[id].authenticated || limit.None? || |Authenticated(r, r.live[id].tenant)| < limit.value)
  }

  lemma AdmittedIff(r: Registry, id: nat, limit: Option<nat>)
    requires Listed(r) && id in r.live
    ensures AuthOutcome(r, id, limit) == Admitted <==> Admissible(r, id, limit)
    ensures AuthOutcome(r, id, limit) == Aborted <==> r.live[id].cancelled
    ensures Admissible(r, id, limit) ==>
              AfterAuth(r, id, limit).live == r.live[id := r.live[id].(authenticated := true)]
    ensures !Admissible(r, id, limit) ==> AfterAuth(r, id, limit) == r
  {
    assert r.live[id].tenant in r.tenants;
  }

  /** A dropped session is gone and gives its place back; all others are as before. */
  lemma DropForgets(r: Registry, id: nat, tenant: string)
    requires Listed(r) && id in r.live
    ensures Dropped(r, id).live == r.live - {id}
    ensures Authenticated(Dropped(r, id), tenant) == Authenticated(r, tenant) - {id}
    ensures id !in Entry(Dropped(r, id), tenant)
  {
  }

  /** A pending session takes no quota. */
  lemma PendingTakesNoQuota(r: Registry, tenant: string, other: string)
    requires Listed(r)
    ensures Authenticated(Inserted(r, tenant, None, false), other) == Authenticated(r, other)
    ensures r.nextId in Entry(Inserted(r, tenant, None, false), tenant)
  {
  }

  lemma InsertedElsewhere(r: Registry, tenant: string, limit: Option<nat>, authenticated: bool, other: string)
    requires Listed(r)
    ensures other != tenant || Full(r, tenant, limit) ==>
              Authenticated(Inserted(r, tenant, limit, authenticated), other) == Authenticated(r, other)
  {
  }

  lemma AfterAuthElsewhere(r: Registry, id: nat, limit: Option<nat>, other: string)
    requires Listed(r) && id in r.live
    ensures other != r.live[id].tenant || r.live[id].authenticated || AuthOutcome(r, id, limit) != Admitted ==>
              Authenticated(AfterAuth(r, id, limit), other) == Authenticated(r, other)
  {
  }

  lemma CancelledElsewhere(r: Registry, id: nat, tenant: string)
    ensures Authenticated(Cancelled(r, id), tenant) == Authenticated(r, tenant)
  {
  }

  lemma DroppedShrinks(r: Registry, id: nat, tenant: string)
    requires Listed(r) && id in r.live
    ensures Authenticated(Dropped(r, id), tenant) <= Authenticated(r, tenant)
    ensures |Authenticated(Dropped(r, id), tenant)| <= |Authenticated(r, tenant)|
  {
    SubsetNoLarger(Authenticated(Dropped(r, id), tenant), Authenticated(r, tenant));
  }

  /** With limits of at least one, the registry keeps an entry only for tenants
      with a live session; a limit of zero would leave an empty entry behind. */
  lemma EntriesStayInhabited(r: Registry, tenant: string, limit: Option<nat>, authenticated: bool)
    requires Listed(r) && NoEmptyEntries(r)
    ensures NoEmptyEntries(Inserted(r, tenant, limit, authenticated)) <==>
            (limit != Some(0) || Entry(r, tenant) != {})
  {
    assert tenant in Inserted(r, tenant, limit, authenticated).tenants;
    assert Entry(r, tenant) == {} ==> Authenticated(r, tenant) == {};
  }

  // ---- the registry as it is kept --------------------------------------------------------

  /** Each method is one section under the registry lock, except `Cancel`, which
      collects under the lock and then flags the sessions one by one. */
  class TenantSessions {
    var tenants: map<string, set<nat>>
    var live: map<nat, Session>
    var nextId: nat

    ghost function State(): Registry
      reads this
    {
      Registry(tenants, live, nextId)
    }

    constructor ()
      ensures State() == EMPTY
    {
      tenants, live, nextId := map[], map[], 0;
    }

    /** Dead sessions never linger, so pruning changes nothing. */
    method Prune(tenant: string)
      requires tenant in tenants && tenants[tenant] <= live.Keys
      modifies this`tenants
      ensures tenants == old(tenants)
    {
      assert StillLive(tenants[tenant], live) == tenants[tenant];
      tenants := tenants[tenant := StillLive(tenants[tenant], live)];
    }

    /** The tenant's entry, created if need be, and a session id. */
    method Prepare(tenant: string) returns (id: nat)
      requires Entry(State(), tenant) <= live.Keys
      modifies this`tenants, this`nextId
      ensures id == old(nextId)
      ensures State() == Registry(old(tenants)[tenant := Entry(old(State()), tenant)], live, id + 1)
    {
      id := nextId;
      nextId := nextId + 1;
      if tenant !in tenants { tenants := tenants[tenant := {}]; }
      Prune(tenant);
      assert tenants == old(tenants)[tenant := Entry(old(State()), tenant)];
    }

    method AuthenticatedCount(tenant: string) returns (count: nat)
      requires tenant in tenants
      ensures count == |Authenticated(State(), tenant)|
    {
      var unseen := tenants[tenant];
      ghost var counted: set<nat> := {};
      count := 0;
      while unseen != {}
        invariant unseen <= tenants[tenant] && count == |counted|
        invariant counted == set id | id in tenants[tenant] - unseen && id in live && live[id].authenticated
        decreases |unseen|
      {
        var id :| id in unseen;
        unseen := unseen - {id};
        if id in live && live[id].authenticated {
          count := count + 1;
          counted := counted + {id};
        }
      }
      assert counted == Authenticated(State(), tenant);
    }

    method IsFull(tenant: string, limit: Option<nat>) returns (full: bool)
      requires tenant in tenants
      ensures full == Full(State(), tenant, limit)
    {
      if limit.None? { return false; }
      var count := AuthenticatedCount(tenant);
      return count >= limit.value;
    }

    method Register(tenant: string, id: nat, authenticated: bool)
      requires tenant in tenants
      modifies this`tenants, this`live
      ensures tenants == old(tenants)[tenant := old(tenants)[tenant] + {id}]
      ensures live == old(live)[id := Session(tenant, authenticated, false)]
    {
      tenants := tenants[tenant := tenants[tenant] + {id}];
      live := live[id := Session(tenant, authenticated, false)];
    }

    method Insert(tenant: string, limit: Option<nat>, authenticated: bool) returns (session: Option<nat>)
      requires Listed(State())
      modifies this
      ensures session == if Full(old(State()), tenant, limit) then None else Some(old(nextId))
      ensures State() == Inserted(old(State()), tenant, limit, authenticated)
    {
      ghost var before := State();
      FullUnaffected(before, tenant, limit);
      LastUpdateWins(tenants, tenant, Entry(before, tenant), Entry(before, tenant) + {nextId});
      var id := Prepare(tenant);
      var full := IsFull(tenant, limit);
      session := None;
      if !full {
        Register(tenant, id, authenticated);
        session := Some(id);
      }
    }

    method FlagAll(ids: set<nat>)
      requires ids <= live.Keys
      modifies this`live
      ensures live == Flagged(old(live), ids)
    {
      var sessions := ids;
      ghost var done: set<nat> := {};
      assert live == Flagged(live, done);
      while sessions != {}
        invariant done + sessions == ids && live == Flagged(old(live), done)
        decreases |sessions|
      {
        var id :| id in sessions;
        FlaggedOneMore(old(live), done, id);
        sessions := sessions - {id};
        live := live[id := live[id].(cancelled := true)];
        done := done + {id};
      }
      assert done == ids;
    }

    /** Every session the tenant has is flagged; nobody else's is. */
    method Cancel(tenant: string) returns (count: nat)
      requires Listed(State())
      modifies this`tenants, this`live
      ensures Listed(State()) && State() == old(State()).(live := Flagged(old(live), Entry(old(State()), tenant)))
      ensures count == |Entry(old(State()), tenant)|
    {
      FlaggedListed(State(), Entry(State(), tenant));
      if tenant !in tenants {
        assert Flagged(live, {}) == live;
        return 0;
      }
      Prune(tenant);
      count := |tenants[tenant]|;
      FlagAll(tenants[tenant]);
    }

    method Active(tenant: string) returns (count: nat)
      requires Listed(State())
      modifies this`tenants
      ensures State() == old(State())
      ensures count == |Entry(State(), tenant)|
      ensures count == 0 <==> forall id <- live :: live[id].tenant != tenant
    {
      if tenant !in tenants { return 0; }
      Prune(tenant);
      count := |tenants[tenant]|;
    }

    method Authenticate(id: nat, limit: Option<nat>) returns (r: AuthResult)
      requires Listed(State()) && id in live
      modifies this`live
      ensures Listed(State()) && State() == AfterAuth(old(State()), id, limit)
      ensures r == AuthOutcome(old(State()), id, limit)
    {
      var s := live[id];
      if s.tenant !in tenants || s.cancelled { return Aborted; }
      if s.authenticated {
        assert live[id := s.(authenticated := true)] == live;
        return Admitted;
      }
      var full := IsFull(s.tenant, limit);
      if full { return OverLimit; }
      AfterAuthListed(State(), id, limit);
      live := live[id := s.(authenticated := true)];
      return Admitted;
    }

    method DropSession(id: nat)
      requires Listed(State()) && id in live
      modifies this
      ensures Listed(State()) && State() == Dropped(old(State()), id)
    {
      DroppedListed(State(), id);
      var tenant := live[id].tenant;
      live := live - {id};
      if tenant !in tenants { return; }
      var rest := tenants[tenant] - {id};
      tenants := if rest == {} then tenants - {tenant} else tenants[tenant := rest];
    }
  }
}
