/** The fence as its caller writes it: routes first, then sockets. */
module TenantFencing {
  import opened RouteView
  import opened RouteHistory
  import opened InstanceStore
  import SR = SessionRegistry

  /** A missing instance is not reported as fenced, and nobody is disconnected for
      it; otherwise no lookup reaches the tenant and all its sessions are flagged. */
  method Fence(store: InstanceState, sessions: SR.TenantSessions, id: string) returns (fenced: bool)
    requires store.Valid() && SR.Listed(sessions.State())
    modifies store, sessions
    ensures store.Valid() && store.view == Apply(old(store.view), FenceRoutes(id))
    ensures fenced <==> id in old(store.view).instances
    ensures fenced ==> Unreachable(store.view, id)
    ensures sessions.live.Keys == old(sessions.live).Keys
    ensures forall s <- sessions.live ::
              sessions.live[s] ==
              if fenced && old(sessions.live)[s].tenant == id
              then old(sessions.live)[s].(cancelled := true) else old(sessions.live)[s]
  {
    fenced := store.FenceExisting(id);
    if fenced {
      FencedIsUnreachable(store.view, id);
      var _ := sessions.Cancel(id);
    }
  }
}
