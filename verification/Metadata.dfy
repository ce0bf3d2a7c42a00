/** Instance metadata, restricted to the fields that decide routing, quotas and
    reconciliation.  The tenant password takes part in routing only through its
    route hash, so the hash itself is the field. */
module Metadata {

  import opened Basics

  datatype Protocol =
    Postgres | Redis | Valkey | Mariadb | Mysql | Mongodb | Clickhouse | Qdrant

  datatype Status =
    Creating | Booting | Running | Stopped | Failed | Quarantined | Deleting

  datatype DesiredState = WantRunning | WantStopped

  datatype DeploymentMode = Dedicated | Shared

  datatype Backend = UnixSocket(socketPath: string) | DockerTcp(host: string, port: nat)

  datatype Instance = Instance(
    id: string,
    generation: string,
    protocol: Protocol,
    status: Status,
    desired: DesiredState,
    diskLimitBlocked: bool,
    mode: DeploymentMode,
    backend: Backend,
    username: string,
    database: string,
    routeKey: Option<string>,
    passwordHash: Option<string>,
    memoryMib: nat
  )

  /** Whether the gateway may send traffic to the instance. */
  predicate RouteEligible(m: Instance) {
    m.status == Running && m.desired == WantRunning && !m.diskLimitBlocked
  }

  const MIB_PER_CONNECTION := 32
  const MIN_CONNECTIONS := 4
  const MAX_CONNECTIONS := 100

  function Clamp(n: nat, low: nat, high: nat): nat
    requires low <= high
  {
    if n < low then low else if n > high then high else n
  }

  /** Only shared tenants have a quota: one connection per 32 MiB of memory, but at
      least 4 and at most 100, so it never excludes every session. */
  function ConnectionLimit(m: Instance): (limit: Option<nat>)
    ensures limit.Some? <==> m.mode == Shared
    ensures limit.Some? ==> MIN_CONNECTIONS <= limit.value <= MAX_CONNECTIONS
    ensures limit.Some? && limit.value > MIN_CONNECTIONS ==> limit.value * MIB_PER_CONNECTION <= m.memoryMib
    ensures limit.Some? && limit.value < MAX_CONNECTIONS ==> m.memoryMib < (limit.value + 1) * MIB_PER_CONNECTION
  {
    if m.mode == Shared
    then Some(Clamp(m.memoryMib / MIB_PER_CONNECTION, MIN_CONNECTIONS, MAX_CONNECTIONS))
    else None
  }
}
