/** The gateway's per-peer limiter.  The rate check is an arbitrary oracle. */
module ConnectionLimiter {

  import opened Basics
  import opened Sums

  const MAX_KEYS: nat := 8192
  const WINDOW: nat := 60_000_000_000

  datatype PeerState = PeerState(lastSeen: nat, rateLogged: bool, activeLogged: bool)

  datatype Reason = RateLimited | TooManyActive | KeyCapacityReached

  datatype Answer = Permit | Rejected(reason: Reason, shouldLog: bool)

  function Since(now: nat, then_: nat): nat {
    if now >= then_ then now - then_ else 0
  }

  predicate SweepDue(tracked: nat, lastSweep: nat, now: nat) {
    Since(now, lastSweep) >= WINDOW || tracked >= MAX_KEYS
  }

  /** The peers still tracked at `now`. */
  function Swept<Peer(==)>(peers: map<Peer, PeerState>, active: map<Peer, nat>, lastSweep: nat, now: nat)
    : map<Peer, PeerState>
  {
    if SweepDue(|peers|, lastSweep, now)
    then map p | p in peers && (p in active || Since(now, peers[p].lastSeen) < WINDOW) :: peers[p] else peers
  }

  lemma SweptNoMore<Peer>(peers: map<Peer, PeerState>, active: map<Peer, nat>, lastSweep: nat, now: nat)
    ensures |Swept(peers, active, lastSweep, now)| <= |peers|
  {
    SubsetNoLarger(Swept(peers, active, lastSweep, now).Keys, peers.Keys);
  }

  /** Who is still tracked: those with a permit, those seen within the last minute, and
      everybody while the last sweep is less than a minute ago and there is room. */
  lemma SweptIff<Peer>(peers: map<Peer, PeerState>, active: map<Peer, nat>, lastSweep: nat, now: nat, p: Peer)
    requires p in peers && lastSweep <= now && peers[p].lastSeen <= now
    ensures p in Swept(peers, active, lastSweep, now) <==>
            p in active || now - peers[p].lastSeen < WINDOW || (now - lastSweep < WINDOW && |peers| < MAX_KEYS)
    ensures p in Swept(peers, active, lastSweep, now) ==> Swept(peers, active, lastSweep, now)[p] == peers[p]
  {
  }

  /** `touch`. */
  function Touched(was: Option<PeerState>, now: nat): PeerState {
    if was.Some? then was.value.(lastSeen := now) else PeerState(now, false, false)
  }

  /** What a decision says about, and does to, the peer's own state. */
  predicate Answered(answer: Answer, now: nat, was: Option<PeerState>, after: PeerState) {
    var seen := Touched(was, now);
    match answer
    case Permit => after == seen.(rateLogged := false, activeLogged := false)
    case Rejected(TooManyActive, log) => log == !seen.activeLogged && after == seen.(activeLogged := true)
    case Rejected(RateLimited, log) => log == !seen.rateLogged && after == seen.(rateLogged := true)
    case Rejected(KeyCapacityReached, _) => false
  }

  /** The logging of refusals, over two answers to one peer in a row: a second refusal of
      the same kind is not logged, the first after a permit is. */
  lemma RefusalsLoggedOnce(
    first: Answer, second: Answer, t: nat, u: nat, was: Option<PeerState>, s: PeerState, r: PeerState)
    requires Answered(first, t, was, s) && Answered(second, u, Some(s), r) && second.Rejected?
    ensures first.Rejected? && first.reason == second.reason ==> !second.shouldLog
    ensures first == Permit ==> second.shouldLog
    ensures s.lastSeen == t && r.lastSeen == u
  {
  }

  /** `active` counts, peer by peer, the permits that are out. */
  ghost predicate CountsPermits<Peer(!new)>(active: map<Peer, nat>, live: multiset<Peer>) {
    (forall p <- active :: live[p] == active[p] && active[p] > 0) && (forall p <- live :: p in active)
  }

  /** Hence the counts add up to the permits, and a cap per peer caps the sum. */
  lemma {:induction false} TotalIsLive<Peer(!new)>(active: map<Peer, nat>, live: multiset<Peer>, cap: nat)
    requires CountsPermits(active, live) && forall p <- active :: active[p] <= cap
    ensures Sum(active) == |live| <= |active| * cap
    decreases |active|
  {
    if active == map[] {
      assert live == multiset{};
    } else {
      var p :| p in active;
      SumWithout(active, p);
      var rest := active - {p};
      assert rest.Keys == active.Keys - {p};
      TotalIsLive(rest, live[p := 0], cap);
      assert (|active| - 1) * cap + cap == |active| * cap;
    }
  }

  lemma ProductGrows(a: nat, b: nat, n: nat)
    requires a <= b
    ensures a * n <= b * n
  {
    assert b * n == a * n + (b - a) * n;
  }

  /** What an answer does to the peers already reported. */
  ghost predicate LoggedOnce<Peer(!new)>(peer: Peer, answer: Answer, was: set<Peer>, now: set<Peer>) {
    match answer
    case Permit => now == was - {peer}
    case Rejected(TooManyActive, true) => peer !in was && now == was + {peer}
    case Rejected(_, _) => now == was
  }

  class Limiter<Peer(==, !new)> {
    const maxActive: nat
    var peers: map<Peer, PeerState>
    var active: map<Peer, nat>
    var lastSweep: nat
    var capacityLogged: bool
    /** The permits that are out, and the peers whose active-limit rejection has
        been logged since their last reset. */
    ghost var live: multiset<Peer>
    ghost var reported: set<Peer>

    /** Every peer with a permit is tracked, none has more than the cap, and at most
        8192 are tracked; a reported peer is marked so. */
    ghost predicate Valid()
      reads this
    {
      && CountsPermits(active, live)
      && (forall p <- active :: active[p] <= maxActive)
      && active.Keys <= peers.Keys && |peers| <= MAX_KEYS
      && (forall p <- reported :: p in peers && peers[p].activeLogged)
      && maxActive >= 1
    }

    lemma LivePermitsBounded()
      requires Valid()
      ensures Sum(active) == |live| <= MAX_KEYS * maxActive
    {
      TotalIsLive(active, live, maxActive);
      SubsetNoLarger(active.Keys, peers.Keys);
      ProductGrows(|active|, MAX_KEYS, maxActive);
    }

    constructor (maxConnections: nat, maxActive: nat, now: nat)
      ensures Valid() && live == multiset{} && reported == {} && peers == map[]
      ensures 1 <= this.maxActive && (maxConnections >= 1 ==> this.maxActive <= maxConnections)
      ensures 1 <= maxActive <= maxConnections ==> this.maxActive == maxActive
      ensures 1 <= maxConnections <= maxActive ==> this.maxActive == maxConnections
    {
      var connections := if maxConnections < 1 then 1 else maxConnections;
      var wanted := if maxActive < 1 then 1 else maxActive;
      this.maxActive := if wanted < connections then wanted else connections;
      peers, active, lastSweep, capacityLogged := map[], map[], now, false;
      live, reported := multiset{}, {};
    }

    /** Peers with a permit are never evicted, others exactly when idle for a window
        at a sweep. */
    method EvictIdlePeers(now: nat)
      requires Valid()
      modifies this`peers, this`lastSweep, this`capacityLogged, this`reported
      ensures Valid() && peers == Swept(old(peers), active, old(lastSweep), now)
      ensures reported == old(reported) * peers.Keys
      ensures capacityLogged == (old(capacityLogged) && |peers| >= MAX_KEYS)
      ensures lastSweep == if Since(now, old(lastSweep)) >= WINDOW then now else old(lastSweep)
    {
      var due := Since(now, lastSweep) >= WINDOW;
      SweptNoMore(peers, active, lastSweep, now);
      peers := Swept(peers, active, lastSweep, now);
      reported := reported * peers.Keys;
      if due { lastSweep := now; }
      if |peers| < MAX_KEYS { capacityLogged := false; }
    }

    method Record(peer: Peer, state: PeerState)
      requires Valid() && (peer in peers || |peers| < MAX_KEYS) && (peer in reported ==> state.activeLogged)
      modifies this`peers
      ensures Valid() && peers == old(peers)[peer := state]
    {
      KeysCounted(peers, peer, state);
      peers := peers[peer := state];
    }

    method RejectActive(peer: Peer, now: nat) returns (answer: Answer)
      requires Valid() && (peer in peers || |peers| < MAX_KEYS)
      modifies this`peers, this`reported
      ensures Valid() && answer.Rejected? && answer.reason == TooManyActive
      ensures peer in peers && peers == old(peers)[peer := peers[peer]]
      ensures Answered(answer, now, Get(old(peers), peer), peers[peer])
      ensures LoggedOnce(peer, answer, old(reported), reported)
    {
      var state := Touched(Get(peers, peer), now);
      answer := Rejected(TooManyActive, !state.activeLogged);
      Record(peer, state.(activeLogged := true));
      if answer.shouldLog { reported := reported + {peer}; }
    }

    method Increment(peer: Peer)
      requires Valid() && peer in peers && live[peer] < maxActive
      modifies this`active, this`live
      ensures Valid() && live == old(live)[peer := old(live)[peer] + 1]
    {
      var count := if peer in active then active[peer] else 0;
      active := active[peer := count + 1];
      live := live[peer := live[peer] + 1];
    }

    method Grant(peer: Peer, now: nat)
      requires Valid() && (peer in peers || |peers| < MAX_KEYS) && live[peer] < maxActive
      modifies this`peers, this`active, this`live, this`reported
      ensures Valid() && live == old(live)[peer := old(live)[peer] + 1] && reported == old(reported) - {peer}
      ensures peers == old(peers)[peer := PeerState(now, false, false)]
    {
      var state := Touched(Get(peers, peer), now);
      reported := reported - {peer};
      Record(peer, state.(rateLogged := false, activeLogged := false));
      Increment(peer);
    }

    /** A tracked or trackable peer: the cap, then the rate check. */
    method Decide(peer: Peer, now: nat, allowed: bool) returns (answer: Answer)
      requires Valid() && (peer in peers || |peers| < MAX_KEYS)
      modifies this`peers, this`active, this`live, this`reported
      ensures Valid() && Permitted(answer, peer, allowed, old(live), live)
      ensures peer in peers && peers == old(peers)[peer := peers[peer]]
      ensures Answered(answer, now, Get(old(peers), peer), peers[peer])
      ensures LoggedOnce(peer, answer, old(reported), reported)
    {
      var count := if peer in active then active[peer] else 0;
      if count >= maxActive {
        answer := RejectActive(peer, now);
      } else if !allowed {
        var state := Touched(Get(peers, peer), now);
        Record(peer, state.(rateLogged := true));
        answer := Rejected(RateLimited, !state.rateLogged);
      } else {
        Grant(peer, now);
        answer := Permit;
      }
    }

    /** The decision follows from the cap and the rate check, and only a permit
        changes what is out. */
    ghost predicate Permitted(answer: Answer, peer: Peer, allowed: bool, was: multiset<Peer>, now: multiset<Peer>) {
      && now == (if answer == Permit then was[peer := was[peer] + 1] else was)
      && match answer
         case Permit => was[peer] < maxActive && allowed
         case Rejected(TooManyActive, _) => was[peer] >= maxActive
         case Rejected(RateLimited, _) => was[peer] < maxActive && !allowed
         case Rejected(KeyCapacityReached, _) => was[peer] == 0
    }

    /** An unknown peer is turned away exactly when 8192 are tracked after the sweep;
        any other gets a permit exactly when it is under its cap and the rate check
        allows it; an active-limit rejection is logged only if none has been since
        the peer's last reset. */
    method TryAcquire(peer: Peer, now: nat, allowed: bool) returns (answer: Answer)
      requires Valid()
      modifies this
      ensures Valid() && Permitted(answer, peer, allowed, old(live), live)
      ensures var swept := Swept(old(peers), old(active), old(lastSweep), now);
              if peer !in swept && |swept| >= MAX_KEYS
              then answer == Rejected(KeyCapacityReached, !old(capacityLogged)) && capacityLogged && peers == swept
              else
                && peer in peers && peers == swept[peer := peers[peer]]
                && Answered(answer, now, Get(swept, peer), peers[peer])
      ensures var swept := Swept(old(peers), old(active), old(lastSweep), now);
              LoggedOnce(peer, answer, old(reported) * swept.Keys, reported)
    {
      EvictIdlePeers(now);
      if |peers| >= MAX_KEYS && peer !in peers {
        answer := Rejected(KeyCapacityReached, !capacityLogged);
        capacityLogged := true;
      } else {
        answer := Decide(peer, now, allowed);
      }
    }

    /** A permit goes away; the peer's last one resets its logging. */
    method Release(peer: Peer)
      requires Valid() && peer in live
      modifies this
      ensures Valid() && live == old(live)[peer := old(live)[peer] - 1]
      ensures peer in old(peers) &&
              peers == if peer in live then old(peers) else old(peers)[peer := old(peers)[peer].(activeLogged := false)]
      ensures reported == if peer in live then old(reported) else old(reported) - {peer}
    {
      live := live[peer := live[peer] - 1];
      var left := active[peer] - 1;
      if left == 0 {
        active := active - {peer};
        peers := peers[peer := peers[peer].(activeLogged := false)];
        reported := reported - {peer};
      } else {
        active := active[peer := left];
      }
    }
  }

  // ---- who counts as one peer --------------------------------------------------------------

  type Octets4 = s: seq<byte> | |s| == 4 witness [0, 0, 0, 0]
  type Octets16 = s: seq<byte> | |s| == 16 witness [0, 0, 0, 0, 0, 0, 0, 0, 0, 0, 0, 0, 0, 0, 0, 0]

  datatype Ip = V4(a: Octets4) | V6(b: Octets16)

  /** `to_ipv4_mapped`: ten zero octets, two of all ones. */
  predicate Mapped(b: Octets16) {
    b[..12] == [0, 0, 0, 0, 0, 0, 0, 0, 0, 0, 255, 255]
  }

  datatype GatewayPeer = PeerV4(seq<byte>) | PeerV6Prefix64(seq<byte>)

  function FromIp(ip: Ip): GatewayPeer {
    match ip
    case V4(a) => PeerV4(a)
    case V6(b) => if Mapped(b) then PeerV4(b[12..]) else PeerV6Prefix64(b[..8])
  }

  /** The API server's form of the same identity. */
  function CanonicalIp(ip: Ip): Ip {
    match ip
    case V4(a) => ip
    case V6(b) => if Mapped(b) then V4(b[12..]) else V6(b[..8] + [0, 0, 0, 0, 0, 0, 0, 0])
  }

  /** The four octets of an IPv4 address, written as such or mapped into IPv6. */
  function AsV4(ip: Ip): Option<seq<byte>> {
    match ip
    case V4(a) => Some(a)
    case V6(b) =>
      if (forall i :: 0 <= i < 10 ==> b[i] == 0) && b[10] == 255 && b[11] == 255 then Some([b[12], b[13], b[14], b[15]])
      else None
  }

  /** Two addresses are one peer if and only if they are the same IPv4 address, in either
      form, or IPv6 addresses that agree in their first eight octets. */
  lemma SamePeerIff(x: Ip, y: Ip)
    ensures FromIp(x) == FromIp(y) <==>
            if AsV4(x).Some? || AsV4(y).Some? then AsV4(x) == AsV4(y)
            else forall i :: 0 <= i < 8 ==> x.b[i] == y.b[i]
  {
    MappedIff(x);
    MappedIff(y);
    if x.V6? && y.V6? && AsV4(x).None? && AsV4(y).None? {
      assert x.b[..8] == y.b[..8] <==> forall i :: 0 <= i < 8 ==> x.b[i] == y.b[i];
    }
  }

  lemma MappedIff(x: Ip)
    ensures x.V6? ==> (Mapped(x.b) <==> AsV4(x).Some?)
    ensures AsV4(x).Some? <==> FromIp(x) == PeerV4(if AsV4(x).Some? then AsV4(x).value else [])
  {
    if x.V6? {
      var start := [0, 0, 0, 0, 0, 0, 0, 0, 0, 0, 255, 255];
      assert x.b[..12] == start <==> forall i :: 0 <= i < 12 ==> x.b[i] == start[i];
      assert x.b[12..] == [x.b[12], x.b[13], x.b[14], x.b[15]];
    }
  }

  /** Gateway and API limiters draw the same line between peers, and canonical form
      does not move an address across it. */
  lemma LimitersAgreeOnPeers(x: Ip, y: Ip)
    ensures FromIp(x) == FromIp(y) <==> CanonicalIp(x) == CanonicalIp(y)
    ensures FromIp(CanonicalIp(x)) == FromIp(x)
  {
    var zeros: seq<byte> := [0, 0, 0, 0, 0, 0, 0, 0];
    assert x.V6? ==> (x.b[..8] + zeros)[..8] == x.b[..8];
    assert y.V6? ==> (y.b[..8] + zeros)[..8] == y.b[..8];
    assert x.V6? ==> (x.b[..8] + zeros)[..12][10] == 0;
  }
}
