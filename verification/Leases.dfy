/** The leases on a repository's change-sync row: taking, renewing, releasing and recovering them,
    the second way of taking the fetch lease by hand, and what several workers doing so at once can
    and cannot see (internal/githubsync/change_sync_leases.go, inventory_refresh.go).
    Times and durations are nanoseconds. */
module Leases {
  import opened Common

  const MILLISECOND := 1_000_000
  const SECOND := 1_000 * MILLISECOND

  datatype Kind = Fetch | Backfill | RecentRepair | FullHistoryRepair

  datatype Lease = Lease(owner: string, startedAt: Option<int>, heartbeatAt: Option<int>, until: Option<int>)

  type Row = map<Kind, Lease>

  predicate Complete(row: Row) {
    forall k: Kind :: k in row
  }

  const NO_LEASE := Lease("", None, None, None)

  function NoLeases(): (row: Row)
    ensures Complete(row) && forall k :: k in row ==> row[k] == NO_LEASE
  {
    var row := map[Fetch := NO_LEASE, Backfill := NO_LEASE, RecentRepair := NO_LEASE, FullHistoryRepair := NO_LEASE];
    assert Complete(row) by {
      forall k: Kind ensures k in row {
        FourKinds(k);
      }
    }
    row
  }

  lemma FourKinds(k: Kind)
    ensures k in {Fetch, Backfill, RecentRepair, FullHistoryRepair}
  {
    match k
    case Fetch =>
    case Backfill =>
    case RecentRepair =>
    case FullHistoryRepair =>
  }

  // ---------------------------------------------------------------- durations

  function HeartbeatInterval(ttl: int): int {
    if ttl <= 0 then 10 * SECOND
    else Min(Max(ttl / 6, 200 * MILLISECOND), 10 * SECOND)
  }

  /** In numbers: a sixth of the TTL, within 200 ms and 10 s; 10 s for want of a TTL. */
  lemma IntervalInNumbers(ttl: int)
    ensures ttl <= 0 || ttl >= 60 * SECOND ==> HeartbeatInterval(ttl) == 10_000 * MILLISECOND
    ensures 0 < ttl <= 1200 * MILLISECOND ==> HeartbeatInterval(ttl) == 200 * MILLISECOND
    ensures 1200 * MILLISECOND <= ttl <= 60 * SECOND ==> 6 * HeartbeatInterval(ttl) <= ttl < 6 * HeartbeatInterval(ttl) + 6
  {
  }

  function StaleAfter(ttl: int): int {
    Max(3 * HeartbeatInterval(ttl), SECOND)
  }

  // -------------------------------------------------- the two readings of a lease

  /** reclaimableSQL, the writers' reading */
  predicate Reclaimable(l: Lease, now: int, staleAfter: int) {
    || l.until.None? || l.until.value <= now
    || l.heartbeatAt.None? || l.heartbeatAt.value <= now - staleAfter
  }

  /** leaseIsActive, the readers' reading: the TTL is inferred from the lease itself. */
  predicate LeaseIsActive(l: Lease, now: int) {
    && l.until.Some? && l.until.value > now
    && l.heartbeatAt.Some?
    && var impliedTTL := l.until.value - l.heartbeatAt.value;
       impliedTTL > 0 && l.heartbeatAt.value + StaleAfter(impliedTTL) > now
  }

  /** A lease last written at heartbeat by a manager with this TTL. */
  predicate WrittenAt(l: Lease, heartbeat: int, ttl: int) {
    l.heartbeatAt == Some(heartbeat) && l.until == Some(heartbeat + ttl)
  }

  /** How long after a heartbeat a lease can no longer be taken. */
  function Term(ttl: int, staleAfter: int): int {
    Min(ttl, staleAfter)
  }

  lemma ReclaimableAfterTerm(l: Lease, heartbeat: int, ttl: int, now: int, staleAfter: int)
    requires WrittenAt(l, heartbeat, ttl)
    ensures Reclaimable(l, now, staleAfter) <==> now >= heartbeat + Term(ttl, staleAfter)
  {
  }

  /** A lease without an end or a heartbeat is free at every time. */
  lemma UnwrittenIsReclaimable(l: Lease, now: int, staleAfter: int)
    requires l.until.None? || l.heartbeatAt.None?
    ensures Reclaimable(l, now, staleAfter) && !LeaseIsActive(l, now)
  {
  }

  /** The term in numbers: the TTL itself below a second, a second up to 2 s, three sixths of the TTL but
      no less than a second up to a minute, and never more than half a minute. */
  lemma TermInNumbers(ttl: int)
    requires ttl > 0
    ensures ttl <= SECOND ==> Term(ttl, StaleAfter(ttl)) == ttl
    ensures SECOND <= ttl <= 2 * SECOND ==> Term(ttl, StaleAfter(ttl)) == SECOND
    ensures 2 * SECOND <= ttl <= 60 * SECOND ==> Term(ttl, StaleAfter(ttl)) == Max(3 * (ttl / 6), SECOND)
    ensures ttl >= 60 * SECOND ==> Term(ttl, StaleAfter(ttl)) == 30 * SECOND
  {
  }

  /** The two readings of a lease agree at all times exactly when its own TTL gives the same term
      under the reader's inferred staleness and under the staleness of the manager that judges it;
      so they always agree for leases of that manager's own TTL. */
  lemma ReadingsAgree(l: Lease, heartbeat: int, ttl: int, managerTTL: int)
    requires ttl > 0 && WrittenAt(l, heartbeat, ttl)
    ensures (forall now :: LeaseIsActive(l, now) <==> !Reclaimable(l, now, StaleAfter(managerTTL)))
            <==> Term(ttl, StaleAfter(ttl)) == Term(ttl, StaleAfter(managerTTL))
    ensures managerTTL == ttl ==> forall now :: LeaseIsActive(l, now) <==> !Reclaimable(l, now, StaleAfter(managerTTL))
  {
    var a, b := Term(ttl, StaleAfter(ttl)), Term(ttl, StaleAfter(managerTTL));
    assert forall now :: LeaseIsActive(l, now) <==> now < heartbeat + a;
    assert forall now :: !Reclaimable(l, now, StaleAfter(managerTTL)) <==> now < heartbeat + b;
    if a != b {
      var at := heartbeat + Min(a, b);
      assert !(LeaseIsActive(l, at) <==> !Reclaimable(l, at, StaleAfter(managerTTL)));
    }
  }

  /** A minute's lease and a manager configured for six seconds: the reader still sees it running
      when the manager may already take it. */
  lemma MixedTTLsDisagree()
    ensures var l := Lease("a", Some(0), Some(0), Some(60 * SECOND));
            LeaseIsActive(l, 10 * SECOND) && Reclaimable(l, 10 * SECOND, StaleAfter(6 * SECOND))
  {
  }

  /** Heartbeats less than three intervals apart keep a lease out of reach exactly when its TTL is
      at least 600 ms; the repository's smallest interval is what sets that bound. */
  lemma ThreeIntervalsSuffice(ttl: int)
    requires ttl > 0
    ensures (forall l, heartbeat, now :: WrittenAt(l, heartbeat, ttl) && heartbeat <= now < heartbeat + 3 * HeartbeatInterval(ttl)
                                         ==> !Reclaimable(l, now, StaleAfter(ttl)))
            <==> ttl >= 600 * MILLISECOND
  {
    if ttl < 600 * MILLISECOND {
      var l := Lease("a", Some(0), Some(0), Some(0 + ttl));
      assert WrittenAt(l, 0, ttl) && 0 <= ttl < 0 + 3 * HeartbeatInterval(ttl);
      assert Reclaimable(l, ttl, StaleAfter(ttl));
    }
  }

  // ------------------------------------------------------- operations on one lease

  function Taken(owner: string, ttl: int, now: int): Lease {
    Lease(owner, Some(now), Some(now), Some(now + ttl))
  }

  function Acquired(row: Row, kind: Kind, owner: string, ttl: int, now: int): Option<Row>
    requires Complete(row)
  {
    if Reclaimable(row[kind], now, StaleAfter(ttl)) then Some(row[kind := Taken(owner, ttl, now)]) else None
  }

  function Renewed(row: Row, kind: Kind, owner: string, ttl: int, now: int): Option<Row>
    requires Complete(row)
  {
    if row[kind].owner == owner then Some(row[kind := row[kind].(heartbeatAt := Some(now), until := Some(now + ttl))]) else None
  }

  function Released(row: Row, kind: Kind, owner: string): Option<Row>
    requires Complete(row)
  {
    if row[kind].owner == owner then Some(row[kind := NO_LEASE]) else None
  }

  /** clearStaleKind; unlike an acquire it leaves a lease without an end alone. */
  predicate Recoverable(l: Lease, now: int, staleAfter: int) {
    l.until.Some? && (l.until.value <= now || l.heartbeatAt.None? || l.heartbeatAt.value <= now - staleAfter)
  }

  function Recovered(row: Row, ttl: int, now: int): Row {
    map k | k in row :: if Recoverable(row[k], now, StaleAfter(ttl)) then NO_LEASE else row[k]
  }

  /** beginInventoryRefresh: under the row lock, refused while the readers see a scan or a backfill. */
  function Begun(row: Row, owner: string, ttl: int, now: int): Option<Row>
    requires Complete(row)
  {
    if LeaseIsActive(row[Fetch], now) || LeaseIsActive(row[Backfill], now) then None
    else Some(row[Fetch := Taken(owner, ttl, now)])
  }

  /** Recovery clears only leases no reader sees as active. */
  lemma RecoveryIsSafe(row: Row, ttl: int, now: int, kind: Kind, heartbeat: int)
    requires Complete(row) && ttl > 0 && WrittenAt(row[kind], heartbeat, ttl)
    ensures Recovered(row, ttl, now)[kind] != row[kind] ==> !LeaseIsActive(row[kind], now)
    ensures LeaseIsActive(row[kind], now) <==> !Recoverable(row[kind], now, StaleAfter(ttl))
  {
    ReadingsAgree(row[kind], heartbeat, ttl, ttl);
  }

  // ---------------------------------------------------------- the stored row

  /** One repo_change_sync_states row, as far as leases go. */
  class StateRow {
    var leases: Row

    constructor ()
      ensures leases == NoLeases()
    {
      leases := NoLeases();
    }
  }

  class RepoLeaseManager {
    const row: StateRow
    const ownerID: string
    const leaseTTL: int
    const heartbeatInterval: int
    const staleAfter: int

    predicate Valid()
      reads row
    {
      Complete(row.leases) && heartbeatInterval == HeartbeatInterval(leaseTTL) && staleAfter == StaleAfter(leaseTTL)
    }

    constructor (row: StateRow, ownerID: string, leaseTTL: int)
      requires Complete(row.leases)
      ensures Valid() && this.row == row && this.ownerID == ownerID && this.leaseTTL == leaseTTL
    {
      this.row, this.ownerID, this.leaseTTL := row, ownerID, leaseTTL;
      heartbeatInterval := HeartbeatInterval(leaseTTL);
      staleAfter := Max(3 * HeartbeatInterval(leaseTTL), SECOND);
    }

    method Acquire(kind: Kind, now: int) returns (leaseUntil: Option<int>)
      requires Valid()
      modifies row
      ensures Valid()
      ensures var next := Acquired(old(row.leases), kind, ownerID, leaseTTL, now);
              && row.leases == (if next.Some? then next.value else old(row.leases))
              && leaseUntil == (if next.Some? then Some(now + leaseTTL) else None)
      ensures old(row.leases)[kind].until.None? || old(row.leases)[kind].heartbeatAt.None? ==> leaseUntil.Some?
      ensures forall heartbeat, ttl | WrittenAt(old(row.leases)[kind], heartbeat, ttl) ::
                leaseUntil.Some? <==> now >= heartbeat + Term(ttl, StaleAfter(leaseTTL))
      ensures leaseUntil.Some? ==>
                && leaseUntil == Some(now + leaseTTL)
                && row.leases[kind].owner == ownerID && row.leases[kind].startedAt == Some(now)
                && WrittenAt(row.leases[kind], now, leaseTTL)
      ensures forall k | k in row.leases && (k != kind || leaseUntil.None?) :: row.leases[k] == old(row.leases)[k]
    {
      var l := row.leases[kind];
      var staleBefore := now - staleAfter;
      if l.until.None? || l.until.value <= now || l.heartbeatAt.None? || l.heartbeatAt.value <= staleBefore {
        row.leases := row.leases[kind := Lease(ownerID, Some(now), Some(now), Some(now + leaseTTL))];
        return Some(now + leaseTTL);
      }
      return None;
    }

    /** False stands for the error that the lease is no longer owned. */
    method Heartbeat(kind: Kind, now: int) returns (owned: bool)
      requires Valid()
      modifies row
      ensures Valid()
      ensures var next := Renewed(old(row.leases), kind, ownerID, leaseTTL, now);
              owned == next.Some? && row.leases == if owned then next.value else old(row.leases)
    {
      if row.leases[kind].owner != ownerID {
        return false;
      }
      row.leases := row.leases[kind := row.leases[kind].(heartbeatAt := Some(now), until := Some(now + leaseTTL))];
      return true;
    }

    method Release(kind: Kind) returns (owned: bool)
      requires Valid()
      modifies row
      ensures Valid()
      ensures var next := Released(old(row.leases), kind, ownerID);
              owned == next.Some? && row.leases == if owned then next.value else old(row.leases)
    {
      if row.leases[kind].owner != ownerID {
        return false;
      }
      row.leases := row.leases[kind := NO_LEASE];
      return true;
    }

    method ClearStaleKind(kind: Kind, now: int) returns (cleared: int)
      requires Valid()
      modifies row
      ensures Valid()
      ensures row.leases == if Recoverable(old(row.leases)[kind], now, staleAfter) then old(row.leases)[kind := NO_LEASE] else old(row.leases)
      ensures cleared == if Recoverable(old(row.leases)[kind], now, staleAfter) then 1 else 0
    {
      cleared := 0;
      if Recoverable(row.leases[kind], now, staleAfter) {
        row.leases := row.leases[kind := NO_LEASE];
        cleared := 1;
      }
    }

    method RecoverStale(now: int) returns (cleared: int)
      requires Valid()
      modifies row
      ensures Valid() && row.leases == Recovered(old(row.leases), leaseTTL, now)
      ensures cleared == 0 ==> row.leases == old(row.leases)
    {
      var fetch := ClearStaleKind(Fetch, now);
      var backfill := ClearStaleKind(Backfill, now);
      var recent := ClearStaleKind(RecentRepair, now);
      var history := ClearStaleKind(FullHistoryRepair, now);
      cleared := fetch + backfill + recent + history;
      forall k | k in row.leases ensures row.leases[k] == Recovered(old(row.leases), leaseTTL, now)[k] {
        FourKinds(k);
      }
    }

    method BeginInventoryRefresh(now: int) returns (begun: bool)
      requires Valid()
      modifies row
      ensures Valid()
      ensures var next := Begun(old(row.leases), ownerID, leaseTTL, now);
              begun == next.Some? && row.leases == if begun then next.value else old(row.leases)
      ensures begun <==> !LeaseIsActive(old(row.leases)[Fetch], now) && !LeaseIsActive(old(row.leases)[Backfill], now)
      ensures begun ==> row.leases[Fetch].owner == ownerID && row.leases[Fetch].startedAt == Some(now)
      ensures begun ==> WrittenAt(row.leases[Fetch], now, leaseTTL)
      ensures forall k | k in row.leases && (k != Fetch || !begun) :: row.leases[k] == old(row.leases)[k]
    {
      if LeaseIsActive(row.leases[Fetch], now) || LeaseIsActive(row.leases[Backfill], now) {
        return false;
      }
      row.leases := row.leases[Fetch := Lease(ownerID, Some(now), Some(now), Some(now + leaseTTL))];
      return true;
    }
  }
}
