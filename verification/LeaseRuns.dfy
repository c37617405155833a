/** Any number of workers with distinct owner ids and one common TTL working on the leases of one
    row, in any interleaving, under a clock that does not go back. */
module LeaseRuns {
  import opened Common
  import opened Leases

  /** promises records, for every worker that took or renewed a lease and has not released it, until
      when that worker may count on it. */
  datatype Machine = Machine(leases: Row, promises: map<(Kind, string), int>, clock: int)

  datatype Step =
    | Acquire(worker: string, kind: Kind, now: int)
    | Refresh(worker: string, now: int)
    | Beat(worker: string, kind: Kind, now: int)
    | Release(worker: string, kind: Kind, now: int)
    | Recover(now: int)

  predicate Enabled(m: Machine, s: Step) {
    Complete(m.leases) && m.clock <= s.now && (s.Recover? || s.worker != "")
  }

  function Keep(m: Machine, next: Option<Row>, worker: string, kind: Kind, ttl: int, now: int): Machine {
    if next.None? then m.(clock := now)
    else Machine(next.value, m.promises[(kind, worker) := now + Term(ttl, StaleAfter(ttl))], now)
  }

  function Apply(m: Machine, s: Step, ttl: int): Machine
    requires Enabled(m, s)
  {
    match s
    case Acquire(w, k, now) => Keep(m, Acquired(m.leases, k, w, ttl, now), w, k, ttl, now)
    case Refresh(w, now) => Keep(m, Begun(m.leases, w, ttl, now), w, Fetch, ttl, now)
    case Beat(w, k, now) => Keep(m, Renewed(m.leases, k, w, ttl, now), w, k, ttl, now)
    case Release(w, k, now) =>
      var next := Released(m.leases, k, w);
      Machine(if next.Some? then next.value else m.leases, m.promises - {(k, w)}, now)
    case Recover(now) => Machine(Recovered(m.leases, ttl, now), m.promises, now)
  }

  /** A lease is either absent or was written with the common TTL by its owner. */
  predicate SoundLease(l: Lease, ttl: int) {
    l == NO_LEASE || (l.owner != "" && l.heartbeatAt.Some? && WrittenAt(l, l.heartbeatAt.value, ttl))
  }

  ghost predicate Inv(m: Machine, ttl: int) {
    && Complete(m.leases)
    && (forall k :: k in m.leases ==> SoundLease(m.leases[k], ttl))
    && (forall k, w :: (k, w) in m.promises ==>
          || m.promises[(k, w)] <= m.clock
          || (m.leases[k].owner == w && m.leases[k].heartbeatAt.Some?
              && m.promises[(k, w)] == m.leases[k].heartbeatAt.value + Term(ttl, StaleAfter(ttl))))
  }

  function Initial(): Machine {
    Machine(NoLeases(), map[], 0)
  }

  /** A step never touches a lease that is live when it happens, unless its owner makes it. */
  lemma LiveLeaseNotTaken(m: Machine, s: Step, ttl: int, kind: Kind)
    requires ttl > 0 && Inv(m, ttl) && Enabled(m, s)
    requires !Reclaimable(m.leases[kind], s.now, StaleAfter(ttl))
    requires s.Beat? || s.Release? ==> s.worker != m.leases[kind].owner || s.kind != kind
    ensures Apply(m, s, ttl).leases[kind] == m.leases[kind]
  {
    var l := m.leases[kind];
    assert l != NO_LEASE;
    ReadingsAgree(l, l.heartbeatAt.value, ttl, ttl);
  }

  lemma StepKeepsInv(m: Machine, s: Step, ttl: int)
    requires ttl > 0 && Inv(m, ttl) && Enabled(m, s)
    ensures Inv(Apply(m, s, ttl), ttl)
  {
    var n := Apply(m, s, ttl);
    forall k | k in n.leases ensures SoundLease(n.leases[k], ttl) {
    }
    forall k, w | (k, w) in n.promises
      ensures n.promises[(k, w)] <= n.clock
              || (n.leases[k].owner == w && n.leases[k].heartbeatAt.Some?
                  && n.promises[(k, w)] == n.leases[k].heartbeatAt.value + Term(ttl, StaleAfter(ttl)))
    {
      if (k, w) in m.promises && n.promises[(k, w)] == m.promises[(k, w)] && m.promises[(k, w)] > s.now {
        var l := m.leases[k];
        ReclaimableAfterTerm(l, l.heartbeatAt.value, ttl, s.now, StaleAfter(ttl));
        if n.leases[k] != l {
          LiveLeaseNotTakenBy(m, s, ttl, k);
        }
      }
    }
  }

  /** The only steps that change a live lease are a heartbeat or a release of its owner. */
  lemma LiveLeaseNotTakenBy(m: Machine, s: Step, ttl: int, kind: Kind)
    requires ttl > 0 && Inv(m, ttl) && Enabled(m, s)
    requires !Reclaimable(m.leases[kind], s.now, StaleAfter(ttl))
    requires Apply(m, s, ttl).leases[kind] != m.leases[kind]
    ensures (s.Beat? || s.Release?) && s.worker == m.leases[kind].owner && s.kind == kind
  {
    if !((s.Beat? || s.Release?) && s.worker == m.leases[kind].owner && s.kind == kind) {
      LiveLeaseNotTaken(m, s, ttl, kind);
    }
  }

  ghost predicate ValidRun(m: Machine, steps: seq<Step>, ttl: int)
    decreases |steps|
  {
    steps != [] ==> Enabled(m, steps[0]) && ValidRun(Apply(m, steps[0], ttl), steps[1..], ttl)
  }

  ghost function Run(m: Machine, steps: seq<Step>, ttl: int): Machine
    requires ValidRun(m, steps, ttl)
    decreases |steps|
  {
    if steps == [] then m else Run(Apply(m, steps[0], ttl), steps[1..], ttl)
  }

  lemma {:induction false} RunKeepsInv(m: Machine, steps: seq<Step>, ttl: int)
    requires ttl > 0 && Inv(m, ttl) && ValidRun(m, steps, ttl)
    ensures Inv(Run(m, steps, ttl), ttl)
    decreases |steps|
  {
    if steps != [] {
      StepKeepsInv(m, steps[0], ttl);
      RunKeepsInv(Apply(m, steps[0], ttl), steps[1..], ttl);
    }
  }

  /** Mutual exclusion per kind over every interleaving: of all the workers that took or renewed a
      lease of one kind and did not release it, at most one still has time left on it, and that
      one is the owner in the row. */
  lemma MutualExclusion(steps: seq<Step>, ttl: int, kind: Kind, a: string, b: string)
    requires ttl > 0 && ValidRun(Initial(), steps, ttl)
    ensures var m := Run(Initial(), steps, ttl);
            (kind, a) in m.promises && m.promises[(kind, a)] > m.clock &&
            (kind, b) in m.promises && m.promises[(kind, b)] > m.clock ==>
              a == b && kind in m.leases && m.leases[kind].owner == a && !Reclaimable(m.leases[kind], m.clock, StaleAfter(ttl))
  {
    RunKeepsInv(Initial(), steps, ttl);
    var m := Run(Initial(), steps, ttl);
    if (kind, a) in m.promises && m.promises[(kind, a)] > m.clock {
      var l := m.leases[kind];
      ReclaimableAfterTerm(l, l.heartbeatAt.value, ttl, m.clock, StaleAfter(ttl));
    }
  }

  // --------------------------------------------------------- what a step is granted

  /** Every lease in the row has a promise to its owner, which ends a term after its last heartbeat. */
  ghost predicate Promised(m: Machine, ttl: int) {
    Complete(m.leases)
    && forall k :: k in m.leases && m.leases[k] != NO_LEASE ==>
         var l := m.leases[k];
         l.heartbeatAt.Some? && (k, l.owner) in m.promises
         && m.promises[(k, l.owner)] == l.heartbeatAt.value + Term(ttl, StaleAfter(ttl))
  }

  lemma KeepKeepsPromised(m: Machine, next: Option<Row>, worker: string, kind: Kind, ttl: int, now: int)
    requires Promised(m, ttl)
    requires next.Some? ==>
               && next.value.Keys == m.leases.Keys && WrittenAt(next.value[kind], now, ttl) && next.value[kind].owner == worker
               && forall k :: k in m.leases && k != kind ==> next.value[k] == m.leases[k]
    ensures Promised(Keep(m, next, worker, kind, ttl, now), ttl)
  {
  }

  lemma StepKeepsPromised(m: Machine, s: Step, ttl: int)
    requires ttl > 0 && Inv(m, ttl) && Promised(m, ttl) && Enabled(m, s)
    ensures Promised(Apply(m, s, ttl), ttl)
  {
    match s
    case Acquire(w, k, now) => KeepKeepsPromised(m, Acquired(m.leases, k, w, ttl, now), w, k, ttl, now);
    case Refresh(w, now) => KeepKeepsPromised(m, Begun(m.leases, w, ttl, now), w, Fetch, ttl, now);
    case Beat(w, k, now) => KeepKeepsPromised(m, Renewed(m.leases, k, w, ttl, now), w, k, ttl, now);
    case Release(w, k, now) =>
    case Recover(now) =>
  }

  lemma {:induction false} RunKeepsPromised(m: Machine, steps: seq<Step>, ttl: int)
    requires ttl > 0 && Inv(m, ttl) && Promised(m, ttl) && ValidRun(m, steps, ttl)
    ensures Inv(Run(m, steps, ttl), ttl) && Promised(Run(m, steps, ttl), ttl)
    decreases |steps|
  {
    if steps != [] {
      StepKeepsInv(m, steps[0], ttl);
      StepKeepsPromised(m, steps[0], ttl);
      RunKeepsPromised(Apply(m, steps[0], ttl), steps[1..], ttl);
    }
  }

  /** Nobody who took or renewed a lease of this kind has time left on it. */
  ghost predicate NobodyHolds(m: Machine, kind: Kind, now: int) {
    forall w :: (kind, w) in m.promises ==> m.promises[(kind, w)] <= now
  }

  /** So a lease is free exactly when nobody has time left on it, and both readings see that. */
  lemma FreeIffNobodyHolds(m: Machine, ttl: int, kind: Kind, now: int)
    requires ttl > 0 && Inv(m, ttl) && Promised(m, ttl) && m.clock <= now
    ensures Reclaimable(m.leases[kind], now, StaleAfter(ttl)) <==> NobodyHolds(m, kind, now)
    ensures LeaseIsActive(m.leases[kind], now) <==> !NobodyHolds(m, kind, now)
    ensures Recoverable(m.leases[kind], now, StaleAfter(ttl)) <==> m.leases[kind] != NO_LEASE && NobodyHolds(m, kind, now)
  {
    var l := m.leases[kind];
    if l == NO_LEASE {
      UnwrittenIsReclaimable(l, now, StaleAfter(ttl));
    } else {
      ReclaimableAfterTerm(l, l.heartbeatAt.value, ttl, now, StaleAfter(ttl));
      ReadingsAgree(l, l.heartbeatAt.value, ttl, ttl);
      RecoveryIsSafe(m.leases, ttl, now, kind, l.heartbeatAt.value);
    }
  }

  /** The worker owns the lease from now on for a term, and no other kind is touched. */
  ghost predicate Granted(m: Machine, n: Machine, worker: string, kind: Kind, now: int, ttl: int) {
    && kind in n.leases && n.leases[kind].owner == worker && WrittenAt(n.leases[kind], now, ttl)
    && n.promises == m.promises[(kind, worker) := now + Term(ttl, StaleAfter(ttl))]
    && forall k :: k in m.leases && k != kind ==> k in n.leases && n.leases[k] == m.leases[k]
  }

  ghost predicate Refused(m: Machine, n: Machine) {
    n.leases == m.leases && n.promises == m.promises
  }

  lemma AcquireIsGranted(m: Machine, ttl: int, worker: string, kind: Kind, now: int)
    requires ttl > 0 && Inv(m, ttl) && Promised(m, ttl) && m.clock <= now && worker != ""
    ensures Enabled(m, Acquire(worker, kind, now))
    ensures var n := Apply(m, Acquire(worker, kind, now), ttl);
            if NobodyHolds(m, kind, now) then Granted(m, n, worker, kind, now, ttl) else Refused(m, n)
  {
    FreeIffNobodyHolds(m, ttl, kind, now);
  }

  lemma RefreshIsGranted(m: Machine, ttl: int, worker: string, now: int)
    requires ttl > 0 && Inv(m, ttl) && Promised(m, ttl) && m.clock <= now && worker != ""
    ensures Enabled(m, Refresh(worker, now))
    ensures var n := Apply(m, Refresh(worker, now), ttl);
            if NobodyHolds(m, Fetch, now) && NobodyHolds(m, Backfill, now) then Granted(m, n, worker, Fetch, now, ttl) else Refused(m, n)
  {
    FreeIffNobodyHolds(m, ttl, Fetch, now);
    FreeIffNobodyHolds(m, ttl, Backfill, now);
  }

  /** After any run an acquire is granted exactly if nobody has time left on the lease, so that of a
      dead worker can be taken a term after its last heartbeat. Otherwise nothing changes. */
  lemma AcquireIffNobodyHolds(steps: seq<Step>, ttl: int, worker: string, kind: Kind, now: int)
    requires ttl > 0 && ValidRun(Initial(), steps, ttl) && worker != "" && Run(Initial(), steps, ttl).clock <= now
    ensures var m := Run(Initial(), steps, ttl);
            && Enabled(m, Acquire(worker, kind, now))
            && var n := Apply(m, Acquire(worker, kind, now), ttl);
            if NobodyHolds(m, kind, now) then Granted(m, n, worker, kind, now, ttl) else Refused(m, n)
  {
    RunKeepsPromised(Initial(), steps, ttl);
    AcquireIsGranted(Run(Initial(), steps, ttl), ttl, worker, kind, now);
  }

  /** A manual refresh is granted the fetch lease exactly if that holds for scans and for backfills. */
  lemma RefreshIffNobodyHolds(steps: seq<Step>, ttl: int, worker: string, now: int)
    requires ttl > 0 && ValidRun(Initial(), steps, ttl) && worker != "" && Run(Initial(), steps, ttl).clock <= now
    ensures var m := Run(Initial(), steps, ttl);
            && Enabled(m, Refresh(worker, now))
            && var n := Apply(m, Refresh(worker, now), ttl);
            if NobodyHolds(m, Fetch, now) && NobodyHolds(m, Backfill, now) then Granted(m, n, worker, Fetch, now, ttl)
            else Refused(m, n)
  {
    RunKeepsPromised(Initial(), steps, ttl);
    RefreshIsGranted(Run(Initial(), steps, ttl), ttl, worker, now);
  }

  lemma BeatIsGranted(m: Machine, ttl: int, kind: Kind, now: int)
    requires ttl > 0 && Inv(m, ttl) && m.clock <= now && m.leases[kind] != NO_LEASE
    ensures var w := m.leases[kind].owner;
            Enabled(m, Beat(w, kind, now)) && Granted(m, Apply(m, Beat(w, kind, now), ttl), w, kind, now, ttl)
  {
  }

  lemma ReleaseFrees(m: Machine, ttl: int, kind: Kind, now: int)
    requires ttl > 0 && Inv(m, ttl) && Promised(m, ttl) && m.clock <= now && m.leases[kind] != NO_LEASE
    ensures var w := m.leases[kind].owner;
            && Enabled(m, Release(w, kind, now))
            && var n := Apply(m, Release(w, kind, now), ttl);
            && NobodyHolds(n, kind, now)
            && forall k :: k in m.leases && k != kind ==> k in n.leases && n.leases[k] == m.leases[k]
  {
    var s := Release(m.leases[kind].owner, kind, now);
    StepKeepsInv(m, s, ttl);
    StepKeepsPromised(m, s, ttl);
    FreeIffNobodyHolds(Apply(m, s, ttl), ttl, kind, now);
  }

  lemma RecoveryClearsUnheld(m: Machine, ttl: int, kind: Kind, now: int)
    requires ttl > 0 && Inv(m, ttl) && Promised(m, ttl) && m.clock <= now
    ensures Enabled(m, Recover(now))
    ensures var n := Apply(m, Recover(now), ttl);
            kind in n.leases && n.leases[kind] == if NobodyHolds(m, kind, now) then NO_LEASE else m.leases[kind]
  {
    FreeIffNobodyHolds(m, ttl, kind, now);
  }

  /** After any run an owner's heartbeat renews its lease for another term, its release leaves the
      lease free for everyone at once, and a recovery clears exactly the leases nobody holds. */
  lemma OwnerIsServed(steps: seq<Step>, ttl: int, kind: Kind, now: int)
    requires ttl > 0 && ValidRun(Initial(), steps, ttl) && Run(Initial(), steps, ttl).clock <= now
    ensures Complete(Run(Initial(), steps, ttl).leases)
    ensures var m := Run(Initial(), steps, ttl);
            m.leases[kind] != NO_LEASE ==>
              var w := m.leases[kind].owner;
              && Enabled(m, Beat(w, kind, now)) && Granted(m, Apply(m, Beat(w, kind, now), ttl), w, kind, now, ttl)
              && Enabled(m, Release(w, kind, now)) && NobodyHolds(Apply(m, Release(w, kind, now), ttl), kind, now)
    ensures var m := Run(Initial(), steps, ttl);
            && Enabled(m, Recover(now))
            && var n := Apply(m, Recover(now), ttl);
            kind in n.leases && n.leases[kind] == if NobodyHolds(m, kind, now) then NO_LEASE else m.leases[kind]
  {
    RunKeepsPromised(Initial(), steps, ttl);
    var m := Run(Initial(), steps, ttl);
    RecoveryClearsUnheld(m, ttl, kind, now);
    if m.leases[kind] != NO_LEASE {
      BeatIsGranted(m, ttl, kind, now);
      ReleaseFrees(m, ttl, kind, now);
    }
  }

  predicate Reacquires(s: Step, worker: string, kind: Kind) {
    (s.Acquire? && s.worker == worker && s.kind == kind) || (s.Refresh? && s.worker == worker && kind == Fetch)
  }

  lemma StepMakesNoOwner(m: Machine, s: Step, ttl: int, worker: string, kind: Kind)
    requires ttl > 0 && Inv(m, ttl) && Enabled(m, s) && worker != ""
    requires m.leases[kind].owner != worker && !Reacquires(s, worker, kind)
    ensures kind in Apply(m, s, ttl).leases && Apply(m, s, ttl).leases[kind].owner != worker
  {
  }

  lemma {:induction false} StaysLockedOut(m: Machine, steps: seq<Step>, ttl: int, worker: string, kind: Kind)
    requires ttl > 0 && Inv(m, ttl) && ValidRun(m, steps, ttl) && worker != ""
    requires m.leases[kind].owner != worker
    requires forall i :: 0 <= i < |steps| ==> !Reacquires(steps[i], worker, kind)
    ensures kind in Run(m, steps, ttl).leases && Run(m, steps, ttl).leases[kind].owner != worker
    decreases |steps|
  {
    if steps != [] {
      StepKeepsInv(m, steps[0], ttl);
      StepMakesNoOwner(m, steps[0], ttl, worker, kind);
      StaysLockedOut(Apply(m, steps[0], ttl), steps[1..], ttl, worker, kind);
    }
  }

  /** Fencing: a worker whose lease was reclaimed or cleared stays locked out. Until it acquires
      again it does not become the owner, and whatever it still sends changes no lease. */
  lemma OldOwnerIsFenced(m: Machine, steps: seq<Step>, ttl: int, worker: string, kind: Kind, late: Step)
    requires ttl > 0 && Inv(m, ttl) && ValidRun(m, steps, ttl) && worker != ""
    requires m.leases[kind].owner != worker
    requires forall i :: 0 <= i < |steps| ==> !Reacquires(steps[i], worker, kind)
    requires (late.Beat? || late.Release?) && late.worker == worker && late.kind == kind
    ensures var n := Run(m, steps, ttl);
            && kind in n.leases && n.leases[kind].owner != worker
            && (Enabled(n, late) ==> Apply(n, late, ttl).leases == n.leases)
  {
    StaysLockedOut(m, steps, ttl, worker, kind);
  }

  /** The steps of a run during which a worker keeps renewing: every step comes less than three
      heartbeat intervals after its latest heartbeat, and it neither releases nor retakes. */
  ghost predicate Renewing(steps: seq<Step>, worker: string, kind: Kind, last: int, ttl: int)
    decreases |steps|
  {
    steps != [] ==>
      var s := steps[0];
      && last <= s.now < last + 3 * HeartbeatInterval(ttl)
      && !Reacquires(s, worker, kind)
      && !(s.Release? && s.worker == worker && s.kind == kind)
      && Renewing(steps[1..], worker, kind, if s.Beat? && s.worker == worker && s.kind == kind then s.now else last, ttl)
  }

  /** A worker that renews in time keeps its lease against every acquire, refresh and recovery of
      the others, for every TTL of at least 600 ms. */
  lemma {:induction false} RenewingKeepsLease(m: Machine, steps: seq<Step>, ttl: int, worker: string, kind: Kind, last: int)
    requires ttl >= 600 * MILLISECOND && Inv(m, ttl) && ValidRun(m, steps, ttl) && worker != ""
    requires m.leases[kind].owner == worker && WrittenAt(m.leases[kind], last, ttl)
    requires Renewing(steps, worker, kind, last, ttl)
    ensures kind in Run(m, steps, ttl).leases && Run(m, steps, ttl).leases[kind].owner == worker
    decreases |steps|
  {
    if steps != [] {
      var s := steps[0];
      ThreeIntervalsSuffice(ttl);
      assert !Reclaimable(m.leases[kind], s.now, StaleAfter(ttl));
      var n := Apply(m, s, ttl);
      StepKeepsInv(m, s, ttl);
      if s.Beat? && s.worker == worker && s.kind == kind {
        RenewingKeepsLease(n, steps[1..], ttl, worker, kind, s.now);
      } else {
        LiveLeaseNotTaken(m, s, ttl, kind);
        RenewingKeepsLease(n, steps[1..], ttl, worker, kind, last);
      }
    }
  }
}
