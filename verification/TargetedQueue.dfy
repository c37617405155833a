/** The queue of targeted pull request refreshes of one repository: requests, retries with backoff,
    parking after five failures, and the cached flag that says whether anything is waiting
    (internal/githubsync/change_sync.go). */
module TargetedQueue {
  import opened Common

  const MAX_ATTEMPTS := 5
  const MINUTE := 60_000

  datatype Row = Row(requestedAt: Option<int>, lastCompletedAt: Option<int>, attemptCount: int,
                     nextAttemptAt: Option<int>, parkedAt: Option<int>,
                     owner: string, heartbeatAt: Option<int>, leaseUntil: Option<int>)

  type Rows = map<int, Row>

  datatype Queue = Queue(rows: Rows, pending: bool)

  predicate Waiting(r: Row) {
    && r.requestedAt.Some?
    && (r.lastCompletedAt.None? || r.requestedAt.value > r.lastCompletedAt.value)
    && r.parkedAt.None?
  }

  /** targetedRefreshPendingExists */
  predicate PendingExists(rows: Rows) {
    exists n | n in rows :: Waiting(rows[n])
  }

  predicate LeaseFree(r: Row, now: int, staleAfter: int) {
    || r.leaseUntil.None? || r.leaseUntil.value <= now
    || r.heartbeatAt.None? || r.heartbeatAt.value <= now - staleAfter
  }

  predicate Eligible(r: Row, now: int, staleAfter: int) {
    && Waiting(r)
    && (r.attemptCount == 0 || r.nextAttemptAt.None? || r.nextAttemptAt.value <= now)
    && LeaseFree(r, now, staleAfter)
  }

  /** The ORDER BY of acquireNextTargetedRefresh: rows not tried yet come first, the latest request
      first among them; then retries, the earliest due first and the later request on a tie; the
      lower number in the end. A retry without a due time sorts behind the others. */
  predicate ComesBefore(a: Row, an: int, b: Row, bn: int) {
    if (a.attemptCount == 0) != (b.attemptCount == 0) then a.attemptCount == 0
    else if a.attemptCount != 0 && a.nextAttemptAt != b.nextAttemptAt then
      a.nextAttemptAt.Some? && (b.nextAttemptAt.None? || a.nextAttemptAt.value < b.nextAttemptAt.value)
    else if RequestTime(a) != RequestTime(b) then RequestTime(a) > RequestTime(b)
    else an < bn
  }

  function RequestTime(r: Row): int {
    if r.requestedAt.Some? then r.requestedAt.value else 0
  }

  /** Of two different rows one comes before the other, and the order has no cycles. */
  lemma OrderIsStrictAndTotal(a: Row, an: int, b: Row, bn: int, c: Row, cn: int)
    ensures an != bn ==> (ComesBefore(a, an, b, bn) <==> !ComesBefore(b, bn, a, an))
    ensures ComesBefore(a, an, b, bn) && ComesBefore(b, bn, c, cn) ==> ComesBefore(a, an, c, cn)
  {
  }

  /** A waiting, due and free row is picked up only while no repair is due for its repository. */
  ghost predicate IsFirst(rows: Rows, number: int, now: int, staleAfter: int) {
    && number in rows && Eligible(rows[number], now, staleAfter)
    && forall n | n in rows && n != number && Eligible(rows[n], now, staleAfter) :: ComesBefore(rows[number], number, rows[n], n)
  }

  /** So the row picked is untried if an untried one is eligible, and then no untried one was requested
      later; a retry is picked only for want of untried rows, and no other retry was due before it. */
  lemma FirstIsFreshOrDueFirst(rows: Rows, number: int, n: int, now: int, staleAfter: int)
    requires IsFirst(rows, number, now, staleAfter) && n in rows && Eligible(rows[n], now, staleAfter)
    ensures var p, r := rows[number], rows[n];
            && (r.attemptCount == 0 ==> p.attemptCount == 0 && p.requestedAt.value >= r.requestedAt.value)
            && (r.attemptCount == 0 && p.requestedAt == r.requestedAt ==> number <= n)
            && (p.attemptCount != 0 && p.nextAttemptAt.Some? && r.nextAttemptAt.Some? ==>
                  && r.attemptCount != 0 && p.nextAttemptAt.value <= r.nextAttemptAt.value
                  && (p.nextAttemptAt == r.nextAttemptAt ==>
                        p.requestedAt.value > r.requestedAt.value || (p.requestedAt == r.requestedAt && number <= n)))
  {
  }

  ghost predicate NoneEligible(rows: Rows, now: int, staleAfter: int) {
    forall n | n in rows :: !Eligible(rows[n], now, staleAfter)
  }

  /** targetedRefreshBackoff */
  function Backoff(attemptCount: int): int {
    if attemptCount == 1 then MINUTE
    else if attemptCount == 2 then 5 * MINUTE
    else if attemptCount == 3 then 15 * MINUTE
    else 60 * MINUTE
  }

  /** The longer a refresh keeps failing, the later it is retried. */
  lemma BackoffGrows(a: int, b: int)
    requires 1 <= a <= b
    ensures Backoff(a) <= Backoff(b)
    ensures a < b <= 4 ==> Backoff(a) < Backoff(b)
  {
  }

  // ------------------------------------------------------------ what one call does

  function Enqueued(q: Queue, number: int, seenAt: int): Queue {
    if number <= 0 then q else
      var row := if number in q.rows then q.rows[number] else Row(None, None, 0, None, None, "", None, None);
      Queue(q.rows[number := row.(requestedAt := Some(seenAt), attemptCount := 0, nextAttemptAt := None, parkedAt := None)], true)
  }

  function Leased(r: Row, worker: string, now: int, ttl: int): Row {
    r.(owner := worker, heartbeatAt := Some(now), leaseUntil := Some(now + ttl))
  }

  /** How long a claim keeps others away. */
  function Term(ttl: int, staleAfter: int): int {
    Min(ttl, staleAfter)
  }

  /** A lease taken at this time by this worker. */
  predicate HeldSince(r: Row, worker: string, at: int, ttl: int) {
    r.owner == worker && r.heartbeatAt == Some(at) && r.leaseUntil == Some(at + ttl)
  }

  /** A held row is out of reach until its term is over, and free from then on. */
  lemma HeldForTerm(r: Row, worker: string, at: int, ttl: int, staleAfter: int, now: int)
    requires HeldSince(r, worker, at, ttl)
    ensures LeaseFree(r, now, staleAfter) <==> now >= at + Term(ttl, staleAfter)
    ensures Eligible(r, now, staleAfter) ==> now >= at + Term(ttl, staleAfter)
  {
  }

  /** A claim changes the lease of a row and nothing else about it. */
  lemma LeasedIsHeld(r: Row, worker: string, at: int, ttl: int)
    ensures HeldSince(Leased(r, worker, at, ttl), worker, at, ttl)
    ensures Leased(r, worker, at, ttl).(owner := r.owner, heartbeatAt := r.heartbeatAt, leaseUntil := r.leaseUntil) == r
  {
  }

  /** What finishTargetedRefresh writes into a row it still owns. The attempt is counted from the
      row as it was when it was picked. */
  function Settled(r: Row, attempts: int, now: int, succeeded: bool): Row {
    var free := r.(owner := "", heartbeatAt := None, leaseUntil := None);
    if succeeded then
      free.(lastCompletedAt := Some(now), attemptCount := 0, nextAttemptAt := None, parkedAt := None)
    else if attempts + 1 >= MAX_ATTEMPTS then
      free.(attemptCount := attempts + 1, parkedAt := Some(now), nextAttemptAt := None)
    else
      free.(attemptCount := attempts + 1, nextAttemptAt := Some(now + Backoff(attempts + 1)), parkedAt := None)
  }

  function Finished(q: Queue, worker: string, number: int, attempts: int, now: int, succeeded: bool): Queue
    requires number in q.rows
  {
    var rows := if q.rows[number].owner == worker then q.rows[number := Settled(q.rows[number], attempts, now, succeeded)] else q.rows;
    Queue(rows, PendingExists(rows))
  }

  /** The copy of a row that a worker carries from the select to the end of the refresh. */
  datatype Picked = Picked(number: int, attempts: int, at: int)

  class TargetedRefreshes {
    var rows: Rows
    var pending: bool

    constructor ()
      ensures View() == Queue(map[], false)
    {
      rows, pending := map[], false;
    }

    function View(): Queue
      reads this
    {
      Queue(rows, pending)
    }

    method EnqueuePullRequestRefresh(number: int, seenAt: int)
      modifies this
      ensures View() == Enqueued(old(View()), number, seenAt)
    {
      if number <= 0 {
        return;
      }
      pending := true;
      if number in rows {
        rows := rows[number := rows[number].(requestedAt := Some(seenAt), attemptCount := 0, nextAttemptAt := None, parkedAt := None)];
      } else {
        rows := rows[number := Row(Some(seenAt), None, 0, None, None, "", None, None)];
      }
    }

    /** The select of acquireNextTargetedRefresh: nothing while a repair of the repository is due,
        otherwise the first eligible row. */
    method SelectEligible(now: int, staleAfter: int, repairDue: bool) returns (picked: Option<Picked>)
      ensures picked.None? <==> repairDue || NoneEligible(rows, now, staleAfter)
      ensures picked.Some? ==>
                IsFirst(rows, picked.value.number, now, staleAfter)
                && picked.value == Picked(picked.value.number, rows[picked.value.number].attemptCount, now)
    {
      picked := None;
      if repairDue {
        return;
      }
      var numbers := rows.Keys;
      while numbers != {}
        invariant numbers <= rows.Keys
        invariant picked.None? ==> forall n | n in rows && n !in numbers :: !Eligible(rows[n], now, staleAfter)
        invariant picked.Some? ==>
                    var p := picked.value;
                    && p.number in rows && p.number !in numbers && Eligible(rows[p.number], now, staleAfter)
                    && p == Picked(p.number, rows[p.number].attemptCount, now)
                    && forall n | n in rows && n !in numbers && n != p.number && Eligible(rows[n], now, staleAfter) ::
                         ComesBefore(rows[p.number], p.number, rows[n], n)
      {
        HasNumber(numbers);
        var n :| n in numbers;
        if Eligible(rows[n], now, staleAfter) {
          if picked.None? || ComesBefore(rows[n], n, rows[picked.value.number], picked.value.number) {
            picked := Some(Picked(n, rows[n].attemptCount, now));
          }
        }
        numbers := numbers - {n};
      }
    }

    /** The conditional update of acquireNextTargetedRefresh asks for a free lease and nothing more. */
    method ClaimPicked(picked: Picked, worker: string, staleAfter: int, ttl: int) returns (ok: bool)
      requires picked.number in rows
      modifies this
      ensures ok == LeaseFree(old(rows)[picked.number], picked.at, staleAfter) && pending == old(pending)
      ensures rows == if ok then old(rows)[picked.number := Leased(old(rows)[picked.number], worker, picked.at, ttl)] else old(rows)
      ensures ok ==> HeldSince(rows[picked.number], worker, picked.at, ttl)
      ensures ok ==> forall later :: LeaseFree(rows[picked.number], later, staleAfter) <==> later >= picked.at + Min(ttl, staleAfter)
    {
      ok := LeaseFree(rows[picked.number], picked.at, staleAfter);
      if ok {
        rows := rows[picked.number := Leased(rows[picked.number], worker, picked.at, ttl)];
      }
    }

    method AnnounceClaim()
      modifies this
      ensures View() == Queue(old(rows), true)
    {
      pending := true;
    }

    /** acquireNextTargetedRefresh when nothing comes between its three statements. */
    method AcquireNextTargetedRefresh(worker: string, now: int, staleAfter: int, repairDue: bool, ttl: int)
        returns (picked: Option<Picked>)
      modifies this
      ensures picked.None? ==> View() == old(View())
      ensures picked.None? <==> repairDue || NoneEligible(old(rows), now, staleAfter)
      ensures picked.Some? ==>
                var n := picked.value.number;
                && IsFirst(old(rows), n, now, staleAfter)
                && picked.value == Picked(n, old(rows)[n].attemptCount, now)
                && View() == Queue(old(rows)[n := Leased(old(rows)[n], worker, now, ttl)], true)
                && (forall later :: LeaseFree(rows[n], later, staleAfter) <==> later >= now + Min(ttl, staleAfter))
                && (forall later | later < now + Min(ttl, staleAfter) :: !Eligible(rows[n], later, staleAfter))
    {
      picked := SelectEligible(now, staleAfter, repairDue);
      if picked.Some? {
        var ok := ClaimPicked(picked.value, worker, staleAfter, ttl);
        if !ok {
          return None;
        }
        AnnounceClaim();
      }
    }

    method FinishTargetedRefresh(picked: Picked, worker: string, now: int, succeeded: bool)
      requires picked.number in rows
      modifies this
      ensures View() == Finished(old(View()), worker, picked.number, picked.attempts, now, succeeded)
    {
      var row := rows[picked.number];
      if row.owner == worker {
        var free := row.(owner := "", heartbeatAt := None, leaseUntil := None);
        if succeeded {
          free := free.(lastCompletedAt := Some(now), attemptCount := 0, nextAttemptAt := None, parkedAt := None);
        } else {
          var attemptCount := picked.attempts + 1;
          free := free.(attemptCount := attemptCount);
          if attemptCount >= MAX_ATTEMPTS {
            free := free.(parkedAt := Some(now), nextAttemptAt := None);
          } else {
            free := free.(nextAttemptAt := Some(now + Backoff(attemptCount)), parkedAt := None);
          }
        }
        rows := rows[picked.number := free];
      }
      pending := PendingExists(rows);
    }
  }

  // --------------------------------------------------------- workers, interleaved

  datatype Phase = Idle | Selected(pick: Picked) | Claimed(pick: Picked) | Running(pick: Picked)

  /** The queue, where every worker stands, the time of the latest step, and whether a worker died
      at work since the last finish. */
  datatype Machine = Machine(queue: Queue, workers: map<string, Phase>, clock: int, died: bool)

  datatype Step =
    | Enqueue(number: int, now: int)
    | Select(worker: string, number: int, now: int)
    | Claim(worker: string, now: int)
    | Announce(worker: string, now: int)
    | Finish(worker: string, succeeded: bool, now: int)
    | Drop(worker: string, now: int)

  predicate Enabled(m: Machine, s: Step, staleAfter: int) {
    && m.clock < s.now
    && match s
       case Enqueue(_, _) => true
       case Select(w, n, now) => w in m.workers && m.workers[w].Idle? && n in m.queue.rows && Eligible(m.queue.rows[n], now, staleAfter)
       case Claim(w, _) => w in m.workers && m.workers[w].Selected? && m.workers[w].pick.number in m.queue.rows
       case Announce(w, _) => w in m.workers && m.workers[w].Claimed?
       case Finish(w, _, _) => w in m.workers && m.workers[w].Running? && m.workers[w].pick.number in m.queue.rows
       case Drop(w, _) => w in m.workers
  }

  function Apply(m: Machine, s: Step, staleAfter: int, ttl: int): Machine
    requires Enabled(m, s, staleAfter)
  {
    match s
    case Enqueue(n, now) => m.(queue := Enqueued(m.queue, n, now), clock := now)
    case Select(w, n, now) => m.(workers := m.workers[w := Selected(Picked(n, m.queue.rows[n].attemptCount, now))], clock := now)
    case Claim(w, now) =>
      var pick := m.workers[w].pick;
      var row := m.queue.rows[pick.number];
      if LeaseFree(row, pick.at, staleAfter) then
        m.(queue := m.queue.(rows := m.queue.rows[pick.number := Leased(row, w, pick.at, ttl)]),
           workers := m.workers[w := Claimed(pick)], clock := now)
      else m.(workers := m.workers[w := Idle], clock := now)
    case Announce(w, now) =>
      m.(queue := m.queue.(pending := true), workers := m.workers[w := Running(m.workers[w].pick)], clock := now)
    case Finish(w, succeeded, now) =>
      var pick := m.workers[w].pick;
      Machine(Finished(m.queue, w, pick.number, pick.attempts, now, succeeded), m.workers[w := Idle], now, false)
    case Drop(w, now) => m.(workers := m.workers[w := Idle], clock := now, died := m.died || m.workers[w].Running?)
  }

  ghost predicate ValidRun(m: Machine, steps: seq<Step>, staleAfter: int, ttl: int)
    decreases |steps|
  {
    steps != [] ==> Enabled(m, steps[0], staleAfter) && ValidRun(Apply(m, steps[0], staleAfter, ttl), steps[1..], staleAfter, ttl)
  }

  ghost function Run(m: Machine, steps: seq<Step>, staleAfter: int, ttl: int): Machine
    requires ValidRun(m, steps, staleAfter, ttl)
    decreases |steps|
  {
    if steps == [] then m else Run(Apply(m, steps[0], staleAfter, ttl), steps[1..], staleAfter, ttl)
  }

  /** Five failures park a row, one to four leave it a time for the next attempt. */
  predicate SoundRow(r: Row) {
    && 0 <= r.attemptCount <= MAX_ATTEMPTS
    && (r.parkedAt.Some? <==> r.attemptCount == MAX_ATTEMPTS)
    && (r.nextAttemptAt.Some? <==> 1 <= r.attemptCount < MAX_ATTEMPTS)
  }

  ghost predicate AnyRunning(m: Machine) {
    exists w | w in m.workers :: m.workers[w].Running?
  }

  ghost predicate RowsInv(m: Machine) {
    && (forall n | n in m.queue.rows ::
          SoundRow(m.queue.rows[n])
          && (m.queue.rows[n].lastCompletedAt.Some? ==> m.queue.rows[n].lastCompletedAt.value <= m.clock))
    && (forall w | w in m.workers && !m.workers[w].Idle? ::
          m.workers[w].pick.number in m.queue.rows && 0 <= m.workers[w].pick.attempts < MAX_ATTEMPTS)
  }

  /** The flag is never down while something waits, and it is up for nothing only while a worker is
      at work, who will set it right, or after one died at work until the next finish. */
  ghost predicate FlagInv(m: Machine) {
    && (PendingExists(m.queue.rows) ==> m.queue.pending)
    && (m.queue.pending ==> PendingExists(m.queue.rows) || AnyRunning(m) || m.died)
  }

  lemma StepKeepsRows(m: Machine, s: Step, staleAfter: int, ttl: int)
    requires RowsInv(m) && Enabled(m, s, staleAfter)
    ensures RowsInv(Apply(m, s, staleAfter, ttl))
  {
  }

  /** Taking a lease changes nothing about who waits. */
  lemma LeasingKeepsWaiting(rows: Rows, number: int, worker: string, now: int, ttl: int)
    requires number in rows
    ensures PendingExists(rows[number := Leased(rows[number], worker, now, ttl)]) <==> PendingExists(rows)
  {
    var after := rows[number := Leased(rows[number], worker, now, ttl)];
    forall n | n in rows ensures Waiting(after[n]) <==> Waiting(rows[n]) {
    }
    if PendingExists(rows) {
      var n :| n in rows && Waiting(rows[n]);
      assert Waiting(after[n]);
    }
  }

  lemma EnqueuedWaits(q: Queue, number: int, seenAt: int)
    requires number > 0
    requires number in q.rows && q.rows[number].lastCompletedAt.Some? ==> q.rows[number].lastCompletedAt.value < seenAt
    ensures PendingExists(Enqueued(q, number, seenAt).rows)
  {
    assert Waiting(Enqueued(q, number, seenAt).rows[number]);
  }

  lemma StepKeepsFlag(m: Machine, s: Step, staleAfter: int, ttl: int)
    requires RowsInv(m) && FlagInv(m) && Enabled(m, s, staleAfter)
    ensures FlagInv(Apply(m, s, staleAfter, ttl))
    ensures s.Finish? || (s.Enqueue? && s.number > 0) ==>
              (Apply(m, s, staleAfter, ttl).queue.pending <==> PendingExists(Apply(m, s, staleAfter, ttl).queue.rows))
  {
    var a := Apply(m, s, staleAfter, ttl);
    match s
    case Enqueue(n, now) => {
      if n > 0 {
        EnqueuedWaits(m.queue, n, now);
      }
    }
    case Select(w, n, now) => {
      OthersKeepRunning(m, a, w);
    }
    case Claim(w, _) => {
      var pick := m.workers[w].pick;
      LeasingKeepsWaiting(m.queue.rows, pick.number, w, pick.at, ttl);
      OthersKeepRunning(m, a, w);
    }
    case Announce(w, _) => {
      assert a.workers[w].Running?;
    }
    case Finish(w, succeeded, now) => {
    }
    case Drop(w, _) => {
      if !m.workers[w].Running? {
        OthersKeepRunning(m, a, w);
      }
    }
  }

  lemma OthersKeepRunning(m: Machine, a: Machine, worker: string)
    requires worker in m.workers && !m.workers[worker].Running?
    requires forall w | w in m.workers && w != worker :: w in a.workers && a.workers[w] == m.workers[w]
    ensures AnyRunning(m) ==> AnyRunning(a)
  {
    if AnyRunning(m) {
      var w :| w in m.workers && m.workers[w].Running?;
      assert a.workers[w].Running?;
    }
  }

  /** Over every interleaving of requests and workers, among them workers who die and workers whose
      row was taken over or finished by another, the cached flag, the attempt counts, the retry times and the 
      parking stay in step. */
  lemma {:induction false} RunKeepsInv(m: Machine, steps: seq<Step>, staleAfter: int, ttl: int)
    requires RowsInv(m) && FlagInv(m) && ValidRun(m, steps, staleAfter, ttl)
    ensures RowsInv(Run(m, steps, staleAfter, ttl)) && FlagInv(Run(m, steps, staleAfter, ttl))
    decreases |steps|
  {
    if steps != [] {
      StepKeepsRows(m, steps[0], staleAfter, ttl);
      StepKeepsFlag(m, steps[0], staleAfter, ttl);
      RunKeepsInv(Apply(m, steps[0], staleAfter, ttl), steps[1..], staleAfter, ttl);
    }
  }

  // ------------------------------------------------------------ one worker at a time

  predicate Busy(p: Phase) {
    p.Claimed? || p.Running?
  }

  /** The worker is between its claim and its finish, and its term is not over. */
  predicate HasTime(m: Machine, w: string, staleAfter: int, ttl: int) {
    w in m.workers && Busy(m.workers[w]) && m.clock < m.workers[w].pick.at + Term(ttl, staleAfter)
  }

  ghost predicate HoldInv(m: Machine, staleAfter: int, ttl: int) {
    && (forall w | w in m.workers && !m.workers[w].Idle? :: m.workers[w].pick.at <= m.clock)
    && (forall w | HasTime(m, w, staleAfter, ttl) ::
          m.workers[w].pick.number in m.queue.rows && HeldSince(m.queue.rows[m.workers[w].pick.number], w, m.workers[w].pick.at, ttl))
  }

  lemma StepKeepsHold(m: Machine, s: Step, staleAfter: int, ttl: int)
    requires HoldInv(m, staleAfter, ttl) && Enabled(m, s, staleAfter)
    ensures HoldInv(Apply(m, s, staleAfter, ttl), staleAfter, ttl)
  {
    var a := Apply(m, s, staleAfter, ttl);
    forall w | HasTime(a, w, staleAfter, ttl)
      ensures a.workers[w].pick.number in a.queue.rows
      ensures HeldSince(a.queue.rows[a.workers[w].pick.number], w, a.workers[w].pick.at, ttl)
    {
      if HasTime(m, w, staleAfter, ttl) && a.workers[w].pick == m.workers[w].pick {
        OthersLeaveHeld(m, s, w, staleAfter, ttl);
      }
    }
  }

  /** While a worker has time left, nobody else's step changes its lease. */
  lemma OthersLeaveHeld(m: Machine, s: Step, w: string, staleAfter: int, ttl: int)
    requires HoldInv(m, staleAfter, ttl) && Enabled(m, s, staleAfter) && HasTime(m, w, staleAfter, ttl)
    requires HasTime(Apply(m, s, staleAfter, ttl), w, staleAfter, ttl)
    ensures var pick, a := m.workers[w].pick, Apply(m, s, staleAfter, ttl);
            pick.number in a.queue.rows && HeldSince(a.queue.rows[pick.number], w, pick.at, ttl)
  {
    var pick := m.workers[w].pick;
    HeldForTerm(m.queue.rows[pick.number], w, pick.at, ttl, staleAfter, s.now);
    if s.Claim? {
      HeldForTerm(m.queue.rows[pick.number], w, pick.at, ttl, staleAfter, m.workers[s.worker].pick.at);
    }
  }

  lemma {:induction false} RunKeepsHold(m: Machine, steps: seq<Step>, staleAfter: int, ttl: int)
    requires HoldInv(m, staleAfter, ttl) && ValidRun(m, steps, staleAfter, ttl)
    ensures HoldInv(Run(m, steps, staleAfter, ttl), staleAfter, ttl)
    decreases |steps|
  {
    if steps != [] {
      StepKeepsHold(m, steps[0], staleAfter, ttl);
      RunKeepsHold(Apply(m, steps[0], staleAfter, ttl), steps[1..], staleAfter, ttl);
    }
  }

  /** Over every interleaving, of two workers between claim and finish on one pull request at most one
      has time left; it holds the row, and nobody can select or claim it. */
  lemma OneRefreshAtATime(workers: set<string>, steps: seq<Step>, clock: int, staleAfter: int, ttl: int, a: string, b: string)
    requires ValidRun(Machine(Queue(map[], false), map w | w in workers :: Idle, clock, false), steps, staleAfter, ttl)
    ensures var m := Run(Machine(Queue(map[], false), map w | w in workers :: Idle, clock, false), steps, staleAfter, ttl);
            && (HasTime(m, a, staleAfter, ttl) ==>
                  var n := m.workers[a].pick.number;
                  && n in m.queue.rows && m.queue.rows[n].owner == a
                  && !LeaseFree(m.queue.rows[n], m.clock, staleAfter) && !Eligible(m.queue.rows[n], m.clock, staleAfter))
            && (HasTime(m, a, staleAfter, ttl) && HasTime(m, b, staleAfter, ttl) ==>
                  m.workers[a].pick.number == m.workers[b].pick.number ==> a == b)
  {
    var start := Machine(Queue(map[], false), map w | w in workers :: Idle, clock, false);
    RunKeepsHold(start, steps, staleAfter, ttl);
    var m := Run(start, steps, staleAfter, ttl);
    if HasTime(m, a, staleAfter, ttl) {
      HeldForTerm(m.queue.rows[m.workers[a].pick.number], a, m.workers[a].pick.at, ttl, staleAfter, m.clock);
    }
  }

  /** Whenever no worker is between its claim and its finish, and none died there since the last
      finish, the flag is exactly the query. */
  lemma FlagIsQueryWhenIdle(workers: set<string>, steps: seq<Step>, clock: int, staleAfter: int, ttl: int)
    requires var start := Machine(Queue(map[], false), map w | w in workers :: Idle, clock, false);
             && ValidRun(start, steps, staleAfter, ttl)
             && !AnyRunning(Run(start, steps, staleAfter, ttl)) && !Run(start, steps, staleAfter, ttl).died
    ensures var q := Run(Machine(Queue(map[], false), map w | w in workers :: Idle, clock, false), steps, staleAfter, ttl).queue;
            (q.pending <==> PendingExists(q.rows)) && forall n | n in q.rows :: SoundRow(q.rows[n])
  {
    var start := Machine(Queue(map[], false), map w | w in workers :: Idle, clock, false);
    RunKeepsInv(start, steps, staleAfter, ttl);
  }

  /** The last statement of an acquire raises the flag, so after it the flag is the query exactly if
      something was waiting before it. */
  lemma AcquireKeepsFlagExactIff(m: Machine, worker: string, now: int, staleAfter: int, ttl: int)
    requires Enabled(m, Announce(worker, now), staleAfter)
    ensures var q := Apply(m, Announce(worker, now), staleAfter, ttl).queue;
            (q.pending <==> PendingExists(q.rows)) <==> PendingExists(m.queue.rows)
  {
  }

  /** With nothing between select and claim the picked row itself is waiting. */
  lemma UninterruptedAcquireFindsWaiting(q: Queue, number: int, worker: string, now: int, staleAfter: int, ttl: int)
    requires number in q.rows && Eligible(q.rows[number], now, staleAfter)
    ensures PendingExists(q.rows[number := Leased(q.rows[number], worker, now, ttl)])
  {
    assert Waiting(q.rows[number]);
    LeasingKeepsWaiting(q.rows, number, worker, now, ttl);
  }

  lemma OneStep(m: Machine, steps: seq<Step>, end: Machine, staleAfter: int, ttl: int)
    requires steps != [] && Enabled(m, steps[0], staleAfter)
    requires ValidRun(Apply(m, steps[0], staleAfter, ttl), steps[1..], staleAfter, ttl)
    requires Run(Apply(m, steps[0], staleAfter, ttl), steps[1..], staleAfter, ttl) == end
    ensures ValidRun(m, steps, staleAfter, ttl) && Run(m, steps, staleAfter, ttl) == end
  {
  }

  /** Two workers select the same row; one refreshes it and is done before the other claims it. The
      claim asks only for a free lease, so the other takes the finished row and raises the flag with
      nothing waiting. If it dies at work the flag stays up with nothing waiting and nobody at work. */
  lemma StaleClaimRaisesFlag(a: string, b: string, staleAfter: int, ttl: int)
    requires a != b
    ensures var start := Machine(Queue(map[], false), map[a := Idle, b := Idle], 0, false);
            var steps := [Enqueue(7, 1), Select(a, 7, 2), Select(b, 7, 3), Claim(b, 4), Announce(b, 5), Finish(b, true, 6),
                          Claim(a, 7), Announce(a, 8)];
            && ValidRun(start, steps, staleAfter, ttl)
            && var end := Run(start, steps, staleAfter, ttl);
            && end.queue.pending && !PendingExists(end.queue.rows)
            && Enabled(end, Drop(a, 9), staleAfter)
            && var dead := Apply(end, Drop(a, 9), staleAfter, ttl);
            dead.queue == end.queue && !AnyRunning(dead)
  {
    var m0 := Machine(Queue(map[], false), map[a := Idle, b := Idle], 0, false);
    var m1 := Apply(m0, Enqueue(7, 1), staleAfter, ttl);
    var m2 := Apply(m1, Select(a, 7, 2), staleAfter, ttl);
    var m3 := Apply(m2, Select(b, 7, 3), staleAfter, ttl);
    var end := FinishedThenClaimed(m3, a, b, staleAfter, ttl);
    OneStep(m2, [Select(b, 7, 3), Claim(b, 4), Announce(b, 5), Finish(b, true, 6), Claim(a, 7), Announce(a, 8)], end, staleAfter, ttl);
    OneStep(m1, [Select(a, 7, 2), Select(b, 7, 3), Claim(b, 4), Announce(b, 5), Finish(b, true, 6), Claim(a, 7), Announce(a, 8)],
            end, staleAfter, ttl);
    OneStep(m0, [Enqueue(7, 1), Select(a, 7, 2), Select(b, 7, 3), Claim(b, 4), Announce(b, 5), Finish(b, true, 6), Claim(a, 7),
                 Announce(a, 8)], end, staleAfter, ttl);
  }

  /** The second half of that run, from where both workers have selected the row. */
  lemma FinishedThenClaimed(m: Machine, a: string, b: string, staleAfter: int, ttl: int) returns (end: Machine)
    requires m.queue.rows == map[7 := Row(Some(1), None, 0, None, None, "", None, None)] && m.clock == 3 && a != b
    requires m.workers == map[a := Selected(Picked(7, 0, 2)), b := Selected(Picked(7, 0, 3))]
    ensures var steps := [Claim(b, 4), Announce(b, 5), Finish(b, true, 6), Claim(a, 7), Announce(a, 8)];
            ValidRun(m, steps, staleAfter, ttl) && Run(m, steps, staleAfter, ttl) == end
    ensures end.queue.pending && !PendingExists(end.queue.rows)
    ensures end.clock == 8 && end.workers.Keys == {a, b} && !end.workers[b].Running?
  {
    var m4 := Apply(m, Claim(b, 4), staleAfter, ttl);
    var m5 := Apply(m4, Announce(b, 5), staleAfter, ttl);
    var m6 := Apply(m5, Finish(b, true, 6), staleAfter, ttl);
    var m7 := Apply(m6, Claim(a, 7), staleAfter, ttl);
    end := Apply(m7, Announce(a, 8), staleAfter, ttl);
    OneStep(m7, [Announce(a, 8)], end, staleAfter, ttl);
    OneStep(m6, [Claim(a, 7), Announce(a, 8)], end, staleAfter, ttl);
    OneStep(m5, [Finish(b, true, 6), Claim(a, 7), Announce(a, 8)], end, staleAfter, ttl);
    OneStep(m4, [Announce(b, 5), Finish(b, true, 6), Claim(a, 7), Announce(a, 8)], end, staleAfter, ttl);
    OneStep(m, [Claim(b, 4), Announce(b, 5), Finish(b, true, 6), Claim(a, 7), Announce(a, 8)], end, staleAfter, ttl);
  }

  // ------------------------------------------------------------ requests that go astray

  /** What the finish of its owner leaves of a row: after a success it is done up to now; after the
      first to fourth failure it can be picked up again exactly 1, 5, 15 or 60 minutes later; after the
      fifth it cannot, until it is requested anew. */
  lemma FinishDecidesRetry(q: Queue, worker: string, number: int, attempts: int, now: int, succeeded: bool, later: int, staleAfter: int)
    requires number in q.rows && q.rows[number].owner == worker && q.rows[number].requestedAt.Some? && 0 <= attempts < MAX_ATTEMPTS
    ensures var before, after := q.rows[number], Finished(q, worker, number, attempts, now, succeeded).rows[number];
            && LeaseFree(after, later, staleAfter) && after.owner == "" && after.heartbeatAt == None && after.leaseUntil == None
            && after.requestedAt == before.requestedAt
            && (succeeded ==> (Eligible(after, later, staleAfter) <==> before.requestedAt.value > now) && after.attemptCount == 0)
            && (!succeeded ==>
                  && after.attemptCount == attempts + 1
                  && (Eligible(after, later, staleAfter) <==>
                        && attempts < 4 && Waiting(before.(parkedAt := None))
                        && later >= now + MINUTE * (if attempts == 0 then 1 else if attempts == 1 then 5 else if attempts == 2 then 15 else 60)))
    ensures forall n | n in q.rows && n != number ::
              n in Finished(q, worker, number, attempts, now, succeeded).rows
              && Finished(q, worker, number, attempts, now, succeeded).rows[n] == q.rows[n]
  {
  }

  /** A request makes its row waiting and due at once if it is newer than the last completion; a lease
      on it stays, and no other row changes. */
  lemma RequestIsDueAtOnce(q: Queue, number: int, seenAt: int, later: int, staleAfter: int)
    requires number > 0
    ensures var rows := Enqueued(q, number, seenAt).rows;
            && rows.Keys == q.rows.Keys + {number} && rows[number].requestedAt == Some(seenAt) && rows[number].attemptCount == 0
            && (Eligible(rows[number], later, staleAfter) <==>
                  number !in q.rows
                  || ((q.rows[number].lastCompletedAt.None? || q.rows[number].lastCompletedAt.value < seenAt)
                      && LeaseFree(q.rows[number], later, staleAfter)))
            && forall n | n in q.rows && n != number :: rows[n] == q.rows[n]
  {
  }

  /** What becomes of a request that is waiting when a refresh of its pull request finishes: it is
      still waiting exactly if the worker had lost the row or failed for less than the fifth time.
      So a success covers a request that arrived after the pull request was fetched, and a fifth
      failure parks a request that was never tried. */
  lemma RequestSurvivesFinish(q: Queue, worker: string, number: int, attempts: int, now: int, succeeded: bool)
    requires number in q.rows && Waiting(q.rows[number]) && q.rows[number].requestedAt.value <= now
    ensures Waiting(Finished(q, worker, number, attempts, now, succeeded).rows[number])
            <==> q.rows[number].owner != worker || (!succeeded && attempts + 1 < MAX_ATTEMPTS)
  {
  }

  /** For example: a request that comes in while its pull request is being refreshed is gone, flag and
      all, once that refresh succeeds. */
  lemma RequestDuringRefreshIsAbsorbed(worker: string, t: int, staleAfter: int, ttl: int)
    requires t > 0
    ensures var start := Machine(Queue(map[], false), map[worker := Idle], 0, false);
            var steps := [Enqueue(7, t), Select(worker, 7, t + 1), Claim(worker, t + 2), Announce(worker, t + 3),
                          Enqueue(7, t + 4), Finish(worker, true, t + 5)];
            && ValidRun(start, steps, staleAfter, ttl)
            && var q := Run(start, steps, staleAfter, ttl).queue;
               7 in q.rows && q.rows[7].requestedAt == Some(t + 4) && !Waiting(q.rows[7]) && !q.pending
  {
    var m0 := Machine(Queue(map[], false), map[worker := Idle], 0, false);
    var m1 := Apply(m0, Enqueue(7, t), staleAfter, ttl);
    var m2 := Apply(m1, Select(worker, 7, t + 1), staleAfter, ttl);
    var m3 := Apply(m2, Claim(worker, t + 2), staleAfter, ttl);
    var m4 := Apply(m3, Announce(worker, t + 3), staleAfter, ttl);
    var m6 := AbsorbedByFinish(m4, worker, t, staleAfter, ttl);
    OneStep(m3, [Announce(worker, t + 3), Enqueue(7, t + 4), Finish(worker, true, t + 5)], m6, staleAfter, ttl);
    OneStep(m2, [Claim(worker, t + 2), Announce(worker, t + 3), Enqueue(7, t + 4), Finish(worker, true, t + 5)], m6, staleAfter, ttl);
    OneStep(m1, [Select(worker, 7, t + 1), Claim(worker, t + 2), Announce(worker, t + 3), Enqueue(7, t + 4), Finish(worker, true, t + 5)],
            m6, staleAfter, ttl);
    OneStep(m0, [Enqueue(7, t), Select(worker, 7, t + 1), Claim(worker, t + 2), Announce(worker, t + 3), Enqueue(7, t + 4),
                 Finish(worker, true, t + 5)], m6, staleAfter, ttl);
  }

  /** The last two steps of that run. */
  lemma AbsorbedByFinish(m: Machine, worker: string, t: int, staleAfter: int, ttl: int) returns (end: Machine)
    requires m.queue.rows.Keys == {7} && m.queue.rows[7].owner == worker && m.clock == t + 3
    requires worker in m.workers && m.workers[worker].Running? && m.workers[worker].pick.number == 7
    ensures var steps := [Enqueue(7, t + 4), Finish(worker, true, t + 5)];
            ValidRun(m, steps, staleAfter, ttl) && Run(m, steps, staleAfter, ttl) == end
    ensures 7 in end.queue.rows && end.queue.rows[7].requestedAt == Some(t + 4)
    ensures !Waiting(end.queue.rows[7]) && !end.queue.pending
  {
    var m5 := Apply(m, Enqueue(7, t + 4), staleAfter, ttl);
    end := Apply(m5, Finish(worker, true, t + 5), staleAfter, ttl);
    OneStep(m5, [Finish(worker, true, t + 5)], end, staleAfter, ttl);
    OneStep(m, [Enqueue(7, t + 4), Finish(worker, true, t + 5)], end, staleAfter, ttl);
  }

  /** The flag after a request is the query exactly if the request is newer than the last completion
      of its row or another row waits. */
  lemma EnqueueKeepsFlagExact(q: Queue, number: int, seenAt: int)
    requires number > 0
    ensures (Enqueued(q, number, seenAt).pending <==> PendingExists(Enqueued(q, number, seenAt).rows))
            <==> (number !in q.rows || q.rows[number].lastCompletedAt.None? || q.rows[number].lastCompletedAt.value < seenAt
                  || exists n | n in q.rows && n != number :: Waiting(q.rows[n]))
  {
    var rows := Enqueued(q, number, seenAt).rows;
    if exists n | n in q.rows && n != number :: Waiting(q.rows[n]) {
      var n :| n in q.rows && n != number && Waiting(q.rows[n]);
      assert Waiting(rows[n]);
    } else if number !in q.rows || q.rows[number].lastCompletedAt.None? || q.rows[number].lastCompletedAt.value < seenAt {
      EnqueuedWaits(q, number, seenAt);
    }
  }
}
