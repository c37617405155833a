/** The queue of repository refresh jobs: enqueue, claim, fail, succeed, recover and supersede, by any
    number of workers (internal/refresh/service.go). */
module RefreshJobs {
  import opened Common

  const MAX_ATTEMPTS := 3
  const BOOTSTRAP := "bootstrap_repository"
  const SECOND := 1000

  datatype Status = Pending | Processing | Succeeded | Failed | Superseded

  datatype Repository = Repository(id: int, fullName: string)

  datatype Tracked = Tracked(id: int, repositoryId: Option<int>)

  /** A request with what the lookups by its name found: the tracked repository and the stored one. */
  datatype Request = Request(jobType: string, fullName: string, source: string, tracked: Option<Tracked>, repository: Option<Repository>)

  /** repositoryId and trackedId are NULL on jobs that predate them. */
  datatype Job = Job(jobType: string, fullName: string, repositoryId: Option<int>, trackedId: Option<int>, source: string, status: Status,
                     attempts: int, maxAttempts: int, requestedAt: int, nextAttemptAt: Option<int>, startedAt: Option<int>, leaseExpiresAt: Option<int>)

  type Jobs = map<int, Job>

  /** backoffForAttempt */
  function Backoff(attempt: int): int {
    if attempt == 0 || attempt == 1 then 15 * SECOND else if attempt == 2 then 60 * SECOND else 300 * SECOND
  }

  // ------------------------------------------------------------ what one call does

  /** normalizeRefreshJobType */
  function JobType(jobType: string): string {
    if TrimSpace(jobType) == "" then BOOTSTRAP else TrimSpace(jobType)
  }

  /** refreshJobIdentityCondition: by either id, or by name for a job without ids. */
  predicate SameTarget(j: Job, r: Request) {
    || (r.repository.Some? && j.repositoryId == Some(r.repository.value.id))
    || (r.tracked.Some? && j.trackedId == Some(r.tracked.value.id))
    || (r.tracked.Some? && r.tracked.value.repositoryId.Some? && j.repositoryId == r.tracked.value.repositoryId)
    || (TrimSpace(r.fullName) != "" && j.repositoryId.None? && j.trackedId.None? && j.fullName == TrimSpace(r.fullName))
  }

  /** Waiting, or at work under a lease that has not run out. */
  predicate Live(j: Job, now: int) {
    j.status == Pending || (j.status == Processing && (j.leaseExpiresAt.None? || j.leaseExpiresAt.value > now))
  }

  predicate LiveFor(j: Job, r: Request, now: int) {
    j.jobType == JobType(r.jobType) && Live(j, now) && SameTarget(j, r)
  }

  /** refreshJobExists */
  predicate RefreshJobExists(jobs: Jobs, r: Request, now: int) {
    exists id | id in jobs :: LiveFor(jobs[id], r, now)
  }

  /** buildRepositoryRefreshJob: a stored repository lends its own name, and a tracked one its
      repository id where none is stored under the name. */
  function Fresh(r: Request, now: int): Job {
    Job(JobType(r.jobType),
        if r.repository.Some? then r.repository.value.fullName else r.fullName,
        if r.repository.Some? then Some(r.repository.value.id) else if r.tracked.Some? then r.tracked.value.repositoryId else None,
        if r.tracked.Some? then Some(r.tracked.value.id) else None,
        r.source, Pending, 0, MAX_ATTEMPTS, now, Some(now), None, None)
  }

  /** A later request for the same would find the new job: it carries an id, or its name has no space
      around it. */
  predicate Findable(r: Request) {
    r.repository.Some? || r.tracked.Some? || (r.fullName != "" && Trimmed(r.fullName))
  }

  predicate Claimable(j: Job, now: int) {
    j.jobType == BOOTSTRAP && j.status == Pending && (j.nextAttemptAt.None? || j.nextAttemptAt.value <= now)
  }

  function Claimed(j: Job, now: int, ttl: int): Job {
    j.(status := Processing, attempts := j.attempts + 1, startedAt := Some(now), leaseExpiresAt := Some(now + ttl))
  }

  /** markSucceeded asks for the id and nothing more; the repository is the one it found stored. */
  function SucceededJob(j: Job, found: Option<Repository>): Job {
    var ended := j.(status := Succeeded, nextAttemptAt := None, leaseExpiresAt := None);
    if found.Some? then ended.(repositoryId := Some(found.value.id), fullName := found.value.fullName) else ended
  }

  /** No claim takes the job, no recovery resets it and no request finds it, at whatever time. */
  ghost predicate AtRest(j: Job) {
    && (forall now :: !Claimable(j, now))
    && (forall now, ttl :: !Expired(j, now, ttl))
    && (forall r, now :: !LiveFor(j, r, now))
  }

  /** markFailed neither asks who holds the job nor in which state it is. */
  function FailedJob(j: Job, temporary: bool, now: int): Job {
    if temporary && j.attempts < j.maxAttempts then
      j.(status := Pending, nextAttemptAt := Some(now + Backoff(j.attempts)), startedAt := None, leaseExpiresAt := None)
    else j.(status := Failed, nextAttemptAt := None, leaseExpiresAt := None)
  }

  predicate Expired(j: Job, now: int, ttl: int) {
    && j.status == Processing
    && ((j.leaseExpiresAt.Some? && j.leaseExpiresAt.value <= now)
        || (j.leaseExpiresAt.None? && j.startedAt.Some? && j.startedAt.value <= now - ttl))
  }

  function RecoveredJob(j: Job, now: int): Job {
    var free := j.(leaseExpiresAt := None, startedAt := None);
    if j.attempts < j.maxAttempts then free.(status := Pending, nextAttemptAt := Some(now))
    else free.(status := Failed, nextAttemptAt := None)
  }

  function Recovered(jobs: Jobs, now: int, ttl: int): Jobs {
    map id | id in jobs :: if Expired(jobs[id], now, ttl) then RecoveredJob(jobs[id], now) else jobs[id]
  }

  /** These jobs are still to be recovered, the others are done. */
  ghost predicate RecoveredBut(jobs: Jobs, before: Jobs, found: set<int>, now: int, ttl: int) {
    && jobs.Keys == before.Keys && found <= jobs.Keys
    && (forall id | id in found :: jobs[id] == before[id] && Expired(before[id], now, ttl))
    && (forall id | id in jobs && id !in found :: jobs[id] == Recovered(before, now, ttl)[id])
  }

  lemma RecoverOne(jobs: Jobs, before: Jobs, found: set<int>, id: int, now: int, ttl: int)
    requires RecoveredBut(jobs, before, found, now, ttl) && id in found
    ensures RecoveredBut(jobs[id := RecoveredJob(jobs[id], now)], before, found - {id}, now, ttl)
  {
  }

  /** supersedeWebhookRefreshJobs */
  function SupersededJob(j: Job): Job {
    if j.source == "webhook" && (j.status == Pending || j.status == Processing || j.status == Failed) then
      j.(status := Superseded, nextAttemptAt := None, leaseExpiresAt := None)
    else j
  }

  /** updateRepositoryRefreshJobs, as a merge of two tracked rows does it: the jobs of both are moved
      to the row that stays. */
  function MergedJob(j: Job, from: int, to: Tracked, fullName: string): Job {
    if j.trackedId == Some(from) || j.trackedId == Some(to.id) then
      j.(trackedId := Some(to.id), repositoryId := to.repositoryId, fullName := fullName)
    else j
  }

  // ------------------------------------------------------------ what that means in time

  /** The job is for the same repository, of the same type and origin, and as often allowed. */
  predicate SameOrder(a: Job, b: Job) {
    && a.jobType == b.jobType && a.fullName == b.fullName && a.repositoryId == b.repositoryId && a.trackedId == b.trackedId
    && a.source == b.source && a.maxAttempts == b.maxAttempts && a.requestedAt == b.requestedAt
  }

  /** A type is trimmed, and a blank one stands for a bootstrap. */
  lemma JobTypeForms(jobType: string)
    ensures TrimSpace(jobType) == "" ==> JobType(jobType) == "bootstrap_repository"
    ensures jobType != "" && Trimmed(jobType) ==> JobType(jobType) == jobType
    ensures JobType(TrimSpace(jobType)) == JobType(jobType)
  {
    TrimSpaceFixed(jobType);
    TrimSpaceFixed(TrimSpace(jobType));
  }

  /** A new job can be claimed from its request on, if it is a bootstrap; no other type ever can. */
  lemma NewJobIsDueAtOnce(r: Request, now: int, later: int)
    ensures Claimable(Fresh(r, now), later) <==> JobType(r.jobType) == BOOTSTRAP && later >= now
    ensures Fresh(r, now).attempts == 0 && Fresh(r, now).source == r.source && Fresh(r, now).requestedAt == now
  {
  }

  /** A claimed job is out of reach until its lease ends: until then nobody can claim or recover it and
      requests find it at work; from then on it can be recovered and requests do not find it. */
  lemma ClaimLasts(j: Job, at: int, ttl: int, now: int, staleTTL: int)
    ensures var c := Claimed(j, at, ttl);
            && !Claimable(c, now) && (Expired(c, now, staleTTL) <==> now >= at + ttl) && (Live(c, now) <==> now < at + ttl)
            && SameOrder(c, j) && c.attempts == j.attempts + 1 && c.startedAt == Some(at)
  {
  }

  /** A job at work that has no lease is judged by its start; without that it never expires. */
  lemma WithoutLease(j: Job, now: int, ttl: int)
    requires j.status == Processing && j.leaseExpiresAt.None?
    ensures Expired(j, now, ttl) <==> j.startedAt.Some? && now >= j.startedAt.value + ttl
    ensures Live(j, now)
  {
  }

  /** After a temporary failure with attempts left a bootstrap can be claimed again exactly a quarter of
      a minute, a minute or five minutes later, for up to one, two and more attempts; any other failure
      is the end of it. */
  lemma FailureDecidesRetry(j: Job, temporary: bool, at: int, now: int)
    requires j.attempts >= 0
    ensures var f := FailedJob(j, temporary, at);
            && SameOrder(f, j) && f.attempts == j.attempts && f.leaseExpiresAt == None
            && (Claimable(f, now) <==>
                  && temporary && j.attempts < j.maxAttempts && j.jobType == BOOTSTRAP
                  && now >= at + 1000 * (if j.attempts <= 1 then 15 else if j.attempts == 2 then 60 else 300))
            && (if temporary && j.attempts < j.maxAttempts then f.status == Pending && f.startedAt == None
                else AtRest(f) && f.status == Failed && f.nextAttemptAt == None)
  {
  }

  /** A recovered job with attempts left can be claimed at once, otherwise it is the end of it. */
  lemma RecoveryDecidesRetry(j: Job, at: int, now: int)
    requires j.jobType == BOOTSTRAP
    ensures var r := RecoveredJob(j, at);
            && SameOrder(r, j) && r.attempts == j.attempts && r.leaseExpiresAt == None && r.startedAt == None
            && (Claimable(r, now) <==> j.attempts < j.maxAttempts && now >= at)
            && (j.attempts >= j.maxAttempts ==> AtRest(r) && r.status == Failed && r.nextAttemptAt == None)
  {
  }

  /** A merge moves exactly the jobs of the two rows to the one that stays, with its repository and
      name, and changes nothing else about them. */
  lemma MergeMovesExactly(j: Job, from: int, to: Tracked, fullName: string)
    ensures var k := MergedJob(j, from, to, fullName);
            && (j.trackedId != Some(from) && j.trackedId != Some(to.id) ==> k == j)
            && (j.trackedId == Some(from) || j.trackedId == Some(to.id) ==>
                  && k.trackedId == Some(to.id) && k.repositoryId == to.repositoryId && k.fullName == fullName
                  && k.(trackedId := j.trackedId, repositoryId := j.repositoryId, fullName := j.fullName) == j)
  {
  }

  lemma {:induction false} SameJobs(a: Jobs, b: Jobs)
    requires a.Keys == b.Keys && forall id | id in a :: a[id] == b[id]
    ensures a == b
    decreases |a|
  {
    if a.Keys != {} {
      var id: int := Any(a.Keys);
      SameJobs(a - {id}, b - {id});
      assert a == (a - {id})[id := a[id]] && b == (b - {id})[id := b[id]];
    }
  }

  class JobQueue {
    var jobs: Jobs
    var nextId: int

    constructor ()
      ensures jobs == map[] && nextId == 1
    {
      jobs, nextId := map[], 1;
    }

    method EnqueueRefresh(r: Request, now: int)
      requires nextId !in jobs
      modifies this
      ensures if RefreshJobExists(old(jobs), r, now) then jobs == old(jobs) && nextId == old(nextId)
              else jobs == old(jobs)[old(nextId) := Fresh(r, now)] && nextId == old(nextId) + 1
      ensures RefreshJobExists(jobs, r, now) <==> RefreshJobExists(old(jobs), r, now) || Findable(r)
    {
      if RefreshJobExists(jobs, r, now) {
        return;
      }
      FreshIsFound(r, now);
      var created := Fresh(r, now);
      jobs := jobs[nextId := created];
      assert LiveFor(jobs[nextId], r, now) <==> Findable(r);
      nextId := nextId + 1;
    }

    /** claimNextJob takes the claimable job requested first, the lower id on a tie. */
    method ClaimNextJob(now: int, ttl: int) returns (claimed: Option<int>)
      modifies this
      ensures nextId == old(nextId)
      ensures claimed.None? ==> jobs == old(jobs) && forall id | id in jobs :: !Claimable(jobs[id], now)
      ensures claimed.Some? ==>
                var id := claimed.value;
                && id in old(jobs) && Claimable(old(jobs)[id], now) && jobs == old(jobs)[id := Claimed(old(jobs)[id], now, ttl)]
                && forall other | other in old(jobs) && Claimable(old(jobs)[other], now) ::
                     old(jobs)[id].requestedAt < old(jobs)[other].requestedAt
                     || (old(jobs)[id].requestedAt == old(jobs)[other].requestedAt && id <= other)
    {
      var ids := jobs.Keys;
      claimed := None;
      while ids != {}
        invariant ids <= jobs.Keys && jobs == old(jobs) && nextId == old(nextId)
        invariant claimed.None? ==> forall id | id in jobs && id !in ids :: !Claimable(jobs[id], now)
        invariant claimed.Some? ==>
                    && claimed.value in jobs && Claimable(jobs[claimed.value], now)
                    && forall other | other in jobs && other !in ids && Claimable(jobs[other], now) ::
                         jobs[claimed.value].requestedAt < jobs[other].requestedAt
                         || (jobs[claimed.value].requestedAt == jobs[other].requestedAt && claimed.value <= other)
      {
        HasNumber(ids);
        var id :| id in ids;
        if Claimable(jobs[id], now) {
          if claimed.None? || jobs[id].requestedAt < jobs[claimed.value].requestedAt
             || (jobs[id].requestedAt == jobs[claimed.value].requestedAt && id < claimed.value) {
            claimed := Some(id);
          }
        }
        ids := ids - {id};
      }
      if claimed.Some? {
        jobs := jobs[claimed.value := Claimed(jobs[claimed.value], now, ttl)];
      }
    }

    /** Whatever its state was, the job is at rest, so the attempts left to it are not used, and it
        names the repository found; all other jobs stay as they are. */
    method MarkSucceeded(id: int, found: Option<Repository>)
      modifies this
      ensures nextId == old(nextId)
      ensures jobs == if id in old(jobs) then old(jobs)[id := SucceededJob(old(jobs)[id], found)] else old(jobs)
      ensures id in jobs ==> AtRest(jobs[id]) && jobs[id].attempts == old(jobs)[id].attempts
      ensures id in jobs ==> jobs[id].status == Succeeded && jobs[id].nextAttemptAt == None && jobs[id].leaseExpiresAt == None
      ensures id in jobs && found.Some? ==> jobs[id].repositoryId == Some(found.value.id) && jobs[id].fullName == found.value.fullName
      ensures id in jobs && found.Some? ==> SameTarget(jobs[id], Request("", "", "", None, found))
    {
      if id in jobs {
        jobs := jobs[id := SucceededJob(jobs[id], found)];
      }
    }

    method MarkFailed(id: int, temporary: bool, now: int)
      modifies this
      ensures nextId == old(nextId)
      ensures jobs == if id in old(jobs) then old(jobs)[id := FailedJob(old(jobs)[id], temporary, now)] else old(jobs)
    {
      if id !in jobs {
        return;
      }
      var job := jobs[id];
      if temporary && job.attempts < job.maxAttempts {
        var retryAt := now + Backoff(job.attempts);
        jobs := jobs[id := job.(status := Pending, nextAttemptAt := Some(retryAt), startedAt := None, leaseExpiresAt := None)];
        return;
      }
      jobs := jobs[id := job.(status := Failed, nextAttemptAt := None, leaseExpiresAt := None)];
    }

    /** recoverExpiredLeases: the expired jobs are read first and then written one by one. */
    method RecoverExpiredLeases(now: int, ttl: int)
      modifies this
      ensures nextId == old(nextId) && jobs == Recovered(old(jobs), now, ttl)
    {
      var found := set id | id in jobs && Expired(jobs[id], now, ttl);
      while found != {}
        invariant nextId == old(nextId) && RecoveredBut(jobs, old(jobs), found, now, ttl)
      {
        HasNumber(found);
        var id :| id in found;
        var job := jobs[id];
        var free := job.(leaseExpiresAt := None, startedAt := None);
        if job.attempts < job.maxAttempts {
          free := free.(status := Pending, nextAttemptAt := Some(now));
        } else {
          free := free.(status := Failed, nextAttemptAt := None);
        }
        RecoverOne(jobs, old(jobs), found, id, now, ttl);
        jobs := jobs[id := free];
        found := found - {id};
      }
      SameJobs(jobs, Recovered(old(jobs), now, ttl));
    }

    /** The live jobs afterwards are the live jobs of other sources, the other webhook jobs are at
        rest, and only finished ones keep their state. */
    method SupersedeWebhookRefreshJobs()
      modifies this
      ensures nextId == old(nextId) && jobs.Keys == old(jobs).Keys
      ensures forall id | id in jobs :: jobs[id] == SupersededJob(old(jobs)[id])
      ensures forall id | id in jobs && jobs[id].source == "webhook" :: AtRest(jobs[id]) && jobs[id].status in {Succeeded, Superseded}
      ensures forall id | id in jobs && jobs[id] != old(jobs)[id] :: jobs[id].nextAttemptAt == None && jobs[id].leaseExpiresAt == None
      ensures forall id | id in jobs && jobs[id].source != "webhook" :: jobs[id] == old(jobs)[id]
      ensures forall id | id in jobs && old(jobs)[id].status in {Succeeded, Superseded} :: jobs[id] == old(jobs)[id]
    {
      jobs := map id | id in jobs :: SupersededJob(jobs[id]);
    }
  }

  // -------------------------------------------------------------------- all runs

  datatype Step =
    | Enqueue(request: Request, now: int)
    | Claim(id: int, now: int)
    | Succeed(id: int, found: Option<Repository>)
    | Fail(id: int, temporary: bool, now: int)
    | Recover(now: int)
    | Supersede
    | Merge(from: int, to: Tracked, fullName: string)

  datatype Machine = Machine(jobs: Jobs, nextId: int)

  /** A claim takes any pending job: the update of claimNextJob asks only for that, so the job may
      have changed since it was selected. Succeed and Fail come from any worker at any time. */
  function Apply(m: Machine, s: Step, ttl: int): Machine {
    match s
    case Enqueue(r, now) =>
      if RefreshJobExists(m.jobs, r, now) then m else Machine(m.jobs[m.nextId := Fresh(r, now)], m.nextId + 1)
    case Claim(id, now) => if Takes(m, s, id) then m.(jobs := m.jobs[id := Claimed(m.jobs[id], now, ttl)]) else m
    case Succeed(id, found) => if id in m.jobs then m.(jobs := m.jobs[id := SucceededJob(m.jobs[id], found)]) else m
    case Fail(id, temporary, now) => if id in m.jobs then m.(jobs := m.jobs[id := FailedJob(m.jobs[id], temporary, now)]) else m
    case Recover(now) => m.(jobs := Recovered(m.jobs, now, ttl))
    case Supersede => m.(jobs := map id | id in m.jobs :: SupersededJob(m.jobs[id]))
    case Merge(from, to, fullName) => m.(jobs := map id | id in m.jobs :: MergedJob(m.jobs[id], from, to, fullName))
  }

  /** The step claims this job. */
  predicate Takes(m: Machine, s: Step, id: int) {
    s.Claim? && s.id == id && id in m.jobs && m.jobs[id].status == Pending
  }

  function Run(steps: seq<Step>, ttl: int): Machine {
    if steps == [] then Machine(map[], 1) else Apply(Run(steps[..|steps| - 1], ttl), steps[|steps| - 1], ttl)
  }

  /** How often a job was claimed in a run. */
  function Claims(steps: seq<Step>, ttl: int, id: int): nat {
    if steps == [] then 0
    else
      Claims(steps[..|steps| - 1], ttl, id) + if Takes(Run(steps[..|steps| - 1], ttl), steps[|steps| - 1], id) then 1 else 0
  }

  predicate SoundJob(j: Job) {
    && j.maxAttempts == MAX_ATTEMPTS && 0 <= j.attempts <= j.maxAttempts
    && (j.status == Pending ==> j.attempts < j.maxAttempts && j.nextAttemptAt.Some?)
    && (j.status == Processing ==> j.attempts >= 1 && j.startedAt.Some?)
    && (j.leaseExpiresAt.Some? <==> j.status == Processing)
  }

  ghost predicate Inv(m: Machine) {
    forall id | id in m.jobs :: id < m.nextId && SoundJob(m.jobs[id])
  }

  lemma OneJobKeepsInv(m: Machine, id: int, j: Job)
    requires Inv(m) && id in m.jobs && SoundJob(j)
    ensures Inv(m.(jobs := m.jobs[id := j]))
  {
  }

  lemma AllJobsKeepInv(m: Machine, jobs: Jobs)
    requires Inv(m) && jobs.Keys == m.jobs.Keys && forall id | id in jobs :: SoundJob(jobs[id])
    ensures Inv(m.(jobs := jobs))
  {
  }

  lemma StepIsSound(m: Machine, s: Step, ttl: int)
    requires Inv(m)
    ensures Inv(Apply(m, s, ttl))
  {
    match s
    case Enqueue(r, now) =>
      assert SoundJob(Fresh(r, now));
    case Claim(id, now) =>
      if Takes(m, s, id) {
        OneJobKeepsInv(m, id, Claimed(m.jobs[id], now, ttl));
      }
    case Succeed(id, found) =>
      if id in m.jobs {
        OneJobKeepsInv(m, id, SucceededJob(m.jobs[id], found));
      }
    case Fail(id, temporary, now) =>
      if id in m.jobs {
        OneJobKeepsInv(m, id, FailedJob(m.jobs[id], temporary, now));
      }
    case Recover(now) => AllJobsKeepInv(m, Recovered(m.jobs, now, ttl));
    case Supersede => AllJobsKeepInv(m, Apply(m, s, ttl).jobs);
    case Merge(from, to, fullName) => AllJobsKeepInv(m, Apply(m, s, ttl).jobs);
  }

  /** A step changes the attempts of a job only by claiming it, and then by one. */
  lemma StepKeepsInv(m: Machine, s: Step, ttl: int, id: int)
    requires Inv(m)
    ensures Inv(Apply(m, s, ttl))
    ensures id in m.jobs ==>
              id in Apply(m, s, ttl).jobs
              && Apply(m, s, ttl).jobs[id].attempts == m.jobs[id].attempts + if Takes(m, s, id) then 1 else 0
    ensures id !in m.jobs && id in Apply(m, s, ttl).jobs ==> Apply(m, s, ttl).jobs[id].attempts == 0
  {
    StepIsSound(m, s, ttl);
  }

  /** In every run a pending job has attempts left, attempts never exceed the limit, a lease is set
      exactly while a job is processing, and a job was claimed exactly as often as it has attempts,
      at most three times. That holds with late workers, who fail or finish jobs that were recovered,
      claimed anew or superseded in the meantime. */
  lemma {:induction false} ClaimsAreBounded(steps: seq<Step>, ttl: int, id: int)
    ensures Inv(Run(steps, ttl))
    ensures Claims(steps, ttl, id) == if id in Run(steps, ttl).jobs then Run(steps, ttl).jobs[id].attempts else 0
    ensures Claims(steps, ttl, id) <= MAX_ATTEMPTS == 3
  {
    if steps != [] {
      ClaimsAreBounded(steps[..|steps| - 1], ttl, id);
      StepKeepsInv(Run(steps[..|steps| - 1], ttl), steps[|steps| - 1], ttl, id);
    }
  }

  /** After recovery no lease has run out; a job whose lease had is pending exactly if it has attempts
      left and failed otherwise. */
  lemma RecoveryLeavesNoExpired(m: Machine, now: int, ttl: int, id: int)
    requires Inv(m) && id in m.jobs
    ensures var after := Apply(m, Recover(now), ttl).jobs[id];
            && !Expired(after, now, ttl)
            && (Expired(m.jobs[id], now, ttl) ==> after.status == if m.jobs[id].attempts < MAX_ATTEMPTS then Pending else Failed)
            && (!Expired(m.jobs[id], now, ttl) ==> after == m.jobs[id])
  {
  }

  /** Ended states do not last: a late temporary failure puts a job back to pending exactly if it has
      attempts left, whatever its state, a success included; any other late report overwrites it. */
  lemma LateReportOverwrites(m: Machine, id: int, temporary: bool, now: int, ttl: int)
    requires Inv(m) && id in m.jobs
    ensures Apply(m, Fail(id, temporary, now), ttl).jobs[id].status
            == if temporary && m.jobs[id].attempts < MAX_ATTEMPTS then Pending else Failed
    ensures forall found :: Apply(m, Succeed(id, found), ttl).jobs[id].status == Succeeded
  {
  }

  /** The step is a worker's report about this job. */
  predicate ReportsOn(s: Step, id: int) {
    (s.Succeed? || s.Fail?) && s.id == id
  }

  /** A job that succeeded or was superseded stays so over every continuation of the run that brings
      no report about it: no request, claim, recovery, supersession or merge gives it another state. */
  lemma {:induction false} OnlyReportsReopen(steps: seq<Step>, more: seq<Step>, ttl: int, id: int)
    requires id in Run(steps, ttl).jobs && Run(steps, ttl).jobs[id].status in {Succeeded, Superseded}
    requires forall s | s in more :: !ReportsOn(s, id)
    ensures id in Run(steps + more, ttl).jobs
    ensures Run(steps + more, ttl).jobs[id].status == Run(steps, ttl).jobs[id].status
  {
    if more == [] {
      assert steps + more == steps;
    } else {
      var init, last := more[..|more| - 1], more[|more| - 1];
      OnlyReportsReopen(steps, init, ttl, id);
      assert (steps + more)[..|steps + more| - 1] == steps + init;
      ClaimsAreBounded(steps + init, ttl, id);
      StateSurvives(Run(steps + init, ttl), last, ttl, id);
    }
  }

  lemma StateSurvives(m: Machine, s: Step, ttl: int, id: int)
    requires Inv(m) && id in m.jobs && m.jobs[id].status in {Succeeded, Superseded} && !ReportsOn(s, id)
    ensures id in Apply(m, s, ttl).jobs && Apply(m, s, ttl).jobs[id].status == m.jobs[id].status
  {
  }

  /** The step may end the lease of this job before this time. */
  predicate EndsLease(s: Step, id: int, until: int) {
    ReportsOn(s, id) || s.Supersede? || (s.Recover? && s.now >= until)
  }

  /** The job is at work under this lease, and was claimed this often. */
  ghost predicate AtWork(m: Machine, id: int, until: int, attempts: int) {
    id in m.jobs && m.jobs[id].status == Processing && m.jobs[id].leaseExpiresAt == Some(until) && m.jobs[id].attempts == attempts
  }

  lemma RunOneMore(steps: seq<Step>, s: Step, ttl: int, id: int)
    ensures Run(steps + [s], ttl) == Apply(Run(steps, ttl), s, ttl)
    ensures Claims(steps + [s], ttl, id) == Claims(steps, ttl, id) + if Takes(Run(steps, ttl), s, id) then 1 else 0
  {
    assert (steps + [s])[..|steps|] == steps;
  }

  /** A claimed job stays with its worker over every continuation of the run in which nobody reports on
      it or supersedes it and no recovery comes at the end of its lease or later: nobody else claims it. */
  lemma {:induction false} LeasedJobIsKept(steps: seq<Step>, more: seq<Step>, ttl: int, id: int, until: int, attempts: int)
    requires AtWork(Run(steps, ttl), id, until, attempts)
    requires forall s | s in more :: !EndsLease(s, id, until)
    ensures AtWork(Run(steps + more, ttl), id, until, attempts) && Claims(steps + more, ttl, id) == Claims(steps, ttl, id)
    decreases |more|
  {
    if more == [] {
      assert steps + more == steps;
    } else {
      var s, rest := more[0], more[1..];
      StepsInFront(steps, more);
      assert s in more && forall t :: t in rest ==> t in more;
      ClaimsAreBounded(steps, ttl, id);
      LeaseSurvives(Run(steps, ttl), s, ttl, id, until, attempts);
      RunOneMore(steps, s, ttl, id);
      LeasedJobIsKept(steps + [s], rest, ttl, id, until, attempts);
    }
  }

  lemma StepsInFront(steps: seq<Step>, more: seq<Step>)
    requires more != []
    ensures steps + more == steps + [more[0]] + more[1..]
  {
  }

  lemma LeaseSurvives(m: Machine, s: Step, ttl: int, id: int, until: int, attempts: int)
    requires AtWork(m, id, until, attempts) && !EndsLease(s, id, until) && id < m.nextId
    ensures !Takes(m, s, id) && AtWork(Apply(m, s, ttl), id, until, attempts)
  {
  }

  lemma FreshIsFound(r: Request, now: int)
    ensures LiveFor(Fresh(r, now), r, now) <==> Findable(r)
  {
    TrimSpaceFixed(r.fullName);
  }

  /** After a request a job for the same target is waiting or at work exactly if one was before or the
      new job can be found: it carries an id, or the requested name has no space around it. Nothing is
      added exactly if one was before, so a request whose job cannot be found adds one every time. */
  lemma EnqueueLeavesLiveJob(m: Machine, r: Request, now: int, ttl: int)
    requires Inv(m)
    ensures RefreshJobExists(Apply(m, Enqueue(r, now), ttl).jobs, r, now) <==> RefreshJobExists(m.jobs, r, now) || Findable(r)
    ensures RefreshJobExists(m.jobs, r, now) <==> Apply(m, Enqueue(r, now), ttl) == m
  {
    if !RefreshJobExists(m.jobs, r, now) {
      FreshIsFound(r, now);
      var after := Apply(m, Enqueue(r, now), ttl).jobs;
      assert LiveFor(after[m.nextId], r, now) <==> Findable(r);
      assert forall id | id in m.jobs :: after[id] == m.jobs[id];
    }
  }

  /** For example: a request under " o/r", a name no lookup finds, creates a job that the next such
      request does not find, so there are two. */
  lemma PaddedNameAddsEveryTime(ttl: int)
    ensures var r := Request("", " o/r", "manual", None, None);
            var once := Apply(Machine(map[], 1), Enqueue(r, 1), ttl);
            && once == Machine(map[1 := Fresh(r, 1)], 2) && Live(once.jobs[1], 2)
            && Apply(once, Enqueue(r, 2), ttl) == Machine(map[1 := Fresh(r, 1), 2 := Fresh(r, 2)], 3)
  {
    var r := Request("", " o/r", "manual", None, None);
    assert !Trimmed(r.fullName);
    FreshIsFound(r, 1);
    assert !LiveFor(Fresh(r, 1), r, 2);
  }

  // ------------------------------------------------------- merged tracked rows

  /** What was live for the row that stays is so after the merge. */
  lemma MergeKeepsOwnJobs(m: Machine, from: Tracked, to: Tracked, fullName: string, r: Request, now: int, ttl: int)
    requires r.tracked == Some(to) && RefreshJobExists(m.jobs, r, now)
    ensures RefreshJobExists(Apply(m, Merge(from.id, to, fullName), ttl).jobs, r, now)
  {
    var id :| id in m.jobs && LiveFor(m.jobs[id], r, now);
    assert LiveFor(Apply(m, Merge(from.id, to, fullName), ttl).jobs[id], r, now);
  }

  /** A job that is live for the row merged away is live for the one that stays. */
  predicate MergeKeepsJobs(m: Machine, from: Tracked, to: Tracked, fullName: string, r: Request, now: int, ttl: int) {
    RefreshJobExists(m.jobs, r.(tracked := Some(from)), now) ==>
      RefreshJobExists(Apply(m, Merge(from.id, to, fullName), ttl).jobs, r, now)
  }

  /** A request still looks for the repository id of the row merged away. */
  predicate SameRepository(from: Tracked, to: Tracked, r: Request) {
    || from.repositoryId.None? || from.repositoryId == to.repositoryId
    || (r.repository.Some? && from.repositoryId == Some(r.repository.value.id))
  }

  /** Pending, stored for this repository before a tracked row existed. */
  function JobOfRepository(r: Request, repositoryId: Option<int>): Job {
    Fresh(r, 0).(repositoryId := repositoryId, trackedId := None)
  }

  lemma OldRepositoryJobIsLost(from: Tracked, to: Tracked, fullName: string, r: Request, now: int, ttl: int)
    requires r.tracked == Some(to) && from.id != to.id && !SameRepository(from, to, r)
    ensures !MergeKeepsJobs(Machine(map[1 := JobOfRepository(r, from.repositoryId)], 2), from, to, fullName, r, now, ttl)
  {
    var j := JobOfRepository(r, from.repositoryId);
    var m := Machine(map[1 := j], 2);
    assert LiveFor(m.jobs[1], r.(tracked := Some(from)), now);
    var after := Apply(m, Merge(from.id, to, fullName), ttl).jobs;
    assert after.Keys == {1} && after[1] == j && !LiveFor(j, r, now);
  }

  /** A merge of tracked rows loses no live job of the row merged away, whatever the jobs are, exactly
      if that row had no repository id or one that requests for the other row look for as well. */
  lemma MergeKeepsLiveJobsIff(from: Tracked, to: Tracked, fullName: string, r: Request, now: int, ttl: int)
    requires r.tracked == Some(to) && from.id != to.id
    ensures (forall m :: MergeKeepsJobs(m, from, to, fullName, r, now, ttl)) <==> SameRepository(from, to, r)
  {
    if SameRepository(from, to, r) {
      forall m ensures MergeKeepsJobs(m, from, to, fullName, r, now, ttl) {
        MergeMovesJobs(m, from, to, fullName, r, now, ttl);
      }
    } else {
      OldRepositoryJobIsLost(from, to, fullName, r, now, ttl);
    }
  }

  lemma MergeMovesJobs(m: Machine, from: Tracked, to: Tracked, fullName: string, r: Request, now: int, ttl: int)
    requires r.tracked == Some(to) && SameRepository(from, to, r)
    ensures MergeKeepsJobs(m, from, to, fullName, r, now, ttl)
  {
    var other := r.(tracked := Some(from));
    if RefreshJobExists(m.jobs, other, now) {
      var id :| id in m.jobs && LiveFor(m.jobs[id], other, now);
      assert LiveFor(Apply(m, Merge(from.id, to, fullName), ttl).jobs[id], r, now);
    }
  }

  /** For example: repository 10 has a job from before it was tracked. A merge of its tracked row into
      that of repository 20 leaves the job where no request for the merged row finds it. */
  lemma MergeLosesJob(now: int, ttl: int)
    ensures var r := Request("", "o/r", "manual", Some(Tracked(2, Some(20))), None);
            var m := Machine(map[1 := JobOfRepository(r, Some(10))], 2);
            && RefreshJobExists(m.jobs, r.(tracked := Some(Tracked(1, Some(10)))), now)
            && !RefreshJobExists(Apply(m, Merge(1, Tracked(2, Some(20)), "o/r"), ttl).jobs, r, now)
  {
    OldRepositoryJobIsLost(Tracked(1, Some(10)), Tracked(2, Some(20)), "o/r", Request("", "o/r", "manual", Some(Tracked(2, Some(20))), None), now, ttl);
  }
}
