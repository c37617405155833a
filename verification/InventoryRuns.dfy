/** Every run of one repository's inventory: a scan broken into its separate transactions,
    interleaved with refresh requests, backfill progress, targeted reconciles, base-ref
    staling and index writes, with crashes at any point. */
module InventoryRuns {
  import opened Common
  import opened Inventory

  datatype Phase = Began | Listed | Writing(written: nat) | Committed

  /** What the goroutine running a scan holds between its transactions. */
  datatype Scan = Scan(startedAt: int, generation: int, believedCurrent: int, phase: Phase,
                       listing: seq<Pull>, seen: map<int, Snapshot>, listedAt: int)

  /** The tables, the scan in flight, and what has been asked for and answered so far:
      the request times, and when the last committed listing was fetched. */
  datatype Machine = Machine(db: Db, scan: Option<Scan>, requests: seq<int>, covered: Option<int>, clock: int)

  datatype Step =
    | Request(seenAt: int)
    | Begin(picked: SyncState, now: int)
    | List(pulls: seq<Pull>, now: int)
    | Prepare
    | WriteBatch
    | Freshen
    | Commit(now: int)
    | End
    | Crash
    | Advance(generation: int, number: int, row: Row)
    | Targeted(generation: int, pull: Pull)
    | BaseMoved(generation: int, ref: string)
    | Indexed(number: int, snapshot: Snapshot)

  const WRITE_BATCH := 100

  function Plan(s: Scan): seq<Planned> {
    PlanRows(s.listing, s.seen)
  }

  predicate DistinctPulls(pulls: seq<Pull>) {
    forall i, j :: 0 <= i < j < |pulls| ==> pulls[i].number != pulls[j].number
  }

  /** recordSnapshotFreshnessUpdate over a listing. */
  function FreshnessUpdates(listing: seq<Pull>, seen: map<int, Snapshot>): map<int, string> {
    if listing == [] then map[]
    else
      var rest := FreshnessUpdates(listing[..|listing| - 1], seen);
      var planned := PlanRow(listing[|listing| - 1], seen);
      if planned.number in seen && seen[planned.number].freshness != planned.row.freshness
      then rest[planned.number := planned.row.freshness] else rest
  }

  /** When a step can happen. Three clauses are conditions the code relies on without enforcing:
      the state row a scan was picked from is still what is stored and its generation is
      above the current one, a listing names no pull request twice, and the generation another
      lane read before its transaction, a backfill pass at its start, is still current inside it.
      What becomes of the tables without them is stated at the end. Request times do not decrease. */
  predicate Enabled(m: Machine, s: Step) {
    match s
    case Request(seenAt) => m.requests == [] || m.requests[|m.requests| - 1] <= seenAt
    case Begin(picked, now) =>
      && m.scan.None? && m.clock <= now
      && picked.generationCurrent == m.db.sync.generationCurrent
      && ChooseGeneration(picked) > m.db.sync.generationCurrent
    case List(pulls, now) => m.scan.Some? && m.scan.value.phase.Began? && m.clock <= now && DistinctPulls(pulls)
    case Prepare => m.scan.Some? && m.scan.value.phase.Listed?
    case WriteBatch => m.scan.Some? && m.scan.value.phase.Writing? && m.scan.value.phase.written < |m.scan.value.listing|
    case Freshen => m.scan.Some? && m.scan.value.phase.Writing?
    case Commit(now) => m.scan.Some? && m.scan.value.phase.Writing? && m.scan.value.phase.written >= |m.scan.value.listing| && m.clock <= now
    case End => m.scan.Some?
    case Crash => m.scan.Some?
    case Advance(generation, number, row) => generation == m.db.sync.generationCurrent && Trimmed(row.freshness)
    case Targeted(generation, pull) => generation == m.db.sync.generationCurrent
    case BaseMoved(generation, ref) => generation == m.db.sync.generationCurrent
    case Indexed(number, snapshot) => Trimmed(snapshot.freshness)
  }

  function Apply(m: Machine, s: Step): Machine
    requires Enabled(m, s)
  {
    match s
    case Request(seenAt) => m.(db := RequestScan(m.db, seenAt), requests := m.requests + [seenAt])
    case Begin(picked, now) =>
      var g := ChooseGeneration(picked);
      m.(db := BeginScan(m.db, g), clock := now,
         scan := Some(Scan(now, g, picked.generationCurrent, Began, [], map[], now)))
    case List(pulls, now) =>
      m.(clock := now,
         scan := Some(m.scan.value.(phase := Phase.Listed, listing := pulls, seen := m.db.snapshots, listedAt := now)))
    case Prepare =>
      m.(db := PrepareGeneration(m.db, m.scan.value.believedCurrent, m.scan.value.generation),
         scan := Some(m.scan.value.(phase := Writing(0))))
    case WriteBatch =>
      var sc := m.scan.value;
      var from, to := sc.phase.written, Min(sc.phase.written + WRITE_BATCH, |sc.listing|);
      m.(db := WriteRows(m.db, sc.generation, Plan(sc)[from..to]), scan := Some(sc.(phase := Writing(to))))
    case Freshen =>
      m.(db := ApplyFreshness(m.db, FreshnessUpdates(m.scan.value.listing, m.scan.value.seen)))
    case Commit(now) =>
      var sc := m.scan.value;
      m.(db := CommitScan(m.db, PlanCounts(Plan(sc)), sc.startedAt, sc.generation, now),
         scan := Some(sc.(phase := Committed)), covered := Some(sc.listedAt), clock := now)
    case End => m.(db := EndScan(m.db), scan := None)
    case Crash => m.(scan := None)
    case Advance(generation, number, row) =>
      var d := AdvanceBackfill(m.db, generation, number, row);
      if d.Some? then m.(db := d.value) else m
    case Targeted(generation, pull) => m.(db := Reconcile(m.db, generation, pull))
    case BaseMoved(generation, ref) => m.(db := StaleBaseRef(m.db, generation, ref))
    case Indexed(number, snapshot) => m.(db := WriteSnapshot(m.db, number, snapshot))
  }

  // ------------------------------------------------------------ the invariant

  function CurrentRows(db: Db): map<int, Row> {
    GenerationRows(db.rows, db.sync.generationCurrent)
  }

  /** The cached counters are the recount of the current generation. */
  predicate CountersExact(db: Db) {
    Counts(db.sync.total, db.sync.current, db.sync.stale) == Recount(CurrentRows(db))
  }

  predicate AllTrimmed(db: Db) {
    && SoundTable(db.rows)
    && (forall n :: n in db.snapshots ==> Trimmed(db.snapshots[n].freshness))
  }

  predicate ScanInv(m: Machine) {
    m.scan.Some? ==>
      var s := m.scan.value;
      && s.startedAt <= s.listedAt <= m.clock
      && m.db.sync.generationBuilding == Some(s.generation)
      && (forall n :: n in s.seen ==> Trimmed(s.seen[n].freshness))
      && DistinctPulls(s.listing)
      && (if s.phase.Committed? then s.generation == m.db.sync.generationCurrent
          else s.generation > m.db.sync.generationCurrent && s.believedCurrent == m.db.sync.generationCurrent)
      && (s.phase.Writing? ==>
            s.phase.written <= |s.listing|
            && GenerationRows(m.db.rows, s.generation) == PlanMap(Plan(s)[..s.phase.written]))
  }

  predicate RequestInv(m: Machine) {
    && (forall i, j :: 0 <= i <= j < |m.requests| ==> m.requests[i] <= m.requests[j])
    && (m.db.sync.dirty <==> m.db.sync.dirtySince.Some?)
    && (m.db.sync.dirtySince.Some? ==>
          m.requests != [] && m.db.sync.dirtySince.value == m.requests[|m.requests| - 1])
    && (m.covered.Some? ==>
          m.covered.value <= m.clock
          && (m.scan.Some? && !m.scan.value.phase.Committed? ==> m.covered.value <= m.scan.value.startedAt))
    && (m.db.sync.dirtySince.None? && m.requests != [] ==>
          m.covered.Some? && m.requests[|m.requests| - 1] <= m.covered.value)
  }

  predicate TablesInv(db: Db) {
    && CountersExact(db) && AllTrimmed(db)
    && db.sync.backfillGeneration == db.sync.generationCurrent
    && db.sync.generationCurrent >= 0
  }

  predicate Inv(m: Machine) {
    TablesInv(m.db) && ScanInv(m) && RequestInv(m)
  }

  function InitialSync(): SyncState {
    SyncState(false, None, 0, None, None, 0, None, 0, 0, 0)
  }

  function Initial(): Machine {
    Machine(Db(map[], map[], InitialSync()), None, [], None, 0)
  }

  lemma InitialInv()
    ensures Inv(Initial())
  {
    assert NumbersIn(map[], Current) == {} && NumbersIn(map[], Stale) == {};
  }

  // ------------------------------------------------------ what single steps do

  /** prepareInventoryGeneration keeps the current generation exactly when the caller builds a
      different one and still knows which one is current. */
  lemma PrepareKeepsCurrent(db: Db, believedCurrent: int, next: int)
    requires CurrentRows(db) != map[]
    ensures CurrentRows(PrepareGeneration(db, believedCurrent, next)) == CurrentRows(db)
            <==> next != db.sync.generationCurrent && believedCurrent == db.sync.generationCurrent && believedCurrent > 0
  {
  }

  lemma PlanFacts(s: Scan)
    requires forall n :: n in s.seen ==> Trimmed(s.seen[n].freshness)
    ensures TrimmedPlan(Plan(s))
    ensures DistinctPulls(s.listing) <==> DistinctNumbers(Plan(s))
  {
    forall i | 0 <= i < |s.listing| ensures Trimmed(Plan(s)[i].row.freshness) && Plan(s)[i].number == s.listing[i].number {
      var p := s.listing[i];
      DesiredFreshnessShape(SnapshotOf(s.seen, p.number), p.headSHA, p.baseSHA, p.baseRef);
    }
  }

  lemma {:induction false} FreshnessUpdatesTrimmed(listing: seq<Pull>, seen: map<int, Snapshot>)
    requires forall n :: n in seen ==> Trimmed(seen[n].freshness)
    ensures forall n :: n in FreshnessUpdates(listing, seen) ==> Trimmed(FreshnessUpdates(listing, seen)[n])
  {
    if listing != [] {
      FreshnessUpdatesTrimmed(listing[..|listing| - 1], seen);
      var p := listing[|listing| - 1];
      DesiredFreshnessShape(SnapshotOf(seen, p.number), p.headSHA, p.baseSHA, p.baseRef);
    }
  }

  /** What a listing makes of the stored snapshots: those of its pull requests get the freshness of
      their rows, all others stay. */
  ghost predicate SnapshotsFollow(before: map<int, Snapshot>, after: map<int, Snapshot>, listing: seq<Pull>) {
    && after.Keys == before.Keys
    && (forall p | p in listing && p.number in before ::
          after[p.number] == before[p.number].(freshness := PlanRow(p, before).row.freshness))
    && forall n | n in before && (forall p | p in listing :: p.number != n) :: after[n] == before[n]
  }

  lemma {:induction false} FreshnessUpdatesFor(listing: seq<Pull>, seen: map<int, Snapshot>, p: Pull)
    requires DistinctPulls(listing) && p in listing && p.number in seen
    ensures var updates := FreshnessUpdates(listing, seen);
            (if p.number in updates then updates[p.number] else seen[p.number].freshness) == PlanRow(p, seen).row.freshness
  {
    var init, last := listing[..|listing| - 1], listing[|listing| - 1];
    if p == last {
      FreshnessUpdatesListed(init, seen);
      forall q | q in init ensures q.number != last.number {
        var i :| 0 <= i < |init| && init[i] == q;
        assert listing[i].number != listing[|listing| - 1].number;
      }
    } else {
      var i :| 0 <= i < |listing| && listing[i] == p;
      assert init[i] == p && listing[i].number != listing[|listing| - 1].number;
      FreshnessUpdatesFor(init, seen, p);
    }
  }

  lemma {:induction false} FreshnessUpdatesListed(listing: seq<Pull>, seen: map<int, Snapshot>)
    ensures forall n | n in FreshnessUpdates(listing, seen) :: n in seen && exists p :: p in listing && p.number == n
  {
    if listing != [] {
      var init, last := listing[..|listing| - 1], listing[|listing| - 1];
      FreshnessUpdatesListed(init, seen);
      assert last in listing && forall p :: p in init ==> p in listing;
    }
  }

  lemma FreshenedFollows(db: Db, listing: seq<Pull>)
    requires DistinctPulls(listing)
    ensures SnapshotsFollow(db.snapshots, ApplyFreshness(db, FreshnessUpdates(listing, db.snapshots)).snapshots, listing)
  {
    FreshnessUpdatesListed(listing, db.snapshots);
    forall p | p in listing && p.number in db.snapshots
      ensures ApplyFreshness(db, FreshnessUpdates(listing, db.snapshots)).snapshots[p.number]
              == db.snapshots[p.number].(freshness := PlanRow(p, db.snapshots).row.freshness)
    {
      FreshnessUpdatesFor(listing, db.snapshots, p);
    }
  }

  /** Rows sit in positive generations and their freshness is free of padding. */
  predicate SoundTable(rows: Table) {
    forall g :: g in rows ==> (rows[g] != map[] ==> g > 0) && TrimmedRows(rows[g])
  }

  lemma {:induction false} UpsertedTrimmed(m: map<int, Row>, plan: seq<Planned>)
    requires TrimmedPlan(plan) && TrimmedRows(m)
    ensures TrimmedRows(Upserted(m, plan))
  {
    if plan != [] {
      UpsertedTrimmed(m, plan[..|plan| - 1]);
    }
  }

  /** advanceBackfillProgress keeps the counters exact whatever the row was and becomes, and its
      two clamps leave the plain sums alone. */
  lemma AdvanceExact(db: Db, number: int, row: Row)
    requires TablesInv(db) && Trimmed(row.freshness)
    requires AdvanceBackfill(db, db.sync.backfillGeneration, number, row).Some?
    ensures number in CurrentRows(db)
    ensures var d := AdvanceBackfill(db, db.sync.backfillGeneration, number, row).value;
            var was, now := CategoryOf(CurrentRows(db)[number].freshness), CategoryOf(row.freshness);
            && TablesInv(d)
            && CurrentRows(d) == CurrentRows(db)[number := row]
            && d.sync.cursor == Some(Cursor(row.updatedAt, number)) && d.sync.total == db.sync.total && d.snapshots == db.snapshots
            && d.sync.current == db.sync.current - (if was.Current? then 1 else 0) + (if now.Current? then 1 else 0)
            && d.sync.stale == db.sync.stale - (if was.Stale? then 1 else 0) + (if now.Stale? then 1 else 0)
  {
    RecountUpdate(CurrentRows(db), number, row);
  }

  lemma ReconciledTrimmed(m: map<int, Row>, snapshots: map<int, Snapshot>, pull: Pull)
    requires TrimmedRows(m)
    requires forall n :: n in snapshots ==> Trimmed(snapshots[n].freshness)
    ensures TrimmedRows(Reconciled(m, snapshots, pull))
    ensures Trimmed(PlanRow(pull, snapshots).row.freshness)
  {
    DesiredFreshnessShape(SnapshotOf(snapshots, pull.number), pull.headSHA, pull.baseSHA, pull.baseRef);
  }

  /** A targeted reconcile keeps the table sound and makes the counters exact for the generation
      it works on. */
  lemma ReconcileSound(db: Db, generation: int, pull: Pull)
    requires AllTrimmed(db) && generation > 0
    ensures var d := Reconcile(db, generation, pull);
            && AllTrimmed(d)
            && Counts(d.sync.total, d.sync.current, d.sync.stale) == Recount(GenerationRows(d.rows, generation))
  {
    ReconciledTrimmed(GenerationRows(db.rows, generation), db.snapshots, pull);
  }

  // ------------------------------------------------------- every step keeps it

  /** A change another lane makes while a scan may be in flight: only rows of the current
      generation, the counters, the cursor and snapshots. */
  ghost predicate LaneChange(db: Db, d: Db) {
    && TablesInv(d)
    && d.sync.dirty == db.sync.dirty && d.sync.dirtySince == db.sync.dirtySince
    && d.sync.generationCurrent == db.sync.generationCurrent
    && d.sync.generationBuilding == db.sync.generationBuilding
    && forall g :: g != db.sync.generationCurrent ==> GenerationRows(d.rows, g) == GenerationRows(db.rows, g)
  }

  lemma LaneKeepsInv(m: Machine, d: Db)
    requires Inv(m) && LaneChange(m.db, d)
    ensures Inv(m.(db := d))
  {
  }

  lemma AdvanceIsLaneChange(db: Db, number: int, row: Row)
    requires TablesInv(db) && Trimmed(row.freshness)
    requires AdvanceBackfill(db, db.sync.backfillGeneration, number, row).Some?
    ensures LaneChange(db, AdvanceBackfill(db, db.sync.backfillGeneration, number, row).value)
  {
    AdvanceExact(db, number, row);
  }

  lemma TargetedIsLaneChange(db: Db, pull: Pull)
    requires TablesInv(db)
    ensures LaneChange(db, Reconcile(db, db.sync.generationCurrent, pull))
  {
    if db.sync.generationCurrent > 0 {
      ReconcileSound(db, db.sync.generationCurrent, pull);
    }
  }

  lemma BaseMovedTrimmed(m: map<int, Row>, baseRef: string)
    requires TrimmedRows(m)
    ensures TrimmedRows(BaseMovedRows(m, baseRef))
  {
    assert Trimmed(FRESH_BASE_MOVED);
  }

  lemma RecountedIsLaneChange(db: Db, m: map<int, Row>)
    requires TablesInv(db) && TrimmedRows(m) && db.sync.generationCurrent > 0
    ensures LaneChange(db, db.(rows := db.rows[db.sync.generationCurrent := m], sync := SetCounts(db.sync, Recount(m))))
  {
  }

  lemma BaseMovedIsLaneChange(db: Db, ref: string)
    requires TablesInv(db)
    ensures LaneChange(db, StaleBaseRef(db, db.sync.generationCurrent, ref))
  {
    var baseRef, current := NormalizeBaseRef(ref), CurrentRows(db);
    if baseRef != "" && db.sync.generationCurrent > 0 {
      BaseMovedTrimmed(current, baseRef);
      RecountedIsLaneChange(db, BaseMovedRows(current, baseRef));
    }
  }

  lemma LaneStep(m: Machine, s: Step)
    requires Inv(m) && Enabled(m, s) && (s.Advance? || s.Targeted? || s.BaseMoved? || s.Indexed?)
    ensures LaneChange(m.db, Apply(m, s).db)
    ensures Apply(m, s) == m.(db := Apply(m, s).db)
  {
    match s
    case Advance(generation, number, row) =>
      if AdvanceBackfill(m.db, generation, number, row).Some? {
        AdvanceIsLaneChange(m.db, number, row);
      }
    case Targeted(generation, pull) => TargetedIsLaneChange(m.db, pull);
    case BaseMoved(generation, ref) => BaseMovedIsLaneChange(m.db, ref);
    case Indexed(number, snapshot) =>
  }

  lemma PrepareStep(m: Machine)
    requires Inv(m) && Enabled(m, Prepare)
    ensures Inv(Apply(m, Prepare))
    ensures CurrentRows(Apply(m, Prepare).db) == CurrentRows(m.db)
    ensures forall g :: g in Apply(m, Prepare).db.rows ==> g == m.db.sync.generationCurrent
  {
    assert Plan(m.scan.value)[..0] == [];
  }

  lemma WriteKeepsTables(db: Db, generation: int, batch: seq<Planned>)
    requires TablesInv(db) && generation > db.sync.generationCurrent && TrimmedPlan(batch)
    ensures TablesInv(WriteRows(db, generation, batch))
    ensures CurrentRows(WriteRows(db, generation, batch)) == CurrentRows(db)
  {
    UpsertedTrimmed(GenerationRows(db.rows, generation), batch);
  }

  lemma WrittenPrefixGrows(plan: seq<Planned>, from: nat, to: nat)
    requires from <= to <= |plan|
    ensures Upserted(PlanMap(plan[..from]), plan[from..to]) == PlanMap(plan[..to])
  {
    assert plan[..to] == plan[..from] + plan[from..to];
    UpsertedSplit(map[], plan[..from], plan[from..to]);
  }

  lemma WriteStep(m: Machine)
    requires Inv(m) && Enabled(m, WriteBatch)
    ensures Inv(Apply(m, WriteBatch))
    ensures CurrentRows(Apply(m, WriteBatch).db) == CurrentRows(m.db)
  {
    var sc := m.scan.value;
    var from, to := sc.phase.written, Min(sc.phase.written + WRITE_BATCH, |sc.listing|);
    PlanFacts(sc);
    WriteKeepsTables(m.db, sc.generation, Plan(sc)[from..to]);
    WrittenPrefixGrows(Plan(sc), from, to);
  }

  /** The rows a plan writes are one row per listed pull request, built from it, and no other. */
  lemma PlanIsListing(sc: Scan)
    requires DistinctPulls(sc.listing)
    ensures forall n :: n in PlanMap(Plan(sc)) <==> exists i :: 0 <= i < |sc.listing| && sc.listing[i].number == n
    ensures forall i :: 0 <= i < |sc.listing| ==>
              sc.listing[i].number in PlanMap(Plan(sc))
              && PlanMap(Plan(sc))[sc.listing[i].number] == PlanRow(sc.listing[i], sc.seen).row
  {
    var plan := Plan(sc);
    PlanMapEntries(plan);
    assert forall i :: 0 <= i < |plan| ==> plan[i].number == sc.listing[i].number;
    assert DistinctNumbers(plan);
  }

  /** A commit raises the generation and installs exactly what the scan listed, with its counters. */
  lemma CommitInstallsListing(m: Machine, now: int)
    requires Inv(m) && Enabled(m, Commit(now))
    ensures var d := Apply(m, Commit(now)).db;
            var sc := m.scan.value;
            && d.sync.generationCurrent > m.db.sync.generationCurrent
            && (forall n :: n in CurrentRows(d) <==> exists i :: 0 <= i < |sc.listing| && sc.listing[i].number == n)
            && (forall i :: 0 <= i < |sc.listing| ==> CurrentRows(d)[sc.listing[i].number] == PlanRow(sc.listing[i], sc.seen).row)
            && d.sync.total == |sc.listing|
            && CountersExact(d) && d.sync.cursor == None
  {
    var sc := m.scan.value;
    assert Plan(sc)[..sc.phase.written] == Plan(sc);
    PlanFacts(sc);
    PlanCountsExact(Plan(sc));
    PlanIsListing(sc);
  }

  /** After a commit the flag is set exactly when the latest request is newer than the start of
      the scan; a clear flag means the listing was fetched at or after every request. */
  lemma CommitKeepsNewerRequests(m: Machine, now: int)
    requires Inv(m) && Enabled(m, Commit(now))
    ensures var d := Apply(m, Commit(now)).db;
            var sc := m.scan.value;
            && (d.sync.dirty <==> m.requests != [] && m.requests[|m.requests| - 1] > sc.startedAt)
            && (!d.sync.dirty ==> forall i :: 0 <= i < |m.requests| ==> m.requests[i] <= sc.startedAt <= sc.listedAt)
  {
  }

  lemma ScanStep(m: Machine, s: Step)
    requires Inv(m) && Enabled(m, s)
    requires !(s.Advance? || s.Targeted? || s.BaseMoved? || s.Indexed?)
    ensures Inv(Apply(m, s))
  {
    match s
    case Prepare => PrepareStep(m);
    case WriteBatch => WriteStep(m);
    case Freshen => FreshnessUpdatesTrimmed(m.scan.value.listing, m.scan.value.seen);
    case Commit(now) =>
      CommitInstallsListing(m, now);
      CommitKeepsNewerRequests(m, now);
    case _ =>
  }

  lemma StepKeepsInv(m: Machine, s: Step)
    requires Inv(m) && Enabled(m, s)
    ensures Inv(Apply(m, s))
  {
    if s.Advance? || s.Targeted? || s.BaseMoved? || s.Indexed? {
      LaneStep(m, s);
      LaneKeepsInv(m, Apply(m, s).db);
    } else {
      ScanStep(m, s);
    }
  }

  /** Generation isolation: until its commit, nothing a scan does or leaves behind by failing or
      crashing reaches the current generation, its number or its counters. */
  lemma ScanIsolation(m: Machine, s: Step)
    requires Inv(m) && Enabled(m, s)
    requires s.Begin? || s.List? || s.Prepare? || s.WriteBatch? || s.Freshen? || s.End? || s.Crash?
    ensures var d := Apply(m, s).db;
            && CurrentRows(d) == CurrentRows(m.db)
            && d.sync.generationCurrent == m.db.sync.generationCurrent
            && (d.sync.total, d.sync.current, d.sync.stale) == (m.db.sync.total, m.db.sync.current, m.db.sync.stale)
  {
    match s
    case Prepare => PrepareStep(m);
    case WriteBatch => WriteStep(m);
    case _ =>
  }

  // --------------------------------------------------------------- whole runs

  ghost predicate ValidRun(m: Machine, steps: seq<Step>)
    decreases |steps|
  {
    steps != [] ==> Enabled(m, steps[0]) && ValidRun(Apply(m, steps[0]), steps[1..])
  }

  ghost function Run(m: Machine, steps: seq<Step>): Machine
    requires ValidRun(m, steps)
    decreases |steps|
  {
    if steps == [] then m else Run(Apply(m, steps[0]), steps[1..])
  }

  lemma {:induction false} RunKeepsInv(m: Machine, steps: seq<Step>)
    requires Inv(m) && ValidRun(m, steps)
    ensures Inv(Run(m, steps))
    decreases |steps|
  {
    if steps != [] {
      StepKeepsInv(m, steps[0]);
      RunKeepsInv(Apply(m, steps[0]), steps[1..]);
    }
  }

  /** Over every run the cached counters equal a full recount of the current generation, and what
      they leave over is the number of its rows that were never indexed. */
  lemma CountersOverRuns(steps: seq<Step>)
    requires ValidRun(Initial(), steps)
    ensures var d := Run(Initial(), steps).db;
            && Counts(d.sync.total, d.sync.current, d.sync.stale) == Recount(CurrentRows(d))
            && d.sync.total - d.sync.current - d.sync.stale == |NumbersIn(CurrentRows(d), Missing)|
  {
    InitialInv();
    RunKeepsInv(Initial(), steps);
    CountsPartition(CurrentRows(Run(Initial(), steps).db));
  }

  /** Over every run a clear flag means that some committed listing was fetched at or after every
      request made so far, and a set flag carries the time of the latest request. */
  lemma NoLostRequest(steps: seq<Step>)
    requires ValidRun(Initial(), steps)
    ensures var m := Run(Initial(), steps);
            && (!m.db.sync.dirty && m.requests != [] ==>
                  m.covered.Some? && forall i :: 0 <= i < |m.requests| ==> m.requests[i] <= m.covered.value)
            && (m.db.sync.dirty ==> m.requests != [] && m.db.sync.dirtySince == Some(m.requests[|m.requests| - 1]))
  {
    InitialInv();
    RunKeepsInv(Initial(), steps);
  }

  lemma {:induction false} RunJoin(m: Machine, a: seq<Step>, b: seq<Step>)
    requires ValidRun(m, a) && ValidRun(Run(m, a), b)
    ensures ValidRun(m, a + b) && Run(m, a + b) == Run(Run(m, a), b)
    decreases |a|
  {
    if a == [] {
      assert a + b == b;
    } else {
      RunJoin(Apply(m, a[0]), a[1..], b);
      assert (a + b)[0] == a[0] && (a + b)[1..] == a[1..] + b;
    }
  }

  lemma StepThenRun(m: Machine, s: Step, rest: seq<Step>)
    requires Enabled(m, s) && ValidRun(Apply(m, s), rest)
    ensures ValidRun(m, [s] + rest) && Run(m, [s] + rest) == Run(Apply(m, s), rest)
  {
    assert ([s] + rest)[1..] == rest;
  }

  lemma OneStepRun(m: Machine, s: Step)
    requires Enabled(m, s)
    ensures ValidRun(m, [s]) && Run(m, [s]) == Apply(m, s)
  {
    assert [s][1..] == [];
  }

  /** The transactions that write this many rows. */
  function Writes(left: nat): seq<Step> {
    if left == 0 then [] else [WriteBatch] + Writes(Max(left - WRITE_BATCH, 0))
  }

  /** Only rows were written since, up to this one of the listing. */
  ghost predicate WroteUpTo(m: Machine, n: Machine, to: nat)
    requires m.scan.Some?
  {
    Inv(n) && n == m.(db := m.db.(rows := n.db.rows), scan := Some(m.scan.value.(phase := Writing(to))))
  }

  lemma WriteOne(m: Machine)
    requires Inv(m) && Enabled(m, WriteBatch)
    ensures WroteUpTo(m, Apply(m, WriteBatch), Min(m.scan.value.phase.written + WRITE_BATCH, |m.scan.value.listing|))
  {
    WriteStep(m);
  }

  lemma WroteFurther(m: Machine, a: Machine, n: Machine, middle: nat, to: nat)
    requires m.scan.Some? && WroteUpTo(m, a, middle) && WroteUpTo(a, n, to)
    ensures WroteUpTo(m, n, to)
  {
  }

  lemma {:induction false} WritesFinish(m: Machine, left: nat)
    requires Inv(m) && m.scan.Some? && m.scan.value.phase.Writing? && left == |m.scan.value.listing| - m.scan.value.phase.written
    ensures ValidRun(m, Writes(left)) && WroteUpTo(m, Run(m, Writes(left)), |m.scan.value.listing|)
    decreases left, 1
  {
    if left > 0 {
      WriteOne(m);
      WriteRest(m, left);
    }
  }

  lemma {:induction false} WriteRest(m: Machine, left: nat)
    requires Inv(m) && Enabled(m, WriteBatch) && left == |m.scan.value.listing| - m.scan.value.phase.written
    requires WroteUpTo(m, Apply(m, WriteBatch), Min(m.scan.value.phase.written + WRITE_BATCH, |m.scan.value.listing|))
    ensures ValidRun(m, Writes(left)) && WroteUpTo(m, Run(m, Writes(left)), |m.scan.value.listing|)
    decreases left, 0
  {
    var a, rest := Apply(m, WriteBatch), Max(left - WRITE_BATCH, 0);
    WritesFinish(a, rest);
    StepThenRun(m, WriteBatch, Writes(rest));
    WroteFurther(m, a, Run(a, Writes(rest)), Min(m.scan.value.phase.written + WRITE_BATCH, |m.scan.value.listing|), |m.scan.value.listing|);
  }

  /** A scan up to its last row: what it read and listed is what it goes on with. */
  lemma ScanUpToCommit(m: Machine, picked: SyncState, startedAt: int, pulls: seq<Pull>, listedAt: int)
    requires Inv(m) && Enabled(m, Begin(picked, startedAt)) && startedAt <= listedAt && DistinctPulls(pulls)
    ensures var steps := [Begin(picked, startedAt)] + ([List(pulls, listedAt)] + ([Prepare] + Writes(|pulls|)));
            && ValidRun(m, steps)
            && var n := Run(m, steps);
            && Inv(n) && n.requests == m.requests && n.clock == listedAt
            && n.db.snapshots == m.db.snapshots && n.db.sync == m.db.sync.(generationBuilding := Some(ChooseGeneration(picked)))
            && n.scan == Some(Scan(startedAt, ChooseGeneration(picked), picked.generationCurrent, Writing(|pulls|), pulls, m.db.snapshots, listedAt))
  {
    var a := Apply(m, Begin(picked, startedAt));
    var b := Apply(a, List(pulls, listedAt));
    var c := Apply(b, Prepare);
    StepKeepsInv(m, Begin(picked, startedAt));
    StepKeepsInv(a, List(pulls, listedAt));
    StepKeepsInv(b, Prepare);
    WritesFinish(c, |pulls|);
    StepThenRun(b, Prepare, Writes(|pulls|));
    StepThenRun(a, List(pulls, listedAt), [Prepare] + Writes(|pulls|));
    StepThenRun(m, Begin(picked, startedAt), [List(pulls, listedAt)] + ([Prepare] + Writes(|pulls|)));
  }

  /** What a scan leaves when it commits and ends. */
  ghost predicate Ended(sc: Scan, requests: seq<int>, n: Machine, now: int) {
    && Inv(n) && n.scan == None && n.covered == Some(sc.listedAt) && n.requests == requests && n.clock == now
    && n.db.sync.generationCurrent == sc.generation && n.db.sync.generationBuilding == None
    && n.db.sync.lastCommittedAt == Some(now) && CurrentRows(n.db) == PlanMap(Plan(sc))
    && (n.db.sync.dirty <==> requests != [] && requests[|requests| - 1] > sc.startedAt)
    && SnapshotsFollow(sc.seen, n.db.snapshots, sc.listing)
  }

  lemma FreshenStep(m: Machine)
    requires Inv(m) && Enabled(m, Freshen) && m.db.snapshots == m.scan.value.seen
    ensures var a := Apply(m, Freshen);
            Inv(a) && a == m.(db := m.db.(snapshots := a.db.snapshots)) && SnapshotsFollow(m.scan.value.seen, a.db.snapshots, m.scan.value.listing)
  {
    StepKeepsInv(m, Freshen);
    FreshenedFollows(m.db, m.scan.value.listing);
  }

  lemma CommitThenEnd(m: Machine, now: int)
    requires Inv(m) && m.scan.Some? && m.clock <= now && m.scan.value.phase == Writing(|m.scan.value.listing|)
    requires SnapshotsFollow(m.scan.value.seen, m.db.snapshots, m.scan.value.listing)
    ensures ValidRun(m, [Commit(now)] + [End]) && Ended(m.scan.value, m.requests, Run(m, [Commit(now)] + [End]), now)
  {
    var b := Apply(m, Commit(now));
    StepKeepsInv(m, Commit(now));
    CommitKeepsNewerRequests(m, now);
    assert Plan(m.scan.value)[..|m.scan.value.listing|] == Plan(m.scan.value);
    StepKeepsInv(b, End);
    OneStepRun(b, End);
    StepThenRun(m, Commit(now), [End]);
  }

  lemma CommitAndEnd(m: Machine, now: int)
    requires Inv(m) && m.scan.Some? && m.clock <= now
    requires m.scan.value.phase == Writing(|m.scan.value.listing|) && m.db.snapshots == m.scan.value.seen
    ensures var steps := [Freshen] + ([Commit(now)] + [End]);
            ValidRun(m, steps) && Ended(m.scan.value, m.requests, Run(m, steps), now)
  {
    FreshenStep(m);
    CommitThenEnd(Apply(m, Freshen), now);
    StepThenRun(m, Freshen, [Commit(now)] + [End]);
  }

  /** The steps of a scan one after the other do what a scan is for: from any sound state they can all
      be taken, and leave the listed pull requests under the chosen generation, built from the snapshots
      as they were, nothing under construction, and the flag up only for a request newer than the start. */
  lemma WholeScan(m: Machine, picked: SyncState, startedAt: int, pulls: seq<Pull>, listedAt: int, now: int)
    requires Inv(m) && Enabled(m, Begin(picked, startedAt)) && startedAt <= listedAt <= now && DistinctPulls(pulls)
    ensures var steps := [Begin(picked, startedAt)] + ([List(pulls, listedAt)] + ([Prepare] + Writes(|pulls|)))
                         + ([Freshen] + ([Commit(now)] + [End]));
            && ValidRun(m, steps)
            && var n := Run(m, steps);
            && Inv(n) && n.scan == None && n.covered == Some(listedAt) && n.clock == now
            && n.db.sync.generationCurrent == ChooseGeneration(picked) && n.db.sync.generationBuilding == None
            && n.db.sync.lastCommittedAt == Some(now) && CurrentRows(n.db) == PlanMap(PlanRows(pulls, m.db.snapshots))
            && (n.db.sync.dirty <==> m.requests != [] && m.requests[|m.requests| - 1] > startedAt)
            && SnapshotsFollow(m.db.snapshots, n.db.snapshots, pulls)
  {
    ScanUpToCommit(m, picked, startedAt, pulls, listedAt);
    var steps := [Begin(picked, startedAt)] + ([List(pulls, listedAt)] + ([Prepare] + Writes(|pulls|)));
    CommitAndEnd(Run(m, steps), now);
    RunJoin(m, steps, [Freshen] + ([Commit(now)] + [End]));
  }

  /** A scan that crashed before its commit leaves nothing: whatever rows it wrote, the retry
      resumes its generation number and its prepare step empties that generation. */
  lemma CrashedScanIsDiscarded(m: Machine, now: int, pulls: seq<Pull>)
    requires Inv(m) && m.scan.Some? && !m.scan.value.phase.Committed? && m.clock <= now && DistinctPulls(pulls)
    ensures var crashed := Apply(m, Crash);
            && Enabled(crashed, Begin(crashed.db.sync, now))
            && var begun := Apply(crashed, Begin(crashed.db.sync, now));
            && begun.scan.value.generation == m.scan.value.generation
            && Enabled(begun, List(pulls, now))
            && var listed := Apply(begun, List(pulls, now));
            && Enabled(listed, Prepare)
            && GenerationRows(Apply(listed, Prepare).db.rows, m.scan.value.generation) == map[]
            && CurrentRows(Apply(listed, Prepare).db) == CurrentRows(m.db)
  {
    var crashed := Apply(m, Crash);
    StepKeepsInv(m, Crash);
    var begun := Apply(crashed, Begin(crashed.db.sync, now));
    StepKeepsInv(crashed, Begin(crashed.db.sync, now));
    var listed := Apply(begun, List(pulls, now));
    StepKeepsInv(begun, List(pulls, now));
    PrepareStep(listed);
  }

  // ------------------------------------- where the conditions of Enabled are needed

  function ExampleRow(freshness: string): Row {
    Row(1, "h", "b", "main", "open", false, freshness)
  }

  function ExampleSync(generation: int, building: Option<int>, counts: Counts): SyncState {
    SyncState(false, None, generation, building, Some(1), generation, None, counts.total, counts.current, counts.stale)
  }

  /** Some pull request number that no row of a generation has. */
  lemma UnlistedNumber(m: map<int, Row>) returns (n: int)
    ensures n !in m
  {
    n := 0;
    var left := m.Keys;
    while left != {}
      invariant left <= m.Keys && forall k :: k in m && k !in left ==> k < n
      decreases |left|
    {
      HasNumber(left);
      var k :| k in left;
      n := Max(n, k + 1);
      left := left - {k};
    }
  }

  /** Closed, a pull request without a row leaves a generation as it is; open, it adds a row. */
  lemma UnlistedPullChangesTotal(m: map<int, Row>, snapshots: map<int, Snapshot>, closed: Pull, open: Pull)
    requires closed.number !in m && open.number !in m && TrimSpace(closed.state) != "open" && TrimSpace(open.state) == "open"
    ensures Recount(Reconciled(m, snapshots, closed)).total == |m|
    ensures Recount(Reconciled(m, snapshots, open)).total == |m| + 1
  {
    assert m - {closed.number} == m;
    SizeWritten(m, open.number, PlanRow(open, snapshots).row);
  }

  /** A reconcile of another generation sets the total to that of the other and leaves the current
      rows alone. */
  lemma ReconcileElsewhere(db: Db, generation: int, pull: Pull)
    requires 0 < generation != db.sync.generationCurrent
    ensures CountersExact(Reconcile(db, generation, pull)) ==>
              Recount(Reconciled(GenerationRows(db.rows, generation), db.snapshots, pull)).total == |CurrentRows(db)|
  {
    assert CurrentRows(Reconcile(db, generation, pull)) == CurrentRows(db);
  }

  lemma SomePullBreaksCounters(db: Db, generation: int) returns (pull: Pull)
    requires 0 < generation != db.sync.generationCurrent
    ensures !CountersExact(Reconcile(db, generation, pull))
  {
    var m := GenerationRows(db.rows, generation);
    var n := UnlistedNumber(m);
    var closed, open := Pull(n, 1, "h", "b", "main", "closed", false), Pull(n, 1, "h", "b", "main", "open", false);
    UnlistedPullChangesTotal(m, db.snapshots, closed, open);
    ReconcileElsewhere(db, generation, closed);
    ReconcileElsewhere(db, generation, open);
    pull := if |m| == |CurrentRows(db)| then open else closed;
  }

  /** A reconcile works on the generation its caller read before the transaction. Whatever pull
      request it is about, it leaves the counters exact, exactly if that generation is still the
      current one when the transaction runs. */
  lemma ReconcileOfReadGeneration(db: Db, generation: int)
    requires TablesInv(db) && generation > 0
    ensures (forall pull :: CountersExact(Reconcile(db, generation, pull))) <==> generation == db.sync.generationCurrent
  {
    if generation == db.sync.generationCurrent {
      forall pull ensures CountersExact(Reconcile(db, generation, pull)) {
        ReconcileSound(db, generation, pull);
      }
    } else {
      var pull := SomePullBreaksCounters(db, generation);
    }
  }

  /** Two rows in generation 2, neither indexed yet. */
  function ExampleDb(): Db {
    Db(map[2 := map[7 := ExampleRow(""), 8 := ExampleRow("")]], map[], ExampleSync(2, None, Counts(2, 0, 0)))
  }

  lemma ExampleDbSound()
    ensures TablesInv(ExampleDb()) && |CurrentRows(ExampleDb())| == 2
  {
    var m := map[7 := ExampleRow(""), 8 := ExampleRow("")];
    assert NumbersIn(m, Current) == {} && NumbersIn(m, Stale) == {};
    SizeWritten(map[7 := ExampleRow("")], 8, ExampleRow(""));
    assert map[7 := ExampleRow("")][8 := ExampleRow("")] == m;
  }

  /** For example: a reconcile of generation 1 after generation 2 was committed sets the total to 1
      where two rows are current. */
  lemma StaleGenerationBreaksCounters()
    ensures var d := Reconcile(ExampleDb(), 1, Pull(7, 1, "h", "b", "main", "open", false));
            TablesInv(ExampleDb()) && !CountersExact(d) && d.sync.total == 1 && |CurrentRows(d)| == 2
  {
    var pull := Pull(7, 1, "h", "b", "main", "open", false);
    ExampleDbSound();
    UnlistedPullChangesTotal(map[], map[], pull.(state := "closed"), pull);
    ReconcileElsewhere(ExampleDb(), 1, pull);
  }

  /** The counters after the staling of a base in a generation with these rows. */
  predicate StalingKeepsCounters(db: Db, generation: int, ref: string, m: map<int, Row>) {
    CountersExact(StaleBaseRef(db.(rows := db.rows[generation := m]), generation, ref))
  }

  lemma StalingElsewhere(db: Db, generation: int, ref: string, m: map<int, Row>)
    requires generation > 0 && generation != db.sync.generationCurrent && NormalizeBaseRef(ref) != ""
    ensures StalingKeepsCounters(db, generation, ref, m) ==> |m| == |CurrentRows(db)|
  {
    assert BaseMovedRows(m, NormalizeBaseRef(ref)).Keys == m.Keys;
    assert |BaseMovedRows(m, NormalizeBaseRef(ref))| == |BaseMovedRows(m, NormalizeBaseRef(ref)).Keys| == |m|;
    assert CurrentRows(StaleBaseRef(db.(rows := db.rows[generation := m]), generation, ref)) == CurrentRows(db);
  }

  /** The staling of a moved base works on such a generation too. Whatever rows that generation has,
      it leaves the counters exact, exactly if it is still the current one. */
  lemma BaseMovedOfReadGeneration(db: Db, generation: int, ref: string)
    requires TablesInv(db) && generation > 0 && NormalizeBaseRef(ref) != ""
    ensures (forall m :: StalingKeepsCounters(db, generation, ref, m)) <==> generation == db.sync.generationCurrent
  {
    if generation != db.sync.generationCurrent {
      var m := if CurrentRows(db) == map[] then map[1 := ExampleRow("")] else map[];
      assert |m| != |CurrentRows(db)|;
      StalingElsewhere(db, generation, ref, m);
      assert !StalingKeepsCounters(db, generation, ref, m);
    }
  }

  /** Every current row of this base says that its base moved. */
  predicate BaseStaled(db: Db, ref: string) {
    forall n :: n in CurrentRows(db) && CurrentRows(db)[n].baseRef == NormalizeBaseRef(ref) ==>
      CurrentRows(db)[n].freshness == FRESH_BASE_MOVED
  }

  /** And it reaches the rows readers use exactly if that generation is current, or there was nothing
      to do. */
  lemma BaseMovedReachesCurrentIff(db: Db, generation: int, ref: string)
    requires generation > 0 && NormalizeBaseRef(ref) != ""
    ensures BaseStaled(StaleBaseRef(db, generation, ref), ref) <==> generation == db.sync.generationCurrent || BaseStaled(db, ref)
  {
    var d := StaleBaseRef(db, generation, ref);
    assert generation != db.sync.generationCurrent ==> CurrentRows(d) == CurrentRows(db);
  }

  /** For example: the staling of generation 1 after generation 2 was committed sets the total to 0
      where two rows of that base are current, and both keep their freshness. */
  lemma StaleBaseRefMissesCurrent()
    ensures var d := StaleBaseRef(ExampleDb(), 1, "main");
            && TablesInv(ExampleDb()) && !CountersExact(d) && d.sync.total == 0 && |CurrentRows(d)| == 2
            && !BaseStaled(d, "main")
  {
    ExampleDbSound();
    assert NormalizeBaseRef("main") == "main";
    assert CurrentRows(ExampleDb())[7].baseRef == "main" && CurrentRows(ExampleDb())[7].freshness == "";
    StalingElsewhere(ExampleDb(), 1, "main", map[]);
    BaseMovedReachesCurrentIff(ExampleDb(), 1, "main");
  }

  /** An advance of a pass that began before a commit, seen over all outcomes for its row. */
  predicate AdvanceKeepsCounters(db: Db, generation: int, number: int, row: Row) {
    var d := AdvanceBackfill(db, generation, number, row);
    d.Some? ==> CountersExact(d.value)
  }

  /** A backfill pass reads its generation once, at its start. Its advance of a row leaves the counters
      exact whatever that row becomes, exactly if the row is gone or its generation still current. */
  lemma AdvanceOfReadGeneration(db: Db, generation: int, number: int)
    requires TablesInv(db)
    ensures (forall row: Row | Trimmed(row.freshness) :: AdvanceKeepsCounters(db, generation, number, row))
            <==> number !in GenerationRows(db.rows, generation) || generation == db.sync.generationCurrent
  {
    var m := GenerationRows(db.rows, generation);
    if number in m && generation != db.sync.generationCurrent {
      var was := CategoryOf(m[number].freshness);
      var row := m[number].(freshness := if was.Current? then FRESH_FAILED else FRESH_CURRENT);
      var d := AdvanceBackfill(db, generation, number, row).value;
      assert CurrentRows(d) == CurrentRows(db);
      assert !AdvanceKeepsCounters(db, generation, number, row);
    } else if number in m {
      forall row: Row | Trimmed(row.freshness) ensures AdvanceKeepsCounters(db, generation, number, row) {
        AdvanceExact(db, number, row);
      }
    }
  }

  /** A scan keeps the rows readers use, exactly if the state it was picked by still names the current
      generation and the number it chooses is another one. */
  lemma PickedScanKeepsCurrentIff(db: Db, picked: SyncState)
    requires TablesInv(db) && CurrentRows(db) != map[]
    ensures CurrentRows(PrepareGeneration(db, picked.generationCurrent, ChooseGeneration(picked))) == CurrentRows(db)
            <==> picked.generationCurrent == db.sync.generationCurrent && ChooseGeneration(picked) != db.sync.generationCurrent
  {
    PrepareKeepsCurrent(db, picked.generationCurrent, ChooseGeneration(picked));
  }

  /** A scan picked before another scan committed chooses the generation that is by then current,
      and its prepare step deletes the rows every reader is using. */
  lemma StalePickDeletesCurrent(db: Db, picked: SyncState)
    requires TablesInv(db) && CurrentRows(db) != map[]
    requires picked.generationCurrent == db.sync.generationCurrent - 1 && picked.generationBuilding.None?
    ensures ChooseGeneration(picked) == db.sync.generationCurrent
    ensures CurrentRows(PrepareGeneration(db, picked.generationCurrent, ChooseGeneration(picked))) == map[]
  {
  }

  /** A crash between a commit and the end of its scan leaves the generation under construction
      equal to the current one; the next scan resumes it and rewrites the current rows in place. */
  lemma CrashAfterCommitRewritesInPlace(m: Machine, now: int)
    requires Inv(m) && m.scan.Some? && m.scan.value.phase.Committed? && m.scan.value.generation > 0
    ensures ChooseGeneration(Apply(m, Crash).db.sync) == m.db.sync.generationCurrent
    ensures !Enabled(Apply(m, Crash), Begin(Apply(m, Crash).db.sync, now))
    ensures CurrentRows(PrepareGeneration(m.db, m.db.sync.generationCurrent, m.db.sync.generationCurrent)) == map[]
  {
  }

  /** After a crash the next scan builds apart from the current rows exactly if there was no commit
      before the crash. */
  lemma CrashIsHarmlessIff(m: Machine, now: int)
    requires Inv(m) && m.scan.Some? && m.scan.value.generation > 0 && m.clock <= now
    ensures var crashed := Apply(m, Crash);
            Enabled(crashed, Begin(crashed.db.sync, now)) <==> !m.scan.value.phase.Committed?
  {
  }

  function RequestAll(db: Db, requests: seq<int>): Db {
    if requests == [] then db else RequestScan(RequestAll(db, requests[..|requests| - 1]), requests[|requests| - 1])
  }

  /** Only the last request's time is kept: the flag a commit leaves tells, for every scan start,
      whether some request is newer than it exactly when no earlier request was newer than the last. */
  lemma LastRequestDecides(db: Db, requests: seq<int>, counts: Counts, generation: int, now: int)
    requires requests != []
    ensures (forall start :: CommitScan(RequestAll(db, requests), counts, start, generation, now).sync.dirty
                             <==> exists i :: 0 <= i < |requests| && requests[i] > start)
            <==> forall i :: 0 <= i < |requests| ==> requests[i] <= requests[|requests| - 1]
  {
    var last := requests[|requests| - 1];
    assert forall start :: CommitScan(RequestAll(db, requests), counts, start, generation, now).sync.dirty <==> last > start;
    if i :| 0 <= i < |requests| && requests[i] > last {
      assert !CommitScan(RequestAll(db, requests), counts, last, generation, now).sync.dirty;
    }
  }
}
