/** The open pull request inventory of one repository: its table rows, the cached
    counters beside them, and every transaction that touches either, as functions
    on the tables (internal/githubsync/change_sync.go). */
module Inventory {
  import opened Common

  datatype Row = Row(updatedAt: int, headSHA: string, baseSHA: string, baseRef: string,
                     state: string, draft: bool, freshness: string)

  /** repo_open_pull_inventories within one repository, by generation and pull request number. */
  type Table = map<int, map<int, Row>>

  datatype Snapshot = Snapshot(headSHA: string, baseSHA: string, baseRef: string, freshness: string)

  datatype Pull = Pull(number: int, updatedAt: int, headSHA: string, baseSHA: string,
                       baseRef: string, state: string, draft: bool)

  datatype Cursor = Cursor(updatedAt: int, number: int)

  /** The inventory columns of repo_change_sync_states. */
  datatype SyncState = SyncState(dirty: bool, dirtySince: Option<int>,
                                 generationCurrent: int, generationBuilding: Option<int>,
                                 lastCommittedAt: Option<int>, backfillGeneration: int,
                                 cursor: Option<Cursor>,
                                 total: int, current: int, stale: int)

  datatype Db = Db(rows: Table, snapshots: map<int, Snapshot>, sync: SyncState)

  const FRESH_CURRENT := "current"
  const FRESH_HEAD_CHANGED := "stale_head_changed"
  const FRESH_BASE_MOVED := "stale_base_moved"
  const FRESH_FAILED := "failed"

  // ---------------------------------------------------------------- freshness

  datatype Category = Missing | Current | Stale

  /** backfillFreshnessCategory: how the incremental counters class a row. */
  function CategoryOf(freshness: string): Category {
    var f := TrimSpace(freshness);
    if f == "" then Missing else if f == FRESH_CURRENT then Current else Stale
  }

  /** The class the three COUNT queries of a recount put the same row in. */
  function QueriedCategoryOf(freshness: string): Category {
    if freshness == "" then Missing else if freshness == FRESH_CURRENT then Current else Stale
  }

  /** The two classifications differ only on a padded "" or "current". */
  lemma CategoriesAgree(freshness: string)
    ensures CategoryOf(freshness) == QueriedCategoryOf(freshness)
            <==> (TrimSpace(freshness) in {"", FRESH_CURRENT} ==> Trimmed(freshness))
  {
    TrimSpaceFixed(freshness);
  }

  function NormalizeBaseRef(ref: string): string {
    TrimPrefix(TrimSpace(ref), "refs/heads/")
  }

  /** desiredFreshness */
  function DesiredFreshness(snapshot: Option<Snapshot>, headSHA: string, baseSHA: string, baseRef: string): string {
    match snapshot
    case None => ""
    case Some(s) =>
      if s.headSHA != TrimSpace(headSHA) then FRESH_HEAD_CHANGED
      else if s.baseSHA != TrimSpace(baseSHA) || NormalizeBaseRef(s.baseRef) != NormalizeBaseRef(baseRef) then FRESH_BASE_MOVED
      else if TrimSpace(s.freshness) == "" then FRESH_HEAD_CHANGED
      else s.freshness
  }

  function SnapshotOf(snapshots: map<int, Snapshot>, number: int): Option<Snapshot> {
    if number in snapshots then Some(snapshots[number]) else None
  }

  /** What desiredFreshness hands to the counters is trimmed whenever the snapshot column is,
      and is blank only when there is no snapshot. */
  lemma DesiredFreshnessShape(snapshot: Option<Snapshot>, headSHA: string, baseSHA: string, baseRef: string)
    requires snapshot.Some? ==> Trimmed(snapshot.value.freshness)
    ensures Trimmed(DesiredFreshness(snapshot, headSHA, baseSHA, baseRef))
    ensures DesiredFreshness(snapshot, headSHA, baseSHA, baseRef) == "" <==> snapshot.None?
    ensures DesiredFreshness(snapshot, headSHA, baseSHA, baseRef) == FRESH_CURRENT ==>
              snapshot.Some? && snapshot.value.headSHA == TrimSpace(headSHA)
              && snapshot.value.baseSHA == TrimSpace(baseSHA) && snapshot.value.freshness == FRESH_CURRENT
  {
    if snapshot.Some? {
      TrimSpaceFixed(snapshot.value.freshness);
    }
  }

  // ---------------------------------------------------------------- counters

  datatype Counts = Counts(total: int, current: int, stale: int)

  /** adjustBackfillCounts, with its two clamps. */
  function AdjustCounts(current: int, stale: int, oldFreshness: string, newFreshness: string): (int, int) {
    var o, n := CategoryOf(oldFreshness), CategoryOf(newFreshness);
    var c := current - (if o.Current? then 1 else 0) + (if n.Current? then 1 else 0);
    var s := stale - (if o.Stale? then 1 else 0) + (if n.Stale? then 1 else 0);
    (if c < 0 then 0 else c, if s < 0 then 0 else s)
  }

  /** What a row loses and gains, never below zero. */
  lemma AdjustedNotNegative(current: int, stale: int, oldFreshness: string, newFreshness: string)
    ensures var (c, s) := AdjustCounts(current, stale, oldFreshness, newFreshness);
            var o, n := CategoryOf(oldFreshness), CategoryOf(newFreshness);
            && c == Max(0, current + (if n.Current? then 1 else 0) - (if o.Current? then 1 else 0))
            && s == Max(0, stale + (if n.Stale? then 1 else 0) - (if o.Stale? then 1 else 0))
  {
  }

  /** The rows of one generation, by pull request number. */
  function GenerationRows(rows: Table, generation: int): map<int, Row> {
    if generation in rows then rows[generation] else map[]
  }

  function NumbersIn(m: map<int, Row>, c: Category): set<int> {
    set n | n in m && QueriedCategoryOf(m[n].freshness) == c
  }

  /** updateRepoInventoryCountsTx: three COUNT queries over one generation. */
  function Recount(m: map<int, Row>): Counts {
    Counts(|m|, |NumbersIn(m, Current)|, |NumbersIn(m, Stale)|)
  }

  /** What the WHERE clauses of the last two queries select. */
  lemma QueriedCounts(m: map<int, Row>)
    ensures (set n | n in m && m[n].freshness == FRESH_CURRENT) == NumbersIn(m, Current)
    ensures (set n | n in m && m[n].freshness != "" && m[n].freshness != FRESH_CURRENT) == NumbersIn(m, Stale)
  {
    forall n | n in m
      ensures m[n].freshness == FRESH_CURRENT <==> QueriedCategoryOf(m[n].freshness) == Current
      ensures m[n].freshness != "" && m[n].freshness != FRESH_CURRENT <==> QueriedCategoryOf(m[n].freshness) == Stale
    {
    }
  }

  predicate TrimmedRows(m: map<int, Row>) {
    forall n :: n in m ==> Trimmed(m[n].freshness)
  }

  /** One category's row count after a row is written at number n. */
  lemma CountWritten(m: map<int, Row>, n: int, row: Row, c: Category)
    ensures var was := if n in m && QueriedCategoryOf(m[n].freshness) == c then 1 else 0;
            var now := if QueriedCategoryOf(row.freshness) == c then 1 else 0;
            |NumbersIn(m[n := row], c)| == |NumbersIn(m, c)| - was + now
    ensures n in m && QueriedCategoryOf(m[n].freshness) == c ==> |NumbersIn(m, c)| >= 1
  {
    var before, after := NumbersIn(m, c), NumbersIn(m[n := row], c);
    var rest := before - {n};
    assert after == if QueriedCategoryOf(row.freshness) == c then rest + {n} else rest;
    assert n in before <==> n in m && QueriedCategoryOf(m[n].freshness) == c;
  }

  lemma SizeWritten<V>(m: map<int, V>, n: int, v: V)
    ensures |m[n := v]| == |m| + (if n in m then 0 else 1)
  {
    assert m[n := v].Keys == m.Keys + {n};
    assert |m[n := v]| == |m[n := v].Keys| && |m| == |m.Keys|;
  }

  /** Replacing one row moves a full recount exactly as the incremental adjustment does,
      with neither clamp taking effect. */
  lemma RecountUpdate(m: map<int, Row>, n: int, row: Row)
    requires TrimmedRows(m) && Trimmed(row.freshness)
    requires n in m
    ensures var (c, s) := AdjustCounts(Recount(m).current, Recount(m).stale, m[n].freshness, row.freshness);
            Recount(m[n := row]) == Counts(Recount(m).total, c, s)
    ensures CategoryOf(m[n].freshness).Current? ==> Recount(m).current >= 1
    ensures CategoryOf(m[n].freshness).Stale? ==> Recount(m).stale >= 1
  {
    CategoriesAgree(m[n].freshness);
    CategoriesAgree(row.freshness);
    CountWritten(m, n, row, Current);
    CountWritten(m, n, row, Stale);
    SizeWritten(m, n, row);
  }

  /** Inserting a row moves a recount as an adjustment from "" does, and adds one to the total. */
  lemma RecountInsert(m: map<int, Row>, n: int, row: Row)
    requires Trimmed(row.freshness)
    requires n !in m
    ensures var (c, s) := AdjustCounts(Recount(m).current, Recount(m).stale, "", row.freshness);
            Recount(m[n := row]) == Counts(Recount(m).total + 1, c, s)
  {
    CategoriesAgree("");
    CategoriesAgree(row.freshness);
    CountWritten(m, n, row, Current);
    CountWritten(m, n, row, Stale);
    SizeWritten(m, n, row);
  }

  /** The three categories partition a generation, so what the counters leave over is
      exactly the rows that were never indexed. */
  lemma CountsPartition(m: map<int, Row>)
    ensures Recount(m).total - Recount(m).current - Recount(m).stale == |NumbersIn(m, Missing)|
  {
    var a, b, c := NumbersIn(m, Current), NumbersIn(m, Stale), NumbersIn(m, Missing);
    forall n | n in m.Keys ensures n in a + b + c {
      assert QueriedCategoryOf(m[n].freshness) in {Missing, Current, Stale};
    }
    assert m.Keys == a + b + c;
    assert |m| == |m.Keys|;
    assert |a + b + c| == |a + b| + |c|;
  }

  // ---------------------------------------------------------------- scanning

  datatype Planned = Planned(number: int, row: Row)

  /** One row of buildOpenPullInventoryRows. */
  function PlanRow(pull: Pull, snapshots: map<int, Snapshot>): Planned {
    Planned(pull.number,
            Row(pull.updatedAt, TrimSpace(pull.headSHA), TrimSpace(pull.baseSHA), TrimSpace(pull.baseRef),
                TrimSpace(pull.state), pull.draft,
                DesiredFreshness(SnapshotOf(snapshots, pull.number), pull.headSHA, pull.baseSHA, pull.baseRef)))
  }

  /** The branch a ref names: with or without its prefix, and whatever the white space around it. */
  lemma BaseRefForms(branch: string)
    requires Trimmed(branch) && branch != "" && !("refs/heads/" <= branch)
    ensures NormalizeBaseRef(branch) == branch && NormalizeBaseRef("refs/heads/" + branch) == branch
    ensures forall ref | TrimSpace(ref) == branch || TrimSpace(ref) == "refs/heads/" + branch :: NormalizeBaseRef(ref) == branch
  {
    TrimSpaceFixed(branch);
    TrimSpaceFixed("refs/heads/" + branch);
  }

  predicate SameHead(s: Snapshot, pull: Pull) {
    s.headSHA == TrimSpace(pull.headSHA)
  }

  predicate SameBase(s: Snapshot, pull: Pull) {
    s.baseSHA == TrimSpace(pull.baseSHA) && NormalizeBaseRef(s.baseRef) == NormalizeBaseRef(pull.baseRef)
  }

  /** The pull request is indexed as it stands. */
  predicate IndexedNow(snapshots: map<int, Snapshot>, pull: Pull) {
    && pull.number in snapshots
    && var s := snapshots[pull.number];
       SameHead(s, pull) && SameBase(s, pull) && s.freshness == FRESH_CURRENT
  }

  /** A planned row carries what the pull request says, and its freshness compares that with the
      snapshot: none without one, "current" exactly if it is indexed as it stands, and otherwise the
      first of these that holds: the head changed, the base moved, or what the snapshot says itself. */
  lemma RowComparesWithSnapshot(pull: Pull, snapshots: map<int, Snapshot>)
    ensures var row := PlanRow(pull, snapshots).row;
            && PlanRow(pull, snapshots).number == pull.number && row.updatedAt == pull.updatedAt && row.draft == pull.draft
            && row.headSHA == TrimSpace(pull.headSHA) && row.baseSHA == TrimSpace(pull.baseSHA)
            && row.baseRef == TrimSpace(pull.baseRef) && row.state == TrimSpace(pull.state)
    ensures var f := PlanRow(pull, snapshots).row.freshness;
            && (f == "" <==> pull.number !in snapshots)
            && (f == FRESH_CURRENT <==> IndexedNow(snapshots, pull))
            && (pull.number in snapshots ==>
                  var s := snapshots[pull.number];
                  && (!SameHead(s, pull) ==> f == FRESH_HEAD_CHANGED)
                  && (SameHead(s, pull) && !SameBase(s, pull) ==> f == FRESH_BASE_MOVED)
                  && (SameHead(s, pull) && SameBase(s, pull) ==> f == if TrimSpace(s.freshness) == "" then FRESH_HEAD_CHANGED else s.freshness))
  {
    TrimSpaceFixed("");
    TrimSpaceFixed(FRESH_CURRENT);
  }

  function PlanRows(pulls: seq<Pull>, snapshots: map<int, Snapshot>): (plan: seq<Planned>)
    ensures |plan| == |pulls|
    ensures forall i :: 0 <= i < |plan| ==> plan[i] == PlanRow(pulls[i], snapshots)
  {
    seq(|pulls|, i requires 0 <= i < |pulls| => PlanRow(pulls[i], snapshots))
  }

  /** The counters a scan accumulates row by row. */
  function PlanCounts(plan: seq<Planned>): Counts {
    if plan == [] then Counts(0, 0, 0)
    else
      var before := PlanCounts(plan[..|plan| - 1]);
      var (c, s) := AdjustCounts(before.current, before.stale, "", plan[|plan| - 1].row.freshness);
      Counts(before.total + 1, c, s)
  }

  /** INSERT ... ON CONFLICT DO UPDATE of planned rows into one generation, in order. */
  function Upserted(m: map<int, Row>, plan: seq<Planned>): map<int, Row> {
    if plan == [] then m
    else Upserted(m, plan[..|plan| - 1])[plan[|plan| - 1].number := plan[|plan| - 1].row]
  }

  /** The rows of a generation that held none before its plan was upserted. */
  function PlanMap(plan: seq<Planned>): map<int, Row> {
    Upserted(map[], plan)
  }

  predicate DistinctNumbers(plan: seq<Planned>) {
    forall i, j :: 0 <= i < j < |plan| ==> plan[i].number != plan[j].number
  }

  predicate TrimmedPlan(plan: seq<Planned>) {
    forall i :: 0 <= i < |plan| ==> Trimmed(plan[i].row.freshness)
  }

  /** A plan's rows are its last entry per number. */
  lemma {:induction false} PlanMapEntries(plan: seq<Planned>)
    ensures forall n :: n in PlanMap(plan) <==> exists i :: 0 <= i < |plan| && plan[i].number == n
    ensures DistinctNumbers(plan) ==>
              forall i :: 0 <= i < |plan| ==> plan[i].number in PlanMap(plan) && PlanMap(plan)[plan[i].number] == plan[i].row
    ensures TrimmedPlan(plan) ==> TrimmedRows(PlanMap(plan))
  {
    if plan != [] {
      var init, last := plan[..|plan| - 1], plan[|plan| - 1];
      PlanMapEntries(init);
      forall n | n in PlanMap(plan) ensures exists i :: 0 <= i < |plan| && plan[i].number == n {
        if n == last.number {
          assert plan[|plan| - 1].number == n;
        } else {
          assert n in PlanMap(init);
          var i :| 0 <= i < |init| && init[i].number == n;
          assert plan[i].number == n;
        }
      }
      forall i | 0 <= i < |plan| ensures plan[i].number in PlanMap(plan) {
        if i < |init| {
          assert init[i].number == plan[i].number;
          assert plan[i].number in PlanMap(init);
        }
      }
      if DistinctNumbers(plan) {
        forall i | 0 <= i < |plan| ensures PlanMap(plan)[plan[i].number] == plan[i].row {
          if i < |init| {
            assert init[i] == plan[i];
            assert plan[i].number != last.number;
          }
        }
      }
    }
  }

  lemma DistinctExtended(init: seq<Planned>, last: Planned)
    ensures DistinctNumbers(init + [last]) <==> DistinctNumbers(init) && last.number !in PlanMap(init)
  {
    PlanMapEntries(init);
    var plan := init + [last];
    if last.number in PlanMap(init) {
      var i :| 0 <= i < |init| && init[i].number == last.number;
      assert plan[i].number == plan[|init|].number;
    }
    if DistinctNumbers(plan) {
      forall i, j | 0 <= i < j < |init| ensures init[i].number != init[j].number {
        assert plan[i].number != plan[j].number;
      }
    }
  }

  /** A plan writes as many rows as it has entries exactly when it names no number twice. */
  lemma {:induction false} PlanMapSize(plan: seq<Planned>)
    ensures |PlanMap(plan)| <= |plan|
    ensures |PlanMap(plan)| == |plan| <==> DistinctNumbers(plan)
  {
    if plan != [] {
      var init, last := plan[..|plan| - 1], plan[|plan| - 1];
      PlanMapSize(init);
      DistinctExtended(init, last);
      assert plan == init + [last];
      SizeWritten(PlanMap(init), last.number, last.row);
    }
  }

  /** The counters a scan accumulates are the recount of the rows it writes exactly when the
      listing names no pull request twice. A repeated one is counted once too often where the table
      takes both rows, that is, when they fall in different batches. */
  lemma {:induction false} PlanCountsExact(plan: seq<Planned>)
    requires TrimmedPlan(plan)
    ensures PlanCounts(plan).total == |plan|
    ensures PlanCounts(plan) == Recount(PlanMap(plan)) <==> DistinctNumbers(plan)
  {
    PlanMapSize(plan);
    if plan != [] {
      var init, last := plan[..|plan| - 1], plan[|plan| - 1];
      PlanCountsExact(init);
      DistinctExtended(init, last);
      assert plan == init + [last];
      if last.number !in PlanMap(init) {
        RecountInsert(PlanMap(init), last.number, last.row);
      }
    }
  }

  /** The pull requests of a listing that are indexed as they stand, and those with another snapshot. */
  ghost function IndexedNumbers(pulls: seq<Pull>, snapshots: map<int, Snapshot>): set<int> {
    set p | p in pulls && IndexedNow(snapshots, p) :: p.number
  }

  ghost function OutdatedNumbers(pulls: seq<Pull>, snapshots: map<int, Snapshot>): set<int> {
    set p | p in pulls && p.number in snapshots && !IndexedNow(snapshots, p) :: p.number
  }

  /** Of a listing without repeats the rows of the current class are the pull requests indexed as they
      stand, and those of the stale class the ones with another snapshot. */
  lemma PlannedClasses(pulls: seq<Pull>, snapshots: map<int, Snapshot>)
    requires DistinctNumbers(PlanRows(pulls, snapshots))
    ensures NumbersIn(PlanMap(PlanRows(pulls, snapshots)), Current) == IndexedNumbers(pulls, snapshots)
    ensures NumbersIn(PlanMap(PlanRows(pulls, snapshots)), Stale) == OutdatedNumbers(pulls, snapshots)
  {
    var plan := PlanRows(pulls, snapshots);
    PlanMapEntries(plan);
    forall p | p in pulls
      ensures p.number in PlanMap(plan)
      ensures QueriedCategoryOf(PlanMap(plan)[p.number].freshness) == Current <==> IndexedNow(snapshots, p)
      ensures QueriedCategoryOf(PlanMap(plan)[p.number].freshness) == Stale <==> p.number in snapshots && !IndexedNow(snapshots, p)
    {
      var i :| 0 <= i < |pulls| && pulls[i] == p;
      assert plan[i] == PlanRow(p, snapshots);
      RowComparesWithSnapshot(p, snapshots);
    }
    forall n | n in PlanMap(plan) ensures exists p :: p in pulls && p.number == n {
      var i :| 0 <= i < |plan| && plan[i].number == n;
      assert pulls[i] in pulls && pulls[i].number == n;
    }
  }

  /** nextInventoryGeneration and inventoryGenerationForState: a positive building generation is
      resumed, otherwise the generation after the current one is taken. */
  function ChooseGeneration(s: SyncState): int {
    if s.generationBuilding.Some? && s.generationBuilding.value > 0 then s.generationBuilding.value
    else NextGeneration(s)
  }

  function NextGeneration(s: SyncState): int {
    var next := s.generationCurrent + 1;
    var bumped := if s.generationBuilding.Some? && s.generationBuilding.value >= next then s.generationBuilding.value + 1 else next;
    if bumped <= 0 then 1 else bumped
  }

  /** A positive number above the current one and that under construction. */
  predicate IsFree(s: SyncState, generation: int) {
    1 <= generation && s.generationCurrent < generation
    && (s.generationBuilding.Some? ==> s.generationBuilding.value < generation)
  }

  /** A positive number under construction is resumed; otherwise the least free one is taken. */
  lemma ChosenGenerationIsLeastFree(s: SyncState)
    ensures s.generationBuilding.Some? && s.generationBuilding.value > 0 ==> ChooseGeneration(s) == s.generationBuilding.value
    ensures s.generationBuilding.None? || s.generationBuilding.value <= 0 ==> ChooseGeneration(s) == NextGeneration(s)
    ensures IsFree(s, NextGeneration(s)) && forall k | IsFree(s, k) :: NextGeneration(s) <= k
  {
  }

  /** Taking the fetch lease records the generation under construction. */
  function BeginScan(db: Db, generation: int): Db {
    db.(sync := db.sync.(generationBuilding := Some(generation)))
  }

  /** prepareInventoryGeneration: drop the generation to be built, and every other
      generation than the one the caller believes current. */
  function PrepareGeneration(db: Db, believedCurrent: int, next: int): Db {
    db.(rows := map g | g in db.rows && g != next && believedCurrent > 0 && g == believedCurrent :: db.rows[g])
  }

  function WriteRows(db: Db, generation: int, plan: seq<Planned>): Db {
    db.(rows := db.rows[generation := Upserted(GenerationRows(db.rows, generation), plan)])
  }

  /** Writing a plan batch by batch is writing it whole. */
  lemma {:induction false} UpsertedSplit(m: map<int, Row>, a: seq<Planned>, b: seq<Planned>)
    ensures Upserted(m, a + b) == Upserted(Upserted(m, a), b)
  {
    if b == [] {
      assert a + b == a;
    } else {
      assert (a + b)[..|a + b| - 1] == a + b[..|b| - 1];
      UpsertedSplit(m, a, b[..|b| - 1]);
    }
  }

  /** applySnapshotFreshnessUpdates, for the snapshots recorded while the rows were built. */
  function ApplyFreshness(db: Db, updates: map<int, string>): Db {
    db.(snapshots := map n | n in db.snapshots ::
      if n in updates then db.snapshots[n].(freshness := updates[n]) else db.snapshots[n])
  }

  /** retainedDirtyExpr and retainedDirtySinceExpr */
  function RetainedDirtySince(dirtySince: Option<int>, scanStartedAt: int): Option<int> {
    if dirtySince.Some? && dirtySince.value > scanStartedAt then dirtySince else None
  }

  /** commitOpenPullInventoryState */
  function CommitScan(db: Db, counts: Counts, scanStartedAt: int, generation: int, now: int): Db {
    var kept := RetainedDirtySince(db.sync.dirtySince, scanStartedAt);
    db.(sync := SyncState(kept.Some?, kept, generation, db.sync.generationBuilding, Some(now), generation, None,
                          counts.total, counts.current, counts.stale))
  }

  /** completeFetchPass and finishFetchStateWithError clear the generation under construction. */
  function EndScan(db: Db): Db {
    db.(sync := db.sync.(generationBuilding := None))
  }

  /** MarkInventoryNeedsRefresh */
  function RequestScan(db: Db, seenAt: int): Db {
    db.(sync := db.sync.(dirty := true, dirtySince := Some(seenAt)))
  }

  // ------------------------------------------------- other lanes on the same rows

  function SetCounts(s: SyncState, c: Counts): SyncState {
    s.(total := c.total, current := c.current, stale := c.stale)
  }

  /** advanceBackfillProgress: None when the row is gone, in which case nothing is written. */
  function AdvanceBackfill(db: Db, generation: int, number: int, row: Row): Option<Db> {
    var m := GenerationRows(db.rows, generation);
    if number !in m then None
    else
      var (c, s) := AdjustCounts(db.sync.current, db.sync.stale, m[number].freshness, row.freshness);
      Some(db.(rows := db.rows[generation := m[number := row]],
               sync := db.sync.(current := c, stale := s, cursor := Some(Cursor(row.updatedAt, number)))))
  }

  /** What a targeted reconcile makes of the generation it works on: the row of its pull request is
      gone if that is no longer open, and is rebuilt from the fetched one if it is. */
  function Reconciled(m: map<int, Row>, snapshots: map<int, Snapshot>, pull: Pull): map<int, Row> {
    if TrimSpace(pull.state) != "open" then m - {pull.number}
    else m[pull.number := PlanRow(pull, snapshots).row]
  }

  /** reconcileTargetedRefreshTx for a generation number read before the transaction. */
  function Reconcile(db: Db, generation: int, pull: Pull): Db {
    if generation <= 0 then db
    else
      var freshness := PlanRow(pull, db.snapshots).row.freshness;
      var snapshots := if pull.number in db.snapshots
                       then db.snapshots[pull.number := db.snapshots[pull.number].(freshness := freshness)]
                       else db.snapshots;
      var m := Reconciled(GenerationRows(db.rows, generation), db.snapshots, pull);
      db.(rows := db.rows[generation := m], snapshots := snapshots, sync := SetCounts(db.sync, Recount(m)))
  }

  /** Every row of a moved base becomes stale for that reason. */
  function BaseMovedRows(m: map<int, Row>, baseRef: string): map<int, Row> {
    map n | n in m ::
      if m[n].baseRef == baseRef && m[n].freshness != FRESH_BASE_MOVED then m[n].(freshness := FRESH_BASE_MOVED) else m[n]
  }

  /** markInventoryBaseRefStale for a generation number read before the transaction. */
  function StaleBaseRef(db: Db, generation: int, ref: string): Db {
    var baseRef := NormalizeBaseRef(ref);
    if baseRef == "" || generation <= 0 then db
    else
      var m := BaseMovedRows(GenerationRows(db.rows, generation), baseRef);
      db.(rows := db.rows[generation := m], sync := SetCounts(db.sync, Recount(m)))
  }

  lemma ReconciledRows(m: map<int, Row>, snapshots: map<int, Snapshot>, pull: Pull)
    ensures var after, n := Reconciled(m, snapshots, pull), pull.number;
            && (n in after <==> TrimSpace(pull.state) == "open")
            && (n in after ==> after[n] == PlanRow(pull, snapshots).row)
            && after - {n} == m - {n}
  {
  }

  /** A targeted reconcile touches the row of its pull request and no other: it is gone if the pull
      request is not open any more, and otherwise says what that says. */
  lemma ReconcileFollowsPull(db: Db, generation: int, pull: Pull)
    requires generation > 0
    ensures var d, n := Reconcile(db, generation, pull), pull.number;
            var m := GenerationRows(d.rows, generation);
            && (n in m <==> TrimSpace(pull.state) == "open")
            && (n in m ==> m[n] == PlanRow(pull, db.snapshots).row)
            && m - {n} == GenerationRows(db.rows, generation) - {n}
            && d.sync == SetCounts(db.sync, Recount(m))
            && forall g | g != generation :: GenerationRows(d.rows, g) == GenerationRows(db.rows, g)
  {
    ReconciledRows(GenerationRows(db.rows, generation), db.snapshots, pull);
  }

  /** Its snapshot gets the freshness of the row, and no other changes. */
  lemma ReconcileFreshensSnapshot(db: Db, generation: int, pull: Pull)
    requires generation > 0
    ensures var after := Reconcile(db, generation, pull).snapshots;
            && after.Keys == db.snapshots.Keys
            && forall k | k in after ::
                 after[k] == if k == pull.number then db.snapshots[k].(freshness := PlanRow(pull, db.snapshots).row.freshness) else db.snapshots[k]
  {
  }

  /** Staling a moved base gives exactly the rows of that base this freshness and leaves all others, and
      everything else about these, as they were. */
  lemma BaseMovedRowsOnly(db: Db, generation: int, ref: string)
    requires generation > 0 && NormalizeBaseRef(ref) != ""
    ensures var d, before := StaleBaseRef(db, generation, ref), GenerationRows(db.rows, generation);
            var m := GenerationRows(d.rows, generation);
            && m.Keys == before.Keys
            && (forall n | n in m ::
                  m[n] == if before[n].baseRef == NormalizeBaseRef(ref) then before[n].(freshness := FRESH_BASE_MOVED) else before[n])
            && (forall g | g != generation :: GenerationRows(d.rows, g) == GenerationRows(db.rows, g))
            && d.snapshots == db.snapshots && d.sync == SetCounts(db.sync, Recount(m))
  {
  }

  /** Without a generation, or without a ref, neither changes anything. */
  lemma NothingToStaleOrReconcile(db: Db, generation: int, ref: string, pull: Pull)
    ensures generation <= 0 ==> Reconcile(db, generation, pull) == db
    ensures generation <= 0 || NormalizeBaseRef(ref) == "" ==> StaleBaseRef(db, generation, ref) == db
  {
  }

  /** SyncPullRequestIndex, seen from here: some snapshot is written for a pull request. */
  function WriteSnapshot(db: Db, number: int, snapshot: Snapshot): Db {
    db.(snapshots := db.snapshots[number := snapshot])
  }
}
