/** The service's transactions on the inventory tables, updating them in place. Each method is the
    service's function of the same name, tied to the table function that specifies it. */
module InventoryStore {
  import opened Common
  import opened Inventory
  import opened InventoryRuns

  class Store {
    var rows: Table
    var snapshots: map<int, Snapshot>
    var sync: SyncState

    function View(): Db
      reads this
    {
      Db(rows, snapshots, sync)
    }

    constructor ()
      ensures View() == Initial().db
    {
      rows, snapshots, sync := map[], map[], InitialSync();
    }

    method MarkInventoryNeedsRefresh(seenAt: int)
      modifies this
      ensures View() == RequestScan(old(View()), seenAt)
      ensures forall counts, start, generation, now ::
                CommitScan(View(), counts, start, generation, now).sync.dirty <==> seenAt > start
    {
      sync := sync.(dirty := true, dirtySince := Some(seenAt));
    }

    /** The generation a scan will build, and the column that announces it. */
    method ChooseInventoryGeneration(picked: SyncState) returns (generation: int)
      modifies this
      ensures generation == ChooseGeneration(picked)
      ensures View() == BeginScan(old(View()), generation)
    {
      generation := NextGeneration(picked);
      if picked.generationBuilding.Some? && picked.generationBuilding.value > 0 {
        generation := picked.generationBuilding.value;
      }
      sync := sync.(generationBuilding := Some(generation));
    }

    method PrepareInventoryGeneration(believedCurrent: int, next: int)
      modifies this
      ensures View() == PrepareGeneration(old(View()), believedCurrent, next)
    {
      rows := rows - {next};
      if believedCurrent <= 0 {
        rows := map[];
      } else {
        rows := map g | g in rows && g == believedCurrent :: rows[g];
      }
    }

    /** Upserts a plan a hundred rows at a time, one transaction per batch, up to the first batch
        that is refused. written says how far it came. */
    method WriteInventoryGeneration(generation: int, plan: seq<Planned>) returns (ok: bool, written: nat)
      modifies this
      ensures ok <==> BatchesFit(plan, |plan|)
      ensures written <= |plan| && (ok ==> written == |plan|)
      ensures !ok ==> written < |plan| && written % WRITE_BATCH == 0 && !DistinctNumbers(BatchAt(plan, written))
      ensures View() == if written == 0 then old(View()) else WriteRows(old(View()), generation, plan[..written])
    {
      written := 0;
      while written < |plan|
        invariant written <= |plan| && (written < |plan| ==> written % WRITE_BATCH == 0)
        invariant snapshots == old(snapshots) && sync == old(sync)
        invariant rows == WrittenSoFar(old(rows), generation, plan, written) && BatchesFit(plan, written)
      {
        var end := written + WRITE_BATCH;
        if end > |plan| {
          end := |plan|;
        }
        assert plan[written..end] == BatchAt(plan, written);
        ok := UpsertBatch(generation, plan[written..end]);
        if !ok {
          return;
        }
        WrittenOneMore(old(rows), generation, plan, written, end);
        FitsOneMore(plan, written, end);
        written := end;
      }
      ok := true;
    }

    /** One statement for the whole batch. The database refuses it if it names a number twice, since
        ON CONFLICT DO UPDATE cannot touch a row a second time; then nothing is written. */
    method UpsertBatch(generation: int, batch: seq<Planned>) returns (ok: bool)
      modifies this`rows
      ensures ok <==> DistinctNumbers(batch)
      ensures rows == if ok then old(rows)[generation := Upserted(GenerationRows(old(rows), generation), batch)] else old(rows)
    {
      ok := true;
      var m := if generation in rows then rows[generation] else map[];
      ghost var before := m;
      for i := 0 to |batch|
        invariant rows == old(rows) && m == Upserted(before, batch[..i]) && DistinctNumbers(batch[..i])
      {
        assert batch[..i + 1] == batch[..i] + [batch[i]];
        PlanMapEntries(batch[..i]);
        DistinctExtended(batch[..i], batch[i]);
        if Names(batch[..i], batch[i].number) {
          RepeatInPrefix(batch, i);
          return false;
        }
        m := m[batch[i].number := batch[i].row];
      }
      assert batch[..|batch|] == batch;
      rows := rows[generation := m];
    }

    method ApplySnapshotFreshnessUpdates(updates: map<int, string>)
      modifies this`snapshots
      ensures View() == ApplyFreshness(old(View()), updates)
    {
      var left := updates.Keys;
      while left != {}
        invariant left <= updates.Keys
        invariant snapshots.Keys == old(snapshots.Keys)
        invariant forall k | k in snapshots ::
                    snapshots[k] == if k in updates && k !in left then old(snapshots)[k].(freshness := updates[k]) else old(snapshots)[k]
        decreases |left|
      {
        HasNumber(left);
        var n :| n in left;
        if n in snapshots {
          snapshots := snapshots[n := snapshots[n].(freshness := updates[n])];
        }
        left := left - {n};
      }
      FreshenedTable(old(View()), snapshots, updates);
    }

    method CommitOpenPullInventoryState(counts: Counts, scanStartedAt: int, generation: int, now: int)
      modifies this
      ensures View() == CommitScan(old(View()), counts, scanStartedAt, generation, now)
    {
      var newer := sync.dirtySince.Some? && sync.dirtySince.value > scanStartedAt;
      sync := sync.(dirty := newer, dirtySince := if newer then sync.dirtySince else None,
                    generationCurrent := generation, lastCommittedAt := Some(now),
                    backfillGeneration := generation, cursor := None,
                    total := counts.total, current := counts.current, stale := counts.stale);
    }

    /** One scan with nothing interleaved. From sound tables and a listing without repeats, it
        installs exactly the listed pull requests under a higher generation, with exact counters. */
    method SyncOpenPullInventory(picked: SyncState, scanStartedAt: int, pulls: seq<Pull>, now: int)
        returns (counts: Counts)
      requires TablesInv(View()) && DistinctPulls(pulls)
      requires picked.generationCurrent == sync.generationCurrent
      requires ChooseGeneration(picked) > sync.generationCurrent
      modifies this
      ensures TablesInv(View())
      ensures sync.generationCurrent == ChooseGeneration(picked) > old(sync.generationCurrent)
      ensures CurrentRows(View()) == PlanMap(PlanRows(pulls, old(snapshots)))
      ensures counts == Recount(CurrentRows(View())) && counts.total == |pulls|
      ensures counts.current == |IndexedNumbers(pulls, old(snapshots))| && counts.stale == |OutdatedNumbers(pulls, old(snapshots))|
      ensures sync.dirtySince == RetainedDirtySince(old(sync.dirtySince), scanStartedAt)
      ensures sync.lastCommittedAt == Some(now) && sync.cursor == None
      ensures SnapshotsFollow(old(snapshots), snapshots, pulls)
    {
      var generation := ChooseGeneration(picked);
      ghost var scan := Scan(scanStartedAt, generation, picked.generationCurrent, Began, pulls, snapshots, now);
      PlanFacts(scan);
      FreshnessUpdatesTrimmed(pulls, snapshots);
      PlanCountsExact(Plan(scan));
      PlannedClasses(pulls, snapshots);
      UpsertedTrimmed(map[], Plan(scan));
      var plan, updates, built := BuildOpenPullInventoryRows(pulls, snapshots);
      PrepareInventoryGeneration(picked.generationCurrent, generation);
      DistinctBatches(plan);
      var ok, written := WriteInventoryGeneration(generation, plan);
      assert plan[..written] == plan;
      FreshenedFollows(View(), pulls);
      ApplySnapshotFreshnessUpdates(updates);
      CommitOpenPullInventoryState(built, scanStartedAt, generation, now);
      counts := built;
    }

    method AdvanceBackfillProgress(generation: int, number: int, row: Row) returns (found: bool)
      modifies this
      ensures found == AdvanceBackfill(old(View()), generation, number, row).Some?
      ensures View() == if found then AdvanceBackfill(old(View()), generation, number, row).value else old(View())
    {
      if generation !in rows || number !in rows[generation] {
        return false;
      }
      var stored := rows[generation][number];
      var current, stale := AdjustBackfillCounts(sync.current, sync.stale, stored.freshness, row.freshness);
      rows := rows[generation := rows[generation][number := row]];
      sync := sync.(current := current, stale := stale, cursor := Some(Cursor(row.updatedAt, number)));
      return true;
    }

    method UpdateRepoInventoryCounts(generation: int)
      modifies this`sync
      ensures sync == SetCounts(old(sync), Recount(GenerationRows(rows, generation)))
    {
      var m := if generation in rows then rows[generation] else map[];
      var current := set n | n in m && m[n].freshness == FRESH_CURRENT;
      var stale := set n | n in m && m[n].freshness != "" && m[n].freshness != FRESH_CURRENT;
      QueriedCounts(m);
      sync := sync.(total := |m|, current := |current|, stale := |stale|);
    }

    /** generation is what the caller read from the state row before the transaction began. */
    method ReconcileTargetedRefresh(generation: int, pull: Pull)
      modifies this
      ensures View() == Reconcile(old(View()), generation, pull)
    {
      if generation <= 0 {
        return;
      }
      var planned := PlanRow(pull, snapshots);
      UpdateTargetedRefreshSnapshot(pull.number, planned.row.freshness);
      var m := if generation in rows then rows[generation] else map[];
      if TrimSpace(pull.state) != "open" {
        rows := rows[generation := m - {pull.number}];
      } else {
        rows := rows[generation := m[pull.number := planned.row]];
      }
      UpdateRepoInventoryCounts(generation);
    }

    method UpdateTargetedRefreshSnapshot(number: int, freshness: string)
      modifies this`snapshots
      ensures snapshots == if number in old(snapshots)
                           then old(snapshots)[number := old(snapshots)[number].(freshness := freshness)] else old(snapshots)
    {
      if number in snapshots && snapshots[number].freshness != freshness {
        snapshots := snapshots[number := snapshots[number].(freshness := freshness)];
      }
    }

    method MarkInventoryBaseRefStale(generation: int, ref: string)
      modifies this
      ensures View() == StaleBaseRef(old(View()), generation, ref)
    {
      var baseRef := NormalizeBaseRef(ref);
      if baseRef == "" || generation <= 0 {
        return;
      }
      var m := if generation in rows then rows[generation] else map[];
      rows := rows[generation := BaseMovedRows(m, baseRef)];
      UpdateRepoInventoryCounts(generation);
    }
  }

  /** The batch that starts at this row of a plan. */
  function BatchAt(plan: seq<Planned>, start: nat): seq<Planned>
    requires start <= |plan|
  {
    plan[start..Min(start + WRITE_BATCH, |plan|)]
  }

  predicate Names(plan: seq<Planned>, number: int) {
    exists i | 0 <= i < |plan| :: plan[i].number == number
  }

  lemma RepeatInPrefix(plan: seq<Planned>, i: nat)
    requires i < |plan| && Names(plan[..i], plan[i].number)
    ensures !DistinctNumbers(plan)
  {
    var j :| 0 <= j < i && plan[..i][j].number == plan[i].number;
    assert plan[j].number == plan[i].number;
  }

  /** No batch that starts before this row names a number twice. */
  predicate BatchesFit(plan: seq<Planned>, upto: nat)
    requires upto <= |plan|
  {
    forall start | 0 <= start < upto && start % WRITE_BATCH == 0 :: DistinctNumbers(BatchAt(plan, start))
  }

  function WrittenSoFar(rows: Table, generation: int, plan: seq<Planned>, upto: nat): Table
    requires upto <= |plan|
  {
    if upto == 0 then rows else rows[generation := Upserted(GenerationRows(rows, generation), plan[..upto])]
  }

  lemma WrittenOneMore(rows: Table, generation: int, plan: seq<Planned>, from: nat, to: nat)
    requires from < to <= |plan|
    ensures var m := WrittenSoFar(rows, generation, plan, from);
            WrittenSoFar(rows, generation, plan, to) == m[generation := Upserted(GenerationRows(m, generation), plan[from..to])]
  {
    assert plan[..to] == plan[..from] + plan[from..to];
    UpsertedSplit(GenerationRows(rows, generation), plan[..from], plan[from..to]);
    assert plan[..0] == [];
  }

  lemma FitsOneMore(plan: seq<Planned>, from: nat, to: nat)
    requires from < to == Min(from + WRITE_BATCH, |plan|) && from % WRITE_BATCH == 0
    requires BatchesFit(plan, from) && DistinctNumbers(BatchAt(plan, from))
    ensures BatchesFit(plan, to) && (to < |plan| ==> to % WRITE_BATCH == 0)
  {
    BatchStarts(from, to);
  }

  /** Between two batches no other batch starts. */
  lemma BatchStarts(from: nat, to: nat)
    requires from % WRITE_BATCH == 0 && from < to <= from + WRITE_BATCH
    ensures forall start | from < start < to :: start % WRITE_BATCH != 0
    ensures to == from + WRITE_BATCH ==> to % WRITE_BATCH == 0
  {
  }

  lemma DistinctBatches(plan: seq<Planned>)
    requires DistinctNumbers(plan)
    ensures forall start | 0 <= start < |plan| :: DistinctNumbers(BatchAt(plan, start))
  {
  }

  lemma FreshenedTable(db: Db, after: map<int, Snapshot>, updates: map<int, string>)
    requires after.Keys == db.snapshots.Keys
    requires forall k | k in after ::
               after[k] == if k in updates then db.snapshots[k].(freshness := updates[k]) else db.snapshots[k]
    ensures ApplyFreshness(db, updates) == db.(snapshots := after)
  {
    var expected := ApplyFreshness(db, updates).snapshots;
    assert forall k | k in after :: expected[k] == after[k];
    assert expected == after;
  }

  method AdjustBackfillCounts(current: int, stale: int, oldFreshness: string, newFreshness: string)
      returns (nextCurrent: int, nextStale: int)
    ensures (nextCurrent, nextStale) == AdjustCounts(current, stale, oldFreshness, newFreshness)
  {
    nextCurrent, nextStale := current, stale;
    match CategoryOf(oldFreshness) {
      case Current => nextCurrent := nextCurrent - 1;
      case Stale => nextStale := nextStale - 1;
      case Missing =>
    }
    match CategoryOf(newFreshness) {
      case Current => nextCurrent := nextCurrent + 1;
      case Stale => nextStale := nextStale + 1;
      case Missing =>
    }
    if nextCurrent < 0 { nextCurrent := 0; }
    if nextStale < 0 { nextStale := 0; }
  }

  lemma PlanCountsAppend(plan: seq<Planned>, planned: Planned)
    ensures var (c, s) := AdjustCounts(PlanCounts(plan).current, PlanCounts(plan).stale, "", planned.row.freshness);
            PlanCounts(plan + [planned]) == Counts(PlanCounts(plan).total + 1, c, s)
  {
    assert (plan + [planned])[..|plan|] == plan;
  }

  lemma PlanRowsAppend(listed: seq<Pull>, pull: Pull, seen: map<int, Snapshot>)
    ensures PlanRows(listed + [pull], seen) == PlanRows(listed, seen) + [PlanRow(pull, seen)]
  {
  }

  /** recordSnapshotFreshnessUpdate, for the pull request that follows those already listed. */
  method RecordSnapshotFreshnessUpdate(updates: map<int, string>, ghost listed: seq<Pull>, pull: Pull, seen: map<int, Snapshot>)
      returns (next: map<int, string>)
    requires updates == FreshnessUpdates(listed, seen)
    ensures next == FreshnessUpdates(listed + [pull], seen)
  {
    assert (listed + [pull])[..|listed|] == listed;
    next := updates;
    var planned := PlanRow(pull, seen);
    if planned.number in seen && seen[planned.number].freshness != planned.row.freshness {
      next := next[planned.number := planned.row.freshness];
    }
  }

  /** buildOpenPullInventoryRows: one row per listed pull request, the snapshot updates those rows
      imply, and the counters accumulated on the way. */
  method BuildOpenPullInventoryRows(pulls: seq<Pull>, seen: map<int, Snapshot>)
      returns (plan: seq<Planned>, updates: map<int, string>, counts: Counts)
    ensures plan == PlanRows(pulls, seen)
    ensures updates == FreshnessUpdates(pulls, seen)
    ensures counts == PlanCounts(plan)
  {
    plan, updates := [], map[];
    var current, stale := 0, 0;
    for i := 0 to |pulls|
      invariant plan == PlanRows(pulls[..i], seen)
      invariant updates == FreshnessUpdates(pulls[..i], seen)
      invariant Counts(i, current, stale) == PlanCounts(plan)
    {
      ghost var listed := pulls[..i];
      assert pulls[..i + 1] == listed + [pulls[i]];
      var planned := PlanRow(pulls[i], seen);
      updates := RecordSnapshotFreshnessUpdate(updates, listed, pulls[i], seen);
      PlanCountsAppend(plan, planned);
      PlanRowsAppend(listed, pulls[i], seen);
      plan := plan + [planned];
      current, stale := AdjustBackfillCounts(current, stale, "", planned.row.freshness);
    }
    assert pulls[..|pulls|] == pulls;
    counts := Counts(|pulls|, current, stale);
  }
}
