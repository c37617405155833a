/** The backfill lane at work on the store: one pass over its candidates, and passes repeated until
    the cursor returns to nil (internal/githubsync/change_sync.go). */
module Backfill {
  import opened Common
  import opened Inventory
  import opened InventoryRuns
  import opened InventoryStore
  import opened Sweep

  /** What syncPullRequestChangeOnly comes back with: an error, or the fetched pull request after
      its index wrote (or did not write) a snapshot. */
  datatype Outcome = SyncFailed | Fetched(pull: Pull, indexed: Option<Snapshot>)

  datatype PassResult = PassResult(processed: int, indexed: int, failed: int, completed: bool)

  predicate OutcomeFor(number: int, outcome: Outcome) {
    outcome.Fetched? ==>
      outcome.pull.number == number
      && (outcome.indexed.Some? ==> Trimmed(outcome.indexed.value.freshness))
  }

  function InventoryFromPull(pull: Pull): Row {
    Row(pull.updatedAt, TrimSpace(pull.headSHA), TrimSpace(pull.baseSHA), TrimSpace(pull.baseRef),
        TrimSpace(pull.state), pull.draft, "")
  }

  /** The snapshots after a sync: the index may have written that of the pull request. */
  function SnapshotsAfter(snapshots: map<int, Snapshot>, outcome: Outcome): map<int, Snapshot> {
    if outcome.Fetched? && outcome.indexed.Some? then snapshots[outcome.pull.number := outcome.indexed.value] else snapshots
  }

  /** The row an attempt leaves. A failed sync keeps the listed row, "failed" if it had no freshness; a
      successful one says what was fetched and compares that with the snapshot, "failed" without one. */
  function RowAfter(snapshots: map<int, Snapshot>, listed: Row, outcome: Outcome): Row {
    match outcome
    case SyncFailed => if listed.freshness == "" then listed.(freshness := FRESH_FAILED) else listed
    case Fetched(pull, _) =>
      var row := PlanRow(pull, SnapshotsAfter(snapshots, outcome)).row;
      if row.freshness == "" then row.(freshness := FRESH_FAILED) else row
  }

  /** The sync fetched the pull request and indexed it as fetched. */
  predicate Indexes(outcome: Outcome) {
    && outcome.Fetched? && outcome.indexed.Some?
    && SameHead(outcome.indexed.value, outcome.pull) && SameBase(outcome.indexed.value, outcome.pull)
    && outcome.indexed.value.freshness == FRESH_CURRENT
  }

  /** A row is current after an attempt exactly if it was so and the sync failed, or the pull request is
      now indexed as fetched; a sync that indexes it as fetched makes it current. */
  lemma CurrentAfter(snapshots: map<int, Snapshot>, listed: Row, outcome: Outcome)
    ensures RowAfter(snapshots, listed, outcome).freshness == FRESH_CURRENT
            <==> if outcome.SyncFailed? then listed.freshness == FRESH_CURRENT
                 else IndexedNow(SnapshotsAfter(snapshots, outcome), outcome.pull)
    ensures Indexes(outcome) ==> RowAfter(snapshots, listed, outcome).freshness == FRESH_CURRENT
  {
    if outcome.Fetched? {
      RowComparesWithSnapshot(outcome.pull, SnapshotsAfter(snapshots, outcome));
    }
  }

  /** processBackfillCandidate */
  method ProcessBackfillCandidate(store: Store, number: int, listed: Row, outcome: Outcome) returns (row: Row)
    requires OutcomeFor(number, outcome) && Trimmed(listed.freshness) && AllTrimmed(store.View())
    modifies store`snapshots
    ensures Trimmed(row.freshness) && AllTrimmed(store.View())
    ensures outcome.SyncFailed? ==> row == listed.(freshness := if listed.freshness == "" then FRESH_FAILED else listed.freshness)
    ensures outcome.Fetched? ==> row == InventoryFromPull(outcome.pull).(freshness := row.freshness) && row.freshness != ""
    ensures row.freshness == FRESH_CURRENT && outcome.Fetched? ==>
              number in store.snapshots && store.snapshots[number].headSHA == row.headSHA
              && store.snapshots[number].baseSHA == row.baseSHA && store.snapshots[number].freshness == FRESH_CURRENT
    ensures row == RowAfter(old(store.snapshots), listed, outcome)
    ensures Indexes(outcome) ==> row.freshness == FRESH_CURRENT
    ensures var indexed := SnapshotsAfter(old(store.snapshots), outcome);
            store.snapshots == if outcome.Fetched? && number in indexed
                               then indexed[number := indexed[number].(freshness := row.freshness)] else indexed
  {
    CurrentAfter(store.snapshots, listed, outcome);
    match outcome {
      case SyncFailed =>
        TrimSpaceFixed(listed.freshness);
        row := listed;
        if TrimSpace(listed.freshness) == "" {
          row := row.(freshness := FRESH_FAILED);
        }
      case Fetched(pull, indexed) =>
        if indexed.Some? {
          store.snapshots := store.snapshots[number := indexed.value];
        }
        row := InventoryFromPull(pull);
        TrimSpaceFixed(pull.headSHA);
        TrimSpaceFixed(pull.baseSHA);
        RowComparesWithFetched(pull, store.snapshots);
        var freshness := ReconcileInventoryFreshness(store, number, row);
        row := row.(freshness := freshness);
    }
  }

  /** Trimming what was fetched first does not change the comparison. */
  lemma RowComparesWithFetched(pull: Pull, snapshots: map<int, Snapshot>)
    ensures var row := InventoryFromPull(pull);
            PlanRow(pull, snapshots).row
            == row.(freshness := DesiredFreshness(SnapshotOf(snapshots, pull.number), row.headSHA, row.baseSHA, row.baseRef))
  {
    TrimSpaceFixed(pull.headSHA);
    TrimSpaceFixed(pull.baseSHA);
    TrimSpaceFixed(pull.baseRef);
    TrimSpaceFixed(TrimSpace(pull.headSHA));
    TrimSpaceFixed(TrimSpace(pull.baseSHA));
    TrimSpaceFixed(TrimSpace(pull.baseRef));
  }

  /** reconcileInventoryFreshness */
  method ReconcileInventoryFreshness(store: Store, number: int, row: Row) returns (freshness: string)
    requires AllTrimmed(store.View())
    requires Trimmed(row.headSHA) && Trimmed(row.baseSHA)
    modifies store`snapshots
    ensures AllTrimmed(store.View())
    ensures Trimmed(freshness) && freshness != ""
    ensures number !in old(store.snapshots) ==> freshness == FRESH_FAILED && store.snapshots == old(store.snapshots)
    ensures number in old(store.snapshots) ==>
              freshness == DesiredFreshness(Some(old(store.snapshots)[number]), row.headSHA, row.baseSHA, row.baseRef)
              && store.snapshots == old(store.snapshots)[number := old(store.snapshots)[number].(freshness := freshness)]
    ensures freshness == FRESH_CURRENT ==>
              number in store.snapshots && store.snapshots[number].headSHA == row.headSHA
              && store.snapshots[number].baseSHA == row.baseSHA && store.snapshots[number].freshness == FRESH_CURRENT
  {
    if number !in store.snapshots {
      return FRESH_FAILED;
    }
    TrimSpaceFixed(row.headSHA);
    TrimSpaceFixed(row.baseSHA);
    var snapshot := store.snapshots[number];
    DesiredFreshnessShape(Some(snapshot), row.headSHA, row.baseSHA, row.baseRef);
    freshness := DesiredFreshness(Some(snapshot), row.headSHA, row.baseSHA, row.baseRef);
    if snapshot.freshness != freshness {
      store.snapshots := store.snapshots[number := snapshot.(freshness := freshness)];
    }
  }

  /** What a backfill pass leaves alone. */
  ghost predicate OutsideUnchanged(before: Db, after: Db) {
    && after.sync.generationCurrent == before.sync.generationCurrent
    && after.sync.dirtySince == before.sync.dirtySince
    && after.sync.total == before.sync.total
    && forall g :: g != before.sync.generationCurrent ==> GenerationRows(after.rows, g) == GenerationRows(before.rows, g)
  }

  /** The time a row gets from an attempt. */
  function AttemptTime(listed: Row, outcome: Outcome): int {
    if outcome.Fetched? then outcome.pull.updatedAt else listed.updatedAt
  }

  /** One candidate: sync it, then advance. */
  method AttemptCandidate(store: Store, number: int, listed: Row, outcome: Outcome) returns (row: Row)
    requires TablesInv(store.View()) && number in CurrentRows(store.View())
    requires OutcomeFor(number, outcome) && Trimmed(listed.freshness)
    modifies store
    ensures TablesInv(store.View()) && OutsideUnchanged(old(store.View()), store.View())
    ensures CurrentRows(store.View()) == CurrentRows(old(store.View()))[number := row]
    ensures row == RowAfter(old(store.snapshots), listed, outcome)
    ensures row.updatedAt == AttemptTime(listed, outcome) && (Indexes(outcome) ==> row.freshness == FRESH_CURRENT)
  {
    row := ProcessBackfillCandidate(store, number, listed, outcome);
    AdvanceExact(store.View(), number, row);
    var found := store.AdvanceBackfillProgress(store.sync.backfillGeneration, number, row);
  }

  /** How many of the first attempts fetched their pull request. */
  function FetchedAmong(list: seq<int>, k: nat, outcome: int -> Outcome): nat
    requires k <= |list|
  {
    if k == 0 then 0 else FetchedAmong(list, k - 1, outcome) + if outcome(list[k - 1]).Fetched? then 1 else 0
  }

  ghost function FetchedIn(list: seq<int>, k: nat, outcome: int -> Outcome): set<int>
    requires k <= |list|
  {
    set i | 0 <= i < k && outcome(list[i]).Fetched?
  }

  lemma {:induction false} FetchedAmongCounts(list: seq<int>, k: nat, outcome: int -> Outcome)
    requires k <= |list|
    ensures FetchedAmong(list, k, outcome) == |FetchedIn(list, k, outcome)|
  {
    if k == 0 {
      assert FetchedIn(list, 0, outcome) == {};
    } else {
      FetchedAmongCounts(list, k - 1, outcome);
      assert FetchedIn(list, k, outcome) == FetchedIn(list, k - 1, outcome) + if outcome(list[k - 1]).Fetched? then {k - 1} else {};
    }
  }

  function Tallied(result: PassResult, outcome: Outcome): PassResult {
    match outcome
    case SyncFailed => result.(processed := result.processed + 1, failed := result.failed + 1)
    case Fetched(_, _) => result.(processed := result.processed + 1, indexed := result.indexed + 1)
  }

  /** What a result says of the attempts so far. */
  predicate Tells(result: PassResult, list: seq<int>, k: nat, outcome: int -> Outcome)
    requires k <= |list|
  {
    && result.processed == k && result.indexed == FetchedAmong(list, k, outcome) && result.failed == k - result.indexed
    && !result.completed
  }

  lemma TellsOneMore(result: PassResult, list: seq<int>, k: nat, outcome: int -> Outcome)
    requires k < |list| && Tells(result, list, k, outcome)
    ensures Tells(Tallied(result, outcome(list[k])), list, k + 1, outcome)
  {
  }

  lemma RowsAfterAppend(m: map<int, Row>, list: seq<int>, written: Written, row: Row)
    requires |written| < |list|
    ensures RowsAfter(m, list, written + [row]) == RowsAfter(m, list, written)[list[|written|] := row]
  {
    assert (written + [row])[..|written|] == written;
  }

  /** Every row written has the time its attempt gave it, and is current if the attempt indexed it. */
  ghost predicate Timed(m: map<int, Row>, list: seq<int>, written: Written, outcome: int -> Outcome) {
    && |written| <= |list|
    && forall k :: 0 <= k < |written| ==>
         && list[k] in m && written[k].updatedAt == AttemptTime(m[list[k]], outcome(list[k]))
         && (Indexes(outcome(list[k])) ==> written[k].freshness == FRESH_CURRENT)
  }

  lemma TimedOneMore(m: map<int, Row>, list: seq<int>, written: Written, outcome: int -> Outcome, row: Row)
    requires Timed(m, list, written, outcome) && |written| < |list| && list[|written|] in m
    requires row.updatedAt == AttemptTime(m[list[|written|]], outcome(list[|written|]))
    requires Indexes(outcome(list[|written|])) ==> row.freshness == FRESH_CURRENT
    ensures Timed(m, list, written + [row], outcome)
  {
  }

  /** The store after the attempts so far. */
  ghost predicate Attempted(start: Db, now: Db, m: map<int, Row>, list: seq<int>, written: Written, outcome: int -> Outcome) {
    && TablesInv(now) && OutsideUnchanged(start, now)
    && Timed(m, list, written, outcome) && CurrentRows(now) == RowsAfter(m, list, written)
  }

  lemma AttemptedOneMore(start: Db, before: Db, now: Db, m: map<int, Row>, list: seq<int>, written: Written, outcome: int -> Outcome, row: Row)
    requires |written| < |list| && list[|written|] in m && Attempted(start, before, m, list, written, outcome)
    requires TablesInv(now) && OutsideUnchanged(before, now) && CurrentRows(now) == CurrentRows(before)[list[|written|] := row]
    requires row.updatedAt == AttemptTime(m[list[|written|]], outcome(list[|written|]))
    requires Indexes(outcome(list[|written|])) ==> row.freshness == FRESH_CURRENT
    ensures Attempted(start, now, m, list, written + [row], outcome)
  {
    RowsAfterAppend(m, list, written, row);
    TimedOneMore(m, list, written, outcome, row);
  }

  predicate AreRows(m: map<int, Row>, list: seq<int>) {
    forall i :: 0 <= i < |list| ==> list[i] in m && Trimmed(m[list[i]].freshness)
  }

  lemma NothingAttempted(db: Db, list: seq<int>, outcome: int -> Outcome)
    requires TablesInv(db)
    ensures Attempted(db, db, CurrentRows(db), list, [], outcome)
  {
  }

  lemma ListedRowsAreTrimmed(db: Db, list: seq<int>)
    requires TablesInv(db) && forall i :: 0 <= i < |list| ==> list[i] in CurrentRows(db)
    ensures AreRows(CurrentRows(db), list)
  {
    var m := CurrentRows(db);
    if db.sync.generationCurrent in db.rows {
      assert TrimmedRows(db.rows[db.sync.generationCurrent]);
    }
    assert TrimmedRows(m);
    forall i | 0 <= i < |list| ensures Trimmed(m[list[i]].freshness) {
      var n := list[i];
      assert n in m;
    }
  }

  predicate LastIs(last: Option<Cursor>, list: seq<int>, written: Written) {
    |written| <= |list| && last == LastCursor(None, list, written)
  }

  lemma LastIsRow(list: seq<int>, written: Written, row: Row)
    requires |written| < |list|
    ensures LastIs(Some(Cursor(row.updatedAt, list[|written|])), list, written + [row])
  {
  }

  /** One turn of the loop of processBackfillCandidates. */
  method AttemptNext(store: Store, ghost start: Db, m: map<int, Row>, list: seq<int>, i: nat, ghost written: Written, outcome: int -> Outcome)
      returns (row: Row)
    requires i == |written| < |list| && Attempted(start, store.View(), m, list, written, outcome)
    requires AreRows(m, list) && OutcomeFor(list[i], outcome(list[i]))
    modifies store
    ensures Attempted(start, store.View(), m, list, written + [row], outcome)
  {
    RowsAfterElsewhere(m, list, written);
    ghost var before := store.View();
    row := AttemptCandidate(store, list[i], m[list[i]], outcome(list[i]));
    AttemptedOneMore(start, before, store.View(), m, list, written, outcome, row);
  }

  /** processBackfillCandidates: attempts the listing from its head until it is exhausted, maxPRs
      are processed, or the deadline has passed. */
  method ProcessBackfillCandidates(store: Store, limit: int, allowed: nat, list: seq<int>, outcome: int -> Outcome)
      returns (last: Option<Cursor>, result: PassResult, ghost written: Written)
    requires TablesInv(store.View()) && |list| <= limit
    requires forall i :: 0 <= i < |list| ==> list[i] in CurrentRows(store.View())
    requires forall n :: OutcomeFor(n, outcome(n))
    modifies store
    ensures |written| == Min(|list|, allowed)
    ensures Attempted(old(store.View()), store.View(), CurrentRows(old(store.View())), list, written, outcome)
    ensures last == LastCursor(None, list, written)
    ensures result.processed == result.indexed + result.failed == |written| && !result.completed
    ensures result.indexed == FetchedAmong(list, |written|, outcome)
  {
    var generation := store.sync.generationCurrent;
    var m := if generation in store.rows then store.rows[generation] else map[];
    ghost var start := store.View();
    assert m == CurrentRows(start);
    ListedRowsAreTrimmed(start, list);
    NothingAttempted(start, list, outcome);
    written, last, result := [], None, PassResult(0, 0, 0, false);
    var i := 0;
    while i < |list| && result.processed < limit && i < allowed
      invariant 0 <= i <= |list| && i <= allowed && i == |written|
      invariant Tells(result, list, i, outcome)
      invariant Attempted(start, store.View(), m, list, written, outcome)
      invariant LastIs(last, list, written)
    {
      var row := AttemptNext(store, start, m, list, i, written, outcome);
      TellsOneMore(result, list, i, outcome);
      result := Tallied(result, outcome(list[i]));
      LastIsRow(list, written, row);
      written := written + [row];
      last := Some(Cursor(row.updatedAt, list[i]));
      i := i + 1;
    }
  }

  lemma NothingListed(m: map<int, Row>, cursor: Option<Cursor>, limit: int)
    requires m == map[]
    ensures Listing(m, cursor, limit) == []
  {
    ListingIsHead(m, cursor, limit);
  }

  /** runBackfillPass with no other lane interleaved. maxPRs limits the pass, allowed is how many
      candidates start before its deadline, and outcome is what each sync returns. The counters stay
      exact, the cursor and the rows move as Sweep says, and nothing else of the tables changes. */
  method RunBackfillPass(store: Store, maxPRs: int, allowed: nat, outcome: int -> Outcome)
      returns (result: PassResult, ghost list: seq<int>, ghost written: Written)
    requires TablesInv(store.View())
    requires forall n :: OutcomeFor(n, outcome(n))
    modifies store
    ensures TablesInv(store.View()) && OutsideUnchanged(old(store.View()), store.View())
    ensures list == Listing(CurrentRows(old(store.View())), old(store.sync.cursor), Limit(maxPRs))
    ensures |written| == Min(|list|, allowed)
    ensures CurrentRows(store.View()) == RowsAfter(CurrentRows(old(store.View())), list, written)
    ensures store.sync.cursor == CursorAfter(CurrentRows(old(store.View())), list, written)
    ensures Timed(CurrentRows(old(store.View())), list, written, outcome)
    ensures result.processed == result.indexed + result.failed == |written|
    ensures result.indexed == |FetchedIn(list, |written|, outcome)|
    ensures |list| == Min(|Candidates(CurrentRows(old(store.View())), old(store.sync.cursor))|, if maxPRs <= 0 then 25 else maxPRs)
    ensures result.completed ==> store.sync.cursor == None
  {
    var generation := store.sync.backfillGeneration;
    if generation <= 0 {
      NothingListed(CurrentRows(store.View()), store.sync.cursor, Limit(maxPRs));
      ListingIsHead(CurrentRows(store.View()), store.sync.cursor, Limit(maxPRs));
      list, written, result := [], [], PassResult(0, 0, 0, false);
      store.sync := store.sync.(cursor := None);
      return;
    }
    var m := if generation in store.rows then store.rows[generation] else map[];
    var candidates := Listing(m, store.sync.cursor, Limit(maxPRs));
    list := candidates;
    ListingIsHead(m, store.sync.cursor, Limit(maxPRs));
    var last;
    last, result, written := ProcessBackfillCandidates(store, Limit(maxPRs), allowed, candidates, outcome);
    FetchedAmongCounts(list, |written|, outcome);
    result, store.sync := FinalizeBackfillCursor(store, generation, last, result);
  }

  /** maxPRs after normalizeBackfillOptions */
  function Limit(maxPRs: int): int {
    if maxPRs <= 0 then 25 else maxPRs
  }

  /** finalizeBackfillCursor, and the cursor columns runBackfillPass writes from its result. */
  method FinalizeBackfillCursor(store: Store, generation: int, last: Option<Cursor>, result: PassResult)
      returns (final: PassResult, sync: SyncState)
    ensures sync == store.sync.(cursor := if last.Some? && Candidates(GenerationRows(store.rows, generation), last) != {} then last else None)
    ensures final == result.(completed := Candidates(GenerationRows(store.rows, generation), last) == {})
  {
    var m := if generation in store.rows then store.rows[generation] else map[];
    var more := Candidates(m, last) != {};
    final := result.(completed := !more);
    sync := store.sync.(cursor := if more then last else None);
  }

  /** A pass that attempts at least one candidate if there is any fits the sweep; against an upstream
      that stands still and is not behind, it is monotone and writes what upstream has. */
  lemma PassInSweep(s: SweepState, p: Pass, allowed: nat, outcome: int -> Outcome, upstream: map<int, int>)
    requires NotAhead(s.rows, upstream) && allowed >= 1
    requires |p.written| == Min(|ListingOf(s, p)|, allowed) && Timed(s.rows, ListingOf(s, p), p.written, outcome)
    requires forall n :: outcome(n).Fetched? && n in upstream ==> outcome(n).pull.updatedAt == upstream[n]
    ensures Monotone(s, p) && FromUpstream(s.rows, ListingOf(s, p), p.written, upstream)
  {
  }

  /** The sweep so far: passes from nil, each monotone and in step with upstream, to these rows and
      this cursor. */
  ghost predicate SweptTo(start: map<int, Row>, passes: seq<Pass>, upstream: map<int, int>, db: Db) {
    && ValidSweep(start, passes) && MonotoneSweep(start, passes) && FrozenSweep(start, passes, upstream)
    && SweepAt(start, passes).rows == CurrentRows(db) && SweepAt(start, passes).cursor == db.sync.cursor
  }

  lemma SweptOneMore(start: map<int, Row>, passes: seq<Pass>, upstream: map<int, int>, before: Db, p: Pass, after: Db)
    requires SweptTo(start, passes, upstream, before) && (passes != [] ==> before.sync.cursor.Some?)
    requires var s := SweepAt(start, passes);
             && Monotone(s, p) && FromUpstream(s.rows, ListingOf(s, p), p.written, upstream)
             && Next(s, p).rows == CurrentRows(after) && Next(s, p).cursor == after.sync.cursor
    ensures SweptTo(start, passes + [p], upstream, after)
    ensures Attempts(passes + [p]) == Attempts(passes) + |p.written|
  {
    assert (passes + [p])[..|passes|] == passes;
  }

  /** One pass of the store is one pass of the sweep, and unless it was the last it used up some of
      the attempts the sweep is allowed. */
  lemma PassOfSweep(start: map<int, Row>, passes: seq<Pass>, upstream: map<int, int>, before: Db, p: Pass, after: Db,
                    allowed: nat, outcome: int -> Outcome)
    requires NotAhead(start, upstream) && SweptTo(start, passes, upstream, before) && (passes != [] ==> before.sync.cursor.Some?)
    requires allowed >= 1 && forall n :: outcome(n).Fetched? && n in upstream ==> outcome(n).pull.updatedAt == upstream[n]
    requires var list := Listing(CurrentRows(before), before.sync.cursor, p.limit);
             && |p.written| == Min(|list|, allowed) && Timed(CurrentRows(before), list, p.written, outcome)
             && CurrentRows(after) == RowsAfter(CurrentRows(before), list, p.written)
             && after.sync.cursor == CursorAfter(CurrentRows(before), list, p.written)
    ensures SweptTo(start, passes + [p], upstream, after)
    ensures after.sync.cursor.Some? ==> Attempts(passes) < Attempts(passes + [p])
    ensures Attempts(passes + [p]) <= Rank(start, None, upstream)
  {
    SweepTerminates(start, passes, upstream);
    PassInSweep(SweepAt(start, passes), p, allowed, outcome, upstream);
    SweptOneMore(start, passes, upstream, before, p, after);
    SweepTerminates(start, passes + [p], upstream);
  }

  /** A sweep that has come to an end attempted everything, within the rank of its start. */
  lemma SweptAll(start: map<int, Row>, passes: seq<Pass>, upstream: map<int, int>, db: Db)
    requires NotAhead(start, upstream) && SweptTo(start, passes, upstream, db) && passes != [] && db.sync.cursor == None
    ensures forall n :: NonCurrent(start, n) ==> n in SweepAt(start, passes).attempted
    ensures |passes| <= Rank(start, None, upstream) + 1
  {
    MonotoneSweepIsGood(start, passes);
    SweepSkipsNothing(start, passes);
    SweepTerminates(start, passes, upstream);
  }

  // ----------------------------------------------------- what a sweep leaves current

  /** The pull requests that one pass indexed as fetched, and those that a sweep did. */
  ghost function IndexedIn(list: seq<int>, written: Written, outcome: int -> Outcome): set<int>
    requires |written| <= |list|
  {
    set k | 0 <= k < |written| && Indexes(outcome(list[k])) :: list[k]
  }

  ghost function IndexedBy(start: map<int, Row>, passes: seq<Pass>, outcome: (nat, int) -> Outcome): set<int>
    requires ValidSweep(start, passes)
    decreases |passes|
  {
    if passes == [] then {}
    else
      var init, p := passes[..|passes| - 1], passes[|passes| - 1];
      IndexedBy(start, init, outcome) + IndexedIn(ListingOf(SweepAt(start, init), p), p.written, n => outcome(|init|, n))
  }

  lemma {:induction false} WrittenIsKept(m: map<int, Row>, list: seq<int>, written: Written, k: nat)
    requires k < |written| <= |list| && forall i, j :: 0 <= i < j < |list| ==> list[i] != list[j]
    ensures list[k] in RowsAfter(m, list, written) && RowsAfter(m, list, written)[list[k]] == written[k]
  {
    var last := |written| - 1;
    if k < last {
      WrittenIsKept(m, list, written[..last], k);
      assert list[k] != list[last];
    }
  }

  /** A row that is not current after a pass was not indexed by it, and was not current before or was
      attempted. */
  lemma NotCurrentAfterPass(s: SweepState, p: Pass, outcome: int -> Outcome, n: int)
    requires Fits(s, p) && Timed(s.rows, ListingOf(s, p), p.written, outcome) && NonCurrent(Next(s, p).rows, n)
    ensures n !in IndexedIn(ListingOf(s, p), p.written, outcome)
    ensures n !in Next(s, p).attempted ==> NonCurrent(s.rows, n)
    ensures n !in Heads(ListingOf(s, p), |p.written|) ==> NonCurrent(s.rows, n)
  {
    var list := ListingOf(s, p);
    ListingIsHead(s.rows, s.cursor, p.limit);
    RowsAfterElsewhere(s.rows, list, p.written);
    if k :| 0 <= k < |p.written| && list[k] == n {
      WrittenIsKept(s.rows, list, p.written, k);
    }
  }

  /** Every row not current any more was attempted or never current, and no attempt indexed it. */
  ghost predicate OnlyUnindexedLeft(start: map<int, Row>, s: SweepState, indexed: set<int>) {
    forall n | NonCurrent(s.rows, n) :: n !in indexed && (n in s.attempted || NonCurrent(start, n))
  }

  lemma PassLeavesUnindexed(start: map<int, Row>, passes: seq<Pass>, p: Pass, outcome: (nat, int) -> Outcome)
    requires ValidSweep(start, passes) && Fits(SweepAt(start, passes), p) && (passes != [] ==> SweepAt(start, passes).cursor.Some?)
    requires var s := SweepAt(start, passes); Timed(s.rows, ListingOf(s, p), p.written, n => outcome(|passes|, n))
    requires OnlyUnindexedLeft(start, SweepAt(start, passes), IndexedBy(start, passes, outcome))
    ensures ValidSweep(start, passes + [p])
    ensures OnlyUnindexedLeft(start, SweepAt(start, passes + [p]), IndexedBy(start, passes + [p], outcome))
  {
    var s := SweepAt(start, passes);
    assert (passes + [p])[..|passes|] == passes;
    ListingIsHead(s.rows, s.cursor, p.limit);
    forall n | NonCurrent(Next(s, p).rows, n)
      ensures n !in IndexedBy(start, passes + [p], outcome) && (n in Next(s, p).attempted || NonCurrent(start, n))
    {
      NotCurrentAfterPass(s, p, m => outcome(|passes|, m), n);
      if n in Heads(ListingOf(s, p), |p.written|) {
        var k :| 0 <= k < |p.written| && ListingOf(s, p)[k] == n;
        assert NonCurrent(s.rows, n);
      }
    }
  }

  /** Passes repeated until the cursor is back at nil, against an upstream that stands still. They are
      a sweep in the sense of the sweep lemmas: it terminates within the rank of its start, and every
      row that was not current at the start is among those it attempted. What it indexed is current at
      the end: a row that is not was attempted, and no attempt indexed it. */
  method RunSweep(store: Store, maxPRs: int, allowed: nat, outcome: (nat, int) -> Outcome, ghost upstream: map<int, int>)
      returns (ghost passes: seq<Pass>)
    requires TablesInv(store.View()) && store.sync.cursor == None && allowed >= 1
    requires NotAhead(CurrentRows(store.View()), upstream)
    requires forall p: nat, n :: OutcomeFor(n, outcome(p, n))
    requires forall p: nat, n :: outcome(p, n).Fetched? && n in upstream ==> outcome(p, n).pull.updatedAt == upstream[n]
    modifies store
    ensures TablesInv(store.View()) && store.sync.cursor == None
    ensures passes != [] && SweptTo(CurrentRows(old(store.View())), passes, upstream, store.View())
    ensures forall n :: NonCurrent(CurrentRows(old(store.View())), n) ==>
              n in SweepAt(CurrentRows(old(store.View())), passes).attempted
    ensures |passes| <= Rank(CurrentRows(old(store.View())), None, upstream) + 1
    ensures forall n :: NonCurrent(CurrentRows(store.View()), n) ==>
              && n in SweepAt(CurrentRows(old(store.View())), passes).attempted
              && n !in IndexedBy(CurrentRows(old(store.View())), passes, outcome)
  {
    ghost var start := CurrentRows(store.View());
    passes := [];
    var count := 0;
    var more := true;
    while more
      invariant TablesInv(store.View()) && count == |passes|
      invariant SweptTo(start, passes, upstream, store.View())
      invariant OnlyUnindexedLeft(start, SweepAt(start, passes), IndexedBy(start, passes, outcome))
      invariant more <==> passes == [] || store.sync.cursor.Some?
      decreases more, Rank(start, None, upstream) - Attempts(passes)
    {
      ghost var before := store.View();
      var p := count;
      var result, list, written := RunBackfillPass(store, maxPRs, allowed, n => outcome(p, n));
      ghost var pass := Pass(Limit(maxPRs), written);
      PassOfSweep(start, passes, upstream, before, pass, store.View(), allowed, n => outcome(p, n));
      PassLeavesUnindexed(start, passes, pass, outcome);
      passes := passes + [pass];
      count := count + 1;
      more := store.sync.cursor.Some?;
    }
    SweptAll(start, passes, upstream, store.View());
  }
}
