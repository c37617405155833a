/** The rows stored for one indexed pull request: file rows, hunk rows and the totals kept on the
    snapshot (internal/gitindex/service.go). */
module SnapshotRows {
  import opened Common
  import opened GitParse
  import opened SnapshotFiles

  const FAILED := "failed"

  datatype FileRow = FileRow(path: string, previousPath: string, status: string, fileKind: string, indexedAs: string,
                             additions: int, deletions: int, changes: int, patchText: string)

  datatype HunkRow = HunkRow(path: string, hunkIndex: int, hunk: Hunk)

  datatype Snapshot = Snapshot(headSHA: string, indexedAs: string, indexFreshness: string, pathCount: int,
                               indexedFileCount: int, hunkCount: int, additions: int, deletions: int, patchBytes: int)

  // -------------------------------------------------------------- sums over rows

  function FullFiles(rows: seq<FileRow>): nat {
    if rows == [] then 0 else FullFiles(rows[..|rows| - 1]) + if rows[|rows| - 1].indexedAs == FULL then 1 else 0
  }

  function SkippedFiles(rows: seq<FileRow>): nat {
    if rows == [] then 0 else SkippedFiles(rows[..|rows| - 1]) + if rows[|rows| - 1].indexedAs != FULL then 1 else 0
  }

  function SumAdditions(rows: seq<FileRow>): int {
    if rows == [] then 0 else SumAdditions(rows[..|rows| - 1]) + rows[|rows| - 1].additions
  }

  function SumDeletions(rows: seq<FileRow>): int {
    if rows == [] then 0 else SumDeletions(rows[..|rows| - 1]) + rows[|rows| - 1].deletions
  }

  function SumPatchBytes(rows: seq<FileRow>): int {
    if rows == [] then 0 else SumPatchBytes(rows[..|rows| - 1]) + |rows[|rows| - 1].patchText|
  }

  lemma SumsOfOneMore(rows: seq<FileRow>, row: FileRow)
    ensures FullFiles(rows + [row]) == FullFiles(rows) + if row.indexedAs == FULL then 1 else 0
    ensures SumAdditions(rows + [row]) == SumAdditions(rows) + row.additions
    ensures SumDeletions(rows + [row]) == SumDeletions(rows) + row.deletions
    ensures SumPatchBytes(rows + [row]) == SumPatchBytes(rows) + |row.patchText|
  {
    assert (rows + [row])[..|rows|] == rows;
  }

  lemma {:induction false} FullAndSkipped(rows: seq<FileRow>)
    ensures FullFiles(rows) + SkippedFiles(rows) == |rows|
  {
    if rows != [] {
      FullAndSkipped(rows[..|rows| - 1]);
    }
  }

  // ------------------------------------------------------------- rows of one file

  /** A file without a mode is taken as fully indexed. */
  function Moded(file: FileData): FileData {
    file.(indexedAs := if file.indexedAs == "" then FULL else file.indexedAs)
  }

  function FileRowOf(file: FileData): FileRow {
    FileRow(file.path, file.previousPath, file.status, file.fileKind, file.indexedAs,
            file.additions, file.deletions, file.changes, file.patchText)
  }

  function HunkRowsOf(file: FileData): (rows: seq<HunkRow>)
    ensures |rows| == if file.indexedAs == FULL then |file.hunks| else 0
    ensures forall i :: 0 <= i < |rows| ==> rows[i] == HunkRow(file.path, file.hunks[i].index, file.hunks[i])
  {
    if file.indexedAs == FULL then seq(|file.hunks|, i requires 0 <= i < |file.hunks| => HunkRow(file.path, file.hunks[i].index, file.hunks[i]))
    else []
  }

  /** pullRequestHunkRows */
  method PullRequestHunkRows(file: ParsedFile) returns (rows: seq<HunkRow>)
    requires file.indexedAs == FULL
    ensures rows == HunkRowsOf(file.View())
  {
    rows := [];
    for i := 0 to |file.hunks|
      invariant |rows| == i
      invariant forall j :: 0 <= j < i ==> rows[j] == HunkRow(file.path, file.hunks[j].index, file.hunks[j])
    {
      rows := rows + [HunkRow(file.path, file.hunks[i].index, file.hunks[i])];
    }
  }

  /** pullRequestFileRows sets a missing mode in place. */
  method PullRequestFileRows(file: ParsedFile) returns (row: FileRow, hunks: seq<HunkRow>, fullIndexed: bool)
    modifies file
    ensures file.View() == Moded(old(file.View()))
    ensures row == FileRowOf(file.View()) && hunks == HunkRowsOf(file.View())
    ensures fullIndexed <==> row.indexedAs == FULL
  {
    if file.indexedAs == "" {
      file.indexedAs := FULL;
    }
    row := FileRow(file.path, file.previousPath, file.status, file.fileKind, file.indexedAs,
                   file.additions, file.deletions, file.changes, file.patchText);
    if file.indexedAs != FULL {
      return row, [], false;
    }
    hunks := PullRequestHunkRows(file);
    fullIndexed := true;
  }

  // --------------------------------------------------------- rows of a pull request

  /** The rows and their totals, as pullRequestRows collects them. */
  datatype Emission = Emission(rows: seq<FileRow>, hunks: seq<HunkRow>, indexedFiles: int, hunkCount: int,
                               additions: int, deletions: int, patchBytes: int)

  function OneMore(e: Emission, file: FileData): Emission {
    Emission(e.rows + [FileRowOf(file)], e.hunks + HunkRowsOf(file),
             e.indexedFiles + if file.indexedAs == FULL then 1 else 0, e.hunkCount + |HunkRowsOf(file)|,
             e.additions + file.additions, e.deletions + file.deletions, e.patchBytes + |file.patchText|)
  }

  /** The rows and totals of these files taken in this order. */
  function EmissionOf(files: map<string, FileData>, order: seq<string>): Emission
    requires forall p :: p in order ==> p in files
  {
    if order == [] then Emission([], [], 0, 0, 0, 0, 0)
    else OneMore(EmissionOf(files, order[..|order| - 1]), Moded(files[order[|order| - 1]]))
  }

  lemma EmissionOfOneMore(files: map<string, FileData>, order: seq<string>, k: string)
    requires (forall p :: p in order ==> p in files) && k in files
    ensures EmissionOf(files, order + [k]) == OneMore(EmissionOf(files, order), Moded(files[k]))
  {
    assert (order + [k])[..|order|] == order;
  }

  predicate NoRepeats(order: seq<string>) {
    forall i, j :: 0 <= i < j < |order| ==> order[i] != order[j]
  }

  function Members(order: seq<string>): set<string> {
    set k | k in order
  }

  /** The keys of a map still to be visited and those visited already. */
  predicate Visiting(all: set<string>, keys: set<string>, order: seq<string>) {
    NoRepeats(order) && keys !! Members(order) && keys + Members(order) == all
  }

  lemma VisitOne(all: set<string>, keys: set<string>, order: seq<string>, k: string)
    requires Visiting(all, keys, order) && k in keys
    ensures Visiting(all, keys - {k}, order + [k])
  {
    assert Members(order + [k]) == Members(order) + {k};
  }

  lemma MembersOneLess(order: seq<string>)
    requires order != [] && NoRepeats(order)
    ensures var init, last := order[..|order| - 1], order[|order| - 1];
            NoRepeats(init) && last !in Members(init) && Members(order) == Members(init) + {last}
  {
    var init, last := order[..|order| - 1], order[|order| - 1];
    assert order == init + [last];
  }

  lemma {:induction false} MembersCount(order: seq<string>)
    requires NoRepeats(order)
    ensures |Members(order)| == |order|
  {
    if order != [] {
      MembersOneLess(order);
      MembersCount(order[..|order| - 1]);
    }
  }

  /** The files still to come are as they were, the others have their mode. */
  ghost predicate ModedBut(files: map<string, ParsedFile>, keys: set<string>, before: map<string, FileData>)
    requires before.Keys == files.Keys
    reads files.Values
  {
    forall k :: k in files ==> files[k].View() == if k in keys then before[k] else Moded(before[k])
  }

  /** The loop body of pullRequestRows for one file. */
  method EmitFile(e: Emission, file: ParsedFile) returns (more: Emission)
    modifies file
    ensures file.View() == Moded(old(file.View())) && more == OneMore(e, file.View())
  {
    var row, hunkSet, fullIndexed := PullRequestFileRows(file);
    more := e;
    if fullIndexed {
      more := more.(indexedFiles := more.indexedFiles + 1);
    }
    more := more.(hunkCount := more.hunkCount + |hunkSet|);
    more := more.(additions := more.additions + file.additions, deletions := more.deletions + file.deletions);
    more := more.(patchBytes := more.patchBytes + |file.patchText|);
    more := more.(rows := more.rows + [row], hunks := more.hunks + hunkSet);
  }

  method EmitKeyed(e: Emission, files: map<string, ParsedFile>, k: string, ghost keys: set<string>,
                   ghost before: map<string, FileData>) returns (more: Emission)
    requires Keyed(files) && k in files && k in keys && before.Keys == files.Keys && ModedBut(files, keys, before)
    modifies files[k]
    ensures ModedBut(files, keys - {k}, before) && more == OneMore(e, Moded(before[k]))
  {
    more := EmitFile(e, files[k]);
    forall j | j in files ensures files[j].View() == if j in keys - {k} then before[j] else Moded(before[j]) {
      assert j != k ==> files[j] != files[k];
    }
  }

  /** pullRequestRows: every file once, in whatever order, with the totals added up beside the rows. */
  method PullRequestRows(files: map<string, ParsedFile>) returns (e: Emission, ghost order: seq<string>)
    requires Keyed(files)
    modifies files.Values
    ensures ModedBut(files, {}, old(Views(files)))
    ensures NoRepeats(order) && Members(order) == files.Keys && e == EmissionOf(old(Views(files)), order)
  {
    ghost var before := Views(files);
    e, order := Emission([], [], 0, 0, 0, 0, 0), [];
    var keys := files.Keys;
    while keys != {}
      invariant Visiting(files.Keys, keys, order) && ModedBut(files, keys, before)
      invariant e == EmissionOf(before, order)
      decreases keys
    {
      var k :| k in keys;
      EmissionOfOneMore(before, order, k);
      VisitOne(files.Keys, keys, order, k);
      e := EmitKeyed(e, files, k, keys, before);
      keys, order := keys - {k}, order + [k];
    }
    assert Members(order) == files.Keys;
  }

  // ------------------------------------------------------------------ conservation

  predicate DistinctPaths(rows: seq<FileRow>) {
    forall i, j :: 0 <= i < j < |rows| ==> rows[i].path != rows[j].path
  }

  predicate DistinctHunks(hunks: seq<HunkRow>) {
    forall i, j :: 0 <= i < j < |hunks| ==> hunks[i].path != hunks[j].path || hunks[i].hunkIndex != hunks[j].hunkIndex
  }

  /** Every hunk belongs to a fully indexed file. */
  predicate HunksOfFullFiles(rows: seq<FileRow>, hunks: seq<HunkRow>) {
    forall i :: 0 <= i < |hunks| ==> PathIsFull(rows, hunks[i].path)
  }

  predicate PathIsFull(rows: seq<FileRow>, path: string) {
    exists j :: 0 <= j < |rows| && rows[j].path == path && rows[j].indexedAs == FULL
  }

  /** The totals of a snapshot are those of its rows. */
  predicate Conserved(s: Snapshot, rows: seq<FileRow>, hunks: seq<HunkRow>) {
    && s.pathCount == |rows| && s.indexedFileCount == FullFiles(rows) && s.hunkCount == |hunks|
    && s.additions == SumAdditions(rows) && s.deletions == SumDeletions(rows) && s.patchBytes == SumPatchBytes(rows)
    && DistinctPaths(rows) && DistinctHunks(hunks) && HunksOfFullFiles(rows, hunks)
  }

  lemma OwnHunksSound(file: FileData)
    requires Numbered(file.hunks)
    ensures DistinctHunks(HunkRowsOf(Moded(file)))
  {
  }

  lemma JoinHunks(rows: seq<FileRow>, earlier: seq<HunkRow>, own: seq<HunkRow>, last: FileRow)
    requires rows != [] && rows[|rows| - 1] == last
    requires DistinctHunks(earlier) && DistinctHunks(own) && HunksOfFullFiles(rows, earlier)
    requires forall i :: 0 <= i < |earlier| ==> earlier[i].path != last.path
    requires own != [] ==> last.indexedAs == FULL
    requires forall i :: 0 <= i < |own| ==> own[i].path == last.path
    ensures DistinctHunks(earlier + own) && HunksOfFullFiles(rows, earlier + own)
  {
    var all := earlier + own;
    forall i | 0 <= i < |all| ensures PathIsFull(rows, all[i].path) {
      if i >= |earlier| {
        assert own != [];
        assert all[i] == own[i - |earlier|] && rows[|rows| - 1].path == all[i].path;
      } else {
        assert all[i] == earlier[i];
      }
    }
  }

  /** The counted totals are the sums over the emitted rows. */
  lemma {:induction false} EmissionTotals(files: map<string, FileData>, order: seq<string>)
    requires forall p :: p in order ==> p in files
    ensures var e := EmissionOf(files, order);
            && e.indexedFiles == FullFiles(e.rows) && e.hunkCount == |e.hunks| && e.additions == SumAdditions(e.rows)
            && e.deletions == SumDeletions(e.rows) && e.patchBytes == SumPatchBytes(e.rows)
  {
    if order != [] {
      var init := order[..|order| - 1];
      EmissionTotals(files, init);
      SumsOfOneMore(EmissionOf(files, init).rows, FileRowOf(Moded(files[order[|order| - 1]])));
    }
  }

  /** One row for each file, saying what the file says. */
  function RowsIn(files: map<string, FileData>, order: seq<string>): (rows: seq<FileRow>)
    requires forall p :: p in order ==> p in files
    ensures |rows| == |order|
    ensures forall i :: 0 <= i < |rows| ==> rows[i] == FileRowOf(Moded(files[order[i]]))
  {
    seq(|order|, i requires 0 <= i < |order| => FileRowOf(Moded(files[order[i]])))
  }

  lemma EmittedRow(files: map<string, FileData>, order: seq<string>, k: string)
    requires (forall p :: p in order ==> p in files) && k in files && EmissionOf(files, order).rows == RowsIn(files, order)
    ensures EmissionOf(files, order + [k]).rows == RowsIn(files, order + [k])
  {
    EmissionOfOneMore(files, order, k);
    RowsInOneMore(files, order, k);
  }

  lemma {:induction false} EmissionRows(files: map<string, FileData>, order: seq<string>)
    requires forall p :: p in order ==> p in files
    ensures EmissionOf(files, order).rows == RowsIn(files, order)
  {
    if order != [] {
      var init, last := order[..|order| - 1], order[|order| - 1];
      assert order == init + [last];
      EmissionRows(files, init);
      EmittedRow(files, init, last);
    }
  }

  lemma RowsInOneMore(files: map<string, FileData>, order: seq<string>, k: string)
    requires (forall p :: p in order ==> p in files) && k in files
    ensures RowsIn(files, order + [k]) == RowsIn(files, order) + [FileRowOf(Moded(files[k]))]
  {
  }

  /** Each hunk row comes from a file that is fully indexed, and no path and index occur twice. */
  lemma {:induction false} EmissionHunks(files: map<string, FileData>, order: seq<string>)
    requires NoRepeats(order) && forall p :: p in order ==> p in files && files[p].path == p && Numbered(files[p].hunks)
    ensures var e := EmissionOf(files, order);
            HunksOfFullFiles(e.rows, e.hunks) && DistinctHunks(e.hunks) && forall i :: 0 <= i < |e.hunks| ==> e.hunks[i].path in order
  {
    if order != [] {
      var init, last := order[..|order| - 1], order[|order| - 1];
      EmissionHunks(files, init);
      var e, file := EmissionOf(files, init), Moded(files[last]);
      var rows := e.rows + [FileRowOf(file)];
      forall i | 0 <= i < |e.hunks| ensures PathIsFull(rows, e.hunks[i].path) && e.hunks[i].path != last {
        assert PathIsFull(e.rows, e.hunks[i].path);
        var j :| 0 <= j < |e.rows| && e.rows[j].path == e.hunks[i].path && e.rows[j].indexedAs == FULL;
        assert rows[j] == e.rows[j];
      }
      OwnHunksSound(files[last]);
      JoinHunks(rows, e.hunks, HunkRowsOf(file), FileRowOf(file));
    }
  }

  /** A snapshot that takes its totals from the loop agrees with the rows. */
  lemma EmissionConserved(files: map<string, FileData>, order: seq<string>, s: Snapshot)
    requires NoRepeats(order) && forall p :: p in order ==> p in files && files[p].path == p && Numbered(files[p].hunks)
    requires var e := EmissionOf(files, order);
             && s.pathCount == |order| && s.indexedFileCount == e.indexedFiles && s.hunkCount == e.hunkCount
             && s.additions == e.additions && s.deletions == e.deletions && s.patchBytes == e.patchBytes
    ensures Conserved(s, EmissionOf(files, order).rows, EmissionOf(files, order).hunks)
  {
    EmissionTotals(files, order);
    EmissionRows(files, order);
    EmissionHunks(files, order);
  }

  /** buildPullRequestSnapshotRows */
  method BuildPullRequestSnapshotRows(files: map<string, ParsedFile>, headSHA: string, indexedAs: string)
      returns (rows: seq<FileRow>, hunks: seq<HunkRow>, snapshot: Snapshot, ghost order: seq<string>)
    requires Keyed(files) && forall k :: k in files ==> Numbered(files[k].hunks)
    modifies files.Values
    ensures NoRepeats(order) && Members(order) == files.Keys
    ensures rows == EmissionOf(old(Views(files)), order).rows && hunks == EmissionOf(old(Views(files)), order).hunks
    ensures Conserved(snapshot, rows, hunks)
    ensures snapshot.headSHA == headSHA && snapshot.indexFreshness == "current" && snapshot.pathCount == |files|
    ensures snapshot.indexedAs == if indexedAs == FULL && hunks == [] && |files| > 0 then PATH_ONLY else indexedAs
  {
    ghost var before := Views(files);
    var e;
    e, order := PullRequestRows(files);
    rows, hunks := e.rows, e.hunks;
    MembersCount(order);
    snapshot := Snapshot(headSHA, indexedAs, "current", |files|, e.indexedFiles, e.hunkCount, e.additions, e.deletions, e.patchBytes);
    if indexedAs == FULL && e.hunkCount == 0 && |files| > 0 {
      snapshot := snapshot.(indexedAs := PATH_ONLY);
    }
    EmissionConserved(before, order, snapshot);
  }

  // -------------------------------------------------------------------- the store

  class SnapshotStore {
    var snapshots: map<int, Snapshot>
    var files: map<int, seq<FileRow>>
    var hunks: map<int, seq<HunkRow>>

    /** Every snapshot agrees with its rows. */
    ghost predicate Valid()
      reads this
    {
      && snapshots.Keys <= files.Keys && snapshots.Keys <= hunks.Keys
      && forall n :: n in snapshots ==> Conserved(snapshots[n], files[n], hunks[n])
    }

    constructor ()
      ensures Valid() && snapshots == map[] && files == map[] && hunks == map[]
    {
      snapshots, files, hunks := map[], map[], map[];
    }

    /** writePullRequestIndex: the snapshot is overwritten, its rows are deleted and written anew. */
    method WritePullRequestIndex(number: int, snapshot: Snapshot, fileRows: seq<FileRow>, hunkRows: seq<HunkRow>)
      requires Valid() && Conserved(snapshot, fileRows, hunkRows)
      modifies this
      ensures Valid()
      ensures snapshots == old(snapshots)[number := snapshot]
      ensures files == old(files)[number := fileRows] && hunks == old(hunks)[number := hunkRows]
    {
      snapshots := snapshots[number := snapshot];
      hunks := hunks[number := []];
      files := files[number := []];
      files := files[number := fileRows];
      hunks := hunks[number := hunkRows];
    }

    /** markSnapshotFailed: all counts go to zero and no row is left. */
    method MarkSnapshotFailed(number: int, headSHA: string)
      requires Valid()
      modifies this
      ensures Valid()
      ensures snapshots == old(snapshots)[number := Snapshot(headSHA, FAILED, FAILED, 0, 0, 0, 0, 0, 0)]
      ensures files == old(files)[number := []] && hunks == old(hunks)[number := []]
    {
      snapshots := snapshots[number := Snapshot(headSHA, FAILED, FAILED, 0, 0, 0, 0, 0, 0)];
      hunks := hunks[number := []];
      files := files[number := []];
    }

    /** The freshness lanes write index_freshness and nothing else. */
    method SetFreshness(number: int, freshness: string)
      requires Valid()
      modifies this
      ensures Valid() && files == old(files) && hunks == old(hunks)
      ensures snapshots == if number in old(snapshots)
                           then old(snapshots)[number := old(snapshots)[number].(indexFreshness := freshness)] else old(snapshots)
    {
      if number in snapshots {
        snapshots := snapshots[number := snapshots[number].(indexFreshness := freshness)];
      }
    }

    /** countSkippedSnapshotFiles */
    method CountSkippedSnapshotFiles(number: int) returns (skipped: int)
      requires number in files
      ensures skipped == SkippedFiles(files[number])
    {
      var rows := files[number];
      skipped := 0;
      for k := 0 to |rows|
        invariant skipped == SkippedFiles(rows[..k])
      {
        assert rows[..k + 1][..k] == rows[..k];
        if rows[k].indexedAs != FULL {
          skipped := skipped + 1;
        }
      }
      assert rows[..|rows|] == rows;
    }

    /** The two counts that a status reports about files without detail: one derived from the
        snapshot's totals, the other asked of the rows. They agree. */
    method PathOnlyAndSkipped(number: int) returns (pathOnly: int, skipped: int)
      requires Valid() && number in snapshots
      ensures pathOnly == skipped == SkippedFiles(files[number])
    {
      var snapshot := snapshots[number];
      pathOnly := Max(0, snapshot.pathCount - snapshot.indexedFileCount);
      skipped := CountSkippedSnapshotFiles(number);
      FullAndSkipped(files[number]);
    }
  }

  // ------------------------------------------------- from the diff to the snapshot

  /** The two counts of lines that every record carries. */
  datatype Side = Additions | Deletions

  function LinesOf(side: Side, additions: int, deletions: int): int {
    if side == Additions then additions else deletions
  }

  ghost function FileLines(files: map<string, FileData>, side: Side): map<string, int> {
    map k | k in files :: LinesOf(side, files[k].additions, files[k].deletions)
  }

  function SumStats(stats: seq<NumstatRecord>, side: Side): int {
    if stats == [] then 0
    else
      var last := stats[|stats| - 1];
      SumStats(stats[..|stats| - 1], side) + LinesOf(side, last.additions, last.deletions)
  }

  /** The changed lines that decide whether a diff is oversized are those added and those removed. */
  lemma {:induction false} ChangedAreAddedAndRemoved(files: map<string, FileData>)
    ensures MapSum(ChangedLines(files)) == MapSum(FileLines(files, Additions)) + MapSum(FileLines(files, Deletions))
    decreases files.Keys
  {
    if files.Keys != {} {
      var k := Any(files.Keys);
      MapSumTakesAny(ChangedLines(files), k);
      MapSumTakesAny(FileLines(files, Additions), k);
      MapSumTakesAny(FileLines(files, Deletions), k);
      assert ChangedLines(files) - {k} == ChangedLines(files - {k});
      assert FileLines(files, Additions) - {k} == FileLines(files - {k}, Additions);
      assert FileLines(files, Deletions) - {k} == FileLines(files - {k}, Deletions);
      ChangedAreAddedAndRemoved(files - {k});
    }
  }

  lemma FileLinesSet(files: map<string, FileData>, k: string, file: FileData, side: Side)
    ensures FileLines(files[k := file], side) == FileLines(files, side)[k := LinesOf(side, file.additions, file.deletions)]
  {
  }

  /** The order of the rows does not matter to their sum. */
  lemma {:induction false} RowsSumToMap(files: map<string, FileData>, order: seq<string>, side: Side)
    requires NoRepeats(order) && Members(order) <= files.Keys
    ensures LinesOf(side, EmissionOf(files, order).additions, EmissionOf(files, order).deletions)
            == MapSum(Part(FileLines(files, side), Members(order)))
  {
    if order == [] {
      assert Part(FileLines(files, side), Members(order)).Keys == {};
    } else {
      var init, last := order[..|order| - 1], order[|order| - 1];
      MembersOneLess(order);
      RowsSumToMap(files, init, side);
      PartWithout(FileLines(files, side), Members(order), last);
      assert Members(order) - {last} == Members(init);
    }
  }

  lemma {:induction false} NothingCountedYet(raws: seq<RawRecord>)
    ensures forall k :: k in Listed(raws) ==> Listed(raws)[k].additions == 0 && Listed(raws)[k].deletions == 0
  {
    if raws != [] {
      NothingCountedYet(raws[..|raws| - 1]);
    }
  }

  lemma {:induction false} ZeroSum(m: map<string, int>)
    requires forall k :: k in m ==> m[k] == 0
    ensures MapSum(m) == 0
    decreases m.Keys
  {
    if m.Keys != {} {
      ZeroSum(m - {Any(m.Keys)});
    }
  }

  predicate DistinctStats(stats: seq<NumstatRecord>) {
    forall i, j :: 0 <= i < j < |stats| ==> stats[i].path != stats[j].path
  }

  lemma MapSumSet(m: map<string, int>, k: string, v: int)
    ensures MapSum(m[k := v]) == MapSum(m) + v - if k in m then m[k] else 0
  {
    MapSumTakesAny(m[k := v], k);
    assert m[k := v] - {k} == m - {k};
    if k in m {
      MapSumTakesAny(m, k);
    } else {
      assert m - {k} == m;
    }
  }

  /** If numstat names no path twice, the merged files count the lines it lists, added and removed. */
  lemma {:induction false} MergedLines(raws: seq<RawRecord>, stats: seq<NumstatRecord>, side: Side)
    requires DistinctStats(stats)
    ensures MapSum(FileLines(Measured(Listed(raws), stats), side)) == SumStats(stats, side)
  {
    if stats == [] {
      NothingCountedYet(raws);
      ZeroSum(FileLines(Listed(raws), side));
    } else {
      var init, stat := stats[..|stats| - 1], stats[|stats| - 1];
      MergedLines(raws, init, side);
      var before := Measured(Listed(raws), init);
      MergeReadsBothLists(raws, init, stat.path);
      NoEarlierStat(init, stat.path);
      MapSumSet(FileLines(before, side), stat.path, LinesOf(side, stat.additions, stat.deletions));
      FileLinesSet(before, stat.path, Measured(Listed(raws), stats)[stat.path], side);
    }
  }

  lemma {:induction false} NoEarlierStat(stats: seq<NumstatRecord>, path: string)
    requires forall i :: 0 <= i < |stats| ==> stats[i].path != path
    ensures LastStat(stats, path) == None
  {
    if stats != [] {
      NoEarlierStat(stats[..|stats| - 1], path);
    }
  }

  /** Files that count what the merged ones count, and others that count nothing. */
  ghost predicate Extends(files: map<string, FileData>, merged: map<string, FileData>) {
    && merged.Keys <= files.Keys
    && forall k :: k in files ==>
         && files[k].additions == (if k in merged then merged[k].additions else 0)
         && files[k].deletions == (if k in merged then merged[k].deletions else 0)
  }

  lemma {:induction false} ExtendedSum(a: map<string, int>, b: map<string, int>)
    requires a.Keys <= b.Keys && forall k :: k in b ==> b[k] == if k in a then a[k] else 0
    ensures MapSum(b) == MapSum(a)
    decreases b.Keys
  {
    if b.Keys == {} {
      assert a.Keys == {};
    } else {
      var k := Any(b.Keys);
      ExtendedSum(a - {k}, b - {k});
      MapSumTakesAny(b, k);
      if k in a {
        MapSumTakesAny(a, k);
      } else {
        assert a - {k} == a;
      }
    }
  }

  lemma FilesSumToStats(raws: seq<RawRecord>, stats: seq<NumstatRecord>, files: map<string, FileData>, order: seq<string>, side: Side)
    requires DistinctStats(stats) && Extends(files, Measured(Listed(raws), stats))
    requires NoRepeats(order) && Members(order) == files.Keys
    ensures LinesOf(side, EmissionOf(files, order).additions, EmissionOf(files, order).deletions) == SumStats(stats, side)
  {
    var merged := Measured(Listed(raws), stats);
    MergedLines(raws, stats, side);
    RowsSumToMap(files, order, side);
    assert Part(FileLines(files, side), Members(order)) == FileLines(files, side);
    ExtendedLines(merged, files, side);
  }

  lemma ExtendedLines(merged: map<string, FileData>, files: map<string, FileData>, side: Side)
    requires Extends(files, merged)
    ensures MapSum(FileLines(files, side)) == MapSum(FileLines(merged, side))
  {
    ExtendedSum(FileLines(merged, side), FileLines(files, side));
  }

  // ------------------------------------------------------ from the patches to the rows

  lemma {:induction false} EmittedHunks(files: map<string, FileData>, order: seq<string>, h: HunkRow)
    requires forall p :: p in order ==> p in files && files[p].path == p
    ensures h in EmissionOf(files, order).hunks <==> h.path in order && h in HunkRowsOf(Moded(files[h.path]))
  {
    if order != [] {
      var init, last := order[..|order| - 1], order[|order| - 1];
      EmittedHunks(files, init, h);
      assert order == init + [last];
    }
  }

  ghost predicate HasHunk(hunks: seq<HunkRow>, path: string, index: int) {
    exists h :: h in hunks && h.path == path && h.hunkIndex == index
  }

  /** These hunk rows of a path are the hunks of its patch, each with its number and its lines. */
  ghost predicate ShowsPatch(hunks: seq<HunkRow>, path: string, patch: seq<DiffHunk>) {
    && (forall h :: h in hunks && h.path == path ==> 0 <= h.hunkIndex < |patch| && h.hunk.index == h.hunkIndex && Spans(h.hunk, patch[h.hunkIndex]))
    && (forall i :: 0 <= i < |patch| ==> HasHunk(hunks, path, i))
  }

  /** What is stored for a file: the text of its last patch; and if none of its patches is too large the
      file is fully indexed, its hunk rows being those of that patch. */
  ghost predicate PatchStored(row: FileRow, hunks: seq<HunkRow>, diffs: seq<FileDiff>, changes: int) {
    var d := LastDiff(diffs, row.path);
    && row.patchText == (if d.Some? then d.value.printed else "")
    && row.indexedAs == (if HasLargeDiff(diffs, row.path, changes) then PATH_ONLY else FULL)
    && ShowsPatch(hunks, row.path, if d.Some? && row.indexedAs == FULL then d.value.hunks else [])
  }

  lemma OwnHunksShow(file: FileData, hunks: seq<HunkRow>, patch: seq<DiffHunk>)
    requires forall h :: h in hunks && h.path == file.path <==> h in HunkRowsOf(file)
    requires if file.indexedAs == FULL then Shows(file.hunks, patch) else patch == []
    ensures ShowsPatch(hunks, file.path, patch)
  {
    var own := HunkRowsOf(file);
    forall i | 0 <= i < |patch| ensures HasHunk(hunks, file.path, i) {
      assert own[i] in own && own[i].path == file.path && own[i].hunkIndex == i;
    }
  }

  lemma StoredHunksOf(files: map<string, FileData>, order: seq<string>, path: string, patch: seq<DiffHunk>)
    requires Members(order) == files.Keys && (forall p :: p in files ==> files[p].path == p) && path in files
    requires if Moded(files[path]).indexedAs == FULL then Shows(files[path].hunks, patch) else patch == []
    ensures ShowsPatch(EmissionOf(files, order).hunks, path, patch)
  {
    var hunks, file := EmissionOf(files, order).hunks, Moded(files[path]);
    assert forall p :: p in order <==> p in Members(order);
    forall h ensures h in hunks && h.path == file.path <==> h in HunkRowsOf(file) {
      EmittedHunks(files, order, h);
    }
    OwnHunksShow(file, hunks, patch);
  }

  lemma NotLarge(diffs: seq<FileDiff>, path: string, changes: int)
    requires LastDiff(diffs, path).Some? && !HasLargeDiff(diffs, path, changes)
    ensures |LastDiff(diffs, path).value.printed| <= 1_000_000 && changes <= 20_000
  {
    var i := LastDiffIndex(diffs, path);
    assert PatchPath(diffs[i]) == path;
  }

  lemma {:induction false} LastDiffIndex(diffs: seq<FileDiff>, path: string) returns (i: nat)
    requires LastDiff(diffs, path).Some?
    ensures i < |diffs| && PatchPath(diffs[i]) == path && diffs[i] == LastDiff(diffs, path).value
  {
    i := |diffs| - 1;
    if PatchPath(diffs[i]) != path {
      i := LastDiffIndex(diffs[..i], path);
    }
  }

  function ChangesOf(merged: map<string, FileData>, path: string): int {
    if path in merged then merged[path].changes else 0
  }

  lemma DetailedPaths(merged: map<string, FileData>, diffs: seq<FileDiff>)
    requires Plain(merged)
    ensures forall p :: p in AllDetailed(merged, diffs) ==> AllDetailed(merged, diffs)[p].path == p
  {
    forall p | p in AllDetailed(merged, diffs) ensures AllDetailed(merged, diffs)[p].path == p {
      PatchesReachFiles(merged, diffs, p);
    }
  }

  lemma PatchIsStored(merged: map<string, FileData>, diffs: seq<FileDiff>, path: string, order: seq<string>)
    requires Plain(merged) && path in AllDetailed(merged, diffs) && Members(order) == AllDetailed(merged, diffs).Keys
    ensures PatchStored(FileRowOf(Moded(AllDetailed(merged, diffs)[path])), EmissionOf(AllDetailed(merged, diffs), order).hunks,
                        diffs, ChangesOf(merged, path))
  {
    var files, d := AllDetailed(merged, diffs), LastDiff(diffs, path);
    DetailedPaths(merged, diffs);
    PatchesReachFiles(merged, diffs, path);
    if d.Some? && !HasLargeDiff(diffs, path, ChangesOf(merged, path)) {
      NotLarge(diffs, path, ChangesOf(merged, path));
      StoredHunksOf(files, order, path, d.value.hunks);
    } else {
      if d.None? {
        NoDiffNoLarge(diffs, path, ChangesOf(merged, path));
      }
      StoredHunksOf(files, order, path, []);
    }
  }

  predicate HasRow(rows: seq<FileRow>, path: string) {
    exists i :: 0 <= i < |rows| && rows[i].path == path
  }

  /** Every file and every patch has a row, and the rows hold the patches. */
  ghost predicate PatchesStored(rows: seq<FileRow>, hunks: seq<HunkRow>, diffs: seq<FileDiff>, merged: map<string, FileData>) {
    && (forall i :: 0 <= i < |rows| ==> PatchStored(rows[i], hunks, diffs, ChangesOf(merged, rows[i].path)))
    && (forall path :: path in merged || LastDiff(diffs, path).Some? ==> HasRow(rows, path))
  }

  lemma PatchesReachRows(merged: map<string, FileData>, diffs: seq<FileDiff>, order: seq<string>)
    requires Plain(merged) && Members(order) == AllDetailed(merged, diffs).Keys
    ensures var e := EmissionOf(AllDetailed(merged, diffs), order); PatchesStored(e.rows, e.hunks, diffs, merged)
  {
    var files := AllDetailed(merged, diffs);
    var e := EmissionOf(files, order);
    assert forall p :: p in order <==> p in Members(order);
    DetailedPaths(merged, diffs);
    EmissionRows(files, order);
    forall i | 0 <= i < |e.rows| ensures PatchStored(e.rows[i], e.hunks, diffs, ChangesOf(merged, e.rows[i].path)) {
      assert e.rows[i] == FileRowOf(Moded(files[order[i]]));
      PatchIsStored(merged, diffs, order[i], order);
    }
    forall path | path in merged || LastDiff(diffs, path).Some? ensures HasRow(e.rows, path) {
      PatchesReachFiles(merged, diffs, path);
      RowOfPath(files, order, path);
    }
  }

  lemma RowOfPath(files: map<string, FileData>, order: seq<string>, path: string)
    requires Members(order) == files.Keys && path in files && files[path].path == path
    ensures HasRow(RowsIn(files, order), path)
  {
    assert path in order;
    var i :| 0 <= i < |order| && order[i] == path;
    assert RowsIn(files, order)[i].path == path;
  }

  lemma IndexedKeepCounts(merged: map<string, FileData>, diffs: seq<FileDiff>)
    requires Plain(merged)
    ensures Extends(IndexedFiles(merged, diffs), merged)
    ensures forall k :: k in IndexedFiles(merged, diffs) ==> Numbered(IndexedFiles(merged, diffs)[k].hunks)
  {
    if !Oversized(merged) {
      forall k
        ensures k in merged ==> k in AllDetailed(merged, diffs)
        ensures k in AllDetailed(merged, diffs) ==>
                  && AllDetailed(merged, diffs)[k].additions == (if k in merged then merged[k].additions else 0)
                  && AllDetailed(merged, diffs)[k].deletions == (if k in merged then merged[k].deletions else 0)
      {
        PatchesReachFiles(merged, diffs, k);
      }
      DetailedNumbered(merged, diffs);
    }
  }

  lemma {:induction false} DetailedNumbered(merged: map<string, FileData>, diffs: seq<FileDiff>)
    requires forall k :: k in merged ==> Numbered(merged[k].hunks)
    ensures forall k :: k in AllDetailed(merged, diffs) ==> Numbered(AllDetailed(merged, diffs)[k].hunks)
  {
    if diffs != [] {
      DetailedNumbered(merged, diffs[..|diffs| - 1]);
    }
  }

  /** What an index tells of a diff. If numstat names no path twice the totals are the lines it lists,
      added and removed. An oversized diff has path rows only; of any other the rows hold the patches,
      and the mode says whether one was too large, or none had hunks. */
  ghost predicate IndexTells(rows: seq<FileRow>, hunks: seq<HunkRow>, snapshot: Snapshot, raws: seq<RawRecord>, stats: seq<NumstatRecord>,
                             diffs: seq<FileDiff>) {
    && (DistinctStats(stats) ==> snapshot.additions == SumStats(stats, Additions) && snapshot.deletions == SumStats(stats, Deletions))
    && var merged := Measured(Listed(raws), stats);
    && (if Oversized(merged) then hunks == [] && |rows| == |merged| else PatchesStored(rows, hunks, diffs, merged))
    && snapshot.indexedAs == if Oversized(merged) then OVERSIZED
                             else if AnyLargeDiff(diffs, merged) then MIXED
                             else if hunks == [] && rows != [] then PATH_ONLY else FULL
  }

  /** From what git printed to the rows: the totals agree with the rows, and the rows with what git
      printed. */
  method BuildPullRequestIndex(rawOut: string, numstatOut: string, diffs: seq<FileDiff>, headSHA: string)
      returns (rows: seq<FileRow>, hunks: seq<HunkRow>, snapshot: Snapshot)
    ensures Conserved(snapshot, rows, hunks)
    ensures snapshot.headSHA == headSHA && snapshot.indexFreshness == "current"
    ensures IndexTells(rows, hunks, snapshot, ParseRawTokens(Tokens(rawOut)), ParseNumstatTokens(Tokens(numstatOut)), diffs)
  {
    var files, indexedAs := LoadPullRequestIndexFiles(rawOut, numstatOut, diffs);
    ghost var raws, stats := ParseRawTokens(Tokens(rawOut)), ParseNumstatTokens(Tokens(numstatOut));
    IndexedNumbered(raws, stats, diffs);
    ViewsNumbered(files);
    ViewsSize(files);
    ghost var order;
    rows, hunks, snapshot, order := BuildPullRequestSnapshotRows(files, headSHA, indexedAs);
    RowsTell(raws, stats, diffs, order, hunks, snapshot);
  }

  lemma RowsTell(raws: seq<RawRecord>, stats: seq<NumstatRecord>, diffs: seq<FileDiff>, order: seq<string>, hunks: seq<HunkRow>,
                 snapshot: Snapshot)
    requires var merged := Measured(Listed(raws), stats);
             var files := IndexedFiles(merged, diffs);
             && NoRepeats(order) && Members(order) == files.Keys && hunks == EmissionOf(files, order).hunks
             && Conserved(snapshot, EmissionOf(files, order).rows, hunks)
             && var mode := if Oversized(merged) then OVERSIZED else if Reduced(files) then MIXED else FULL;
             snapshot.indexedAs == if mode == FULL && hunks == [] && |files| > 0 then PATH_ONLY else mode
    ensures IndexTells(EmissionOf(IndexedFiles(Measured(Listed(raws), stats), diffs), order).rows, hunks, snapshot, raws, stats, diffs)
  {
    IndexSums(raws, stats, diffs, order, snapshot, hunks);
    PatchesOrPaths(raws, stats, diffs, order);
    RowForEachFile(IndexedFiles(Measured(Listed(raws), stats), diffs), order);
  }

  lemma RowForEachFile(files: map<string, FileData>, order: seq<string>)
    requires NoRepeats(order) && Members(order) == files.Keys
    ensures EmissionOf(files, order).rows == [] <==> |files| == 0
  {
    EmissionRows(files, order);
    MembersCount(order);
    assert |files| == |files.Keys|;
  }

  /** Some patch, or the file it is for, is too large. */
  ghost predicate AnyLargeDiff(diffs: seq<FileDiff>, merged: map<string, FileData>) {
    exists path :: HasLargeDiff(diffs, path, ChangesOf(merged, path))
  }

  lemma IndexedNumbered(raws: seq<RawRecord>, stats: seq<NumstatRecord>, diffs: seq<FileDiff>)
    ensures var files := IndexedFiles(Measured(Listed(raws), stats), diffs);
            forall k :: k in files ==> Numbered(files[k].hunks)
  {
    MergedIsPlain(raws, stats);
    IndexedKeepCounts(Measured(Listed(raws), stats), diffs);
  }

  lemma IndexSums(raws: seq<RawRecord>, stats: seq<NumstatRecord>, diffs: seq<FileDiff>, order: seq<string>, snapshot: Snapshot,
                  hunks: seq<HunkRow>)
    requires var files := IndexedFiles(Measured(Listed(raws), stats), diffs);
             NoRepeats(order) && Members(order) == files.Keys && Conserved(snapshot, EmissionOf(files, order).rows, hunks)
    ensures DistinctStats(stats) ==>
              snapshot.additions == SumStats(stats, Additions) && snapshot.deletions == SumStats(stats, Deletions)
  {
    MergedIsPlain(raws, stats);
    IndexedKeepCounts(Measured(Listed(raws), stats), diffs);
    SnapshotSumsToStats(raws, stats, IndexedFiles(Measured(Listed(raws), stats), diffs), order, snapshot, hunks);
  }

  lemma LargeDiffsReduce(merged: map<string, FileData>, diffs: seq<FileDiff>)
    requires Plain(merged) && !Oversized(merged)
    ensures Reduced(IndexedFiles(merged, diffs)) <==> AnyLargeDiff(diffs, merged)
  {
    ReducedIffLargeDiff(merged, diffs);
    forall path ensures HasLargeDiff(diffs, path, ChangesOf(merged, path))
                        == HasLargeDiff(diffs, path, if path in merged then merged[path].changes else 0)
    {
    }
  }

  lemma PatchesOrPaths(raws: seq<RawRecord>, stats: seq<NumstatRecord>, diffs: seq<FileDiff>, order: seq<string>)
    requires NoRepeats(order) && Members(order) == IndexedFiles(Measured(Listed(raws), stats), diffs).Keys
    ensures var merged := Measured(Listed(raws), stats);
            var e := EmissionOf(IndexedFiles(merged, diffs), order);
            && (if Oversized(merged) then e.hunks == [] && |e.rows| == |merged| else PatchesStored(e.rows, e.hunks, diffs, merged))
            && (!Oversized(merged) ==> (Reduced(IndexedFiles(merged, diffs)) <==> AnyLargeDiff(diffs, merged)))
  {
    var merged := Measured(Listed(raws), stats);
    MergedIsPlain(raws, stats);
    if Oversized(merged) {
      OversizedHasNoHunks(merged, diffs, order);
    } else {
      PatchesReachRows(merged, diffs, order);
      LargeDiffsReduce(merged, diffs);
    }
  }

  lemma ViewsNumbered(files: map<string, ParsedFile>)
    requires forall k :: k in Views(files) ==> Numbered(Views(files)[k].hunks)
    ensures forall k :: k in files ==> Numbered(files[k].hunks)
  {
    forall k | k in files ensures Numbered(files[k].hunks) {
      assert Views(files)[k] == files[k].View();
    }
  }

  lemma OversizedHasNoHunks(merged: map<string, FileData>, diffs: seq<FileDiff>, order: seq<string>)
    requires Oversized(merged) && NoRepeats(order) && Members(order) == IndexedFiles(merged, diffs).Keys
    ensures EmissionOf(IndexedFiles(merged, diffs), order).hunks == []
    ensures |EmissionOf(IndexedFiles(merged, diffs), order).rows| == |merged|
  {
    var files := IndexedFiles(merged, diffs);
    assert files.Keys == merged.Keys && |merged| == |merged.Keys|;
    MembersCount(order);
    EmissionRows(files, order);
    PathOnlyHasNoHunks(files, order);
  }

  lemma {:induction false} PathOnlyHasNoHunks(files: map<string, FileData>, order: seq<string>)
    requires forall p :: p in order ==> p in files && files[p].indexedAs == PATH_ONLY
    ensures EmissionOf(files, order).hunks == []
  {
    if order != [] {
      PathOnlyHasNoHunks(files, order[..|order| - 1]);
    }
  }

  lemma SnapshotSumsToStats(raws: seq<RawRecord>, stats: seq<NumstatRecord>, files: map<string, FileData>, order: seq<string>,
                            snapshot: Snapshot, hunks: seq<HunkRow>)
    requires Extends(files, Measured(Listed(raws), stats)) && NoRepeats(order) && Members(order) == files.Keys
    requires Conserved(snapshot, EmissionOf(files, order).rows, hunks)
    ensures DistinctStats(stats) ==>
              snapshot.additions == SumStats(stats, Additions) && snapshot.deletions == SumStats(stats, Deletions)
  {
    EmissionTotals(files, order);
    if DistinctStats(stats) {
      FilesSumToStats(raws, stats, files, order, Additions);
      FilesSumToStats(raws, stats, files, order, Deletions);
    }
  }

  /** For records git can print, without tabs in plain paths, the parsers lose nothing on the way: the
      additions and deletions of a snapshot are those of the diff. */
  lemma DiffLinesReachSnapshot(raws: seq<RawRecord>, stats: seq<NumstatRecord>, files: map<string, FileData>, order: seq<string>,
                               snapshot: Snapshot, hunks: seq<HunkRow>)
    requires DistinctStats(stats) && forall r | r in raws :: ValidRaw(r)
    requires forall i :: 0 <= i < |stats| ==> ValidNumstat(stats[i]) && TabSafe(stats[i])
    requires Extends(files, Measured(Listed(ParseRawTokens(Tokens(EncodeRaw(raws)))), ParseNumstatTokens(Tokens(EncodeNumstat(stats)))))
    requires NoRepeats(order) && Members(order) == files.Keys
    requires Conserved(snapshot, EmissionOf(files, order).rows, hunks)
    ensures snapshot.additions == SumStats(stats, Additions) && snapshot.deletions == SumStats(stats, Deletions)
  {
    RawRoundTrip(raws);
    NumstatRoundTrip(stats);
    SnapshotSumsToStats(raws, stats, files, order, snapshot, hunks);
  }
}
