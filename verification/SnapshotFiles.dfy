/** Parsed files of one pull request: raw and numstat records merged per path, patch details added in
    place, and the index mode chosen for the whole (internal/gitindex/service.go). */
module SnapshotFiles {
  import opened Common
  import opened GitParse

  const FULL := "full"
  const PATH_ONLY := "paths_only"
  const MIXED := "mixed"
  const OVERSIZED := "oversized"

  datatype Hunk = Hunk(index: int, diffHunk: string, oldStart: int, oldCount: int, oldEnd: int,
                       newStart: int, newCount: int, newEnd: int)

  /** What a parsed file says at one moment. */
  datatype FileData = FileData(path: string, previousPath: string, status: string, fileKind: string, indexedAs: string,
                               oldMode: string, newMode: string, headBlob: string, baseBlob: string,
                               additions: int, deletions: int, changes: int, patchText: string, hunks: seq<Hunk>)

  /** normalizeStatus */
  function NormalizeStatus(status: string): string {
    if "R" <= status then "renamed"
    else if "C" <= status then "copied"
    else if "A" <= status then "added"
    else if "D" <= status then "removed"
    else if "T" <= status then "type_changed"
    else "modified"
  }

  /** The first letter decides, whatever similarity score follows it. */
  lemma StatusLetter(c: char, score: string)
    ensures var status := NormalizeStatus([c] + score);
            && (status == "renamed" <==> c == 'R') && (status == "copied" <==> c == 'C') && (status == "added" <==> c == 'A')
            && (status == "removed" <==> c == 'D') && (status == "type_changed" <==> c == 'T')
            && (status == "modified" <==> c !in "RCADT")
    ensures NormalizeStatus("") == "modified"
  {
    StartsWith("R", c, score);
    StartsWith("C", c, score);
    StartsWith("A", c, score);
    StartsWith("D", c, score);
    StartsWith("T", c, score);
  }

  lemma StartsWith(letter: string, c: char, score: string)
    requires |letter| == 1
    ensures letter <= [c] + score <==> letter[0] == c
  {
  }

  /** classifyFileKind */
  function ClassifyFileKind(status: string, oldMode: string, newMode: string, binary: bool, additions: int, deletions: int): string {
    if oldMode == "160000" || newMode == "160000" then "submodule"
    else if oldMode == "120000" || newMode == "120000" then "symlink"
    else if binary then "binary"
    else if NormalizeStatus(status) == "type_changed"
         || (oldMode != "" && newMode != "" && oldMode != newMode && additions == 0 && deletions == 0) then "mode_only"
    else "text"
  }

  predicate HasMode(oldMode: string, newMode: string, mode: string) {
    mode in {oldMode, newMode}
  }

  /** The kind is one of six: git's modes come first, then binary content, then a change of type or of
      mode alone, and everything else is text. */
  lemma FileKindIs(status: string, oldMode: string, newMode: string, binary: bool, additions: int, deletions: int)
    ensures var kind := ClassifyFileKind(status, oldMode, newMode, binary, additions, deletions);
            var special := HasMode(oldMode, newMode, "160000") || HasMode(oldMode, newMode, "120000");
            var modeOnly := NormalizeStatus(status) == "type_changed"
                            || (!HasMode(oldMode, newMode, "") && oldMode != newMode && additions == 0 && deletions == 0);
            && (kind == "submodule" <==> HasMode(oldMode, newMode, "160000"))
            && (kind == "symlink" <==> HasMode(oldMode, newMode, "120000") && !HasMode(oldMode, newMode, "160000"))
            && (kind == "binary" <==> binary && !special)
            && (kind == "mode_only" <==> modeOnly && !binary && !special)
            && (kind == "text" <==> !modeOnly && !binary && !special)
  {
  }

  function OfRaw(raw: RawRecord): FileData {
    FileData(raw.path, raw.previousPath, NormalizeStatus(raw.status),
             ClassifyFileKind(raw.status, raw.oldMode, raw.newMode, false, 0, 0), "",
             raw.oldMode, raw.newMode, raw.newOID, raw.oldOID, 0, 0, 0, "", [])
  }

  function Unlisted(path: string): FileData {
    FileData(path, "", "modified", "", "", "", "", "", "", 0, 0, 0, "", [])
  }

  function WithStat(file: FileData, stat: NumstatRecord): FileData {
    file.(previousPath := if file.previousPath == "" then stat.previousPath else file.previousPath,
          additions := stat.additions, deletions := stat.deletions, changes := stat.additions + stat.deletions,
          fileKind := ClassifyFileKind(file.status, file.oldMode, file.newMode, stat.binary, stat.additions, stat.deletions))
  }

  function Listed(raws: seq<RawRecord>): (files: map<string, FileData>)
    ensures forall k :: k in files ==> files[k].path == k
  {
    if raws == [] then map[] else Listed(raws[..|raws| - 1])[raws[|raws| - 1].path := OfRaw(raws[|raws| - 1])]
  }

  function Measured(files: map<string, FileData>, stats: seq<NumstatRecord>): (measured: map<string, FileData>)
    requires forall k :: k in files ==> files[k].path == k
    ensures forall k :: k in measured ==> measured[k].path == k
  {
    if stats == [] then files
    else
      var before, stat := Measured(files, stats[..|stats| - 1]), stats[|stats| - 1];
      before[stat.path := WithStat(if stat.path in before then before[stat.path] else Unlisted(stat.path), stat)]
  }

  class ParsedFile {
    const path: string
    const status: string
    const oldMode: string
    const newMode: string
    const headBlob: string
    const baseBlob: string
    var previousPath: string
    var fileKind: string
    var indexedAs: string
    var additions: int
    var deletions: int
    var changes: int
    var patchText: string
    var hunks: seq<Hunk>

    constructor (data: FileData)
      ensures View() == data && path == data.path
    {
      path, status, oldMode, newMode := data.path, data.status, data.oldMode, data.newMode;
      headBlob, baseBlob, previousPath, fileKind := data.headBlob, data.baseBlob, data.previousPath, data.fileKind;
      indexedAs, additions, deletions, changes := data.indexedAs, data.additions, data.deletions, data.changes;
      patchText, hunks := data.patchText, data.hunks;
    }

    function View(): FileData
      reads this
    {
      FileData(path, previousPath, status, fileKind, indexedAs, oldMode, newMode, headBlob, baseBlob,
               additions, deletions, changes, patchText, hunks)
    }
  }

  /** Every file stands under its own path, so no two keys share one. */
  ghost predicate Keyed(files: map<string, ParsedFile>) {
    forall k :: k in files ==> files[k].path == k
  }

  ghost function Views(files: map<string, ParsedFile>): map<string, FileData>
    reads files.Values
  {
    map k | k in files :: files[k].View()
  }

  lemma ViewsPut(files: map<string, ParsedFile>, k: string, file: ParsedFile)
    ensures Views(files[k := file]) == Views(files)[k := file.View()]
  {
  }

  method ListRawRecords(raws: seq<RawRecord>) returns (files: map<string, ParsedFile>)
    ensures Keyed(files) && (forall k :: k in files ==> fresh(files[k])) && Views(files) == Listed(raws)
  {
    files := map[];
    for i := 0 to |raws|
      invariant Keyed(files) && (forall k :: k in files ==> fresh(files[k])) && Views(files) == Listed(raws[..i])
    {
      assert raws[..i + 1][..i] == raws[..i];
      var file := new ParsedFile(OfRaw(raws[i]));
      ViewsPut(files, raws[i].path, file);
      files := files[raws[i].path := file];
    }
    assert raws[..|raws|] == raws;
  }

  method MeasureFile(file: ParsedFile, stat: NumstatRecord)
    modifies file
    ensures file.View() == WithStat(old(file.View()), stat)
    ensures file.previousPath == (if old(file.previousPath) != "" then old(file.previousPath) else stat.previousPath)
    ensures file.additions == stat.additions && file.deletions == stat.deletions && file.changes == stat.additions + stat.deletions
    ensures file.fileKind == ClassifyFileKind(file.status, file.oldMode, file.newMode, stat.binary, stat.additions, stat.deletions)
    ensures file.indexedAs == old(file.indexedAs) && file.patchText == old(file.patchText) && file.hunks == old(file.hunks)
  {
    if file.previousPath == "" {
      file.previousPath := stat.previousPath;
    }
    file.additions := stat.additions;
    file.deletions := stat.deletions;
    file.changes := stat.additions + stat.deletions;
    file.fileKind := ClassifyFileKind(file.status, file.oldMode, file.newMode, stat.binary, stat.additions, stat.deletions);
  }

  /** The second loop of mergeFileMetadata changes the parsed files in place. */
  method ApplyNumstat(files: map<string, ParsedFile>, stat: NumstatRecord) returns (updated: map<string, ParsedFile>)
    requires Keyed(files)
    modifies files.Values
    ensures Keyed(updated) && forall k :: k in updated ==> (k in files && updated[k] == files[k]) || fresh(updated[k])
    ensures var before := old(Views(files));
            Views(updated) == before[stat.path := WithStat(if stat.path in before then before[stat.path] else Unlisted(stat.path), stat)]
  {
    updated := files;
    if stat.path in files {
      MeasureFile(files[stat.path], stat);
      return;
    }
    var file := new ParsedFile(Unlisted(stat.path));
    MeasureFile(file, stat);
    ViewsPut(files, stat.path, file);
    updated := files[stat.path := file];
  }

  method MergeFileMetadata(raws: seq<RawRecord>, stats: seq<NumstatRecord>) returns (files: map<string, ParsedFile>)
    ensures Keyed(files) && forall k :: k in files ==> fresh(files[k])
    ensures Views(files) == Measured(Listed(raws), stats)
  {
    files := ListRawRecords(raws);
    for i := 0 to |stats|
      invariant Keyed(files) && forall k :: k in files ==> fresh(files[k])
      invariant Views(files) == Measured(Listed(raws), stats[..i])
    {
      assert stats[..i + 1][..i] == stats[..i];
      files := ApplyNumstat(files, stats[i]);
    }
    assert stats[..|stats|] == stats;
  }

  // -------------------------------------------------------- what the merge means

  /** The last record for a path, if there is one. */
  function LastRaw(raws: seq<RawRecord>, path: string): Option<RawRecord> {
    if raws == [] then None
    else if raws[|raws| - 1].path == path then Some(raws[|raws| - 1])
    else LastRaw(raws[..|raws| - 1], path)
  }

  function LastStat(stats: seq<NumstatRecord>, path: string): Option<NumstatRecord> {
    if stats == [] then None
    else if stats[|stats| - 1].path == path then Some(stats[|stats| - 1])
    else LastStat(stats[..|stats| - 1], path)
  }

  lemma {:induction false} ListedIsLast(raws: seq<RawRecord>, path: string)
    ensures path in Listed(raws) <==> LastRaw(raws, path).Some?
    ensures path in Listed(raws) ==> Listed(raws)[path] == OfRaw(LastRaw(raws, path).value)
  {
    if raws != [] {
      ListedIsLast(raws[..|raws| - 1], path);
    }
  }

  /** A path has a file if either list names it. Its status and modes come from the last raw record,
      its counts from the last numstat record, and nothing but these two lists is in the file. */
  lemma {:induction false} MergeReadsBothLists(raws: seq<RawRecord>, stats: seq<NumstatRecord>, path: string)
    ensures path in Measured(Listed(raws), stats) <==> LastRaw(raws, path).Some? || LastStat(stats, path).Some?
    ensures path in Measured(Listed(raws), stats) ==>
              var file, raw, stat := Measured(Listed(raws), stats)[path], LastRaw(raws, path), LastStat(stats, path);
              && file.status == (if raw.Some? then NormalizeStatus(raw.value.status) else "modified")
              && file.additions == (if stat.Some? then stat.value.additions else 0)
              && file.deletions == (if stat.Some? then stat.value.deletions else 0)
              && file.changes == file.additions + file.deletions
              && (raw.Some? && raw.value.previousPath != "" ==> file.previousPath == raw.value.previousPath)
              && file.oldMode == (if raw.Some? then raw.value.oldMode else "") && file.newMode == (if raw.Some? then raw.value.newMode else "")
              && file.headBlob == (if raw.Some? then raw.value.newOID else "") && file.baseBlob == (if raw.Some? then raw.value.oldOID else "")
              && (stat.Some? ==>
                    file.fileKind == ClassifyFileKind(file.status, file.oldMode, file.newMode, stat.value.binary, file.additions, file.deletions))
              && file.indexedAs == "" && file.patchText == "" && file.hunks == []
  {
    ListedIsLast(raws, path);
    if stats != [] {
      MergeReadsBothLists(raws, stats[..|stats| - 1], path);
    }
  }

  // --------------------------------------------------------------- the index mode

  ghost function MapSum(m: map<string, int>): int
    decreases m.Keys
  {
    if m.Keys == {} then 0 else
      var k := Any(m.Keys);
      m[k] + MapSum(m - {k})
  }

  /** It does not matter in which order a map is summed up. */
  lemma {:induction false} MapSumTakesAny(m: map<string, int>, k: string)
    requires k in m
    ensures MapSum(m) == m[k] + MapSum(m - {k})
    decreases m.Keys
  {
    var first := Any(m.Keys);
    if k != first {
      MapSumTakesAny(m - {first}, k);
      MapSumTakesAny(m - {k}, first);
      assert m - {first} - {k} == m - {k} - {first};
    }
  }

  ghost function Part(m: map<string, int>, keys: set<string>): map<string, int>
    requires keys <= m.Keys
  {
    map k | k in keys :: m[k]
  }

  lemma PartWithout(m: map<string, int>, keys: set<string>, k: string)
    requires keys <= m.Keys && k in keys
    ensures MapSum(Part(m, keys)) == m[k] + MapSum(Part(m, keys - {k}))
  {
    MapSumTakesAny(Part(m, keys), k);
    assert Part(m, keys) - {k} == Part(m, keys - {k});
  }

  ghost function ChangedLines(files: map<string, FileData>): map<string, int> {
    map k | k in files :: files[k].additions + files[k].deletions
  }

  /** pullRequestIndexedAs */
  method PullRequestIndexedAs(files: map<string, ParsedFile>) returns (indexedAs: string)
    requires Keyed(files)
    ensures indexedAs == if |files| > 5000 || MapSum(ChangedLines(Views(files))) > 200000 then OVERSIZED else FULL
  {
    ghost var lines := ChangedLines(Views(files));
    var totalLines := 0;
    var keys := files.Keys;
    assert Part(lines, keys) == lines;
    while keys != {}
      invariant keys <= files.Keys
      invariant totalLines + MapSum(Part(lines, keys)) == MapSum(lines)
    {
      var k :| k in keys;
      PartWithout(lines, keys, k);
      totalLines := totalLines + (files[k].additions + files[k].deletions);
      keys := keys - {k};
    }
    indexedAs := if |files| > 5000 || totalLines > 200000 then OVERSIZED else FULL;
  }

  /** setPullRequestFilesIndexMode */
  method SetPullRequestFilesIndexMode(files: map<string, ParsedFile>, indexedAs: string)
    requires Keyed(files)
    modifies files.Values
    ensures forall k :: k in files ==> files[k].View() == old(files[k].View()).(indexedAs := indexedAs)
  {
    var keys := files.Keys;
    while keys != {}
      invariant keys <= files.Keys
      invariant forall k :: k in files && k in keys ==> files[k].View() == old(files[k].View())
      invariant forall k :: k in files && k !in keys ==> files[k].View() == old(files[k].View()).(indexedAs := indexedAs)
    {
      var k :| k in keys;
      files[k].indexedAs := indexedAs;
      keys := keys - {k};
    }
  }

  /** pullRequestFilesMixed */
  method PullRequestFilesMixed(files: map<string, ParsedFile>) returns (mixed: bool)
    ensures mixed <==> exists k :: k in files && files[k].indexedAs != "" && files[k].indexedAs != FULL
  {
    var keys := files.Keys;
    while keys != {}
      invariant keys <= files.Keys
      invariant forall k :: k in files && k !in keys ==> files[k].indexedAs == "" || files[k].indexedAs == FULL
    {
      var k :| k in keys;
      if files[k].indexedAs != "" && files[k].indexedAs != FULL {
        return true;
      }
      keys := keys - {k};
    }
    mixed := false;
  }

  // ------------------------------------------------- finding the file of a patch

  /** normalizePatchPath */
  function NormalizePatchPath(path: string): string {
    TrimPrefix(TrimPrefix(TrimSpace(path), "a/"), "b/")
  }

  lemma {:induction false} TrimRightKeeps(head: string, rest: string)
    requires head != "" && !IsSpace(head[|head| - 1])
    ensures head <= TrimRight(head + rest) <= head + rest
    ensures TrimRight(head + rest) == head + rest <==> rest == "" || !IsSpace(rest[|rest| - 1])
  {
    if rest == "" {
      assert head + rest == head;
    } else if IsSpace(rest[|rest| - 1]) {
      var shorter := rest[..|rest| - 1];
      assert (head + rest)[..|head + rest| - 1] == head + shorter;
      TrimRightKeeps(head, shorter);
    }
  }

  lemma TrimSpaceOfHeaded(head: string, path: string)
    requires |head| == 2 && head[1] == '/' && !IsSpace(head[0])
    ensures head <= TrimSpace(head + path) <= head + path
    ensures TrimSpace(head + path) == head + path <==> path == "" || !IsSpace(path[|path| - 1])
  {
    assert TrimLeft(head + path) == head + path;
    TrimRightKeeps(head, path);
  }

  /** The new name of a patch leads back to the path exactly if the path does not end in white
      space. */
  lemma NewNameFindsPath(path: string)
    ensures NormalizePatchPath("b/" + path) == path <==> path == "" || !IsSpace(path[|path| - 1])
  {
    TrimSpaceOfHeaded("b/", path);
    var t := TrimSpace("b/" + path);
    if path == "" || !IsSpace(path[|path| - 1]) {
      assert t[2..] == path;
    }
  }

  /** The old name, used for removed files, does so exactly if in addition the path is not below a
      directory called b: that prefix is taken off as well. */
  lemma OldNameFindsPath(path: string)
    ensures NormalizePatchPath("a/" + path) == path <==> (path == "" || !IsSpace(path[|path| - 1])) && !("b/" <= path)
  {
    TrimSpaceOfHeaded("a/", path);
    var t := TrimSpace("a/" + path);
    if path == "" || !IsSpace(path[|path| - 1]) {
      assert t[2..] == path;
    }
  }

  // ------------------------------------------------------------------ patch details

  /** What the diff library reads: one hunk, and the patch of one file with the text it prints. */
  datatype DiffHunk = DiffHunk(origStart: int, origLines: int, newStart: int, newLines: int, body: string)

  datatype FileDiff = FileDiff(origName: string, newName: string, printed: string, hunks: seq<DiffHunk>)

  /** rangeEnd */
  function RangeEnd(start: int, count: int): int {
    if count <= 0 then start else start + count - 1
  }

  /** parseFileHunks numbers the hunks of a file. */
  predicate Numbered(hunks: seq<Hunk>) {
    forall i :: 0 <= i < |hunks| ==> hunks[i].index == i
  }

  /** The lines a stored hunk claims are those of the patch, on both sides. */
  predicate Spans(h: Hunk, d: DiffHunk) {
    && h.oldStart == d.origStart && h.newStart == d.newStart && h.diffHunk == d.body
    && h.oldCount == d.origLines && h.newCount == d.newLines
    && (d.origLines > 0 ==> h.oldEnd - h.oldStart + 1 == d.origLines) && (d.origLines <= 0 ==> h.oldEnd == h.oldStart)
    && (d.newLines > 0 ==> h.newEnd - h.newStart + 1 == d.newLines) && (d.newLines <= 0 ==> h.newEnd == h.newStart)
  }

  /** The stored hunks are those of the patch, numbered in order. */
  predicate Shows(hunks: seq<Hunk>, patch: seq<DiffHunk>) {
    |hunks| == |patch| && Numbered(hunks) && forall i :: 0 <= i < |hunks| ==> Spans(hunks[i], patch[i])
  }

  /** There is one way to store them. */
  lemma ShownHunksAreUnique(a: seq<Hunk>, b: seq<Hunk>, patch: seq<DiffHunk>)
    requires Shows(a, patch) && Shows(b, patch)
    ensures a == b
  {
  }

  function HunksOf(diff: FileDiff): (hunks: seq<Hunk>)
    ensures Shows(hunks, diff.hunks)
  {
    seq(|diff.hunks|, i requires 0 <= i < |diff.hunks| =>
      var h := diff.hunks[i];
      Hunk(i, h.body, h.origStart, h.origLines, RangeEnd(h.origStart, h.origLines), h.newStart, h.newLines, RangeEnd(h.newStart, h.newLines)))
  }

  /** parseFileHunks */
  method ParseFileHunks(diff: FileDiff) returns (hunks: seq<Hunk>)
    ensures hunks == HunksOf(diff) && Shows(hunks, diff.hunks)
  {
    hunks := [];
    for i := 0 to |diff.hunks|
      invariant |hunks| == i && Numbered(hunks)
      invariant forall j :: 0 <= j < i ==> hunks[j] == HunksOf(diff)[j]
    {
      var h := diff.hunks[i];
      hunks := hunks + [Hunk(i, h.body, h.origStart, h.origLines, RangeEnd(h.origStart, h.origLines),
                             h.newStart, h.newLines, RangeEnd(h.newStart, h.newLines))];
    }
  }

  /** Too long a patch, or too many changed lines, for its hunks to be stored. */
  predicate TooLarge(file: FileData, diff: FileDiff) {
    |diff.printed| > 1_000_000 || file.changes > 20_000
  }

  function Detailed(file: FileData, diff: FileDiff): FileData {
    var printed := file.(patchText := diff.printed, fileKind := if file.fileKind == "" then "text" else file.fileKind);
    if TooLarge(file, diff) then printed.(indexedAs := PATH_ONLY)
    else printed.(hunks := HunksOf(diff), indexedAs := if file.indexedAs == "" then FULL else file.indexedAs)
  }

  /** applyFileDiffDetails: the printed patch is kept whatever its size, the hunks only for files
      small enough. */
  method ApplyFileDiffDetails(file: ParsedFile, diff: FileDiff)
    modifies file
    ensures file.patchText == diff.printed && file.fileKind == (if old(file.fileKind) == "" then "text" else old(file.fileKind))
    ensures if |diff.printed| > 1_000_000 || file.changes > 20_000 then
              file.indexedAs == PATH_ONLY && file.hunks == old(file.hunks)
            else
              file.indexedAs == (if old(file.indexedAs) == "" then FULL else old(file.indexedAs))
              && |file.hunks| == |diff.hunks| && Numbered(file.hunks)
              && forall i :: 0 <= i < |file.hunks| ==> Spans(file.hunks[i], diff.hunks[i])
    ensures file.additions == old(file.additions) && file.deletions == old(file.deletions) && file.changes == old(file.changes)
    ensures file.previousPath == old(file.previousPath)
    ensures file.View() == Detailed(old(file.View()), diff)
  {
    file.patchText := diff.printed;
    if file.fileKind == "" {
      file.fileKind := "text";
    }
    if |diff.printed| > 1_000_000 || file.changes > 20_000 {
      file.indexedAs := PATH_ONLY;
      return;
    }
    file.hunks := ParseFileHunks(diff);
    if file.indexedAs == "" {
      file.indexedAs := FULL;
    }
  }

  /** The file a patch belongs to: the new name's, or the old one's if the file was removed. */
  function PatchPath(diff: FileDiff): string {
    var path := NormalizePatchPath(diff.newName);
    if path == "" || path == "/dev/null" then NormalizePatchPath(diff.origName) else path
  }

  /** A patch as git names it belongs to its path: that of the new name, or of the old one if the file was
      removed. */
  lemma PatchPathFindsFile(path: string, diff: FileDiff)
    requires path != "" && path != "/dev/null" && !IsSpace(path[|path| - 1])
    ensures diff.newName == "b/" + path ==> PatchPath(diff) == path
    ensures diff.newName == "/dev/null" && diff.origName == "a/" + path && !("b/" <= path) ==> PatchPath(diff) == path
  {
    NewNameFindsPath(path);
    OldNameFindsPath(path);
    TrimSpaceFixed("/dev/null");
    assert NormalizePatchPath("/dev/null") == "/dev/null";
  }

  function OneDetailed(files: map<string, FileData>, diff: FileDiff): map<string, FileData> {
    var path := PatchPath(diff);
    files[path := Detailed(if path in files then files[path] else Unlisted(path), diff)]
  }

  function AllDetailed(files: map<string, FileData>, diffs: seq<FileDiff>): map<string, FileData> {
    if diffs == [] then files else OneDetailed(AllDetailed(files, diffs[..|diffs| - 1]), diffs[|diffs| - 1])
  }

  /** The last patch of a path, if there is one. */
  function LastDiff(diffs: seq<FileDiff>, path: string): Option<FileDiff> {
    if diffs == [] then None
    else if PatchPath(diffs[|diffs| - 1]) == path then Some(diffs[|diffs| - 1])
    else LastDiff(diffs[..|diffs| - 1], path)
  }

  /** Some patch of a path whose hunks are not stored, for a file with this many changed lines. */
  predicate HasLargeDiff(diffs: seq<FileDiff>, path: string, changes: int) {
    exists i :: 0 <= i < |diffs| && PatchPath(diffs[i]) == path && (|diffs[i].printed| > 1_000_000 || changes > 20_000)
  }

  lemma HasLargeDiffOneMore(diffs: seq<FileDiff>, diff: FileDiff, path: string, changes: int)
    ensures HasLargeDiff(diffs + [diff], path, changes)
            <==> HasLargeDiff(diffs, path, changes) || (PatchPath(diff) == path && (|diff.printed| > 1_000_000 || changes > 20_000))
  {
    var all := diffs + [diff];
    assert all[|diffs|] == diff && forall i :: 0 <= i < |diffs| ==> all[i] == diffs[i];
    if HasLargeDiff(diffs, path, changes) {
      var i :| 0 <= i < |diffs| && PatchPath(diffs[i]) == path && (|diffs[i].printed| > 1_000_000 || changes > 20_000);
      assert all[i] == diffs[i];
    }
  }

  /** What patch details make of a file: they change its text, kind, mode and hunks and nothing else. The
      text is that of its last patch; the hunks are those of that patch unless it is too large; the file
      is fully indexed exactly if none of its patches is. */
  predicate PatchedBy(was: FileData, f: FileData, d: FileDiff, anyLarge: bool) {
    && f == was.(patchText := f.patchText, fileKind := f.fileKind, indexedAs := f.indexedAs, hunks := f.hunks)
    && f.patchText == d.printed && f.fileKind == (if was.fileKind == "" then "text" else was.fileKind)
    && (|d.printed| <= 1_000_000 && was.changes <= 20_000 ==> Shows(f.hunks, d.hunks))
    && f.indexedAs == if anyLarge then PATH_ONLY else FULL
  }

  lemma DetailedOnce(was: FileData, d: FileDiff)
    requires was.indexedAs == ""
    ensures PatchedBy(was, Detailed(was, d), d, |d.printed| > 1_000_000 || was.changes > 20_000)
  {
  }

  lemma DetailedAgain(was: FileData, f: FileData, earlier: FileDiff, anyLarge: bool, d: FileDiff)
    requires PatchedBy(was, f, earlier, anyLarge)
    ensures PatchedBy(was, Detailed(f, d), d, anyLarge || |d.printed| > 1_000_000 || was.changes > 20_000)
  {
  }

  lemma {:induction false} NoDiffNoLarge(diffs: seq<FileDiff>, path: string, changes: int)
    requires LastDiff(diffs, path).None?
    ensures !HasLargeDiff(diffs, path, changes)
  {
    if diffs != [] {
      var init, last := diffs[..|diffs| - 1], diffs[|diffs| - 1];
      NoDiffNoLarge(init, path, changes);
      assert diffs == init + [last];
      HasLargeDiffOneMore(init, last, path, changes);
    }
  }

  /** A file that no patch names stays as it is, any other is patched by its last one; a patch for a path
      without a file makes one. */
  ghost predicate Reached(files: map<string, FileData>, diffs: seq<FileDiff>, path: string) {
    var after, d, was := AllDetailed(files, diffs), LastDiff(diffs, path), if path in files then files[path] else Unlisted(path);
    && (path in after <==> path in files || d.Some?)
    && (path in after ==>
          if d.Some? then PatchedBy(was, after[path], d.value, HasLargeDiff(diffs, path, was.changes)) else after[path] == was)
  }

  lemma ReachedOneMore(files: map<string, FileData>, init: seq<FileDiff>, last: FileDiff, path: string)
    requires (path in files ==> files[path].indexedAs == "") && Reached(files, init, path)
    ensures Reached(files, init + [last], path)
  {
    var was := if path in files then files[path] else Unlisted(path);
    assert (init + [last])[..|init|] == init;
    HasLargeDiffOneMore(init, last, path, was.changes);
    if PatchPath(last) == path {
      if LastDiff(init, path).Some? {
        DetailedAgain(was, AllDetailed(files, init)[path], LastDiff(init, path).value, HasLargeDiff(init, path, was.changes), last);
      } else {
        NoDiffNoLarge(init, path, was.changes);
        DetailedOnce(was, last);
      }
    }
  }

  lemma {:induction false} PatchesReachFiles(files: map<string, FileData>, diffs: seq<FileDiff>, path: string)
    requires path in files ==> files[path].indexedAs == ""
    ensures Reached(files, diffs, path)
  {
    if diffs != [] {
      var init, last := diffs[..|diffs| - 1], diffs[|diffs| - 1];
      PatchesReachFiles(files, init, path);
      ReachedOneMore(files, init, last, path);
      assert diffs == init + [last];
    }
  }

  /** One turn of the loop of applyPatchDetails. */
  method ApplyPatch(files: map<string, ParsedFile>, diff: FileDiff) returns (updated: map<string, ParsedFile>)
    requires Keyed(files)
    modifies files.Values
    ensures Keyed(updated) && forall k :: k in updated ==> (k in files && updated[k] == files[k]) || fresh(updated[k])
    ensures Views(updated) == OneDetailed(old(Views(files)), diff)
  {
    updated := files;
    var path := PatchPath(diff);
    if path in files {
      ApplyFileDiffDetails(files[path], diff);
    } else {
      var file := new ParsedFile(Unlisted(path));
      ApplyFileDiffDetails(file, diff);
      updated := files[path := file];
    }
  }

  /** applyPatchDetails, for patches the diff library could parse. */
  method ApplyPatchDetails(files: map<string, ParsedFile>, diffs: seq<FileDiff>) returns (updated: map<string, ParsedFile>)
    requires Keyed(files)
    modifies files.Values
    ensures Keyed(updated) && forall k :: k in updated ==> (k in files && updated[k] == files[k]) || fresh(updated[k])
    ensures Views(updated) == AllDetailed(old(Views(files)), diffs)
  {
    updated := files;
    for i := 0 to |diffs|
      invariant Keyed(updated) && forall k :: k in updated ==> (k in files && updated[k] == files[k]) || fresh(updated[k])
      invariant Views(updated) == AllDetailed(old(Views(files)), diffs[..i])
    {
      assert diffs[..i + 1][..i] == diffs[..i];
      updated := ApplyPatch(updated, diffs[i]);
    }
    assert diffs[..|diffs|] == diffs;
  }

  /** Files as the merge leaves them, without text, hunks or mode. */
  predicate Plain(files: map<string, FileData>) {
    forall k :: k in files ==> files[k].path == k && files[k].hunks == [] && files[k].indexedAs == "" && files[k].patchText == ""
  }

  lemma MergedIsPlain(raws: seq<RawRecord>, stats: seq<NumstatRecord>)
    ensures Plain(Measured(Listed(raws), stats))
  {
    forall k | k in Measured(Listed(raws), stats)
      ensures var f := Measured(Listed(raws), stats)[k]; f.hunks == [] && f.indexedAs == "" && f.patchText == ""
    {
      MergeReadsBothLists(raws, stats, k);
    }
  }

  ghost predicate Oversized(merged: map<string, FileData>) {
    |merged| > 5000 || MapSum(ChangedLines(merged)) > 200000
  }

  /** The files of an index: path rows only if the diff is too large, and otherwise the merged files with
      the patches in them. */
  ghost function IndexedFiles(merged: map<string, FileData>, diffs: seq<FileDiff>): map<string, FileData> {
    if Oversized(merged) then map k | k in merged :: merged[k].(indexedAs := PATH_ONLY) else AllDetailed(merged, diffs)
  }

  /** Some file has a reduced mode. */
  ghost predicate Reduced(files: map<string, FileData>) {
    exists k :: k in files && files[k].indexedAs != "" && files[k].indexedAs != FULL
  }

  /** That is so exactly if a patch, or the file it is for, is too large. */
  lemma ReducedIffLargeDiff(merged: map<string, FileData>, diffs: seq<FileDiff>)
    requires forall k :: k in merged ==> merged[k].indexedAs == ""
    ensures Reduced(AllDetailed(merged, diffs))
            <==> exists path :: HasLargeDiff(diffs, path, if path in merged then merged[path].changes else 0)
  {
    if Reduced(AllDetailed(merged, diffs)) {
      var k :| k in AllDetailed(merged, diffs) && AllDetailed(merged, diffs)[k].indexedAs != "" && AllDetailed(merged, diffs)[k].indexedAs != FULL;
      PatchesReachFiles(merged, diffs, k);
      assert HasLargeDiff(diffs, k, if k in merged then merged[k].changes else 0);
    }
    if path :| HasLargeDiff(diffs, path, if path in merged then merged[path].changes else 0) {
      PatchesReachFiles(merged, diffs, path);
      if LastDiff(diffs, path).None? {
        NoDiffNoLarge(diffs, path, if path in merged then merged[path].changes else 0);
      } else {
        assert AllDetailed(merged, diffs)[path].indexedAs == PATH_ONLY;
      }
    }
  }

  method ReduceToPaths(files: map<string, ParsedFile>)
    requires Keyed(files)
    modifies files.Values
    ensures Keyed(files) && Views(files) == map k | k in old(Views(files)) :: old(Views(files))[k].(indexedAs := PATH_ONLY)
  {
    SetPullRequestFilesIndexMode(files, PATH_ONLY);
  }

  method AddDetail(files: map<string, ParsedFile>, diffs: seq<FileDiff>) returns (updated: map<string, ParsedFile>, indexedAs: string)
    requires Keyed(files)
    modifies files.Values
    ensures Keyed(updated) && forall k :: k in updated ==> (k in files && updated[k] == files[k]) || fresh(updated[k])
    ensures Views(updated) == AllDetailed(old(Views(files)), diffs)
    ensures indexedAs == if Reduced(Views(updated)) then MIXED else FULL
  {
    updated := ApplyPatchDetails(files, diffs);
    var mixed := PullRequestFilesMixed(updated);
    assert mixed <==> Reduced(Views(updated)) by {
      if k :| k in updated && updated[k].indexedAs != "" && updated[k].indexedAs != FULL {
        assert Views(updated)[k] == updated[k].View();
      }
    }
    indexedAs := if mixed then MIXED else FULL;
  }

  lemma ViewsSize(files: map<string, ParsedFile>)
    ensures |files| == |Views(files)|
  {
    assert files.Keys == Views(files).Keys;
    assert |files| == |files.Keys| && |Views(files)| == |Views(files).Keys|;
  }

  /** The part of loadPullRequestIndexFiles that follows the merge. */
  method IndexMergedFiles(files: map<string, ParsedFile>, diffs: seq<FileDiff>) returns (indexed: map<string, ParsedFile>, indexedAs: string)
    requires Keyed(files)
    modifies files.Values
    ensures Keyed(indexed) && forall k :: k in indexed ==> (k in files && indexed[k] == files[k]) || fresh(indexed[k])
    ensures Views(indexed) == IndexedFiles(old(Views(files)), diffs)
    ensures indexedAs == if Oversized(old(Views(files))) then OVERSIZED else if Reduced(Views(indexed)) then MIXED else FULL
  {
    ViewsSize(files);
    indexedAs := PullRequestIndexedAs(files);
    if indexedAs != FULL {
      ReduceToPaths(files);
      return files, indexedAs;
    }
    indexed, indexedAs := AddDetail(files, diffs);
  }

  /** loadPullRequestIndexFiles, from what git printed: too large a diff gets path rows only, a diff
      with a reduced file is mixed, and only a diff without one is full. */
  method LoadPullRequestIndexFiles(rawOut: string, numstatOut: string, diffs: seq<FileDiff>)
      returns (files: map<string, ParsedFile>, indexedAs: string)
    ensures Keyed(files) && forall k :: k in files ==> fresh(files[k])
    ensures var merged := Measured(Listed(ParseRawTokens(Tokens(rawOut))), ParseNumstatTokens(Tokens(numstatOut)));
            && Views(files) == IndexedFiles(merged, diffs)
            && indexedAs == if Oversized(merged) then OVERSIZED else if Reduced(Views(files)) then MIXED else FULL
  {
    var raws := ParseRawZ(rawOut);
    var stats := ParseNumstatZ(numstatOut);
    var merged := MergeFileMetadata(raws, stats);
    files, indexedAs := IndexMergedFiles(merged, diffs);
  }
}
