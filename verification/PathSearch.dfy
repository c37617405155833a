/** Pull requests that touch given paths: ten points a file, six more if its previous path is asked
    for, two for every distinct path shared (internal/httpapi/changes_search.go). */
module PathSearch {
  import opened Common
  import opened SearchMatches

  datatype FileRow = FileRow(number: int, path: string, previousPath: string)

  /** strings.Contains */
  predicate Contains(s: string, part: string) {
    exists i | 0 <= i <= |s| :: part <= s[i..]
  }

  function TrimSlashes(path: string): string {
    if path != "" && path[|path| - 1] == '/' then TrimSlashes(path[..|path| - 1]) else path
  }

  function AfterLastSlash(path: string): string {
    if path == "" || path[|path| - 1] == '/' then "" else AfterLastSlash(path[..|path| - 1]) + [path[|path| - 1]]
  }

  /** filepath.Base */
  function Base(path: string): string {
    if path == "" then "."
    else if TrimSlashes(path) == "" then "/"
    else AfterLastSlash(TrimSlashes(path))
  }

  predicate NoisyPath(path: string) {
    || Base(path) in {"package-lock.json", "pnpm-lock.yaml", "yarn.lock"}
    || Contains(path, "/vendor/") || Contains(path, "/__snapshots__/")
  }

  lemma ContainsMeans(s: string, part: string)
    ensures Contains(s, part) <==> exists a, b :: s == a + part + b
  {
    if Contains(s, part) {
      var i :| 0 <= i <= |s| && part <= s[i..];
      assert s == s[..i] + part + s[i + |part|..];
    }
    if a, b :| s == a + part + b {
      assert s[|a|..] == part + b;
    }
  }

  lemma {:induction false} AfterLastSlashIs(dir: string, name: string)
    requires '/' !in name && (dir == "" || dir[|dir| - 1] == '/')
    ensures AfterLastSlash(dir + name) == name
  {
    if name == "" {
      assert dir + name == dir;
    } else {
      var init := name[..|name| - 1];
      AfterLastSlashIs(dir, init);
      assert (dir + name)[..|dir + name| - 1] == dir + init;
      assert name == init + [name[|name| - 1]];
    }
  }

  /** The last name of a path, a slash behind it or not; the root and the empty path have their own. */
  lemma BaseIsLastName(dir: string, name: string)
    requires '/' !in name && name != "" && (dir == "" || dir[|dir| - 1] == '/')
    ensures Base(dir + name) == name && Base(dir + name + "/") == name
    ensures Base("") == "." && Base("/") == "/"
  {
    AfterLastSlashIs(dir, name);
    var path := dir + name;
    assert path[|path| - 1] == name[|name| - 1];
    assert (path + "/")[..|path|] == path;
    assert "/"[..0] == "";
  }

  /** Lock files are noise in whatever directory, and so is everything below a vendor or a snapshot
      directory; nothing else is. */
  lemma NoisyPaths(path: string, dir: string, name: string)
    requires dir == "" || dir[|dir| - 1] == '/'
    ensures name in {"package-lock.json", "pnpm-lock.yaml", "yarn.lock"} ==> NoisyPath(dir + name)
    ensures (exists a, b :: path == a + "/vendor/" + b || path == a + "/__snapshots__/" + b) ==> NoisyPath(path)
    ensures NoisyPath(path) ==>
              || Base(path) in {"package-lock.json", "pnpm-lock.yaml", "yarn.lock"}
              || exists a, b :: path == a + "/vendor/" + b || path == a + "/__snapshots__/" + b
  {
    if name in {"package-lock.json", "pnpm-lock.yaml", "yarn.lock"} {
      BaseIsLastName(dir, name);
    }
    ContainsMeans(path, "/vendor/");
    ContainsMeans(path, "/__snapshots__/");
  }

  // --------------------------------------------------- what the answer should be

  predicate Counts(f: FileRow, number: int) {
    f.number == number && !NoisyPath(f.path)
  }

  predicate Touched(files: seq<FileRow>, number: int) {
    exists i | 0 <= i < |files| :: Counts(files[i], number)
  }

  predicate Shares(files: seq<FileRow>, number: int, path: string) {
    exists i | 0 <= i < |files| :: Counts(files[i], number) && (files[i].path == path || files[i].previousPath == path)
  }

  function SharedPaths(files: seq<FileRow>, paths: seq<string>, number: int): set<string> {
    set p | p in paths && Shares(files, number, p)
  }

  function Points(f: FileRow, paths: seq<string>, number: int): int {
    if !Counts(f, number) then 0 else 10 + if f.previousPath != "" && f.previousPath in paths then 6 else 0
  }

  function FilePoints(files: seq<FileRow>, paths: seq<string>, number: int): int {
    if files == [] then 0 else FilePoints(files[..|files| - 1], paths, number) + Points(files[|files| - 1], paths, number)
  }

  function PathMatch(files: seq<FileRow>, paths: seq<string>, infos: Infos, number: int): Match {
    var shared := SharedPaths(files, paths, number);
    Match(number, InfoOf(infos, number), FilePoints(files, paths, number) + 2 * |shared|, shared, 0, {}, [],
          if |shared| > 0 then ["shared_paths"] else [])
  }

  /** One match for each pull request that has a file that counts. */
  ghost predicate IsPathAnswer(results: seq<Match>, files: seq<FileRow>, paths: seq<string>, infos: Infos) {
    && OnePerNumber(results)
    && (forall m :: m in results ==> Touched(files, m.number) && m == PathMatch(files, paths, infos, m.number))
    && (forall n :: Touched(files, n) ==> PathMatch(files, paths, infos, n) in results)
  }

  /** The rows of a pull request that are no noise, and those of them renamed from a path asked for. */
  function CountedRows(files: seq<FileRow>, number: int): set<int> {
    set i | 0 <= i < |files| && files[i].number == number && !NoisyPath(files[i].path)
  }

  function RenamedRows(files: seq<FileRow>, paths: seq<string>, number: int): set<int> {
    set i | 0 <= i < |files| && i in CountedRows(files, number) && files[i].previousPath != "" && files[i].previousPath in paths
  }

  lemma CountedOneMore(init: seq<FileRow>, last: FileRow, number: int)
    ensures |CountedRows(init + [last], number)|
            == |CountedRows(init, number)| + if last.number == number && !NoisyPath(last.path) then 1 else 0
    ensures |init| in CountedRows(init + [last], number) <==> last.number == number && !NoisyPath(last.path)
    ensures forall i :: 0 <= i < |init| ==> (i in CountedRows(init + [last], number) <==> i in CountedRows(init, number))
  {
    assert CountedRows(init + [last], number)
           == CountedRows(init, number) + if last.number == number && !NoisyPath(last.path) then {|init|} else {};
  }

  lemma RenamedOneMore(init: seq<FileRow>, last: FileRow, paths: seq<string>, number: int)
    ensures |RenamedRows(init + [last], paths, number)|
            == |RenamedRows(init, paths, number)|
               + if last.number == number && !NoisyPath(last.path) && last.previousPath != "" && last.previousPath in paths then 1 else 0
  {
    CountedOneMore(init, last, number);
    var renamed := last.number == number && !NoisyPath(last.path) && last.previousPath != "" && last.previousPath in paths;
    assert RenamedRows(init + [last], paths, number) == RenamedRows(init, paths, number) + if renamed then {|init|} else {};
  }

  lemma {:induction false} PointsOfRows(files: seq<FileRow>, paths: seq<string>, number: int)
    ensures FilePoints(files, paths, number) == 10 * |CountedRows(files, number)| + 6 * |RenamedRows(files, paths, number)|
  {
    if files == [] {
      assert CountedRows(files, number) == {} && RenamedRows(files, paths, number) == {};
    } else {
      var init, last := files[..|files| - 1], files[|files| - 1];
      PointsOfRows(init, paths, number);
      CountedOneMore(init, last, number);
      RenamedOneMore(init, last, paths, number);
      assert files == init + [last];
    }
  }

  /** What a match tells: ten points a row, six more for one renamed from a path asked for, two for each
      path asked for that one of the rows has or had; and there is one exactly if there is a row. */
  lemma PathMatchTells(files: seq<FileRow>, paths: seq<string>, infos: Infos, number: int)
    ensures var m := PathMatch(files, paths, infos, number);
            && m.number == number && m.overlappingHunks == 0
            && m.score == 10 * |CountedRows(files, number)| + 6 * |RenamedRows(files, paths, number)| + 2 * |m.sharedPaths|
            && (forall p :: p in m.sharedPaths <==>
                  p in paths && exists i :: i in CountedRows(files, number) && p in {files[i].path, files[i].previousPath})
            && m.reasons == if m.sharedPaths == {} then [] else ["shared_paths"]
    ensures Touched(files, number) <==> CountedRows(files, number) != {}
  {
    PointsOfRows(files, paths, number);
    if Touched(files, number) {
      var i :| 0 <= i < |files| && Counts(files[i], number);
      assert i in CountedRows(files, number);
    }
    forall p ensures Shares(files, number, p) <==> exists i :: i in CountedRows(files, number) && p in {files[i].path, files[i].previousPath} {
      if Shares(files, number, p) {
        var i :| 0 <= i < |files| && Counts(files[i], number) && (files[i].path == p || files[i].previousPath == p);
        assert i in CountedRows(files, number);
      }
    }
  }

  // ---------------------------------------------------------- the order of the rows

  lemma {:induction false} PointsJoin(a: seq<FileRow>, b: seq<FileRow>, paths: seq<string>, number: int)
    ensures FilePoints(a + b, paths, number) == FilePoints(a, paths, number) + FilePoints(b, paths, number)
  {
    if b == [] {
      assert a + b == a;
    } else {
      var init := b[..|b| - 1];
      PointsJoin(a, init, paths, number);
      assert (a + b)[..|a + b| - 1] == a + init;
    }
  }

  lemma PointsWithout(files: seq<FileRow>, i: nat, paths: seq<string>, number: int)
    requires i < |files|
    ensures FilePoints(files, paths, number)
            == FilePoints(files[..i] + files[i + 1..], paths, number) + Points(files[i], paths, number)
    ensures multiset(files) == multiset(files[..i] + files[i + 1..]) + multiset{files[i]}
  {
    assert files == files[..i] + [files[i]] + files[i + 1..];
    PointsJoin(files[..i] + [files[i]], files[i + 1..], paths, number);
    PointsJoin(files[..i], [files[i]], paths, number);
    PointsJoin(files[..i], files[i + 1..], paths, number);
    assert [files[i]][..0] == [];
  }

  lemma IndexIn(b: seq<FileRow>, a: seq<FileRow>, k: nat) returns (i: nat)
    requires multiset(a) == multiset(b) && k < |a|
    ensures i < |b| && b[i] == a[k]
  {
    assert a[k] in multiset(b);
    i :| 0 <= i < |b| && b[i] == a[k];
  }

  lemma SameRest(a: multiset<FileRow>, b: multiset<FileRow>, x: FileRow)
    requires a + multiset{x} == b + multiset{x}
    ensures a == b
  {
    assert a == (a + multiset{x}) - multiset{x};
    assert b == (b + multiset{x}) - multiset{x};
  }

  lemma {:induction false} PointsIgnoreOrder(a: seq<FileRow>, b: seq<FileRow>, paths: seq<string>, number: int)
    requires multiset(a) == multiset(b)
    ensures FilePoints(a, paths, number) == FilePoints(b, paths, number)
    decreases |a|
  {
    if a == [] {
      assert |multiset(b)| == 0;
    } else {
      var init, x := a[..|a| - 1], a[|a| - 1];
      assert init + a[|a|..] == init;
      PointsWithout(a, |a| - 1, paths, number);
      var i := IndexIn(b, a, |a| - 1);
      var rest := b[..i] + b[i + 1..];
      PointsWithout(b, i, paths, number);
      SameRest(multiset(init), multiset(rest), x);
      PointsIgnoreOrder(init, rest, paths, number);
    }
  }

  lemma SharingIgnoresOrder(a: seq<FileRow>, b: seq<FileRow>, number: int, path: string)
    requires forall f :: f in a ==> f in b
    ensures Shares(a, number, path) ==> Shares(b, number, path)
    ensures Touched(a, number) ==> Touched(b, number)
  {
    if Shares(a, number, path) {
      var i :| 0 <= i < |a| && Counts(a[i], number) && (a[i].path == path || a[i].previousPath == path);
      assert a[i] in b;
    }
    if Touched(a, number) {
      var i :| 0 <= i < |a| && Counts(a[i], number);
      assert a[i] in b;
    }
  }

  lemma MembersOf(a: seq<FileRow>, b: seq<FileRow>)
    requires multiset(a) == multiset(b)
    ensures forall f :: f in a ==> f in b
  {
    forall f | f in a ensures f in b {
      assert f in multiset(b);
    }
  }

  lemma MatchIgnoresOrder(a: seq<FileRow>, b: seq<FileRow>, paths: seq<string>, infos: Infos, number: int)
    requires multiset(a) == multiset(b)
    ensures PathMatch(a, paths, infos, number) == PathMatch(b, paths, infos, number)
    ensures Touched(a, number) <==> Touched(b, number)
  {
    PointsIgnoreOrder(a, b, paths, number);
    MembersOf(a, b);
    MembersOf(b, a);
    forall p ensures Shares(a, number, p) <==> Shares(b, number, p) {
      SharingIgnoresOrder(a, b, number, p);
      SharingIgnoresOrder(b, a, number, p);
    }
    SharingIgnoresOrder(a, b, number, "");
    SharingIgnoresOrder(b, a, number, "");
    assert SharedPaths(a, paths, number) == SharedPaths(b, paths, number);
  }

  /** The trimmed ranking depends only on the multiset of file rows: not on the order in which the
      database returns them, nor on the order in which the aggregates are listed. */
  lemma PathSearchIsFunctionOfRows(a: seq<FileRow>, b: seq<FileRow>, paths: seq<string>, infos: Infos,
                                   resultsA: seq<Match>, resultsB: seq<Match>, limit: nat)
    requires multiset(a) == multiset(b)
    requires IsPathAnswer(resultsA, a, paths, infos) && IsPathAnswer(resultsB, b, paths, infos)
    ensures TrimSearchMatches(SortSearchMatches(resultsA), limit) == TrimSearchMatches(SortSearchMatches(resultsB), limit)
    ensures IsTop(TrimSearchMatches(SortSearchMatches(resultsA), limit), resultsA, limit)
  {
    forall m ensures m in resultsA <==> m in resultsB {
      MatchIgnoresOrder(a, b, paths, infos, m.number);
    }
    SortAndTrimIsTop(resultsA, resultsB, limit);
  }

  // -------------------------------------------------------------------- the search

  datatype Aggregate = Aggregate(shared: set<string>, score: int)

  /** pathAggregate */
  class PathAggregate {
    var shared: set<string>
    var score: int

    constructor ()
      ensures View() == Aggregate({}, 0)
    {
      shared, score := {}, 0;
    }

    function View(): Aggregate
      reads this
    {
      Aggregate(shared, score)
    }

    /** updatePathAggregate */
    method Update(file: FileRow, paths: seq<string>)
      modifies this
      ensures View() == Updated(old(View()), file, paths)
    {
      for k := 0 to |paths|
        invariant score == old(score)
        invariant shared == old(shared) + set p | p in paths[..k] && (file.path == p || file.previousPath == p)
      {
        assert paths[..k + 1] == paths[..k] + [paths[k]];
        if file.path == paths[k] || file.previousPath == paths[k] {
          shared := shared + {paths[k]};
        }
      }
      assert paths[..|paths|] == paths;
      score := score + 10;
      if file.previousPath != "" && file.previousPath in paths {
        score := score + 6;
      }
    }
  }

  function Updated(a: Aggregate, file: FileRow, paths: seq<string>): Aggregate {
    Aggregate(a.shared + (set p | p in paths && (file.path == p || file.previousPath == p)),
              a.score + 10 + if file.previousPath != "" && file.previousPath in paths then 6 else 0)
  }

  function AggregateOf(files: seq<FileRow>, paths: seq<string>, number: int): Aggregate {
    Aggregate(SharedPaths(files, paths, number), FilePoints(files, paths, number))
  }

  lemma AggregateOfOneMore(files: seq<FileRow>, file: FileRow, paths: seq<string>, number: int)
    ensures AggregateOf(files + [file], paths, number)
            == if Counts(file, number) then Updated(AggregateOf(files, paths, number), file, paths) else AggregateOf(files, paths, number)
    ensures Touched(files + [file], number) <==> Touched(files, number) || Counts(file, number)
    ensures !Touched(files, number) ==> AggregateOf(files, paths, number) == Aggregate({}, 0)
  {
    var more := files + [file];
    assert more[..|files|] == files;
    forall p ensures Shares(more, number, p)
                     <==> Shares(files, number, p) || (Counts(file, number) && (file.path == p || file.previousPath == p))
    {
      SharingIgnoresOrder(files, more, number, p);
      if Counts(file, number) && (file.path == p || file.previousPath == p) {
        assert Counts(more[|files|], number);
      }
    }
    SharingIgnoresOrder(files, more, number, "");
    if Counts(file, number) {
      assert Counts(more[|files|], number);
    }
    if !Touched(files, number) {
      UntouchedScoresNothing(files, paths, number);
    }
  }

  lemma {:induction false} UntouchedScoresNothing(files: seq<FileRow>, paths: seq<string>, number: int)
    requires !Touched(files, number)
    ensures FilePoints(files, paths, number) == 0
  {
    if files != [] {
      var init := files[..|files| - 1];
      SharingIgnoresOrder(init, files, number, "");
      assert !Counts(files[|files| - 1], number);
      UntouchedScoresNothing(init, paths, number);
    }
  }

  ghost predicate Aggregated(agg: map<int, PathAggregate>, files: seq<FileRow>, paths: seq<string>)
    reads agg.Values
  {
    && (forall n :: n in agg <==> Touched(files, n))
    && (forall n :: n in agg ==> agg[n].View() == AggregateOf(files, paths, n))
    && (forall n, k :: n in agg && k in agg && n != k ==> agg[n] != agg[k])
  }

  /** newPathSearchMatch */
  method NewPathSearchMatch(number: int, entry: PathAggregate, info: string) returns (m: Match)
    ensures m == Match(number, info, entry.score + 2 * |entry.shared|, entry.shared, 0, {}, [],
                       if |entry.shared| > 0 then ["shared_paths"] else [])
  {
    var reasons: seq<string> := [];
    if |entry.shared| > 0 {
      reasons := reasons + ["shared_paths"];
    }
    m := Match(number, info, entry.score + |entry.shared| * 2, entry.shared, 0, {}, [], reasons);
  }

  /** The first loop of buildPathSearchMatches. */
  method AggregatePaths(files: seq<FileRow>, paths: seq<string>) returns (agg: map<int, PathAggregate>)
    ensures Aggregated(agg, files, paths) && forall n :: n in agg ==> fresh(agg[n])
  {
    agg := map[];
    for k := 0 to |files|
      invariant Aggregated(agg, files[..k], paths) && forall n :: n in agg ==> fresh(agg[n])
    {
      var file := files[k];
      assert files[..k + 1] == files[..k] + [file];
      forall n {
        AggregateOfOneMore(files[..k], file, paths, n);
      }
      if NoisyPath(file.path) {
        continue;
      }
      if file.number !in agg {
        var entry := new PathAggregate();
        agg := agg[file.number := entry];
      }
      agg[file.number].Update(file, paths);
    }
    assert files[..|files|] == files;
  }

  /** buildPathSearchMatches: the aggregates are listed in the map's own order. */
  method BuildPathSearchMatches(files: seq<FileRow>, paths: seq<string>, infos: Infos) returns (results: seq<Match>)
    ensures IsPathAnswer(results, files, paths, infos)
  {
    var agg := AggregatePaths(files, paths);
    results := [];
    var numbers := agg.Keys;
    while numbers != {}
      invariant Aggregated(agg, files, paths) && numbers <= agg.Keys && OnePerNumber(results)
      invariant forall m :: m in results ==> m.number in agg && m.number !in numbers && m == PathMatch(files, paths, infos, m.number)
      invariant forall n :: n in agg && n !in numbers ==> PathMatch(files, paths, infos, n) in results
    {
      HasNumber(numbers);
      var n :| n in numbers;
      var m := NewPathSearchMatch(n, agg[n], InfoOf(infos, n));
      assert agg[n].View() == AggregateOf(files, paths, n);
      assert m == PathMatch(files, paths, infos, n);
      results := results + [m];
      numbers := numbers - {n};
    }
  }

  /** searchByPaths, from the rows the database returned: the best `limit` pull requests. */
  method SearchByPaths(files: seq<FileRow>, paths: seq<string>, infos: Infos, limit: nat) returns (top: seq<Match>)
    ensures exists results :: IsPathAnswer(results, files, paths, infos) && IsTop(top, results, limit)
                              && top == TrimSearchMatches(SortSearchMatches(results), limit)
  {
    var results := BuildPathSearchMatches(files, paths, infos);
    top := TrimSearchMatches(SortSearchMatches(results), limit);
    SortAndTrimIsTop(results, results, limit);
  }
}
