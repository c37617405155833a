/** The repair engine: pages of two upstream lists compared with what is stored, stale objects
    fetched and stored, and passes that resume at the page where the last one stopped
    (internal/githubsync/repair_engine.go, change_sync.go). Of a stored row only its number and
    its github_updated_at matter here. */
module Repair {
  import opened Common

  /** One listed object. The pull list holds pulls only, the issue list both kinds. */
  datatype Item = Item(number: int, updatedAt: int, isPull: bool)

  /** What GitHub answers: the two lists, most recently updated first, and the objects by number. */
  datatype Upstream = Upstream(pulls: seq<Item>, issues: seq<Item>,
                               pullObjects: map<int, int>, issueObjects: map<int, int>)

  predicate NewestFirst(items: seq<Item>) {
    forall i, j :: 0 <= i <= j < |items| ==> items[i].updatedAt >= items[j].updatedAt
  }

  /** An object fetched after it was listed is at least as new as the listed item. */
  predicate Faithful(u: Upstream) {
    && (forall p :: p in u.pulls && p.number in u.pullObjects ==> u.pullObjects[p.number] >= p.updatedAt)
    && (forall i :: i in u.issues && i.number in u.issueObjects ==> u.issueObjects[i.number] >= i.updatedAt)
  }

  /** Every listed number can be fetched. */
  predicate Reachable(u: Upstream) {
    && (forall p :: p in u.pulls ==> p.number in u.pullObjects && p.number in u.issueObjects)
    && (forall i :: i in u.issues ==> i.number in u.issueObjects)
  }

  function PageOf<T>(list: seq<T>, page: int, perPage: int): (items: seq<T>)
    requires page >= 1 && perPage >= 1
    ensures forall i {:trigger items[i]} :: 0 <= i < |items| ==>
              (page - 1) * perPage + i < |list| && items[i] == list[(page - 1) * perPage + i]
  {
    var from := (page - 1) * perPage;
    if from >= |list| then [] else if from + perPage > |list| then list[from..] else list[from..from + perPage]
  }

  /** What was updated at the cutoff itself is not older; without a cutoff nothing is. */
  lemma CutoffIsIncluded(updatedAt: int, cutoff: int)
    ensures Older(updatedAt, Some(cutoff)) <==> updatedAt <= cutoff - 1
    ensures !Older(updatedAt, None)
  {
  }

  predicate Older(updatedAt: int, cutoff: Option<int>) {
    cutoff.Some? && updatedAt < cutoff.value
  }

  /** How many items of a page come before the first one older than the cutoff. */
  function FreshItems(items: seq<Item>, cutoff: Option<int>): (k: nat)
    ensures k <= |items|
    ensures forall i :: 0 <= i < k ==> !Older(items[i].updatedAt, cutoff)
    ensures k < |items| ==> Older(items[k].updatedAt, cutoff)
  {
    if items == [] || Older(items[0].updatedAt, cutoff) then 0 else 1 + FreshItems(items[1..], cutoff)
  }

  predicate ListDone(items: seq<Item>, cutoff: Option<int>) {
    items == [] || FreshItems(items, cutoff) < |items|
  }

  // ----------------------------------------------------------- the stored rows

  datatype Tables = Tables(pulls: map<int, int>, issues: map<int, int>)

  /** No row is gone and none is older. */
  ghost predicate NotOlder(before: Tables, after: Tables) {
    && (forall n :: n in before.pulls ==> n in after.pulls && after.pulls[n] >= before.pulls[n])
    && (forall n :: n in before.issues ==> n in after.issues && after.issues[n] >= before.issues[n])
  }

  /** A row that changed, or is new, has a time that upstream has for its number. An issue row may come
      from either object, as a pull brings its issue along. */
  ghost predicate FromUpstream(before: Tables, after: Tables, u: Upstream) {
    && (forall n :: n in after.pulls ==>
          || (n in before.pulls && after.pulls[n] == before.pulls[n])
          || (n in u.pullObjects && after.pulls[n] == u.pullObjects[n]))
    && (forall n :: n in after.issues ==>
          || (n in before.issues && after.issues[n] == before.issues[n])
          || (n in u.issueObjects && after.issues[n] == u.issueObjects[n])
          || (n in u.pullObjects && after.issues[n] == u.pullObjects[n]))
  }

  /** What repairs do to the tables. */
  ghost predicate Repaired(before: Tables, after: Tables, u: Upstream) {
    NotOlder(before, after) && FromUpstream(before, after, u)
  }

  lemma RepairedTwice(a: Tables, b: Tables, c: Tables, u: Upstream)
    requires Repaired(a, b, u) && Repaired(b, c, u)
    ensures Repaired(a, c, u)
  {
  }

  function WithIssue(t: Tables, number: int, updatedAt: int): Tables {
    t.(issues := t.issues[number := if number in t.issues then Max(t.issues[number], updatedAt) else updatedAt])
  }

  function WithPull(t: Tables, number: int, updatedAt: int): Tables {
    WithIssue(t, number, updatedAt).(pulls := t.pulls[number := if number in t.pulls then Max(t.pulls[number], updatedAt) else updatedAt])
  }

  predicate StoredAtLeast(rows: map<int, int>, number: int, updatedAt: int) {
    number in rows && rows[number] >= updatedAt
  }

  predicate PullCovered(t: Tables, p: Item) {
    StoredAtLeast(t.pulls, p.number, p.updatedAt) && p.number in t.issues
  }

  predicate IssueCovered(t: Tables, i: Item) {
    i.isPull ==> StoredAtLeast(t.issues, i.number, i.updatedAt)
  }

  class Store {
    var pulls: map<int, int>
    var issues: map<int, int>

    function View(): Tables
      reads this
    {
      Tables(pulls, issues)
    }

    /** upsertIssue keeps the newer of the stored and the given row. */
    method UpsertIssue(number: int, updatedAt: int)
      modifies this
      ensures pulls == old(pulls)
      ensures issues == old(issues)[number := if number in old(issues) then Max(old(issues)[number], updatedAt) else updatedAt]
    {
      if number !in issues || updatedAt > issues[number] {
        issues := issues[number := updatedAt];
      }
    }

    /** upsertPullRequest first makes sure of the issue row. */
    method UpsertPullRequest(number: int, updatedAt: int)
      modifies this
      ensures issues == old(issues)[number := if number in old(issues) then Max(old(issues)[number], updatedAt) else updatedAt]
      ensures pulls == old(pulls)[number := if number in old(pulls) then Max(old(pulls)[number], updatedAt) else updatedAt]
    {
      UpsertIssue(number, updatedAt);
      if number !in pulls || updatedAt > pulls[number] {
        pulls := pulls[number := updatedAt];
      }
    }
  }

  /** repairPassMetrics, one object that all page loops of a pass update. */
  class Metrics {
    var pullsScanned: int
    var issuesScanned: int
    var pullsStale: int
    var issuesStale: int
    var pullsUnchanged: int
    var issuesUnchanged: int
    var pullFetches: int
    var issueFetches: int
    var pullsRepaired: int
    var issuesRepaired: int
    var applyWrites: int
    var completed: bool
    var nextPage: int

    constructor (startPage: int)
      ensures Balanced() && !completed && nextPage == startPage
    {
      pullsScanned, issuesScanned, pullsStale, issuesStale, pullsUnchanged, issuesUnchanged := 0, 0, 0, 0, 0, 0;
      pullFetches, issueFetches, pullsRepaired, issuesRepaired, applyWrites := 0, 0, 0, 0, 0;
      completed, nextPage := false, startPage;
    }

    function Resume(): (bool, int)
      reads this
    {
      (completed, nextPage)
    }

    /** Every scanned pull is judged once as a pull and once for its issue row, every scanned issue
        once, and every write is a fetch that was repaired. */
    predicate Balanced()
      reads this
    {
      && pullsScanned == pullsStale + pullsUnchanged
      && pullsScanned + issuesScanned == issuesStale + issuesUnchanged
      && pullFetches == pullsRepaired && issueFetches == issuesRepaired
      && applyWrites == pullsRepaired + issuesRepaired
    }

    method CountPull(stale: bool, issueMissing: bool)
      requires Balanced()
      modifies this
      ensures Balanced() && Resume() == old(Resume())
      ensures pullsScanned == old(pullsScanned) + 1
      ensures pullsStale == old(pullsStale) + (if stale then 1 else 0) && issuesStale == old(issuesStale) + if issueMissing then 1 else 0
    {
      pullsScanned := pullsScanned + 1;
      if stale {
        pullsStale := pullsStale + 1;
      } else {
        pullsUnchanged := pullsUnchanged + 1;
      }
      if issueMissing {
        issuesStale := issuesStale + 1;
      } else {
        issuesUnchanged := issuesUnchanged + 1;
      }
    }

    method CountIssue(stale: bool)
      requires Balanced()
      modifies this
      ensures Balanced() && Resume() == old(Resume())
      ensures issuesScanned == old(issuesScanned) + 1 && issuesStale == old(issuesStale) + if stale then 1 else 0
    {
      issuesScanned := issuesScanned + 1;
      if stale {
        issuesStale := issuesStale + 1;
      } else {
        issuesUnchanged := issuesUnchanged + 1;
      }
    }

    method CountIssueRepair()
      requires Balanced()
      modifies this
      ensures Balanced() && Resume() == old(Resume()) && issuesRepaired == old(issuesRepaired) + 1
    {
      issueFetches := issueFetches + 1;
      issuesRepaired := issuesRepaired + 1;
      applyWrites := applyWrites + 1;
    }

    method CountPullRepair()
      requires Balanced()
      modifies this
      ensures Balanced() && Resume() == old(Resume()) && pullsRepaired == old(pullsRepaired) + 1
    {
      pullFetches := pullFetches + 1;
      pullsRepaired := pullsRepaired + 1;
      applyWrites := applyWrites + 1;
    }
  }

  datatype Plan = Plan(pullNumbers: seq<int>, issueNumbers: seq<int>)

  /** scanRepairPullCandidates */
  method ScanRepairPullCandidates(pulls: seq<Item>, cutoff: Option<int>) returns (current: seq<Item>, done: bool)
    ensures current == pulls[..FreshItems(pulls, cutoff)] && done == ListDone(pulls, cutoff)
  {
    if pulls == [] {
      return [], true;
    }
    current, done := [], false;
    var k := 0;
    while k < |pulls|
      invariant 0 <= k <= |pulls| && current == pulls[..k] && !done
      invariant forall i :: 0 <= i < k ==> !Older(pulls[i].updatedAt, cutoff)
    {
      if Older(pulls[k].updatedAt, cutoff) {
        done := true;
        break;
      }
      current := current + [pulls[k]];
      k := k + 1;
    }
    assert k == FreshItems(pulls, cutoff);
    if current == [] {
      done := true;
    }
  }

  function OnlyPulls(issues: seq<Item>): seq<Item> {
    if issues == [] then []
    else OnlyPulls(issues[..|issues| - 1]) + if issues[|issues| - 1].isPull then [issues[|issues| - 1]] else []
  }

  lemma {:induction false} OnlyPullsKept(issues: seq<Item>)
    ensures forall i :: i in OnlyPulls(issues) <==> i in issues && i.isPull
  {
    if issues != [] {
      OnlyPullsKept(issues[..|issues| - 1]);
      assert issues == issues[..|issues| - 1] + [issues[|issues| - 1]];
    }
  }

  /** scanRepairIssueCandidates: issues that are no pull requests are passed over. */
  method ScanRepairIssueCandidates(issues: seq<Item>, cutoff: Option<int>) returns (current: seq<Item>, done: bool)
    ensures current == OnlyPulls(issues[..FreshItems(issues, cutoff)]) && done == ListDone(issues, cutoff)
  {
    if issues == [] {
      return [], true;
    }
    current, done := [], false;
    var k := 0;
    while k < |issues|
      invariant 0 <= k <= |issues| && current == OnlyPulls(issues[..k]) && !done
      invariant forall i :: 0 <= i < k ==> !Older(issues[i].updatedAt, cutoff)
    {
      if Older(issues[k].updatedAt, cutoff) {
        done := true;
        break;
      }
      assert issues[..k + 1][..k] == issues[..k];
      if issues[k].isPull {
        current := current + [issues[k]];
      }
      k := k + 1;
    }
    assert k == FreshItems(issues, cutoff);
  }

  /** What a plan drawn up from these pulls leaves out is already stored. */
  ghost predicate PlansPulls(t: Tables, pulls: seq<Item>, plan: Plan) {
    && (forall p :: p in pulls ==> StoredAtLeast(t.pulls, p.number, p.updatedAt) || p.number in plan.pullNumbers)
    && (forall p :: p in pulls ==> p.number in t.issues || p.number in plan.issueNumbers)
  }

  ghost predicate PlansIssues(t: Tables, issues: seq<Item>, plan: Plan) {
    forall i :: i in issues ==> StoredAtLeast(t.issues, i.number, i.updatedAt) || i.number in plan.issueNumbers
  }

  /** A plan asks for nothing that upstream does not have. */
  predicate Fetchable(u: Upstream, plan: Plan) {
    && (forall n :: n in plan.issueNumbers ==> n in u.issueObjects)
    && (forall n :: n in plan.pullNumbers ==> n in u.pullObjects)
  }

  /** The listed numbers whose stored row is missing or older, in order. */
  function StaleNumbers(rows: map<int, int>, items: seq<Item>): seq<int> {
    if items == [] then []
    else
      var last := items[|items| - 1];
      StaleNumbers(rows, items[..|items| - 1]) + if StoredAtLeast(rows, last.number, last.updatedAt) then [] else [last.number]
  }

  /** The listed numbers without a stored row, in order. */
  function MissingNumbers(rows: map<int, int>, items: seq<Item>): seq<int> {
    if items == [] then []
    else
      var last := items[|items| - 1];
      MissingNumbers(rows, items[..|items| - 1]) + if last.number in rows then [] else [last.number]
  }

  /** A number is planned exactly if some listed item of it is not stored as new as listed, or not stored
      at all; nothing that is stored fresh is planned. */
  lemma {:induction false} WhatIsPlanned(rows: map<int, int>, items: seq<Item>)
    ensures forall n :: n in StaleNumbers(rows, items) <==>
              exists p :: p in items && p.number == n && (n in rows ==> rows[n] < p.updatedAt)
    ensures forall n :: n in MissingNumbers(rows, items) <==> n !in rows && exists p :: p in items && p.number == n
  {
    if items != [] {
      var init, last := items[..|items| - 1], items[|items| - 1];
      WhatIsPlanned(rows, init);
      assert forall p :: p in items <==> p in init || p == last;
    }
  }

  /** If everything listed is stored fresh there is nothing to repair. */
  lemma NothingPlanned(rows: map<int, int>, items: seq<Item>)
    ensures (forall p :: p in items ==> StoredAtLeast(rows, p.number, p.updatedAt)) ==> StaleNumbers(rows, items) == []
    ensures (forall p :: p in items ==> p.number in rows) ==> MissingNumbers(rows, items) == []
  {
    WhatIsPlanned(rows, items);
    if StaleNumbers(rows, items) != [] {
      assert StaleNumbers(rows, items)[0] in StaleNumbers(rows, items);
    }
    if MissingNumbers(rows, items) != [] {
      assert MissingNumbers(rows, items)[0] in MissingNumbers(rows, items);
    }
  }

  /** detectStalePulls */
  method DetectStalePulls(store: Store, pulls: seq<Item>, metrics: Metrics) returns (plan: Plan)
    requires metrics.Balanced()
    modifies metrics
    ensures metrics.Balanced() && metrics.Resume() == old(metrics.Resume())
    ensures plan == Plan(StaleNumbers(store.pulls, pulls), MissingNumbers(store.issues, pulls))
    ensures metrics.pullsScanned == old(metrics.pullsScanned) + |pulls|
    ensures metrics.pullsStale == old(metrics.pullsStale) + |plan.pullNumbers|
    ensures metrics.issuesStale == old(metrics.issuesStale) + |plan.issueNumbers|
  {
    plan := Plan([], []);
    for k := 0 to |pulls|
      invariant metrics.Balanced() && metrics.Resume() == old(metrics.Resume())
      invariant plan == Plan(StaleNumbers(store.pulls, pulls[..k]), MissingNumbers(store.issues, pulls[..k]))
      invariant metrics.pullsScanned == old(metrics.pullsScanned) + k
      invariant metrics.pullsStale == old(metrics.pullsStale) + |plan.pullNumbers|
      invariant metrics.issuesStale == old(metrics.issuesStale) + |plan.issueNumbers|
    {
      var pull := pulls[k];
      assert pulls[..k + 1][..k] == pulls[..k];
      var stale := pull.number !in store.pulls || store.pulls[pull.number] < pull.updatedAt;
      var issueMissing := pull.number !in store.issues;
      metrics.CountPull(stale, issueMissing);
      if stale {
        plan := plan.(pullNumbers := plan.pullNumbers + [pull.number]);
      }
      if issueMissing {
        plan := plan.(issueNumbers := plan.issueNumbers + [pull.number]);
      }
    }
    assert pulls[..|pulls|] == pulls;
  }

  /** detectStaleIssues */
  method DetectStaleIssues(store: Store, issues: seq<Item>, metrics: Metrics) returns (plan: Plan)
    requires metrics.Balanced()
    modifies metrics
    ensures metrics.Balanced() && metrics.Resume() == old(metrics.Resume())
    ensures plan == Plan([], StaleNumbers(store.issues, issues))
    ensures metrics.issuesScanned == old(metrics.issuesScanned) + |issues|
    ensures metrics.issuesStale == old(metrics.issuesStale) + |plan.issueNumbers|
  {
    plan := Plan([], []);
    for k := 0 to |issues|
      invariant metrics.Balanced() && metrics.Resume() == old(metrics.Resume())
      invariant plan == Plan([], StaleNumbers(store.issues, issues[..k]))
      invariant metrics.issuesScanned == old(metrics.issuesScanned) + k
      invariant metrics.issuesStale == old(metrics.issuesStale) + |plan.issueNumbers|
    {
      var issue := issues[k];
      assert issues[..k + 1][..k] == issues[..k];
      var stale := issue.number !in store.issues || store.issues[issue.number] < issue.updatedAt;
      metrics.CountIssue(stale);
      if stale {
        plan := plan.(issueNumbers := plan.issueNumbers + [issue.number]);
      }
    }
    assert issues[..|issues|] == issues;
  }

  /** The seen-set loop of mergeRepairPlans and uniqueInts. */
  method AppendUnseen(into: seq<int>, numbers: seq<int>) returns (merged: seq<int>)
    requires NoDuplicates(into)
    ensures NoDuplicates(merged) && into <= merged
    ensures forall n :: n in merged <==> n in into || n in numbers
    ensures numbers == [] ==> merged == into
  {
    merged := into;
    for k := 0 to |numbers|
      invariant NoDuplicates(merged) && into <= merged && (k == 0 ==> merged == into)
      invariant forall n :: n in merged <==> n in into || n in numbers[..k]
    {
      assert numbers[..k + 1] == numbers[..k] + [numbers[k]];
      if numbers[k] !in merged {
        merged := merged + [numbers[k]];
      }
    }
    assert numbers[..|numbers|] == numbers;
  }

  predicate NoDuplicates(numbers: seq<int>) {
    forall i, j :: 0 <= i < j < |numbers| ==> numbers[i] != numbers[j]
  }

  method MergeRepairPlans(a: Plan, b: Plan) returns (merged: Plan)
    ensures NoDuplicates(merged.pullNumbers) && NoDuplicates(merged.issueNumbers)
    ensures forall n :: n in merged.pullNumbers <==> n in a.pullNumbers || n in b.pullNumbers
    ensures forall n :: n in merged.issueNumbers <==> n in a.issueNumbers || n in b.issueNumbers
    ensures a == Plan([], []) && b == Plan([], []) ==> merged == Plan([], [])
  {
    var pulls := AppendUnseen([], a.pullNumbers);
    var issues := AppendUnseen([], a.issueNumbers);
    pulls := AppendUnseen(pulls, b.pullNumbers);
    issues := AppendUnseen(issues, b.issueNumbers);
    merged := Plan(pulls, issues);
  }

  ghost predicate IssuesApplied(start: Tables, now: Tables, u: Upstream, numbers: seq<int>, k: nat) {
    && k <= |numbers| && Repaired(start, now, u) && (k == 0 ==> now == start)
    && forall i :: 0 <= i < k ==> numbers[i] in u.issueObjects && StoredAtLeast(now.issues, numbers[i], u.issueObjects[numbers[i]])
  }

  lemma IssuesAppliedOneMore(start: Tables, before: Tables, u: Upstream, numbers: seq<int>, k: nat)
    requires k < |numbers| && IssuesApplied(start, before, u, numbers, k) && numbers[k] in u.issueObjects
    ensures IssuesApplied(start, WithIssue(before, numbers[k], u.issueObjects[numbers[k]]), u, numbers, k + 1)
  {
    var now := WithIssue(before, numbers[k], u.issueObjects[numbers[k]]);
    assert Repaired(before, now, u);
    RepairedTwice(start, before, now, u);
  }

  /** The first loop of applyRepairPlan; a fetch of something upstream does not have is an error
      that ends the pass. */
  method ApplyIssueRepairs(store: Store, u: Upstream, numbers: seq<int>, metrics: Metrics) returns (ok: bool)
    requires metrics.Balanced()
    modifies store, metrics
    ensures metrics.Balanced() && metrics.Resume() == old(metrics.Resume())
    ensures Repaired(old(store.View()), store.View(), u) && (numbers == [] ==> store.View() == old(store.View()))
    ensures ok <==> forall n :: n in numbers ==> n in u.issueObjects
    ensures ok ==> forall n :: n in numbers ==> StoredAtLeast(store.issues, n, u.issueObjects[n])
    ensures ok ==> metrics.issuesRepaired == old(metrics.issuesRepaired) + |numbers|
  {
    ghost var start := store.View();
    for k := 0 to |numbers|
      invariant metrics.Balanced() && metrics.Resume() == old(metrics.Resume())
      invariant IssuesApplied(start, store.View(), u, numbers, k)
      invariant metrics.issuesRepaired == old(metrics.issuesRepaired) + k
    {
      var number := numbers[k];
      if number !in u.issueObjects {
        return false;
      }
      IssuesAppliedOneMore(start, store.View(), u, numbers, k);
      store.UpsertIssue(number, u.issueObjects[number]);
      metrics.CountIssueRepair();
    }
    ok := true;
  }

  ghost predicate PullsApplied(start: Tables, now: Tables, u: Upstream, numbers: seq<int>, k: nat) {
    && k <= |numbers| && Repaired(start, now, u) && (k == 0 ==> now == start)
    && forall i :: 0 <= i < k ==> numbers[i] in u.pullObjects && StoredAtLeast(now.pulls, numbers[i], u.pullObjects[numbers[i]])
  }

  lemma PullsAppliedOneMore(start: Tables, before: Tables, u: Upstream, numbers: seq<int>, k: nat)
    requires k < |numbers| && PullsApplied(start, before, u, numbers, k) && numbers[k] in u.pullObjects
    ensures PullsApplied(start, WithPull(before, numbers[k], u.pullObjects[numbers[k]]), u, numbers, k + 1)
  {
    var now := WithPull(before, numbers[k], u.pullObjects[numbers[k]]);
    assert Repaired(before, now, u);
    RepairedTwice(start, before, now, u);
  }

  method ApplyPullRepairs(store: Store, u: Upstream, numbers: seq<int>, metrics: Metrics) returns (ok: bool)
    requires metrics.Balanced()
    modifies store, metrics
    ensures metrics.Balanced() && metrics.Resume() == old(metrics.Resume())
    ensures Repaired(old(store.View()), store.View(), u) && (numbers == [] ==> store.View() == old(store.View()))
    ensures ok <==> forall n :: n in numbers ==> n in u.pullObjects
    ensures ok ==> forall n :: n in numbers ==> StoredAtLeast(store.pulls, n, u.pullObjects[n])
    ensures ok ==> metrics.pullsRepaired == old(metrics.pullsRepaired) + |numbers|
  {
    ghost var start := store.View();
    for k := 0 to |numbers|
      invariant metrics.Balanced() && metrics.Resume() == old(metrics.Resume())
      invariant PullsApplied(start, store.View(), u, numbers, k)
      invariant metrics.pullsRepaired == old(metrics.pullsRepaired) + k
    {
      var number := numbers[k];
      if number !in u.pullObjects {
        return false;
      }
      PullsAppliedOneMore(start, store.View(), u, numbers, k);
      store.UpsertPullRequest(number, u.pullObjects[number]);
      metrics.CountPullRepair();
    }
    ok := true;
  }

  ghost predicate Applied(t: Tables, u: Upstream, plan: Plan) {
    && Fetchable(u, plan)
    && (forall n :: n in plan.issueNumbers ==> StoredAtLeast(t.issues, n, u.issueObjects[n]))
    && (forall n :: n in plan.pullNumbers ==> StoredAtLeast(t.pulls, n, u.pullObjects[n]))
  }

  /** applyRepairPlan: issues first. */
  method ApplyRepairPlan(store: Store, u: Upstream, plan: Plan, metrics: Metrics) returns (ok: bool)
    requires metrics.Balanced()
    modifies store, metrics
    ensures metrics.Balanced() && metrics.Resume() == old(metrics.Resume())
    ensures Repaired(old(store.View()), store.View(), u)
    ensures plan == Plan([], []) ==> store.View() == old(store.View())
    ensures ok <==> Fetchable(u, plan)
    ensures ok ==> Applied(store.View(), u, plan)
  {
    ghost var before := store.View();
    ok := ApplyIssueRepairs(store, u, plan.issueNumbers, metrics);
    if ok {
      ghost var middle := store.View();
      ok := ApplyPullRepairs(store, u, plan.pullNumbers, metrics);
      RepairedTwice(before, middle, store.View(), u);
    }
  }

  // ------------------------------------------------------------------ a page

  /** The fresh parts of both lists on one page are stored at least as new as listed. */
  ghost predicate PageCovered(t: Tables, u: Upstream, page: int, perPage: int, cutoff: Option<int>)
    requires page >= 1 && perPage >= 1
  {
    var pulls, issues := PageOf(u.pulls, page, perPage), PageOf(u.issues, page, perPage);
    && (forall i :: 0 <= i < FreshItems(pulls, cutoff) ==> PullCovered(t, pulls[i]))
    && (forall i :: 0 <= i < FreshItems(issues, cutoff) ==> IssueCovered(t, issues[i]))
  }

  predicate PageDone(u: Upstream, page: int, perPage: int, cutoff: Option<int>)
    requires page >= 1 && perPage >= 1
  {
    ListDone(PageOf(u.pulls, page, perPage), cutoff) && ListDone(PageOf(u.issues, page, perPage), cutoff)
  }

  lemma PlannedPullCovered(t: Tables, t': Tables, u: Upstream, pulls: seq<Item>, plan: Plan, p: Item)
    requires PlansPulls(t, pulls, plan) && NotOlder(t, t') && Applied(t', u, plan) && Faithful(u)
    requires p in pulls && p in u.pulls
    ensures PullCovered(t', p)
  {
    if p.number in plan.pullNumbers {
      assert u.pullObjects[p.number] >= p.updatedAt;
    }
    if p.number in plan.issueNumbers {
      assert StoredAtLeast(t'.issues, p.number, u.issueObjects[p.number]);
    }
  }

  lemma PlannedIssueCovered(t: Tables, t': Tables, u: Upstream, issues: seq<Item>, plan: Plan, i: Item)
    requires PlansIssues(t, issues, plan) && NotOlder(t, t') && Applied(t', u, plan) && Faithful(u)
    requires i in issues && i in u.issues
    ensures IssueCovered(t', i)
  {
    if i.number in plan.issueNumbers {
      assert u.issueObjects[i.number] >= i.updatedAt;
    }
  }

  lemma PlannedPullsCovered(t: Tables, t': Tables, u: Upstream, plan: Plan, pulls: seq<Item>, k: nat)
    requires Faithful(u) && NotOlder(t, t') && Applied(t', u, plan) && k <= |pulls|
    requires forall p :: p in pulls ==> p in u.pulls
    requires PlansPulls(t, pulls[..k], plan)
    ensures forall i :: 0 <= i < k ==> PullCovered(t', pulls[i])
  {
    forall i | 0 <= i < k ensures PullCovered(t', pulls[i]) {
      assert pulls[..k][i] == pulls[i] && pulls[i] in u.pulls;
      PlannedPullCovered(t, t', u, pulls[..k], plan, pulls[i]);
    }
  }

  lemma PlannedIssuesCovered(t: Tables, t': Tables, u: Upstream, plan: Plan, issues: seq<Item>, k: nat)
    requires Faithful(u) && NotOlder(t, t') && Applied(t', u, plan) && k <= |issues|
    requires forall i :: i in issues ==> i in u.issues
    requires PlansIssues(t, OnlyPulls(issues[..k]), plan)
    ensures forall i :: 0 <= i < k ==> IssueCovered(t', issues[i])
  {
    OnlyPullsKept(issues[..k]);
    forall i | 0 <= i < k ensures IssueCovered(t', issues[i]) {
      assert issues[..k][i] == issues[i] && issues[i] in u.issues;
      if issues[i].isPull {
        PlannedIssueCovered(t, t', u, OnlyPulls(issues[..k]), plan, issues[i]);
      }
    }
  }

  /** A plan that leaves out only what is stored, once applied, covers the page it was drawn from. */
  lemma AppliedPlanCoversPage(t: Tables, t': Tables, u: Upstream, plan: Plan, page: int, perPage: int, cutoff: Option<int>)
    requires page >= 1 && perPage >= 1 && Faithful(u) && NotOlder(t, t') && Applied(t', u, plan)
    requires var pulls := PageOf(u.pulls, page, perPage); PlansPulls(t, pulls[..FreshItems(pulls, cutoff)], plan)
    requires var issues := PageOf(u.issues, page, perPage); PlansIssues(t, OnlyPulls(issues[..FreshItems(issues, cutoff)]), plan)
    ensures PageCovered(t', u, page, perPage, cutoff)
  {
    var pulls, issues := PageOf(u.pulls, page, perPage), PageOf(u.issues, page, perPage);
    PlannedPullsCovered(t, t', u, plan, pulls, FreshItems(pulls, cutoff));
    PlannedIssuesCovered(t, t', u, plan, issues, FreshItems(issues, cutoff));
  }

  method BuildRepairPullPlan(store: Store, u: Upstream, page: int, perPage: int, cutoff: Option<int>, metrics: Metrics)
      returns (plan: Plan, done: bool)
    requires page >= 1 && perPage >= 1 && metrics.Balanced()
    modifies metrics
    ensures metrics.Balanced() && metrics.Resume() == old(metrics.Resume())
    ensures var pulls := PageOf(u.pulls, page, perPage);
            && PlansPulls(store.View(), pulls[..FreshItems(pulls, cutoff)], plan) && done == ListDone(pulls, cutoff)
            && ((forall i :: 0 <= i < FreshItems(pulls, cutoff) ==> PullCovered(store.View(), pulls[i])) ==> plan == Plan([], []))
    ensures Reachable(u) ==> Fetchable(u, plan)
  {
    var pulls := PageOf(u.pulls, page, perPage);
    var current;
    current, done := ScanRepairPullCandidates(pulls, cutoff);
    plan := DetectStalePulls(store, current, metrics);
    WhatIsPlanned(store.pulls, current);
    WhatIsPlanned(store.issues, current);
    forall p | p in current ensures p in u.pulls {
      assert p in pulls;
    }
    if forall i :: 0 <= i < FreshItems(pulls, cutoff) ==> PullCovered(store.View(), pulls[i]) {
      NothingPlanned(store.pulls, current);
      NothingPlanned(store.issues, current);
    }
  }

  method BuildRepairIssuePlan(store: Store, u: Upstream, page: int, perPage: int, cutoff: Option<int>, metrics: Metrics)
      returns (plan: Plan, done: bool)
    requires page >= 1 && perPage >= 1 && metrics.Balanced()
    modifies metrics
    ensures metrics.Balanced() && metrics.Resume() == old(metrics.Resume())
    ensures var issues := PageOf(u.issues, page, perPage);
            && PlansIssues(store.View(), OnlyPulls(issues[..FreshItems(issues, cutoff)]), plan) && done == ListDone(issues, cutoff)
            && ((forall i :: 0 <= i < FreshItems(issues, cutoff) ==> IssueCovered(store.View(), issues[i])) ==> plan == Plan([], []))
    ensures Reachable(u) ==> Fetchable(u, plan)
  {
    var issues := PageOf(u.issues, page, perPage);
    var current;
    current, done := ScanRepairIssueCandidates(issues, cutoff);
    plan := DetectStaleIssues(store, current, metrics);
    WhatIsPlanned(store.issues, current);
    OnlyPullsKept(issues[..FreshItems(issues, cutoff)]);
    forall i | i in current ensures i in u.issues {
      assert i in issues;
    }
    if forall i :: 0 <= i < FreshItems(issues, cutoff) ==> IssueCovered(store.View(), issues[i]) {
      NothingPlanned(store.issues, current);
    }
  }

  /** runPullRequestRepairPage */
  method RunPullRequestRepairPage(store: Store, u: Upstream, page: int, perPage: int, cutoff: Option<int>, metrics: Metrics)
      returns (ok: bool, done: bool)
    requires page >= 1 && perPage >= 1 && Faithful(u) && metrics.Balanced()
    modifies store, metrics
    ensures metrics.Balanced() && metrics.Resume() == old(metrics.Resume())
    ensures Repaired(old(store.View()), store.View(), u)
    ensures PageCovered(old(store.View()), u, page, perPage, cutoff) ==> store.View() == old(store.View())
    ensures ok ==> PageCovered(store.View(), u, page, perPage, cutoff)
    ensures ok ==> (done <==> PageDone(u, page, perPage, cutoff))
    ensures Reachable(u) ==> ok
  {
    var pullPlan, pullDone := BuildRepairPullPlan(store, u, page, perPage, cutoff, metrics);
    var issuePlan, issueDone := BuildRepairIssuePlan(store, u, page, perPage, cutoff, metrics);
    var plan := MergeRepairPlans(pullPlan, issuePlan);
    ghost var before := store.View();
    ok := ApplyRepairPlan(store, u, plan, metrics);
    done := pullDone && issueDone;
    if ok {
      AppliedPlanCoversPage(before, store.View(), u, plan, page, perPage, cutoff);
    }
  }

  // ------------------------------------------------------------------ a pass

  lemma CoverLasts(t: Tables, t': Tables, u: Upstream, page: int, perPage: int, cutoff: Option<int>)
    requires page >= 1 && perPage >= 1 && PageCovered(t, u, page, perPage, cutoff) && NotOlder(t, t')
    ensures PageCovered(t', u, page, perPage, cutoff)
  {
  }

  ghost predicate PagesCovered(t: Tables, u: Upstream, from: int, to: int, perPage: int, cutoff: Option<int>)
    requires perPage >= 1
  {
    forall page :: Max(1, from) <= page < to ==> PageCovered(t, u, page, perPage, cutoff)
  }

  ghost predicate NoPageDone(u: Upstream, from: int, to: int, perPage: int, cutoff: Option<int>)
    requires perPage >= 1
  {
    forall page :: Max(1, from) <= page < to ==> !PageDone(u, page, perPage, cutoff)
  }

  lemma PagesCoverLasts(t: Tables, t': Tables, u: Upstream, from: int, to: int, perPage: int, cutoff: Option<int>)
    requires perPage >= 1 && PagesCovered(t, u, from, to, perPage, cutoff) && NotOlder(t, t')
    ensures PagesCovered(t', u, from, to, perPage, cutoff)
  {
    forall page | Max(1, from) <= page < to ensures PageCovered(t', u, page, perPage, cutoff) {
      CoverLasts(t, t', u, page, perPage, cutoff);
    }
  }

  function FirstPage(startPage: int): int {
    if startPage <= 0 then 1 else startPage
  }

  function PageLimit(maxPages: int): (limit: int)
    ensures limit >= 1
  {
    if maxPages <= 0 then DEFAULT_MAX_PAGES else maxPages
  }

  function PageSize(perPage: int): (size: int)
    ensures size >= 1
  {
    if perPage <= 0 then DEFAULT_PER_PAGE else perPage
  }

  /** What is not positive is replaced: by the first page, two pages and a hundred items. */
  lemma DefaultSizes(n: int)
    ensures n <= 0 ==> FirstPage(n) == 1 && PageLimit(n) == 2 && PageSize(n) == 100
    ensures n >= 1 ==> FirstPage(n) == PageLimit(n) == PageSize(n) == n
  {
  }

  const DEFAULT_MAX_PAGES := 2
  const DEFAULT_PER_PAGE := 100

  /** What a pass has to show for itself: the pages it covered, up to but without `end`, and where
      the next pass has to start. */
  ghost predicate PassReport(t: Tables, u: Upstream, start: int, end: int, perPage: int, cutoff: Option<int>,
                             completed: bool, nextPage: int)
    requires perPage >= 1
  {
    && 1 <= start <= end
    && PagesCovered(t, u, start, end, perPage, cutoff)
    && if completed then
         nextPage == 1 && start < end && PageDone(u, end - 1, perPage, cutoff) && NoPageDone(u, start, end - 1, perPage, cutoff)
       else
         nextPage == end && NoPageDone(u, start, end, perPage, cutoff)
  }

  lemma PageAdded(t: Tables, t': Tables, u: Upstream, start: int, page: int, perPage: int, cutoff: Option<int>)
    requires perPage >= 1 && PassReport(t, u, start, page, perPage, cutoff, false, page) && NotOlder(t, t')
    requires PageCovered(t', u, page, perPage, cutoff)
    ensures if PageDone(u, page, perPage, cutoff) then PassReport(t', u, start, page + 1, perPage, cutoff, true, 1)
            else PassReport(t', u, start, page + 1, perPage, cutoff, false, page + 1)
  {
    PagesCoverLasts(t, t', u, start, page, perPage, cutoff);
  }

  /** The tables after the pages so far, none of which was the last. */
  ghost predicate PassSoFar(first: Tables, now: Tables, u: Upstream, start: int, page: int, perPage: int, cutoff: Option<int>)
    requires perPage >= 1
  {
    Repaired(first, now, u) && PassReport(now, u, start, page, perPage, cutoff, false, page)
  }

  lemma PassStopped(first: Tables, before: Tables, now: Tables, u: Upstream, start: int, page: int, perPage: int, cutoff: Option<int>)
    requires perPage >= 1 && PassSoFar(first, before, u, start, page, perPage, cutoff) && Repaired(before, now, u)
    ensures PassSoFar(first, now, u, start, page, perPage, cutoff)
  {
    PagesCoverLasts(before, now, u, start, page, perPage, cutoff);
    RepairedTwice(first, before, now, u);
  }

  lemma PassOneMore(first: Tables, before: Tables, now: Tables, u: Upstream, start: int, page: int, perPage: int, cutoff: Option<int>)
    requires perPage >= 1 && PassSoFar(first, before, u, start, page, perPage, cutoff) && Repaired(before, now, u)
    requires PageCovered(now, u, page, perPage, cutoff)
    ensures Repaired(first, now, u)
    ensures if PageDone(u, page, perPage, cutoff) then PassReport(now, u, start, page + 1, perPage, cutoff, true, 1)
            else PassSoFar(first, now, u, start, page + 1, perPage, cutoff)
  {
    PageAdded(before, now, u, start, page, perPage, cutoff);
    RepairedTwice(first, before, now, u);
  }

  /** The page that follows the ones so far. */
  method RunNextPage(store: Store, u: Upstream, start: int, page: int, size: int, cutoff: Option<int>, metrics: Metrics, ghost first: Tables)
      returns (ok: bool, done: bool)
    requires size >= 1 && Faithful(u) && metrics.Balanced() && PassSoFar(first, store.View(), u, start, page, size, cutoff)
    modifies store, metrics
    ensures metrics.Balanced() && metrics.Resume() == old(metrics.Resume())
    ensures Repaired(first, store.View(), u) && (Reachable(u) ==> ok)
    ensures !ok ==> PassSoFar(first, store.View(), u, start, page, size, cutoff)
    ensures ok ==> if done then PassReport(store.View(), u, start, page + 1, size, cutoff, true, 1)
                   else PassSoFar(first, store.View(), u, start, page + 1, size, cutoff)
  {
    ghost var before := store.View();
    ok, done := RunPullRequestRepairPage(store, u, page, size, cutoff, metrics);
    if ok {
      PassOneMore(first, before, store.View(), u, start, page, size, cutoff);
    } else {
      PassStopped(first, before, store.View(), u, start, page, size, cutoff);
    }
  }

  /** runPullRequestRepairPass. `end` is the first page the pass did not finish. */
  method RunPullRequestRepairPass(store: Store, u: Upstream, startPage: int, maxPages: int, perPage: int, cutoff: Option<int>)
      returns (ok: bool, metrics: Metrics, ghost end: int)
    requires Faithful(u)
    modifies store
    ensures fresh(metrics) && metrics.Balanced()
    ensures Repaired(old(store.View()), store.View(), u)
    ensures PassReport(store.View(), u, FirstPage(startPage), end, PageSize(perPage), cutoff, metrics.completed, metrics.nextPage)
    ensures metrics.completed ==> ok
    ensures end <= FirstPage(startPage) + PageLimit(maxPages)
    ensures ok && !metrics.completed ==> end == FirstPage(startPage) + PageLimit(maxPages)
    ensures Reachable(u) ==> ok
  {
    var start, limit, size := FirstPage(startPage), PageLimit(maxPages), PageSize(perPage);
    metrics := new Metrics(start);
    ok, end := true, start;
    ghost var tables := store.View();
    var page := start;
    while page < start + limit
      invariant fresh(metrics) && metrics.Balanced() && !metrics.completed && metrics.nextPage == page == end
      invariant start <= page <= start + limit
      invariant PassSoFar(tables, store.View(), u, start, page, size, cutoff)
    {
      var done;
      ok, done := RunNextPage(store, u, start, page, size, cutoff, metrics, tables);
      if !ok {
        return;
      }
      end := page + 1;
      if done {
        metrics.completed := true;
        metrics.nextPage := 1;
        return;
      }
      metrics.nextPage := page + 1;
      page := page + 1;
    }
  }
}
