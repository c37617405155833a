/** Repair passes over time: the scheduling columns of one repository row, the recent repair that
    resumes at the stored page, the full-history repair, and what a completed pass means. */
module RepairRuns {
  import opened Common
  import opened Repair

  // ------------------------------------------------- pages and the whole lists

  predicate Sorted(u: Upstream) {
    NewestFirst(u.pulls) && NewestFirst(u.issues)
  }

  /** Every listed pull and pull-request issue that is not older than the cutoff is stored at least
      as new as listed. */
  ghost predicate AllCovered(t: Tables, u: Upstream, cutoff: Option<int>) {
    && (forall p :: p in u.pulls && !Older(p.updatedAt, cutoff) ==> PullCovered(t, p))
    && (forall i :: i in u.issues && !Older(i.updatedAt, cutoff) ==> IssueCovered(t, i))
  }

  function PageNumber(k: nat, perPage: int): (page: int)
    requires perPage >= 1
    ensures page >= 1
  {
    k / perPage + 1
  }

  lemma ItemOnItsPage<T>(list: seq<T>, k: nat, perPage: int)
    requires perPage >= 1 && k < |list|
    ensures k % perPage < |PageOf(list, PageNumber(k, perPage), perPage)|
    ensures PageOf(list, PageNumber(k, perPage), perPage)[k % perPage] == list[k]
  {
    assert k == (PageNumber(k, perPage) - 1) * perPage + k % perPage;
  }

  /** An item of a later page comes after every item of an earlier one. */
  lemma PagesInOrder<T>(list: seq<T>, k: nat, perPage: int, page: int, i: nat)
    requires perPage >= 1 && 1 <= page < PageNumber(k, perPage) && k < |list|
    requires i < |PageOf(list, page, perPage)|
    ensures (page - 1) * perPage + i < k
  {
    assert page * perPage <= (k / perPage) * perPage <= k by {
      MulKeepsOrder(page, k / perPage, perPage);
    }
  }

  lemma MulKeepsOrder(a: int, b: int, c: int)
    requires a <= b && c >= 0
    ensures a * c <= b * c
  {
  }

  lemma PageBeforeItemNotEmpty<T>(list: seq<T>, k: nat, perPage: int, page: int)
    requires perPage >= 1 && 1 <= page < PageNumber(k, perPage) && k < |list|
    ensures PageOf(list, page, perPage) != []
  {
    MulKeepsOrder(page, k / perPage, perPage);
  }

  /** The items are those of the list from this position on. */
  predicate Stretch(list: seq<Item>, items: seq<Item>, from: int) {
    0 <= from && from + |items| <= |list| && items == list[from..from + |items|]
  }

  /** In a stretch of a sorted list everything behind the first older item is older too. */
  lemma OlderFromThere(list: seq<Item>, items: seq<Item>, from: nat, i: nat, cutoff: Option<int>)
    requires NewestFirst(list) && i < |items| && Stretch(list, items, from)
    ensures FreshItems(items, cutoff) <= i <==> Older(list[from + i].updatedAt, cutoff)
  {
    var f := FreshItems(items, cutoff);
    if f <= i {
      var first, item := items[f], items[i];
      assert first == list[from + f] && item == list[from + i];
    }
  }

  lemma PageIsStretch(list: seq<Item>, page: int, perPage: int)
    requires page >= 1 && perPage >= 1 && PageOf(list, page, perPage) != []
    ensures Stretch(list, PageOf(list, page, perPage), (page - 1) * perPage)
  {
  }

  lemma ItemsPageStart(k: nat, perPage: int)
    requires perPage >= 1
    ensures (PageNumber(k, perPage) - 1) * perPage == k - k % perPage
  {
  }

  lemma NewItemIsFresh(list: seq<Item>, k: nat, perPage: int, cutoff: Option<int>)
    requires perPage >= 1 && k < |list| && NewestFirst(list) && !Older(list[k].updatedAt, cutoff)
    ensures k % perPage < FreshItems(PageOf(list, PageNumber(k, perPage), perPage), cutoff)
  {
    var page, i := PageNumber(k, perPage), k % perPage;
    ItemOnItsPage(list, k, perPage);
    PageIsStretch(list, page, perPage);
    ItemsPageStart(k, perPage);
    FreshOnPage(list, PageOf(list, page, perPage), (page - 1) * perPage, i, k, cutoff);
  }

  lemma FreshOnPage(list: seq<Item>, items: seq<Item>, from: int, i: nat, k: nat, cutoff: Option<int>)
    requires Stretch(list, items, from) && i < |items| && k == from + i
    requires k < |list| && NewestFirst(list) && !Older(list[k].updatedAt, cutoff)
    ensures i < FreshItems(items, cutoff)
  {
    OlderFromThere(list, items, from, i, cutoff);
  }

  lemma ItemsBehindDonePageAreOlder(list: seq<Item>, k: nat, perPage: int, cutoff: Option<int>, last: int)
    requires perPage >= 1 && k < |list| && NewestFirst(list)
    requires 1 <= last < PageNumber(k, perPage) && ListDone(PageOf(list, last, perPage), cutoff)
    ensures Older(list[k].updatedAt, cutoff)
  {
    PageBeforeItemNotEmpty(list, k, perPage, last);
    var page := PageOf(list, last, perPage);
    var f := FreshItems(page, cutoff);
    PagesInOrder(list, k, perPage, last, f);
    assert page[f] == list[(last - 1) * perPage + f];
  }

  lemma PullOnCoveredPage(t: Tables, u: Upstream, k: nat, perPage: int, cutoff: Option<int>, last: int)
    requires perPage >= 1 && last >= 1 && k < |u.pulls| && Sorted(u) && !Older(u.pulls[k].updatedAt, cutoff)
    requires PagesCovered(t, u, 1, last + 1, perPage, cutoff) && PageDone(u, last, perPage, cutoff)
    ensures PullCovered(t, u.pulls[k])
  {
    var page := PageNumber(k, perPage);
    if last < page {
      ItemsBehindDonePageAreOlder(u.pulls, k, perPage, cutoff, last);
    }
    assert PageCovered(t, u, page, perPage, cutoff);
    ItemOnItsPage(u.pulls, k, perPage);
    NewItemIsFresh(u.pulls, k, perPage, cutoff);
  }

  lemma IssueOnCoveredPage(t: Tables, u: Upstream, k: nat, perPage: int, cutoff: Option<int>, last: int)
    requires perPage >= 1 && last >= 1 && k < |u.issues| && Sorted(u) && !Older(u.issues[k].updatedAt, cutoff)
    requires PagesCovered(t, u, 1, last + 1, perPage, cutoff) && PageDone(u, last, perPage, cutoff)
    ensures IssueCovered(t, u.issues[k])
  {
    var page := PageNumber(k, perPage);
    if last < page {
      ItemsBehindDonePageAreOlder(u.issues, k, perPage, cutoff, last);
    }
    assert PageCovered(t, u, page, perPage, cutoff);
    ItemOnItsPage(u.issues, k, perPage);
    NewItemIsFresh(u.issues, k, perPage, cutoff);
  }

  /** Once every page from the first to a done one is covered, both lists are covered as far back as
      the cutoff. */
  lemma CoveredUpToDonePage(t: Tables, u: Upstream, perPage: int, cutoff: Option<int>, last: int)
    requires perPage >= 1 && last >= 1 && Sorted(u)
    requires PagesCovered(t, u, 1, last + 1, perPage, cutoff) && PageDone(u, last, perPage, cutoff)
    ensures AllCovered(t, u, cutoff)
  {
    forall p | p in u.pulls && !Older(p.updatedAt, cutoff) ensures PullCovered(t, p) {
      var k :| 0 <= k < |u.pulls| && u.pulls[k] == p;
      PullOnCoveredPage(t, u, k, perPage, cutoff, last);
    }
    forall i | i in u.issues && !Older(i.updatedAt, cutoff) ensures IssueCovered(t, i) {
      var k :| 0 <= k < |u.issues| && u.issues[k] == i;
      IssueOnCoveredPage(t, u, k, perPage, cutoff, last);
    }
  }

  /** No later, with no cutoff the furthest back. */
  predicate NoLater(a: Option<int>, b: Option<int>) {
    a.None? || (b.Some? && a.value <= b.value)
  }

  lemma {:induction false} FewerFresh(items: seq<Item>, a: Option<int>, b: Option<int>)
    requires NoLater(a, b)
    ensures FreshItems(items, b) <= FreshItems(items, a)
  {
    var k := FreshItems(items, a);
    if k < |items| {
      assert Older(items[k].updatedAt, a) && Older(items[k].updatedAt, b);
    }
  }

  /** Pages covered under one cutoff are covered under every later one. */
  lemma CoverUnderLaterCutoff(t: Tables, u: Upstream, from: int, to: int, perPage: int, a: Option<int>, b: Option<int>)
    requires perPage >= 1 && NoLater(a, b) && PagesCovered(t, u, from, to, perPage, a)
    ensures PagesCovered(t, u, from, to, perPage, b)
  {
    forall page | Max(1, from) <= page < to ensures PageCovered(t, u, page, perPage, b) {
      assert PageCovered(t, u, page, perPage, a);
      FewerFresh(PageOf(u.pulls, page, perPage), a, b);
      FewerFresh(PageOf(u.issues, page, perPage), a, b);
    }
  }

  lemma PagesJoin(t: Tables, u: Upstream, middle: int, to: int, perPage: int, cutoff: Option<int>)
    requires perPage >= 1 && PagesCovered(t, u, 1, middle, perPage, cutoff) && PagesCovered(t, u, middle, to, perPage, cutoff)
    ensures PagesCovered(t, u, 1, to, perPage, cutoff)
  {
    forall page | 1 <= page < to ensures PageCovered(t, u, page, perPage, cutoff) {
      if middle <= page {
        assert Max(1, middle) <= page;
      }
    }
  }

  // ----------------------------------------------------- the scheduling columns

  datatype Schedule = Schedule(requestedAt: Option<int>, finishedAt: Option<int>, successAt: Option<int>, cursorPage: int)

  /** recentPRRepairPendingState */
  predicate Pending(s: Schedule) {
    s.requestedAt.Some? && (s.finishedAt.None? || s.requestedAt.value >= s.finishedAt.value)
  }

  /** RequestRecentPRRepair: a new request starts at the first page. */
  function Requested(s: Schedule, now: int): Schedule {
    s.(requestedAt := Some(now), cursorPage := 1)
  }

  /** The page at which startRecentPRRepairLease lets a pass begin, by the copy of the row that was
      picked: a row that is not pending is due by age and starts at the first page. */
  function StartPage(copy: Schedule): int {
    if Pending(copy) then copy.cursorPage else 1
  }

  /** What startRecentPRRepairLease writes. */
  function Started(s: Schedule, copy: Schedule, now: int): Schedule {
    if Pending(copy) then s else Requested(s, now)
  }

  /** completeRecentPRRepairPass; page is the one the worker's copy has. */
  function Finished(s: Schedule, page: int, now: int, completed: bool, nextPage: int): Schedule {
    if completed then Schedule(None, Some(now), Some(now), 1)
    else Schedule(Some(now), Some(now), s.successAt, if nextPage <= 1 then Max(2, page + 1) else nextPage)
  }

  /** finishRecentPRRepairWithError */
  function Failed(s: Schedule, now: int): Schedule {
    s.(finishedAt := Some(now))
  }

  class RepairState {
    var requestedAt: Option<int>
    var finishedAt: Option<int>
    var successAt: Option<int>
    var cursorPage: int

    function View(): Schedule
      reads this
    {
      Schedule(requestedAt, finishedAt, successAt, cursorPage)
    }

    /** The row is pending unless a pass finished later than the request, and the next pass begins at
        the first page either way. */
    method RequestRecentPRRepair(now: int)
      modifies this
      ensures View() == Requested(old(View()), now)
      ensures Pending(View()) <==> old(finishedAt).None? || old(finishedAt).value <= now
      ensures StartPage(View()) == 1
    {
      requestedAt := Some(now);
      cursorPage := 1;
    }

    /** A pending row goes on at its page and stays as it is. Any other is requested at its start, so
        that a pass that dies leaves a row that is pending. */
    method StartRecentPRRepair(copy: Schedule, now: int) returns (page: int)
      modifies this
      ensures View() == Started(old(View()), copy, now) && page == StartPage(copy)
      ensures Pending(copy) ==> View() == old(View()) && page == copy.cursorPage
      ensures !Pending(copy) ==> requestedAt == Some(now) && cursorPage == 1 && page == 1
      ensures !Pending(copy) && (old(finishedAt).None? || old(finishedAt).value <= now) ==> Pending(View()) && StartPage(View()) == 1
      ensures finishedAt == old(finishedAt) && successAt == old(successAt)
    {
      page := copy.cursorPage;
      if !Pending(copy) {
        requestedAt := Some(now);
        cursorPage := 1;
        page := 1;
      }
    }

    method CompleteRecentPRRepairPass(page: int, now: int, completed: bool, nextPage: int)
      modifies this
      ensures View() == Finished(old(View()), page, now, completed, nextPage)
      ensures Pending(View()) <==> !completed
      ensures finishedAt == Some(now) && successAt == (if completed then Some(now) else old(successAt))
      ensures StartPage(View()) == if completed then 1 else if nextPage > 1 then nextPage else Max(2, page + 1)
    {
      finishedAt := Some(now);
      if completed {
        requestedAt := None;
        successAt := Some(now);
        cursorPage := 1;
      } else {
        requestedAt := Some(now);
        cursorPage := if nextPage <= 1 then Max(2, page + 1) else nextPage;
      }
    }

    /** After a failure the row is pending only if it was asked for at or after the failure; then the
        next pass begins at the stored page, otherwise at the first one. */
    method FinishRecentPRRepairWithError(now: int)
      modifies this
      ensures View() == Failed(old(View()), now)
      ensures Pending(View()) <==> old(requestedAt).Some? && old(requestedAt).value >= now
      ensures StartPage(View()) == if old(requestedAt).Some? && old(requestedAt).value >= now then old(cursorPage) else 1
    {
      finishedAt := Some(now);
    }
  }

  /** A finished pass is pending exactly when it was incomplete; then the next one starts where it
      stopped, strictly further on. */
  lemma IncompletePassResumes(s: Schedule, page: int, now: int, t: Tables, u: Upstream, end: int, perPage: int,
                              cutoff: Option<int>, completed: bool, nextPage: int)
    requires perPage >= 1 && FirstPage(page) < end && PassReport(t, u, FirstPage(page), end, perPage, cutoff, completed, nextPage)
    ensures Pending(Finished(s, page, now, completed, nextPage)) <==> !completed
    ensures StartPage(Finished(s, page, now, completed, nextPage)) == if completed then 1 else end
    ensures !completed ==> end > page
  {
  }

  // ------------------------------------------------------------- passes over time

  /** Where a worker stands: it copied the row, or runs a pass that began at this page. */
  datatype Phase = Idle | Picked(copy: Schedule) | Running(page: int)

  /** The row, the stored tables, the cutoff of the latest finished pass, and the workers. */
  datatype Machine = Machine(row: Schedule, tables: Tables, cutoff: Option<int>, workers: map<string, Phase>)

  datatype Step =
    | Request(now: int)
    | Pick(worker: string)
    | Begin(worker: string, now: int)
    | Finish(worker: string, now: int, cutoff: int, end: int, completed: bool, nextPage: int, tables: Tables)
    | Fail(worker: string, now: int, tables: Tables)
    | Drop(worker: string)
    | OtherLane(tables: Tables)

  predicate PhaseOf(m: Machine, worker: string, running: bool) {
    worker in m.workers && if running then m.workers[worker].Running? else m.workers[worker].Picked?
  }

  /** The upstream lists stand still, stored rows never get older, and the cutoff, a fixed window
      before the time of the pass, never moves back. Requests, other workers and other lanes come in
      between at will; Drop is a worker that lost its lease and writes nothing. */
  ghost predicate Enabled(m: Machine, step: Step, u: Upstream, perPage: int)
    requires perPage >= 1
  {
    match step
    case Request(_) => true
    case Pick(w) => w in m.workers && m.workers[w].Idle?
    case Begin(w, _) => PhaseOf(m, w, false)
    case Finish(w, _, cutoff, end, completed, nextPage, tables) =>
      && PhaseOf(m, w, true) && NotOlder(m.tables, tables) && NoLater(m.cutoff, Some(cutoff))
      && FirstPage(m.workers[w].page) < end
      && PassReport(tables, u, FirstPage(m.workers[w].page), end, perPage, Some(cutoff), completed, nextPage)
    case Fail(w, _, tables) => PhaseOf(m, w, true) && NotOlder(m.tables, tables)
    case Drop(w) => w in m.workers
    case OtherLane(tables) => NotOlder(m.tables, tables)
  }

  ghost function Apply(m: Machine, step: Step, u: Upstream, perPage: int): Machine
    requires perPage >= 1 && Enabled(m, step, u, perPage)
  {
    match step
    case Request(now) => m.(row := Requested(m.row, now))
    case Pick(w) => m.(workers := m.workers[w := Picked(m.row)])
    case Begin(w, now) =>
      var copy := m.workers[w].copy;
      m.(row := Started(m.row, copy, now), workers := m.workers[w := Running(StartPage(copy))])
    case Finish(w, now, cutoff, _, completed, nextPage, tables) =>
      Machine(Finished(m.row, m.workers[w].page, now, completed, nextPage), tables, Some(cutoff), m.workers[w := Idle])
    case Fail(w, now, tables) => m.(row := Failed(m.row, now), tables := tables, workers := m.workers[w := Idle])
    case Drop(w) => m.(workers := m.workers[w := Idle])
    case OtherLane(tables) => m.(tables := tables)
  }

  ghost predicate ValidRun(m: Machine, run: seq<Step>, u: Upstream, perPage: int)
    requires perPage >= 1
    decreases |run|
  {
    run != [] ==> Enabled(m, run[0], u, perPage) && ValidRun(Apply(m, run[0], u, perPage), run[1..], u, perPage)
  }

  ghost function RunEnd(m: Machine, run: seq<Step>, u: Upstream, perPage: int): Machine
    requires perPage >= 1 && ValidRun(m, run, u, perPage)
    decreases |run|
  {
    if run == [] then m else RunEnd(Apply(m, run[0], u, perPage), run[1..], u, perPage)
  }

  /** The page from which a worker's next or running pass will count. */
  function PageOfPhase(p: Phase): int {
    match p
    case Idle => 1
    case Picked(copy) => StartPage(copy)
    case Running(page) => page
  }

  /** The pages before the stored one, and before every page a worker has in hand, are covered as far
      back as the latest cutoff. */
  ghost predicate Swept(m: Machine, u: Upstream, perPage: int)
    requires perPage >= 1
  {
    && PagesCovered(m.tables, u, 1, m.row.cursorPage, perPage, m.cutoff)
    && forall w | w in m.workers :: PagesCovered(m.tables, u, 1, PageOfPhase(m.workers[w]), perPage, m.cutoff)
  }

  /** Covered pages stay covered while rows get no older and the cutoff does not move back. */
  lemma CoverSurvives(m: Machine, tables: Tables, cutoff: Option<int>, u: Upstream, page: int, perPage: int)
    requires perPage >= 1 && NotOlder(m.tables, tables) && NoLater(m.cutoff, cutoff)
    requires PagesCovered(m.tables, u, 1, page, perPage, m.cutoff)
    ensures PagesCovered(tables, u, 1, page, perPage, cutoff)
  {
    PagesCoverLasts(m.tables, tables, u, 1, page, perPage, m.cutoff);
    CoverUnderLaterCutoff(tables, u, 1, page, perPage, m.cutoff, cutoff);
  }

  lemma SweptSurvives(m: Machine, tables: Tables, cutoff: Option<int>, u: Upstream, perPage: int)
    requires perPage >= 1 && Swept(m, u, perPage) && NotOlder(m.tables, tables) && NoLater(m.cutoff, cutoff)
    ensures Swept(m.(tables := tables, cutoff := cutoff), u, perPage)
  {
    CoverSurvives(m, tables, cutoff, u, m.row.cursorPage, perPage);
    forall w | w in m.workers ensures PagesCovered(tables, u, 1, PageOfPhase(m.workers[w]), perPage, cutoff) {
      CoverSurvives(m, tables, cutoff, u, PageOfPhase(m.workers[w]), perPage);
    }
  }

  /** A pass extends what is covered from the first page on to the page where it stopped, whatever
      happened to the row while it ran. */
  lemma PassExtendsSweep(m: Machine, step: Step, u: Upstream, perPage: int)
    requires perPage >= 1 && step.Finish? && Swept(m, u, perPage) && Enabled(m, step, u, perPage)
    ensures PagesCovered(step.tables, u, 1, step.end, perPage, Some(step.cutoff))
  {
    var page := m.workers[step.worker].page;
    assert PageOfPhase(m.workers[step.worker]) == page;
    CoverSurvives(m, step.tables, Some(step.cutoff), u, page, perPage);
    assert PagesCovered(step.tables, u, 1, FirstPage(page), perPage, Some(step.cutoff));
    PagesJoin(step.tables, u, FirstPage(page), step.end, perPage, Some(step.cutoff));
  }

  lemma StepKeepsSwept(m: Machine, step: Step, u: Upstream, perPage: int)
    requires perPage >= 1 && Swept(m, u, perPage) && Enabled(m, step, u, perPage)
    ensures Swept(Apply(m, step, u, perPage), u, perPage)
  {
    match step
    case Request(now) => {
    }
    case Pick(w) => {
    }
    case Begin(w, now) => {
      assert PageOfPhase(m.workers[w]) == StartPage(m.workers[w].copy);
    }
    case Finish(w, now, cutoff, end, completed, nextPage, tables) => {
      SweptSurvives(m, tables, Some(cutoff), u, perPage);
      PassExtendsSweep(m, step, u, perPage);
    }
    case Fail(w, now, tables) => {
      SweptSurvives(m, tables, m.cutoff, u, perPage);
    }
    case Drop(w) => {
    }
    case OtherLane(tables) => {
      SweptSurvives(m, tables, m.cutoff, u, perPage);
    }
  }

  lemma {:induction false} RunKeepsSwept(m: Machine, run: seq<Step>, u: Upstream, perPage: int)
    requires perPage >= 1 && Swept(m, u, perPage) && ValidRun(m, run, u, perPage)
    ensures Swept(RunEnd(m, run, u, perPage), u, perPage)
    decreases |run|
  {
    if run != [] {
      StepKeepsSwept(m, run[0], u, perPage);
      RunKeepsSwept(Apply(m, run[0], u, perPage), run[1..], u, perPage);
    }
  }

  /** A row at its first page, and workers that have not begun. */
  predicate FromScratch(m: Machine) {
    m.row.cursorPage <= 1 && forall w | w in m.workers :: m.workers[w].Idle?
  }

  /** Whatever requests, incomplete passes, failed and abandoned passes and writes of other lanes came
      before and in between: when a pass reports completed, everything listed at or after its cutoff
      is stored. */
  lemma CompletedPassCoversAll(m: Machine, run: seq<Step>, pass: Step, u: Upstream, perPage: int)
    requires perPage >= 1 && Sorted(u) && FromScratch(m)
    requires ValidRun(m, run, u, perPage) && pass.Finish? && Enabled(RunEnd(m, run, u, perPage), pass, u, perPage)
    requires pass.completed
    ensures var after := Apply(RunEnd(m, run, u, perPage), pass, u, perPage);
            AllCovered(after.tables, u, Some(pass.cutoff)) && after.row.successAt == Some(pass.now)
  {
    RunKeepsSwept(m, run, u, perPage);
    PassExtendsSweep(RunEnd(m, run, u, perPage), pass, u, perPage);
    CoveredUpToDonePage(pass.tables, u, perPage, Some(pass.cutoff), pass.end - 1);
  }

  /** A repair asked for while a pass is running leaves no trace once that pass finishes, complete or
      not: neither the request nor its restart at the first page. The row is pending exactly if the
      pass was incomplete, and then resumes behind the pages just done. */
  lemma RequestDuringPassIsDropped(m: Machine, requestedAt: int, pass: Step, u: Upstream, perPage: int)
    requires perPage >= 1 && pass.Finish? && Enabled(m, pass, u, perPage)
    ensures Enabled(m, Request(requestedAt), u, perPage)
    ensures var asked := Apply(m, Request(requestedAt), u, perPage);
            && asked.row.requestedAt == Some(requestedAt) && asked.row.cursorPage == 1
            && Enabled(asked, pass, u, perPage)
            && Apply(asked, pass, u, perPage) == Apply(m, pass, u, perPage)
            && (Pending(Apply(asked, pass, u, perPage).row) <==> !pass.completed)
            && StartPage(Apply(asked, pass, u, perPage).row) == (if pass.completed then 1 else pass.end)
            && (!pass.completed ==> pass.end > 1)
  {
  }

  /** When the running pass fails, a request made before the failure is not pending either; only its
      page stays. */
  lemma RequestDuringFailingPass(m: Machine, requestedAt: int, fail: Step, u: Upstream, perPage: int)
    requires perPage >= 1 && fail.Fail? && Enabled(m, fail, u, perPage)
    ensures var after := Apply(Apply(m, Request(requestedAt), u, perPage), fail, u, perPage).row;
            (Pending(after) <==> requestedAt >= fail.now) && after.cursorPage == 1 && StartPage(after) == 1
  {
  }

  // ------------------------------------------------------------------- progress

  function Longest(u: Upstream): int {
    Max(|u.pulls|, |u.issues|)
  }

  /** Only a page that starts within one of the lists can be other than done. */
  lemma PageBehindListsIsDone(u: Upstream, page: int, perPage: int, cutoff: Option<int>)
    requires page >= 1 && perPage >= 1
    ensures (page - 1) * perPage >= Longest(u) ==> PageDone(u, page, perPage, cutoff)
    ensures cutoff == None ==> (PageDone(u, page, perPage, cutoff) <==> (page - 1) * perPage >= Longest(u))
  {
    if cutoff == None {
      var pulls, issues := PageOf(u.pulls, page, perPage), PageOf(u.issues, page, perPage);
      assert FreshItems(pulls, None) == |pulls| && FreshItems(issues, None) == |issues|;
    }
  }

  /** So resumed passes come to an end: an incomplete one leaves a page that the lists still reach. */
  lemma IncompletePassWithinLists(t: Tables, u: Upstream, start: int, end: int, perPage: int, cutoff: Option<int>)
    requires perPage >= 1 && start < end && PassReport(t, u, start, end, perPage, cutoff, false, end)
    ensures (end - 2) * perPage < Longest(u)
  {
    PageBehindListsIsDone(u, end - 1, perPage, cutoff);
  }

  // --------------------------------------------------------- the recent repair

  /** processRecentPRRepair with nothing in between, as three steps of the machine. */
  method ProcessRecentPRRepair(row: RepairState, store: Store, u: Upstream, worker: string, startedAt: int, finishedAt: int,
                               since: int, maxPages: int, perPage: int, ghost latest: Option<int>)
      returns (ok: bool, completed: bool, ghost steps: seq<Step>)
    requires Faithful(u) && NoLater(latest, Some(since))
    modifies row, store
    ensures var before := Machine(old(row.View()), old(store.View()), latest, map[worker := Idle]);
            && ValidRun(before, steps, u, PageSize(perPage))
            && RunEnd(before, steps, u, PageSize(perPage))
               == Machine(row.View(), store.View(), if ok then Some(since) else latest, map[worker := Idle])
    ensures |steps| == 3 && if ok then steps[2].Finish? && steps[2].completed == completed && steps[2].cutoff == since
                            else steps[2].Fail?
    ensures Reachable(u) ==> ok
  {
    ghost var m0 := Machine(row.View(), store.View(), latest, map[worker := Idle]);
    var page := row.StartRecentPRRepair(row.View(), startedAt);
    var metrics;
    ghost var end;
    ok, metrics, end := RunPullRequestRepairPass(store, u, page, maxPages, perPage, Some(since));
    completed := metrics.completed;
    ghost var last;
    if ok {
      row.CompleteRecentPRRepairPass(page, finishedAt, metrics.completed, metrics.nextPage);
      last := Finish(worker, finishedAt, since, end, metrics.completed, metrics.nextPage, store.View());
      FinishedRun(m0, worker, startedAt, last, u, PageSize(perPage));
    } else {
      row.FinishRecentPRRepairWithError(finishedAt);
      last := Fail(worker, finishedAt, store.View());
      FailedRun(m0, worker, startedAt, last, u, PageSize(perPage));
    }
    steps := [Pick(worker), Begin(worker, startedAt), last];
  }

  lemma FinishedRun(m: Machine, worker: string, startedAt: int, last: Step, u: Upstream, perPage: int)
    requires perPage >= 1 && m.workers == map[worker := Idle] && last.Finish? && last.worker == worker
    requires NotOlder(m.tables, last.tables) && NoLater(m.cutoff, Some(last.cutoff)) && FirstPage(StartPage(m.row)) < last.end
    requires PassReport(last.tables, u, FirstPage(StartPage(m.row)), last.end, perPage, Some(last.cutoff), last.completed, last.nextPage)
    ensures ValidRun(m, [Pick(worker), Begin(worker, startedAt), last], u, perPage)
    ensures RunEnd(m, [Pick(worker), Begin(worker, startedAt), last], u, perPage)
            == Machine(Finished(Started(m.row, m.row, startedAt), StartPage(m.row), last.now, last.completed, last.nextPage),
                       last.tables, Some(last.cutoff), m.workers)
  {
    var begun := m.(row := Started(m.row, m.row, startedAt), workers := m.workers[worker := Running(StartPage(m.row))]);
    assert begun.workers[worker := Idle] == m.workers;
    ThreeSteps(m, worker, startedAt, last, u, perPage);
  }

  lemma FailedRun(m: Machine, worker: string, startedAt: int, last: Step, u: Upstream, perPage: int)
    requires perPage >= 1 && m.workers == map[worker := Idle] && last.Fail? && last.worker == worker
    requires NotOlder(m.tables, last.tables)
    ensures ValidRun(m, [Pick(worker), Begin(worker, startedAt), last], u, perPage)
    ensures RunEnd(m, [Pick(worker), Begin(worker, startedAt), last], u, perPage)
            == Machine(Failed(Started(m.row, m.row, startedAt), last.now), last.tables, m.cutoff, m.workers)
  {
    var begun := m.(row := Started(m.row, m.row, startedAt), workers := m.workers[worker := Running(StartPage(m.row))]);
    assert begun.workers[worker := Idle] == m.workers;
    ThreeSteps(m, worker, startedAt, last, u, perPage);
  }

  lemma ThreeSteps(m: Machine, worker: string, startedAt: int, last: Step, u: Upstream, perPage: int)
    requires perPage >= 1 && worker in m.workers && m.workers[worker].Idle?
    requires Enabled(m.(row := Started(m.row, m.row, startedAt), workers := m.workers[worker := Running(StartPage(m.row))]), last, u, perPage)
    ensures ValidRun(m, [Pick(worker), Begin(worker, startedAt), last], u, perPage)
    ensures RunEnd(m, [Pick(worker), Begin(worker, startedAt), last], u, perPage)
            == Apply(m.(row := Started(m.row, m.row, startedAt), workers := m.workers[worker := Running(StartPage(m.row))]), last, u, perPage)
  {
    var picked := Apply(m, Pick(worker), u, perPage);
    assert picked.workers[worker := Running(StartPage(m.row))] == m.workers[worker := Running(StartPage(m.row))];
    assert Apply(picked, Begin(worker, startedAt), u, perPage)
           == m.(row := Started(m.row, m.row, startedAt), workers := m.workers[worker := Running(StartPage(m.row))]);
    assert [Pick(worker), Begin(worker, startedAt), last] == [Pick(worker)] + ([Begin(worker, startedAt)] + ([last] + []));
    RunOf(Apply(picked, Begin(worker, startedAt), u, perPage), last, [], u, perPage);
    RunOf(picked, Begin(worker, startedAt), [last] + [], u, perPage);
    RunOf(m, Pick(worker), [Begin(worker, startedAt)] + ([last] + []), u, perPage);
  }

  lemma RunOf(m: Machine, step: Step, rest: seq<Step>, u: Upstream, perPage: int)
    requires perPage >= 1 && Enabled(m, step, u, perPage) && ValidRun(Apply(m, step, u, perPage), rest, u, perPage)
    ensures ValidRun(m, [step] + rest, u, perPage)
    ensures RunEnd(m, [step] + rest, u, perPage) == RunEnd(Apply(m, step, u, perPage), rest, u, perPage)
  {
    assert ([step] + rest)[1..] == rest;
  }

  // --------------------------------------------------- the full-history repair

  /** runFullHistoryRepairLoop: passes of one page without a cutoff, the page kept on the row. */
  method RunFullHistoryRepairLoop(store: Store, u: Upstream, startPage: int, maxPages: int, perPage: int)
      returns (ok: bool, completed: bool, page: int)
    requires Faithful(u) && Sorted(u)
    requires PagesCovered(store.View(), u, 1, startPage, PageSize(perPage), None)
    modifies store
    ensures NotOlder(old(store.View()), store.View())
    ensures page >= Max(startPage, 1) && PagesCovered(store.View(), u, 1, page, PageSize(perPage), None)
    ensures completed ==> ok && AllCovered(store.View(), u, None) && (page - 1) * PageSize(perPage) >= Longest(u)
    ensures ok && !completed ==> page == Max(startPage, 1) + Max(maxPages, 0)
    ensures Reachable(u) ==> ok
  {
    ghost var size := PageSize(perPage);
    page := Max(startPage, 1);
    ok, completed := true, false;
    var i := 0;
    while i < maxPages
      invariant 0 <= i <= Max(maxPages, 0) && page == Max(startPage, 1) + i && ok && !completed
      invariant NotOlder(old(store.View()), store.View())
      invariant PagesCovered(store.View(), u, 1, page, size, None)
    {
      ghost var before := store.View();
      var metrics;
      ghost var end;
      ok, metrics, end := RunPullRequestRepairPass(store, u, page, 1, perPage, None);
      PagesCoverLasts(before, store.View(), u, 1, page, size, None);
      if !ok {
        return;
      }
      PagesJoin(store.View(), u, page, page + 1, size, None);
      if metrics.completed {
        PageBehindListsIsDone(u, page, size, None);
        CoveredUpToDonePage(store.View(), u, size, None, page);
        completed := true;
        return;
      }
      page := page + 1;
      i := i + 1;
    }
  }

  /** completeFullHistoryRepairPass keeps the page of an incomplete loop and goes back to the first
      page after a completed one. */
  function FullHistoryCursor(completed: bool, page: int): int {
    if completed || page <= 0 then 1 else page
  }

  /** runFullHistoryRepairPass: on an error the row keeps its page. */
  method RunFullHistoryRepairPass(store: Store, u: Upstream, cursorPage: int, maxPages: int, perPage: int)
      returns (ok: bool, completed: bool, newCursorPage: int)
    requires Faithful(u) && Sorted(u)
    requires PagesCovered(store.View(), u, 1, cursorPage, PageSize(perPage), None)
    modifies store
    ensures NotOlder(old(store.View()), store.View())
    ensures PagesCovered(store.View(), u, 1, newCursorPage, PageSize(perPage), None)
    ensures completed ==> AllCovered(store.View(), u, None) && newCursorPage == 1
    ensures ok && !completed ==> newCursorPage == Max(cursorPage, 1) + Max(maxPages, 0)
    ensures !ok ==> newCursorPage == cursorPage
    ensures Reachable(u) ==> ok
  {
    var page;
    ghost var before := store.View();
    ok, completed, page := RunFullHistoryRepairLoop(store, u, cursorPage, maxPages, perPage);
    PagesCoverLasts(before, store.View(), u, 1, cursorPage, PageSize(perPage), None);
    newCursorPage := if ok then FullHistoryCursor(completed, page) else cursorPage;
  }
}
