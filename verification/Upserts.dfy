/** Guarded upserts: a stored row gives way only to a payload with a later github_updated_at. What a
    stream of deliveries leaves behind, in whatever order it comes
    (internal/githubsync/service.go). */
module Upserts {
  import opened Common

  datatype Row<V> = Row(number: int, updatedAt: int, fields: V)

  type Table<V> = map<int, Row<V>>

  /** INSERT ... ON CONFLICT DO UPDATE ... WHERE excluded.github_updated_at > github_updated_at */
  function Put<V>(table: Table<V>, row: Row<V>): Table<V> {
    if row.number !in table || row.updatedAt > table[row.number].updatedAt then table[row.number := row] else table
  }

  function PutAll<V>(table: Table<V>, rows: seq<Row<V>>): Table<V> {
    if rows == [] then table else Put(PutAll(table, rows[..|rows| - 1]), rows[|rows| - 1])
  }

  // ------------------------------------------------------------ the last writer wins

  /** The same deliveries, any number of times, in any order. */
  ghost predicate SameDeliveries<T(!new)>(a: seq<T>, b: seq<T>) {
    forall d :: d in a <==> d in b
  }

  ghost predicate IsNewest<V(!new)>(rows: seq<Row<V>>, r: Row<V>) {
    r in rows && forall x :: x in rows && x.number == r.number ==> x.updatedAt <= r.updatedAt
  }

  /** No two different payloads share the greatest github_updated_at of their number. */
  ghost predicate NoNewestTie<V(!new)>(rows: seq<Row<V>>) {
    forall r, s :: IsNewest(rows, r) && IsNewest(rows, s) && r.number == s.number ==> r == s
  }

  /** Whatever the order, a number has a row exactly if something was delivered for it, and the row is
      one of the payloads with the greatest github_updated_at. */
  lemma {:induction false} FoldIsNewest<V(!new)>(rows: seq<Row<V>>, number: int)
    ensures number in PutAll(map[], rows) <==> exists r :: r in rows && r.number == number
    ensures number in PutAll(map[], rows) ==>
              IsNewest(rows, PutAll(map[], rows)[number]) && PutAll(map[], rows)[number].number == number
  {
    if rows != [] {
      var init, last := rows[..|rows| - 1], rows[|rows| - 1];
      FoldIsNewest(init, number);
      assert rows == init + [last];
      assert forall r :: r in rows <==> r in init || r == last;
    }
  }

  lemma PutAllAppend<V>(rows: seq<Row<V>>, row: Row<V>)
    ensures PutAll(map[], rows + [row]) == Put(PutAll(map[], rows), row)
  {
    assert (rows + [row])[..|rows|] == rows;
  }

  /** Of payloads that tie for the newest, the one delivered first stays. */
  lemma {:induction false} FirstOfTieStays<V(!new)>(before: seq<Row<V>>, row: Row<V>, after: seq<Row<V>>)
    requires forall r :: r in before && r.number == row.number ==> r.updatedAt < row.updatedAt
    requires forall r :: r in after && r.number == row.number ==> r.updatedAt <= row.updatedAt
    ensures var table := PutAll(map[], before + [row] + after);
            row.number in table && table[row.number] == row
  {
    if after == [] {
      FoldIsNewest(before, row.number);
      PutAllAppend(before, row);
      assert before + [row] + after == before + [row];
    } else {
      var init, last := after[..|after| - 1], after[|after| - 1];
      FirstOfTieStays(before, row, init);
      PutAllAppend(before + [row] + init, last);
      assert before + [row] + after == before + [row] + init + [last];
    }
  }

  lemma WithoutTieOrderIsIrrelevant<V(!new)>(a: seq<Row<V>>, b: seq<Row<V>>)
    requires SameDeliveries(a, b) && NoNewestTie(a)
    ensures PutAll(map[], a) == PutAll(map[], b)
  {
    forall n ensures n in PutAll(map[], a) <==> n in PutAll(map[], b)
             ensures n in PutAll(map[], a) ==> PutAll(map[], a)[n] == PutAll(map[], b)[n]
    {
      FoldIsNewest(a, n);
      FoldIsNewest(b, n);
      if n in PutAll(map[], b) {
        assert PutAll(map[], b)[n] in b;
        assert IsNewest(a, PutAll(map[], b)[n]);
      }
    }
  }

  lemma RepeatedFirstStays<V(!new)>(rows: seq<Row<V>>, r: Row<V>)
    requires IsNewest(rows, r)
    ensures SameDeliveries(rows, [r] + rows)
    ensures r.number in PutAll(map[], [r] + rows) && PutAll(map[], [r] + rows)[r.number] == r
  {
    FirstOfTieStays([], r, rows);
    assert [] + [r] + rows == [r] + rows;
  }

  ghost predicate OrderIsIrrelevant<V(!new)>(rows: seq<Row<V>>) {
    forall other :: SameDeliveries(rows, other) ==> PutAll(map[], other) == PutAll(map[], rows)
  }

  lemma TieDecidedByOrder<V(!new)>(rows: seq<Row<V>>, r: Row<V>, s: Row<V>)
    requires IsNewest(rows, r) && IsNewest(rows, s) && r.number == s.number && r != s
    ensures !OrderIsIrrelevant(rows)
  {
    RepeatedFirstStays(rows, r);
    RepeatedFirstStays(rows, s);
  }

  /** Reordering and repeating deliveries never changes the outcome exactly if no two different
      payloads for one number tie for the newest. */
  lemma OrderIsIrrelevantIffNoTie<V(!new)>(rows: seq<Row<V>>)
    ensures OrderIsIrrelevant(rows) <==> NoNewestTie(rows)
  {
    if NoNewestTie(rows) {
      forall other | SameDeliveries(rows, other) ensures PutAll(map[], other) == PutAll(map[], rows) {
        WithoutTieOrderIsIrrelevant(rows, other);
      }
    } else {
      var r, s :| IsNewest(rows, r) && IsNewest(rows, s) && r.number == s.number && r != s;
      TieDecidedByOrder(rows, r, s);
    }
  }

  // ------------------------------------------------------- issues and pull requests

  /** content stands for what a payload always brings along: title, body, state, author, the ids and
      the addresses. */
  datatype IssueFields = IssueFields(content: string, stateReason: string, locked: bool, comments: int, closedAt: Option<int>)

  datatype PullFields = PullFields(content: string, state: string, mergedAt: Option<int>)

  datatype Stored = Stored(issues: Table<IssueFields>, pulls: Table<PullFields>)

  datatype Delivery =
    | IssueDelivery(issue: Row<IssueFields>)
    | PullDelivery(pull: Row<PullFields>)

  /** ensureIssueForPullRequest: the issue a pull request stands for. What a pull payload does not
      say is copied from the stored issue, or empty if there is none. */
  function IssueLike(issues: Table<IssueFields>, pull: Row<PullFields>): Row<IssueFields> {
    var p := pull.fields;
    if pull.number in issues then
      var existing := issues[pull.number].fields;
      var closedAt := if p.state == "open" then None else if p.mergedAt.Some? then p.mergedAt else existing.closedAt;
      Row(pull.number, pull.updatedAt, IssueFields(p.content, existing.stateReason, existing.locked, existing.comments, closedAt))
    else Row(pull.number, pull.updatedAt, IssueFields(p.content, "", false, 0, p.mergedAt))
  }

  function Deliver(s: Stored, d: Delivery): Stored {
    match d
    case IssueDelivery(issue) => s.(issues := Put(s.issues, issue))
    case PullDelivery(pull) => Stored(Put(s.issues, IssueLike(s.issues, pull)), Put(s.pulls, pull))
  }

  function DeliverAll(deliveries: seq<Delivery>): Stored {
    if deliveries == [] then Stored(map[], map[])
    else Deliver(DeliverAll(deliveries[..|deliveries| - 1]), deliveries[|deliveries| - 1])
  }

  lemma DeliverAppend(deliveries: seq<Delivery>, d: Delivery)
    ensures DeliverAll(deliveries + [d]) == Deliver(DeliverAll(deliveries), d)
  {
    assert (deliveries + [d])[..|deliveries|] == deliveries;
  }

  lemma DeliverTwo(a: Delivery, b: Delivery)
    ensures DeliverAll([a, b]) == Deliver(Deliver(Stored(map[], map[]), a), b)
  {
    DeliverAppend([], a);
    DeliverAppend([a], b);
    assert [] + [a] == [a] && [a] + [b] == [a, b];
  }

  class Projection {
    var issues: Table<IssueFields>
    var pulls: Table<PullFields>

    constructor ()
      ensures View() == Stored(map[], map[])
    {
      issues, pulls := map[], map[];
    }

    function View(): Stored
      reads this
    {
      Stored(issues, pulls)
    }

    method UpsertIssue(issue: Row<IssueFields>)
      modifies this
      ensures View() == Deliver(old(View()), IssueDelivery(issue))
    {
      if issue.number !in issues || issue.updatedAt > issues[issue.number].updatedAt {
        issues := issues[issue.number := issue];
      }
    }

    method EnsureIssueForPullRequest(pull: Row<PullFields>)
      modifies this
      ensures issues == Put(old(issues), IssueLike(old(issues), pull)) && pulls == old(pulls)
    {
      var fields := IssueFields(pull.fields.content, "", false, 0, None);
      if pull.number in issues {
        var existing := issues[pull.number].fields;
        fields := fields.(stateReason := existing.stateReason, locked := existing.locked, comments := existing.comments);
        if pull.fields.state == "open" {
          fields := fields.(closedAt := None);
        } else if pull.fields.mergedAt.Some? {
          fields := fields.(closedAt := pull.fields.mergedAt);
        } else {
          fields := fields.(closedAt := existing.closedAt);
        }
      } else if pull.fields.mergedAt.Some? {
        fields := fields.(closedAt := pull.fields.mergedAt);
      }
      UpsertIssue(Row(pull.number, pull.updatedAt, fields));
    }

    method UpsertPullRequest(pull: Row<PullFields>)
      modifies this
      ensures View() == Deliver(old(View()), PullDelivery(pull))
    {
      EnsureIssueForPullRequest(pull);
      if pull.number !in pulls || pull.updatedAt > pulls[pull.number].updatedAt {
        pulls := pulls[pull.number := pull];
      }
    }
  }

  function PullRows(deliveries: seq<Delivery>): seq<Row<PullFields>> {
    if deliveries == [] then []
    else
      var last := deliveries[|deliveries| - 1];
      PullRows(deliveries[..|deliveries| - 1]) + if last.PullDelivery? then [last.pull] else []
  }

  function ContentRow(d: Delivery): Row<string> {
    match d
    case IssueDelivery(issue) => Row(issue.number, issue.updatedAt, issue.fields.content)
    case PullDelivery(pull) => Row(pull.number, pull.updatedAt, pull.fields.content)
  }

  function ContentRows(deliveries: seq<Delivery>): seq<Row<string>> {
    if deliveries == [] then [] else ContentRows(deliveries[..|deliveries| - 1]) + [ContentRow(deliveries[|deliveries| - 1])]
  }

  ghost function Contents(issues: Table<IssueFields>): Table<string> {
    map n | n in issues :: Row(issues[n].number, issues[n].updatedAt, issues[n].fields.content)
  }

  predicate OwnNumbers(issues: Table<IssueFields>) {
    forall n | n in issues :: issues[n].number == n
  }

  /** Issue deliveries never touch a pull row: the pull table is the fold of the pull payloads. */
  lemma {:induction false} PullsAreFoldOfPulls(deliveries: seq<Delivery>)
    ensures DeliverAll(deliveries).pulls == PutAll(map[], PullRows(deliveries))
  {
    if deliveries != [] {
      var init, last := deliveries[..|deliveries| - 1], deliveries[|deliveries| - 1];
      PullsAreFoldOfPulls(init);
      if last.PullDelivery? {
        PutAllAppend(PullRows(init), last.pull);
      } else {
        assert PullRows(init) + [] == PullRows(init);
      }
    }
  }

  lemma PutContents(issues: Table<IssueFields>, row: Row<IssueFields>)
    requires OwnNumbers(issues)
    ensures Contents(Put(issues, row)) == Put(Contents(issues), Row(row.number, row.updatedAt, row.fields.content))
    ensures OwnNumbers(Put(issues, row))
  {
  }

  /** Issue rows take part in both kinds of deliveries. Their time and content are the fold of what
      all deliveries bring along, so they converge like any guarded upsert. */
  lemma {:induction false} IssueContentIsFoldOfAll(deliveries: seq<Delivery>)
    ensures Contents(DeliverAll(deliveries).issues) == PutAll(map[], ContentRows(deliveries))
    ensures OwnNumbers(DeliverAll(deliveries).issues)
  {
    if deliveries != [] {
      var init, last := deliveries[..|deliveries| - 1], deliveries[|deliveries| - 1];
      IssueContentIsFoldOfAll(init);
      var before := DeliverAll(init).issues;
      PutContents(before, if last.IssueDelivery? then last.issue else IssueLike(before, last.pull));
      PutAllAppend(ContentRows(init), ContentRow(last));
    }
  }

  ghost predicate NewerThanAll(deliveries: seq<Delivery>, row: Row<IssueFields>) {
    forall d :: d in deliveries && ContentRow(d).number == row.number ==> ContentRow(d).updatedAt < row.updatedAt
  }

  /** The stored time of a number was delivered, and nothing delivered for it is newer. */
  lemma {:induction false} IssueTimesAreDelivered(deliveries: seq<Delivery>, number: int)
    ensures number in DeliverAll(deliveries).issues ==>
              exists d :: d in deliveries && ContentRow(d).number == number
                          && ContentRow(d).updatedAt == DeliverAll(deliveries).issues[number].updatedAt
  {
    if deliveries != [] && number in DeliverAll(deliveries).issues {
      var init, last := deliveries[..|deliveries| - 1], deliveries[|deliveries| - 1];
      IssueTimesAreDelivered(init, number);
      assert last in deliveries;
      var before := DeliverAll(init).issues;
      if number in before && DeliverAll(deliveries).issues[number] == before[number] {
        var d :| d in init && ContentRow(d).number == number && ContentRow(d).updatedAt == before[number].updatedAt;
        assert d in deliveries;
      }
    }
  }

  lemma {:induction false} StoredIssueIsNewest(deliveries: seq<Delivery>, d: Delivery)
    requires d in deliveries
    ensures var issues := DeliverAll(deliveries).issues;
            ContentRow(d).number in issues && ContentRow(d).updatedAt <= issues[ContentRow(d).number].updatedAt
  {
    var init := deliveries[..|deliveries| - 1];
    if d in init {
      StoredIssueIsNewest(init, d);
    }
  }

  /** An issue payload newer than everything else for its number is stored whole, whatever pull
      payloads are mixed in before it. */
  lemma NewestIssueIsStoredWhole(before: seq<Delivery>, issue: Row<IssueFields>)
    requires NewerThanAll(before, issue)
    ensures var s := DeliverAll(before + [IssueDelivery(issue)]);
            issue.number in s.issues && s.issues[issue.number] == issue
  {
    IssueTimesAreDelivered(before, issue.number);
    DeliverAppend(before, IssueDelivery(issue));
  }

  /** But when a pull payload is the newest, the fields it copies depend on the order: they are those
      of the issue if that came before it and empty if it came after. The two orders leave the same
      issue row exactly if the issue has nothing to copy. */
  lemma CopiedFieldsDependOnOrder(issue: Row<IssueFields>, pull: Row<PullFields>)
    requires issue.number == pull.number && issue.updatedAt < pull.updatedAt
    ensures DeliverAll([IssueDelivery(issue), PullDelivery(pull)]).issues == DeliverAll([PullDelivery(pull), IssueDelivery(issue)]).issues
            <==>
            && issue.fields.stateReason == "" && !issue.fields.locked && issue.fields.comments == 0
            && if pull.fields.state == "open" then pull.fields.mergedAt.None?
               else pull.fields.mergedAt.Some? || issue.fields.closedAt.None?
  {
    var a, b := IssueDelivery(issue), PullDelivery(pull);
    DeliverTwo(a, b);
    DeliverTwo(b, a);
    var first, second := DeliverAll([a, b]).issues, DeliverAll([b, a]).issues;
    assert first.Keys == {issue.number} && second.Keys == {issue.number};
    assert first == second <==> first[issue.number] == second[issue.number];
  }

  // ------------------------------------- the copied fields, over any mixed sequence

  /** The fields of an issue that no pull payload brings along. */
  datatype Copy = Copy(stateReason: string, locked: bool, comments: int)

  const NOTHING := Copy("", false, 0)

  function CopyOf(f: IssueFields): Copy {
    Copy(f.stateReason, f.locked, f.comments)
  }

  ghost function StoredCopy(deliveries: seq<Delivery>, number: int): Copy {
    var issues := DeliverAll(deliveries).issues;
    if number in issues then CopyOf(issues[number].fields) else NOTHING
  }

  /** A delivery is written if it is newer than every earlier one for its number. */
  ghost predicate Written(before: seq<Delivery>, d: Delivery) {
    forall e :: e in before && ContentRow(e).number == ContentRow(d).number ==> ContentRow(e).updatedAt < ContentRow(d).updatedAt
  }

  ghost function LastWritten(deliveries: seq<Delivery>, number: int): Option<Delivery> {
    if deliveries == [] then None
    else
      var init, last := deliveries[..|deliveries| - 1], deliveries[|deliveries| - 1];
      if ContentRow(last).number == number && Written(init, last) then Some(last) else LastWritten(init, number)
  }

  ghost function LastWrittenIssue(deliveries: seq<Delivery>, number: int): Option<Row<IssueFields>> {
    if deliveries == [] then None
    else
      var init, last := deliveries[..|deliveries| - 1], deliveries[|deliveries| - 1];
      if last.IssueDelivery? && ContentRow(last).number == number && Written(init, last) then Some(last.issue)
      else LastWrittenIssue(init, number)
  }

  /** Over any mixed sequence the copied fields are those of the last issue payload that was newer than
      all deliveries for its number before it, and empty if there is none. */
  lemma {:induction false} CopiedFromLastWrittenIssue(deliveries: seq<Delivery>, number: int)
    ensures StoredCopy(deliveries, number)
            == (var issue := LastWrittenIssue(deliveries, number); if issue.Some? then CopyOf(issue.value.fields) else NOTHING)
  {
    if deliveries != [] {
      var init, last := deliveries[..|deliveries| - 1], deliveries[|deliveries| - 1];
      CopiedFromLastWrittenIssue(init, number);
      WrittenIffPut(init, last);
    }
  }

  lemma WrittenIffPut(before: seq<Delivery>, d: Delivery)
    ensures var n, issues := ContentRow(d).number, DeliverAll(before).issues;
            Written(before, d) <==> n !in issues || ContentRow(d).updatedAt > issues[n].updatedAt
  {
    IssueTimesAreDelivered(before, ContentRow(d).number);
    forall e | e in before && ContentRow(e).number == ContentRow(d).number
      ensures ContentRow(e).number in DeliverAll(before).issues
      ensures ContentRow(e).updatedAt <= DeliverAll(before).issues[ContentRow(e).number].updatedAt
    {
      StoredIssueIsNewest(before, e);
    }
  }

  ghost predicate NewestDelivery(deliveries: seq<Delivery>, d: Delivery) {
    d in deliveries
    && forall e :: e in deliveries && ContentRow(e).number == ContentRow(d).number ==> ContentRow(e).updatedAt <= ContentRow(d).updatedAt
  }

  /** What was written last is among the newest for its number; if it is an issue, it is the last issue
      written. */
  lemma {:induction false} LastWrittenIsNewest(deliveries: seq<Delivery>, number: int)
    ensures LastWritten(deliveries, number).None? <==> forall d :: d in deliveries ==> ContentRow(d).number != number
    ensures var d := LastWritten(deliveries, number);
            d.Some? ==>
              && NewestDelivery(deliveries, d.value) && ContentRow(d.value).number == number
              && (d.value.IssueDelivery? ==> LastWrittenIssue(deliveries, number) == Some(d.value.issue))
  {
    if deliveries != [] {
      var init, last := deliveries[..|deliveries| - 1], deliveries[|deliveries| - 1];
      LastWrittenIsNewest(init, number);
      assert forall d :: d in deliveries <==> d in init || d == last;
    }
  }

  lemma {:induction false} LastWrittenIssueIsDelivered(deliveries: seq<Delivery>, number: int)
    ensures var issue := LastWrittenIssue(deliveries, number);
            issue.Some? ==> IssueDelivery(issue.value) in deliveries && issue.value.number == number
  {
    if deliveries != [] {
      LastWrittenIssueIsDelivered(deliveries[..|deliveries| - 1], number);
      assert deliveries[|deliveries| - 1] in deliveries;
    }
  }

  /** A pull payload for the number is among the newest. */
  ghost predicate PullIsNewest(deliveries: seq<Delivery>, number: int) {
    exists d :: NewestDelivery(deliveries, d) && d.PullDelivery? && d.pull.number == number
  }

  ghost predicate NothingToCopy(deliveries: seq<Delivery>, number: int) {
    forall issue :: IssueDelivery(issue) in deliveries && issue.number == number ==> CopyOf(issue.fields) == NOTHING
  }

  ghost predicate NewestAgree(deliveries: seq<Delivery>, number: int) {
    forall a, b :: NewestDelivery(deliveries, IssueDelivery(a)) && NewestDelivery(deliveries, IssueDelivery(b)) ==>
      a.number == number && b.number == number ==> CopyOf(a.fields) == CopyOf(b.fields)
  }

  /** For each number: reordering and repeating deliveries never changes the copied fields exactly if
      no issue payload has anything to copy or, where no pull payload is among the newest, the newest
      issue payloads agree on them. */
  lemma CopiesIgnoreOrderIff(deliveries: seq<Delivery>, number: int)
    ensures (forall other :: SameDeliveries(deliveries, other) ==> StoredCopy(other, number) == StoredCopy(deliveries, number))
            <==> NothingToCopy(deliveries, number) || (!PullIsNewest(deliveries, number) && NewestAgree(deliveries, number))
  {
    if NothingToCopy(deliveries, number) || (!PullIsNewest(deliveries, number) && NewestAgree(deliveries, number)) {
      forall other | SameDeliveries(deliveries, other) ensures StoredCopy(other, number) == StoredCopy(deliveries, number) {
        CopiesAgree(deliveries, other, number);
      }
    } else if PullIsNewest(deliveries, number) {
      var issue :| IssueDelivery(issue) in deliveries && issue.number == number && CopyOf(issue.fields) != NOTHING;
      var p :| NewestDelivery(deliveries, p) && p.PullDelivery? && p.pull.number == number;
      PullFirst(deliveries, p.pull);
      IssueThenPull(deliveries, issue, p.pull);
    } else {
      var a, b :| NewestDelivery(deliveries, IssueDelivery(a)) && NewestDelivery(deliveries, IssueDelivery(b))
                  && a.number == number && b.number == number && CopyOf(a.fields) != CopyOf(b.fields);
      IssueFirst(deliveries, a);
      IssueFirst(deliveries, b);
    }
  }

  lemma CopiesAgree(deliveries: seq<Delivery>, other: seq<Delivery>, number: int)
    requires SameDeliveries(deliveries, other)
    requires NothingToCopy(deliveries, number) || (!PullIsNewest(deliveries, number) && NewestAgree(deliveries, number))
    ensures StoredCopy(other, number) == StoredCopy(deliveries, number)
  {
    CopiedFromLastWrittenIssue(deliveries, number);
    CopiedFromLastWrittenIssue(other, number);
    LastWrittenIssueIsDelivered(deliveries, number);
    LastWrittenIssueIsDelivered(other, number);
    LastWrittenIsNewest(deliveries, number);
    LastWrittenIsNewest(other, number);
    var a, b := LastWritten(deliveries, number), LastWritten(other, number);
    if a.Some? && b.Some? {
      assert NewestDelivery(deliveries, b.value);
    }
  }

  /** Nothing that is not newer than the stored row changes it. */
  lemma {:induction false} OlderChangesNothing(before: seq<Delivery>, after: seq<Delivery>, number: int)
    requires number in DeliverAll(before).issues
    requires forall d :: d in after && ContentRow(d).number == number ==>
               ContentRow(d).updatedAt <= DeliverAll(before).issues[number].updatedAt
    ensures number in DeliverAll(before + after).issues
    ensures DeliverAll(before + after).issues[number] == DeliverAll(before).issues[number]
  {
    if after == [] {
      assert before + after == before;
    } else {
      var init, last := after[..|after| - 1], after[|after| - 1];
      OlderChangesNothing(before, init, number);
      DeliverAppend(before + init, last);
      assert before + after == before + init + [last];
      assert last in after;
    }
  }

  lemma DeliverOne(d: Delivery)
    ensures DeliverAll([d]) == Deliver(Stored(map[], map[]), d)
  {
    assert [d][..0] == [];
  }

  lemma PullFirst(deliveries: seq<Delivery>, pull: Row<PullFields>)
    requires NewestDelivery(deliveries, PullDelivery(pull))
    ensures SameDeliveries(deliveries, [PullDelivery(pull)] + deliveries)
    ensures StoredCopy([PullDelivery(pull)] + deliveries, pull.number) == NOTHING
  {
    DeliverOne(PullDelivery(pull));
    OlderChangesNothing([PullDelivery(pull)], deliveries, pull.number);
  }

  lemma IssueFirst(deliveries: seq<Delivery>, issue: Row<IssueFields>)
    requires NewestDelivery(deliveries, IssueDelivery(issue))
    ensures SameDeliveries(deliveries, [IssueDelivery(issue)] + deliveries)
    ensures StoredCopy([IssueDelivery(issue)] + deliveries, issue.number) == CopyOf(issue.fields)
  {
    DeliverOne(IssueDelivery(issue));
    OlderChangesNothing([IssueDelivery(issue)], deliveries, issue.number);
  }

  lemma IssueThenPull(deliveries: seq<Delivery>, issue: Row<IssueFields>, pull: Row<PullFields>)
    requires IssueDelivery(issue) in deliveries && issue.number == pull.number && NewestDelivery(deliveries, PullDelivery(pull))
    ensures SameDeliveries(deliveries, [IssueDelivery(issue), PullDelivery(pull)] + deliveries)
    ensures StoredCopy([IssueDelivery(issue), PullDelivery(pull)] + deliveries, issue.number) == CopyOf(issue.fields)
  {
    DeliverTwo(IssueDelivery(issue), PullDelivery(pull));
    OlderChangesNothing([IssueDelivery(issue), PullDelivery(pull)], deliveries, issue.number);
  }

  // --------------------------------------- the closing time, over any mixed sequence

  ghost function StoredClosedAt(deliveries: seq<Delivery>, number: int): Option<int> {
    var issues := DeliverAll(deliveries).issues;
    if number in issues then issues[number].fields.closedAt else None
  }

  /** The closing time a delivery leaves on a number without a row. */
  function OwnClosing(d: Delivery): Option<int> {
    match d
    case IssueDelivery(issue) => issue.fields.closedAt
    case PullDelivery(pull) => pull.fields.mergedAt
  }

  /** A pull that is closed but was not merged does not say when. */
  predicate ClosedUnmerged(d: Delivery) {
    d.PullDelivery? && d.pull.fields.state != "open" && d.pull.fields.mergedAt.None?
  }

  predicate OpenPull(d: Delivery) {
    d.PullDelivery? && d.pull.fields.state == "open"
  }

  ghost predicate Delivered(deliveries: seq<Delivery>, number: int) {
    exists d :: d in deliveries && ContentRow(d).number == number
  }

  /** The closing time of the last written delivery that says one: None for an open pull, unless that
      created the row. */
  ghost function ClosingTime(deliveries: seq<Delivery>, number: int): Option<int> {
    if deliveries == [] then None
    else
      var init, last := deliveries[..|deliveries| - 1], deliveries[|deliveries| - 1];
      if ContentRow(last).number != number || !Written(init, last) || ClosedUnmerged(last) then ClosingTime(init, number)
      else if OpenPull(last) && Delivered(init, number) then None
      else OwnClosing(last)
  }

  lemma RowIffDelivered(deliveries: seq<Delivery>, number: int)
    ensures number in DeliverAll(deliveries).issues <==> Delivered(deliveries, number)
  {
    IssueTimesAreDelivered(deliveries, number);
    if Delivered(deliveries, number) {
      var d :| d in deliveries && ContentRow(d).number == number;
      StoredIssueIsNewest(deliveries, d);
    }
  }

  /** Over any mixed sequence the stored closing time is that one. */
  lemma {:induction false} ClosedAtFromLastSaid(deliveries: seq<Delivery>, number: int)
    ensures StoredClosedAt(deliveries, number) == ClosingTime(deliveries, number)
  {
    if deliveries != [] {
      var init, last := deliveries[..|deliveries| - 1], deliveries[|deliveries| - 1];
      ClosedAtFromLastSaid(init, number);
      WrittenIffPut(init, last);
      RowIffDelivered(init, number);
    }
  }

  lemma {:induction false} ClosingTimeCases(deliveries: seq<Delivery>, number: int)
    ensures var d := LastWritten(deliveries, number);
            && (d.None? ==> ClosingTime(deliveries, number) == None)
            && (d.Some? && !ClosedUnmerged(d.value) && ClosingTime(deliveries, number) != OwnClosing(d.value) ==>
                  && OpenPull(d.value) && ClosingTime(deliveries, number) == None
                  && exists e :: e in deliveries && ContentRow(e).number == number && ContentRow(e).updatedAt < ContentRow(d.value).updatedAt)
  {
    if deliveries != [] {
      var init, last := deliveries[..|deliveries| - 1], deliveries[|deliveries| - 1];
      ClosingTimeCases(init, number);
      assert forall d :: d in init ==> d in deliveries;
    }
  }

  lemma {:induction false} NobodySaysWhen(deliveries: seq<Delivery>, number: int)
    requires forall d :: d in deliveries && ContentRow(d).number == number ==> OwnClosing(d) == None
    ensures ClosingTime(deliveries, number) == None
  {
    if deliveries != [] {
      var init, last := deliveries[..|deliveries| - 1], deliveries[|deliveries| - 1];
      NobodySaysWhen(init, number);
      assert last in deliveries;
    }
  }

  ghost predicate NewestFor(deliveries: seq<Delivery>, d: Delivery, number: int) {
    NewestDelivery(deliveries, d) && ContentRow(d).number == number
  }

  /** The newest deliveries agree on the closing time, none of them is an open pull that was merged
      unless there is nothing older, and none is closed unmerged unless nobody says when. */
  ghost predicate ClosingSettled(deliveries: seq<Delivery>, number: int) {
    && (forall a, b :: NewestFor(deliveries, a, number) && NewestFor(deliveries, b, number) ==> OwnClosing(a) == OwnClosing(b))
    && (forall d, e :: NewestFor(deliveries, d, number) && e in deliveries && ContentRow(e).number == number ==>
          && (OpenPull(d) && OwnClosing(d).Some? ==> NewestFor(deliveries, e, number))
          && (ClosedUnmerged(d) ==> OwnClosing(e) == None))
  }

  lemma SettledClosing(deliveries: seq<Delivery>, other: seq<Delivery>, number: int)
    requires SameDeliveries(deliveries, other) && ClosingSettled(deliveries, number)
    ensures ClosingTime(other, number) == ClosingTime(deliveries, number)
  {
    LastWrittenIsNewest(deliveries, number);
    LastWrittenIsNewest(other, number);
    var a, b := LastWritten(deliveries, number), LastWritten(other, number);
    if a.Some? && b.Some? {
      assert NewestFor(deliveries, a.value, number) && NewestFor(deliveries, b.value, number);
      SettledValue(deliveries, deliveries, number);
      SettledValue(deliveries, other, number);
    } else {
      ClosingTimeCases(deliveries, number);
      ClosingTimeCases(other, number);
    }
  }

  lemma SettledValue(deliveries: seq<Delivery>, other: seq<Delivery>, number: int)
    requires SameDeliveries(deliveries, other) && ClosingSettled(deliveries, number) && LastWritten(other, number).Some?
    requires NewestFor(deliveries, LastWritten(other, number).value, number)
    ensures ClosingTime(other, number) == OwnClosing(LastWritten(other, number).value)
  {
    var d := LastWritten(other, number).value;
    if ClosedUnmerged(d) {
      NobodySaysWhen(other, number);
    } else {
      ClosingTimeCases(other, number);
    }
  }

  lemma ClosingIfFirst(deliveries: seq<Delivery>, d: Delivery)
    requires NewestDelivery(deliveries, d)
    ensures SameDeliveries(deliveries, [d] + deliveries)
    ensures StoredClosedAt([d] + deliveries, ContentRow(d).number) == OwnClosing(d)
  {
    DeliverOne(d);
    OlderChangesNothing([d], deliveries, ContentRow(d).number);
  }

  lemma ClosingIfSecond(deliveries: seq<Delivery>, e: Delivery, d: Delivery)
    requires NewestDelivery(deliveries, d) && d.PullDelivery? && (OpenPull(d) || ClosedUnmerged(d))
    requires e in deliveries && ContentRow(e).number == ContentRow(d).number && ContentRow(e).updatedAt < ContentRow(d).updatedAt
    ensures SameDeliveries(deliveries, [e, d] + deliveries)
    ensures StoredClosedAt([e, d] + deliveries, ContentRow(d).number) == if OpenPull(d) then None else OwnClosing(e)
  {
    DeliverTwo(e, d);
    OlderChangesNothing([e, d], deliveries, ContentRow(d).number);
  }

  /** Whatever the order and however often they come, the deliveries leave the same closing time. */
  ghost predicate ClosingIgnoresOrder(deliveries: seq<Delivery>, number: int) {
    forall other :: SameDeliveries(deliveries, other) ==> StoredClosedAt(other, number) == StoredClosedAt(deliveries, number)
  }

  lemma UnsettledClosing(deliveries: seq<Delivery>, d: Delivery, e: Delivery, number: int)
    requires NewestFor(deliveries, d, number) && e in deliveries && ContentRow(e).number == number
    requires (OpenPull(d) && OwnClosing(d).Some? && !NewestFor(deliveries, e, number)) || (ClosedUnmerged(d) && OwnClosing(e) != None)
    ensures !ClosingIgnoresOrder(deliveries, number)
  {
    ClosingIfFirst(deliveries, d);
    if NewestFor(deliveries, e, number) {
      ClosingIfFirst(deliveries, e);
    } else {
      ClosingIfSecond(deliveries, e, d);
    }
  }

  /** For each number: reordering and repeating deliveries never changes the closing time exactly if it
      is settled in that sense. */
  lemma ClosingIgnoresOrderIff(deliveries: seq<Delivery>, number: int)
    ensures ClosingIgnoresOrder(deliveries, number) <==> ClosingSettled(deliveries, number)
  {
    if ClosingSettled(deliveries, number) {
      forall other | SameDeliveries(deliveries, other) ensures StoredClosedAt(other, number) == StoredClosedAt(deliveries, number) {
        SettledClosing(deliveries, other, number);
        ClosedAtFromLastSaid(deliveries, number);
        ClosedAtFromLastSaid(other, number);
      }
    } else if a, b :| NewestFor(deliveries, a, number) && NewestFor(deliveries, b, number) && OwnClosing(a) != OwnClosing(b) {
      ClosingIfFirst(deliveries, a);
      ClosingIfFirst(deliveries, b);
    } else {
      var d, e :| NewestFor(deliveries, d, number) && e in deliveries && ContentRow(e).number == number
                  && ((OpenPull(d) && OwnClosing(d).Some? && !NewestFor(deliveries, e, number)) || (ClosedUnmerged(d) && OwnClosing(e) != None));
      UnsettledClosing(deliveries, d, e, number);
    }
  }
}
