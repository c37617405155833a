/** Repositories under renames, transfers and name swaps: one row per github_id, one holder per
    full_name. A repository that claims the name of another takes it; the other keeps its row under
    a released name (internal/githubsync/service.go). */
module RepoIdentity {
  import opened Common

  const NUL: char := '\0'
  const RELEASED := "__ghreplica_released__"

  /** data stands for the columns that are neither key. */
  datatype Repo = Repo(githubId: int, fullName: string, data: string)

  type Rows = map<int, Repo>

  /** Postgres refuses a query parameter that holds a NUL, SQLite takes it. */
  datatype Database = SQLite | Postgres

  datatype State = State(rows: Rows, nextId: int, database: Database)

  datatype Claim = Claim(githubId: int, fullName: string, data: string, now: int)

  /** sanitizeProjectedText */
  function Sanitize(s: string): (t: string)
    ensures NUL !in t && (NUL !in s ==> t == s) && |t| <= |s| && (NUL in s ==> |t| < |s|)
  {
    if s == "" then "" else (if s[0] == NUL then "" else [s[0]]) + Sanitize(s[1..])
  }

  /** The replacer of releasedRepositoryFullName. */
  function Flattened(s: string): (t: string)
    ensures '/' !in t && (NUL !in s ==> NUL !in t)
  {
    if s == "" then "" else (if s[0] == '/' then "__" else if s[0] == ' ' then "_" else [s[0]]) + Flattened(s[1..])
  }

  /** %d */
  function Format(n: int): (s: string)
    ensures s != "" && '/' !in s && NUL !in s
  {
    DigitsOnly(if n < 0 then -n else n);
    if n < 0 then "-" + Itoa(-n) else Itoa(n)
  }

  lemma DigitsOnly(n: nat)
    ensures '/' !in Itoa(n) && NUL !in Itoa(n) && Itoa(n)[0] != '-'
  {
    var s := Itoa(n);
    forall i | 0 <= i < |s| ensures s[i] != '/' && s[i] != NUL && s[i] != '-' {
      assert IsDigit(s[i]);
    }
  }

  lemma FormatInjective(a: int, b: int)
    requires Format(a) == Format(b)
    ensures a == b
  {
    DigitsOnly(if a < 0 then -a else a);
    DigitsOnly(if b < 0 then -b else b);
    if a < 0 && b < 0 {
      assert Format(a)[1..] == Itoa(-a) && Format(b)[1..] == Itoa(-b);
    }
  }

  /** A slash becomes two underscores, a space one, and all else stays, character by character. */
  lemma FlattenedCharacter(c: char)
    ensures Flattened([c]) == if c == '/' then "__" else if c == ' ' then "_" else [c]
  {
    assert Flattened([c][1..]) == "";
  }

  lemma FlattenedFirst(c: char, rest: string)
    ensures Flattened([c] + rest) == Flattened([c]) + Flattened(rest)
  {
    FlattenedCharacter(c);
    assert ([c] + rest)[1..] == rest;
  }

  /** releasedRepositoryFullName */
  function ReleasedName(githubId: int, now: int, claimed: string): string {
    RELEASED + ['/'] + (Format(githubId) + ['/'] + (Format(now) + ['/'] + Flattened(TrimSpace(claimed))))
  }

  /** A released name has four parts, and the second says whose it was. */
  lemma ReleasedParts(githubId: int, now: int, claimed: string)
    ensures Split(ReleasedName(githubId, now, claimed), '/')
            == [RELEASED, Format(githubId), Format(now), Flattened(TrimSpace(claimed))]
  {
    FourParts(RELEASED, Format(githubId), Format(now), Flattened(TrimSpace(claimed)));
  }

  lemma FourParts(a: string, b: string, c: string, d: string)
    requires '/' !in a && '/' !in b && '/' !in c && '/' !in d
    ensures Split(a + ['/'] + (b + ['/'] + (c + ['/'] + d)), '/') == [a, b, c, d]
  {
    SplitFirst(d, '/');
    SplitPiece(c, d, '/');
    SplitPiece(b, c + ['/'] + d, '/');
    SplitPiece(a, b + ['/'] + (c + ['/'] + d), '/');
  }

  lemma {:induction false} TrimmedHasNoMore(s: string, c: char)
    requires c !in s
    ensures c !in TrimSpace(s)
  {
    TrimLeftHasNoMore(s, c);
    TrimRightKeepsHead(TrimLeft(s));
  }

  lemma {:induction false} TrimLeftHasNoMore(s: string, c: char)
    requires c !in s
    ensures c !in TrimLeft(s)
  {
    if s != "" && IsSpace(s[0]) {
      TrimLeftHasNoMore(s[1..], c);
    }
  }

  /** owner/repo */
  predicate Shaped(name: string) {
    |Split(name, '/')| == 2
  }

  predicate SoundName(r: Repo) {
    var parts := Split(r.fullName, '/');
    && NUL !in r.fullName
    && (|parts| == 2 || (|parts| == 4 && parts[1] == Format(r.githubId)))
  }

  ghost predicate UniqueIds(rows: Rows) {
    forall i, j | i in rows && j in rows && i != j :: rows[i].githubId != rows[j].githubId
  }

  ghost predicate UniqueNames(rows: Rows) {
    forall i, j | i in rows && j in rows && i != j :: rows[i].fullName != rows[j].fullName
  }

  ghost predicate Inv(s: State) {
    && UniqueIds(s.rows) && UniqueNames(s.rows)
    && forall i | i in s.rows :: SoundName(s.rows[i]) && i < s.nextId
  }

  // -------------------------------------------------------------------- an upsert

  ghost function ByGithubId(rows: Rows, githubId: int): (id: Option<int>)
    ensures id.Some? ==> id.value in rows && rows[id.value].githubId == githubId
    ensures id.None? ==> forall i | i in rows :: rows[i].githubId != githubId
  {
    if i :| i in rows && rows[i].githubId == githubId then Some(i) else None
  }

  ghost function ByFullName(rows: Rows, fullName: string): (id: Option<int>)
    ensures id.Some? ==> id.value in rows && rows[id.value].fullName == fullName
    ensures id.None? ==> forall i | i in rows :: rows[i].fullName != fullName
  {
    if i :| i in rows && rows[i].fullName == fullName then Some(i) else None
  }

  /** releaseRepositoryFullNameClaim */
  ghost function Released(rows: Rows, byName: Option<int>, c: Claim): Rows
    requires byName.Some? ==> byName.value in rows
  {
    if byName.None? || rows[byName.value].githubId == c.githubId then rows
    else
      var holder := rows[byName.value];
      rows[byName.value := holder.(fullName := ReleasedName(holder.githubId, c.now, c.fullName))]
  }

  /** What the unique key on full_name refuses: writing a name that another row has. */
  ghost predicate Taken(rows: Rows, id: int, name: string) {
    exists i | i in rows && i != id :: rows[i].fullName == name
  }

  lemma TakenByOtherRow(rows: Rows, id: int, row: Repo)
    ensures Taken(rows[id := row], id, row.fullName) <==> Taken(rows, id, row.fullName)
  {
    if Taken(rows, id, row.fullName) {
      var i :| i in rows && i != id && rows[i].fullName == row.fullName;
      assert rows[id := row][i].fullName == row.fullName;
    }
  }

  predicate RefusesText(database: Database, text: string) {
    database == Postgres && NUL in text
  }

  /** upsertRepositoryModel, one transaction: None when the database refuses the lookup by the raw
      name, or the unique key either write. The key on github_id has nothing to refuse, as the row
      with that id is looked up before. */
  ghost function Upserted(s: State, c: Claim): Option<State> {
    var byId, byName := ByGithubId(s.rows, c.githubId), ByFullName(s.rows, c.fullName);
    var rows, id := Released(s.rows, byName, c), if byId.Some? then byId.value else s.nextId;
    if RefusesText(s.database, c.fullName) then None
    else if byName.Some? && Taken(rows, byName.value, rows[byName.value].fullName) then None
    else if Taken(rows, id, Sanitize(c.fullName)) then None
    else Some(State(rows[id := Repo(c.githubId, Sanitize(c.fullName), c.data)], if byId.Some? then s.nextId else s.nextId + 1, s.database))
  }

  /** A refused claim is rolled back. */
  ghost function AfterClaim(s: State, c: Claim): State {
    var after := Upserted(s, c);
    if after.Some? then after.value else s
  }

  class Repositories {
    const database: Database
    var rows: Rows
    var nextId: int

    constructor (database: Database)
      ensures View() == State(map[], 1, database) && Inv(View())
    {
      this.database := database;
      rows, nextId := map[], 1;
    }

    function View(): State
      reads this
    {
      State(rows, nextId, database)
    }

    method FindRepositoryByGitHubID(githubId: int) returns (found: Option<int>)
      requires UniqueIds(rows)
      ensures found == ByGithubId(rows, githubId)
    {
      var ids := rows.Keys;
      while ids != {}
        invariant ids <= rows.Keys
        invariant forall i | i in rows && i !in ids :: rows[i].githubId != githubId
      {
        HasNumber(ids);
        var i :| i in ids;
        if rows[i].githubId == githubId {
          return Some(i);
        }
        ids := ids - {i};
      }
      found := None;
    }

    method FindRepositoryByFullName(fullName: string) returns (ok: bool, found: Option<int>)
      requires UniqueNames(rows)
      ensures ok <==> !RefusesText(database, fullName)
      ensures ok ==> found == ByFullName(rows, fullName)
    {
      if RefusesText(database, fullName) {
        return false, None;
      }
      var ids := rows.Keys;
      while ids != {}
        invariant ids <= rows.Keys
        invariant forall i | i in rows && i !in ids :: rows[i].fullName != fullName
      {
        HasNumber(ids);
        var i :| i in ids;
        if rows[i].fullName == fullName {
          return true, Some(i);
        }
        ids := ids - {i};
      }
      ok, found := true, None;
    }

    /** An update or insert of the full_name of one row, under its unique key. */
    method WriteRow(id: int, row: Repo) returns (ok: bool)
      modifies this
      ensures ok <==> !Taken(old(rows), id, row.fullName)
      ensures rows == (if ok then old(rows)[id := row] else old(rows)) && nextId == old(nextId)
    {
      var ids := rows.Keys;
      while ids != {}
        invariant ids <= rows.Keys && rows == old(rows) && nextId == old(nextId)
        invariant forall i | i in rows && i !in ids && i != id :: rows[i].fullName != row.fullName
      {
        HasNumber(ids);
        var i :| i in ids;
        if i != id && rows[i].fullName == row.fullName {
          return false;
        }
        ids := ids - {i};
      }
      rows := rows[id := row];
      ok := true;
    }

    method UpsertRepository(c: Claim) returns (ok: bool)
      requires Inv(View())
      modifies this
      ensures ok <==> Upserted(old(View()), c).Some?
      ensures View() == AfterClaim(old(View()), c)
    {
      var before := rows;
      var existingByGitHubID := FindRepositoryByGitHubID(c.githubId);
      var existingByFullName;
      ok, existingByFullName := FindRepositoryByFullName(c.fullName);
      if !ok {
        return;
      }
      if existingByFullName.Some? && rows[existingByFullName.value].githubId != c.githubId {
        var holder := rows[existingByFullName.value];
        var released := holder.(fullName := ReleasedName(holder.githubId, c.now, c.fullName));
        TakenByOtherRow(rows, existingByFullName.value, released);
        ok := WriteRow(existingByFullName.value, released);
        if !ok {
          return;
        }
      }
      var id := if existingByGitHubID.Some? then existingByGitHubID.value else nextId;
      ok := WriteRow(id, Repo(c.githubId, Sanitize(c.fullName), c.data));
      if !ok {
        rows := before;
        return;
      }
      if existingByGitHubID.None? {
        nextId := nextId + 1;
      }
    }
  }

  // ------------------------------------------------------------- what it preserves

  /** Row ids are for good: no row goes away and no row changes its github_id. */
  lemma UpsertKeepsIds(s: State, c: Claim)
    requires Inv(s)
    ensures forall i | i in s.rows :: i in AfterClaim(s, c).rows && AfterClaim(s, c).rows[i].githubId == s.rows[i].githubId
    ensures UniqueIds(AfterClaim(s, c).rows)
    ensures forall i | i in AfterClaim(s, c).rows :: i < AfterClaim(s, c).nextId
  {
  }

  /** A claim that is not refused is stored as it came, in the row of its repository or a new one. No
      other row changes but that of the repository whose name it takes, and that only in its name. */
  lemma UpsertWritesClaim(s: State, c: Claim)
    requires Inv(s) && Upserted(s, c).Some?
    ensures var after := Upserted(s, c).value;
            && (exists i :: i in after.rows && after.rows[i] == Repo(c.githubId, Sanitize(c.fullName), c.data))
            && (forall i | i in s.rows && s.rows[i].githubId != c.githubId ::
                  i in after.rows && after.rows[i].(fullName := s.rows[i].fullName) == s.rows[i]
                  && (s.rows[i].fullName != c.fullName ==> after.rows[i] == s.rows[i]))
            && (forall i | i in after.rows && i !in s.rows :: i >= s.nextId && after.rows[i].githubId == c.githubId)
  {
    var byId := ByGithubId(s.rows, c.githubId);
    var id := if byId.Some? then byId.value else s.nextId;
    assert id in Upserted(s, c).value.rows && Upserted(s, c).value.rows[id] == Repo(c.githubId, Sanitize(c.fullName), c.data);
  }

  /** The name of a released row is unlike every sound name of another row. */
  lemma ReleasedNameIsFree(holder: Repo, c: Claim, other: Repo)
    requires SoundName(other) && other.githubId != holder.githubId
    ensures ReleasedName(holder.githubId, c.now, c.fullName) != other.fullName
    ensures !Shaped(ReleasedName(holder.githubId, c.now, c.fullName))
  {
    ReleasedParts(holder.githubId, c.now, c.fullName);
    if ReleasedName(holder.githubId, c.now, c.fullName) == other.fullName {
      FormatInjective(holder.githubId, other.githubId);
    }
  }

  lemma {:induction false} NULFreeParts(g: int, now: int, claimed: string)
    requires NUL !in claimed
    ensures NUL !in ReleasedName(g, now, claimed)
  {
    TrimmedHasNoMore(claimed, NUL);
  }

  lemma ReleasedIsSound(holder: Repo, c: Claim)
    requires NUL !in c.fullName
    ensures SoundName(holder.(fullName := ReleasedName(holder.githubId, c.now, c.fullName)))
  {
    ReleasedParts(holder.githubId, c.now, c.fullName);
    NULFreeParts(holder.githubId, c.now, c.fullName);
  }

  /** Releasing the name keeps all names apart. */
  lemma ReleaseKeepsNames(s: State, c: Claim)
    requires Inv(s)
    ensures var rows := Released(s.rows, ByFullName(s.rows, c.fullName), c);
            UniqueNames(rows) && forall i | i in rows :: SoundName(rows[i])
  {
    var byName := ByFullName(s.rows, c.fullName);
    var rows := Released(s.rows, byName, c);
    if byName.Some? && s.rows[byName.value].githubId != c.githubId {
      var holder := s.rows[byName.value];
      ReleasedIsSound(holder, c);
      forall i | i in s.rows && i != byName.value ensures rows[i].fullName != rows[byName.value].fullName {
        ReleasedNameIsFree(holder, c, s.rows[i]);
      }
    }
  }

  /** Some repository other than the claimant holds the name. */
  ghost predicate HeldByOther(rows: Rows, githubId: int, name: string) {
    exists i | i in rows :: rows[i].fullName == name && rows[i].githubId != githubId
  }

  /** A claim whose stored form is owner/repo is refused exactly if the claimed name holds a NUL and
      either the database is Postgres, which refuses the lookup, or what is left without the NUL belongs
      to another repository: the lookup uses the raw name and releases nothing, the write stores the
      cleaned one and meets the unique key. The release itself is never refused. */
  lemma RefusedIff(s: State, c: Claim)
    requires Inv(s) && Shaped(Sanitize(c.fullName))
    ensures Upserted(s, c).None?
            <==> NUL in c.fullName && (s.database == Postgres || HeldByOther(s.rows, c.githubId, Sanitize(c.fullName)))
  {
    ReleaseKeepsNames(s, c);
    var byId, byName := ByGithubId(s.rows, c.githubId), ByFullName(s.rows, c.fullName);
    var rows := Released(s.rows, byName, c);
    var id := if byId.Some? then byId.value else s.nextId;
    if NUL in c.fullName && HeldByOther(s.rows, c.githubId, Sanitize(c.fullName)) {
      var i :| i in s.rows && s.rows[i].fullName == Sanitize(c.fullName) && s.rows[i].githubId != c.githubId;
      assert byName.None? && i != id && rows[i].fullName == Sanitize(c.fullName);
    } else {
      forall i | i in rows && i != id ensures rows[i].fullName != Sanitize(c.fullName) {
        if byName == Some(i) && s.rows[i].githubId != c.githubId {
          ReleasedParts(s.rows[i].githubId, c.now, c.fullName);
        }
      }
    }
  }

  lemma UpsertKeepsInv(s: State, c: Claim)
    requires Inv(s) && Shaped(Sanitize(c.fullName))
    ensures Inv(AfterClaim(s, c))
  {
    UpsertKeepsIds(s, c);
    ReleaseKeepsNames(s, c);
  }

  /** A name with a NUL behind it cannot be taken over, while the same name without it can. */
  lemma NULNameIsRefused(database: Database)
    ensures var s := State(map[1 := Repo(5, "o/r", "")], 2, database);
            Inv(s) && Upserted(s, Claim(6, "o/r" + [NUL], "", 0)).None? && Upserted(s, Claim(6, "o/r", "", 0)).Some?
  {
    var s := State(map[1 := Repo(5, "o/r", "")], 2, database);
    SplitFirst("r", '/');
    SplitPiece("o", "r", '/');
    assert "o" + ['/'] + "r" == "o/r";
    assert Shaped("o/r");
    CleanedAway("o/r");
    assert s.rows[1].fullName == "o/r" && s.rows[1].githubId != 6;
    RefusedIff(s, Claim(6, "o/r" + [NUL], "", 0));
    assert NUL !in "o/r";
    RefusedIff(s, Claim(6, "o/r", "", 0));
  }

  lemma {:induction false} CleanedAway(name: string)
    requires NUL !in name
    ensures Sanitize(name + [NUL]) == name
  {
    if name != "" {
      assert (name + [NUL])[1..] == name[1..] + [NUL];
      CleanedAway(name[1..]);
    }
  }

  // ----------------------------------------------------------------- over all runs

  /** What is stored of the claimed name is owner/repo. */
  predicate ProperClaim(c: Claim) {
    Shaped(Sanitize(c.fullName))
  }

  predicate AllProper(claims: seq<Claim>) {
    forall c | c in claims :: ProperClaim(c)
  }

  ghost function Run(db: Database, claims: seq<Claim>): State {
    if claims == [] then State(map[], 1, db) else AfterClaim(Run(db, claims[..|claims| - 1]), claims[|claims| - 1])
  }

  /** Over any sequence of claims, renames and swaps included, released names stay apart from all
      others and every row keeps a name of its repository. */
  lemma {:induction false} RunKeepsInv(db: Database, claims: seq<Claim>)
    requires AllProper(claims)
    ensures Inv(Run(db, claims)) && Run(db, claims).database == db
  {
    if claims != [] {
      var init, last := claims[..|claims| - 1], claims[|claims| - 1];
      RunKeepsInv(db, init);
      assert last in claims;
      UpsertKeepsInv(Run(db, init), last);
    }
  }

  lemma RunAppend(db: Database, claims: seq<Claim>, c: Claim)
    ensures Run(db, claims + [c]) == AfterClaim(Run(db, claims), c)
  {
    assert (claims + [c])[..|claims|] == claims;
  }

  /** A repository keeps the row it first got, however the run goes on. */
  lemma {:induction false} RowIdsAreStable(db: Database, claims: seq<Claim>, more: seq<Claim>, id: int)
    requires AllProper(claims) && AllProper(more) && id in Run(db, claims).rows
    ensures id in Run(db, claims + more).rows && Run(db, claims + more).rows[id].githubId == Run(db, claims).rows[id].githubId
    decreases |more|
  {
    if more == [] {
      assert claims + more == claims;
    } else {
      TakeOne(claims, more);
      var one, rest := claims + [more[0]], more[1..];
      RowSurvivesClaim(db, claims, more[0], id);
      RowIdsAreStable(db, one, rest, id);
    }
  }

  lemma TakeOne(claims: seq<Claim>, more: seq<Claim>)
    requires AllProper(claims) && AllProper(more) && more != []
    ensures ProperClaim(more[0]) && AllProper(claims + [more[0]]) && AllProper(more[1..])
    ensures claims + more == claims + [more[0]] + more[1..]
  {
  }

  lemma RowSurvivesClaim(db: Database, claims: seq<Claim>, c: Claim, id: int)
    requires AllProper(claims) && ProperClaim(c) && id in Run(db, claims).rows
    ensures id in Run(db, claims + [c]).rows && Run(db, claims + [c]).rows[id].githubId == Run(db, claims).rows[id].githubId
  {
    RunKeepsInv(db, claims);
    RunAppend(db, claims, c);
    UpsertKeepsIds(Run(db, claims), c);
  }

  /** Who a name belongs to, going by the claims alone: the latest to claim it, as long as that
      repository has not claimed another name since. A claim with a NUL in it counts only on SQLite and
      for a name that is free or the claimant's own. */
  function Owner(db: Database, claims: seq<Claim>, name: string): Option<int>
    decreases |claims|, 0
  {
    if claims == [] then None
    else
      var init, last := claims[..|claims| - 1], claims[|claims| - 1];
      if Loses(db, init, last) then Owner(db, init, name)
      else if Sanitize(last.fullName) == name then Some(last.githubId)
      else if Owner(db, init, name) == Some(last.githubId) then None
      else Owner(db, init, name)
  }

  /** The claim comes with a NUL, on Postgres, or for a name that belongs to another repository. */
  predicate Loses(db: Database, before: seq<Claim>, c: Claim)
    decreases |before|, 1
  {
    && NUL in c.fullName
    && var owner := Owner(db, before, Sanitize(c.fullName));
    db == Postgres || (owner.Some? && owner.value != c.githubId)
  }

  ghost function HolderOf(rows: Rows, name: string): Option<int> {
    var id := ByFullName(rows, name);
    if id.Some? then Some(rows[id.value].githubId) else None
  }

  lemma HolderIs(rows: Rows, name: string, id: int)
    requires UniqueNames(rows) && id in rows && rows[id].fullName == name
    ensures HolderOf(rows, name) == Some(rows[id].githubId)
  {
  }

  lemma HeldMeansHolder(rows: Rows, githubId: int, name: string)
    requires UniqueNames(rows)
    ensures HeldByOther(rows, githubId, name) <==> HolderOf(rows, name).Some? && HolderOf(rows, name).value != githubId
  {
  }

  /** One claim that is not refused moves the claimed name to the claimant, takes the claimant's old
      name out of use and leaves every other owner/repo name where it is. */
  lemma UpsertMovesName(s: State, c: Claim, name: string)
    requires Inv(s) && ProperClaim(c) && Shaped(name) && Upserted(s, c).Some?
    ensures HolderOf(Upserted(s, c).value.rows, name)
            == if name == Sanitize(c.fullName) then Some(c.githubId)
               else if HolderOf(s.rows, name) == Some(c.githubId) then None else HolderOf(s.rows, name)
  {
    UpsertKeepsIds(s, c);
    UpsertKeepsInv(s, c);
    var byId, byName, after := ByGithubId(s.rows, c.githubId), ByFullName(s.rows, c.fullName), Upserted(s, c).value.rows;
    var id := if byId.Some? then byId.value else s.nextId;
    if name == Sanitize(c.fullName) {
      HolderIs(after, name, id);
    } else {
      if byName.Some? {
        ReleasedParts(s.rows[byName.value].githubId, c.now, c.fullName);
      }
      forall i | i in after ensures after[i].fullName == name <==> i != id && i in s.rows && s.rows[i].fullName == name {
      }
      var k := ByFullName(s.rows, name);
      if k.Some? && k.value != id {
        HolderIs(after, name, k.value);
      }
    }
  }

  /** A claim is refused exactly if it loses, once the holder of its name is the owner by the claims. */
  lemma RefusedIffLoses(db: Database, claims: seq<Claim>, c: Claim)
    requires AllProper(claims) && ProperClaim(c)
    requires HolderOf(Run(db, claims).rows, Sanitize(c.fullName)) == Owner(db, claims, Sanitize(c.fullName))
    ensures Upserted(Run(db, claims), c).None? <==> Loses(db, claims, c)
  {
    RunKeepsInv(db, claims);
    RefusedIff(Run(db, claims), c);
    HeldMeansHolder(Run(db, claims).rows, c.githubId, Sanitize(c.fullName));
  }

  lemma {:induction false} HolderFollowsClaims(db: Database, claims: seq<Claim>, name: string)
    requires AllProper(claims) && Shaped(name)
    ensures HolderOf(Run(db, claims).rows, name) == Owner(db, claims, name)
    decreases |claims|
  {
    if claims != [] {
      var init, last := claims[..|claims| - 1], claims[|claims| - 1];
      assert last in claims;
      HolderFollowsClaims(db, init, name);
      HolderFollowsClaims(db, init, Sanitize(last.fullName));
      RefusedIffLoses(db, init, last);
      if Upserted(Run(db, init), last).Some? {
        RunKeepsInv(db, init);
        UpsertMovesName(Run(db, init), last, name);
      }
    }
  }

  /** After any run the holder of every owner/repo name is its owner by the claims, and a claim is
      refused exactly if it loses by the claims. */
  lemma NamesFollowClaims(db: Database, claims: seq<Claim>, name: string)
    requires AllProper(claims) && Shaped(name)
    ensures HolderOf(Run(db, claims).rows, name) == Owner(db, claims, name)
    ensures forall c | ProperClaim(c) && Sanitize(c.fullName) == name :: Upserted(Run(db, claims), c).None? <==> Loses(db, claims, c)
  {
    HolderFollowsClaims(db, claims, name);
    forall c | ProperClaim(c) && Sanitize(c.fullName) == name
      ensures Upserted(Run(db, claims), c).None? <==> Loses(db, claims, c)
    {
      RefusedIffLoses(db, claims, c);
    }
  }
}
