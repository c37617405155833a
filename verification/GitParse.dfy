/** The parsers for `git diff --raw -z` and `git diff --numstat -z`, next to printers of the same
    two formats (internal/gitindex/service.go). Text is a sequence of bytes. */
module GitParse {
  import opened Common
  import opened TextFields

  const NUL: char := '\0'
  const MAX_INT := 0x7fff_ffff_ffff_ffff

  // ------------------------------------------------------------------- tokens

  function NonEmpty(parts: seq<string>): seq<string> {
    if parts == [] then [] else (if parts[0] == "" then [] else [parts[0]]) + NonEmpty(parts[1..])
  }

  function Tokens(raw: string): seq<string> {
    NonEmpty(Split(raw, NUL))
  }

  method SplitNULTokens(raw: string) returns (out: seq<string>)
    ensures out == Tokens(raw)
  {
    var parts := Split(raw, NUL);
    out := [];
    for k := 0 to |parts|
      invariant out + NonEmpty(parts[k..]) == NonEmpty(parts)
    {
      if parts[k] == "" {
        continue;
      }
      out := out + [parts[k]];
    }
  }

  function Terminated(tokens: seq<string>): string {
    if tokens == [] then "" else tokens[0] + [NUL] + Terminated(tokens[1..])
  }

  /** What can stand between two NUL bytes. */
  predicate IsToken(s: string) {
    s != "" && NUL !in s
  }

  lemma {:induction false} TokensRoundTrip(tokens: seq<string>)
    requires forall t | t in tokens :: IsToken(t)
    ensures Tokens(Terminated(tokens)) == tokens
  {
    if tokens == [] {
      assert Split("", NUL) == [""] && [""][1..] == [];
    } else {
      TokensRoundTrip(tokens[1..]);
      assert tokens[0] in tokens;
      SplitPiece(tokens[0], Terminated(tokens[1..]), NUL);
      var later := Split(Terminated(tokens[1..]), NUL);
      assert ([tokens[0]] + later)[1..] == later;
      assert tokens == [tokens[0]] + tokens[1..];
    }
  }

  lemma {:induction false} NonEmptyKeeps(parts: seq<string>)
    ensures forall p :: p in NonEmpty(parts) <==> p in parts && p != ""
  {
    if parts != [] {
      NonEmptyKeeps(parts[1..]);
    }
  }

  lemma TokensAreTokens(raw: string)
    ensures forall t | t in Tokens(raw) :: IsToken(t)
  {
    NonEmptyKeeps(Split(raw, NUL));
    SplitFirst(raw, NUL);
  }

  // ---------------------------------------------------------------- raw records

  datatype RawRecord = RawRecord(oldMode: string, newMode: string, oldOID: string, newOID: string,
                                 status: string, path: string, previousPath: string)

  predicate IsHeader(token: string) {
    token != "" && token[0] == ':'
  }

  predicate IsRenameOrCopy(status: string) {
    "R" <= status || "C" <= status
  }

  /** Renames and copies are told by the first letter, whatever score follows it. */
  lemma RenameOrCopyLetter(c: char, score: string)
    ensures IsRenameOrCopy([c] + score) <==> c == 'R' || c == 'C'
    ensures !IsRenameOrCopy("")
  {
    var status := [c] + score;
    assert "R" <= status <==> status[0] == 'R';
    assert "C" <= status <==> status[0] == 'C';
  }

  /** A record with its fields in place of the header words and no second path. */
  function RawHead(parts: seq<string>, path: string): RawRecord
    requires |parts| >= 5
  {
    RawRecord(parts[0], parts[1], parts[2], parts[3], parts[4], path, "")
  }

  function ParseRawTokens(tokens: seq<string>): seq<RawRecord> {
    if tokens == [] then []
    else if !IsHeader(tokens[0]) then ParseRawTokens(tokens[1..])
    else
      var parts := Fields(TrimPrefix(tokens[0], ":"));
      if |parts| < 5 || |tokens| < 2 then []
      else if IsRenameOrCopy(parts[4]) && |tokens| >= 3 then
        [RawHead(parts, tokens[2]).(previousPath := tokens[1])] + ParseRawTokens(tokens[3..])
      else [RawHead(parts, tokens[1])] + ParseRawTokens(tokens[2..])
  }

  /** Moving the first of what is still to come to the end of what is done. */
  lemma MoveOne<T>(done: seq<T>, todo: seq<T>, x: T, rest: seq<T>)
    requires todo == [x] + rest
    ensures done + todo == (done + [x]) + rest
  {
  }

  /** The records from one token on, by index as the loop reads them. */
  function ParseRawAt(tokens: seq<string>, i: nat): seq<RawRecord>
    requires i <= |tokens|
    decreases |tokens| - i
  {
    if i == |tokens| then []
    else if !IsHeader(tokens[i]) then ParseRawAt(tokens, i + 1)
    else
      var parts := Fields(TrimPrefix(tokens[i], ":"));
      if |parts| < 5 || i + 1 >= |tokens| then []
      else if IsRenameOrCopy(parts[4]) && i + 2 < |tokens| then
        [RawHead(parts, tokens[i + 2]).(previousPath := tokens[i + 1])] + ParseRawAt(tokens, i + 3)
      else [RawHead(parts, tokens[i + 1])] + ParseRawAt(tokens, i + 2)
  }

  lemma {:induction false} ParseRawFrom(tokens: seq<string>, i: nat)
    requires i <= |tokens|
    ensures ParseRawAt(tokens, i) == ParseRawTokens(tokens[i..])
    decreases |tokens| - i
  {
    var rest := tokens[i..];
    if i < |tokens| {
      ParseRawFrom(tokens, i + 1);
      assert rest[1..] == tokens[i + 1..];
    }
    if i + 1 < |tokens| {
      ParseRawFrom(tokens, i + 2);
      assert rest[2..] == tokens[i + 2..];
    }
    if i + 2 < |tokens| {
      ParseRawFrom(tokens, i + 3);
      assert rest[3..] == tokens[i + 3..];
    }
  }

  method ParseRawZ(raw: string) returns (out: seq<RawRecord>)
    ensures out == ParseRawTokens(Tokens(raw))
  {
    var tokens := SplitNULTokens(raw);
    ParseRawFrom(tokens, 0);
    assert tokens[0..] == tokens;
    ghost var all := ParseRawTokens(tokens);
    out := [];
    var i := 0;
    while i < |tokens|
      invariant 0 <= i <= |tokens|
      invariant all == out + ParseRawAt(tokens, i)
    {
      ghost var todo := ParseRawAt(tokens, i);
      var header := tokens[i];
      if !IsHeader(header) {
        i := i + 1;
        continue;
      }
      i := i + 1;
      var parts := Fields(TrimPrefix(header, ":"));
      if |parts| < 5 || i >= |tokens| {
        assert all == out;
        return;
      }
      var record := RawHead(parts, tokens[i]);
      if IsRenameOrCopy(record.status) && i + 1 < |tokens| {
        record := record.(previousPath := record.path);
        i := i + 1;
        record := record.(path := tokens[i]);
      }
      MoveOne(out, todo, record, ParseRawAt(tokens, i + 1));
      out := out + [record];
      i := i + 1;
    }
  }

  function HeaderWords(r: RawRecord): seq<string> {
    [r.oldMode, r.newMode, r.oldOID, r.newOID, r.status]
  }

  function RawRecordTokens(r: RawRecord): seq<string> {
    [":" + Spaced(HeaderWords(r))] + if IsRenameOrCopy(r.status) then [r.previousPath, r.path] else [r.path]
  }

  function RawTokens(records: seq<RawRecord>): seq<string> {
    if records == [] then [] else RawRecordTokens(records[0]) + RawTokens(records[1..])
  }

  /** What git prints for these records. */
  function EncodeRaw(records: seq<RawRecord>): string {
    Terminated(RawTokens(records))
  }

  predicate IsHeaderWord(s: string) {
    IsWord(s) && NUL !in s
  }

  /** A record git can print: five words, a path, and the path it came from if it was renamed or
      copied. Paths may hold white space and start with a colon. */
  predicate ValidRaw(r: RawRecord) {
    && (forall w | w in HeaderWords(r) :: IsHeaderWord(w)) && IsToken(r.path)
    && if IsRenameOrCopy(r.status) then IsToken(r.previousPath) else r.previousPath == ""
  }

  lemma RawHeaderFields(r: RawRecord)
    requires ValidRaw(r)
    ensures Fields(TrimPrefix(":" + Spaced(HeaderWords(r)), ":")) == HeaderWords(r)
  {
    FieldsOfSpaced(HeaderWords(r));
    assert (":" + Spaced(HeaderWords(r)))[1..] == Spaced(HeaderWords(r));
  }

  /** One printed record in front of any other tokens. */
  lemma ParseRawRecord(r: RawRecord, rest: seq<string>)
    requires ValidRaw(r)
    ensures ParseRawTokens(RawRecordTokens(r) + rest) == [r] + ParseRawTokens(rest)
  {
    RawHeaderFields(r);
    var tokens := RawRecordTokens(r) + rest;
    assert tokens[|RawRecordTokens(r)|..] == rest;
    ParseRawFrom(tokens, 0);
    assert tokens[0..] == tokens;
  }

  lemma RawRecordTokensAreTokens(r: RawRecord)
    requires ValidRaw(r)
    ensures forall t | t in RawRecordTokens(r) :: IsToken(t)
  {
    SpacedLacks(HeaderWords(r), NUL);
  }

  lemma {:induction false} RawTokensParse(records: seq<RawRecord>)
    requires forall r | r in records :: ValidRaw(r)
    ensures (forall t | t in RawTokens(records) :: IsToken(t)) && ParseRawTokens(RawTokens(records)) == records
  {
    if records != [] {
      assert records[0] in records;
      RawRecordTokensAreTokens(records[0]);
      RawTokensParse(records[1..]);
      ParseRawRecord(records[0], RawTokens(records[1..]));
    }
  }

  /** The parser gives back whatever records git printed. */
  lemma RawRoundTrip(records: seq<RawRecord>)
    requires forall r | r in records :: ValidRaw(r)
    ensures ParseRawTokens(Tokens(EncodeRaw(records))) == records
  {
    RawTokensParse(records);
    TokensRoundTrip(RawTokens(records));
  }

  lemma {:induction false} RawRecordsFromTokens(tokens: seq<string>)
    requires forall t | t in tokens :: IsToken(t)
    ensures forall r | r in ParseRawTokens(tokens) :: ValidRaw(r) || (IsRenameOrCopy(r.status) && r.previousPath == "")
    decreases |tokens|
  {
    if tokens == [] {
    } else if !IsHeader(tokens[0]) {
      RawRecordsFromTokens(tokens[1..]);
    } else if |Fields(TrimPrefix(tokens[0], ":"))| >= 5 && |tokens| >= 2 {
      var parts := Fields(TrimPrefix(tokens[0], ":"));
      assert tokens[0] in tokens && tokens[1] in tokens;
      FieldsAreWords(TrimPrefix(tokens[0], ":"), NUL);
      RawRecordsFromTokens(tokens[2..]);
      if |tokens| >= 3 {
        RawRecordsFromTokens(tokens[3..]);
      }
    }
  }

  /** On arbitrary bytes the parser yields only records git could have printed, save for renames cut
      off before their second path; without those, printing and parsing again changes nothing. */
  lemma RawParseIsStable(raw: string)
    ensures forall r | r in ParseRawTokens(Tokens(raw)) :: ValidRaw(r) || (IsRenameOrCopy(r.status) && r.previousPath == "")
    ensures var records := ParseRawTokens(Tokens(raw));
            (forall r | r in records && IsRenameOrCopy(r.status) :: r.previousPath != "")
            ==> ParseRawTokens(Tokens(EncodeRaw(records))) == records
  {
    TokensAreTokens(raw);
    RawRecordsFromTokens(Tokens(raw));
    var records := ParseRawTokens(Tokens(raw));
    if forall r | r in records && IsRenameOrCopy(r.status) :: r.previousPath != "" {
      RawRoundTrip(records);
    }
  }

  // ------------------------------------------------------------ numstat records

  datatype NumstatRecord = NumstatRecord(path: string, previousPath: string, additions: int, deletions: int, binary: bool)

  /** strconv.Atoi with its error ignored: 0 for what is no number, the nearest int for what does
      not fit. */
  function Atoi(s: string): int {
    var signed := s != "" && (s[0] == '-' || s[0] == '+');
    var digits := if signed then s[1..] else s;
    if digits == "" || !AllDigits(digits) then 0
    else if signed && s[0] == '-' then
      var n: int := Decimal(digits);
      Max(-MAX_INT - 1, -n)
    else Min(MAX_INT, Decimal(digits))
  }

  /** parseNumstatCounts */
  function ParseNumstatCounts(additions: string, deletions: string): (int, int, bool) {
    if additions == "-" || deletions == "-" then (0, 0, true) else (Atoi(additions), Atoi(deletions), false)
  }

  /** What counts are read as: dashes stand for binary content; signs are taken, what does not fit is
      the nearest that does, and what is no number is 0. */
  lemma CountsReadAs(s: string, n: nat)
    ensures ParseNumstatCounts("-", s) == ParseNumstatCounts(s, "-") == (0, 0, true)
    ensures s != "-" ==> ParseNumstatCounts(s, s) == (Atoi(s), Atoi(s), false)
    ensures Atoi(Itoa(n)) == Min(n, MAX_INT) && Atoi("+" + Itoa(n)) == Min(n, MAX_INT) && Atoi("-" + Itoa(n)) == Max(0 - n, -MAX_INT - 1)
    ensures !AllDigits(s) && s[0] != '+' && s[0] != '-' ==> Atoi(s) == 0
    ensures Atoi("") == 0
  {
    var digits := Itoa(n);
    assert IsDigit(digits[0]);
    assert ("+" + digits)[1..] == digits && ("-" + digits)[1..] == digits;
  }

  function NumstatOf(fields: seq<string>, path: string, previousPath: string): NumstatRecord
    requires |fields| >= 3
  {
    var counts := ParseNumstatCounts(fields[0], fields[1]);
    NumstatRecord(path, previousPath, counts.0, counts.1, counts.2)
  }

  function ParseNumstatTokens(tokens: seq<string>): seq<NumstatRecord> {
    if tokens == [] then []
    else
      var fields := Split(tokens[0], '\t');
      if |fields| < 3 then ParseNumstatTokens(tokens[1..])
      else if fields[2] != "" then [NumstatOf(fields, fields[2], "")] + ParseNumstatTokens(tokens[1..])
      else if |tokens| < 3 then []
      else [NumstatOf(fields, tokens[2], tokens[1])] + ParseNumstatTokens(tokens[3..])
  }

  function ParseNumstatAt(tokens: seq<string>, i: nat): seq<NumstatRecord>
    requires i <= |tokens|
    decreases |tokens| - i
  {
    if i == |tokens| then []
    else
      var fields := Split(tokens[i], '\t');
      if |fields| < 3 then ParseNumstatAt(tokens, i + 1)
      else if fields[2] != "" then [NumstatOf(fields, fields[2], "")] + ParseNumstatAt(tokens, i + 1)
      else if i + 2 >= |tokens| then []
      else [NumstatOf(fields, tokens[i + 2], tokens[i + 1])] + ParseNumstatAt(tokens, i + 3)
  }

  lemma {:induction false} ParseNumstatFrom(tokens: seq<string>, i: nat)
    requires i <= |tokens|
    ensures ParseNumstatAt(tokens, i) == ParseNumstatTokens(tokens[i..])
    decreases |tokens| - i
  {
    var rest := tokens[i..];
    if i < |tokens| {
      ParseNumstatFrom(tokens, i + 1);
      assert rest[1..] == tokens[i + 1..];
    }
    if i + 2 < |tokens| {
      ParseNumstatFrom(tokens, i + 3);
      assert rest[3..] == tokens[i + 3..];
    }
  }

  method ParseNumstatZ(raw: string) returns (out: seq<NumstatRecord>)
    ensures out == ParseNumstatTokens(Tokens(raw))
  {
    var tokens := SplitNULTokens(raw);
    ParseNumstatFrom(tokens, 0);
    assert tokens[0..] == tokens;
    ghost var all := ParseNumstatTokens(tokens);
    out := [];
    var i := 0;
    while i < |tokens|
      invariant 0 <= i <= |tokens|
      invariant all == out + ParseNumstatAt(tokens, i)
    {
      ghost var todo := ParseNumstatAt(tokens, i);
      var fields := Split(tokens[i], '\t');
      if |fields| < 3 {
        i := i + 1;
        continue;
      }
      i := i + 1;
      var path := fields[2];
      var previousPath := "";
      if path == "" {
        if i >= |tokens| {
          assert all == out;
          return;
        }
        previousPath := tokens[i];
        i := i + 1;
        if i >= |tokens| {
          assert all == out;
          return;
        }
        path := tokens[i];
      } else {
        i := i - 1;
      }
      MoveOne(out, todo, NumstatOf(fields, path, previousPath), ParseNumstatAt(tokens, i + 1));
      out := out + [NumstatOf(fields, path, previousPath)];
      i := i + 1;
    }
  }

  predicate ValidCounts(r: NumstatRecord) {
    if r.binary then r.additions == 0 && r.deletions == 0
    else 0 <= r.additions <= MAX_INT && 0 <= r.deletions <= MAX_INT
  }

  /** git prints dashes for binary content. */
  lemma BinaryPrintsDashes(r: NumstatRecord)
    requires ValidCounts(r)
    ensures Added(r) == Deleted(r) == "-" <==> r.binary
  {
    if !r.binary {
      assert IsDigit(Itoa(r.additions)[0]);
    }
  }

  function Added(r: NumstatRecord): string
    requires ValidCounts(r)
  {
    if r.binary then "-" else Itoa(r.additions)
  }

  function Deleted(r: NumstatRecord): string
    requires ValidCounts(r)
  {
    if r.binary then "-" else Itoa(r.deletions)
  }

  /** The counts and their tabs, then the path or nothing. */
  function NumstatLine(r: NumstatRecord, path: string): string
    requires ValidCounts(r)
  {
    Added(r) + ['\t'] + (Deleted(r) + ['\t'] + path)
  }

  /** A record git can print. */
  predicate ValidNumstat(r: NumstatRecord) {
    ValidCounts(r) && IsToken(r.path) && NUL !in r.previousPath
  }

  function NumstatRecordTokens(r: NumstatRecord): seq<string>
    requires ValidNumstat(r)
  {
    if r.previousPath == "" then [NumstatLine(r, r.path)] else [NumstatLine(r, ""), r.previousPath, r.path]
  }

  function NumstatTokens(records: seq<NumstatRecord>): seq<string>
    requires forall i :: 0 <= i < |records| ==> ValidNumstat(records[i])
  {
    if records == [] then [] else NumstatRecordTokens(records[0]) + NumstatTokens(records[1..])
  }

  /** What git prints for these records. */
  function EncodeNumstat(records: seq<NumstatRecord>): string
    requires forall i :: 0 <= i < |records| ==> ValidNumstat(records[i])
  {
    Terminated(NumstatTokens(records))
  }

  lemma AtoiItoa(n: nat)
    requires n <= MAX_INT
    ensures Atoi(Itoa(n)) == n && Itoa(n) != "-" && '\t' !in Itoa(n) && NUL !in Itoa(n)
  {
    var s := Itoa(n);
    forall i | 0 <= i < |s| ensures s[i] != '\t' && s[i] != NUL && s[i] != '-' {
      assert IsDigit(s[i]);
    }
  }

  lemma CountsRoundTrip(r: NumstatRecord)
    requires ValidCounts(r)
    ensures ParseNumstatCounts(Added(r), Deleted(r)) == (r.additions, r.deletions, r.binary)
    ensures '\t' !in Added(r) && '\t' !in Deleted(r) && NUL !in Added(r) && NUL !in Deleted(r)
  {
    if !r.binary {
      AtoiItoa(r.additions);
      AtoiItoa(r.deletions);
    }
  }

  lemma NumstatLineFields(r: NumstatRecord, path: string)
    requires ValidCounts(r)
    ensures Split(NumstatLine(r, path), '\t') == [Added(r), Deleted(r)] + Split(path, '\t')
  {
    CountsRoundTrip(r);
    SplitPiece(Deleted(r), path, '\t');
    var rest := Deleted(r) + ['\t'] + path;
    assert rest == Deleted(r) + (['\t'] + path);
    SplitPiece(Added(r), rest, '\t');
    assert NumstatLine(r, path) == Added(r) + ['\t'] + rest;
  }

  /** Only a path printed on the line itself has to be free of tabs. */
  predicate TabSafe(r: NumstatRecord) {
    r.previousPath == "" ==> '\t' !in r.path
  }

  lemma ParseNumstatRecord(r: NumstatRecord, rest: seq<string>)
    requires ValidNumstat(r) && TabSafe(r)
    ensures ParseNumstatTokens(NumstatRecordTokens(r) + rest) == [r] + ParseNumstatTokens(rest)
  {
    CountsRoundTrip(r);
    var tokens := NumstatRecordTokens(r) + rest;
    assert tokens[|NumstatRecordTokens(r)|..] == rest;
    if r.previousPath == "" {
      NumstatLineFields(r, r.path);
      SplitFirst(r.path, '\t');
    } else {
      NumstatLineFields(r, "");
    }
  }

  /** A path with a tab is cut off at the tab; one that starts with a tab is taken for a rename. */
  lemma TabMisparses(r: NumstatRecord, rest: seq<string>)
    requires ValidNumstat(r) && !TabSafe(r) && forall t | t in rest :: IsToken(t)
    ensures var parsed := ParseNumstatTokens(NumstatRecordTokens(r) + rest);
            parsed == [] || parsed[0].path != r.path || parsed[0].previousPath != r.previousPath
  {
    var tokens := NumstatRecordTokens(r) + rest;
    NumstatLineFields(r, r.path);
    SplitFirst(r.path, '\t');
    assert tokens[1..] == rest;
    assert Split(tokens[0], '\t')[2] == Split(r.path, '\t')[0];
    if |tokens| >= 3 {
      assert tokens[1] == rest[0] && rest[0] in rest;
    }
  }

  lemma NumstatRecordTokensAreTokens(r: NumstatRecord)
    requires ValidNumstat(r)
    ensures forall t | t in NumstatRecordTokens(r) :: IsToken(t)
  {
    CountsRoundTrip(r);
  }

  lemma {:induction false} NumstatTokensParse(records: seq<NumstatRecord>)
    requires forall i :: 0 <= i < |records| ==> ValidNumstat(records[i])
    ensures forall t | t in NumstatTokens(records) :: IsToken(t)
    ensures ParseNumstatTokens(NumstatTokens(records)) == records
            <==> forall i :: 0 <= i < |records| ==> TabSafe(records[i])
  {
    if records != [] {
      var r, rest := records[0], NumstatTokens(records[1..]);
      NumstatRecordTokensAreTokens(r);
      NumstatTokensParse(records[1..]);
      if TabSafe(r) {
        ParseNumstatRecord(r, rest);
        assert ([r] + ParseNumstatTokens(rest))[1..] == ParseNumstatTokens(rest);
        assert records == [r] + records[1..];
      } else {
        TabMisparses(r, rest);
      }
    }
  }

  /** The parser gives back whatever records git printed exactly when no path of a file that was not
      renamed holds a tab. */
  lemma NumstatRoundTrip(records: seq<NumstatRecord>)
    requires forall i :: 0 <= i < |records| ==> ValidNumstat(records[i])
    ensures ParseNumstatTokens(Tokens(EncodeNumstat(records))) == records
            <==> forall i :: 0 <= i < |records| ==> TabSafe(records[i])
  {
    NumstatTokensParse(records);
    TokensRoundTrip(NumstatTokens(records));
  }
}
