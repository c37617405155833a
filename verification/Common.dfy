/** Vocabulary shared by the models: optional values and the Go string helpers
    that several of the modelled files call. */
module Common {

  datatype Option<+T> = None | Some(value: T)

  function Max(a: int, b: int): int {
    if a > b then a else b
  }

  function Min(a: int, b: int): int {
    if a < b then a else b
  }

  ghost function Any<T>(s: set<T>): (x: T)
    requires s != {}
    ensures x in s
  {
    var x :| x in s;
    x
  }

  lemma HasNumber(numbers: set<int>)
    requires numbers != {}
    ensures exists n :: n in numbers
  {
    var n: int := Any(numbers);
    assert n in numbers;
  }

  /** The white space that strings.TrimSpace and strings.Fields cut at, on ASCII text. */
  predicate IsSpace(c: char) {
    c == ' ' || c == '\t' || c == '\n' || c == '\r' || c == 11 as char || c == 12 as char
  }

  lemma SpaceCodes(c: char)
    ensures IsSpace(c) <==> c as int == 32 || 9 <= c as int <= 13
  {
  }

  function TrimLeft(s: string): string {
    if s != "" && IsSpace(s[0]) then TrimLeft(s[1..]) else s
  }

  function TrimRight(s: string): string {
    if s != "" && IsSpace(s[|s| - 1]) then TrimRight(s[..|s| - 1]) else s
  }

  /** strings.TrimSpace */
  function TrimSpace(s: string): string {
    TrimRight(TrimLeft(s))
  }

  /** No white space at either end. */
  predicate Trimmed(s: string) {
    s == "" || (!IsSpace(s[0]) && !IsSpace(s[|s| - 1]))
  }

  /** strings.TrimPrefix */
  function TrimPrefix(s: string, prefix: string): string {
    if prefix <= s then s[|prefix|..] else s
  }

  lemma TrimRightKeepsHead(s: string)
    ensures TrimRight(s) <= s
  {
  }

  /** The strings that TrimSpace leaves alone are exactly the trimmed ones, and
      its results are among them. */
  lemma TrimSpaceFixed(s: string)
    ensures Trimmed(TrimSpace(s))
    ensures TrimSpace(s) == s <==> Trimmed(s)
  {
    TrimLeftHead(s);
    TrimRightTail(TrimLeft(s));
    TrimRightKeepsHead(TrimLeft(s));
  }

  predicate AllSpace(s: string) {
    forall i :: 0 <= i < |s| ==> IsSpace(s[i])
  }

  /** Only white space is cut off, and only at the ends. */
  lemma TrimSpaceCutsSpace(s: string)
    ensures exists i, j :: 0 <= i <= j <= |s| && TrimSpace(s) == s[i..j] && AllSpace(s[..i]) && AllSpace(s[j..])
  {
    var i := TrimLeftCut(s);
    var j := TrimRightCut(s[i..]);
    assert s[i..][..j] == s[i..i + j] && s[i..][j..] == s[i + j..];
  }

  lemma {:induction false} TrimLeftCut(s: string) returns (i: nat)
    ensures i <= |s| && TrimLeft(s) == s[i..] && AllSpace(s[..i])
  {
    i := 0;
    if s != "" && IsSpace(s[0]) {
      var k := TrimLeftCut(s[1..]);
      i := k + 1;
      assert s[..i] == [s[0]] + s[1..][..k];
    }
  }

  lemma {:induction false} TrimRightCut(s: string) returns (j: nat)
    ensures j <= |s| && TrimRight(s) == s[..j] && AllSpace(s[j..])
  {
    j := |s|;
    if s != "" && IsSpace(s[|s| - 1]) {
      j := TrimRightCut(s[..|s| - 1]);
      assert s[j..] == s[..|s| - 1][j..] + [s[|s| - 1]];
    }
  }

  lemma TrimLeftHead(s: string)
    ensures TrimLeft(s) == "" || !IsSpace(TrimLeft(s)[0])
    ensures TrimLeft(s) == s <==> s == "" || !IsSpace(s[0])
    ensures |TrimLeft(s)| <= |s|
  {
  }

  lemma TrimRightTail(s: string)
    ensures TrimRight(s) == "" || !IsSpace(TrimRight(s)[|TrimRight(s)| - 1])
    ensures TrimRight(s) == s <==> s == "" || !IsSpace(s[|s| - 1])
    ensures |TrimRight(s)| <= |s|
  {
  }

  // ------------------------------------------------------ splitting and numbers

  /** strings.Split and bytes.Split at one character. */
  function Split(s: string, c: char): (parts: seq<string>)
    ensures |parts| >= 1
  {
    if s == "" then [""]
    else
      var rest := Split(s[1..], c);
      if s[0] == c then [""] + rest else [[s[0]] + rest[0]] + rest[1..]
  }

  lemma {:induction false} SplitPiece(piece: string, rest: string, c: char)
    requires c !in piece
    ensures Split(piece + [c] + rest, c) == [piece] + Split(rest, c)
  {
    var s := piece + [c] + rest;
    if piece == "" {
      assert s[1..] == rest;
    } else {
      SplitPiece(piece[1..], rest, c);
      assert s[1..] == piece[1..] + [c] + rest;
      assert piece == [piece[0]] + piece[1..];
    }
  }

  /** The first part is the whole exactly when there is nothing to split at. */
  lemma {:induction false} SplitFirst(s: string, c: char)
    ensures Split(s, c)[0] <= s
    ensures if c in s then |Split(s, c)| >= 2 && |Split(s, c)[0]| < |s| else Split(s, c) == [s]
    ensures forall part | part in Split(s, c) :: c !in part
  {
    if s != "" {
      SplitFirst(s[1..], c);
      assert s == [s[0]] + s[1..];
    }
  }

  predicate IsDigit(c: char) {
    '0' <= c <= '9'
  }

  predicate AllDigits(s: string) {
    forall i :: 0 <= i < |s| ==> IsDigit(s[i])
  }

  /** The number that decimal digits stand for. */
  function Decimal(s: string): (n: nat)
    requires AllDigits(s)
  {
    if s == "" then 0 else 10 * Decimal(s[..|s| - 1]) + (s[|s| - 1] as int - '0' as int)
  }

  /** strconv.Itoa on a number that is not negative. */
  function Itoa(n: nat): (s: string)
    ensures s != "" && AllDigits(s) && Decimal(s) == n
  {
    if n < 10 then [(n + '0' as int) as char] else Itoa(n / 10) + [(n % 10 + '0' as int) as char]
  }
}
