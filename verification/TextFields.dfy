/** strings.Fields and strings.Join: words out of text and back. */
module TextFields {
  import opened Common

  /** The text up to the first white space. */
  function Word(s: string): string {
    if s == "" || IsSpace(s[0]) then "" else [s[0]] + Word(s[1..])
  }

  predicate IsWord(s: string) {
    s != "" && forall i :: 0 <= i < |s| ==> !IsSpace(s[i])
  }

  lemma {:induction false} WordIsPrefix(s: string)
    ensures Word(s) <= s && (s != "" && !IsSpace(s[0]) ==> IsWord(Word(s)))
  {
    if s != "" && !IsSpace(s[0]) {
      WordIsPrefix(s[1..]);
    }
  }

  function Fields(s: string): seq<string>
    decreases |s|
  {
    TrimLeftTail(s);
    var t := TrimLeft(s);
    if t == "" then []
    else
      WordIsPrefix(t);
      assert t == Word(t) + t[|Word(t)|..];
      [Word(t)] + Fields(t[|Word(t)|..])
  }

  lemma {:induction false} TrimLeftTail(s: string)
    ensures |TrimLeft(s)| <= |s| && TrimLeft(s) == s[|s| - |TrimLeft(s)|..]
    ensures TrimLeft(s) == "" || !IsSpace(TrimLeft(s)[0])
  {
    if s != "" && IsSpace(s[0]) {
      TrimLeftTail(s[1..]);
    }
  }

  lemma {:induction false} FieldsAreWords(s: string, c: char)
    requires c !in s
    ensures forall f | f in Fields(s) :: IsWord(f) && c !in f
    decreases |s|
  {
    TrimLeftTail(s);
    var t := TrimLeft(s);
    if t != "" {
      WordIsPrefix(t);
      FieldsAreWords(t[|Word(t)|..], c);
    }
  }

  lemma {:induction false} WordOf(w: string, rest: string)
    requires forall i :: 0 <= i < |w| ==> !IsSpace(w[i])
    requires rest == "" || IsSpace(rest[0])
    ensures Word(w + rest) == w
  {
    if w == "" {
      assert w + rest == rest;
    } else {
      assert (w + rest)[1..] == w[1..] + rest;
      WordOf(w[1..], rest);
    }
  }

  /** strings.Join with one space. */
  function Spaced(words: seq<string>): string {
    if words == [] then "" else if |words| == 1 then words[0] else words[0] + (" " + Spaced(words[1..]))
  }

  lemma FieldsOfWord(w: string, rest: string)
    requires IsWord(w) && (rest == "" || rest[0] == ' ')
    ensures Fields(w + rest) == [w] + Fields(rest)
  {
    var s := w + rest;
    assert s[0] == w[0];
    WordOf(w, rest);
    assert s[|w|..] == rest;
  }

  lemma FieldsAfterSpace(s: string)
    ensures Fields(" " + s) == Fields(s)
  {
    assert (" " + s)[1..] == s;
    assert TrimLeft(" " + s) == TrimLeft(s);
  }

  lemma {:induction false} FieldsOfSpaced(words: seq<string>)
    requires forall w | w in words :: IsWord(w)
    ensures Fields(Spaced(words)) == words
  {
    if words == [] {
    } else if |words| == 1 {
      assert words[0] in words && words[0] + "" == words[0];
      FieldsOfWord(words[0], "");
      assert Fields("") == [];
    } else {
      assert words[0] in words;
      FieldsOfWord(words[0], " " + Spaced(words[1..]));
      FieldsAfterSpace(Spaced(words[1..]));
      FieldsOfSpaced(words[1..]);
    }
  }

  lemma {:induction false} SpacedLacks(words: seq<string>, c: char)
    requires c != ' ' && forall w | w in words :: c !in w
    ensures c !in Spaced(words)
  {
    if |words| == 1 {
      assert words[0] in words;
    } else if words != [] {
      assert words[0] in words;
      SpacedLacks(words[1..], c);
    }
  }
}
