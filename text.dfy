/** The JavaScript string operations the handlers rely on: `trim`, ASCII
    `toUpperCase`, `split` on a separator character and on runs of whitespace. */
module Text {

  /** Characters matched by `\s` and removed by `trim` (the ASCII ones). */
  predicate IsSpace(c: char) {
    c == ' ' || c == '\t' || c == '\n' || c == '\r' || c == '\U{000B}' || c == '\U{000C}'
  }

  function UpperChar(c: char): char {
    if 'a' <= c <= 'z' then (c as int - 32) as char else c
  }

  /** `String.prototype.toUpperCase` on ASCII letters; other characters are kept. */
  function Upper(s: string): (r: string)
    ensures |r| == |s|
    ensures forall i :: 0 <= i < |s| ==> r[i] == UpperChar(s[i])
  {
    seq(|s|, i requires 0 <= i < |s| => UpperChar(s[i]))
  }

  lemma UpperIdempotent(s: string)
    ensures Upper(Upper(s)) == Upper(s)
  {
    assert forall i :: 0 <= i < |s| ==> UpperChar(UpperChar(s[i])) == UpperChar(s[i]);
  }

  function TrimStart(s: string): (r: string)
    ensures |r| <= |s| && r == s[|s| - |r|..]
    ensures r == [] || !IsSpace(r[0])
    ensures forall i :: 0 <= i < |s| - |r| ==> IsSpace(s[i])
  {
    if s == [] || !IsSpace(s[0]) then s else TrimStart(s[1..])
  }

  function TrimEnd(s: string): (r: string)
    ensures |r| <= |s| && r == s[..|r|]
    ensures r == [] || !IsSpace(r[|r| - 1])
    ensures forall i :: |r| <= i < |s| ==> IsSpace(s[i])
  {
    if s == [] || !IsSpace(s[|s| - 1]) then s else TrimEnd(s[..|s| - 1])
  }

  /** `String.prototype.trim`: leading and trailing whitespace removed. */
  function Trim(s: string): (r: string)
    ensures |r| <= |s|
    ensures r == [] || (!IsSpace(r[0]) && !IsSpace(r[|r| - 1]))
  {
    TrimEnd(TrimStart(s))
  }

  /** Text made only of whitespace trims to the empty string. */
  lemma TrimBlank(s: string)
    requires forall i :: 0 <= i < |s| ==> IsSpace(s[i])
    ensures Trim(s) == ""
  {
  }

  lemma TrimIdempotent(s: string)
    ensures Trim(Trim(s)) == Trim(s)
  {
    var r := Trim(s);
    assert TrimStart(r) == r;
    assert TrimEnd(r) == r;
  }

  /** `s.split(sep)` for a one-character separator: the pieces between
      occurrences of `sep`; there is always at least one piece. */
  function Split(s: string, sep: char): (parts: seq<string>)
    ensures |parts| >= 1
    ensures forall i :: 0 <= i < |parts| ==> sep !in parts[i]
  {
    if s == [] then [""]
    else
      var rest := Split(s[1..], sep);
      if s[0] == sep then [""] + rest
      else [[s[0]] + rest[0]] + rest[1..]
  }

  /** Joining the pieces of `Split` with the separator gives back the string. */
  lemma {:induction false} SplitJoin(s: string, sep: char)
    ensures Join(Split(s, sep), sep) == s
  {
    if s != [] {
      SplitJoin(s[1..], sep);
      var rest := Split(s[1..], sep);
      if s[0] != sep {
        assert Split(s, sep) == [[s[0]] + rest[0]] + rest[1..];
        if |rest| == 1 {
          assert rest == [rest[0]];
        } else {
          assert rest == [rest[0]] + rest[1..];
          assert Join(rest, sep) == rest[0] + [sep] + Join(rest[1..], sep);
        }
      }
    }
  }

  function Join(parts: seq<string>, sep: char): string {
    if parts == [] then ""
    else if |parts| == 1 then parts[0]
    else parts[0] + [sep] + Join(parts[1..], sep)
  }

  /** A non-empty string without whitespace. */
  predicate IsWord(w: string) {
    w != [] && forall c :: c in w ==> !IsSpace(c)
  }

  /** The maximal runs of non-whitespace characters of `s`, in order. */
  function Words(s: string): (ws: seq<string>)
    ensures forall i :: 0 <= i < |ws| ==> IsWord(ws[i])
    decreases |s|
  {
    var t := TrimStart(s);
    if t == [] then []
    else
      var w := WordAt(t);
      [w] + Words(t[|w|..])
  }

  /** The leading run of non-whitespace characters of `s`. */
  function WordAt(s: string): (w: string)
    ensures |w| <= |s| && w == s[..|w|]
    ensures forall c :: c in w ==> !IsSpace(c)
    ensures s != [] && !IsSpace(s[0]) ==> w != []
  {
    if s == [] || IsSpace(s[0]) then [] else [s[0]] + WordAt(s[1..])
  }

  /** `s.trim().split(/\s+/)`: an all-blank string gives one empty piece. */
  function SplitOnSpaces(s: string): (parts: seq<string>)
    ensures |parts| >= 1
  {
    var ws := Words(s);
    if ws == [] then [""] else ws
  }

  lemma {:induction false} WordsOfWord(w: string)
    requires IsWord(w)
    ensures Words(w) == [w]
  {
    assert w[0] in w;
    assert TrimStart(w) == w;
    WordAtWhole(w);
    assert w[|w|..] == [];
  }

  lemma {:induction false} WordAtWhole(w: string)
    requires forall c :: c in w ==> !IsSpace(c)
    ensures WordAt(w) == w
  {
    if w != [] {
      assert w[0] in w;
      assert forall c :: c in w[1..] ==> c in w;
      WordAtWhole(w[1..]);
    }
  }

  /** `a + " " + b` splits on whitespace back into `a` and `b` when neither holds whitespace. */
  lemma {:induction false} WordsOfPair(a: string, b: string)
    requires IsWord(a) && IsWord(b)
    ensures Words(a + " " + b) == [a, b]
    ensures SplitOnSpaces(a + " " + b) == [a, b]
  {
    var rest := " " + b;
    var s := a + rest;
    assert a + " " + b == s;
    assert !IsSpace(s[0]) by {
      assert s[0] == a[0];
      assert a[0] in a;
    }
    WordsCons(s);
    WordAtPrefix(a, rest);
    assert s[|a|..] == rest;
    WordsSkipSpace(rest);
    assert rest[1..] == b;
    WordsOfWord(b);
    PairOfWords(Words(s), Words(rest), a, b);
  }

  /** Three words joined by single spaces split back into the three. */
  lemma WordsOfTriple(a: string, b: string, c: string)
    requires IsWord(a) && IsWord(b) && IsWord(c)
    ensures SplitOnSpaces(a + " " + b + " " + c) == [a, b, c]
  {
    WordBeforePair(a, b, c);
    WordsOfPair(b, c);
    var ws := Words(a + " " + b + " " + c);
    assert ws == [a] + [b, c];
  }

  lemma WordBeforePair(a: string, b: string, c: string)
    requires IsWord(a)
    ensures Words(a + " " + b + " " + c) == [a] + Words(b + " " + c)
  {
    var bc := b + " " + c;
    var rest := " " + bc;
    assert a + " " + b + " " + c == a + rest;
    assert rest[1..] == bc;
    WordThenRest(a, rest);
  }

  /** A word followed by whitespace splits off as the first word. */
  lemma WordThenRest(a: string, rest: string)
    requires IsWord(a) && rest != [] && IsSpace(rest[0])
    ensures Words(a + rest) == [a] + Words(rest[1..])
  {
    var s := a + rest;
    assert s[0] == a[0] && a[0] in a;
    WordsCons(s);
    WordAtPrefix(a, rest);
    assert s[|a|..] == rest;
    WordsSkipSpace(rest);
  }

  lemma PairOfWords(ws: seq<string>, tail: seq<string>, a: string, b: string)
    requires ws == [a] + tail && tail == [b]
    ensures ws == [a, b]
  {
  }

  lemma WordsCons(s: string)
    requires s != [] && !IsSpace(s[0])
    ensures Words(s) == [WordAt(s)] + Words(s[|WordAt(s)|..])
  {
    assert TrimStart(s) == s;
  }

  lemma WordsSkipSpace(s: string)
    requires s != [] && IsSpace(s[0])
    ensures Words(s) == Words(s[1..])
  {
    assert TrimStart(s) == TrimStart(s[1..]);
  }

  lemma {:induction false} WordAtPrefix(a: string, rest: string)
    requires forall c :: c in a ==> !IsSpace(c)
    requires rest != [] && IsSpace(rest[0])
    ensures WordAt(a + rest) == a
  {
    if a == [] {
      assert a + rest == rest;
    } else {
      assert a[0] in a;
      assert forall c :: c in a[1..] ==> c in a;
      assert (a + rest)[1..] == a[1..] + rest;
      WordAtPrefix(a[1..], rest);
    }
  }

  /** Every character of `s` is a decimal digit. */
  predicate AllDigits(s: string) {
    forall i :: 0 <= i < |s| ==> '0' <= s[i] <= '9'
  }
}
