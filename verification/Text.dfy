/**
  Text as the chat and schedule code reads it: words, cuts and decimal numbers. A `char`
  is one byte.
 */
module Text {
  import opened Instants

  // ---- text ----

  predicate IsSpace(c: char) {
    c == ' ' || c == '\t' || c == '\n' || c == '\r' || c == '\U{0B}' || c == '\U{0C}'
  }

  predicate Word(s: string) { s != "" && forall i :: 0 <= i < |s| ==> !IsSpace(s[i]) }

  /** The text before and after the first colon, and whether there is one. */
  function Cut(s: string): (string, string, bool) {
    if s == "" then ("", "", false)
    else if s[0] == ':' then ("", s[1..], true)
    else
      var (before, after, found) := Cut(s[1..]);
      ([s[0]] + before, after, found)
  }

  predicate NoColon(s: string) { forall i :: 0 <= i < |s| ==> s[i] != ':' }

  lemma {:induction false} CutAt(verb: string, rest: string)
    requires NoColon(verb)
    ensures Cut(verb + ":" + rest) == (verb, rest, true)
    decreases |verb|
  {
    var s := verb + ":" + rest;
    if verb == "" {
      assert s[1..] == rest;
    } else {
      assert s[1..] == verb[1..] + ":" + rest;
      CutAt(verb[1..], rest);
      assert [verb[0]] + verb[1..] == verb;
    }
  }

  lemma {:induction false} CutNone(s: string)
    requires NoColon(s)
    ensures Cut(s) == (s, "", false)
    decreases |s|
  {
    if s != "" {
      CutNone(s[1..]);
      assert [s[0]] + s[1..] == s;
    }
  }

  /** strings.Fields: the words of a line. `word` is the one being read. */
  function FieldsFrom(s: string, word: string): seq<string> {
    if s == "" then (if word == "" then [] else [word])
    else if IsSpace(s[0]) then (if word == "" then [] else [word]) + FieldsFrom(s[1..], "")
    else FieldsFrom(s[1..], word + [s[0]])
  }

  function Fields(s: string): seq<string> { FieldsFrom(s, "") }

  lemma {:induction false} ReadsWord(w: string, rest: string, word: string)
    requires forall i :: 0 <= i < |w| ==> !IsSpace(w[i])
    ensures FieldsFrom(w + rest, word) == FieldsFrom(rest, word + w)
    decreases |w|
  {
    if w == "" {
      assert w + rest == rest && word + w == word;
    } else {
      assert (w + rest)[1..] == w[1..] + rest;
      ReadsWord(w[1..], rest, word + [w[0]]);
      assert word + [w[0]] + w[1..] == word + w;
    }
  }

  function Line(words: seq<string>): string {
    if words == [] then "" else if |words| == 1 then words[0] else words[0] + " " + Line(words[1..])
  }

  /** A line of words reads back as those words. */
  lemma {:induction false} FieldsOfLine(words: seq<string>)
    requires forall i :: 0 <= i < |words| ==> Word(words[i])
    ensures Fields(Line(words)) == words
    decreases |words|
  {
    if |words| == 1 {
      assert words[0] + "" == words[0] && "" + words[0] == words[0];
      ReadsWord(words[0], "", "");
    } else if |words| > 1 {
      var rest := " " + Line(words[1..]);
      assert Line(words) == words[0] + rest && "" + words[0] == words[0];
      ReadsWord(words[0], rest, "");
      assert rest[1..] == Line(words[1..]);
      FieldsOfLine(words[1..]);
      assert [words[0]] + words[1..] == words;
    }
  }

  // ---- numbers ----

  const MAX_INT: int := 0x7fff_ffff_ffff_ffff

  function Digit(d: int): char
    requires 0 <= d < 10
  {
    ('0' as int + d) as char
  }

  predicate IsDigit(c: char) { '0' <= c <= '9' }

  /** Decimal digits without leading zeros. */
  function Digits(n: nat): string {
    if n < 10 then [Digit(n)] else Digits(n / 10) + [Digit(n % 10)]
  }

  function Itoa(n: int): string { if n < 0 then "-" + Digits(-n) else Digits(n) }

  function Value(s: string): (v: int)
    requires forall i :: 0 <= i < |s| ==> IsDigit(s[i])
  {
    if s == "" then 0 else 10 * Value(s[..|s| - 1]) + (s[|s| - 1] as int - '0' as int)
  }

  /** strconv.Atoi. */
  function Atoi(s: string): Option<int> {
    var digits := if s != "" && (s[0] == '-' || s[0] == '+') then s[1..] else s;
    if digits == "" || exists i :: 0 <= i < |digits| && !IsDigit(digits[i]) then None
    else
      var v := if s[0] == '-' then -Value(digits) else Value(digits);
      if -MAX_INT - 1 <= v <= MAX_INT then Some(v) else None
  }

  lemma {:induction false} DigitsRead(n: nat)
    ensures forall i :: 0 <= i < |Digits(n)| ==> IsDigit(Digits(n)[i])
    ensures Digits(n) != "" && Value(Digits(n)) == n
    decreases n
  {
    if n >= 10 {
      DigitsRead(n / 10);
      assert Digits(n)[..|Digits(n)| - 1] == Digits(n / 10);
    } else {
      assert Digits(n)[..0] == "";
    }
  }

  lemma ItoaReads(n: int)
    requires -MAX_INT <= n <= MAX_INT
    ensures Atoi(Itoa(n)) == Some(n)
  {
    DigitsRead(if n < 0 then -n else n);
    if n < 0 { assert Itoa(n)[1..] == Digits(-n); }
  }

  lemma ItoaIsWord(n: int)
    ensures Word(Itoa(n)) && NoColon(Itoa(n))
  {
    DigitsRead(if n < 0 then -n else n);
  }

  function Pow10(k: nat): nat { if k == 0 then 1 else 10 * Pow10(k - 1) }

  lemma {:induction false} DigitsShort(n: nat, k: nat)
    requires k > 0 && n < Pow10(k)
    ensures |Digits(n)| <= k
    decreases k
  {
    if n >= 10 { DigitsShort(n / 10, k - 1); }
  }

  lemma ItoaShort(n: int)
    requires -MAX_INT <= n <= MAX_INT
    ensures |Itoa(n)| <= 20
  {
    assert Pow10(5) == 100000;
    assert Pow10(10) == 10000000000;
    assert Pow10(15) == 1000000000000000;
    assert Pow10(19) == 10000000000000000000;
    DigitsShort(if n < 0 then -n else n, 19);
  }
}
