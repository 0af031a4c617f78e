/**
 The text both ends of the GMSTORE protocol agree on: decimal numbers and words
 separated by blanks.  A byte on the wire is a `char` with the byte's value.
 */
module StoreText {
  import opened Basics

  // -------------------------------------------------------------------- numbers

  predicate IsDigit(c: char) { '0' <= c <= '9' }

  function DigitValue(c: char): (d: nat)
    requires IsDigit(c)
    ensures d < 10
  {
    c as int - '0' as int
  }

  function DigitChar(d: nat): (c: char)
    requires d < 10
    ensures IsDigit(c) && DigitValue(c) == d
  {
    (d + '0' as int) as char
  }

  /** The decimal digits of n, without leading zeros. */
  function Decimal(n: nat): (s: string)
    ensures |s| > 0 && (forall i :: 0 <= i < |s| ==> IsDigit(s[i]))
  {
    if n < 10 then [DigitChar(n)] else Decimal(n / 10) + [DigitChar(n % 10)]
  }

  /** What a string of digits stands for. */
  function DigitsValue(s: string): (n: nat)
    requires forall i :: 0 <= i < |s| ==> IsDigit(s[i])
  {
    if s == "" then 0 else DigitsValue(s[..|s| - 1]) * 10 + DigitValue(s[|s| - 1])
  }

  lemma {:induction false} DecimalValue(n: nat)
    ensures DigitsValue(Decimal(n)) == n
  {
    var s := Decimal(n);
    if n >= 10 {
      DecimalValue(n / 10);
      assert s[..|s| - 1] == Decimal(n / 10);
    } else {
      assert s[..0] == "";
    }
  }

  /** Numbers below 10^k have at most k digits. */
  lemma {:induction false} DecimalLength(n: nat, k: nat)
    requires k > 0 && n < Power10(k)
    ensures |Decimal(n)| <= k
  {
    if n >= 10 {
      DecimalLength(n / 10, k - 1);
    }
  }

  function Power10(k: nat): (p: nat)
    ensures p > 0
  {
    if k == 0 then 1 else 10 * Power10(k - 1)
  }

  /** A 64-bit number has at most twenty digits. */
  lemma DecimalFits(n: nat)
    requires n < B64
    ensures |Decimal(n)| <= 20
  {
    assert Power10(5) == 100000;
    assert Power10(10) == 10000000000;
    assert Power10(15) == 1000000000000000;
    assert Power10(20) == 100000000000000000000;
    DecimalLength(n, 20);
  }

  // ---------------------------------------------------------------------- words

  /** The words of a line: its longest runs of characters that are not blanks. */
  function Words(s: string): (ws: seq<string>)
    decreases |s|
  {
    if s == "" then []
    else if s[0] == ' ' then Words(s[1..])
    else [s[..IndexOf(s, ' ')]] + Words(s[IndexOf(s, ' ')..])
  }

  predicate IsWord(w: string) { w != "" && forall i :: 0 <= i < |w| ==> w[i] != ' ' }

  /** A word in front of the end of the line or of a blank is the first word. */
  lemma WordsOf(w: string, rest: string)
    requires IsWord(w) && (rest == "" || rest[0] == ' ')
    ensures Words(w + rest) == [w] + Words(rest)
  {
    IndexOfAt(w, ' ', rest);
    assert (w + rest)[..|w|] == w && (w + rest)[|w|..] == rest;
  }

  lemma WordsBlank(rest: string)
    ensures Words(" " + rest) == Words(rest)
  {
    assert (" " + rest)[1..] == rest;
  }

  lemma WordsInside(w: string, rest: string, d: string)
    requires IsWord(w) && (rest == "" || rest[0] == ' ')
    ensures Words(w + rest) == [w] + Words(rest)
    ensures Words(w + rest + " " + d) == [w] + Words(rest + " " + d)
  {
    WordsOf(w, rest);
    WordsOf(w, rest + " " + d);
    Regroup(w, rest, " ");
    Regroup(w, rest + " ", d);
  }

  /** A word after a blank is the last word. */
  lemma {:induction false} WordsAppend(x: string, d: string)
    requires IsWord(d)
    ensures Words(x + " " + d) == Words(x) + [d]
    decreases |x|
  {
    if x == "" {
      assert d + "" == d;
      WordsOf(d, "");
      WordsBlank(d);
      assert x + " " + d == " " + d;
    } else if x[0] == ' ' {
      WordsAppend(x[1..], d);
      assert (x + " " + d)[1..] == x[1..] + " " + d;
    } else {
      var n := IndexOf(x, ' ');
      var w, rest := x[..n], x[n..];
      assert x == w + rest && IsWord(w);
      WordsAppend(rest, d);
      WordsInside(w, rest, d);
    }
  }

  // ---------------------------------------------------------------------- bytes

  /** The bytes of a text. */
  function Bytes(s: string): (b: seq<byte>)
    ensures |b| == |s|
  {
    seq(|s|, i requires 0 <= i < |s| => s[i] as int % 256)
  }

  lemma BytesSlice(s: string, lo: nat, hi: nat)
    requires lo <= hi <= |s|
    ensures Bytes(s[lo..hi]) == Bytes(s)[lo..hi]
  {
  }

  /** The text of some bytes. */
  function Chars(b: seq<byte>): (s: string)
    ensures |s| == |b|
  {
    seq(|b|, i requires 0 <= i < |b| => b[i] as char)
  }

  lemma BytesChars(b: seq<byte>)
    ensures Bytes(Chars(b)) == b
  {
  }
}
