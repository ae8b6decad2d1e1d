/** The text side of the graph file format: splitting a line into the
    fields a `std::stringstream` extracts, and the decimal text of the
    integers the writer prints and the reader parses back. Doubles are
    printed and parsed by functions passed in as parameters. */
module Text {
  import opened Records

  // ---------------------------------------------------------------------
  // Fields of a line

  /** The characters `>>` skips before a field (a line read by `getline`
      holds no newline). */
  predicate IsSpace(c: char)
  {
    c == ' ' || c == '\t' || c == '\r' || c as int == 11 || c as int == 12
  }

  /** A field: at least one character and no white space. */
  predicate IsToken(t: string)
  {
    |t| > 0 && forall k :: 0 <= k < |t| ==> !IsSpace(t[k])
  }

  /** The length of the field at the front of `s`. */
  function WordLength(s: string): (n: nat)
    requires |s| > 0 && !IsSpace(s[0])
    ensures 0 < n <= |s|
    ensures forall k :: 0 <= k < n ==> !IsSpace(s[k])
    ensures n < |s| ==> IsSpace(s[n])
    decreases |s|
  {
    if |s| == 1 || IsSpace(s[1]) then 1 else 1 + WordLength(s[1..])
  }

  /** The fields of a line, in order. */
  function Tokens(s: string): (r: seq<string>)
    ensures forall k :: 0 <= k < |r| ==> IsToken(r[k])
    decreases |s|
  {
    if s == [] then []
    else if IsSpace(s[0]) then Tokens(s[1..])
    else
      var n := WordLength(s);
      [s[..n]] + Tokens(s[n..])
  }

  /** A field followed by white space or the end of the line is the first
      field of the line. */
  lemma TokensFront(t: string, rest: string)
    requires IsToken(t) && (rest == [] || IsSpace(rest[0]))
    ensures Tokens(t + rest) == [t] + Tokens(rest)
  {
    var s := t + rest;
    assert forall k :: 0 <= k < |t| ==> s[k] == t[k];
    assert |t| < |s| ==> s[|t|] == rest[0];
    assert WordLength(s) == |t|;
    assert s[..|t|] == t;
    assert s[|t|..] == rest;
  }

  /** White space before the first field does not count. */
  lemma TokensSpace(s: string)
    ensures Tokens(" " + s) == Tokens(s)
  {
    assert (" " + s)[1..] == s;
  }

  /** A field, a space and the rest of the line: the field comes first. */
  lemma TokensSeparated(t: string, rest: string)
    requires IsToken(t)
    ensures Tokens(t + " " + rest) == [t] + Tokens(rest)
  {
    assert t + " " + rest == t + (" " + rest);
    TokensSpace(rest);
    TokensFront(t, " " + rest);
  }

  /** Fields separated by single spaces: a line as `<<` writes it. */
  function Join(ts: seq<string>): string
    decreases |ts|
  {
    if ts == [] then ""
    else if |ts| == 1 then ts[0]
    else ts[0] + " " + Join(ts[1..])
  }

  /** Fields joined by single spaces split back into the same fields. */
  lemma {:induction false} TokensJoin(ts: seq<string>)
    requires forall k :: 0 <= k < |ts| ==> IsToken(ts[k])
    ensures Tokens(Join(ts)) == ts
    decreases |ts|
  {
    if |ts| == 1 {
      TokensFront(ts[0], []);
      assert ts[0] + [] == ts[0];
    } else if |ts| > 1 {
      var tail := ts[1..];
      assert forall k :: 0 <= k < |tail| ==> IsToken(tail[k]) by {
        forall k | 0 <= k < |tail| ensures IsToken(tail[k]) {
          assert tail[k] == ts[k + 1];
        }
      }
      TokensJoin(tail);
      TokensSeparated(ts[0], Join(tail));
      assert Join(ts) == ts[0] + " " + Join(tail);
      assert [ts[0]] + tail == ts;
    }
  }

  /** Field `k` of a line, or the empty text when the line has fewer. */
  function Field(ts: seq<string>, k: nat): string
  {
    if k < |ts| then ts[k] else ""
  }

  // ---------------------------------------------------------------------
  // Decimal integers

  predicate IsDigit(c: char)
  {
    '0' <= c <= '9'
  }

  predicate AllDigits(s: string)
  {
    forall k :: 0 <= k < |s| ==> IsDigit(s[k])
  }

  function DigitChar(d: nat): (c: char)
    requires d < 10
    ensures IsDigit(c) && c as int - '0' as int == d
  {
    (d + '0' as int) as char
  }

  /** The decimal digits of `n`, most significant first, without leading
      zeros: how `<<` prints an unsigned integer. */
  function Digits(n: nat): (s: string)
    ensures IsToken(s) && AllDigits(s)
    ensures n > 0 ==> s[0] != '0'
  {
    if n < 10 then [DigitChar(n)] else Digits(n / 10) + [DigitChar(n % 10)]
  }

  /** The value of a string of decimal digits. */
  function DigitsValue(s: string): nat
    requires AllDigits(s)
  {
    if s == [] then 0
    else DigitsValue(s[..|s| - 1]) * 10 + (s[|s| - 1] as int - '0' as int)
  }

  /** Reading back the digits of `n` gives `n`. */
  lemma {:induction false} DigitsValueOf(n: nat)
    ensures DigitsValue(Digits(n)) == n
  {
    if n >= 10 {
      DigitsValueOf(n / 10);
      var s := Digits(n);
      assert s[..|s| - 1] == Digits(n / 10);
    }
  }

  /** How `<<` prints a signed integer. */
  function IntText(i: int): (s: string)
    ensures IsToken(s) && (s[0] == '-' || IsDigit(s[0]))
  {
    if i < 0 then "-" + Digits(-i) else Digits(i)
  }

  /** `ss >> u` into an `unsigned int`, over one field: an optional sign
      and decimal digits. A value above `UINT_MAX` saturates to `UINT_MAX`,
      a minus sign negates modulo 2^32, and a field that is not a number
      as a whole gives 0 (`>>` would read a numeric prefix of it). */
  function ParseUnsigned(t: string): (u: nat)
    ensures u <= UINT_MAX
  {
    var signed := |t| > 0 && (t[0] == '-' || t[0] == '+');
    var body := if signed then t[1..] else t;
    if body == [] || !AllDigits(body) then 0
    else
      var v := DigitsValue(body);
      if v > UINT_MAX then UINT_MAX
      else if signed && t[0] == '-' then (UINT_MAX + 1 - v) % (UINT_MAX + 1)
      else v
  }

  /** The conversion of an `unsigned int` to `int`: the value congruent to
      `n` modulo 2^32 in the range of `int`. */
  function ToInt32(n: nat): (i: int)
    requires n <= UINT_MAX
    ensures -0x8000_0000 <= i < 0x8000_0000
    ensures (n - i) % 0x1_0000_0000 == 0
  {
    if n < 0x8000_0000 then n else n - 0x1_0000_0000
  }

  /** The conversion of a double to `unsigned int`: towards zero, defined
      when the result is in range. */
  function Truncate(x: real): (n: nat)
    requires -1.0 < x < 4294967296.0
    ensures n <= UINT_MAX
    ensures x >= 0.0 ==> n as real <= x < n as real + 1.0
    ensures x < 0.0 ==> n == 0
  {
    if x < 0.0 then 0 else x.Floor
  }

  /** An unsigned integer printed in decimal reads back as itself. */
  lemma UnsignedRoundTrip(n: nat)
    requires n <= UINT_MAX
    ensures ParseUnsigned(Digits(n)) == n
  {
    DigitsValueOf(n);
  }

  /** A negative number printed in decimal reads back as an unsigned
      integer modulo 2^32. */
  lemma NegativeRoundTrip(m: nat)
    requires 0 < m <= UINT_MAX
    ensures ParseUnsigned("-" + Digits(m)) == UINT_MAX + 1 - m
  {
    var t := "-" + Digits(m);
    assert t[0] == '-' && t[1..] == Digits(m);
    DigitsValueOf(m);
  }

  /** An unsigned integer converted to `int`, printed and read back as an
      unsigned integer is itself, even when the conversion made it
      negative. */
  lemma Int32RoundTrip(n: nat)
    requires n <= UINT_MAX
    ensures ParseUnsigned(IntText(ToInt32(n))) == n
  {
    if n < 0x8000_0000 {
      UnsignedRoundTrip(n);
    } else {
      NegativeRoundTrip(0x1_0000_0000 - n);
    }
  }
}
