/**
  String helpers the client relies on: PHP's decimal rendering of integers,
  `rtrim` with a single character, and splitting at a separator (used to
  show that the signing string can be read back field by field).
 */
module Text {

  predicate IsDigit(c: char) { '0' <= c <= '9' }

  function DigitChar(d: nat): (c: char)
    requires d < 10
    ensures IsDigit(c) && c as int - '0' as int == d
  {
    ('0' as int + d) as char
  }

  /** Decimal rendering of a natural number, as PHP prints an int. */
  function Decimal(n: nat): (s: string)
    ensures |s| >= 1
    ensures forall i | 0 <= i < |s| :: IsDigit(s[i])
    ensures s[0] == '0' <==> n == 0
  {
    if n < 10 then [DigitChar(n)] else Decimal(n / 10) + [DigitChar(n % 10)]
  }

  /** Reads a string of digits back as a number. */
  function ParseDecimal(s: string): nat
    requires forall i | 0 <= i < |s| :: IsDigit(s[i])
  {
    if s == [] then 0
    else
      assert IsDigit(s[|s| - 1]);
      ParseDecimal(s[..|s| - 1]) * 10 + (s[|s| - 1] as int - '0' as int)
  }

  lemma {:induction false} DecimalRoundTrip(n: nat)
    ensures ParseDecimal(Decimal(n)) == n
  {
    var s := Decimal(n);
    if n >= 10 {
      DecimalRoundTrip(n / 10);
      assert s[..|s| - 1] == Decimal(n / 10);
    }
  }

  /** Distinct numbers never render to the same text. */
  lemma DecimalInjective(m: nat, n: nat)
    requires m != n
    ensures Decimal(m) != Decimal(n)
  {
    DecimalRoundTrip(m);
    DecimalRoundTrip(n);
  }

  /** Digits, with a minus sign in front or not. */
  predicate IsIntText(s: string)
  {
    if s != [] && s[0] == '-' then |s| >= 2 && forall i | 1 <= i < |s| :: IsDigit(s[i])
    else |s| >= 1 && forall i | 0 <= i < |s| :: IsDigit(s[i])
  }

  /** Reads an optionally signed string of digits back as an integer. */
  function ParseInt(s: string): int
    requires IsIntText(s)
  {
    var magnitude: int := if s[0] == '-' then ParseDecimal(s[1..]) else ParseDecimal(s);
    if s[0] == '-' then -magnitude else magnitude
  }

  /**
    PHP's string conversion of an int: a minus sign before negative
    numbers. Reading the text back gives the integer.
   */
  function IntString(i: int): (s: string)
    ensures IsIntText(s) && ParseInt(s) == i
  {
    if i >= 0 then
      DecimalRoundTrip(i);
      assert IsDigit(Decimal(i)[0]);
      Decimal(i)
    else
      var d := Decimal(-i);
      DecimalRoundTrip(-i);
      assert ("-" + d)[1..] == d;
      "-" + d
  }

  /** Different integers render differently. */
  lemma IntStringInjective(i: int, j: int)
    requires i != j
    ensures IntString(i) != IntString(j)
  {
  }

  /** `rtrim(s, ch)`: removes every trailing occurrence of `ch`. */
  function TrimTrailing(s: string, ch: char): (r: string)
    ensures r <= s
    ensures r == [] || r[|r| - 1] != ch
    ensures forall i | |r| <= i < |s| :: s[i] == ch
  {
    if s != [] && s[|s| - 1] == ch then TrimTrailing(s[..|s| - 1], ch) else s
  }

  /** `explode(sep, s)`: the pieces of `s` between occurrences of `sep`. */
  function Split(s: string, sep: char): (r: seq<string>)
    ensures |r| >= 1
  {
    if s == [] then [[]]
    else
      var rest := Split(s[1..], sep);
      if s[0] == sep then [[]] + rest else [[s[0]] + rest[0]] + rest[1..]
  }

  lemma {:induction false} SplitNoSeparator(a: string, sep: char)
    requires sep !in a
    ensures Split(a, sep) == [a]
  {
    if a != [] {
      SplitNoSeparator(a[1..], sep);
      assert [a[0]] + a[1..] == a;
    }
  }

  lemma {:induction false} SplitAtSeparator(a: string, sep: char, b: string)
    requires sep !in a
    ensures Split(a + [sep] + b, sep) == [a] + Split(b, sep)
  {
    if a == [] {
      assert a + [sep] + b == [sep] + b;
      assert ([sep] + b)[1..] == b;
    } else {
      SplitAtSeparator(a[1..], sep, b);
      assert (a + [sep] + b)[1..] == a[1..] + [sep] + b;
      assert [a[0]] + a[1..] == a;
    }
  }

  /** `implode(sep, fields)`. */
  function Join(fields: seq<string>, sep: char): string
    requires |fields| >= 1
  {
    if |fields| == 1 then fields[0] else fields[0] + [sep] + Join(fields[1..], sep)
  }

  lemma JoinFront(first: string, rest: seq<string>, sep: char)
    requires |rest| >= 1
    ensures Join([first] + rest, sep) == first + [sep] + Join(rest, sep)
  {
    assert ([first] + rest)[1..] == rest;
  }

  /** Splitting undoes joining when no field holds the separator. */
  lemma {:induction false} SplitJoin(fields: seq<string>, sep: char)
    requires |fields| >= 1
    requires forall k | 0 <= k < |fields| :: sep !in fields[k]
    ensures Split(Join(fields, sep), sep) == fields
  {
    if |fields| == 1 {
      SplitNoSeparator(fields[0], sep);
    } else {
      SplitJoin(fields[1..], sep);
      SplitAtSeparator(fields[0], sep, Join(fields[1..], sep));
      assert [fields[0]] + fields[1..] == fields;
    }
  }
}
