/**
 * Character- and digit-level helpers shared by the date formatting and the
 * URL and message templates: ASCII decimal digits, zero padding, and
 * splitting a string at the first occurrence of a separator.
 */
module Strings {

  datatype Option<+T> = None | Some(value: T) {
    predicate IsFailure() { None? }

    function PropagateFailure<U>(): Option<U>
      requires None?
    {
      None
    }

    function Extract(): T
      requires Some?
    {
      value
    }
  }

  predicate IsDigit(c: char) { '0' <= c <= '9' }

  predicate AllDigits(s: string) { forall i :: 0 <= i < |s| ==> IsDigit(s[i]) }

  function DigitValue(c: char): (n: nat)
    requires IsDigit(c)
    ensures n < 10
  {
    c as int - '0' as int
  }

  function DigitChar(n: nat): (c: char)
    requires n < 10
    ensures IsDigit(c) && DigitValue(c) == n
  {
    ('0' as int + n) as char
  }

  /** The number a string of decimal digits denotes, most significant digit first. */
  function DigitsValue(s: string): nat
    requires AllDigits(s)
  {
    if s == [] then 0 else DigitsValue(s[..|s| - 1]) * 10 + DigitValue(s[|s| - 1])
  }

  function Pow10(k: nat): nat
  {
    if k == 0 then 1 else 10 * Pow10(k - 1)
  }

  lemma {:induction false} DigitsValueBound(s: string)
    requires AllDigits(s)
    ensures DigitsValue(s) < Pow10(|s|)
  {
    if s != [] {
      DigitsValueBound(s[..|s| - 1]);
    }
  }

  /** Reading a concatenation of digit strings: the left part is shifted by the right part's length. */
  lemma {:induction false} DigitsValueAppend(a: string, b: string)
    requires AllDigits(a) && AllDigits(b)
    ensures AllDigits(a + b)
    ensures DigitsValue(a + b) == DigitsValue(a) * Pow10(|b|) + DigitsValue(b)
  {
    if b == [] {
      assert a + b == a;
    } else {
      var b' := b[..|b| - 1];
      var d := DigitValue(b[|b| - 1]);
      assert (a + b)[..|a + b| - 1] == a + b' && (a + b)[|a + b| - 1] == b[|b| - 1];
      DigitsValueAppend(a, b');
      var x, p := DigitsValue(a), Pow10(|b'|);
      assert DigitsValue(a + b) == (x * p + DigitsValue(b')) * 10 + d;
      assert Pow10(|b|) == 10 * p;
      ShiftDigit(x, p, DigitsValue(b'), d);
    }
  }

  /** Appending a digit d to a shifted value: the shift grows by a factor of ten. */
  lemma ShiftDigit(x: int, p: int, y: int, d: int)
    ensures (x * p + y) * 10 + d == x * (10 * p) + (y * 10 + d)
  {
    assert (x * p) * 10 == x * (10 * p);
  }

  /**
   * Decimal rendering of a non-negative integer without leading zeros, as
   * Python's str() and "{}".format() give it. Reading the digits back gives n.
   */
  function Decimal(n: nat): (s: string)
    ensures 1 <= |s| && AllDigits(s) && DigitsValue(s) == n
    ensures s[0] == '0' ==> n == 0
  {
    if n < 10 then
      [DigitChar(n)]
    else
      var s := Decimal(n / 10) + [DigitChar(n % 10)];
      assert s[..|s| - 1] == Decimal(n / 10);
      s
  }

  /** Two-digit zero-padded rendering, as the strftime directives %d, %m, %H, %I and %M give it. */
  function Pad2(n: nat): (s: string)
    requires n < 100
    ensures |s| == 2 && AllDigits(s) && DigitsValue(s) == n
  {
    var s := [DigitChar(n / 10), DigitChar(n % 10)];
    assert s[..1] == [s[0]];
    assert DigitsValue([s[0]]) == DigitValue(s[0]);
    assert DigitsValue(s) == DigitValue(s[0]) * 10 + DigitValue(s[1]);
    s
  }

  /** Four-digit zero-padded rendering of a year. */
  function Pad4(n: nat): (s: string)
    requires n < 10000
    ensures |s| == 4 && AllDigits(s) && DigitsValue(s) == n
  {
    DigitsValueAppend(Pad2(n / 100), Pad2(n % 100));
    Pad2(n / 100) + Pad2(n % 100)
  }

  /**
   * Splits s at the first occurrence of c: the part before it and the part
   * after it, or None when c does not occur.
   */
  function SplitAt(s: string, c: char): (r: Option<(string, string)>)
    ensures r.None? <==> c !in s
    ensures r.Some? ==> s == r.value.0 + [c] + r.value.1 && c !in r.value.0
  {
    if s == [] then None
    else if s[0] == c then Some(([], s[1..]))
    else
      match SplitAt(s[1..], c)
      case None => None
      case Some(parts) => Some(([s[0]] + parts.0, parts.1))
  }

  /** The split is at the FIRST separator: a prefix free of c is recovered exactly. */
  lemma {:induction false} SplitAtFirst(a: string, c: char, b: string)
    requires c !in a
    ensures SplitAt(a + [c] + b, c) == Some((a, b))
  {
    var s := a + [c] + b;
    if a == [] {
      assert s[1..] == b;
    } else {
      assert s[0] == a[0] && s[1..] == a[1..] + [c] + b;
      SplitAtFirst(a[1..], c, b);
      assert [a[0]] + a[1..] == a;
    }
  }
}
