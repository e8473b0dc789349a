/**
 * The JavaScript built-ins the rover link relies on, stated on Dafny strings:
 * whitespace and `trim`, `startsWith`/`endsWith`, `split(':')` keeping the last part,
 * `parseInt` without a radix, `Number.prototype.toString`, `padStart` and the
 * truncating `%` operator.
 */
module JsRuntime {
  import opened Wrappers

  /** ECMAScript WhiteSpace and LineTerminator code points: what `String.prototype.trim`
      removes and what `parseInt` skips before the number. */
  predicate IsJsSpace(c: char) {
    var k := c as int;
    k == 0x09 || k == 0x0A || k == 0x0B || k == 0x0C || k == 0x0D || k == 0x20 || k == 0xA0 ||
    k == 0x1680 || (0x2000 <= k <= 0x200A) || k == 0x2028 || k == 0x2029 || k == 0x202F ||
    k == 0x205F || k == 0x3000 || k == 0xFEFF
  }

  /** The regular-expression class `\d`. */
  predicate IsDigit(c: char) { '0' <= c <= '9' }

  predicate IsHexDigit(c: char) { IsDigit(c) || 'a' <= c <= 'f' || 'A' <= c <= 'F' }

  predicate AllDigits(s: string) { forall k :: 0 <= k < |s| ==> IsDigit(s[k]) }

  /** Index just past the longest run of characters satisfying `p` that starts at `i`. */
  function Span(s: string, i: nat, p: char -> bool): (j: nat)
    requires i <= |s|
    ensures i <= j <= |s|
    ensures forall k :: i <= k < j ==> p(s[k])
    ensures j == |s| || !p(s[j])
    decreases |s| - i
  {
    if i == |s| || !p(s[i]) then i else Span(s, i + 1, p)
  }

  /** Index where the longest run of characters satisfying `p` that ends at `j` starts. */
  function SpanBack(s: string, j: nat, p: char -> bool): (i: nat)
    requires j <= |s|
    ensures i <= j
    ensures forall k :: i <= k < j ==> p(s[k])
    ensures i == 0 || !p(s[i - 1])
  {
    if j == 0 || !p(s[j - 1]) then j else SpanBack(s, j - 1, p)
  }

  /** A run that is bounded by a character outside `p` is the run `Span` finds. */
  lemma SpanExact(s: string, i: nat, j: nat, p: char -> bool)
    requires i <= j <= |s|
    requires forall k :: i <= k < j ==> p(s[k])
    requires j == |s| || !p(s[j])
    ensures Span(s, i, p) == j
  {
  }

  /** `String.prototype.trim`: drops the leading and trailing whitespace and nothing else. */
  function Trim(s: string): (r: string)
    ensures r == [] || (!IsJsSpace(r[0]) && !IsJsSpace(r[|r| - 1]))
    ensures exists i, j :: 0 <= i <= j <= |s| && r == s[i..j] &&
                           (forall k :: 0 <= k < i ==> IsJsSpace(s[k])) &&
                           (forall k :: j <= k < |s| ==> IsJsSpace(s[k]))
  {
    var i := Span(s, 0, IsJsSpace);
    var j := SpanBack(s, |s|, IsJsSpace);
    if j <= i then
      assert s[i..i] == [];
      []
    else
      s[i..j]
  }

  predicate StartsWith(s: string, prefix: string) {
    |prefix| <= |s| && s[..|prefix|] == prefix
  }

  predicate EndsWith(s: string, suffix: string) {
    |suffix| <= |s| && s[|s| - |suffix|..] == suffix
  }

  /** `s.split(sep)` followed by taking the last part. */
  function LastSegment(s: string, sep: char): (r: string)
    ensures |r| <= |s| && r == s[|s| - |r|..]
    ensures sep !in r
    ensures |r| == |s| || s[|s| - |r| - 1] == sep
  {
    if s == [] then []
    else if s[|s| - 1] == sep then []
    else LastSegment(s[..|s| - 1], sep) + [s[|s| - 1]]
  }

  /** The last part after a separator is whatever follows the separator when it holds none. */
  lemma {:induction false} LastSegmentAfter(a: string, b: string, sep: char)
    requires a != [] && a[|a| - 1] == sep
    requires sep !in b
    ensures LastSegment(a + b, sep) == b
    decreases |b|
  {
    if b == [] {
      assert a + b == a;
    } else {
      var s := a + b;
      assert s[..|s| - 1] == a + b[..|b| - 1];
      LastSegmentAfter(a, b[..|b| - 1], sep);
      assert b == b[..|b| - 1] + [b[|b| - 1]];
    }
  }

  function DigitValue(c: char): nat
    requires IsHexDigit(c)
  {
    if IsDigit(c) then c as int - '0' as int
    else if 'a' <= c <= 'f' then c as int - 'a' as int + 10
    else c as int - 'A' as int + 10
  }

  /** Value of a digit string, most significant digit first. */
  function RadixValue(s: string, radix: nat): nat
    requires forall k :: 0 <= k < |s| ==> IsHexDigit(s[k])
  {
    if s == [] then 0 else RadixValue(s[..|s| - 1], radix) * radix + DigitValue(s[|s| - 1])
  }

  function DecimalValue(s: string): nat
    requires AllDigits(s)
  {
    RadixValue(s, 10)
  }

  /**
   * The digits part of `parseInt` from position `start`: base 16 after a `0x`/`0X`
   * prefix, otherwise base 10; the longest run of digits, `None` when it is empty.
   */
  function ParseMagnitude(s: string, start: nat): (r: Option<nat>)
    requires start <= |s|
    ensures r.Some? ==> start < |s| && IsDigit(s[start])
  {
    var hex := start + 1 < |s| && s[start] == '0' && (s[start + 1] == 'x' || s[start + 1] == 'X');
    if hex then
      var end := Span(s, start + 2, IsHexDigit);
      if end == start + 2 then None else Some(RadixValue(s[start + 2..end], 16))
    else
      var end := Span(s, start, IsDigit);
      if end == start then None else Some(RadixValue(s[start..end], 10))
  }

  /**
   * `parseInt(s)` with no radix argument: skip leading whitespace, take an optional sign,
   * switch to base 16 after a `0x`/`0X` prefix, read the longest run of digits and ignore
   * the rest; `None` stands for `NaN` (no digit where one was needed).
   */
  function ParseInt(s: string): (r: Option<int>)
    ensures r.Some? ==> exists k :: 0 <= k < |s| && IsDigit(s[k])
  {
    var i := Span(s, 0, IsJsSpace);
    var neg := i < |s| && s[i] == '-';
    var start := if i < |s| && (s[i] == '-' || s[i] == '+') then i + 1 else i;
    match ParseMagnitude(s, start)
    case None => None
    case Some(m) =>
      var v: int := m;
      Some(if neg then -v else v)
  }

  /** The digits of a number followed by a non-digit are read back as that number. */
  lemma ParseMagnitudeOfDigits(s: string, start: nat, n: nat)
    requires start + |NatToString(n)| <= |s|
    requires s[start..start + |NatToString(n)|] == NatToString(n)
    requires start + |NatToString(n)| == |s| || IsJsSpace(s[start + |NatToString(n)|])
    ensures ParseMagnitude(s, start) == Some(n)
  {
    var digits := NatToString(n);
    var end := start + |digits|;
    NatToStringValue(n);
    assert s[start] == digits[0];
    if |digits| > 1 {
      assert s[start] != '0';
    } else {
      assert start + 1 < |s| ==> IsJsSpace(s[start + 1]);
    }
    forall k | start <= k < end ensures IsDigit(s[k]) {
      assert s[k] == digits[k - start];
    }
    SpanExact(s, start, end, IsDigit);
  }

  function DigitChar(d: nat): (c: char)
    requires d < 10
    ensures IsDigit(c) && DigitValue(c) == d
  {
    ('0' as int + d) as char
  }

  /** `Number.prototype.toString()` of a non-negative integer. */
  function NatToString(n: nat): (s: string)
    ensures |s| >= 1 && AllDigits(s)
    ensures |s| > 1 ==> s[0] != '0'
  {
    if n < 10 then [DigitChar(n)] else NatToString(n / 10) + [DigitChar(n % 10)]
  }

  /** The decimal digits `toString` writes read back as the number. */
  lemma {:induction false} NatToStringValue(n: nat)
    ensures DecimalValue(NatToString(n)) == n
  {
    var s := NatToString(n);
    if n < 10 {
      assert s[..0] == [];
      assert RadixValue(s, 10) == RadixValue(s[..0], 10) * 10 + DigitValue(s[0]);
    } else {
      assert s[..|s| - 1] == NatToString(n / 10);
      NatToStringValue(n / 10);
    }
  }

  /** `Number.prototype.toString()` of an integer: a sign and digits only, so no `:` and no whitespace. */
  function IntToString(i: int): (s: string)
    ensures |s| >= 1
    ensures ':' !in s && forall k :: 0 <= k < |s| ==> !IsJsSpace(s[k])
  {
    if i < 0 then "-" + NatToString(-i) else NatToString(i)
  }

  /** `parseInt` reads back what `toString` wrote, also when a line ending follows. */
  lemma ParseIntOfIntToString(i: int, rest: string)
    requires rest == [] || IsJsSpace(rest[0])
    ensures ParseInt(IntToString(i) + rest) == Some(i)
  {
    if i < 0 {
      ParseIntOfNegative(i, rest);
    } else {
      ParseIntOfSigned(IntToString(i) + rest, "", i, rest);
    }
  }

  /** The negative case: a minus sign before the digits of the magnitude. */
  lemma ParseIntOfNegative(i: int, rest: string)
    requires i < 0
    requires rest == [] || IsJsSpace(rest[0])
    ensures ParseInt(IntToString(i) + rest) == Some(i)
  {
    var n: nat := -i;
    assert IntToString(i) + rest == "-" + NatToString(n) + rest;
    ParseIntOfSigned(IntToString(i) + rest, "-", n, rest);
  }

  /** `parseInt` of a text that starts with its sign or its first digit. */
  lemma ParseIntUnpadded(s: string, m: nat)
    requires |s| > 0 && (s[0] == '-' || IsDigit(s[0]))
    requires ParseMagnitude(s, if s[0] == '-' then 1 else 0) == Some(m)
    ensures ParseInt(s) == Some(if s[0] == '-' then -(m as int) else m as int)
  {
    assert !IsJsSpace(s[0]);
    SpanExact(s, 0, 0, IsJsSpace);
  }

  /** `parseInt` of an optional minus sign, the digits of `n` and then nothing or whitespace. */
  lemma ParseIntOfSigned(s: string, sign: string, n: nat, rest: string)
    requires sign == "" || sign == "-"
    requires s == sign + NatToString(n) + rest
    requires rest == [] || IsJsSpace(rest[0])
    ensures ParseInt(s) == Some(if sign == "-" then -(n as int) else n as int)
  {
    var digits := NatToString(n);
    var start := |sign|;
    assert s[start..start + |digits|] == digits;
    assert s[0] == if sign == "-" then '-' else digits[0];
    ParseMagnitudeOfDigits(s, start, n);
    ParseIntUnpadded(s, n);
  }

  /** `padStart(width, c)`: the text kept at the end, only the fill character before it. */
  function PadStart(s: string, width: nat, c: char): (r: string)
    ensures |r| == if |s| >= width then |s| else width
    ensures r[|r| - |s|..] == s && forall k :: 0 <= k < |r| - |s| ==> r[k] == c
  {
    if |s| >= width then s else seq(width - |s|, _ => c) + s
  }

  /** A positive `b` times a count of at least one is at least `b`. */
  lemma MulAtLeastDivisor(b: int, k: int)
    requires b > 0 && k >= 1
    ensures b * k >= b
  {
  }

  /** A multiple of `b` leaves no remainder. */
  lemma ModOfMultiple(b: int, k: int)
    requires b > 0
    ensures (b * k) % b == 0
  {
    var x := b * k;
    var q := x / b;
    assert x == b * q + x % b;
    assert b * (k - q) == x % b;
    if k - q >= 1 {
      MulAtLeastDivisor(b, k - q);
    } else if k - q <= -1 {
      MulAtLeastDivisor(b, q - k);
    }
  }

  /**
   * JavaScript's `%` on numbers: the remainder takes the sign of the dividend, and the
   * dividend minus the remainder is a multiple of the divisor.
   */
  function JsRem(a: int, b: int): (r: int)
    requires b > 0
    ensures a >= 0 ==> r == a % b
    ensures a < 0 ==> -b < r <= 0
    ensures (a - r) % b == 0
  {
    if a >= 0 then
      ModOfMultiple(b, a / b);
      a % b
    else
      ModOfMultiple(b, -((-a) / b));
      assert a + (-a) % b == b * -((-a) / b);
      -((-a) % b)
  }
}
