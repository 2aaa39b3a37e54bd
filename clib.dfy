/** The C library routines the codec and the planner rely on, as glibc
    defines them on an LP64 platform: ctype tests, strcmp, the
    strtol/strtoul/atoi conversions (bases 0 and 10 only) and printf's
    decimal conversions. */
module CLib {
  import opened Bytes

  const LongMin: int := -Two63
  const LongMax: int := Two63 - 1
  const ULongMax: int := Two64 - 1

  predicate IsDigit(c: byte) { '0' as int <= c <= '9' as int }

  /** isspace() in the C locale: space, \t, \n, \v, \f, \r. */
  predicate IsSpace(c: byte) { c == 32 || 9 <= c <= 13 }

  /** The value of c as a digit in bases up to 36, or 99 when it is none. */
  function DigitValue(c: byte): (d: nat)
    ensures IsDigit(c) <==> d < 10
    ensures IsDigit(c) ==> d == c - '0' as int
  {
    if IsDigit(c) then c - '0' as int
    else if 'a' as int <= c <= 'z' as int then c - 'a' as int + 10
    else if 'A' as int <= c <= 'Z' as int then c - 'A' as int + 10
    else 99
  }

  predicate AllDigits(s: seq<byte>, base: nat) {
    forall i :: 0 <= i < |s| ==> DigitValue(s[i]) < base
  }

  /** Accumulates the leading run of base-`base` digits of s onto acc. */
  function RunValue(s: seq<byte>, base: nat, acc: nat): nat
  {
    if s == [] || DigitValue(s[0]) >= base then acc
    else RunValue(s[1..], base, acc * base + DigitValue(s[0]))
  }

  /** strcmp(): the sign of the first difference, bytes compared unsigned,
      a proper prefix ordered first. */
  function Strcmp(a: seq<byte>, b: seq<byte>): (r: int)
    ensures -1 <= r <= 1
    ensures r == 0 <==> a == b
  {
    if a == [] then (if b == [] then 0 else -1)
    else if b == [] then 1
    else if a[0] < b[0] then -1
    else if a[0] > b[0] then 1
    else
      var r' := Strcmp(a[1..], b[1..]);
      assert r' == 0 ==> a == [a[0]] + a[1..] == [b[0]] + b[1..] == b;
      r'
  }

  lemma {:induction false} StrcmpAntisymmetric(a: seq<byte>, b: seq<byte>)
    ensures Strcmp(a, b) == -Strcmp(b, a)
  {
    if a != [] && b != [] && a[0] == b[0] {
      StrcmpAntisymmetric(a[1..], b[1..]);
    }
  }

  /** strcmp() is a total order: a < b <= c gives a < c. */
  lemma {:induction false} StrcmpLessTransitive(a: seq<byte>, b: seq<byte>, c: seq<byte>)
    requires Strcmp(a, b) < 0 && Strcmp(b, c) <= 0
    ensures Strcmp(a, c) < 0
  {
    if b == c {
    } else if a != [] && b != [] && c != [] && a[0] == b[0] == c[0] {
      StrcmpLessTransitive(a[1..], b[1..], c[1..]);
    }
  }

  /** The number of leading C-locale spaces of s. */
  function LeadingSpaces(s: seq<byte>): (n: nat)
    ensures n <= |s|
    ensures forall i :: 0 <= i < n ==> IsSpace(s[i])
    ensures n < |s| ==> !IsSpace(s[n])
  {
    if s != [] && IsSpace(s[0]) then 1 + LeadingSpaces(s[1..]) else 0
  }

  /** What the strto* family reads from s: the sign and the magnitude of the
      longest number it accepts (0 when there is none). Base 0 chooses
      hexadecimal after "0x"/"0X", octal after a leading "0", else decimal. */
  datatype Conversion = Conversion(negative: bool, magnitude: nat)

  function Convert(s: seq<byte>, base: nat): Conversion
    requires base == 0 || base == 10
  {
    var t := s[LeadingSpaces(s)..];
    var signed := |t| > 0 && (t[0] == '-' as int || t[0] == '+' as int);
    var u := if signed then t[1..] else t;
    var negative := signed && t[0] == '-' as int;
    if base == 10 then Conversion(negative, RunValue(u, 10, 0))
    else if |u| >= 3 && u[0] == '0' as int && (u[1] == 'x' as int || u[1] == 'X' as int)
            && DigitValue(u[2]) < 16 then
      Conversion(negative, RunValue(u[2..], 16, 0))
    else if |u| > 0 && u[0] == '0' as int then Conversion(negative, RunValue(u, 8, 0))
    else Conversion(negative, RunValue(u, 10, 0))
  }

  /** strtol() (and strtoll(), the same on LP64): saturates at the long range. */
  function Strtol(s: seq<byte>, base: nat): (r: int)
    requires base == 0 || base == 10
    ensures LongMin <= r <= LongMax
  {
    var c := Convert(s, base);
    if c.negative then (if c.magnitude > Two63 then LongMin else -(c.magnitude as int))
    else if c.magnitude > LongMax then LongMax
    else c.magnitude
  }

  /** strtoul() (and strtoull()): a leading '-' negates modulo 2^64; a
      magnitude beyond the unsigned long range saturates. */
  function Strtoul(s: seq<byte>, base: nat): (r: int)
    requires base == 0 || base == 10
    ensures 0 <= r <= ULongMax
  {
    var c := Convert(s, base);
    if c.magnitude > ULongMax then ULongMax
    else if c.negative then (Two64 - c.magnitude) % Two64
    else c.magnitude
  }

  /** atoi(): glibc's (int) strtol(s, NULL, 10). */
  function Atoi(s: seq<byte>): (r: int)
    ensures -Two31 <= r < Two31
  {
    Int32(Strtol(s, 10))
  }

  /** The decimal digits of n, most significant first, without leading zeros. */
  function NatDigits(n: nat): (d: seq<byte>)
    ensures |d| >= 1 && AllDigits(d, 10)
    ensures n > 0 ==> d[0] != '0' as int
    ensures n < 10 ==> |d| == 1
  {
    if n < 10 then ['0' as int + n] else NatDigits(n / 10) + ['0' as int + n % 10]
  }

  /** printf("%0<width>d", v); width 0 is plain "%d". The width counts the sign. */
  function FormatInt(v: int, width: nat): (s: seq<byte>)
    ensures NoNul(s) && |s| > 0 && (s[0] == '-' as int || IsDigit(s[0]))
  {
    var digits := NatDigits(if v < 0 then -v else v);
    var room := if v < 0 then width - 1 else width;
    var zeros := if room > |digits| then Repeat('0' as int, room - |digits|) else [];
    (if v < 0 then ['-' as int] else []) + zeros + digits
  }

  lemma {:induction false} RunValueAppend(a: seq<byte>, b: seq<byte>, base: nat, acc: nat)
    requires AllDigits(a, base)
    ensures RunValue(a + b, base, acc) == RunValue(b, base, RunValue(a, base, acc))
  {
    if a != [] {
      assert (a + b)[1..] == a[1..] + b;
      RunValueAppend(a[1..], b, base, acc * base + DigitValue(a[0]));
    } else {
      assert a + b == b;
    }
  }

  /** Reading back the digits printf writes yields the number. */
  lemma {:induction false} NatDigitsValue(n: nat)
    ensures RunValue(NatDigits(n), 10, 0) == n
  {
    var d := '0' as int + n % 10;
    assert DigitValue(d) == n % 10;
    if n >= 10 {
      NatDigitsValue(n / 10);
      RunValueAppend(NatDigits(n / 10), [d], 10, 0);
      assert RunValue([d][1..], 10, n / 10 * 10 + n % 10) == n;
    }
  }

  /** A digit run that ends the string or meets a non-digit is read whole. */
  lemma RunValueStops(a: seq<byte>, b: seq<byte>, base: nat)
    requires AllDigits(a, base) && (b == [] || DigitValue(b[0]) >= base)
    ensures RunValue(a + b, base, 0) == RunValue(a, base, 0)
  {
    RunValueAppend(a, b, base, 0);
    RunValueAppend(a, [], base, 0);
    assert a + [] == a;
  }

  /** strtol(), in base 10 and in base 0, reads back what "%d" prints. */
  lemma StrtolFormatInt(v: int, base: nat)
    requires LongMin <= v <= LongMax
    requires base == 0 || base == 10
    ensures Strtol(FormatInt(v, 0), base) == v
  {
    var m: nat := if v < 0 then -v else v;
    var digits := NatDigits(m);
    var s := FormatInt(v, 0);
    assert s == (if v < 0 then ['-' as int] else []) + digits;
    assert LeadingSpaces(s) == 0;
    assert s[0..] == s;
    var u := if v < 0 then s[1..] else s;
    assert u == digits;
    NatDigitsValue(m);
    if base == 0 && |u| > 0 && u[0] == '0' as int {
      assert m == 0 && u == ['0' as int];
      assert !(|u| >= 3);
      assert RunValue(u[1..], 8, 0) == 0;
    }
  }

  function Pow10(k: nat): (r: nat)
    ensures r >= 1
  {
    if k == 0 then 1 else 10 * Pow10(k - 1)
  }

  /** A number below 10^w has at most w digits. */
  lemma {:induction false} NatDigitsLength(n: nat, w: nat)
    requires 1 <= w && n < Pow10(w)
    ensures |NatDigits(n)| <= w
  {
    if n >= 10 {
      assert w >= 2;
      NatDigitsLength(n / 10, w - 1);
    }
  }

  /** A run of digits read onto an accumulator shifts it by the run's length. */
  lemma {:induction false} RunValueAccumulator(s: seq<byte>, acc: nat)
    requires AllDigits(s, 10)
    ensures RunValue(s, 10, acc) == acc * Pow10(|s|) + RunValue(s, 10, 0)
  {
    if s != [] {
      var d, p, t := DigitValue(s[0]), Pow10(|s| - 1), s[1..];
      assert d < 10 && AllDigits(t, 10);
      RunValueAccumulator(t, acc * 10 + d);
      RunValueAccumulator(t, d);
      assert RunValue(s, 10, acc) == (acc * 10 + d) * p + RunValue(t, 10, 0);
      assert RunValue(s, 10, 0) == d * p + RunValue(t, 10, 0);
      ShiftDigit(acc, d, p);
    }
  }

  lemma ShiftDigit(acc: nat, d: nat, p: nat)
    ensures (acc * 10 + d) * p == acc * (10 * p) + d * p
  {
  }

  /** printf("%0<w>d", v) of a v below 10^w: exactly w digits denoting v. */
  lemma FormatIntPadded(v: nat, w: nat)
    requires 1 <= w && v < Pow10(w)
    ensures var s := FormatInt(v, w);
      |s| == w && AllDigits(s, 10) && RunValue(s, 10, 0) == v
  {
    var d := NatDigits(v);
    NatDigitsLength(v, w);
    NatDigitsValue(v);
    var zeros := if w > |d| then Repeat('0' as int, w - |d|) else [];
    assert FormatInt(v, w) == zeros + d;
    RunValueAppend(zeros, d, 10, 0);
    RunValueAccumulator(d, RunValue(zeros, 10, 0));
    ZerosValue(|zeros|);
    assert zeros == Repeat('0' as int, |zeros|);
  }

  lemma {:induction false} ZerosValue(n: nat)
    ensures AllDigits(Repeat('0' as int, n), 10) && RunValue(Repeat('0' as int, n), 10, 0) == 0
  {
    var z := Repeat('0' as int, n);
    if n > 0 {
      ZerosValue(n - 1);
      assert z == Repeat('0' as int, n - 1) + ['0' as int];
      RunValueAppend(Repeat('0' as int, n - 1), ['0' as int], 10, 0);
    }
  }

  /** strtol(s, 10) of a run of decimal digits is its value, if it fits. */
  lemma StrtolDigits(s: seq<byte>)
    requires |s| > 0 && AllDigits(s, 10) && RunValue(s, 10, 0) <= LongMax
    ensures Strtol(s, 10) == RunValue(s, 10, 0)
  {
    assert DigitValue(s[0]) < 10;
    assert LeadingSpaces(s) == 0;
    assert s[0..] == s;
  }

  /** atoi() reads back what "%d" prints for every int. */
  lemma AtoiFormatInt(v: int)
    requires -Two31 <= v < Two31
    ensures Atoi(FormatInt(v, 0)) == v
  {
    StrtolFormatInt(v, 10);
  }
}
