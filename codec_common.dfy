/** The parts of the text-to-engine encoder that MySQL_value.cc and its older
    sibling blobfix/MySQL_Field.cc share word for word: the string buffers
    with their length prefixes and padding, the MYSQL_TIME arithmetic, the
    24-bit date packing, the integer clamping and the pseudo-values. */
module CodecCommon {
  import opened Bytes
  import opened CLib
  import opened Wrappers
  import opened Ndb

  // ---------------------------------------------------------------------
  // String columns

  /** Varchar: one length byte, min(strlen mod 256, L), then that many bytes
      of the value and the NUL ap_cpystrn() appends. */
  function VarcharBuffer(val: seq<byte>, length: nat): seq<byte>
  {
    var n := Min(|val| % 256, length);
    [n] + val[..n] + [0]
  }

  /** Longvarchar: two little-endian length bytes, min(strlen mod 65536, L). */
  function LongvarcharBuffer(val: seq<byte>, length: nat): seq<byte>
  {
    var n := Min(|val| % Two16, length);
    [n % 256, n / 256] + val[..n] + [0]
  }

  /** Char: the value cut to L bytes, right-padded with spaces to L, then NUL. */
  function CharBuffer(val: seq<byte>, length: nat): seq<byte>
  {
    var n := Min(|val|, length);
    val[..n] + Repeat(' ' as int, length - n) + [0]
  }

  /** The character-column branch, once the value pointer is known non-null. */
  function CharColumnValue(m: MValue, col: Column, val: seq<byte>): MValue
    requires IsCharType(col.colType)
  {
    match col.colType
    case Varchar =>
      m.(use := UseChar, u := ValChar(VarcharBuffer(val, col.length)),
         len := |val| % 256, colLen := col.length + 1)
    case Longvarchar =>
      m.(use := UseChar, u := ValChar(LongvarcharBuffer(val, col.length)),
         len := |val| % Two16, colLen := col.length + 2)
    case Char =>
      m.(use := UseChar, u := ValChar(CharBuffer(val, col.length)),
         len := |val|, colLen := col.length)
  }

  /** ap_cpystrn(dst + off, src, n): copies at most n - 1 bytes of src,
      stopping at a NUL, and always writes a terminating NUL. */
  method CpyStrn(dst: array<byte>, off: nat, src: seq<byte>, n: nat) returns (k: nat)
    requires n >= 1 && off + n <= dst.Length
    modifies dst
    ensures k == Min(n - 1, |CStr(src)|)
    ensures dst[off..off + k] == src[..k] && dst[off + k] == 0
    ensures forall i :: 0 <= i < dst.Length && !(off <= i <= off + k) ==> dst[i] == old(dst[i])
  {
    k := 0;
    while k < n - 1 && k < |src| && src[k] != 0
      invariant k <= n - 1 && k <= |CStr(src)|
      invariant dst[off..off + k] == src[..k]
      invariant forall i :: 0 <= i < dst.Length && !(off <= i < off + k) ==> dst[i] == old(dst[i])
    {
      dst[off + k] := src[k];
      k := k + 1;
    }
    dst[off + k] := 0;
  }

  /** memcpy(dst + off, src, n). */
  method Memcpy(dst: array<byte>, off: nat, src: seq<byte>, n: nat)
    requires n <= |src| && off + n <= dst.Length
    modifies dst
    ensures dst[off..off + n] == src[..n]
    ensures forall i :: 0 <= i < dst.Length && !(off <= i < off + n) ==> dst[i] == old(dst[i])
  {
    var k := 0;
    while k < n
      invariant k <= n
      invariant dst[off..off + k] == src[..k]
      invariant forall i :: 0 <= i < dst.Length && !(off <= i < off + k) ==> dst[i] == old(dst[i])
    {
      dst[off + k] := src[k];
      k := k + 1;
    }
  }

  /** The Varchar branch: a length byte written ahead of ap_cpystrn()'s copy. */
  method EncodeVarchar(val: seq<byte>, length: nat) returns (buf: seq<byte>)
    requires NoNul(val)
    ensures buf == VarcharBuffer(val, length)
    ensures |buf| == buf[0] as int + 2 && buf[1..|buf| - 1] == val[..buf[0]]
  {
    var len := |val| % 256;
    if len > length { len := length; }
    var a := new byte[len + 2];
    a[0] := len;
    assert CStr(val) == val by { CStrOfCString(val); }
    var _ := CpyStrn(a, 1, val, len + 1);
    buf := a[..];
    assert buf == [a[0]] + a[1..len + 1] + [a[len + 1]];
  }

  /** The Longvarchar branch: two length bytes, least significant first. */
  method EncodeLongvarchar(val: seq<byte>, length: nat) returns (buf: seq<byte>)
    requires NoNul(val)
    ensures buf == LongvarcharBuffer(val, length)
    ensures |buf| == Uint2Korr(buf) + 3 && buf[2..|buf| - 1] == val[..Uint2Korr(buf)]
  {
    var sLen := |val| % Two16;
    if sLen > length { sLen := length; }
    var a := new byte[sLen + 3];
    a[0] := sLen % 256;
    a[1] := sLen / 256;
    assert CStr(val) == val by { CStrOfCString(val); }
    var _ := CpyStrn(a, 2, val, sLen + 1);
    buf := a[..];
    assert buf == [a[0], a[1]] + a[2..sLen + 2] + [a[sLen + 2]];
  }

  /** The Char branch: copy, then the `while (s < q) *s++ = ' '` padding. */
  method EncodeChar(val: seq<byte>, length: nat) returns (buf: seq<byte>)
    ensures buf == CharBuffer(val, length)
    ensures |buf| == length + 1 && buf[length] == 0
    ensures forall i :: 0 <= i < length ==> buf[i] == if i < |val| then val[i] else ' ' as int
  {
    var lLen := |val|;
    if lLen > length { lLen := length; }
    var a := new byte[length + 1];
    Memcpy(a, 0, val, lLen);
    var s := lLen;
    while s < length
      invariant lLen <= s <= length
      invariant a[..lLen] == val[..lLen]
      invariant forall i :: lLen <= i < s ==> a[i] == ' ' as int
    {
      a[s] := ' ' as int;
      s := s + 1;
    }
    a[length] := 0;
    buf := a[..];
    assert a[..length] == val[..lLen] + Repeat(' ' as int, length - lLen);
    assert buf == a[..length] + [a[length]];
  }

  /** A buffer without NUL is its own C string (strlen() is its length). */
  lemma {:induction false} CStrOfCString(s: seq<byte>)
    requires NoNul(s)
    ensures CStr(s) == s
  {
    if s != [] {
      CStrOfCString(s[1..]);
    }
  }

  // ---------------------------------------------------------------------
  // Temporal columns

  /** 1 when the text starts with a sign the temporal filters of both
      encoders keep, else 0. */
  function SignLength(val: seq<byte>): (k: nat)
    ensures k <= |val| && k <= 1
  {
    if |val| > 0 && (val[0] == '-' as int || val[0] == '+' as int) then 1 else 0
  }

  /** MYSQL_TIME, with its unsigned int fields as values in [0, 2^32). */
  datatype Tm = Tm(year: nat, month: nat, day: nat,
                   hour: nat, minute: nat, second: nat, neg: bool)

  const ZeroTm: Tm := Tm(0, 0, 0, 0, 0, 0, false)

  /** factor_YYYYMMDD(): year, month and day of a YYYYMMDD numeral, with C's
      truncating division and the conversion into unsigned fields. */
  function FactorYYYYMMDD(tm: Tm, intDate: int): (r: Tm)
    ensures r.hour == tm.hour && r.minute == tm.minute && r.second == tm.second && r.neg == tm.neg
    ensures 0 <= intDate ==>
      r.year == (intDate / 10000) % 10000 && r.month == (intDate / 100) % 100 && r.day == intDate % 100
  {
    tm.(year := Uint32(CMod(CDiv(intDate, 10000), 10000)),
        month := Uint32(CMod(CDiv(intDate, 100), 100)),
        day := Uint32(CMod(intDate, 100)))
  }

  /** factor_HHMMSS(): a negative time sets `neg` and is factored by its
      absolute value (negated as a 32-bit int). */
  function FactorHHMMSS(tm: Tm, intTime: int): (r: Tm)
    requires -Two31 <= intTime < Two31
    ensures r.year == tm.year && r.month == tm.month && r.day == tm.day
    ensures r.neg == (intTime < 0 || tm.neg)
  {
    var t := if intTime < 0 then Int32(-intTime) else intTime;
    tm.(neg := if intTime < 0 then true else tm.neg,
        hour := Uint32(CDiv(t, 10000)),
        minute := Uint32(CMod(CDiv(t, 100), 100)),
        second := Uint32(CMod(t, 100)))
  }

  /** Above the one int whose negation overflows, the time fields are the
      hours, minutes and seconds of |intTime| read as HHMMSS. */
  lemma FactorHHMMSSFields(tm: Tm, intTime: int)
    requires -Two31 < intTime < Two31
    ensures var t := if intTime < 0 then -intTime else intTime;
      var r := FactorHHMMSS(tm, intTime);
      r.hour == t / 10000 && r.minute == (t / 100) % 100 && r.second == t % 100
  {
    var t := if intTime < 0 then -intTime else intTime;
    if intTime < 0 {
      Int32Id(-intTime);
    }
    var h, mi, sec := t / 10000, (t / 100) % 100, t % 100;
    assert CDiv(t, 10000) == h && CMod(CDiv(t, 100), 100) == mi && CMod(t, 100) == sec;
    Uint32Id(h);
    Uint32Id(mi);
    Uint32Id(sec);
    var r := FactorHHMMSS(tm, intTime);
    assert r.hour == Uint32(h) && r.minute == Uint32(mi) && r.second == Uint32(sec);
  }

  /** a | b on naturals (the unsigned `|`). */
  function BitOr(a: nat, b: nat): nat
    decreases a + b
  {
    if a == 0 then b
    else if b == 0 then a
    else 2 * BitOr(a / 2, b / 2) + (if a % 2 == 1 || b % 2 == 1 then 1 else 0)
  }

  function Pow2(k: nat): (r: nat)
    ensures r >= 1
  {
    if k == 0 then 1 else 2 * Pow2(k - 1)
  }

  lemma HalfOfMultiple(a: nat, q: nat, p: nat)
    requires a == q * (2 * p)
    ensures a % 2 == 0 && a / 2 == q * p
  {
    assert a == 2 * (q * p);
  }

  lemma HalfBelow(b: nat, p: nat)
    requires b < 2 * p
    ensures b / 2 < p
  {
  }

  lemma BitOrStep(a: nat, b: nat)
    requires a != 0 && b != 0 && a % 2 == 0
    ensures BitOr(a, b) == 2 * BitOr(a / 2, b / 2) + b % 2
  {
  }

  /** `|` of values whose set bits do not overlap is their sum: the high part
      q * 2^k has no bit below k, and b has none from k up. */
  lemma {:induction false} BitOrDisjoint(q: nat, b: nat, k: nat)
    requires b < Pow2(k)
    ensures BitOr(q * Pow2(k), b) == q * Pow2(k) + b
    decreases k
  {
    var a := q * Pow2(k);
    if a != 0 && b != 0 {
      var p := Pow2(k - 1);
      assert Pow2(k) == 2 * p;
      HalfOfMultiple(a, q, p);
      HalfBelow(b, p);
      BitOrDisjoint(q, b / 2, k - 1);
      BitOrStep(a, b);
    }
  }

  lemma Pow2Values()
    ensures Pow2(5) == 32 && Pow2(9) == 512
  {
    assert Pow2(1) == 2;
    assert Pow2(2) == 4;
    assert Pow2(3) == 8;
    assert Pow2(4) == 16;
    assert Pow2(5) == 32;
    assert Pow2(6) == 64;
    assert Pow2(7) == 128;
    assert Pow2(8) == 256;
  }

  /** The date word `(year << 9) | (month << 5) | day` on unsigned ints. */
  function PackDate(tm: Tm): nat {
    BitOr(BitOr((tm.year * 512) % Two32, (tm.month * 32) % Two32), tm.day)
  }

  /** The day, month and year fields unpacked from a stored date word, as
      field_to_tm() reads them (bits 0-4, 5-8 and 9 up). */
  function UnpackDate(intDate: int): (r: Tm)
    requires 0 <= intDate
  {
    ZeroTm.(day := intDate % 32, month := (intDate / 32) % 16, year := intDate / 512)
  }

  lemma UnpackFields(y: nat, m: nat, d: nat)
    requires d < 32 && m < 16
    ensures var w := y * 512 + m * 32 + d;
      w % 32 == d && (w / 32) % 16 == m && w / 512 == y
  {
    var w := y * 512 + m * 32 + d;
    assert w == (y * 16 + m) * 32 + d;
    assert w / 32 == y * 16 + m;
    assert w == y * 512 + (m * 32 + d) && m * 32 + d < 512;
  }

  /** For day < 32, month < 16 and year <= 9999 the three fields occupy
      disjoint bits, so the packed word is their weighted sum. */
  lemma PackDateSum(tm: Tm)
    requires tm.day < 32 && tm.month < 16 && tm.year <= 9999
    ensures PackDate(tm) == tm.year * 512 + tm.month * 32 + tm.day < Two24
  {
    Pow2Values();
    var y, m := tm.year * 512, tm.month * 32;
    var hi := tm.year * 16 + tm.month;
    ShiftFields(tm.year, tm.month, tm.day);
    SmallMod(y);
    SmallMod(m);
    BitOrDisjoint(tm.year, m, 9);
    assert BitOr(y, m) == hi * 32;
    BitOrDisjoint(hi, tm.day, 5);
  }

  lemma ShiftFields(a: nat, b: nat, c: nat)
    requires b < 16 && c < 32 && a <= 9999
    ensures a * 512 + b * 32 == (a * 16 + b) * 32
    ensures a * 512 < Two32 && b * 32 < Two32
    ensures a * 512 + b * 32 + c < Two24
  {
  }

  lemma SmallMod(x: nat)
    requires x < Two32
    ensures x % Two32 == x
  {
  }

  /** ... and the word unpacks, through store24() and uint3korr(), to the
      same three fields. */
  lemma PackUnpackDate(tm: Tm)
    requires tm.day < 32 && tm.month < 16 && tm.year <= 9999
    ensures var r := UnpackDate(Uint3Korr(Store24(Int32(PackDate(tm)))));
            r.day == tm.day && r.month == tm.month && r.year == tm.year
  {
    PackDateSum(tm);
    var w := tm.year * 512 + tm.month * 32 + tm.day;
    Int32Id(w);
    Store24Uint3Korr(w);
    DivModUnique(w, Two24, 0, w);
    assert Uint3Korr(Store24(Int32(PackDate(tm)))) == w;
    UnpackFields(tm.year, tm.month, tm.day);
  }

  /** The Date branch from the parsed numeral: factor, pack, store24(). */
  function DateBytes(yymmdd: int): seq<byte> {
    Store24(Int32(PackDate(FactorYYYYMMDD(ZeroTm, yymmdd))))
  }

  /** The encoders' temporal branch, applied to the filtered buffer strbuf. */
  function TemporalValue(m: MValue, t: ColumnType, strbuf: seq<byte>): MValue
    requires IsTemporalType(t)
  {
    match t
    case Datetime => m.(use := UseUnsigned64, u := ValUint64(Strtoul(strbuf, 10)))
    case Time => m.(use := UseSigned, u := ValLow24(Store24(Int32(Strtol(strbuf, 10)))))
    case Date => m.(use := UseSigned, u := ValLow24(DateBytes(Int32(Strtol(strbuf, 10)))))
  }

  // ---------------------------------------------------------------------
  // Numeric columns

  predicate IsClampedType(t: ColumnType) {
    t in {Tinyint, Tinyunsigned, Smallint, Smallunsigned, Mediumint, Mediumunsigned}
  }

  function ClampLow(t: ColumnType): int
    requires IsClampedType(t)
  {
    match t
    case Tinyint => -128
    case Smallint => -32768
    case Mediumint => -8388608
    case _ => 0
  }

  function ClampHigh(t: ColumnType): int
    requires IsClampedType(t)
  {
    match t
    case Tinyint => 127
    case Tinyunsigned => 255
    case Smallint => 32767
    case Smallunsigned => 65535
    case Mediumint => 8388607
    case Mediumunsigned => 16777215
  }

  /** The tiny/small/medium branches: clamp the int to the type's range,
      setting `over` only when a bound was substituted. */
  function ClampedValue(m: MValue, t: ColumnType, aux: int): MValue
    requires IsClampedType(t)
  {
    var lo, hi := ClampLow(t), ClampHigh(t);
    var v := if aux < lo then lo else if aux > hi then hi else aux;
    var m' := if aux < lo || aux > hi then m.(over := true) else m;
    match t
    case Tinyint => m'.(use := UseSigned, u := ValInt8(v))
    case Tinyunsigned => m'.(use := UseUnsigned, u := ValUint8(v))
    case Smallint => m'.(use := UseSigned, u := ValInt16(v))
    case Smallunsigned => m'.(use := UseUnsigned, u := ValUint16(v))
    case Mediumint => m'.(use := UseSigned, u := ValLow24(Store24(v)))
    case Mediumunsigned => m'.(use := UseUnsigned, u := ValLow24(Store24(v)))
  }

  /** The integer the engine reads back from a clamped column's payload. */
  function StoredInteger(t: ColumnType, u: Payload): int
    requires IsClampedType(t)
  {
    match u
    case ValInt8(v) => v
    case ValUint8(v) => v
    case ValInt16(v) => v
    case ValUint16(v) => v
    case ValLow24(b) =>
      if |b| < 3 then 0 else if t == Mediumint then Sint3Korr(b) else Uint3Korr(b)
    case _ => 0
  }

  /** Clamping: the stored integer lies in the type's range; an out-of-range
      int becomes the nearer bound and sets `over`; an in-range int is stored
      unchanged and leaves `over` as it was. */
  lemma ClampedValueLaw(m: MValue, t: ColumnType, aux: int)
    requires IsClampedType(t) && -Two31 <= aux < Two31
    ensures var r := ClampedValue(m, t, aux);
      && ClampLow(t) <= StoredInteger(t, r.u) <= ClampHigh(t)
      && (aux < ClampLow(t) ==> StoredInteger(t, r.u) == ClampLow(t) && r.over)
      && (aux > ClampHigh(t) ==> StoredInteger(t, r.u) == ClampHigh(t) && r.over)
      && (ClampLow(t) <= aux <= ClampHigh(t) ==> StoredInteger(t, r.u) == aux && r.over == m.over)
      && r.len == m.len && r.colLen == m.colLen && r.column == m.column
  {
    var lo, hi := ClampLow(t), ClampHigh(t);
    var v := if aux < lo then lo else if aux > hi then hi else aux;
    var r := ClampedValue(m, t, aux);
    if t == Mediumint {
      Store24Sint3Korr(v);
      assert r.u == ValLow24(Store24(v));
    } else if t == Mediumunsigned {
      Store24Uint3Korr(v);
      DivModUnique(v, Two24, 0, v);
      assert r.u == ValLow24(Store24(v));
    }
    assert StoredInteger(t, r.u) == v;
    assert r.over == (m.over || aux < lo || aux > hi);
  }

  /** The type-switch branches both encoder versions share. None for Bit,
      the binary and blob types and the unsupported ones, where they differ. */
  function SharedNumericValue(m: MValue, col: Column, v: seq<byte>): (r: Option<MValue>)
    ensures r.Some? <==> col.colType !in {Bit, Text, Blob, Longvarbinary, Varbinary, Binary,
                                          Undefined, Olddecimal, Olddecimalunsigned,
                                          Char, Varchar, Longvarchar, Time, Date, Datetime}
    ensures r.Some? ==> r.value.use in {UseSigned, UseUnsigned, UseFloat, UseDouble, Use64, UseUnsigned64, UseChar}
  {
    match col.colType
    case Int => Some(m.(use := UseSigned, u := ValSigned(Atoi(v))))
    case Unsigned | Timestamp => Some(m.(use := UseUnsigned, u := ValUnsigned(Uint32(Strtoul(v, 0)))))
    case Float => Some(m.(use := UseFloat, u := ValFloat(v)))
    case Double => Some(m.(use := UseDouble, u := ValDouble(v)))
    case Bigint => Some(m.(use := Use64, u := ValInt64(Strtol(v, 0))))
    case Bigunsigned => Some(m.(use := UseUnsigned64, u := ValUint64(Strtoul(v, 0))))
    case Tinyint | Tinyunsigned | Smallint | Smallunsigned | Mediumint | Mediumunsigned =>
      Some(ClampedValue(m, col.colType, Int32(Strtol(v, 0))))
    case Year => Some(m.(use := UseUnsigned, u := ValUint8(Uint8(Strtol(v, 0) - 1900))))
    case Decimal | Decimalunsigned =>
      Some(m.(use := UseChar, colLen := 0, u := ValDecimalBin(v, col.precision, col.scale)))
    case _ => None
  }

  // ---------------------------------------------------------------------
  // Pseudo-values

  const AtNull: seq<byte> := ['@' as int, 'n' as int, 'u' as int, 'l' as int, 'l' as int]
  const AtIncrement: seq<byte> := ['@' as int, '+' as int, '+' as int]
  const AtDecrement: seq<byte> := ['@' as int, '-' as int, '-' as int]
  const AtTime: seq<byte> := ['@' as int, 't' as int, 'i' as int, 'm' as int, 'e' as int]
  const AtAutoinc: seq<byte> := ['@' as int, 'a' as int, 'u' as int, 't' as int, 'o' as int, 'i' as int, 'n' as int, 'c' as int]

  predicate IsPseudoValue(v: seq<byte>) {
    v == AtNull || v == AtIncrement || v == AtDecrement || v == AtTime || v == AtAutoinc
  }

  /** The dynamic values @null, @++, @--, @time and @autoinc; None when the
      text is none of them and falls through to the type's own parsing. */
  function PseudoValue(m: MValue, t: ColumnType, v: seq<byte>): (r: Option<MValue>)
    ensures r.Some? <==> IsPseudoValue(v)
  {
    if |v| > 0 && v[0] == '@' as int then
      if v == AtNull then Some(m.(use := UseNull, u := ValInt64(0)))
      else if v == AtIncrement then Some(m.(use := UseInterpreted, interpreted := IsIncrement))
      else if v == AtDecrement then Some(m.(use := UseInterpreted, interpreted := IsDecrement))
      else if v == AtTime then Some(m.(use := UseUnsigned, u := ValTime))
      else if v == AtAutoinc then
        Some(m.(use := UseAutoinc, len := if t == Bigint || t == Bigunsigned then 8 else 4))
      else None
    else
      assert !IsPseudoValue(v) by {
        assert AtNull[0] == AtIncrement[0] == AtDecrement[0] == AtTime[0] == AtAutoinc[0] == '@' as int;
      }
      None
  }
}
