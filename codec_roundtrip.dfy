/** Encoder against decoder: what MySQL::value stores, read back through
    MySQL::result, prints the text it came from (or the part of it the
    column keeps). The engine is taken to store an integer payload as its
    column's width of little-endian bytes and a buffer payload as it is. */
module CodecRoundTrip {
  import opened Bytes
  import opened CLib
  import opened Wrappers
  import opened Ndb
  import opened CodecCommon
  import V = MySQLValue
  import F = MySQLField

  /** The n low bytes of v, least significant first (two's complement). */
  function ToLittleEndian(v: int, n: nat): (b: seq<byte>)
    ensures |b| == n
    decreases n
  {
    if n == 0 then [] else [v % 256] + ToLittleEndian(v / 256, n - 1)
  }

  /** The bytes the engine keeps for an encoded payload. */
  function StoredBytes(u: Payload): seq<byte> {
    match u
    case ValInt8(v) => ToLittleEndian(v, 1)
    case ValUint8(v) => ToLittleEndian(v, 1)
    case ValInt16(v) => ToLittleEndian(v, 2)
    case ValUint16(v) => ToLittleEndian(v, 2)
    case ValSigned(v) => ToLittleEndian(v, 4)
    case ValUnsigned(v) => ToLittleEndian(v, 4)
    case ValInt64(v) => ToLittleEndian(v, 8)
    case ValUint64(v) => ToLittleEndian(v, 8)
    case ValLow24(b) => b
    case ValChar(buf) => buf
    case _ => []
  }

  // ---------------------------------------------------------------------
  // Little-endian arithmetic

  /** Splitting off the low byte: v mod 256b from v mod 256 and (v / 256) mod b. */
  lemma ModSplit(v: int, b: int)
    requires b > 0
    ensures v % (256 * b) == v % 256 + 256 * ((v / 256) % b)
  {
    var q, r := v / 256, v % 256;
    var q2, q1 := q / b, q % b;
    assert v == 256 * q + r;
    assert q == b * q2 + q1;
    assert 256 * q == (256 * b) * q2 + 256 * q1;
    assert 0 <= q1 < b;
    DivModUnique(v, 256 * b, q2, r + 256 * q1);
  }

  /** Reading back n stored bytes gives v modulo 256^n. */
  lemma {:induction false} LittleEndianOf(v: int, n: nat)
    ensures LittleEndian(ToLittleEndian(v, n)) == v % Pow256(n)
    decreases n
  {
    if n > 0 {
      LittleEndianOf(v / 256, n - 1);
      var b := ToLittleEndian(v, n);
      assert b[1..] == ToLittleEndian(v / 256, n - 1);
      ModSplit(v, Pow256(n - 1));
    }
  }

  lemma Pow256Values()
    ensures Pow256(1) == 256 && Pow256(2) == Two16 && Pow256(4) == Two32 && Pow256(8) == Two64
  {
    assert Pow256(3) == Two24;
    assert Pow256(5) == 256 * Two32;
    assert Pow256(6) == Two16 * Two32;
    assert Pow256(7) == Two24 * Two32;
  }

  /** A value in the unsigned n-byte range reads back as itself. */
  lemma UnsignedOf(v: int, n: nat)
    requires 0 <= v < Pow256(n)
    ensures F.Unsigned(ToLittleEndian(v, n), n) == v
  {
    var b := ToLittleEndian(v, n);
    assert b[..n] == b;
    LittleEndianOf(v, n);
    DivModUnique(v, Pow256(n), 0, v);
  }

  /** A value in the signed n-byte range reads back as itself. */
  lemma SignedOf(v: int, n: nat)
    requires 0 <= 2 * v + Pow256(n) && 2 * v < Pow256(n)
    ensures F.Signed(ToLittleEndian(v, n), n) == v
  {
    var b := ToLittleEndian(v, n);
    LittleEndianOf(v, n);
    assert b[..n] == b;
    var p := Pow256(n);
    if v < 0 {
      DivModUnique(v, p, -1, v + p);
    } else {
      DivModUnique(v, p, 0, v);
    }
  }

  // ---------------------------------------------------------------------
  // The two encoders differ only where they are meant to

  /** Off the three places where the versions part (the temporal filter, Bit
      and the binary types), both encoders produce the same mvalue. */
  lemma EncodersAgree(m: MValue, col: Option<Column>, val: Option<seq<byte>>)
    requires val.Some? ==> NoNul(val.value)
    requires col.Some? ==> var t := col.value.colType;
      !IsTemporalType(t) && t != Bit && !V.IsBinaryType(t)
    ensures V.ValueSpec(m, col, val) == F.ValueSpec(m, col, val)
  {
  }

  /** The filters part on "1.2": the newer keeps only the digits, the older
      drops only ':', '-', '/' and ' '. */
  lemma FiltersDiffer()
    ensures V.DigitFilter(['1' as int, '.' as int, '2' as int]) == ['1' as int, '2' as int]
    ensures F.SeparatorFilter(['1' as int, '.' as int, '2' as int]) == ['1' as int, '.' as int, '2' as int]
  {
    var d: seq<byte> := ['1' as int, '.' as int, '2' as int];
    assert d[0..][..3] == d;
    assert d[..2][..1] == d[..1] && d[..1][..0] == [] && d[..|d| - 1] == d[..2];
    assert V.KeepDigits(d[..1]) == [d[0]];
    assert V.KeepDigits(d[..2]) == [d[0]];
    assert F.DropSeparators(d[..1]) == [d[0]];
    assert F.DropSeparators(d[..2]) == d[..2];
  }

  /** Bit is a 64-bit half-swapped value in the newer encoder and a 32-bit
      unsigned one in the older; Varbinary is must_use_binary in the newer
      and err_bad_data_type in the older. */
  lemma TypesDiffer(m: MValue, c: Column)
    ensures c.colType == Bit ==>
      V.ValueSpec(m, Some(c), Some(['1' as int])).use == UseUnsigned64
      && F.ValueSpec(m, Some(c), Some(['1' as int])).use == UseUnsigned
    ensures c.colType == Varbinary ==>
      V.ValueSpec(m, Some(c), Some(['1' as int])).use == MustUseBinary
      && F.ValueSpec(m, Some(c), Some(['1' as int])).use == ErrBadDataType
  {
    var one: seq<byte> := ['1' as int];
    NotPseudo(one);
    if c.colType == Bit || c.colType == Varbinary {
      V.ValueOfPlainText(m, c, one);
      F.ValueOfPlainText(m, c, one);
    }
  }

  lemma NotPseudo(s: seq<byte>)
    requires |s| > 0 && s[0] != '@' as int
    ensures !IsPseudoValue(s)
  {
    assert AtNull[0] == '@' as int && AtIncrement[0] == '@' as int && AtDecrement[0] == '@' as int;
    assert AtTime[0] == '@' as int && AtAutoinc[0] == '@' as int;
  }

  // ---------------------------------------------------------------------
  // The encoders' branches on one column kind

  lemma CharBranch(m: MValue, c: Column, v: seq<byte>)
    requires IsCharType(c.colType) && NoNul(v)
    ensures V.ValueSpec(m, Some(c), Some(v)) == CharColumnValue(m.(column := Some(c)), c, v)
    ensures F.ValueSpec(m, Some(c), Some(v)) == CharColumnValue(m.(column := Some(c)), c, v)
  {
  }

  lemma ClampedBranch(m: MValue, c: Column, v: seq<byte>)
    requires IsClampedType(c.colType) && NoNul(v) && !IsPseudoValue(v)
    ensures V.ValueSpec(m, Some(c), Some(v)) == ClampedValue(m.(column := Some(c)), c.colType, Int32(Strtol(v, 0)))
    ensures F.ValueSpec(m, Some(c), Some(v)) == ClampedValue(m.(column := Some(c)), c.colType, Int32(Strtol(v, 0)))
  {
    V.ValueOfPlainText(m, c, v);
    F.ValueOfPlainText(m, c, v);
  }

  lemma TemporalBranch(m: MValue, c: Column, v: seq<byte>)
    requires IsTemporalType(c.colType) && NoNul(v)
    ensures V.ValueSpec(m, Some(c), Some(v)) == TemporalValue(m.(column := Some(c)), c.colType, V.DigitFilter(v))
    ensures F.ValueSpec(m, Some(c), Some(v)) == TemporalValue(m.(column := Some(c)), c.colType, F.SeparatorFilter(v))
  {
  }

  // ---------------------------------------------------------------------
  // Filters on digit texts

  lemma {:induction false} KeepDigitsAppend(a: seq<byte>, b: seq<byte>)
    ensures V.KeepDigits(a + b) == V.KeepDigits(a) + V.KeepDigits(b)
    decreases |b|
  {
    if b == [] {
      assert a + b == a;
    } else {
      assert (a + b)[..|a + b| - 1] == a + b[..|b| - 1];
      KeepDigitsAppend(a, b[..|b| - 1]);
    }
  }

  lemma {:induction false} KeepAllDigits(a: seq<byte>)
    requires AllDigits(a, 10)
    ensures V.KeepDigits(a) == a
    decreases |a|
  {
    if a != [] {
      KeepAllDigits(a[..|a| - 1]);
      assert DigitValue(a[|a| - 1]) < 10;
      assert a == a[..|a| - 1] + [a[|a| - 1]];
    }
  }

  lemma {:induction false} DropSeparatorsAppend(a: seq<byte>, b: seq<byte>)
    ensures F.DropSeparators(a + b) == F.DropSeparators(a) + F.DropSeparators(b)
    decreases |b|
  {
    if b == [] {
      assert a + b == a;
    } else {
      assert (a + b)[..|a + b| - 1] == a + b[..|b| - 1];
      DropSeparatorsAppend(a, b[..|b| - 1]);
    }
  }

  lemma {:induction false} KeepAllNonSeparators(a: seq<byte>)
    requires AllDigits(a, 10)
    ensures F.DropSeparators(a) == a
    decreases |a|
  {
    if a != [] {
      KeepAllNonSeparators(a[..|a| - 1]);
      assert DigitValue(a[|a| - 1]) < 10;
      assert a == a[..|a| - 1] + [a[|a| - 1]];
    }
  }

  /** Digit fields joined by separators: the newer filter keeps the digits. */
  lemma KeepDigitsOfFields(a: seq<byte>, b: seq<byte>, c: seq<byte>, sep: byte)
    requires AllDigits(a, 10) && AllDigits(b, 10) && AllDigits(c, 10) && !IsDigit(sep)
    ensures V.KeepDigits(a + [sep] + b + [sep] + c) == a + b + c
  {
    var s1 := a + [sep];
    var s2 := s1 + b;
    var s3 := s2 + [sep];
    assert V.KeepDigits([sep]) == [] by {
      assert [sep][..0] == [];
    }
    KeepAllDigits(a);
    KeepDigitsAppend(a, [sep]);
    assert V.KeepDigits(s1) == a;
    KeepAllDigits(b);
    KeepDigitsAppend(s1, b);
    assert V.KeepDigits(s2) == a + b;
    KeepDigitsAppend(s2, [sep]);
    assert V.KeepDigits(s3) == a + b;
    KeepAllDigits(c);
    KeepDigitsAppend(s3, c);
  }

  /** ... and so does the older one, if the separator is one it drops. */
  lemma DropSeparatorsOfFields(a: seq<byte>, b: seq<byte>, c: seq<byte>, sep: byte)
    requires AllDigits(a, 10) && AllDigits(b, 10) && AllDigits(c, 10) && F.IsSeparator(sep)
    ensures F.DropSeparators(a + [sep] + b + [sep] + c) == a + b + c
  {
    var s1 := a + [sep];
    var s2 := s1 + b;
    var s3 := s2 + [sep];
    assert F.DropSeparators([sep]) == [] by {
      assert [sep][..0] == [];
    }
    KeepAllNonSeparators(a);
    DropSeparatorsAppend(a, [sep]);
    assert F.DropSeparators(s1) == a;
    KeepAllNonSeparators(b);
    DropSeparatorsAppend(s1, b);
    assert F.DropSeparators(s2) == a + b;
    DropSeparatorsAppend(s2, [sep]);
    assert F.DropSeparators(s3) == a + b;
    KeepAllNonSeparators(c);
    DropSeparatorsAppend(s3, c);
  }

  /** A short unsigned text of digit fields reaches strbuf as its digits,
      through either filter. */
  lemma FiltersOfFields(a: seq<byte>, b: seq<byte>, c: seq<byte>, sep: byte)
    requires |a| > 0 && AllDigits(a, 10) && AllDigits(b, 10) && AllDigits(c, 10)
    requires F.IsSeparator(sep) && !IsDigit(sep) && |a| + |b| + |c| + 2 <= 62
    ensures var t := a + [sep] + b + [sep] + c;
      V.DigitFilter(t) == a + b + c && F.SeparatorFilter(t) == a + b + c
  {
    var t := a + [sep] + b + [sep] + c;
    assert t[0] == a[0] && DigitValue(a[0]) < 10;
    assert SignLength(t) == 0;
    assert t[0..][..Min(62, |t|)] == t;
    KeepDigitsOfFields(a, b, c, sep);
    DropSeparatorsOfFields(a, b, c, sep);
  }

  /** The value of digit fields written one after the other. */
  lemma RunValueFields(a: seq<byte>, b: seq<byte>, c: seq<byte>)
    requires AllDigits(a, 10) && AllDigits(b, 10) && AllDigits(c, 10)
    ensures AllDigits(a + b + c, 10)
    ensures RunValue(a + b + c, 10, 0)
         == (RunValue(a, 10, 0) * Pow10(|b|) + RunValue(b, 10, 0)) * Pow10(|c|) + RunValue(c, 10, 0)
  {
    var ra := RunValue(a, 10, 0);
    AllDigitsConcat(a, b);
    AllDigitsConcat(a + b, c);
    RunValueAppend(a, b, 10, 0);
    RunValueAccumulator(b, ra);
    var rab := RunValue(a + b, 10, 0);
    assert rab == ra * Pow10(|b|) + RunValue(b, 10, 0);
    RunValueAppend(a + b, c, 10, 0);
    RunValueAccumulator(c, rab);
  }

  lemma AllDigitsConcat(a: seq<byte>, b: seq<byte>)
    requires AllDigits(a, 10) && AllDigits(b, 10)
    ensures AllDigits(a + b, 10)
  {
    assert forall i :: 0 <= i < |a + b| ==> (a + b)[i] == if i < |a| then a[i] else b[i - |a|];
  }

  /** The digits of three fields of widths wx, 2 and 2 read as one numeral. */
  lemma DigitsNumeral(xs: seq<byte>, ys: seq<byte>, zs: seq<byte>, x: nat, y: nat, z: nat)
    requires |xs| >= 1 && x < 10000 && |ys| == 2 && |zs| == 2
    requires AllDigits(xs, 10) && AllDigits(ys, 10) && AllDigits(zs, 10)
    requires RunValue(xs, 10, 0) == x && RunValue(ys, 10, 0) == y && RunValue(zs, 10, 0) == z
    requires y < 100 && z < 100
    ensures Strtol(xs + ys + zs, 10) == (x * 100 + y) * 100 + z
  {
    assert Pow10(2) == 100;
    RunValueFields(xs, ys, zs);
    assert (x * 100 + y) * 100 + z < 100000000 by {
      assert x * 100 + y < 1000000;
    }
    StrtolDigits(xs + ys + zs);
  }

  lemma Pow10Values()
    ensures Pow10(2) == 100 && Pow10(4) == 10000
  {
    assert Pow10(1) == 10 && Pow10(3) == 1000;
  }

  /** "%0<wx>d", "%02d" and "%02d" print digit fields of their widths. */
  lemma PaddedFields(x: nat, wx: nat, y: nat, z: nat, xs: seq<byte>, ys: seq<byte>, zs: seq<byte>)
    requires 1 <= wx && x < Pow10(wx) && y < 100 && z < 100
    requires xs == FormatInt(x, wx) && ys == FormatInt(y, 2) && zs == FormatInt(z, 2)
    ensures |xs| == wx && |ys| == 2 && |zs| == 2
    ensures AllDigits(xs, 10) && AllDigits(ys, 10) && AllDigits(zs, 10)
    ensures RunValue(xs, 10, 0) == x && RunValue(ys, 10, 0) == y && RunValue(zs, 10, 0) == z
  {
    assert Pow10(2) == 100;
    FormatIntPadded(x, wx);
    FormatIntPadded(y, 2);
    FormatIntPadded(z, 2);
  }

  /** Digit fields joined by a separator hold no NUL. */
  lemma FieldsNoNul(xs: seq<byte>, ys: seq<byte>, zs: seq<byte>, sep: byte, t: seq<byte>)
    requires AllDigits(xs, 10) && AllDigits(ys, 10) && AllDigits(zs, 10) && sep != 0
    requires t == xs + [sep] + ys + [sep] + zs
    ensures NoNul(t)
  {
    assert forall i :: 0 <= i < |t| ==> IsDigit(t[i]) || t[i] == sep;
  }

  /** "%0<w>d" fields of a date or a time: strbuf holds their digits, whose
      value is the YYYYMMDD or HHMMSS numeral. */
  lemma FieldsNumeral(x: nat, wx: nat, y: nat, z: nat, sep: byte, t: seq<byte>)
    requires 1 <= wx <= 4 && x < Pow10(wx) && x < 10000 && y < 100 && z < 100
    requires F.IsSeparator(sep) && !IsDigit(sep)
    requires t == FormatInt(x, wx) + [sep] + FormatInt(y, 2) + [sep] + FormatInt(z, 2)
    ensures NoNul(t) && V.DigitFilter(t) == F.SeparatorFilter(t)
    ensures Strtol(V.DigitFilter(t), 10) == (x * 100 + y) * 100 + z
  {
    var xs, ys, zs := FormatInt(x, wx), FormatInt(y, 2), FormatInt(z, 2);
    PaddedFields(x, wx, y, z, xs, ys, zs);
    FiltersOfFields(xs, ys, zs, sep);
    DigitsNumeral(xs, ys, zs, x, y, z);
    FieldsNoNul(xs, ys, zs, sep, t);
  }

  // ---------------------------------------------------------------------
  // The decoder on stored payloads

  /** MySQL::result on the bytes the engine keeps for u. */
  function Decode(t: ColumnType, u: Payload): F.Output
    requires F.WellFormed(F.RecAttr(t, StoredBytes(u)))
  {
    F.ResultSpec(F.RecAttr(t, StoredBytes(u)), [], None)
  }

  /** The signed integer types print the value their bytes were stored from. */
  lemma DecodeSigned(t: ColumnType, v: int)
    requires t in {Tinyint, Smallint, Int, Bigint}
    requires 0 <= 2 * v + Pow256(F.FixedWidth(t)) && 2 * v < Pow256(F.FixedWidth(t))
    ensures F.ResultSpec(F.RecAttr(t, ToLittleEndian(v, F.FixedWidth(t))), [], None)
         == F.Printed(FormatInt(v, 0))
  {
    SignedOf(v, F.FixedWidth(t));
  }

  /** ... and so do the unsigned ones. */
  lemma DecodeUnsigned(t: ColumnType, v: int)
    requires t in {Tinyunsigned, Smallunsigned, Unsigned, Bigunsigned}
    requires 0 <= v < Pow256(F.FixedWidth(t))
    ensures F.ResultSpec(F.RecAttr(t, ToLittleEndian(v, F.FixedWidth(t))), [], None)
         == F.Printed(FormatInt(v, 0))
  {
    UnsignedOf(v, F.FixedWidth(t));
  }

  lemma DecodeInt(v: int)
    requires -Two31 <= v < Two31
    ensures F.WellFormed(F.RecAttr(Int, StoredBytes(ValSigned(v))))
    ensures Decode(Int, ValSigned(v)) == F.Printed(FormatInt(v, 0))
  {
    Pow256Values();
    DecodeSigned(Int, v);
  }

  lemma DecodeClamped(m: MValue, t: ColumnType, v: int)
    requires IsClampedType(t) && ClampLow(t) <= v <= ClampHigh(t)
    ensures var u := ClampedValue(m, t, v).u;
      F.WellFormed(F.RecAttr(t, StoredBytes(u))) && Decode(t, u) == F.Printed(FormatInt(v, 0))
  {
    if t in {Mediumint, Mediumunsigned} {
      DecodeMedium(m, t, v);
    } else {
      DecodeNarrow(m, t, v);
    }
  }

  lemma DecodeMedium(m: MValue, t: ColumnType, v: int)
    requires t in {Mediumint, Mediumunsigned} && ClampLow(t) <= v <= ClampHigh(t)
    ensures var u := ClampedValue(m, t, v).u;
      F.WellFormed(F.RecAttr(t, StoredBytes(u))) && Decode(t, u) == F.Printed(FormatInt(v, 0))
  {
    assert ClampedValue(m, t, v).u == ValLow24(Store24(v));
    if t == Mediumint {
      DecodeMediumint(v);
    } else {
      DecodeMediumunsigned(v);
    }
  }

  lemma DecodeMediumint(v: int)
    requires -0x80_0000 <= v < 0x80_0000
    ensures F.ResultSpec(F.RecAttr(Mediumint, Store24(v)), [], None) == F.Printed(FormatInt(v, 0))
  {
    Store24Sint3Korr(v);
  }

  lemma DecodeMediumunsigned(v: int)
    requires 0 <= v < Two24
    ensures F.ResultSpec(F.RecAttr(Mediumunsigned, Store24(v)), [], None) == F.Printed(FormatInt(v, 0))
  {
    Store24Uint3Korr(v);
    DivModUnique(v, Two24, 0, v);
  }

  lemma DecodeNarrow(m: MValue, t: ColumnType, v: int)
    requires t in {Tinyint, Tinyunsigned, Smallint, Smallunsigned} && ClampLow(t) <= v <= ClampHigh(t)
    ensures var u := ClampedValue(m, t, v).u;
      F.WellFormed(F.RecAttr(t, StoredBytes(u))) && Decode(t, u) == F.Printed(FormatInt(v, 0))
  {
    var u := ClampedValue(m, t, v).u;
    assert StoredBytes(u) == ToLittleEndian(v, F.FixedWidth(t));
    assert Pow256(1) == 256 && Pow256(2) == Two16;
    if t in {Tinyint, Smallint} {
      DecodeSigned(t, v);
    } else {
      DecodeUnsigned(t, v);
    }
  }

  /** factor_YYYYMMDD() of the numeral (y * 100 + mo) * 100 + d. */
  lemma DateNumeral(y: nat, mo: nat, d: nat)
    requires y <= 9999 && mo < 100 && d < 100
    ensures FactorYYYYMMDD(ZeroTm, (y * 100 + mo) * 100 + d) == ZeroTm.(year := y, month := mo, day := d)
  {
    var n := (y * 100 + mo) * 100 + d;
    DivModUnique(n, 10000, y, 100 * mo + d);
    DivModUnique(y, 10000, 0, y);
    DivModUnique(n, 100, 100 * y + mo, d);
    DivModUnique(100 * y + mo, 100, y, mo);
  }

  /** factor_HHMMSS() of the numeral (h * 100 + mi) * 100 + s. */
  lemma TimeNumeral(h: nat, mi: nat, s: nat)
    requires h < 100 && mi < 100 && s < 100
    ensures FactorHHMMSS(ZeroTm, (h * 100 + mi) * 100 + s) == ZeroTm.(hour := h, minute := mi, second := s)
  {
    var n := (h * 100 + mi) * 100 + s;
    FactorHHMMSSFields(ZeroTm, n);
    DivModUnique(n, 10000, h, 100 * mi + s);
    DivModUnique(n, 100, 100 * h + mi, s);
    DivModUnique(100 * h + mi, 100, h, mi);
  }

  /** A packed date reads back, through field_to_tm(), as its fields. */
  lemma DecodePackedDate(tm: Tm)
    requires tm.day < 32 && tm.month < 16 && tm.year <= 9999
    ensures F.ResultSpec(F.RecAttr(Date, Store24(Int32(PackDate(tm)))), [], None) == F.Printed(F.DateText(tm))
  {
    PackUnpackDate(tm);
    var b := Store24(Int32(PackDate(tm)));
    var r := F.FieldToTm(F.RecAttr(Date, b));
    assert r == UnpackDate(Uint3Korr(b));
    assert F.DateText(r) == F.DateText(tm);
  }

  lemma DateTextOf(y: nat, mo: nat, d: nat)
    requires y <= 9999 && mo < 16 && d < 32
    ensures F.DateText(ZeroTm.(year := y, month := mo, day := d))
         == FormatInt(y, 4) + F.Dash + FormatInt(mo, 2) + F.Dash + FormatInt(d, 2)
  {
    Int32Id(y); Int32Id(mo); Int32Id(d);
  }

  /** What the engine keeps for the YYYYMMDD numeral of a date prints back
      as "%04d-%02d-%02d". */
  lemma DecodeDate(y: nat, mo: nat, d: nat, t: seq<byte>, n: int, u: Payload)
    requires y <= 9999 && mo < 16 && d < 32 && n == (y * 100 + mo) * 100 + d
    requires t == FormatInt(y, 4) + F.Dash + FormatInt(mo, 2) + F.Dash + FormatInt(d, 2)
    requires u == ValLow24(DateBytes(n))
    ensures F.WellFormed(F.RecAttr(Date, StoredBytes(u))) && Decode(Date, u) == F.Printed(t)
  {
    var tm := ZeroTm.(year := y, month := mo, day := d);
    var rec := F.RecAttr(Date, Store24(Int32(PackDate(tm))));
    DateNumeral(y, mo, d);
    assert StoredBytes(u) == Store24(Int32(PackDate(tm)));
    DecodePackedDate(tm);
    DateTextOf(y, mo, d);
    assert F.DateText(tm) == t;
    assert Decode(Date, u) == F.ResultSpec(rec, [], None);
  }

  /** A time stored in 24 bits reads back, through field_to_tm(), as its
      fields. */
  lemma DecodeStoredTime(n: int)
    requires 0 <= n < 1000000
    ensures F.ResultSpec(F.RecAttr(Time, Store24(n)), [], None) == F.Printed(F.ClockText(FactorHHMMSS(ZeroTm, n)))
  {
    Store24Sint3Korr(n);
    assert F.FieldToTm(F.RecAttr(Time, Store24(n))) == FactorHHMMSS(ZeroTm, n);
    assert [] + F.ClockText(FactorHHMMSS(ZeroTm, n)) == F.ClockText(FactorHHMMSS(ZeroTm, n));
  }

  lemma ClockTextOf(h: nat, mi: nat, s: nat)
    requires h < 100 && mi < 100 && s < 100
    ensures F.ClockText(ZeroTm.(hour := h, minute := mi, second := s))
         == FormatInt(h, 2) + F.Colon + FormatInt(mi, 2) + F.Colon + FormatInt(s, 2)
  {
    Int32Id(h); Int32Id(mi); Int32Id(s);
  }

  /** What the engine keeps for the HHMMSS numeral of a time prints back
      as "%02d:%02d:%02d". */
  lemma DecodeTime(h: nat, mi: nat, s: nat, t: seq<byte>, n: int, u: Payload)
    requires h < 100 && mi < 100 && s < 100 && n == (h * 100 + mi) * 100 + s
    requires t == FormatInt(h, 2) + F.Colon + FormatInt(mi, 2) + F.Colon + FormatInt(s, 2)
    requires u == ValLow24(Store24(n))
    ensures F.WellFormed(F.RecAttr(Time, StoredBytes(u))) && Decode(Time, u) == F.Printed(t)
  {
    var tm := ZeroTm.(hour := h, minute := mi, second := s);
    assert StoredBytes(u) == Store24(n);
    TimeNumeral(h, mi, s);
    assert FactorHHMMSS(ZeroTm, n) == tm;
    ClockTextOf(h, mi, s);
    assert F.ClockText(tm) == t;
    DecodeStoredTime(n);
  }

  // ---------------------------------------------------------------------
  // Round trips

  /** An Int column: what "%d" prints is stored and printed back unchanged,
      by either encoder. */
  lemma IntRoundTrip(m: MValue, c: Column, v: int)
    requires c.colType == Int && -Two31 <= v < Two31
    ensures var r := V.ValueSpec(m, Some(c), Some(FormatInt(v, 0)));
      && r == F.ValueSpec(m, Some(c), Some(FormatInt(v, 0)))
      && F.WellFormed(F.RecAttr(Int, StoredBytes(r.u)))
      && Decode(Int, r.u) == F.Printed(FormatInt(v, 0))
  {
    V.ValueIntFromDecimalText(m, c, v);
    EncodersAgree(m, Some(c), Some(FormatInt(v, 0)));
    DecodeInt(v);
  }

  /** A clamped column stores an in-range parse without setting `over`, and
      prints it back. */
  lemma ClampedStores(m: MValue, c: Column, s: seq<byte>, v: int)
    requires IsClampedType(c.colType) && NoNul(s) && !IsPseudoValue(s)
    requires Int32(Strtol(s, 0)) == v && ClampLow(c.colType) <= v <= ClampHigh(c.colType)
    ensures var r := V.ValueSpec(m, Some(c), Some(s));
      && r == F.ValueSpec(m, Some(c), Some(s))
      && r.over == m.over
      && F.WellFormed(F.RecAttr(c.colType, StoredBytes(r.u)))
      && Decode(c.colType, r.u) == F.Printed(FormatInt(v, 0))
  {
    ClampedBranch(m, c, s);
    DecodeClamped(m.(column := Some(c)), c.colType, v);
  }

  /** What "%d" prints for an int is no pseudo-value, and strtol() in base
      0 reads it back. */
  lemma DecimalText(v: int, s: seq<byte>)
    requires -Two31 <= v < Two31 && s == FormatInt(v, 0)
    ensures NoNul(s) && !IsPseudoValue(s) && Int32(Strtol(s, 0)) == v
  {
    NotPseudo(s);
    StrtolFormatInt(v, 0);
    Int32Id(v);
  }

  /** The tiny, small and medium types: an in-range number's "%d" text is
      stored, without setting `over`, and printed back unchanged, by either
      encoder. */
  lemma ClampedRoundTrip(m: MValue, c: Column, v: int, s: seq<byte>)
    requires IsClampedType(c.colType) && ClampLow(c.colType) <= v <= ClampHigh(c.colType)
    requires s == FormatInt(v, 0)
    ensures var r := V.ValueSpec(m, Some(c), Some(s));
      && r == F.ValueSpec(m, Some(c), Some(s))
      && r.over == m.over
      && F.WellFormed(F.RecAttr(c.colType, StoredBytes(r.u)))
      && Decode(c.colType, r.u) == F.Printed(s)
  {
    assert ClampLow(c.colType) >= -Two31 && ClampHigh(c.colType) < Two31;
    DecimalText(v, s);
    ClampedStores(m, c, s, v);
  }

  /** Varchar: the text comes back cut to min(strlen mod 256, L) bytes. */
  lemma VarcharRoundTrip(m: MValue, c: Column, v: seq<byte>)
    requires c.colType == Varchar && NoNul(v)
    ensures var r := V.ValueSpec(m, Some(c), Some(v));
      && r == F.ValueSpec(m, Some(c), Some(v))
      && r.colLen == c.length + 1
      && F.WellFormed(F.RecAttr(Varchar, StoredBytes(r.u)))
      && Decode(Varchar, r.u) == F.Printed(v[..Min(|v| % 256, c.length)])
  {
    CharBranch(m, c, v);
    var n := Min(|v| % 256, c.length);
    var buf := VarcharBuffer(v, c.length);
    assert buf[1..1 + n] == v[..n];
  }

  /** Longvarchar: the text comes back cut to min(strlen mod 65536, L) bytes. */
  lemma LongvarcharRoundTrip(m: MValue, c: Column, v: seq<byte>)
    requires c.colType == Longvarchar && NoNul(v)
    ensures var r := V.ValueSpec(m, Some(c), Some(v));
      && r == F.ValueSpec(m, Some(c), Some(v))
      && r.colLen == c.length + 2
      && F.WellFormed(F.RecAttr(Longvarchar, StoredBytes(r.u)))
      && Decode(Longvarchar, r.u) == F.Printed(v[..Min(|v| % Two16, c.length)])
  {
    CharBranch(m, c, v);
    var n := Min(|v| % Two16, c.length);
    var buf := LongvarcharBuffer(v, c.length);
    assert Uint2Korr(buf) == n;
    assert buf[2..2 + n] == v[..n];
  }

  /** Char: of its L+1 buffer bytes the engine keeps col_len = L, and they
      come back as the text cut to L and padded with spaces to L (only NULs
      are trimmed, not spaces). */
  lemma CharRoundTrip(m: MValue, c: Column, v: seq<byte>)
    requires c.colType == Char && NoNul(v)
    ensures var r := V.ValueSpec(m, Some(c), Some(v));
      && r == F.ValueSpec(m, Some(c), Some(v))
      && r.u.ValChar? && r.colLen == c.length && |r.u.buf| == c.length + 1
      && F.ResultSpec(F.RecAttr(Char, r.u.buf[..r.colLen]), [], None)
         == F.Printed(v[..Min(|v|, c.length)] + Repeat(' ' as int, c.length - Min(|v|, c.length)))
  {
    CharBranch(m, c, v);
    var l := Min(|v|, c.length);
    var s := v[..l] + Repeat(' ' as int, c.length - l);
    assert CharBuffer(v, c.length)[..c.length] == s;
    assert NoNul(s) by {
      assert forall i :: 0 <= i < |s| ==> s[i] == if i < l then v[i] else ' ' as int;
    }
  }

  /** Where the two filters agree on a temporal text, so do the encoders. */
  lemma TemporalEncodersAgree(m: MValue, c: Column, t: seq<byte>)
    requires IsTemporalType(c.colType) && NoNul(t) && V.DigitFilter(t) == F.SeparatorFilter(t)
    ensures V.ValueSpec(m, Some(c), Some(t)) == F.ValueSpec(m, Some(c), Some(t))
  {
    TemporalBranch(m, c, t);
  }

  /** A temporal text reaches the engine as the numeral its strbuf holds:
      Date packs it into three bytes and Time stores its low 24 bits. What
      the engine keeps for that numeral, if it prints as t, makes t survive
      the round trip. */
  lemma TemporalStores(m: MValue, c: Column, t: seq<byte>, n: int)
    requires c.colType in {Date, Time} && NoNul(t)
    requires Strtol(V.DigitFilter(t), 10) == n && 0 <= n < Two31
    ensures var r := V.ValueSpec(m, Some(c), Some(t));
      && r.use == UseSigned
      && r.u == ValLow24(if c.colType == Date then DateBytes(n) else Store24(n))
  {
    Int32Id(n);
    TemporalBranch(m, c, t);
  }

  lemma TemporalRoundTrip(m: MValue, c: Column, t: seq<byte>, n: int)
    requires c.colType in {Date, Time} && NoNul(t)
    requires Strtol(V.DigitFilter(t), 10) == n && 0 <= n < Two31
    requires var u := ValLow24(if c.colType == Date then DateBytes(n) else Store24(n));
      F.WellFormed(F.RecAttr(c.colType, StoredBytes(u))) && Decode(c.colType, u) == F.Printed(t)
    ensures var r := V.ValueSpec(m, Some(c), Some(t));
      && r.use == UseSigned
      && F.WellFormed(F.RecAttr(c.colType, StoredBytes(r.u)))
      && Decode(c.colType, r.u) == F.Printed(t)
  {
    TemporalStores(m, c, t, n);
  }

  /** The text "%04d-%02d-%02d" of a date reaches strbuf as its YYYYMMDD
      numeral n, through either filter. */
  lemma DateTextNumeral(y: nat, mo: nat, d: nat, t: seq<byte>, n: int)
    requires y <= 9999 && mo < 100 && d < 100 && n == (y * 100 + mo) * 100 + d
    requires t == FormatInt(y, 4) + F.Dash + FormatInt(mo, 2) + F.Dash + FormatInt(d, 2)
    ensures NoNul(t) && V.DigitFilter(t) == F.SeparatorFilter(t)
    ensures Strtol(V.DigitFilter(t), 10) == n && 0 <= n < Two31
  {
    Pow10Values();
    FieldsNumeral(y, 4, mo, d, '-' as int, t);
  }

  /** The text "%02d:%02d:%02d" of a time reaches strbuf as its HHMMSS
      numeral n, through either filter. */
  lemma TimeTextNumeral(h: nat, mi: nat, s: nat, t: seq<byte>, n: int)
    requires h < 100 && mi < 100 && s < 100 && n == (h * 100 + mi) * 100 + s
    requires t == FormatInt(h, 2) + F.Colon + FormatInt(mi, 2) + F.Colon + FormatInt(s, 2)
    ensures NoNul(t) && V.DigitFilter(t) == F.SeparatorFilter(t)
    ensures Strtol(V.DigitFilter(t), 10) == n && 0 <= n < Two31
  {
    Pow10Values();
    FieldsNumeral(h, 2, mi, s, ':' as int, t);
  }

  /** A date's text reaches strbuf as its numeral n, and what the engine
      keeps for n prints back as the text. */
  lemma DateTextRoundTrip(y: nat, mo: nat, d: nat, t: seq<byte>, n: int)
    requires y <= 9999 && mo < 16 && d < 32 && n == (y * 100 + mo) * 100 + d
    requires t == FormatInt(y, 4) + F.Dash + FormatInt(mo, 2) + F.Dash + FormatInt(d, 2)
    ensures NoNul(t) && V.DigitFilter(t) == F.SeparatorFilter(t)
    ensures Strtol(V.DigitFilter(t), 10) == n && 0 <= n < Two31
    ensures F.WellFormed(F.RecAttr(Date, StoredBytes(ValLow24(DateBytes(n)))))
    ensures Decode(Date, ValLow24(DateBytes(n))) == F.Printed(t)
  {
    DateTextNumeral(y, mo, d, t, n);
    DecodeDate(y, mo, d, t, n, ValLow24(DateBytes(n)));
  }

  /** A time's text reaches strbuf as its numeral n, and what the engine
      keeps for n prints back as the text. */
  lemma TimeTextRoundTrip(h: nat, mi: nat, s: nat, t: seq<byte>, n: int)
    requires h < 100 && mi < 100 && s < 100 && n == (h * 100 + mi) * 100 + s
    requires t == FormatInt(h, 2) + F.Colon + FormatInt(mi, 2) + F.Colon + FormatInt(s, 2)
    ensures NoNul(t) && V.DigitFilter(t) == F.SeparatorFilter(t)
    ensures Strtol(V.DigitFilter(t), 10) == n && 0 <= n < Two31
    ensures F.WellFormed(F.RecAttr(Time, StoredBytes(ValLow24(Store24(n)))))
    ensures Decode(Time, ValLow24(Store24(n))) == F.Printed(t)
  {
    TimeTextNumeral(h, mi, s, t, n);
    DecodeTime(h, mi, s, t, n, ValLow24(Store24(n)));
  }

  /** Date: a "YYYY-MM-DD" text (any month below 16, any day below 32) is
      stored in 24 bits and printed back unchanged. Both filters pass it
      alike, so the older encoder stores the same (TemporalEncodersAgree). */
  lemma DateRoundTrip(m: MValue, c: Column, y: nat, mo: nat, d: nat, t: seq<byte>)
    requires c.colType == Date && y <= 9999 && mo < 16 && d < 32
    requires t == FormatInt(y, 4) + F.Dash + FormatInt(mo, 2) + F.Dash + FormatInt(d, 2)
    ensures NoNul(t) && V.DigitFilter(t) == F.SeparatorFilter(t)
    ensures var r := V.ValueSpec(m, Some(c), Some(t));
      && r.use == UseSigned
      && F.WellFormed(F.RecAttr(Date, StoredBytes(r.u)))
      && Decode(Date, r.u) == F.Printed(t)
  {
    DateTextRoundTrip(y, mo, d, t, (y * 100 + mo) * 100 + d);
    TemporalRoundTrip(m, c, t, (y * 100 + mo) * 100 + d);
  }

  /** Time: an "HH:MM:SS" text with two-digit fields is stored in 24 bits and
      printed back unchanged; the older encoder stores the same. */
  lemma TimeRoundTrip(m: MValue, c: Column, h: nat, mi: nat, s: nat, t: seq<byte>)
    requires c.colType == Time && h < 100 && mi < 100 && s < 100
    requires t == FormatInt(h, 2) + F.Colon + FormatInt(mi, 2) + F.Colon + FormatInt(s, 2)
    ensures NoNul(t) && V.DigitFilter(t) == F.SeparatorFilter(t)
    ensures var r := V.ValueSpec(m, Some(c), Some(t));
      && r.use == UseSigned
      && F.WellFormed(F.RecAttr(Time, StoredBytes(r.u)))
      && Decode(Time, r.u) == F.Printed(t)
  {
    TimeTextRoundTrip(h, mi, s, t, (h * 100 + mi) * 100 + s);
    TemporalRoundTrip(m, c, t, (h * 100 + mi) * 100 + s);
  }
}
