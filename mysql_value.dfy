/** The newer text-to-engine encoder (MySQL_value.cc): MySQL::value, which
    turns a request's text into the bytes the engine stores or compares
    against, MySQL::binary_value for raw byte values, and flip64. */
module MySQLValue {
  import opened Bytes
  import opened CLib
  import opened Wrappers
  import opened Ndb
  import opened CodecCommon

  /** flip64(): exchange the two 32-bit halves of a 64-bit word; the masks
      and shifts of the source are the quotient and remainder by 2^32. */
  function Flip64(i: int): (r: int)
    requires 0 <= i < Two64
    ensures 0 <= r < Two64
    ensures r / Two32 == i % Two32 && r % Two32 == i / Two32
  {
    var h1 := i / Two32;
    var h2 := (i % Two32) * Two32;
    h1 + h2
  }

  /** Swapping the halves twice gives back the word. */
  lemma Flip64Involution(i: int)
    requires 0 <= i < Two64
    ensures Flip64(Flip64(i)) == i
  {
    var r := Flip64(i);
    assert r == (r / Two32) * Two32 + r % Two32;
    assert i == (i / Two32) * Two32 + i % Two32;
  }

  /** The Bit column's value: ndbapi_bit_flip() of the unsigned 64-bit parse.
      ndbapi_bit_flip is taken to be flip64 (its header is not part of this model). */
  function BitValue(v: seq<byte>): (r: int)
    ensures 0 <= r < Two64
  {
    Flip64(Strtoul(v, 0))
  }

  // ---------------------------------------------------------------------
  // The temporal filter: an optional sign, then digits only

  /** The digits among s, in order. */
  function KeepDigits(s: seq<byte>): (r: seq<byte>)
    ensures |r| <= |s|
  {
    if s == [] then []
    else KeepDigits(s[..|s| - 1]) + (if IsDigit(s[|s| - 1]) then [s[|s| - 1]] else [])
  }

  /** Only digits are kept. */
  lemma {:induction false} KeepDigitsAreDigits(s: seq<byte>)
    ensures AllDigits(KeepDigits(s), 10)
  {
    if s != [] {
      KeepDigitsAreDigits(s[..|s| - 1]);
    }
  }

  /** What lands in strbuf: the leading sign, then the digits among the next
      62 characters at most. */
  function DigitFilter(val: seq<byte>): (r: seq<byte>)
    ensures |r| <= 63
  {
    var k := SignLength(val);
    var rest := val[k..];
    val[..k] + KeepDigits(rest[..Min(62, |rest|)])
  }

  /** What the filter loop has written into strbuf once it has read
      val[..c]: the sign, then the digits after it. */
  function WrittenDigits(val: seq<byte>, c: nat): (r: seq<byte>)
    requires SignLength(val) <= c <= |val|
    decreases c
  {
    if c == SignLength(val) then val[..c] else WrittenDigits(val, c - 1) + (if IsDigit(val[c - 1]) then [val[c - 1]] else [])
  }

  lemma {:induction false} WrittenDigitsSlice(val: seq<byte>, c: nat)
    requires SignLength(val) <= c <= |val|
    ensures WrittenDigits(val, c) == val[..SignLength(val)] + KeepDigits(val[SignLength(val)..c])
    decreases c
  {
    var k := SignLength(val);
    if c > k {
      WrittenDigitsSlice(val, c - 1);
      SliceSnoc(val, k, c);
      KeepDigitsSnoc(val[k..c - 1], val[c - 1]);
    }
  }

  lemma KeepDigitsSnoc(a: seq<byte>, b: byte)
    ensures KeepDigits(a + [b]) == KeepDigits(a) + (if IsDigit(b) then [b] else [])
  {
    assert (a + [b])[..|a|] == a;
  }

  /** The filter loop over the C string `val` into the 64-byte strbuf. */
  method FilterDigits(val: seq<byte>) returns (buf: seq<byte>)
    ensures buf == DigitFilter(val)
    ensures |buf| < 64 && NoNul(buf)
  {
    var strbuf := new byte[64];
    var b, c := 0, 0;
    if |val| > 0 && (val[0] == '-' as int || val[0] == '+' as int) {
      strbuf[0] := val[0];
      b, c := 1, 1;
    }
    ghost var k := SignLength(val);
    ghost var out: seq<byte> := val[..k];
    var i := 0;
    while i < 62 && c < |val|
      invariant c == k + i && c <= |val| && i <= 62
      invariant b == |out| <= c
      invariant out == WrittenDigits(val, c)
      invariant forall j :: 0 <= j < b ==> strbuf[j] == out[j]
    {
      if IsDigit(val[c]) {
        strbuf[b] := val[c];
        out := out + [val[c]];
        b := b + 1;
      }
      c, i := c + 1, i + 1;
    }
    WrittenDigitsSlice(val, c);
    DigitFilterPrefix(val, c);
    buf := strbuf[..b];
    assert buf == out;
    strbuf[b] := 0;
    DigitFilterNoNul(val);
  }

  /** The loop stops after 62 characters or at the end of the text. */
  lemma DigitFilterPrefix(val: seq<byte>, c: int)
    requires SignLength(val) <= c == SignLength(val) + Min(62, |val| - SignLength(val))
    ensures DigitFilter(val) == val[..SignLength(val)] + KeepDigits(val[SignLength(val)..c])
  {
    var k := SignLength(val);
    assert val[k..][..Min(62, |val[k..]|)] == val[k..c];
  }

  /** The filtered text holds a sign and digits only, so no NUL byte. */
  lemma DigitFilterNoNul(val: seq<byte>)
    ensures NoNul(DigitFilter(val))
  {
    var k := SignLength(val);
    var rest := val[k..];
    var kept := KeepDigits(rest[..Min(62, |rest|)]);
    KeepDigitsAreDigits(rest[..Min(62, |rest|)]);
    var r := DigitFilter(val);
    forall j | 0 <= j < |r|
      ensures r[j] != 0
    {
      if j >= k {
        assert r[j] == kept[j - k];
      }
    }
  }

  // ---------------------------------------------------------------------
  // MySQL::value

  predicate IsBinaryType(t: ColumnType) {
    t in {Text, Blob, Longvarbinary, Varbinary, Binary}
  }

  /** The types this encoder rejects with err_bad_data_type. */
  predicate IsUnsupportedType(t: ColumnType) {
    t in {Undefined, Olddecimal, Olddecimalunsigned}
  }

  /** MySQL::value(m, col, val): a null `col` or `val` is None; the fields the
      source does not assign keep their values from m. */
  function ValueSpec(m: MValue, col: Option<Column>, val: Option<seq<byte>>): MValue
    requires val.Some? ==> NoNul(val.value)
  {
    if col.None? then m.(use := ErrBadColumn)
    else ColumnValue(m.(column := col), col.value, val)
  }

  /** After `m.ndb_column = col`: the character, temporal and null branches. */
  function ColumnValue(m: MValue, c: Column, val: Option<seq<byte>>): MValue
    requires val.Some? ==> NoNul(val.value)
  {
    if IsCharType(c.colType) then
      if val.None? then m.(use := UseNull, u := ValInt64(0))
      else CharColumnValue(m, c, val.value)
    else if IsTemporalType(c.colType) then
      if val.None? then m.(use := UseNull, u := ValInt64(0))
      else TemporalValue(m, c.colType, DigitFilter(val.value))
    else if val.None? then m.(use := ErrBadUserValue)
    else
      match PseudoValue(m, c.colType, val.value)
      case Some(r) => r
      case None => TypedValue(m, c, val.value)
  }

  /** The type switch, for a text that is no pseudo-value. */
  function TypedValue(m: MValue, c: Column, v: seq<byte>): MValue
  {
    match SharedNumericValue(m, c, v)
    case Some(r) => r
    case None =>
      if c.colType == Bit then m.(use := UseUnsigned64, u := ValUint64(BitValue(v)))
      else if IsBinaryType(c.colType) then m.(use := MustUseBinary)
      else m.(use := ErrBadDataType)
  }

  /** The encoder, branch by branch as the source runs it. */
  method Value(m: MValue, col: Option<Column>, val: Option<seq<byte>>) returns (r: MValue)
    requires val.Some? ==> NoNul(val.value)
    ensures r == ValueSpec(m, col, val)
  {
    if col.None? {
      return m.(use := ErrBadColumn);
    }
    var c := col.value;
    r := m.(column := col);
    if IsCharType(c.colType) {
      if val.None? {
        return r.(use := UseNull, u := ValInt64(0));
      }
      var v := val.value;
      if c.colType == Varchar {
        var buf := EncodeVarchar(v, c.length);
        r := r.(len := |v| % 256, u := ValChar(buf), use := UseChar, colLen := c.length + 1);
      } else if c.colType == Longvarchar {
        var buf := EncodeLongvarchar(v, c.length);
        r := r.(len := |v| % Two16, u := ValChar(buf), use := UseChar, colLen := c.length + 2);
      } else {
        var buf := EncodeChar(v, c.length);
        r := r.(len := |v|, u := ValChar(buf), use := UseChar, colLen := c.length);
      }
      return;
    }
    if IsTemporalType(c.colType) {
      if val.None? {
        return r.(use := UseNull, u := ValInt64(0));
      }
      var strbuf := FilterDigits(val.value);
      return TemporalValue(r, c.colType, strbuf);
    }
    if val.None? {
      return r.(use := ErrBadUserValue);
    }
    var v := val.value;
    var pseudo := PseudoValue(r, c.colType, v);
    if pseudo.Some? {
      return pseudo.value;
    }
    var shared := SharedNumericValue(r, c, v);
    if shared.Some? {
      return shared.value;
    }
    if c.colType == Bit {
      r := r.(use := UseUnsigned64, u := ValUint64(BitValue(v)));
    } else if IsBinaryType(c.colType) {
      r := r.(use := MustUseBinary);
    } else {
      r := r.(use := ErrBadDataType);
    }
  }

  /** Null inputs: a null column is err_bad_column and nothing else changes; a
      null value is use_null with a zero payload on a character or temporal
      column and err_bad_user_value anywhere else. */
  lemma ValueNullInputs(m: MValue, col: Option<Column>, val: Option<seq<byte>>)
    requires val.Some? ==> NoNul(val.value)
    ensures col.None? ==> ValueSpec(m, col, val) == m.(use := ErrBadColumn)
    ensures col.Some? && val.None? ==>
      var r := ValueSpec(m, col, val);
      var t := col.value.colType;
      (IsCharType(t) || IsTemporalType(t) ==> r == m.(column := col, use := UseNull, u := ValInt64(0)))
      && (!IsCharType(t) && !IsTemporalType(t) ==> r == m.(column := col, use := ErrBadUserValue))
  {
  }

  /** A text that is no pseudo-value goes to the type switch on every column
      that is neither character nor temporal. */
  lemma ValueOfPlainText(m: MValue, c: Column, v: seq<byte>)
    requires NoNul(v) && !IsPseudoValue(v) && !IsCharType(c.colType) && !IsTemporalType(c.colType)
    ensures ValueSpec(m, Some(c), Some(v)) == TypedValue(m.(column := Some(c)), c, v)
  {
    assert PseudoValue(m.(column := Some(c)), c.colType, v).None?;
  }

  lemma ClampedUse(m: MValue, t: ColumnType, aux: int)
    requires IsClampedType(t)
    ensures ClampedValue(m, t, aux).use in {UseSigned, UseUnsigned}
  {
  }

  lemma TypedValueUse(m: MValue, c: Column, v: seq<byte>)
    ensures var u := TypedValue(m, c, v).use;
      && (u == MustUseBinary <==> IsBinaryType(c.colType))
      && (u == ErrBadDataType <==> IsUnsupportedType(c.colType) || IsCharType(c.colType) || IsTemporalType(c.colType))
      && u != ErrBadUserValue && u != ErrBadColumn
  {
    if IsClampedType(c.colType) {
      ClampedUse(m, c.colType, Int32(Strtol(v, 0)));
    }
  }

  /** The error kinds and must_use_binary, each exactly: err_bad_column for a
      null column; err_bad_user_value for a null value on a column that is
      neither character nor temporal; must_use_binary for a text that is no
      pseudo-value on Text, Blob, Longvarbinary, Varbinary or Binary; and
      err_bad_data_type for such a text on an old decimal or unknown type. */
  lemma ValueErrorKinds(m: MValue, col: Option<Column>, val: Option<seq<byte>>)
    requires val.Some? ==> NoNul(val.value)
    ensures var r := ValueSpec(m, col, val);
      && (col.None? ==> r.use == ErrBadColumn)
      && (col.Some? ==>
        var t := col.value.colType;
        && r.use != ErrBadColumn
        && (r.use == ErrBadUserValue <==> val.None? && !IsCharType(t) && !IsTemporalType(t))
        && (r.use == MustUseBinary <==> val.Some? && !IsPseudoValue(val.value) && IsBinaryType(t))
        && (r.use == ErrBadDataType <==> val.Some? && !IsPseudoValue(val.value) && IsUnsupportedType(t)))
  {
    if col.Some? && val.Some? {
      var c := col.value;
      if !IsCharType(c.colType) && !IsTemporalType(c.colType) {
        var m1 := m.(column := col);
        var p := PseudoValue(m1, c.colType, val.value);
        if p.None? {
          ValueOfPlainText(m, c, val.value);
          TypedValueUse(m1, c, val.value);
        } else {
          assert ValueSpec(m, col, val) == p.value;
          assert p.value.use in {UseNull, UseInterpreted, UseUnsigned, UseAutoinc};
        }
      }
    }
  }

  /** "@null" is a pseudo-value only on columns that are neither character
      nor temporal: a character column stores the text "@null" itself, a
      numeric column reads it as SQL NULL. */
  lemma ValueAtNull(m: MValue, c: Column)
    ensures IsCharType(c.colType) ==>
      ValueSpec(m, Some(c), Some(AtNull)) == CharColumnValue(m.(column := Some(c)), c, AtNull)
    ensures !IsCharType(c.colType) && !IsTemporalType(c.colType) ==>
      && ValueSpec(m, Some(c), Some(AtNull)).use == UseNull
      && ValueSpec(m, Some(c), Some(AtNull)).u == ValInt64(0)
  {
    assert NoNul(AtNull);
  }

  /** On a numeric column "@++" and "@--" are interpreted updates. */
  lemma ValueIncrementDecrement(m: MValue, c: Column)
    requires !IsCharType(c.colType) && !IsTemporalType(c.colType)
    ensures ValueSpec(m, Some(c), Some(AtIncrement)).use == UseInterpreted
    ensures ValueSpec(m, Some(c), Some(AtIncrement)).interpreted == IsIncrement
    ensures ValueSpec(m, Some(c), Some(AtDecrement)).use == UseInterpreted
    ensures ValueSpec(m, Some(c), Some(AtDecrement)).interpreted == IsDecrement
  {
    assert NoNul(AtIncrement) && NoNul(AtDecrement);
    assert AtIncrement != AtNull && AtDecrement != AtNull && AtDecrement != AtIncrement;
  }

  /** On a numeric column "@autoinc" reserves 8 bytes exactly for the 64-bit
      types, and 4 otherwise. */
  lemma ValueAutoinc(m: MValue, c: Column)
    requires !IsCharType(c.colType) && !IsTemporalType(c.colType)
    ensures ValueSpec(m, Some(c), Some(AtAutoinc)).use == UseAutoinc
    ensures ValueSpec(m, Some(c), Some(AtAutoinc)).len == 8 <==> c.colType in {Bigint, Bigunsigned}
    ensures ValueSpec(m, Some(c), Some(AtAutoinc)).len != 8 ==> ValueSpec(m, Some(c), Some(AtAutoinc)).len == 4
  {
    assert NoNul(AtAutoinc);
    assert AtAutoinc != AtNull && AtAutoinc != AtIncrement && AtAutoinc != AtDecrement && AtAutoinc != AtTime;
  }

  /** The tiny, small and medium types: the stored integer is in range, an
      out-of-range int (strtol() truncated to int) becomes the nearer bound
      and sets `over`, an in-range one is stored as is and `over` is kept. */
  lemma ValueClamped(m: MValue, c: Column, v: seq<byte>)
    requires IsClampedType(c.colType) && NoNul(v) && !IsPseudoValue(v)
    ensures var r := ValueSpec(m, Some(c), Some(v));
      var aux := Int32(Strtol(v, 0));
      var lo, hi := ClampLow(c.colType), ClampHigh(c.colType);
      && lo <= StoredInteger(c.colType, r.u) <= hi
      && (aux < lo ==> StoredInteger(c.colType, r.u) == lo && r.over)
      && (aux > hi ==> StoredInteger(c.colType, r.u) == hi && r.over)
      && (lo <= aux <= hi ==> StoredInteger(c.colType, r.u) == aux && r.over == m.over)
  {
    ValueOfPlainText(m, c, v);
    ClampedValueLaw(m.(column := Some(c)), c.colType, Int32(Strtol(v, 0)));
  }

  /** Year stores strtol() - 1900 as an unsigned byte (wrapping modulo 256). */
  lemma ValueYear(m: MValue, c: Column, v: seq<byte>)
    requires c.colType == Year && NoNul(v) && !IsPseudoValue(v)
    ensures var r := ValueSpec(m, Some(c), Some(v));
      r.use == UseUnsigned && r.u.ValUint8? && 0 <= r.u.v < 256
      && (r.u.v - (Strtol(v, 0) - 1900)) % 256 == 0
      && (1900 <= Strtol(v, 0) < 2156 ==> r.u.v + 1900 == Strtol(v, 0))
  {
    ValueOfPlainText(m, c, v);
    YearTyped(m.(column := Some(c)), c, v);
    var x := Strtol(v, 0) - 1900;
    assert ValueSpec(m, Some(c), Some(v)).u == ValUint8(Uint8(x));
    assert (Uint8(x) - x) % 256 == 0;
  }

  lemma YearTyped(m: MValue, c: Column, v: seq<byte>)
    requires c.colType == Year
    ensures var r := TypedValue(m, c, v);
      r.use == UseUnsigned && r.u == ValUint8(Uint8(Strtol(v, 0) - 1900))
      && (1900 <= Strtol(v, 0) < 2156 ==> r.u.v + 1900 == Strtol(v, 0))
  {
    var x := Strtol(v, 0) - 1900;
    assert TypedValue(m, c, v) == m.(use := UseUnsigned, u := ValUint8(Uint8(x)));
    if 0 <= x < 256 {
      Uint8Id(x);
    }
  }

  lemma FormatIntNotPseudo(v: int)
    ensures !IsPseudoValue(FormatInt(v, 0))
  {
    assert AtNull[0] == '@' as int && AtIncrement[0] == '@' as int && AtDecrement[0] == '@' as int;
    assert AtTime[0] == '@' as int && AtAutoinc[0] == '@' as int;
  }

  /** An Int column stores exactly the int its "%d" text names. */
  lemma ValueIntFromDecimalText(m: MValue, c: Column, v: int)
    requires c.colType == Int && -Two31 <= v < Two31
    ensures ValueSpec(m, Some(c), Some(FormatInt(v, 0))).u == ValSigned(v)
  {
    FormatIntNotPseudo(v);
    ValueOfPlainText(m, c, FormatInt(v, 0));
    AtoiFormatInt(v);
  }

  /** The Bit column's value is the flipped parse, and flipping it again
      restores the parsed number. */
  lemma ValueBit(m: MValue, c: Column, v: seq<byte>)
    requires c.colType == Bit && NoNul(v) && !IsPseudoValue(v)
    ensures var r := ValueSpec(m, Some(c), Some(v));
      r.use == UseUnsigned64 && r.u == ValUint64(BitValue(v))
    ensures Flip64(BitValue(v)) == Strtoul(v, 0)
  {
    ValueOfPlainText(m, c, v);
    assert SharedNumericValue(m.(column := Some(c)), c, v).None?;
    Flip64Involution(Strtoul(v, 0));
  }

  // ---------------------------------------------------------------------
  // MySQL::binary_value

  /** As written: what ap_cpystrn() leaves behind a Longvarbinary's two
      length bytes: the value up to its first NUL, then that NUL when it
      falls inside the s bytes (the bytes after it are not set). */
  function LongvarbinaryBuffer(str: seq<byte>, s: nat): seq<byte>
    requires s < Two16
  {
    var k := Min(s, |CStr(str)|);
    [s % 256, s / 256] + str[..k] + (if k < s then [0] else [])
  }

  /** A byte value with a NUL inside its length loses what follows the NUL:
      [65, 0, 66] gets the length 3 but only the bytes 65, 0 behind it. */
  lemma LongvarbinaryStopsAtNul()
    ensures var b := LongvarbinaryBuffer([65, 0, 66], 3);
      Uint2Korr(b) == 3 && b[2..] == [65, 0] && b[2..] != [65, 0, 66]
  {
    assert CStr([65, 0, 66]) == [65] by {
      assert CStr([0, 66]) == [];
      assert [65, 0, 66][1..] == [0, 66];
    }
  }

  /** Corrected: the two length bytes, then the first s bytes of the value
      whatever they hold, as memcpy() copies them. */
  function LongvarbinaryBufferFixed(str: seq<byte>, s: nat): (b: seq<byte>)
    requires s < Two16 && s <= |str|
  {
    [s % 256, s / 256] + str[..s]
  }

  /** The corrected layout carries every byte its length prefix counts. */
  lemma LongvarbinaryFixedLayout(str: seq<byte>, s: nat)
    requires s < Two16 && s <= |str|
    ensures var b := LongvarbinaryBufferFixed(str, s);
      |b| == s + 2 && Uint2Korr(b) == s && b[2..] == str[..s]
  {
    assert s % 256 + 256 * (s / 256) == s;
  }

  /** Binary: the first n bytes in a zero-filled buffer of the column's length. */
  function BinaryBuffer(str: seq<byte>, n: nat, length: nat): seq<byte>
    requires n <= |str| && n <= length
  {
    str[..n] + Repeat(0, length - n)
  }

  /** Varbinary: one length byte, then the n bytes. */
  function VarbinaryBuffer(str: seq<byte>, n: nat): seq<byte>
    requires n <= |str|
  {
    [n % 256] + str[..n]
  }

  /** MySQL::binary_value(m, col, value) on a non-null column. */
  function BinaryValueSpec(m: MValue, col: Column, value: LenString): MValue
    requires value.len <= |value.str|
  {
    var n := Min(value.len, col.length);
    var m1 := m.(colLen := col.length, len := n);
    match col.colType
    case Text | Blob => m1.(use := UseBlob, binaryInfo := Some(value))
    case Binary => m1.(use := UseChar, u := ValChar(BinaryBuffer(value.str, n, col.length)))
    case Varbinary =>
      m1.(use := UseChar, colLen := col.length + 1, u := ValChar(VarbinaryBuffer(value.str, n)))
    case Longvarbinary =>
      m1.(use := UseChar, colLen := col.length + 2,
          u := ValChar(LongvarbinaryBufferFixed(value.str, n % Two16)))
    case _ => m1.(use := ErrBadDataType)
  }

  /** ap_pcalloc() then memcpy(). */
  method EncodeBinary(str: seq<byte>, n: nat, length: nat) returns (buf: seq<byte>)
    requires n <= |str| && n <= length
    ensures buf == BinaryBuffer(str, n, length)
  {
    var a := new byte[length](_ => 0);
    Memcpy(a, 0, str, n);
    assert a[..] == a[..n] + a[n..];
    assert a[n..] == Repeat(0, length - n);
    buf := a[..];
  }

  /** ap_palloc(), the length byte, then memcpy(). */
  method EncodeVarbinary(str: seq<byte>, n: nat) returns (buf: seq<byte>)
    requires n <= |str|
    ensures buf == VarbinaryBuffer(str, n)
  {
    var a := new byte[n + 1];
    a[0] := n % 256;
    Memcpy(a, 1, str, n);
    assert a[..] == [a[0]] + a[1..n + 1];
    buf := a[..];
  }

  /** ap_palloc(), the two length bytes, then ap_cpystrn(). */
  method EncodeLongvarbinary(str: seq<byte>, s: nat) returns (buf: seq<byte>)
    requires s < Two16
    ensures buf == LongvarbinaryBuffer(str, s)
  {
    // one byte more than the source allocates, for the NUL it writes past the end
    var a := new byte[s + 3];
    a[0] := s % 256;
    a[1] := s / 256;
    var k := CpyStrn(a, 2, str, s + 1);
    assert a[0] == s % 256 && a[1] == s / 256;
    if k < s {
      assert a[..k + 3] == [a[0], a[1]] + a[2..2 + k] + [a[2 + k]];
      buf := a[..k + 3];
    } else {
      assert a[..s + 2] == [a[0], a[1]] + a[2..2 + k];
      buf := a[..s + 2];
    }
  }

  /** The corrected copy: ap_palloc(), the two length bytes, then memcpy(). */
  method EncodeLongvarbinaryFixed(str: seq<byte>, s: nat) returns (buf: seq<byte>)
    requires s < Two16 && s <= |str|
    ensures buf == LongvarbinaryBufferFixed(str, s)
  {
    var a := new byte[s + 2];
    a[0] := s % 256;
    a[1] := s / 256;
    Memcpy(a, 2, str, s);
    assert a[..] == [a[0], a[1]] + a[2..s + 2];
    buf := a[..];
  }

  method BinaryValue(m: MValue, col: Column, value: LenString) returns (r: MValue)
    requires value.len <= |value.str|
    ensures r == BinaryValueSpec(m, col, value)
  {
    r := m.(colLen := col.length);
    var n := if value.len < col.length then value.len else col.length;
    r := r.(len := n);
    match col.colType {
      case Text =>
        r := r.(use := UseBlob, binaryInfo := Some(value));
      case Blob =>
        r := r.(use := UseBlob, binaryInfo := Some(value));
      case Binary =>
        var buf := EncodeBinary(value.str, n, col.length);
        r := r.(use := UseChar, u := ValChar(buf));
      case Varbinary =>
        var buf := EncodeVarbinary(value.str, n);
        r := r.(use := UseChar, colLen := r.colLen + 1, u := ValChar(buf));
      case Longvarbinary =>
        var buf := EncodeLongvarbinaryFixed(value.str, n % Two16);
        r := r.(use := UseChar, colLen := r.colLen + 2, u := ValChar(buf));
      case _ =>
        r := r.(use := ErrBadDataType);
    }
  }

  /** binary_value's layouts: len is min(value.len, L); Binary is the value
      zero-padded to L bytes; Varbinary and Longvarbinary carry a 1- or 2-byte
      little-endian length ahead of the bytes and a col_len of L+1 or L+2;
      Text and Blob keep a reference to the value; other types are rejected. */
  lemma BinaryValueLayout(m: MValue, col: Column, value: LenString)
    requires value.len <= |value.str|
    ensures var r := BinaryValueSpec(m, col, value);
      var n := Min(value.len, col.length);
      && r.len == n
      && (col.colType == Binary ==>
            r.u.ValChar? && |r.u.buf| == col.length && r.u.buf[..n] == value.str[..n]
            && (forall i :: n <= i < col.length ==> r.u.buf[i] == 0) && r.colLen == col.length)
      && (col.colType == Varbinary ==>
            r.u.ValChar? && r.u.buf[0] == n % 256 && r.u.buf[1..] == value.str[..n]
            && r.colLen == col.length + 1)
      && (col.colType == Longvarbinary ==>
            r.u.ValChar? && |r.u.buf| >= 2 && Uint2Korr(r.u.buf) == n % Two16
            && r.u.buf[2..] == value.str[..n % Two16] && r.colLen == col.length + 2)
      && (col.colType in {Text, Blob} <==> r.use == UseBlob)
      && (col.colType in {Text, Blob} ==> r.binaryInfo == Some(value))
      && (r.use == ErrBadDataType <==> col.colType !in {Text, Blob, Binary, Varbinary, Longvarbinary})
  {
    if col.colType == Longvarbinary {
      LongvarbinaryFixedLayout(value.str, Min(value.len, col.length) % Two16);
    }
  }
}
