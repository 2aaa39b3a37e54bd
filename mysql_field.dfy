/** blobfix/MySQL_Field.cc: the older text-to-engine encoder MySQL::value and
    the decoder MySQL::result, which prints a fetched attribute as text
    (field_to_tm, MySQL::String, escape_string). */
module MySQLField {
  import opened Bytes
  import opened CLib
  import opened Wrappers
  import opened Ndb
  import opened CodecCommon

  // ---------------------------------------------------------------------
  // The temporal filter: an optional sign, then all but : - / and space

  predicate IsSeparator(c: byte) {
    c == ':' as int || c == '-' as int || c == '/' as int || c == ' ' as int
  }

  /** The bytes of s that are not separators, in order. */
  function DropSeparators(s: seq<byte>): (r: seq<byte>)
    ensures |r| <= |s|
  {
    if s == [] then []
    else DropSeparators(s[..|s| - 1]) + (if IsSeparator(s[|s| - 1]) then [] else [s[|s| - 1]])
  }

  /** What lands in strbuf: the leading sign, then the non-separators among
      the next 62 characters at most. */
  function SeparatorFilter(val: seq<byte>): (r: seq<byte>)
    ensures |r| <= 63
  {
    var k := SignLength(val);
    var rest := val[k..];
    val[..k] + DropSeparators(rest[..Min(62, |rest|)])
  }

  /** What the filter loop has written into strbuf once it has read
      val[..c]: the sign, then the non-separators after it. */
  function Written(val: seq<byte>, c: nat): (r: seq<byte>)
    requires SignLength(val) <= c <= |val|
    decreases c
  {
    if c == SignLength(val) then val[..c] else Written(val, c - 1) + (if IsSeparator(val[c - 1]) then [] else [val[c - 1]])
  }

  lemma {:induction false} WrittenSlice(val: seq<byte>, c: nat)
    requires SignLength(val) <= c <= |val|
    ensures Written(val, c) == val[..SignLength(val)] + DropSeparators(val[SignLength(val)..c])
    decreases c
  {
    var k := SignLength(val);
    if c > k {
      WrittenSlice(val, c - 1);
      SliceSnoc(val, k, c);
      DropSeparatorsSnoc(val[k..c - 1], val[c - 1]);
    }
  }

  lemma DropSeparatorsSnoc(a: seq<byte>, b: byte)
    ensures DropSeparators(a + [b]) == DropSeparators(a) + (if IsSeparator(b) then [] else [b])
  {
    assert (a + [b])[..|a|] == a;
  }

  /** The filter loop over the C string `val` into the 64-byte strbuf. */
  method FilterSeparators(val: seq<byte>) returns (buf: seq<byte>)
    ensures buf == SeparatorFilter(val)
    ensures |buf| < 64 && (NoNul(val) ==> NoNul(buf))
  {
    var strbuf := new byte[64];
    var b, c := 0, 0;
    if |val| > 0 && (val[0] == '-' as int || val[0] == '+' as int) {
      strbuf[0] := val[0];
      b, c := 1, 1;
    }
    ghost var k := SignLength(val);
    ghost var out: seq<byte> := val[..k];
    var i := 0;
    while i < 62 && c < |val|
      invariant c == k + i && c <= |val| && i <= 62
      invariant b == |out| <= c
      invariant out == Written(val, c)
      invariant forall j :: 0 <= j < b ==> strbuf[j] == out[j]
    {
      if !IsSeparator(val[c]) {
        strbuf[b] := val[c];
        out := out + [val[c]];
        b := b + 1;
      }
      c, i := c + 1, i + 1;
    }
    WrittenSlice(val, c);
    SeparatorFilterPrefix(val, c);
    buf := strbuf[..b];
    assert buf == out;
    strbuf[b] := 0;
    if NoNul(val) {
      SeparatorFilterNoNul(val);
    }
  }

  /** The loop stops after 62 characters or at the end of the text. */
  lemma SeparatorFilterPrefix(val: seq<byte>, c: int)
    requires SignLength(val) <= c == SignLength(val) + Min(62, |val| - SignLength(val))
    ensures SeparatorFilter(val) == val[..SignLength(val)] + DropSeparators(val[SignLength(val)..c])
  {
    var k := SignLength(val);
    assert val[k..][..Min(62, |val[k..]|)] == val[k..c];
  }

  /** Dropping separators keeps only bytes of the text. */
  lemma {:induction false} DropSeparatorsNoNul(s: seq<byte>)
    requires NoNul(s)
    ensures NoNul(DropSeparators(s))
  {
    if s != [] {
      DropSeparatorsNoNul(s[..|s| - 1]);
    }
  }

  /** A C string filtered for the temporal parser is still a C string. */
  lemma SeparatorFilterNoNul(val: seq<byte>)
    requires NoNul(val)
    ensures NoNul(SeparatorFilter(val))
  {
    var k := SignLength(val);
    var rest := val[k..][..Min(62, |val| - k)];
    assert forall j :: 0 <= j < |rest| ==> rest[j] == val[k + j];
    DropSeparatorsNoNul(rest);
  }

  // ---------------------------------------------------------------------
  // MySQL::value, the older version

  /** The types this version rejects with err_bad_data_type: the binary and
      blob types as well as the old decimals and unknown types. */
  predicate IsRejectedType(t: ColumnType) {
    t in {Text, Blob, Longvarbinary, Varbinary, Binary, Undefined, Olddecimal, Olddecimalunsigned}
  }

  /** MySQL::value(m, col, val); None is a null pointer. */
  function ValueSpec(m: MValue, col: Option<Column>, val: Option<seq<byte>>): MValue
    requires val.Some? ==> NoNul(val.value)
  {
    if col.None? then m.(use := ErrBadColumn)
    else ColumnValue(m.(column := col), col.value, val)
  }

  function ColumnValue(m: MValue, c: Column, val: Option<seq<byte>>): MValue
    requires val.Some? ==> NoNul(val.value)
  {
    if IsCharType(c.colType) then
      if val.None? then m.(use := UseNull, u := ValInt64(0))
      else CharColumnValue(m, c, val.value)
    else if IsTemporalType(c.colType) then
      if val.None? then m.(use := UseNull, u := ValInt64(0))
      else TemporalValue(m, c.colType, SeparatorFilter(val.value))
    else if val.None? then m.(use := ErrBadUserValue)
    else
      match PseudoValue(m, c.colType, val.value)
      case Some(r) => r
      case None => TypedValue(m, c, val.value)
  }

  /** The type switch: Bit is read like Unsigned, and everything the shared
      branches do not cover is rejected. */
  function TypedValue(m: MValue, c: Column, v: seq<byte>): MValue
  {
    match SharedNumericValue(m, c, v)
    case Some(r) => r
    case None =>
      if c.colType == Bit then m.(use := UseUnsigned, u := ValUnsigned(Uint32(Strtoul(v, 0))))
      else m.(use := ErrBadDataType)
  }

  method Value(m: MValue, col: Option<Column>, val: Option<seq<byte>>) returns (r: MValue)
    requires val.Some? ==> NoNul(val.value)
    ensures r == ValueSpec(m, col, val)
  {
    if col.None? {
      return m.(use := ErrBadColumn);
    }
    var c := col.value;
    r := m.(column := col);
    if IsCharType(c.colType) {
      if val.None? {
        return r.(use := UseNull, u := ValInt64(0));
      }
      var v := val.value;
      if c.colType == Varchar {
        var buf := EncodeVarchar(v, c.length);
        r := r.(len := |v| % 256, u := ValChar(buf), use := UseChar, colLen := c.length + 1);
      } else if c.colType == Longvarchar {
        var buf := EncodeLongvarchar(v, c.length);
        r := r.(len := |v| % Two16, u := ValChar(buf), use := UseChar, colLen := c.length + 2);
      } else {
        var buf := EncodeChar(v, c.length);
        r := r.(len := |v|, u := ValChar(buf), use := UseChar, colLen := c.length);
      }
      return;
    }
    if IsTemporalType(c.colType) {
      if val.None? {
        return r.(use := UseNull, u := ValInt64(0));
      }
      var strbuf := FilterSeparators(val.value);
      return TemporalValue(r, c.colType, strbuf);
    }
    if val.None? {
      return r.(use := ErrBadUserValue);
    }
    var v := val.value;
    var pseudo := PseudoValue(r, c.colType, v);
    if pseudo.Some? {
      return pseudo.value;
    }
    var shared := SharedNumericValue(r, c, v);
    if shared.Some? {
      return shared.value;
    }
    if c.colType == Bit {
      r := r.(use := UseUnsigned, u := ValUnsigned(Uint32(Strtoul(v, 0))));
    } else {
      r := r.(use := ErrBadDataType);
    }
  }

  lemma ValueOfPlainText(m: MValue, c: Column, v: seq<byte>)
    requires NoNul(v) && !IsPseudoValue(v) && !IsCharType(c.colType) && !IsTemporalType(c.colType)
    ensures ValueSpec(m, Some(c), Some(v)) == TypedValue(m.(column := Some(c)), c, v)
  {
    assert PseudoValue(m.(column := Some(c)), c.colType, v).None?;
  }

  lemma TypedValueUse(m: MValue, c: Column, v: seq<byte>)
    ensures var u := TypedValue(m, c, v).use;
      && (u == ErrBadDataType <==> IsRejectedType(c.colType) || IsCharType(c.colType) || IsTemporalType(c.colType))
      && u != MustUseBinary && u != ErrBadUserValue && u != ErrBadColumn
  {
    if IsClampedType(c.colType) {
      assert ClampedValue(m, c.colType, Int32(Strtol(v, 0))).use in {UseSigned, UseUnsigned};
    }
  }

  /** This version never asks for binary_value(): a text that is no
      pseudo-value is err_bad_data_type exactly on the binary, blob, old
      decimal and unknown types; the null cases are those of the newer one. */
  lemma ValueErrorKinds(m: MValue, col: Option<Column>, val: Option<seq<byte>>)
    requires val.Some? ==> NoNul(val.value)
    ensures var r := ValueSpec(m, col, val);
      && (col.None? ==> r.use == ErrBadColumn)
      && r.use != MustUseBinary
      && (col.Some? ==>
        var t := col.value.colType;
        && r.use != ErrBadColumn
        && (r.use == ErrBadUserValue <==> val.None? && !IsCharType(t) && !IsTemporalType(t))
        && (r.use == ErrBadDataType <==> val.Some? && !IsPseudoValue(val.value) && IsRejectedType(t)))
  {
    if col.Some? && val.Some? {
      var c := col.value;
      if !IsCharType(c.colType) && !IsTemporalType(c.colType) {
        var m1 := m.(column := col);
        var p := PseudoValue(m1, c.colType, val.value);
        if p.None? {
          ValueOfPlainText(m, c, val.value);
          TypedValueUse(m1, c, val.value);
        } else {
          assert ValueSpec(m, col, val) == p.value;
          assert p.value.use in {UseNull, UseInterpreted, UseUnsigned, UseAutoinc};
        }
      }
    }
  }

  /** Bit is parsed as a plain unsigned 32-bit value, without a half swap. */
  lemma ValueBit(m: MValue, c: Column, v: seq<byte>)
    requires c.colType == Bit && NoNul(v) && !IsPseudoValue(v)
    ensures var r := ValueSpec(m, Some(c), Some(v));
      r.use == UseUnsigned && r.u == ValUnsigned(Uint32(Strtoul(v, 0)))
  {
    ValueOfPlainText(m, c, v);
    assert SharedNumericValue(m.(column := Some(c)), c, v).None?;
  }

  /** The same clamping laws as the newer encoder. */
  lemma ValueClamped(m: MValue, c: Column, v: seq<byte>)
    requires IsClampedType(c.colType) && NoNul(v) && !IsPseudoValue(v)
    ensures var r := ValueSpec(m, Some(c), Some(v));
      var aux := Int32(Strtol(v, 0));
      var lo, hi := ClampLow(c.colType), ClampHigh(c.colType);
      && lo <= StoredInteger(c.colType, r.u) <= hi
      && (aux < lo ==> StoredInteger(c.colType, r.u) == lo && r.over)
      && (aux > hi ==> StoredInteger(c.colType, r.u) == hi && r.over)
      && (lo <= aux <= hi ==> StoredInteger(c.colType, r.u) == aux && r.over == m.over)
  {
    ValueOfPlainText(m, c, v);
    ClampedValueLaw(m.(column := Some(c)), c.colType, Int32(Strtol(v, 0)));
  }

  // ---------------------------------------------------------------------
  // The decoder

  /** A fetched NdbRecAttr: its column type and the attribute's bytes (aRef(),
      whose length is the attribute size). */
  datatype RecAttr = RecAttr(colType: ColumnType, ref: seq<byte>)

  /** The bytes the engine keeps for a fixed-width type. */
  function FixedWidth(t: ColumnType): nat {
    match t
    case Tinyint | Tinyunsigned | Year => 1
    case Smallint | Smallunsigned => 2
    case Mediumint | Mediumunsigned | Date | Time => 3
    case Int | Unsigned | Timestamp => 4
    case Bigint | Bigunsigned | Datetime => 8
    case _ => 0
  }

  /** How MySQL::String finds a character attribute's length. */
  datatype Packing = CharFixed | CharVar | CharLongvar

  /** The attribute is as the engine delivers it: fixed-width types have their
      bytes, variable-length ones a length prefix that the bytes cover. */
  predicate WellFormed(rec: RecAttr) {
    && |rec.ref| >= FixedWidth(rec.colType)
    && (rec.colType in {Varchar, Varbinary} ==> |rec.ref| >= 1 && |rec.ref| >= 1 + rec.ref[0] as int)
    && (rec.colType == Longvarchar ==> |rec.ref| >= 2 && |rec.ref| >= 2 + Uint2Korr(rec.ref))
  }

  function Unsigned(b: seq<byte>, n: nat): (v: nat)
    requires |b| >= n
    ensures v < Pow256(n)
  {
    LittleEndian(b[..n])
  }

  /** The two's complement reading of n little-endian bytes. */
  function Signed(b: seq<byte>, n: nat): int
    requires |b| >= n
  {
    var u := Unsigned(b, n);
    if 2 * u >= Pow256(n) then u - Pow256(n) else u
  }

  // field_to_tm() ---------------------------------------------------------

  /** The end of field_to_tm(): -99 and -1 are the "no time" and "no date"
      markers of int_time and int_date. A marked part stays zero from the
      bzero(); an unmarked one is factored on its own, whatever the other. */
  function FactorParts(intDate: int, intTime: int): (r: Tm)
    requires -Two31 <= intTime < Two31
    ensures intTime == -99 ==> r.hour == 0 && r.minute == 0 && r.second == 0 && !r.neg
    ensures intTime != -99 ==>
      var t := FactorHHMMSS(ZeroTm, intTime);
      r.hour == t.hour && r.minute == t.minute && r.second == t.second && r.neg == t.neg
    ensures intDate == -1 ==> r.year == 0 && r.month == 0 && r.day == 0
    ensures intDate != -1 ==>
      var d := FactorYYYYMMDD(ZeroTm, intDate);
      r.year == d.year && r.month == d.month && r.day == d.day
  {
    var t := if intTime != -99 then FactorHHMMSS(ZeroTm, intTime) else ZeroTm;
    if intDate != -1 then FactorYYYYMMDD(t, intDate) else t
  }

  /** The parts of a Datetime's u64: YYYYMMDD above, HHMMSS below 10^6, each
      assigned to an int. */
  function DatetimeDate(dt: nat): int { Int32(dt / 1000000) }

  function DatetimeTime(dt: nat): int {
    Int32((dt - (DatetimeDate(dt) % Two64) * 1000000 % Two64) % Two64)
  }

  /** field_to_tm(): a Date is unpacked from its bit fields and has no time
      part; a Time has no date part, and is negative exactly when its stored
      value is, except for -99, which is the "no time" marker itself. */
  function FieldToTm(rec: RecAttr): (r: Tm)
    requires IsTemporalType(rec.colType) && WellFormed(rec)
    ensures rec.colType == Date ==>
      && r.hour == 0 && r.minute == 0 && r.second == 0 && !r.neg
      && r.day < 32 && r.month < 16 && r.year < 0x8000
    ensures rec.colType == Time ==>
      && r.year == 0 && r.month == 0 && r.day == 0
      && (r.neg <==> Sint3Korr(rec.ref) < 0 && Sint3Korr(rec.ref) != -99)
  {
    match rec.colType
    case Date => UnpackDate(Uint3Korr(rec.ref))
    case Time => FactorParts(-1, Sint3Korr(rec.ref))
    case Datetime =>
      var dt := Unsigned(rec.ref, 8);
      FactorParts(DatetimeDate(dt), DatetimeTime(dt))
  }

  /** A Datetime below 2^31 * 10^6 splits into YYYYMMDD and HHMMSS, and each
      part is factored as its own field group. */
  lemma DatetimeSplit(date: nat, time: nat)
    requires date < Two31 && time < 1000000
    ensures var dt := date * 1000000 + time;
      DatetimeDate(dt) == date && DatetimeTime(dt) == time
      && FactorParts(DatetimeDate(dt), DatetimeTime(dt)) == FactorYYYYMMDD(FactorHHMMSS(ZeroTm, time), date)
  {
    var p := date * 1000000;
    var dt := p + time;
    DatetimeScale(date);
    DivModUnique(dt, 1000000, date, time);
    Int32Id(date);
    DivModUnique(date, Two64, 0, date);
    DivModUnique(p, Two64, 0, p);
    DivModUnique(time, Two64, 0, time);
    assert DatetimeDate(dt) == date;
    assert dt - p == time;
    Int32Id(time);
  }

  lemma DatetimeScale(date: nat)
    requires date < Two31
    ensures date * 1000000 < Two64 && 1000000 * date == date * 1000000
  {
  }

  // escape_string() -------------------------------------------------------

  /** The escapes table: for each byte, no escape or a counted string
      (esc[0] bytes follow esc[0]). Counts stay below 127: the copying loop's
      signed char counter can never exceed 127, so a count of 127 would
      never end it. */
  type Escapes = seq<Option<seq<byte>>>

  predicate ValidEscape(e: Option<seq<byte>>) {
    e.Some? ==> |e.value| >= 1 && e.value[0] < 127 && e.value[0] < |e.value|
  }

  predicate ValidEscapes(esc: Escapes) {
    |esc| == 256 && forall c :: 0 <= c < 256 ==> ValidEscape(esc[c])
  }

  /** The bytes one input byte turns into. */
  function EscapeByte(esc: Escapes, c: byte): (r: seq<byte>)
    requires ValidEscapes(esc)
  {
    match esc[c]
    case Some(e) => e[1..e[0] + 1]
    case None => [c]
  }

  function EscapeSpec(s: seq<byte>, esc: Escapes): seq<byte>
    requires ValidEscapes(esc)
  {
    if s == [] then [] else EscapeSpec(s[..|s| - 1], esc) + EscapeByte(esc, s[|s| - 1])
  }

  /** The sum, over the bytes, of esc[0] or 1: the first loop's count. */
  function EscapedSize(s: seq<byte>, esc: Escapes): nat
    requires ValidEscapes(esc)
  {
    if s == [] then 0
    else EscapedSize(s[..|s| - 1], esc)
         + match esc[s[|s| - 1]] case Some(e) => e[0] case None => 1
  }

  /** The size escape_string() prepares is exactly what it then writes. */
  lemma {:induction false} EscapedSizeIsLength(s: seq<byte>, esc: Escapes)
    requires ValidEscapes(esc)
    ensures |EscapeSpec(s, esc)| == EscapedSize(s, esc)
  {
    if s != [] {
      EscapedSizeIsLength(s[..|s| - 1], esc);
    }
  }

  /** Escaping distributes over concatenation. */
  lemma {:induction false} EscapeAppend(a: seq<byte>, b: seq<byte>, esc: Escapes)
    requires ValidEscapes(esc)
    ensures EscapeSpec(a + b, esc) == EscapeSpec(a, esc) + EscapeSpec(b, esc)
  {
    if b == [] {
      assert a + b == a;
    } else {
      var init, last := b[..|b| - 1], b[|b| - 1];
      assert (a + b)[..|a + b| - 1] == a + init && (a + b)[|a + b| - 1] == last;
      assert EscapeSpec(a + b, esc) == EscapeSpec(a + init, esc) + EscapeByte(esc, last);
      EscapeAppend(a, init, esc);
    }
  }

  /** A byte without an escape is copied as it is. */
  lemma {:induction false} EscapeIdentity(s: seq<byte>, esc: Escapes)
    requires ValidEscapes(esc) && forall i :: 0 <= i < |s| ==> esc[s[i]].None?
    ensures EscapeSpec(s, esc) == s
  {
    if s != [] {
      var p, last := s[..|s| - 1], s[|s| - 1];
      assert esc[last].None?;
      forall i | 0 <= i < |p|
        ensures esc[p[i]].None?
      {
        assert p[i] == s[i];
      }
      EscapeIdentity(p, esc);
      assert s == p + [last];
    }
  }

  /** One step of the copying loop: the escape's bytes one putc() at a time,
      or the byte itself. */
  method PutEscaped(out: seq<byte>, esc: Escapes, c: byte) returns (out': seq<byte>)
    requires ValidEscapes(esc)
    ensures out' == out + EscapeByte(esc, c)
  {
    var e := esc[c];
    assert ValidEscape(e);
    out' := out;
    if e.Some? {
      var j := 1;
      while j <= e.value[0]
        invariant 1 <= j <= e.value[0] + 1
        invariant out' == out + e.value[1..j]
      {
        out' := out' + [e.value[j]];
        j := j + 1;
      }
    } else {
      out' := out' + [c];
    }
  }

  /** escape_string(ref, sz, rbuf, escapes): the counting loop, then the
      copying loop. Returns the count and the bytes appended to rbuf. */
  method EscapeString(ref: seq<byte>, sz: nat, esc: Escapes) returns (size: nat, out: seq<byte>)
    requires sz <= |ref| && ValidEscapes(esc)
    ensures size == EscapedSize(ref[..sz], esc)
    ensures out == EscapeSpec(ref[..sz], esc) && |out| == size
  {
    size := 0;
    var i := 0;
    while i < sz
      invariant i <= sz && size == EscapedSize(ref[..i], esc)
    {
      assert ref[..i + 1][..i] == ref[..i];
      var e := esc[ref[i]];
      if e.Some? {
        size := size + e.value[0];
      } else {
        size := size + 1;
      }
      i := i + 1;
    }
    out := [];
    i := 0;
    while i < sz
      invariant i <= sz && out == EscapeSpec(ref[..i], esc)
    {
      assert ref[..i + 1][..i] == ref[..i];
      out := PutEscaped(out, esc, ref[i]);
      i := i + 1;
    }
    EscapedSizeIsLength(ref[..sz], esc);
  }

  // MySQL::String() -------------------------------------------------------

  /** s without its trailing NUL bytes. */
  function TrimNuls(s: seq<byte>): (r: seq<byte>)
    ensures r <= s && (r == [] || r[|r| - 1] != 0)
  {
    if s != [] && s[|s| - 1] == 0 then TrimNuls(s[..|s| - 1]) else s
  }

  /** Only NUL bytes are trimmed. */
  lemma {:induction false} TrimNulsDropsNuls(s: seq<byte>)
    ensures forall i :: |TrimNuls(s)| <= i < |s| ==> s[i] == 0
  {
    if s != [] && s[|s| - 1] == 0 {
      TrimNulsDropsNuls(s[..|s| - 1]);
    }
  }

  /** The attribute's string before trimming: the whole attribute (fixed), or
      the bytes counted by a one-byte (var) or two-byte little-endian
      (longvar) prefix. */
  function PackedString(ref: seq<byte>, packing: Packing): seq<byte>
    requires packing == CharVar ==> |ref| >= 1 && |ref| >= 1 + ref[0] as int
    requires packing == CharLongvar ==> |ref| >= 2 && |ref| >= 2 + Uint2Korr(ref)
  {
    match packing
    case CharFixed => ref
    case CharVar => ref[1..1 + ref[0] as int]
    case CharLongvar => ref[2..2 + Uint2Korr(ref)]
  }

  function StringSpec(ref: seq<byte>, packing: Packing, escapes: Option<Escapes>): seq<byte>
    requires packing == CharVar ==> |ref| >= 1 && |ref| >= 1 + ref[0] as int
    requires packing == CharLongvar ==> |ref| >= 2 && |ref| >= 2 + Uint2Korr(ref)
    requires escapes.Some? ==> ValidEscapes(escapes.value)
  {
    var s := TrimNuls(PackedString(ref, packing));
    if escapes.Some? then EscapeSpec(s, escapes.value) else s
  }

  /** MySQL::String(rbuf, rec, packing, escapes): the bytes appended to rbuf. */
  method StringField(ref: seq<byte>, packing: Packing, escapes: Option<Escapes>) returns (out: seq<byte>)
    requires packing == CharVar ==> |ref| >= 1 && |ref| >= 1 + ref[0] as int
    requires packing == CharLongvar ==> |ref| >= 2 && |ref| >= 2 + Uint2Korr(ref)
    requires escapes.Some? ==> ValidEscapes(escapes.value)
    ensures out == StringSpec(ref, packing, escapes)
  {
    var sz: nat, start: nat;
    match packing {
      case CharFixed => sz, start := |ref|, 0;
      case CharVar => sz, start := ref[0], 1;
      case CharLongvar => sz, start := Uint2Korr(ref), 2;
    }
    var data := ref[start..start + sz];
    assert data == PackedString(ref, packing);
    sz := TrimTrailingNuls(data);
    if escapes.Some? {
      var _, o := EscapeString(data, sz, escapes.value);
      out := o;
    } else {
      out := data[..sz];
    }
  }

  /** The `for (i = sz - 1; i >= 0; i--)` loop that stops at the last non-NUL. */
  method TrimTrailingNuls(data: seq<byte>) returns (sz: nat)
    ensures sz <= |data| && data[..sz] == TrimNuls(data)
  {
    sz := |data|;
    assert data[..sz] == data;
    var i: int := sz - 1;
    while i >= 0
      invariant i == sz - 1 && sz <= |data|
      invariant TrimNuls(data[..sz]) == TrimNuls(data)
    {
      if data[i] == 0 {
        assert data[..sz][..sz - 1] == data[..sz - 1];
        sz := sz - 1;
      } else {
        break;
      }
      i := i - 1;
    }
  }

  /** MySQL::String drops trailing NULs and nothing else: what it prints
      (unescaped) followed by some NULs is the packed string. */
  lemma StringDropsOnlyTrailingNuls(ref: seq<byte>, packing: Packing)
    requires packing == CharVar ==> |ref| >= 1 && |ref| >= 1 + ref[0] as int
    requires packing == CharLongvar ==> |ref| >= 2 && |ref| >= 2 + Uint2Korr(ref)
    ensures var s := PackedString(ref, packing);
      var r := StringSpec(ref, packing, None);
      s == r + Repeat(0, |s| - |r|) && (r == [] || r[|r| - 1] != 0)
  {
    var s := PackedString(ref, packing);
    var r := TrimNuls(s);
    TrimNulsDropsNuls(s);
    assert s == r + s[|r|..];
    assert s[|r|..] == Repeat(0, |s| - |r|);
  }

  // MySQL::result() -------------------------------------------------------

  /** What MySQL::result appends to the result buffer. The %G conversions of
      Float and Double and the decimal library's text are not modelled. */
  datatype Output = Printed(text: seq<byte>) | FloatingPointText | DecimalText

  const CannotEscapeBlob: seq<byte> :=
    ['+' as int, '+' as int, ' ' as int, 'C' as int, 'A' as int, 'N' as int, 'N' as int,
     'O' as int, 'T' as int, ' ' as int, 'E' as int, 'S' as int, 'C' as int, 'A' as int,
     'P' as int, 'E' as int, ' ' as int, 'B' as int, 'L' as int, 'O' as int, 'B' as int,
     ' ' as int, '+' as int, '+' as int]

  const Dash: seq<byte> := ['-' as int]
  const Colon: seq<byte> := [':' as int]
  const Space: seq<byte> := [' ' as int]

  /** "%04d-%02d-%02d" of the date fields (unsigned ints printed with %d). */
  function DateText(tm: Tm): seq<byte> {
    FormatInt(Int32(tm.year), 4) + Dash + FormatInt(Int32(tm.month), 2) + Dash
    + FormatInt(Int32(tm.day), 2)
  }

  /** "%02d:%02d:%02d" of the time fields. */
  function ClockText(tm: Tm): seq<byte> {
    FormatInt(Int32(tm.hour), 2) + Colon + FormatInt(Int32(tm.minute), 2) + Colon
    + FormatInt(Int32(tm.second), 2)
  }

  /** MySQL::result(rbuf, rec, blob, escapes); `blob` is the blob's contents
      as read_blob() or readData() deliver them. */
  function ResultSpec(rec: RecAttr, blob: seq<byte>, escapes: Option<Escapes>): Output
    requires WellFormed(rec)
    requires escapes.Some? ==> ValidEscapes(escapes.value)
  {
    var b := rec.ref;
    match rec.colType
    case Int => Printed(FormatInt(Signed(b, 4), 0))
    case Unsigned | Timestamp => Printed(FormatInt(Unsigned(b, 4), 0))
    case Varchar | Varbinary => Printed(StringSpec(b, CharVar, escapes))
    case Char | Binary => Printed(StringSpec(b, CharFixed, escapes))
    case Longvarchar => Printed(StringSpec(b, CharLongvar, escapes))
    case Float | Double => FloatingPointText
    case Date => Printed(DateText(FieldToTm(rec)))
    case Time =>
      var tm := FieldToTm(rec);
      Printed((if tm.neg then Dash else []) + ClockText(tm))
    case Bigunsigned => Printed(FormatInt(Unsigned(b, 8), 0))
    case Smallunsigned => Printed(FormatInt(Unsigned(b, 2), 0))
    case Tinyunsigned => Printed(FormatInt(Unsigned(b, 1), 0))
    case Bigint => Printed(FormatInt(Signed(b, 8), 0))
    case Smallint => Printed(FormatInt(Signed(b, 2), 0))
    case Tinyint => Printed(FormatInt(Signed(b, 1), 0))
    case Mediumint => Printed(FormatInt(Sint3Korr(b), 0))
    case Mediumunsigned => Printed(FormatInt(Uint3Korr(b), 0))
    case Year => Printed(FormatInt(1900 + Unsigned(b, 1), 4))
    case Datetime =>
      var tm := FieldToTm(rec);
      Printed(DateText(tm) + Space + ClockText(tm))
    case Decimal | Decimalunsigned => DecimalText
    case Text =>
      if escapes.Some? then Printed(EscapeSpec(blob, escapes.value)) else Printed(blob)
    case Blob => if escapes.Some? then Printed(CannotEscapeBlob) else Printed(blob)
    case _ => Printed([])
  }

  method Result(rec: RecAttr, blob: seq<byte>, escapes: Option<Escapes>) returns (out: Output)
    requires WellFormed(rec)
    requires escapes.Some? ==> ValidEscapes(escapes.value)
    ensures out == ResultSpec(rec, blob, escapes)
  {
    match rec.colType {
      case Varchar =>
        var s := StringField(rec.ref, CharVar, escapes);
        out := Printed(s);
      case Varbinary =>
        var s := StringField(rec.ref, CharVar, escapes);
        out := Printed(s);
      case Char =>
        var s := StringField(rec.ref, CharFixed, escapes);
        out := Printed(s);
      case Binary =>
        var s := StringField(rec.ref, CharFixed, escapes);
        out := Printed(s);
      case Longvarchar =>
        var s := StringField(rec.ref, CharLongvar, escapes);
        out := Printed(s);
      case Text =>
        if escapes.Some? {
          var _, s := EscapeString(blob, |blob|, escapes.value);
          assert blob[..|blob|] == blob;
          out := Printed(s);
        } else {
          out := Printed(blob);
        }
      case _ =>
        out := ResultSpec(rec, blob, escapes);
    }
  }
}
