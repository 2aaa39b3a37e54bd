# mod_ndb: query planning and value encoding

This project models the core of mod_ndb, an Apache module that serves a
MySQL Cluster (NDB) table over HTTP:

- `Query()` turns a request into an NDB operation:
  - the HTTP method switch;
  - planning from the query-string parameters and then the path info, through `set_key()` and `key_col_bin_search()`;
  - the choice of index object;
  - the setup call (`Plan::SetupRead`, `set_up_write`);
  - binding the key parts and the index constants, each checked with `mval_is_usable()`;
  - the scan filters;
  - the action;
  - the `abort1`/`abort2` error exits.
- `MySQL::value` (two versions) encodes a request's text for a column of a given type into an `mvalue`. `MySQL::binary_value` encodes raw bytes for the binary types.
- The older `MySQL::result` decodes a fetched attribute back into text. Together with the encoders, this gives round-trip properties.
- The request-body blob table of a query source: `set_blob` and `get_blob`.

Modules:

| module | file | models |
|---|---|---|
| `Bytes` | bytes.dfy | C integer conversions and `/` `%`, `store24`, `uint3korr`, `sint3korr`, `uint2korr` |
| `CLib` | clib.dfy | `strcmp`, `strtol`, `strtoul`, `atoi`, `printf("%0Nd")` |
| `Wrappers` | wrappers.dfy | `Option` |
| `Ndb` | ndb.dfy | column types, the `mvalue` record and its `use_value` discriminant |
| `CodecCommon` | codec_common.dfy | the branches both encoders share: the character buffers, `factor_YYYYMMDD`/`factor_HHMMSS`, date packing, clamping, pseudo-values |
| `MySQLValue` | mysql_value.dfy | MySQL_value.cc: `flip64`, `MySQL::value`, `MySQL::binary_value` |
| `MySQLField` | mysql_field.dfy | blobfix/MySQL_Field.cc: the older `MySQL::value`, and the decoder `MySQL::result`, `MySQL::String`, `escape_string`, `field_to_tm` |
| `CodecRoundTrip` | codec_roundtrip.dfy | how the two encoders compare, and encoder against decoder |
| `QueryConfig` | query_config.dfy | the directory configuration, the plan order, `key_col_bin_search` |
| `QueryPlanner` | query_items.dfy | `QueryItems`, `set_key`, the parameter loop and the path-info scan of `Query()` |
| `QueryRun` | query_run.dfy | `mval_is_usable`, the method switch, the index choice, the key-part, constant and filter loops, `set_up_write`, the error exits, `Query()` |
| `QuerySource` | query_source.dfy | r1.2/query_source.cc: `set_blob`, `get_blob` |

How the model is built:

- **`Query()`** is a chain of methods, one per stage. Each method is proved equal to a specification function of the request, the directory, the engine's answers and the instance state.
  - The functions carry what the source promises: the response codes, the read-operation count, a transaction that stays open after a success.
  - The lemmas `QueryRejectsMethod`, `QueryReadLimit`, `QueryNoPlan404` and `QueryPostInserts` state whole-request outcomes.
- **`QueryItems` and the ndb instance** are classes whose fields the methods update. The key array is an `array`.
- **The loops keep their form.** These are `while` loops over sequences or arrays, proved against reference functions:
  - the binary search;
  - the parameter loop;
  - the right-to-left path-info scan;
  - the key-part walk;
  - the filter loop;
  - the `set_up_write` loop;
  - the digit and separator filters;
  - the escape loops;
  - the NUL trimming loop;
  - the hash loop and the chain walk.

## Model

| member | source | states |
|---|---|---|
| Bytes.Int32 | MySQL_value.cc:284 | the int conversion lands in the 32-bit signed range and agrees with its argument modulo 2^32 |
| Bytes.Uint32 | blobfix/MySQL_Field.cc:63-76 | the unsigned int conversion lands in [0, 2^32) and agrees with its argument modulo 2^32 |
| Bytes.SignedChar | r1.2/query_source.cc:35-37 | a byte read as a signed char lies in [-128, 128) and agrees with the byte modulo 256 |
| Bytes.CDiv | blobfix/MySQL_Field.cc:63-76 | C division truncates toward zero: Euclidean for a non-negative dividend, negated quotient of the magnitude for a negative one |
| Bytes.CMod | blobfix/MySQL_Field.cc:63-76 | C remainder: dividend = quotient * divisor + remainder, and the remainder takes the dividend's sign |
| Bytes.Store24 | MySQL_value.cc:317-333 | store24 writes three bytes |
| Bytes.Uint3Korr | blobfix/MySQL_Field.cc:93 | uint3korr reads a value in [0, 2^24) |
| Bytes.Sint3Korr | blobfix/MySQL_Field.cc:90 | sint3korr is sign-extended: in the signed 24-bit range and congruent to uint3korr modulo 2^24 |
| Bytes.Uint2Korr | blobfix/MySQL_Field.cc:284 | uint2korr reads a value in [0, 2^16) |
| Bytes.Store24Uint3Korr | blobfix/MySQL_Field.cc:184-188 | store24 then uint3korr gives back the value modulo 2^24 |
| Bytes.Store24Sint3Korr | blobfix/MySQL_Field.cc:184-188 | store24 then sint3korr gives back every value of the signed 24-bit range |
| CLib.DigitValue | MySQL_value.cc:170-175 | a byte is a decimal digit exactly when its digit value is below 10, and that value is c - '0' |
| CLib.Strcmp | Query.cc:697 | strcmp returns -1, 0 or 1, and 0 exactly for equal strings |
| CLib.StrcmpAntisymmetric | Query.cc:689-706 | exchanging the operands negates strcmp |
| CLib.StrcmpLessTransitive | Query.cc:689-706 | a < b <= c under strcmp gives a < c, so sorted names are totally ordered |
| CLib.LeadingSpaces | MySQL_value.cc:284 | strtol skips exactly the leading white space |
| CLib.Strtol | MySQL_value.cc:284 | strtol saturates within the long range |
| CLib.Strtoul | MySQL_value.cc:246 | strtoul lands in the unsigned long range |
| CLib.Atoi | MySQL_value.cc:239 | atoi lands in the int range |
| CLib.NatDigits | blobfix/MySQL_Field.cc:133-134 | the decimal digits of n: at least one, all digits, no leading zero |
| CLib.FormatInt | blobfix/MySQL_Field.cc:133-134 | "%d" prints a NUL-free text that starts with '-' or a digit |
| CLib.NatDigitsValue | blobfix/MySQL_Field.cc:133-134 | reading back the printed digits yields the number |
| CLib.NatDigitsLength | blobfix/MySQL_Field.cc:155-157 | a number below 10^w has at most w digits |
| CLib.StrtolFormatInt | MySQL_value.cc:281-288 | strtol in base 0 or 10 reads back what "%d" prints, for every long |
| CLib.AtoiFormatInt | MySQL_value.cc:236-240 | atoi reads back what "%d" prints, for every int |
| CLib.FormatIntPadded | blobfix/MySQL_Field.cc:155-157 | "%0wd" of a v below 10^w is exactly w digits denoting v |
| CLib.StrtolDigits | MySQL_value.cc:170-175 | strtol of a digit run is its value, when that fits in a long |
| CLib.RunValueAccumulator | MySQL_value.cc:170-175 | reading a digit run onto an accumulator shifts the accumulator by the run's length |
| CodecCommon.CpyStrn | MySQL_value.cc:102 | ap_cpystrn copies min(n - 1, strlen) bytes, writes the NUL after them and changes nothing else |
| CodecCommon.Memcpy | MySQL_value.cc:410 | memcpy writes the n bytes and changes nothing else |
| CodecCommon.EncodeVarchar | MySQL_value.cc:96-105 | the Varchar buffer: its length byte counts exactly the copied prefix of the text, followed by a NUL |
| CodecCommon.EncodeLongvarchar | MySQL_value.cc:107-117 | the Longvarchar buffer: its two little-endian length bytes count exactly the copied prefix |
| CodecCommon.EncodeChar | MySQL_value.cc:119-132 | the Char buffer is L + 1 bytes: the text, space-padded to L, then a NUL |
| CodecCommon.CStrOfCString | MySQL_value.cc:58-380 | a NUL-free buffer is its own C string |
| CodecCommon.FactorYYYYMMDD | blobfix/MySQL_Field.cc:72-76 | year, month and day of a YYYYMMDD numeral; the time fields are untouched |
| CodecCommon.FactorHHMMSS | blobfix/MySQL_Field.cc:63-70 | a negative time sets neg; the date fields are untouched |
| CodecCommon.FactorHHMMSSFields | blobfix/MySQL_Field.cc:63-70 | the hour, minute and second of \|int_time\| read as HHMMSS |
| CodecCommon.BitOrDisjoint | MySQL_value.cc:176-186 | `\|` of values with disjoint bits is their sum |
| CodecCommon.PackDateSum | MySQL_value.cc:176-186 | the packed date (year << 9 \| month << 5 \| day) is the weighted sum of the fields, below 2^24 |
| CodecCommon.PackUnpackDate | MySQL_value.cc:176-186 | the packed date, stored by store24 and read by uint3korr, unpacks to the same fields |
| CodecCommon.ClampedValueLaw | MySQL_value.cc:281-333 | the tiny, small and medium types store a value within the type's range; an out-of-range int becomes the nearer bound and sets over; an in-range one is stored as is |
| CodecCommon.SharedNumericValue | MySQL_value.cc:234-359 | exactly which column types the two encoders handle alike, and the use_value each of them gets |
| CodecCommon.PseudoValue | MySQL_value.cc:199-233 | the dynamic values are recognised exactly for @null, @++, @--, @time, @autoinc |
| MySQLValue.Flip64 | MySQL_value.cc:51-55 | flip64 exchanges the two 32-bit halves of a 64-bit word |
| MySQLValue.Flip64Involution | MySQL_value.cc:51-55 | flipping twice gives back the word |
| MySQLValue.BitValue | MySQL_value.cc:273-277 | the Bit value is a 64-bit word |
| MySQLValue.KeepDigitsAreDigits | MySQL_value.cc:155-160 | the temporal filter keeps only digits |
| MySQLValue.DigitFilter | MySQL_value.cc:155-160 | strbuf receives at most 63 bytes |
| MySQLValue.FilterDigits | MySQL_value.cc:155-160 | the filter loop writes the sign, then the digits among at most 62 further characters, and no NUL |
| MySQLValue.DigitFilterPrefix | MySQL_value.cc:155-160 | the loop reads at most 62 characters after the sign |
| MySQLValue.DigitFilterNoNul | MySQL_value.cc:155-160 | the filtered text holds no NUL |
| MySQLValue.Value | MySQL_value.cc:58-380 | the encoder, branch by branch, equals its specification function |
| MySQLValue.ValueNullInputs | MySQL_value.cc:69-196 | a null column gives err_bad_column; a null value gives use_null on character and temporal columns and err_bad_user_value elsewhere |
| MySQLValue.ValueOfPlainText | MySQL_value.cc:234-378 | a text that is no pseudo-value goes to the type switch on every non-character, non-temporal column |
| MySQLValue.ClampedUse | MySQL_value.cc:281-333 | the clamped types are use_signed or use_unsigned |
| MySQLValue.TypedValueUse | MySQL_value.cc:236-378 | in the type switch, must_use_binary is exactly the binary types and err_bad_data_type exactly the unsupported ones |
| MySQLValue.ValueErrorKinds | MySQL_value.cc:58-380 | each error kind and must_use_binary, both ways |
| MySQLValue.ValueAtNull | MySQL_value.cc:198-205 | @null on a character column stores the text itself; on a numeric column it is NULL with a zero value |
| MySQLValue.ValueIncrementDecrement | MySQL_value.cc:206-217 | on a numeric column @++ and @-- are interpreted updates, an increment and a decrement |
| MySQLValue.ValueAutoinc | MySQL_value.cc:224-232 | on a numeric column @autoinc reserves 8 bytes exactly for Bigint and Bigunsigned, else 4 |
| MySQLValue.ValueClamped | MySQL_value.cc:281-333 | the clamping laws hold for the encoder's own strtol parse |
| MySQLValue.ValueYear | MySQL_value.cc:335-340 | Year stores strtol - 1900 modulo 256, exactly the offset for 1900..2155 |
| MySQLValue.FormatIntNotPseudo | MySQL_value.cc:199-233 | no "%d" text is a pseudo-value |
| MySQLValue.ValueIntFromDecimalText | MySQL_value.cc:236-240 | an Int column stores exactly the int its "%d" text names |
| MySQLValue.ValueBit | MySQL_value.cc:273-277 | Bit stores the flipped 64-bit parse, and flipping again restores the parse |
| MySQLValue.LongvarbinaryStopsAtNul | MySQL_value.cc:423-432 | as written: [65, 0, 66] with length 3 gets length 3 but only the bytes 65, 0 |
| MySQLValue.LongvarbinaryFixedLayout | MySQL_value.cc:423-432 | corrected: the bytes after the length prefix are exactly the s counted bytes |
| MySQLValue.EncodeBinary | MySQL_value.cc:406-411 | the Binary buffer is the bytes, zero-filled to the length |
| MySQLValue.EncodeVarbinary | MySQL_value.cc:413-421 | the Varbinary buffer is a length byte and the bytes |
| MySQLValue.EncodeLongvarbinary | MySQL_value.cc:423-432 | the Longvarbinary buffer as written: two length bytes and an ap_cpystrn copy |
| MySQLValue.EncodeLongvarbinaryFixed | MySQL_value.cc:423-432 | the corrected Longvarbinary buffer: two length bytes and a memcpy |
| MySQLValue.BinaryValue | MySQL_value.cc:386-438 | binary_value equals its specification function, with the corrected Longvarbinary copy |
| MySQLValue.BinaryValueLayout | MySQL_value.cc:386-438 | len = min(value length, L); Binary is zero-padded to L; Varbinary and (corrected) Longvarbinary carry a 1- or 2-byte length ahead of all the bytes and col_len L+1 or L+2; Text and Blob keep the value; other types are rejected |
| MySQLField.DropSeparators | blobfix/MySQL_Field.cc:402-405 | dropping separators never lengthens the text |
| MySQLField.SeparatorFilter | blobfix/MySQL_Field.cc:402-405 | strbuf receives at most 63 bytes |
| MySQLField.FilterSeparators | blobfix/MySQL_Field.cc:402-405 | the filter loop writes the sign, then the non-separators among at most 62 further characters; the result fits strbuf and a C string stays NUL-free |
| MySQLField.DropSeparatorsNoNul | blobfix/MySQL_Field.cc:402-405 | dropping separators from a NUL-free text leaves it NUL-free |
| MySQLField.SeparatorFilterNoNul | blobfix/MySQL_Field.cc:402-405 | the filtered C string, which the temporal branch hands to strtol and strtoul, has no NUL |
| MySQLField.SeparatorFilterPrefix | blobfix/MySQL_Field.cc:402-405 | the loop reads at most 62 characters after the sign |
| MySQLField.Value | blobfix/MySQL_Field.cc:308-590 | the older encoder equals its specification function |
| MySQLField.ValueOfPlainText | blobfix/MySQL_Field.cc:437-469 | a text that is no pseudo-value goes to the type switch |
| MySQLField.TypedValueUse | blobfix/MySQL_Field.cc:468-590 | the type switch never asks for binary_value, and rejects exactly the binary, blob, old decimal and unknown types |
| MySQLField.ValueErrorKinds | blobfix/MySQL_Field.cc:308-590 | each error kind, both ways, and never must_use_binary |
| MySQLField.ValueBit | blobfix/MySQL_Field.cc:474-479 | Bit is a plain unsigned 32-bit parse |
| MySQLField.ValueClamped | blobfix/MySQL_Field.cc:503-550 | the clamping laws of the newer encoder hold here too |
| MySQLField.Unsigned | blobfix/MySQL_Field.cc:130-188 | n little-endian bytes read below 256^n |
| MySQLField.FactorParts | blobfix/MySQL_Field.cc:79-102 | the -99 "no time" and -1 "no date" markers leave their part zero and not negative; any other value is factored by factor_HHMMSS or factor_YYYYMMDD on its own |
| MySQLField.FieldToTm | blobfix/MySQL_Field.cc:78-103 | a Date has no time part and day, month and year within their 5, 4 and 15 bits; a Time has no date part and is negative exactly when its stored value is negative and not -99; DatetimeSplit, DecodePackedDate/DecodeDate and DecodeStoredTime/DecodeTime state the printed values |
| MySQLField.DatetimeSplit | blobfix/MySQL_Field.cc:84-88 | a Datetime splits into YYYYMMDD and HHMMSS, each factored as its own group |
| MySQLField.EscapedSizeIsLength | blobfix/MySQL_Field.cc:239-258 | the size the counting loop prepares is exactly what the copying loop writes |
| MySQLField.EscapeAppend | blobfix/MySQL_Field.cc:251-258 | escaping distributes over concatenation |
| MySQLField.EscapeIdentity | blobfix/MySQL_Field.cc:251-258 | a text without escaped bytes is copied unchanged |
| MySQLField.PutEscaped | blobfix/MySQL_Field.cc:251-258 | one copy step appends the escape's bytes or the byte itself, for escape counts below 127 |
| MySQLField.EscapeString | blobfix/MySQL_Field.cc:234-260 | escape_string returns the escaped size and appends the escaped text of that length |
| MySQLField.TrimNuls | blobfix/MySQL_Field.cc:292-295 | the trimmed text is a prefix that ends in no NUL |
| MySQLField.TrimNulsDropsNuls | blobfix/MySQL_Field.cc:292-295 | only NUL bytes are trimmed |
| MySQLField.TrimTrailingNuls | blobfix/MySQL_Field.cc:292-295 | the backward loop stops at the last non-NUL byte |
| MySQLField.StringField | blobfix/MySQL_Field.cc:268-301 | MySQL::String appends its specification's bytes for each packing |
| MySQLField.StringDropsOnlyTrailingNuls | blobfix/MySQL_Field.cc:268-301 | what MySQL::String prints, followed by NULs, is the packed string |
| MySQLField.Result | blobfix/MySQL_Field.cc:127-217 | MySQL::result equals its specification function, type by type |
| CodecRoundTrip.ToLittleEndian | blobfix/MySQL_Field.cc:130-188 | the engine's n-byte little-endian image of a value has n bytes |
| CodecRoundTrip.LittleEndianOf | blobfix/MySQL_Field.cc:130-188 | reading back n stored bytes gives the value modulo 256^n |
| CodecRoundTrip.UnsignedOf | blobfix/MySQL_Field.cc:130-188 | an unsigned n-byte value reads back as itself |
| CodecRoundTrip.SignedOf | blobfix/MySQL_Field.cc:130-188 | a signed n-byte value reads back as itself |
| CodecRoundTrip.EncodersAgree | MySQL_value.cc:58-380 | away from the temporal filter, Bit and the binary types, both encoders produce the same mvalue |
| CodecRoundTrip.FiltersDiffer | MySQL_value.cc:155-160 | the filters part on "1.2": the newer keeps "12", the older "1.2" |
| CodecRoundTrip.TypesDiffer | MySQL_value.cc:273-277 | Bit is 64-bit flipped in the newer and 32-bit in the older; Varbinary is must_use_binary in the newer and rejected in the older |
| CodecRoundTrip.CharBranch | MySQL_value.cc:84-137 | both encoders take the same character branch |
| CodecRoundTrip.ClampedBranch | MySQL_value.cc:281-333 | both encoders clamp the same int parse |
| CodecRoundTrip.TemporalBranch | MySQL_value.cc:140-190 | both encoders share the temporal branch and differ only in the filter |
| CodecRoundTrip.KeepDigitsOfFields | MySQL_value.cc:155-160 | digit fields joined by a non-digit reach the newer filter as their digits |
| CodecRoundTrip.DropSeparatorsOfFields | blobfix/MySQL_Field.cc:402-405 | digit fields joined by a separator reach the older filter as their digits |
| CodecRoundTrip.FiltersOfFields | MySQL_value.cc:155-160 | a short text of digit fields passes both filters as its digits |
| CodecRoundTrip.FieldsNumeral | MySQL_value.cc:155-175 | the date or time text of "%0wd" fields reaches strbuf as its YYYYMMDD or HHMMSS numeral |
| CodecRoundTrip.DecodeSigned | blobfix/MySQL_Field.cc:130-183 | the signed integer types print the value their bytes were stored from |
| CodecRoundTrip.DecodeUnsigned | blobfix/MySQL_Field.cc:136-174 | the unsigned integer types print the value their bytes were stored from |
| CodecRoundTrip.DecodeInt | blobfix/MySQL_Field.cc:133-134 | an Int prints its stored value |
| CodecRoundTrip.DecodeClamped | blobfix/MySQL_Field.cc:166-189 | every clamped type prints the in-range value it stored |
| CodecRoundTrip.DecodeMediumint | blobfix/MySQL_Field.cc:184-185 | Mediumint prints its sign-extended 24-bit value |
| CodecRoundTrip.DecodeMediumunsigned | blobfix/MySQL_Field.cc:187-188 | Mediumunsigned prints its 24-bit value |
| CodecRoundTrip.DateNumeral | blobfix/MySQL_Field.cc:72-76 | factor_YYYYMMDD of the numeral gives back its fields |
| CodecRoundTrip.TimeNumeral | blobfix/MySQL_Field.cc:63-70 | factor_HHMMSS of the numeral gives back its fields |
| CodecRoundTrip.DecodePackedDate | blobfix/MySQL_Field.cc:92-101 | a packed date prints as "%04d-%02d-%02d" of its fields |
| CodecRoundTrip.DecodeDate | blobfix/MySQL_Field.cc:155-157 | what the engine keeps for a date numeral prints back as its text |
| CodecRoundTrip.DecodeStoredTime | blobfix/MySQL_Field.cc:89-101 | a 24-bit time prints as "%02d:%02d:%02d" of its factored fields |
| CodecRoundTrip.DecodeTime | blobfix/MySQL_Field.cc:159-162 | what the engine keeps for a time numeral prints back as its text |
| CodecRoundTrip.IntRoundTrip | MySQL_value.cc:236-240 | an Int's "%d" text is stored alike by both encoders and printed back unchanged |
| CodecRoundTrip.ClampedStores | MySQL_value.cc:281-333 | an in-range parse is stored without setting over and printed back |
| CodecRoundTrip.DecimalText | MySQL_value.cc:281-288 | a "%d" text is no pseudo-value and strtol in base 0 reads it back |
| CodecRoundTrip.ClampedRoundTrip | MySQL_value.cc:281-333 | the tiny, small and medium types: an in-range number's text is stored by both encoders alike, without over, and printed back unchanged |
| CodecRoundTrip.VarcharRoundTrip | MySQL_value.cc:96-105 | a Varchar text comes back cut to min(strlen mod 256, L) bytes |
| CodecRoundTrip.LongvarcharRoundTrip | MySQL_value.cc:107-117 | a Longvarchar text comes back cut to min(strlen mod 65536, L) bytes |
| CodecRoundTrip.CharRoundTrip | MySQL_value.cc:119-132 | a Char text comes back cut to L and space-padded to L |
| CodecRoundTrip.TemporalEncodersAgree | MySQL_value.cc:155-160 | where the two filters agree, so do the encoders |
| CodecRoundTrip.TemporalStores | MySQL_value.cc:165-186 | a temporal text reaches the engine as its numeral: Date packed into three bytes, Time as its low 24 bits |
| CodecRoundTrip.TemporalRoundTrip | MySQL_value.cc:165-186 | a temporal text whose stored numeral prints as the text survives the round trip |
| CodecRoundTrip.DateTextNumeral | MySQL_value.cc:176-186 | the "%04d-%02d-%02d" text of a date reaches strbuf as its YYYYMMDD numeral, through either filter |
| CodecRoundTrip.TimeTextNumeral | MySQL_value.cc:170-175 | the "%02d:%02d:%02d" text of a time reaches strbuf as its HHMMSS numeral, through either filter |
| CodecRoundTrip.DateTextRoundTrip | MySQL_value.cc:176-186 | a date's text reaches strbuf as its numeral, and what the engine keeps for it prints back as the text |
| CodecRoundTrip.TimeTextRoundTrip | MySQL_value.cc:170-175 | a time's text reaches strbuf as its numeral, and what the engine keeps for it prints back as the text |
| CodecRoundTrip.DateRoundTrip | MySQL_value.cc:176-186 | a "YYYY-MM-DD" text is stored in 24 bits and printed back unchanged |
| CodecRoundTrip.TimeRoundTrip | MySQL_value.cc:170-175 | an "HH:MM:SS" text is stored in 24 bits and printed back unchanged |
| QueryConfig.PlanRank | Query.cc:154-175 | the plan order has NoPlan alone at the bottom |
| QueryConfig.NameIndex | Query.cc:689-706 | the first position holding a name, or -1 exactly when no column has it |
| QueryConfig.SortedNamesUnique | Query.cc:689-706 | sorted names are distinct |
| QueryConfig.KeyColBinSearch | Query.cc:689-706 | the binary search finds the column of that name, or returns -1 exactly when there is none |
| QueryPlanner.QueryItems.constructor | Query.cc:186-196 | the initial items with the all-NULL key array |
| QueryPlanner.QueryItems.SetKey | Query.cc:154-175 | set_key records the value, counts the key, appends a filter column, and raises the plan (with the active index) only for a strictly higher plan |
| QueryPlanner.MaxRankIsMaximum | Query.cc:154-175 | MaxRank is the maximum of the seed and the bindings' ranks |
| QueryPlanner.ApplyAllPlan | Query.cc:154-175 | after a run of set_key calls the plan is the highest one implied, with the index of the first binding that implied it |
| QueryPlanner.PlanOrderIndependent | Query.cc:154-175 | the final plan does not depend on the order of the bindings |
| QueryPlanner.ApplyAllRecords | Query.cc:154-175 | each key holds its last bound value, keys are counted, and the filter list gets the filter columns in order |
| QueryPlanner.Initial | Query.cc:186-196 | the starting items have every key NULL |
| QueryPlanner.ApplyAllConsistent | Query.cc:154-175 | set_key keeps every filter-list entry pointing at a set, NUL-free key value |
| QueryPlanner.ArgBindings | Query.cc:297-312 | the bindings of the parameter loop name key columns |
| QueryPlanner.QueryItems.ProcessArgs | Query.cc:297-312 | the parameter loop leaves the items of one set_key per known parameter name, in order |
| QueryPlanner.Head | Query.cc:317-334 | the bytes before the first '/' |
| QueryPlanner.SegmentsHaveNoSlash | Query.cc:317-334 | no path segment contains '/' |
| QueryPlanner.SegmentsRoundTrip | Query.cc:317-334 | the head and the rejoined segments give back the path |
| QueryPlanner.SegmentsOfSuffix | Query.cc:317-334 | the segments of a suffix come first |
| QueryPlanner.Pair | Query.cc:317-334 | the k-th segment from the right goes to path-info column P-1-k |
| QueryPlanner.PathBindings | Query.cc:317-334 | at most one binding per path-info column |
| QueryPlanner.StrndupSegment | Query.cc:317-334 | ap_pstrndup(s + 1, item_len) is exactly the segment, even with the extra byte counted at the trailing-slash end |
| QueryPlanner.ScanStep | Query.cc:322-333 | one iteration of the backward scan keeps the invariant |
| QueryPlanner.ScanDone | Query.cc:322-333 | when the scan stops, its bindings are PathBindings |
| QueryPlanner.QueryItems.ScanPathInfo | Query.cc:317-334 | the path-info loop leaves the items of one set_key per path-info column, right to left |
| QueryRun.MvalIsUsableIff | Query.cc:131-147 | a value is usable exactly when it is not one of the error kinds |
| QueryRun.MethodStage | Query.cc:224-280 | 405 for other methods and a forbidden DELETE; a primary-key insert exactly for a POST with neither parameters nor path info |
| QueryRun.MethodSwitch | Query.cc:224-280 | the method switch takes a read operation for a GET and zeroed set_vals for a POST, and leaves the items with the chosen plan |
| QueryRun.Blanks | Query.cc:261 | the zero-filled set_vals |
| QueryRun.Seeded | Query.cc:283-291 | the table-scan flag sets Scan, and a default key becomes the active index, whose first constant, if any, sets the plan |
| QueryRun.ApplyAllIndexInRange | Query.cc:154-175 | every active index the planner picks is a configured index |
| QueryRun.PlannedConsistent | Query.cc:283-334 | the planned items satisfy what the later stages rely on |
| QueryRun.PathInfoOnlyWithoutPlan | Query.cc:317-318 | path info is bound only when the parameters left NoPlan or the directory binds it always |
| QueryRun.PlannedItems | Query.cc:283-334 | the planned items are consistent with a configured active index |
| QueryRun.PlanAccess | Query.cc:283-334 | the planning part of Query() leaves the planned items |
| QueryRun.SelectIndex | Query.cc:369-416 | which index object each plan gets; a non-scan, non-PK plan without an active index aborts |
| QueryRun.ReadSetup | Query.cc:83-111 | Plan::SetupRead picks a table scan, an index scan (descending only if sorted) or a tuple read, by plan |
| QueryRun.KeyWalk | Query.cc:430-451 | the key walk visits key columns only |
| QueryRun.KeyWalkShape | Query.cc:430-451 | the walk follows next_in_key from the first column, bounded by key_columns_used and the index's parts |
| QueryRun.BindPartsUsable | Query.cc:430-468 | a successful run bound only usable values, and an unusable value fails it |
| QueryRun.KeyParts | Query.cc:430-451 | each key part carries the request's value of its column |
| QueryRun.ConstantParts | Query.cc:454-468 | each constant part carries the configured constant |
| QueryRun.KeyWalkStep | Query.cc:430-451 | one step of the key-part loop: encode, check, bind, follow next_in_key |
| QueryRun.KeyWalkStop | Query.cc:430-451 | the walk ends at column -1 or when key_columns_used runs out |
| QueryRun.BindKeyParts | Query.cc:430-451 | the key-part loop equals its specification |
| QueryRun.BindConstants | Query.cc:454-468 | the constants loop equals its specification |
| QueryRun.BindIndexKeys | Query.cc:430-468 | the key parts and then the constants, only for a non-scan plan with an active index |
| QueryRun.FilterTermsShape | Query.cc:472-503 | isnotnull comes first exactly for a LIKE on a nullable column; LIKE filters compare raw text and others the encoded value |
| QueryRun.EmitFilters | Query.cc:472-503 | the filter loop equals its specification |
| QueryRun.FiltersStopAtMissing | Query.cc:472-503 | a missing base column ends the filter run |
| QueryRun.BuildFilters | Query.cc:472-503 | filters are built for every plan from Scan up, when there are filters |
| QueryRun.Writes | Query.cc:580-603 | set_up_write leaves one value per updatable column |
| QueryRun.EncodeItem | Query.cc:586-591 | encode the item's text, and retry with its bytes when the column wants binary |
| QueryRun.WriteStep | Query.cc:580-603 | one loop iteration: an unassigned column keeps its value, and the interpreted flag is kept |
| QueryRun.WriteDone | Query.cc:580-603 | at the end of the loop, set_vals are the Writes and the flag says whether any is interpreted |
| QueryRun.SetUpWrite | Query.cc:570-611 | set_up_write's new set_vals and its call |
| QueryRun.WriteCallChoice | Query.cc:606-610 | the write call is an insert exactly for an insert, otherwise an interpreted update exactly when some value is interpreted |
| QueryRun.IncrementMakesInterpretedUpdate | Query.cc:580-610 | an "@++" or "@--" item for a numeric column makes an interpreted update |
| QueryRun.Abort2 | Query.cc:529-543 | abort2 drops the transaction, then marks the instance aborted or cleans it up |
| QueryRun.AbortCode | Query.cc:533 | a response code of 0 becomes 500 at abort2 |
| QueryRun.NdbInstance.Abort | Query.cc:529-543 | the abort2 path updates the instance as Abort2 says |
| QueryRun.Finish | Query.cc:513-524 | success exactly when the action succeeds |
| QueryRun.AfterKeys | Query.cc:430-527 | a failed key bind closes with 500; success needs the bind and the filters to succeed |
| QueryRun.FilterAndAct | Query.cc:472-527 | the filter stage and the action update the instance as AfterKeys says |
| QueryRun.AfterSetup | Query.cc:422-427 | a failed setup call closes with 404; success needs the key stage to succeed |
| QueryRun.BindAndAct | Query.cc:422-527 | from the setup call on, Query() updates the instance as AfterSetup says |
| QueryRun.ExecuteSpec | Query.cc:369-427 | an index abort closes with 500; success needs a chosen index, a successful setup call and set_vals as set_up_write makes them |
| QueryRun.Execute | Query.cc:369-527 | from the index choice on, Query() updates the instance as ExecuteSpec says |
| QueryRun.RunSetup | Query.cc:421-422 | the setup module of the chosen plan leaves set_vals and the setup call as SetupSpec says |
| QueryRun.AfterPlanning | Query.cc:339-364 | a GET without a plan is 404 through abort2; a closed transaction is an error response; success leaves the transaction open |
| QueryRun.OpenAndExecute | Query.cc:339-527 | after planning, Query() updates the instance as AfterPlanning says |
| QueryRun.InTransaction | Query.cc:349-364 | an aborted instance without a transaction answers 500; success leaves the transaction open |
| QueryRun.BeginAndExecute | Query.cc:349-527 | the transaction step updates the instance as InTransaction says |
| QueryRun.QuerySpec | Query.cc:182-551 | a GET takes a read operation exactly when within the limit; success leaves the transaction open and OK is returned exactly when keep_tx_open; a closed transaction is an error response |
| QueryRun.Query | Query.cc:182-551 | Query() returns and updates the instance as QuerySpec says |
| QueryRun.PlanAndExecute | Query.cc:283-527 | planning then execution update the instance as AfterPlanning of the planned items says |
| QueryRun.QueryRejectsMethod | Query.cc:272-279 | other methods and a forbidden DELETE are answered 405, and nothing changes |
| QueryRun.QueryReadLimit | Query.cc:231-248 | a GET beyond the read-operation limit is answered 500, and nothing changes |
| QueryRun.QueryNoPlan404 | Query.cc:339-344 | a GET whose request selects neither a scan nor an index is answered 404, and abort2 runs |
| QueryRun.QueryPostInserts | Query.cc:258-291 | a successful POST with neither parameters nor path info is an insert with set_vals encoded from the form items, whatever the directory does to the plan; without a table scan or a default key the plan stays PrimaryKey |
| QuerySource.NameHash | r1.2/query_source.cc:35-37 | the hash is an unsigned int |
| QuerySource.Bucket | r1.2/query_source.cc:35-37 | the bucket is within the table |
| QuerySource.Lookup | r1.2/query_source.cc:55-59 | the lookup finds an entry exactly when the chain holds that name, and returns such an entry's slice |
| QuerySource.HashName | r1.2/query_source.cc:35-37 | the hash loop computes the bucket |
| QuerySource.LookupPush | r1.2/query_source.cc:40-44 | a new head node shadows earlier entries of its name and leaves the others |
| QuerySource.FindInChain | r1.2/query_source.cc:55-59 | the chain walk returns the first node of that name |
| QuerySource.BlobTable.constructor | r1.2/query_source.cc:23-28 | an empty table |
| QuerySource.BlobTable.SetBlob | r1.2/query_source.cc:31-45 | set_blob pushes the node onto its bucket's chain, leaves other buckets alone, and makes the name map to the slice |
| QuerySource.BlobTable.GetBlob | r1.2/query_source.cc:48-60 | get_blob returns the most recent slice filed under the name, or None |

## Left out
- QueryRun.Abort2: on a GET, `result_cols` comes from the connection pool (`ap_pcalloc`, Query.cc:254-256), yet abort2 frees it with `delete[]` (Query.cc:542). That is undefined behaviour on every GET that reaches abort2, including the 404s of QueryNoPlan404 and AfterSetup and the 500s. The model does not represent memory release, so it returns the response code as if the free were harmless.
- QueryRun.MethodStage: every early response code goes through `ndb_handle_error(r, code, ...)` (Query.cc:212, 247, 264, 274, 279, 445, 463, 669, 672), whose definition is not part of this model; it is taken to return its code argument unchanged, and the error page text and logging it produces are not modelled.
- QueryRun.QuerySpec: its error responses come from the same `ndb_handle_error` calls, taken to return their code unchanged; the page text and logging are not modelled.
- Float, Double and Decimal: the encoders' `strtof`/`strtod`/decimal-library parsing and the decoders' `%G` and decimal text are floating point and a foreign library. They are kept as opaque payloads and outputs.
- `@time` stores the current clock (`time()`). The model keeps it as an opaque `ValTime` payload, because clocks are not modelled.
- The Char branch's `strcpy` into a buffer of L + 1 bytes writes past its end for a text longer than L. The model keeps the text cut to L, because memory beyond the buffer is not modelled.
- MySQLField.EscapeString: `escapes[ref[i]]` indexes with a plain, signed `char`. The model indexes with the unsigned byte, because the negative indices read memory outside the table.
- MySQLField.PutEscaped: an escape count of 127 would never end the source's copying loop, whose signed `char j` wraps from 127 to -128 and stays at most 127. The model's escapes table admits only counts below 127, so that non-terminating case is not modelled.
- MySQLField.EscapeString and MySQLField.EscapedSizeIsLength: they hold for escape tables whose counts are below 127, for the same reason.
- MySQLValue.BinaryValue: its Longvarbinary branch uses the corrected copy, `EncodeLongvarbinaryFixed`, rather than the source's NUL-stopping `ap_cpystrn` (see Findings). On a value with a NUL the model's buffer therefore differs from the program's, and so do QueryRun.EncodeItem and QueryRun.SetUpWrite, which reach binary_value. The copy as written is `EncodeLongvarbinary`.
- MySQLValue.BinaryValueLayout: it states the corrected Longvarbinary layout, with all the counted bytes after the prefix. The as-written layout is stated by MySQLValue.LongvarbinaryStopsAtNul.
- QueryPlanner.QueryItems.ScanPathInfo: for an empty path_info the source reads the byte before the string (`*(s-1)`, Query.cc:324). The model binds nothing there, because memory outside the string is not modelled.
- MySQLValue.EncodeLongvarbinary: the source's `ap_palloc` buffer holds s + 2 bytes, and `ap_cpystrn` can write its NUL one byte past that. The model allocates one byte more and returns only the bytes the length prefix covers. The overrun itself is not modelled, because pool memory is not modelled.
- MySQL::Text truncates the blob length to `unsigned int`, and its `read_blob`/`readData` calls receive the blob's contents as a parameter, so blob I/O is not modelled.
- The query string is taken as already split into parameters and URL-unescaped. These are Apache's `ap_getword` and `ap_unescape_url`, which are not modelled.
- NDB API calls are fields of an `Engine` parameter:
  - table and index lookups;
  - `startTransaction`;
  - `set_key_part`;
  - the setup calls;
  - `Plan::Write`, as `writeActionCode`;
  - `ExecuteAll`, as `executeAllCode`.
- QueryRun.KeyWalk: `next_key_part()` is taken to answer yes while fewer than `keyPartCount` parts are set. The index objects themselves (sql/NSQL/Tree/BindNode.cpp and the index classes) are not part of this model.
- `cleanup()` is a flag of the instance state.
- The header that declares the `AccessPlan` enum is not part of this model, and trunk/mod_ndb.h does not declare it. The order used is NoPlan < Scan < PrimaryKey < UniqueIndexAccess < OrderedIndexScan, as set_key's comparisons and `Q.plan >= Scan` use it.
- MySQLValue.BitValue: `ndbapi_bit_flip` is taken to be `flip64`, because its definition is not part of this model.
- QuerySource.BlobTable: `BLOB_TABLE_SIZE` is a constructor parameter. Each chain is a sequence of its nodes: the nodes are never changed after allocation, so aliasing is not modelled.
- QueryItems.SetKey: `filter_list` is a sequence. The source's fixed array can be overrun by more filters than it holds, and that overrun is not modelled.
- `key_columns_used` and the binary search's result are `short` in the source. The model bounds the directory (fewer than 2^15 key columns) rather than model their wrap-around.
- Three paths dereference a null pointer, and the model answers each as a `NullDereference` outcome, because undefined behaviour is not modelled:
  - a filter on a column the table lacks;
  - a `NoPlan` request that reaches the index stage with an active index, where `idxobj` is null;
  - a failed `startTransaction`, whose `abort1` calls `close()` on the null transaction.
- The zeroed `set_vals` and a never-assigned `mval` are the all-zero `Blank` value.
- The JSONRequest content-type check (Query.cc:505-510) sets a flag that nothing in the core reads, so it is left out.
- `use_etags` and the result-column setup of a GET (Query.cc:233-255) allocate result objects that the core never reads, so they are left out. So does `Plan::Read`'s result-column loop.
- `Plan::Write`, `Plan::Delete`, `Plan::SetupDelete` and `ExecuteAll` run engine operations. They enter only through their return codes.
- Logging (`log_err`, `log_debug`) and the server's error counters are left out.

## Findings

| source | as written | input that shows it | evidently intended | confidence | as-written member | corrected member |
|---|---|---|---|---|---|---|
| MySQL_value.cc:431 | the Longvarbinary branch of binary_value copies the bytes with ap_cpystrn, which stops at the first NUL byte although the length prefix counts all s bytes | the value [65, 0, 66] with length 3: the prefix says 3, the bytes after it are 65, 0 | memcpy of all s bytes, as the Binary and Varbinary branches do | not executed | MySQLValue.LongvarbinaryStopsAtNul | MySQLValue.LongvarbinaryFixedLayout |

`MySQLValue.BinaryValue` uses the corrected copy, `EncodeLongvarbinaryFixed`. `EncodeLongvarbinary` keeps the copy as written.
