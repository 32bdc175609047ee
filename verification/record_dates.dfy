/** Date decoding of API records (entity/src/record.rs): the optional
    join/leave date, whose fast path is a byte-level `YYYY-MM-DD` shape
    test followed by calendar parsing of the first ten bytes, and the
    per-day map whose every key must be a `%Y-%m-%d` date. Strings are
    their UTF-8 bytes. */
module RecordDates {

  import opened Basics

  /** A proleptic Gregorian calendar date (chrono's `NaiveDate`). */
  datatype Date = Date(year: int, month: int, day: int)

  predicate IsLeapYear(y: int) {
    y % 4 == 0 && (y % 100 != 0 || y % 400 == 0)
  }

  function DaysInMonth(y: int, m: int): int
    requires 1 <= m <= 12
  {
    if m == 2 then (if IsLeapYear(y) then 29 else 28)
    else if m == 4 || m == 6 || m == 9 || m == 11 then 30
    else 31
  }

  predicate ValidDate(d: Date) {
    1 <= d.month <= 12 && 1 <= d.day <= DaysInMonth(d.year, d.month)
  }

  /** Calendar order. */
  predicate Before(a: Date, b: Date) {
    a.year < b.year
    || (a.year == b.year && a.month < b.month)
    || (a.year == b.year && a.month == b.month && a.day < b.day)
  }

  // ---------------------------------------------------------------- bytes

  const DASH: Byte := 0x2D
  const ZERO: Byte := 0x30

  predicate IsDigitByte(b: Byte) {
    0x30 <= b <= 0x39
  }

  predicate AllDigitBytes(s: seq<Byte>) {
    forall i :: 0 <= i < |s| ==> IsDigitByte(s[i])
  }

  function DigitsValue(s: seq<Byte>): nat
    requires AllDigitBytes(s)
  {
    if s == [] then 0 else 10 * DigitsValue(s[..|s| - 1]) + (s[|s| - 1] - ZERO)
  }

  /** A byte offset at which a `&str` may be sliced: not inside a
      multi-byte character (a UTF-8 continuation byte starts no
      character). */
  predicate IsCharBoundary(s: seq<Byte>, i: int) {
    i == 0 || i == |s| || (0 < i < |s| && !(0x80 <= s[i] <= 0xBF))
  }

  /** The shape test slices the string at byte offsets 4, 5, 7, 8 and 10
      (each only once the earlier conjuncts hold); slicing inside a
      character panics, so decoding requires these offsets to be
      boundaries. */
  predicate ShapeTestCannotPanic(s: seq<Byte>) {
    |s| >= 10 ==>
      IsCharBoundary(s, 4) && IsCharBoundary(s, 5) &&
      (s[4] == DASH ==>
        IsCharBoundary(s, 7) && IsCharBoundary(s, 8) &&
        (s[7] == DASH ==> IsCharBoundary(s, 10)))
  }

  /** The fast-path test: at least ten bytes, dashes at bytes 4 and 7, and
      ASCII digits at bytes 0-3, 5-6 and 8-9. */
  predicate HasDateShape(s: seq<Byte>) {
    && |s| >= 10
    && s[4] == DASH
    && s[7] == DASH
    && AllDigitBytes(s[0..4])
    && AllDigitBytes(s[5..7])
    && AllDigitBytes(s[8..10])
  }

  /** The date the digits of a fast-path-shaped string spell, whether or
      not it exists. */
  function Spelled(s: seq<Byte>): Date
    requires HasDateShape(s)
  {
    Date(DigitsValue(s[0..4]), DigitsValue(s[5..7]), DigitsValue(s[8..10]))
  }

  /** `NaiveDate::parse_from_str(&s[..10], "%Y-%m-%d")` on a string of the
      fast-path shape: the date the first ten bytes spell, if it exists. */
  function ParseShaped(s: seq<Byte>): (r: Option<Date>)
    requires HasDateShape(s)
    ensures r.Some? <==> ValidDate(Spelled(s))
    ensures r.Some? ==> r.value == Spelled(s) && 0 <= r.value.year <= 9999
  {
    Value4(s[0..4]);
    if ValidDate(Spelled(s)) then Some(Spelled(s)) else None
  }

  /** `NaiveDate::parse_from_str(key, "%Y-%m-%d")` for a daily-map key,
      restricted to the zero-padded ten-byte spelling. */
  function ParseDateKey(k: seq<Byte>): Option<Date> {
    if |k| == 10 && HasDateShape(k) then ParseShaped(k) else None
  }

  // ---------------------------------------------------------------- optional date

  datatype DateError = InvalidDate | InvalidTimestamp | InvalidDateKey

  /** `deserialize_optional_naive_date`. `raw` is the JSON value (`None`
      for an absent or null field); `rfc3339` stands for
      `DateTime::parse_from_rfc3339(..).date_naive()`. */
  function DecodeOptionalDate(raw: Option<seq<Byte>>, rfc3339: seq<Byte> -> Option<Date>)
    : (r: Result<Option<Date>, DateError>)
    requires raw.Some? ==> ShapeTestCannotPanic(raw.value)
    ensures r == Ok(None) <==> raw.None? || raw.value == []
    ensures r.Ok? && r.value.Some? ==>
              raw.Some? && (ValidDate(r.value.value) || (!HasDateShape(raw.value) && rfc3339(raw.value) == r.value))
    ensures raw.Some? && HasDateShape(raw.value) ==>
              (r.Ok? <==> ValidDate(Spelled(raw.value))) &&
              (r.Ok? ==> r.value == Some(Spelled(raw.value)))
    ensures raw.Some? && raw.value != [] && !HasDateShape(raw.value) ==>
              (r.Ok? <==> rfc3339(raw.value).Some?) &&
              (r.Ok? ==> r.value == rfc3339(raw.value))
    ensures r.Err? ==> raw.Some? && r.error == (if HasDateShape(raw.value) then InvalidDate else InvalidTimestamp)
  {
    match raw
    case None => Ok(None)
    case Some(s) =>
      if s == [] then Ok(None)
      else
        var parsed := if HasDateShape(s) then ParseShaped(s) else rfc3339(s);
        match parsed
        case Some(d) => Ok(Some(d))
        case None => Err(if HasDateShape(s) then InvalidDate else InvalidTimestamp)
  }

  /** On the fast path only the first ten bytes matter: a time suffix or
      any other tail is ignored. */
  lemma FastPathIgnoresSuffix(s: seq<Byte>, t: seq<Byte>, rfc3339: seq<Byte> -> Option<Date>)
    requires HasDateShape(s) && HasDateShape(t) && s[..10] == t[..10]
    requires ShapeTestCannotPanic(s) && ShapeTestCannotPanic(t)
    ensures DecodeOptionalDate(Some(s), rfc3339) == DecodeOptionalDate(Some(t), rfc3339)
  {
    assert s[0..4] == s[..10][0..4] == t[0..4];
    assert s[5..7] == s[..10][5..7] == t[5..7];
    assert s[8..10] == s[..10][8..10] == t[8..10];
  }

  /** The fields a shaped string spells, digit by digit. */
  lemma SpelledDigits(s: seq<Byte>)
    requires HasDateShape(s)
    ensures Spelled(s).year == 1000 * (s[0] - ZERO) + 100 * (s[1] - ZERO) + 10 * (s[2] - ZERO) + (s[3] - ZERO)
    ensures Spelled(s).month == 10 * (s[5] - ZERO) + (s[6] - ZERO)
    ensures Spelled(s).day == 10 * (s[8] - ZERO) + (s[9] - ZERO)
  {
    Value4(s[0..4]);
    Value2(s[5..7]);
    Value2(s[8..10]);
  }

  /** Shaped strings that name no calendar day are errors, not `None`:
      month 13, ... */
  lemma MonthThirteenRejected(rfc3339: seq<Byte> -> Option<Date>)
    ensures DecodeOptionalDate(Some([0x32, 0x30, 0x32, 0x34, DASH, 0x31, 0x33, DASH, 0x30, 0x31]), rfc3339)
              == Err(InvalidDate)
  {
    SpelledDigits([0x32, 0x30, 0x32, 0x34, DASH, 0x31, 0x33, DASH, 0x30, 0x31]);
  }

  /** ... February 30, ... */
  lemma FebruaryThirtiethRejected(rfc3339: seq<Byte> -> Option<Date>)
    ensures DecodeOptionalDate(Some([0x32, 0x30, 0x32, 0x34, DASH, 0x30, 0x32, DASH, 0x33, 0x30]), rfc3339)
              == Err(InvalidDate)
  {
    SpelledDigits([0x32, 0x30, 0x32, 0x34, DASH, 0x30, 0x32, DASH, 0x33, 0x30]);
  }

  /** ... and February 29 of a common year, while February 29 of a leap
      year is accepted. */
  lemma LeapDayOnlyInLeapYears(rfc3339: seq<Byte> -> Option<Date>)
    ensures DecodeOptionalDate(Some([0x32, 0x30, 0x32, 0x33, DASH, 0x30, 0x32, DASH, 0x32, 0x39]), rfc3339)
              == Err(InvalidDate)
    ensures DecodeOptionalDate(Some([0x32, 0x30, 0x32, 0x34, DASH, 0x30, 0x32, DASH, 0x32, 0x39]), rfc3339)
              == Ok(Some(Date(2024, 2, 29)))
  {
    SpelledDigits([0x32, 0x30, 0x32, 0x33, DASH, 0x30, 0x32, DASH, 0x32, 0x39]);
    SpelledDigits([0x32, 0x30, 0x32, 0x34, DASH, 0x30, 0x32, DASH, 0x32, 0x39]);
  }

  // ---------------------------------------------------------------- daily map

  /** `deserialize_date_map`: every key must parse as a date, otherwise
      the whole map is rejected; values are carried over unchanged. */
  function DecodeDateMap(m: map<seq<Byte>, U32>): (r: Result<map<Date, U32>, DateError>)
    ensures r.Err? <==> exists k :: k in m && ParseDateKey(k).None?
    ensures r.Ok? ==> forall k :: k in m ==>
              ParseDateKey(k).Some? && ParseDateKey(k).value in r.value &&
              r.value[ParseDateKey(k).value] == m[k]
    ensures r.Ok? ==> forall d :: d in r.value ==>
              ValidDate(d) && 0 <= d.year <= 9999 && FormatDate(d) in m && r.value[d] == m[FormatDate(d)]
  {
    if exists k :: k in m && ParseDateKey(k).None? then Err(InvalidDateKey)
    else
      KeysAreCanonical();
      Ok(map k | k in m :: ParseDateKey(k).value := m[k])
  }

  // ---------------------------------------------------------------- canonical spelling

  /** Two zero-padded decimal digits. */
  function Pad2(n: nat): (s: seq<Byte>)
    requires n < 100
    ensures |s| == 2 && AllDigitBytes(s)
  {
    [ZERO + n / 10, ZERO + n % 10]
  }

  /** Four zero-padded decimal digits. */
  function Pad4(n: nat): (s: seq<Byte>)
    requires n < 10000
    ensures |s| == 4 && AllDigitBytes(s)
  {
    Pad2(n / 100) + Pad2(n % 100)
  }

  /** `date.format("%Y-%m-%d")` for a year of at most four digits. */
  function FormatDate(d: Date): (s: seq<Byte>)
    requires ValidDate(d) && 0 <= d.year <= 9999
    ensures |s| == 10 && HasDateShape(s)
  {
    Pad4(d.year) + [DASH] + Pad2(d.month) + [DASH] + Pad2(d.day)
  }

  lemma Value2(s: seq<Byte>)
    requires |s| == 2 && AllDigitBytes(s)
    ensures DigitsValue(s) == 10 * (s[0] - ZERO) + (s[1] - ZERO)
    ensures Pad2(DigitsValue(s)) == s
  {
    assert s[..1][..0] == [];
    assert DigitsValue(s[..1]) == s[0] - ZERO;
  }

  lemma Value4(s: seq<Byte>)
    requires |s| == 4 && AllDigitBytes(s)
    ensures DigitsValue(s) == 100 * DigitsValue(s[..2]) + DigitsValue(s[2..])
    ensures DigitsValue(s) == 1000 * (s[0] - ZERO) + 100 * (s[1] - ZERO) + 10 * (s[2] - ZERO) + (s[3] - ZERO)
    ensures DigitsValue(s) < 10000
    ensures Pad4(DigitsValue(s)) == s
  {
    assert s[..3][..2] == s[..2];
    assert s[..2][..1] == s[..1];
    assert s[..1][..0] == [];
    assert DigitsValue(s[..1]) == s[0] - ZERO;
    assert DigitsValue(s[..2]) == 10 * (s[0] - ZERO) + (s[1] - ZERO);
    assert DigitsValue(s[..3]) == 100 * (s[0] - ZERO) + 10 * (s[1] - ZERO) + (s[2] - ZERO);
    Value2(s[..2]);
    Value2(s[2..]);
    var v := DigitsValue(s);
    assert v / 100 == DigitsValue(s[..2]) && v % 100 == DigitsValue(s[2..]);
    assert s == s[..2] + s[2..];
  }

  /** Pad2 and Pad4 spell their number. */
  lemma PadValue(n: nat)
    requires n < 10000
    ensures n < 100 ==> DigitsValue(Pad2(n)) == n
    ensures DigitsValue(Pad4(n)) == n
  {
    if n < 100 { Value2(Pad2(n)); }
    var p := Pad4(n);
    Value2(Pad2(n / 100));
    Value2(Pad2(n % 100));
    Value4(p);
    assert p[..2] == Pad2(n / 100) && p[2..] == Pad2(n % 100);
  }

  /** Formatting then parsing gives the date back. */
  lemma FormatThenParse(d: Date)
    requires ValidDate(d) && 0 <= d.year <= 9999
    ensures ParseDateKey(FormatDate(d)) == Some(d)
  {
    var s := FormatDate(d);
    assert s[0..4] == Pad4(d.year) && s[5..7] == Pad2(d.month) && s[8..10] == Pad2(d.day);
    PadValue(d.year);
    PadValue(d.month);
    PadValue(d.day);
  }

  /** A key the ten-byte reader accepts is the canonical spelling of its
      date, so two keys it accepts never collide on one date. */
  lemma ParseThenFormat(k: seq<Byte>)
    requires ParseDateKey(k).Some?
    ensures FormatDate(ParseDateKey(k).value) == k
  {
    Value4(k[0..4]);
    Value2(k[5..7]);
    Value2(k[8..10]);
    assert k == k[0..4] + [DASH] + k[5..7] + [DASH] + k[8..10];
  }

  lemma KeysAreCanonical()
    ensures forall k :: ParseDateKey(k).Some? ==> FormatDate(ParseDateKey(k).value) == k
  {
    forall k | ParseDateKey(k).Some? {
      ParseThenFormat(k);
    }
  }
}
