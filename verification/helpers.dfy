/** helpers.py: cleaning up a `Date` header, parsing it with `strptime`, the `strftime`
    reductions built on that parse, and `chunks`. Everything here is a pure function. */
module Helpers {
  import opened Wrappers
  import opened Decimal

  // ------------------------------------------------------------------
  // The two regular expressions of remove_dup_timezone
  // ------------------------------------------------------------------

  /** Python's `\s` in a `str` pattern: exactly the characters for which `str.isspace()` holds. */
  predicate IsSpace(c: char) {
    c == ' ' || ('\t' <= c <= '\r') || ('\U{1C}' <= c <= '\U{1F}') || c == '\U{85}' || c == '\U{A0}'
    || c == '\U{1680}' || ('\U{2000}' <= c <= '\U{200A}') || c == '\U{2028}' || c == '\U{2029}'
    || c == '\U{202F}' || c == '\U{205F}' || c == '\U{3000}'
  }

  /** The end of the run of whitespace that starts at `i` (a greedy `\s*` from `i`). */
  function SpanEnd(s: string, i: nat): (j: nat)
    requires i <= |s|
    ensures i <= j <= |s|
    ensures forall k :: i <= k < j ==> IsSpace(s[k])
    ensures j < |s| ==> !IsSpace(s[j])
    decreases |s| - i
  {
    if i < |s| && IsSpace(s[i]) then SpanEnd(s, i + 1) else i
  }

  /** Where `$` lets a match end. Without MULTILINE, `$` matches at the end of the string and
      just before a final newline; a match of `\)$` can only end at the second when there is
      a final newline (that newline is not a `)`), so one end position remains. */
  function LineEnd(s: string): (e: nat)
    ensures e <= |s|
    ensures e == |s| || (e == |s| - 1 && s[e] == '\n')
  {
    if |s| > 0 && s[|s| - 1] == '\n' then |s| - 1 else |s|
  }

  /** `\s+\(.{1,20}\)$` matches starting at `i`: whitespace from `i` up to a `(`, then one to
      twenty characters other than a newline, then a `)` at the line end. The whitespace run
      cannot stop early, because `(` is not whitespace. */
  predicate CommentAt(s: string, i: nat) {
    var e := LineEnd(s);
    i < e &&
    var j := SpanEnd(s, i);
    i < j && j + 3 <= e <= j + 22 && s[j] == '(' && s[e - 1] == ')'
    && forall k :: j < k < e - 1 ==> s[k] != '\n'
  }

  /** The leftmost position, from `i` on, at which the comment pattern matches. */
  function FindComment(s: string, i: nat): (r: Option<nat>)
    requires i <= |s|
    ensures r.Some? ==> i <= r.value < |s| && CommentAt(s, r.value)
    ensures r.Some? ==> forall k :: i <= k < r.value ==> !CommentAt(s, k)
    ensures r.None? ==> forall k :: i <= k ==> !CommentAt(s, k)
    decreases |s| - i
  {
    if i == |s| then None
    else if CommentAt(s, i) then Some(i)
    else FindComment(s, i + 1)
  }

  /** `re.sub(r'\s+\(.{1,20}\)$', '', s)`: the trailing parenthesised comment (the CFWS of
      RFC 5322 section 3.2.2, such as ` (UTC)`) and the whitespace before it are removed;
      a final newline, if any, stays. */
  function StripComment(s: string): (r: string)
    ensures |r| <= |s|
    ensures (forall i :: !CommentAt(s, i)) ==> r == s
    ensures forall i: nat :: CommentAt(s, i) && (forall k: nat :: k < i ==> !CommentAt(s, k)) ==>
      i <= LineEnd(s) && r == s[..i] + s[LineEnd(s)..]
  {
    match FindComment(s, 0)
    case None => s
    case Some(i) => s[..i] + s[LineEnd(s)..]
  }

  /** `^.{1,4},\s+` matches with `.{1,4}` covering `s[..k]`: a comma at `k`, whitespace after it,
      and no newline before it. */
  predicate WeekdayAt(s: string, k: nat) {
    1 <= k <= 4 && k + 1 < |s| && s[k] == ',' && IsSpace(s[k + 1])
    && forall m :: 0 <= m < k ==> s[m] != '\n'
  }

  /** The greedy `.{1,4}` tries four characters first, then three, two and one. */
  function WeekdayComma(s: string): (r: Option<nat>)
    ensures r.Some? ==> WeekdayAt(s, r.value) && forall k :: r.value < k ==> !WeekdayAt(s, k)
    ensures r.None? ==> forall k :: !WeekdayAt(s, k)
  {
    if WeekdayAt(s, 4) then Some(4)
    else if WeekdayAt(s, 3) then Some(3)
    else if WeekdayAt(s, 2) then Some(2)
    else if WeekdayAt(s, 1) then Some(1)
    else None
  }

  /** `re.sub(r'^.{1,4},\s+', '', s)`: a leading day-of-week such as `Tue, ` is removed
      together with all the whitespace after its comma. */
  function StripWeekday(s: string): (r: string)
    ensures |r| <= |s|
    ensures (forall k :: !WeekdayAt(s, k)) ==> r == s
    ensures forall k: nat :: WeekdayAt(s, k) && (forall k': nat :: k < k' ==> !WeekdayAt(s, k')) ==>
      r == s[SpanEnd(s, k + 1)..]
  {
    match WeekdayComma(s)
    case None => s
    case Some(k) => s[SpanEnd(s, k + 1)..]
  }

  /** remove_dup_timezone: first the trailing comment, then the leading day-of-week. */
  function RemoveDupTimezone(s: string): (r: string)
    ensures |r| <= |s|
  {
    StripWeekday(StripComment(s))
  }

  /** A string that does not end in `)` (before an optional final newline) keeps its tail. */
  lemma CommentNeedsParen(s: string)
    requires LineEnd(s) == 0 || s[LineEnd(s) - 1] != ')'
    ensures StripComment(s) == s
  {
  }

  /** Without a final newline, what remove_dup_timezone keeps is one contiguous piece of its input. */
  lemma {:induction false} RemoveDupTimezoneKeepsSlice(s: string)
    requires LineEnd(s) == |s|
    ensures exists a, b :: 0 <= a <= b <= |s| && RemoveDupTimezone(s) == s[a..b]
  {
    var t := StripComment(s);
    var b := |s|;
    match FindComment(s, 0)
    case None =>
      assert t == s[0..b];
    case Some(i) =>
      b := i;
      assert t == s[0..b];
    var a := match WeekdayComma(t) case None => 0 case Some(k) => SpanEnd(t, k + 1);
    assert RemoveDupTimezone(s) == t[a..] == s[a..b];
  }

  // ------------------------------------------------------------------
  // strptime over a restricted RFC 5322 (section 3.3) date-time grammar
  // ------------------------------------------------------------------

  /** A `datetime`: naive when `offset` is `None`, otherwise aware with that many minutes east of UTC. */
  datatype DateTime = DateTime(
    year: nat, month: nat, day: nat,
    hour: nat, minute: nat, second: nat,
    offset: Option<int>)

  predicate IsLeapYear(year: nat) {
    year % 4 == 0 && (year % 100 != 0 || year % 400 == 0)
  }

  function DaysInMonth(year: nat, month: nat): nat
    requires 1 <= month <= 12
  {
    if month == 2 then (if IsLeapYear(year) then 29 else 28)
    else if month == 4 || month == 6 || month == 9 || month == 11 then 30
    else 31
  }

  /** What the `datetime` and `timezone` constructors accept: years 1 to 9999 of the proleptic
      Gregorian calendar, a real day of that month, a time of day without leap seconds and an
      offset strictly inside one day. */
  predicate ValidDateTime(dt: DateTime) {
    1 <= dt.year <= 9999 && 1 <= dt.month <= 12 && 1 <= dt.day <= DaysInMonth(dt.year, dt.month)
    && dt.hour < 24 && dt.minute < 60 && dt.second < 60
    && (dt.offset.Some? ==> -1440 < dt.offset.value < 1440)
  }

  /** `\s+`: at least one whitespace character, and all that follow. */
  function Spaces(s: string): (r: Option<string>)
    ensures r.Some? ==> |r.value| < |s|
  {
    if |s| > 0 && IsSpace(s[0]) then Some(s[SpanEnd(s, 0)..]) else None
  }

  function Colon(s: string): (r: Option<string>)
    ensures r.Some? ==> |r.value| < |s|
  {
    if |s| > 0 && s[0] == ':' then Some(s[1..]) else None
  }

  function LowerAscii(c: char): char {
    if 'A' <= c <= 'Z' then (c as int + 32) as char else c
  }

  /** The English abbreviation of month `m`, as `strftime('%b')` prints it in the C locale. */
  function MonthName(m: nat): (s: string)
    requires 1 <= m <= 12
    ensures |s| == 3 && forall i :: 0 <= i < 3 ==> ('A' <= s[i] <= 'Z') || ('a' <= s[i] <= 'z')
  {
    match m
    case 1 => "Jan" case 2 => "Feb" case 3 => "Mar" case 4 => "Apr"
    case 5 => "May" case 6 => "Jun" case 7 => "Jul" case 8 => "Aug"
    case 9 => "Sep" case 10 => "Oct" case 11 => "Nov" case _ => "Dec"
  }

  /** The month whose abbreviation is `a b c` in lower case, or 0. */
  function MonthOf(a: char, b: char, c: char): (m: nat)
    ensures m <= 12
  {
    if [a, b, c] == "jan" then 1 else if [a, b, c] == "feb" then 2
    else if [a, b, c] == "mar" then 3 else if [a, b, c] == "apr" then 4
    else if [a, b, c] == "may" then 5 else if [a, b, c] == "jun" then 6
    else if [a, b, c] == "jul" then 7 else if [a, b, c] == "aug" then 8
    else if [a, b, c] == "sep" then 9 else if [a, b, c] == "oct" then 10
    else if [a, b, c] == "nov" then 11 else if [a, b, c] == "dec" then 12
    else 0
  }

  /** `%b`: a month abbreviation in any letter case (the pattern is compiled with IGNORECASE). */
  function MonthField(s: string): (r: Option<Parsed<nat>>)
    ensures r.Some? ==> 1 <= r.value.value <= 12 && |s| >= 3 && r.value.rest == s[3..]
  {
    if |s| < 3 then None
    else
      var m := MonthOf(LowerAscii(s[0]), LowerAscii(s[1]), LowerAscii(s[2]));
      if m == 0 then None else Some(Parsed(m, s[3..]))
  }

  /** `%z` written `+HHMM` or `-HHMM`, as minutes east of UTC. The pattern allows only `0`-`5`
      as the first minute digit; `timezone()` refuses offsets of a day or more. */
  function OffsetField(s: string): (r: Option<Parsed<int>>)
    ensures r.Some? ==> -1440 < r.value.value < 1440 && |s| >= 5 && r.value.rest == s[5..]
  {
    if |s| >= 5 && (s[0] == '+' || s[0] == '-') && IsDigit(s[1]) && IsDigit(s[2])
       && '0' <= s[3] <= '5' && IsDigit(s[4]) then
      var hours := DigitValue(s[1]) * 10 + DigitValue(s[2]);
      var minutes := DigitValue(s[3]) * 10 + DigitValue(s[4]);
      if hours < 24 then
        Some(Parsed(if s[0] == '-' then -(hours * 60 + minutes) else hours * 60 + minutes, s[5..]))
      else None
    else None
  }

  /** `%Z`: the zone names every system knows, `UTC` and `GMT`, in any letter case. */
  function ZoneField(s: string): (r: Option<string>)
    ensures r.Some? ==> |s| >= 3 && r.value == s[3..]
  {
    if |s| >= 3 && ([LowerAscii(s[0]), LowerAscii(s[1]), LowerAscii(s[2])] in {"utc", "gmt"}) then
      Some(s[3..])
    else None
  }

  /** `%d`: one or two digits, or a space and a digit `1`-`9` (the last alternative of the
      pattern `strptime` uses for the day). */
  function DayField(s: string): (r: Option<Parsed<nat>>)
    ensures r.Some? ==> r.value.value < 100 && |r.value.rest| < |s|
    ensures |s| > 0 && IsDigit(s[0]) ==> r == Digits12(s)
  {
    if |s| >= 2 && s[0] == ' ' && '1' <= s[1] <= '9' then Some(Parsed(DigitValue(s[1]), s[2..]))
    else Digits12(s)
  }

  /** `%d` also reads a space followed by a digit `1`-`9` as that day. */
  lemma SpacedDayRead(c: char, tail: string)
    requires '1' <= c <= '9'
    ensures DayField([' ', c] + tail) == Some(Parsed(DigitValue(c), tail))
    ensures 1 <= DigitValue(c) <= 9
  {
    var s := [' ', c] + tail;
    assert s[0] == ' ' && s[1] == c && s[2..] == tail;
  }

  /** `%d %b %Y` (day, month, year), where each space of the format is `\s+`. */
  function DateFields(s: string): (r: Option<Parsed<(nat, nat, nat)>>)
    ensures r.Some? ==> 1 <= r.value.value.1 <= 12
  {
    var day :- DayField(s);
    var s1 :- Spaces(day.rest);
    var month :- MonthField(s1);
    var s2 :- Spaces(month.rest);
    var year :- Digits4(s2);
    Some(Parsed((day.value, month.value, year.value), year.rest))
  }

  /** `%H:%M:%S`. */
  function ClockFields(s: string): (r: Option<Parsed<(nat, nat, nat)>>)
  {
    var hour :- Digits12(s);
    var s1 :- Colon(hour.rest);
    var minute :- Digits12(s1);
    var s2 :- Colon(minute.rest);
    var second :- Digits12(s2);
    Some(Parsed((hour.value, minute.value, second.value), second.rest))
  }

  /** `%d %b %Y %H:%M:%S` followed by whatever is left; the fields must also make a `datetime`. */
  function ParseStamp(s: string): (r: Option<Parsed<DateTime>>)
    ensures r.Some? ==> ValidDateTime(r.value.value) && r.value.value.offset.None?
  {
    var date :- DateFields(s);
    var s1 :- Spaces(date.rest);
    var clock :- ClockFields(s1);
    var dt := DateTime(date.value.2, date.value.1, date.value.0, clock.value.0, clock.value.1, clock.value.2, None);
    if ValidDateTime(dt) then Some(Parsed(dt, clock.rest)) else None
  }

  /** `strptime(s, '%d %b %Y %H:%M:%S %z')`: an aware value. */
  function ParseOffsetFormat(s: string): (r: Option<DateTime>)
    ensures r.Some? ==> ValidDateTime(r.value) && r.value.offset.Some?
  {
    var stamp :- ParseStamp(s);
    var s1 :- Spaces(stamp.rest);
    var offset :- OffsetField(s1);
    if offset.rest == [] then Some(stamp.value.(offset := Some(offset.value))) else None
  }

  /** `strptime(s, '%d %b %Y %H:%M:%S %Z')`: the zone name is checked and then dropped,
      so the value is naive. */
  function ParseZoneFormat(s: string): (r: Option<DateTime>)
    ensures r.Some? ==> ValidDateTime(r.value) && r.value.offset.None?
  {
    var stamp :- ParseStamp(s);
    var s1 :- Spaces(stamp.rest);
    var s2 :- ZoneField(s1);
    if s2 == [] then Some(stamp.value) else None
  }

  /** `strptime(s, '%d %b %Y %H:%M:%S')`: a naive value, with nothing left over. */
  function ParseNaiveFormat(s: string): (r: Option<DateTime>)
    ensures r.Some? ==> ValidDateTime(r.value) && r.value.offset.None?
  {
    var stamp :- ParseStamp(s);
    if stamp.rest == [] then Some(stamp.value) else None
  }

  /** convert_date: the offset format, then the zone-name format, then the naive format, on the
      cleaned string; when the third also fails its `ValueError` escapes, so no `None` is ever
      returned. */
  function ConvertDate(s: string): (r: Result<DateTime, Exception>)
    ensures r.Ok? ==> ValidDateTime(r.value)
    ensures r.Err? ==> r.error == ValueError
    ensures r.Ok? && r.value.offset.Some? <==> ParseOffsetFormat(RemoveDupTimezone(s)).Some?
  {
    var clean := RemoveDupTimezone(s);
    match ParseOffsetFormat(clean)
    case Some(dt) => Ok(dt)
    case None =>
      match ParseZoneFormat(clean)
      case Some(dt) => Ok(dt)
      case None =>
        match ParseNaiveFormat(clean)
        case Some(dt) => Ok(dt)
        case None => Err(ValueError)
  }

  // ------------------------------------------------------------------
  // The strftime reductions
  // ------------------------------------------------------------------

  /** `s` is `dt`'s date printed as `%Y-%m-%d`: four, two and two digits, dash-separated. */
  predicate ShowsDate(s: string, dt: DateTime) {
    |s| == 10 && s[4] == '-' && s[7] == '-'
    && AllDigits(s[..4]) && Value(s[..4]) == dt.year
    && AllDigits(s[5..7]) && Value(s[5..7]) == dt.month
    && AllDigits(s[8..]) && Value(s[8..]) == dt.day
  }

  /** `s` is `dt`'s time of day printed as `%H:%M:%S`: three two-digit fields, colon-separated. */
  predicate ShowsClock(s: string, dt: DateTime) {
    |s| == 8 && s[2] == ':' && s[5] == ':'
    && AllDigits(s[..2]) && Value(s[..2]) == dt.hour
    && AllDigits(s[3..5]) && Value(s[3..5]) == dt.minute
    && AllDigits(s[6..]) && Value(s[6..]) == dt.second
  }

  /** `strftime('%Y-%m-%d')`. */
  function IsoDate(dt: DateTime): (s: string)
    requires ValidDateTime(dt)
    ensures ShowsDate(s, dt)
  {
    var y, m, d := Pad(dt.year, 4), Pad(dt.month, 2), Pad(dt.day, 2);
    var s := y + "-" + m + "-" + d;
    assert s[..4] == y && s[5..7] == m && s[8..] == d;
    s
  }

  /** `strftime('%H:%M:%S')`. */
  function ClockTime(dt: DateTime): (s: string)
    requires ValidDateTime(dt)
    ensures ShowsClock(s, dt)
  {
    var h, m, c := Pad(dt.hour, 2), Pad(dt.minute, 2), Pad(dt.second, 2);
    var s := h + ":" + m + ":" + c;
    assert s[..2] == h && s[3..5] == m && s[6..] == c;
    s
  }

  /** reduce_to_date: the zero-padded `YYYY-MM-DD` of the parse; raises when the parse does. */
  function ReduceToDate(s: string): (r: Result<string, Exception>)
    ensures r.Ok? <==> ConvertDate(s).Ok?
    ensures r.Ok? ==> ShowsDate(r.value, ConvertDate(s).value)
  {
    var dt :- ConvertDate(s);
    Ok(IsoDate(dt))
  }

  /** reduce_to_datetime: `YYYY-MM-DD HH:MM:SS` of the same parse. */
  function ReduceToDatetime(s: string): (r: Result<string, Exception>)
    ensures r.Ok? <==> ConvertDate(s).Ok?
    ensures r.Ok? ==> (
      && |r.value| == 19 && r.value[10] == ' '
      && ShowsDate(r.value[..10], ConvertDate(s).value)
      && ShowsClock(r.value[11..], ConvertDate(s).value))
  {
    var dt :- ConvertDate(s);
    var date, clock := IsoDate(dt), ClockTime(dt);
    var t := date + " " + clock;
    assert t[..10] == date && t[11..] == clock;
    Ok(t)
  }

  /** reduce_to_time: the hour as two digits, `00` to `23`. */
  function ReduceToTime(s: string): (r: Result<string, Exception>)
    ensures r.Ok? <==> ConvertDate(s).Ok?
    ensures r.Ok? ==> (
      && |r.value| == 2 && AllDigits(r.value)
      && Value(r.value) == ConvertDate(s).value.hour && Value(r.value) < 24)
  {
    var dt :- ConvertDate(s);
    Ok(Pad(dt.hour, 2))
  }

  /** reduce_to_year: `int()` of the printed `%Y`, which is the parsed year. */
  function ReduceToYear(s: string): (r: Result<int, Exception>)
    ensures r.Ok? <==> ConvertDate(s).Ok?
    ensures r.Ok? ==> r.value == ConvertDate(s).value.year && 1 <= r.value <= 9999
  {
    var dt :- ConvertDate(s);
    Ok(Value(Pad(dt.year, 4)))
  }

  // ------------------------------------------------------------------
  // chunks
  // ------------------------------------------------------------------

  function Flatten<T>(xss: seq<seq<T>>): seq<T> {
    if xss == [] then [] else xss[0] + Flatten(xss[1..])
  }

  function Min(a: nat, b: nat): nat { if a <= b then a else b }

  /** The number of chunks: the length divided by the size, rounded up. */
  function ChunkCount(len: nat, n: nat): nat
    requires n > 0
  {
    (len + n - 1) / n
  }

  /** chunks: consecutive slices `l[i:i + n]` for `i` in `range(0, len(l), n)`. */
  function Chunks<T>(l: seq<T>, n: nat): (r: seq<seq<T>>)
    requires n > 0
    ensures Flatten(r) == l
    ensures |r| == ChunkCount(|l|, n)
    ensures forall i :: 0 <= i < |r| - 1 ==> |r[i]| == n
    ensures |r| > 0 ==> 1 <= |r[|r| - 1]| <= n
    decreases |l|
  {
    if |l| == 0 then []
    else
      var k := Min(n, |l|);
      var rest := Chunks(l[k..], n);
      assert l == l[..k] + l[k..];
      ChunkCountStep(|l|, n);
      [l[..k]] + rest
  }

  lemma ChunkCountStep(len: nat, n: nat)
    requires 0 < len && 0 < n
    ensures ChunkCount(len - Min(n, len), n) + 1 == ChunkCount(len, n)
  {
    if n <= len {
      DivStep(len - n + n - 1, n);
    } else {
      assert ChunkCount(len, n) == 1 by {
        assert n <= len + n - 1 < 2 * n;
      }
    }
  }

  lemma DivStep(a: nat, n: nat)
    requires 0 < n
    ensures (a + n) / n == a / n + 1
  {
    var q, r := a / n, a % n;
    assert a + n == (q + 1) * n + r;
    DivUnique(a + n, n, q + 1, r);
  }

  /** Euclidean division has one quotient. */
  lemma DivUnique(x: nat, n: nat, q: int, r: int)
    requires 0 < n && 0 <= r < n && x == q * n + r
    ensures x / n == q
  {
    var q0, r0 := x / n, x % n;
    assert (q0 - q) * n == r - r0;
    if q0 > q {
      MulAtLeast(q0 - q, n);
    } else if q0 < q {
      MulAtLeast(q - q0, n);
    }
  }

  lemma MulAtLeast(d: int, n: nat)
    requires d >= 1
    ensures d * n >= n
  {
    assert d * n == (d - 1) * n + n;
  }
}

/** The inverse of convert_date on well-formed headers: printing a `datetime` the way a mail
    `Date` header carries it (RFC 5322 section 3.3) and reading it back. */
module DateHeaders {
  import opened Wrappers
  import opened Decimal
  import opened Helpers

  /** `%z` as printed: a sign, then hours and minutes in two digits each. */
  function ZoneText(offset: int): (s: string)
    requires -1440 < offset < 1440
    ensures |s| == 5
  {
    var a := if offset < 0 then -offset else offset;
    [if offset < 0 then '-' else '+'] + (Pad(a / 60, 2) + Pad(a % 60, 2))
  }

  /** `HH:MM:SS` followed by `tail`. */
  function ClockText(dt: DateTime, tail: string): string
    requires ValidDateTime(dt)
  {
    Pad(dt.hour, 2) + (":" + (Pad(dt.minute, 2) + (":" + (Pad(dt.second, 2) + tail))))
  }

  /** `D Mon YYYY HH:MM:SS` (the day without a leading zero) followed by `tail`. */
  function Stamped(dt: DateTime, tail: string): string
    requires ValidDateTime(dt)
  {
    Short(dt.day) + (" " + (MonthName(dt.month) + (" " + (Pad(dt.year, 4) + (" " + ClockText(dt, tail))))))
  }

  /** The date-time of RFC 5322 section 3.3 without its optional day-of-week; the zone is
      printed for an aware value and left out for a naive one. */
  function HeaderDate(dt: DateTime): string
    requires ValidDateTime(dt)
  {
    Stamped(dt, if dt.offset.Some? then " " + ZoneText(dt.offset.value) else "")
  }

  /** Characters of a printed date other than its separating spaces. */
  predicate WordChar(c: char) {
    IsDigit(c) || ('A' <= c <= 'Z') || ('a' <= c <= 'z') || c == ':' || c == '+' || c == '-'
  }

  /** Words of `WordChar`s separated by single spaces, with no space at the end. */
  predicate Plain(s: string) {
    forall i {:trigger s[i]} :: 0 <= i < |s| ==> WordChar(s[i]) || (s[i] == ' ' && i + 1 < |s| && WordChar(s[i + 1]))
  }

  lemma PlainJoin(a: string, b: string)
    requires Plain(a) && Plain(b)
    ensures Plain(a + b)
  {
    var s := a + b;
    forall i | 0 <= i < |s|
      ensures WordChar(s[i]) || (s[i] == ' ' && i + 1 < |s| && WordChar(s[i + 1]))
    {
      if i < |a| {
        assert s[i] == a[i];
        if !WordChar(a[i]) {
          assert s[i + 1] == a[i + 1];
        }
      } else {
        assert s[i] == b[i - |a|];
        if !WordChar(b[i - |a|]) {
          assert s[i + 1] == b[i - |a| + 1];
        }
      }
    }
  }

  lemma PlainAfter(c: char, b: string)
    requires c == ' ' || WordChar(c)
    requires Plain(b) && |b| > 0 && WordChar(b[0])
    ensures Plain([c] + b)
  {
    var s := [c] + b;
    forall i | 1 <= i < |s|
      ensures WordChar(s[i]) || (s[i] == ' ' && i + 1 < |s| && WordChar(s[i + 1]))
    {
      assert s[i] == b[i - 1];
      if !WordChar(b[i - 1]) {
        assert s[i + 1] == b[i];
      }
    }
  }

  lemma DigitsPlain(s: string)
    requires AllDigits(s)
    ensures Plain(s)
  {
  }

  lemma {:induction false} StampedPlain(dt: DateTime, tail: string)
    requires ValidDateTime(dt) && Plain(tail)
    ensures Plain(Stamped(dt, tail)) && IsDigit(Stamped(dt, tail)[0])
  {
    var t10 := Pad(dt.second, 2) + tail;
    DigitsPlain(Pad(dt.second, 2));
    PlainJoin(Pad(dt.second, 2), tail);
    var t9 := ":" + t10;
    PlainAfter(':', t10);
    var t8 := Pad(dt.minute, 2) + t9;
    DigitsPlain(Pad(dt.minute, 2));
    PlainJoin(Pad(dt.minute, 2), t9);
    var t7 := ":" + t8;
    PlainAfter(':', t8);
    var t6 := Pad(dt.hour, 2) + t7;
    DigitsPlain(Pad(dt.hour, 2));
    PlainJoin(Pad(dt.hour, 2), t7);
    assert t6 == ClockText(dt, tail);
    var t5 := " " + t6;
    PlainAfter(' ', t6);
    var t4 := Pad(dt.year, 4) + t5;
    DigitsPlain(Pad(dt.year, 4));
    PlainJoin(Pad(dt.year, 4), t5);
    var t3 := " " + t4;
    PlainAfter(' ', t4);
    var t2 := MonthName(dt.month) + t3;
    PlainJoin(MonthName(dt.month), t3);
    var t1 := " " + t2;
    PlainAfter(' ', t2);
    var t0 := Short(dt.day) + t1;
    DigitsPlain(Short(dt.day));
    PlainJoin(Short(dt.day), t1);
    assert t0 == Stamped(dt, tail);
    assert t0[0] == Short(dt.day)[0];
  }

  lemma {:induction false} HeaderDatePlain(dt: DateTime)
    requires ValidDateTime(dt)
    ensures Plain(HeaderDate(dt)) && |HeaderDate(dt)| > 0 && IsDigit(HeaderDate(dt)[0])
  {
    var tail := if dt.offset.Some? then " " + ZoneText(dt.offset.value) else "";
    if dt.offset.Some? {
      var z := ZoneText(dt.offset.value);
      DigitsPlain(z[1..]);
      assert z == [z[0]] + z[1..];
      PlainAfter(z[0], z[1..]);
      assert tail == [' '] + z;
      PlainAfter(' ', z);
    }
    StampedPlain(dt, tail);
  }

  lemma SpacesRead(r: string)
    requires |r| == 0 || !IsSpace(r[0])
    ensures Spaces(" " + r) == Some(r)
  {
    var s := " " + r;
    assert s[1..] == r;
    assert SpanEnd(s, 0) == 1 by {
      if 1 < |s| {
        assert s[1] == r[0];
      }
    }
  }

  lemma ColonRead(r: string)
    ensures Colon(":" + r) == Some(r)
  {
    assert (":" + r)[1..] == r;
  }

  lemma MonthRead(m: nat, r: string)
    requires 1 <= m <= 12
    ensures MonthField(MonthName(m) + r) == Some(Parsed(m, r))
  {
    var s := MonthName(m) + r;
    assert s[3..] == r;
    assert s[0] == MonthName(m)[0] && s[1] == MonthName(m)[1] && s[2] == MonthName(m)[2];
    MonthOfName(m);
  }

  /** Each abbreviation, lower-cased, is recognised as its own month. */
  lemma MonthOfName(m: nat)
    requires 1 <= m <= 12
    ensures MonthOf(LowerAscii(MonthName(m)[0]), LowerAscii(MonthName(m)[1]), LowerAscii(MonthName(m)[2])) == m
  {
    var n := MonthName(m);
    var low := [LowerAscii(n[0]), LowerAscii(n[1]), LowerAscii(n[2])];
    if m == 1 { assert low == "jan"; }
    else if m == 2 { assert low == "feb"; }
    else if m == 3 { assert low == "mar"; }
    else if m == 4 { assert low == "apr"; }
    else if m == 5 { assert low == "may"; }
    else if m == 6 { assert low == "jun"; }
    else if m == 7 { assert low == "jul"; }
    else if m == 8 { assert low == "aug"; }
    else if m == 9 { assert low == "sep"; }
    else if m == 10 { assert low == "oct"; }
    else if m == 11 { assert low == "nov"; }
    else { assert low == "dec"; }
  }

  lemma {:induction false} ClockRead(dt: DateTime, tail: string)
    requires ValidDateTime(dt)
    requires StartsWithNonDigit(tail)
    ensures ClockFields(ClockText(dt, tail)) == Some(Parsed((dt.hour, dt.minute, dt.second), tail))
  {
    var t10 := Pad(dt.second, 2) + tail;
    Digits12Reads(Pad(dt.second, 2), dt.second, tail);
    var t9 := ":" + t10;
    ColonRead(t10);
    var t8 := Pad(dt.minute, 2) + t9;
    Digits12Reads(Pad(dt.minute, 2), dt.minute, t9);
    var t7 := ":" + t8;
    ColonRead(t8);
    Digits12Reads(Pad(dt.hour, 2), dt.hour, t7);
  }

  lemma {:induction false} DateRead(dt: DateTime, tail: string)
    requires ValidDateTime(dt)
    requires StartsWithNonDigit(tail)
    ensures DateFields(Short(dt.day) + (" " + (MonthName(dt.month) + (" " + (Pad(dt.year, 4) + tail)))))
      == Some(Parsed((dt.day, dt.month, dt.year), tail))
  {
    var t4 := Pad(dt.year, 4) + tail;
    Digits4Reads(Pad(dt.year, 4), tail);
    var t3 := " " + t4;
    SpacesRead(t4);
    var t2 := MonthName(dt.month) + t3;
    MonthRead(dt.month, t3);
    var t1 := " " + t2;
    assert !IsSpace(t2[0]) by {
      assert t2[0] == MonthName(dt.month)[0];
    }
    SpacesRead(t2);
    Digits12Reads(Short(dt.day), dt.day, t1);
    assert (Short(dt.day) + t1)[0] == Short(dt.day)[0];
    DateFieldsSteps(Short(dt.day) + t1, t1, t2, t3, t4, tail, dt.day, dt.month, dt.year);
  }

  /** `DateFields` reads its five fields one after the other. */
  lemma DateFieldsSteps(s: string, t1: string, t2: string, t3: string, t4: string, tail: string,
                        day: nat, month: nat, year: nat)
    requires DayField(s) == Some(Parsed(day, t1)) && Spaces(t1) == Some(t2)
    requires MonthField(t2) == Some(Parsed(month, t3)) && Spaces(t3) == Some(t4)
    requires Digits4(t4) == Some(Parsed(year, tail))
    ensures DateFields(s) == Some(Parsed((day, month, year), tail))
  {
  }

  /** The stamp reads back as the naive value of its fields, leaving `tail`. */
  lemma {:induction false} StampRead(dt: DateTime, tail: string)
    requires ValidDateTime(dt)
    requires |tail| == 0 || tail[0] == ' '
    ensures ParseStamp(Stamped(dt, tail)) == Some(Parsed(dt.(offset := None), tail))
  {
    var s := Stamped(dt, tail);
    var clock := ClockText(dt, tail);
    DateRead(dt, " " + clock);
    var date := DateFields(s);
    assert date == Some(Parsed((dt.day, dt.month, dt.year), " " + clock));
    SpacesRead(clock);
    ClockRead(dt, tail);
    var dt0 := DateTime(dt.year, dt.month, dt.day, dt.hour, dt.minute, dt.second, None);
    assert dt0 == dt.(offset := None) && ValidDateTime(dt0);
  }

  lemma {:induction false} ZoneRead(offset: int)
    requires -1440 < offset < 1440
    ensures OffsetField(ZoneText(offset)) == Some(Parsed(offset, []))
  {
    var a := if offset < 0 then -offset else offset;
    var h, m := Pad(a / 60, 2), Pad(a % 60, 2);
    var s := ZoneText(offset);
    ValueOfTwo(h);
    ValueOfTwo(m);
    assert s[1] == h[0] && s[2] == h[1] && s[3] == m[0] && s[4] == m[1];
    assert s[5..] == [];
  }

  /** A string with no comma and no trailing `)` is left alone by remove_dup_timezone. */
  lemma {:induction false} PlainIsClean(s: string)
    requires Plain(s)
    ensures RemoveDupTimezone(s) == s
  {
    if |s| > 0 {
      assert WordChar(s[|s| - 1]);
    }
    CommentNeedsParen(s);
    forall k: nat ensures !WeekdayAt(s, k) {
      if 1 <= k < |s| {
        assert WordChar(s[k]) || s[k] == ' ';
      }
    }
  }

  /** convert_date reads a printed date back: aware values through the offset format, naive
      ones through the naive format. */
  lemma {:induction false} ConvertDateRoundTrip(dt: DateTime)
    requires ValidDateTime(dt)
    ensures ConvertDate(HeaderDate(dt)) == Ok(dt)
  {
    var f := HeaderDate(dt);
    assert RemoveDupTimezone(f) == f by {
      HeaderDatePlain(dt);
      PlainIsClean(f);
    }
    if dt.offset.Some? {
      AwareRead(dt);
      ConvertDateFirstFormat(f, dt);
    } else {
      NaiveRead(dt);
      ConvertDateThirdFormat(f, dt);
    }
  }

  lemma {:induction false} AwareRead(dt: DateTime)
    requires ValidDateTime(dt) && dt.offset.Some?
    ensures ParseOffsetFormat(HeaderDate(dt)) == Some(dt)
  {
    var z := ZoneText(dt.offset.value);
    StampRead(dt, " " + z);
    SpacesRead(z);
    ZoneRead(dt.offset.value);
  }

  lemma {:induction false} NaiveRead(dt: DateTime)
    requires ValidDateTime(dt) && dt.offset.None?
    ensures ParseOffsetFormat(HeaderDate(dt)) == None && ParseZoneFormat(HeaderDate(dt)) == None
    ensures ParseNaiveFormat(HeaderDate(dt)) == Some(dt)
  {
    StampRead(dt, "");
    assert dt.(offset := None) == dt;
  }

  /** When cleaning changes nothing and the offset format accepts, that is the result. */
  lemma ConvertDateFirstFormat(f: string, dt: DateTime)
    requires RemoveDupTimezone(f) == f && ParseOffsetFormat(f) == Some(dt)
    ensures ConvertDate(f) == Ok(dt)
  {
  }

  /** When cleaning changes nothing and only the naive format accepts, that is the result. */
  lemma ConvertDateThirdFormat(f: string, dt: DateTime)
    requires RemoveDupTimezone(f) == f
    requires ParseOffsetFormat(f) == None && ParseZoneFormat(f) == None && ParseNaiveFormat(f) == Some(dt)
    ensures ConvertDate(f) == Ok(dt)
  {
  }

  /** A zone name `%Z` accepts is three ASCII letters. */
  lemma ZoneWord(z: string)
    requires ZoneField(z) == Some([])
    ensures |z| == 3 && Plain(z) && WordChar(z[0]) && !IsSpace(z[0]) && OffsetField(z) == None
  {
    var low := [LowerAscii(z[0]), LowerAscii(z[1]), LowerAscii(z[2])];
    assert low == "utc" || low == "gmt";
    forall i | 0 <= i < 3
      ensures ('A' <= z[i] <= 'Z') || ('a' <= z[i] <= 'z')
    {
      assert 'a' <= low[i] <= 'z';
    }
  }

  /** After a stamp, a space and a zone name fail the offset format and pass the zone-name one. */
  lemma ZoneNameFormats(f: string, dt: DateTime, z: string)
    requires ParseStamp(f) == Some(Parsed(dt, " " + z))
    requires ZoneField(z) == Some([]) && !IsSpace(z[0]) && OffsetField(z) == None
    ensures ParseOffsetFormat(f) == None && ParseZoneFormat(f) == Some(dt)
  {
    SpacesRead(z);
  }

  /** A stamp followed by a zone name `%Z` accepts (`UTC` or `GMT`, in any letter case) is read
      by the second format, and the value is naive. */
  lemma {:induction false} ConvertDateZoneName(dt: DateTime, z: string)
    requires ValidDateTime(dt) && dt.offset.None? && ZoneField(z) == Some([])
    ensures ConvertDate(Stamped(dt, " " + z)) == Ok(dt)
  {
    ZoneWord(z);
    var f := Stamped(dt, " " + z);
    assert ParseStamp(f) == Some(Parsed(dt, " " + z)) by {
      StampRead(dt, " " + z);
      assert dt.(offset := None) == dt;
    }
    assert RemoveDupTimezone(f) == f by {
      PlainAfter(' ', z);
      StampedPlain(dt, " " + z);
      PlainIsClean(f);
    }
    ZoneNameFormats(f, dt, z);
    ConvertDateSecondFormat(f, dt);
  }

  /** When cleaning changes nothing and only the zone-name format accepts, that is the result. */
  lemma ConvertDateSecondFormat(f: string, dt: DateTime)
    requires RemoveDupTimezone(f) == f
    requires ParseOffsetFormat(f) == None && ParseZoneFormat(f) == Some(dt)
    ensures ConvertDate(f) == Ok(dt)
  {
  }

  // ------------------------------------------------------------------
  // remove_dup_timezone on a full header value
  // ------------------------------------------------------------------

  /** Every whitespace character of `p` is directly followed by a word character. */
  predicate SpacesBeforeWords(p: string) {
    forall k :: 0 <= k < |p| && IsSpace(p[k]) ==> k + 1 < |p| && WordChar(p[k + 1])
  }

  /** A trailing ` (comment)` of one to twenty characters is cut off, and nothing before it. */
  lemma {:induction false} StripCommentSuffix(p: string, z: string)
    requires SpacesBeforeWords(p)
    requires 1 <= |z| <= 20 && forall k :: 0 <= k < |z| ==> z[k] != '\n'
    ensures StripComment(p + " (" + z + ")") == p
  {
    var s := p + " (" + z + ")";
    assert LineEnd(s) == |s|;
    assert SpanEnd(s, |p|) == |p| + 1 by {
      assert s[|p|] == ' ' && s[|p| + 1] == '(';
    }
    forall k | |p| + 1 < k < |s| - 1
      ensures s[k] != '\n'
    {
      assert s[k] == z[k - |p| - 2];
    }
    assert CommentAt(s, |p|);
    forall k: nat | k < |p|
      ensures !CommentAt(s, k)
    {
      assert s[k] == p[k];
      if IsSpace(p[k]) {
        assert s[k + 1] == p[k + 1];
        assert SpanEnd(s, k + 1) == k + 1;
      }
    }
    assert s[..|p|] + s[|s|..] == p;
  }

  /** A leading day-of-week of one to four word characters is cut off with the `, ` after it. */
  lemma {:induction false} StripWeekdayPrefix(w: string, f: string)
    requires 1 <= |w| <= 4 && forall k :: 0 <= k < |w| ==> WordChar(w[k])
    requires |f| > 0 && WordChar(f[0]) && forall k :: 0 <= k < |f| ==> f[k] != ','
    ensures StripWeekday(w + ", " + f) == f
  {
    var s := w + ", " + f;
    var n := |w|;
    forall m | 0 <= m < n
      ensures s[m] != '\n'
    {
      assert s[m] == w[m];
    }
    assert WeekdayAt(s, n);
    forall k': nat | n < k'
      ensures !WeekdayAt(s, k')
    {
      if k' < |s| && k' > n + 1 {
        assert s[k'] == f[k' - n - 2];
      }
    }
    assert SpanEnd(s, n + 1) == n + 2 by {
      assert s[n + 2] == f[0];
    }
    assert s[n + 2..] == f;
  }

  /** `Tue, <date> (UTC)`: remove_dup_timezone keeps exactly the middle part. */
  lemma {:induction false} RemoveDupTimezoneOfHeader(w: string, f: string, z: string)
    requires 1 <= |w| <= 4 && forall k :: 0 <= k < |w| ==> WordChar(w[k])
    requires Plain(f) && |f| > 0 && WordChar(f[0])
    requires 1 <= |z| <= 20 && forall k :: 0 <= k < |z| ==> z[k] != '\n'
    ensures RemoveDupTimezone(w + ", " + f + " (" + z + ")") == f
  {
    var p := w + ", " + f;
    forall k | 0 <= k < |p| && IsSpace(p[k])
      ensures k + 1 < |p| && WordChar(p[k + 1])
    {
      if k == |w| + 1 {
        assert p[k + 1] == f[0];
      } else if k > |w| + 1 {
        assert p[k] == f[k - |w| - 2];
        assert p[k + 1] == f[k - |w| - 1];
      }
    }
    StripCommentSuffix(p, z);
    forall k | 0 <= k < |f|
      ensures f[k] != ','
    {
      assert WordChar(f[k]) || f[k] == ' ';
    }
    StripWeekdayPrefix(w, f);
  }

  /** `Tue, <date>` without a comment: remove_dup_timezone keeps the same middle part. */
  lemma {:induction false} RemoveDupTimezoneWithoutComment(w: string, f: string)
    requires 1 <= |w| <= 4 && forall k :: 0 <= k < |w| ==> WordChar(w[k])
    requires Plain(f) && |f| > 0 && WordChar(f[0])
    ensures RemoveDupTimezone(w + ", " + f) == f
  {
    var p := w + ", " + f;
    assert StripComment(p) == p by {
      assert WordChar(f[|f| - 1]);
      assert p[|p| - 1] == f[|f| - 1];
      CommentNeedsParen(p);
    }
    forall k | 0 <= k < |f|
      ensures f[k] != ','
    {
      assert WordChar(f[k]) || f[k] == ' ';
    }
    StripWeekdayPrefix(w, f);
  }

  /** A whole `Date` header, day-of-week and trailing zone comment included, converts back to
      the value that was printed into it. */
  lemma {:induction false} ConvertDateOfHeader(dt: DateTime, w: string, z: string)
    requires ValidDateTime(dt)
    requires 1 <= |w| <= 4 && forall k :: 0 <= k < |w| ==> WordChar(w[k])
    requires 1 <= |z| <= 20 && forall k :: 0 <= k < |z| ==> z[k] != '\n'
    ensures ConvertDate(w + ", " + HeaderDate(dt) + " (" + z + ")") == Ok(dt)
  {
    var f := HeaderDate(dt);
    var s := w + ", " + f + " (" + z + ")";
    assert RemoveDupTimezone(s) == RemoveDupTimezone(f) by {
      HeaderDatePlain(dt);
      RemoveDupTimezoneOfHeader(w, f, z);
      PlainIsClean(f);
    }
    ConvertDateOnlyReadsClean(s, f);
    ConvertDateRoundTrip(dt);
  }

  /** convert_date sees its argument only through remove_dup_timezone. */
  lemma ConvertDateOnlyReadsClean(s: string, t: string)
    requires RemoveDupTimezone(s) == RemoveDupTimezone(t)
    ensures ConvertDate(s) == ConvertDate(t)
  {
  }

  /** The value printed in the comment's example. */
  lemma {:induction false} ExampleValueValid(dt: DateTime)
    requires dt == DateTime(2019, 12, 24, 8, 25, 25, Some(0))
    ensures ValidDateTime(dt)
  {
  }

  lemma {:induction false} ExampleFields()
    ensures MonthName(12) == "Dec" && Short(24) == "24" && Pad(2019, 4) == "2019"
  {
    PadTwo(24);
  }

  lemma {:induction false} ExampleClock(dt: DateTime)
    requires dt == DateTime(2019, 12, 24, 8, 25, 25, Some(0))
    ensures ClockText(dt, " " + ZoneText(0)) == "08:25:25 +0000"
  {
    PadTwo(0);
    PadTwo(8);
    PadTwo(25);
  }

  lemma ExampleJoin(d: string, m: string, y: string, c: string)
    requires d == "24" && m == "Dec" && y == "2019" && c == "08:25:25 +0000"
    ensures d + (" " + (m + (" " + (y + (" " + c))))) == "24 Dec 2019 08:25:25 +0000"
  {
  }

  /** The date part of the comment's example is how `HeaderDate` prints its value. */
  lemma {:induction false} ExampleHeaderDate(dt: DateTime)
    requires dt == DateTime(2019, 12, 24, 8, 25, 25, Some(0))
    ensures ValidDateTime(dt) && HeaderDate(dt) == "24 Dec 2019 08:25:25 +0000"
  {
    ExampleValueValid(dt);
    ExampleFields();
    ExampleClock(dt);
    ExampleJoin(Short(24), MonthName(12), Pad(2019, 4), ClockText(dt, " " + ZoneText(0)));
  }

  lemma ExampleSplit()
    ensures "Tue" + ", " + "24 Dec 2019 08:25:25 +0000" + " (" + "UTC" + ")" == "Tue, 24 Dec 2019 08:25:25 +0000 (UTC)"
    ensures "Tue" + ", " + "24 Dec 2019 08:25:25 +0000" == "Tue, 24 Dec 2019 08:25:25 +0000"
  {
  }

  lemma ExampleWords(w: string, f: string, z: string)
    requires w == "Tue" && f == "24 Dec 2019 08:25:25 +0000" && z == "UTC"
    ensures Plain(f) && WordChar(f[0]) && forall k :: 0 <= k < |w| ==> WordChar(w[k])
    ensures |z| == 3 && forall k :: 0 <= k < |z| ==> z[k] != '\n'
  {
  }

  /** The comment's example: `Tue, 24 Dec 2019 08:25:25 +0000 (UTC)` loses its day-of-week
      and its parenthesised zone, as the same header without ` (UTC)` loses its day-of-week,
      and converts to 08:25:25 on 24 December 2019 at UTC+00:00. */
  lemma {:induction false} RemoveDupTimezoneExample(s: string, t: string, dt: DateTime)
    requires s == "Tue, 24 Dec 2019 08:25:25 +0000 (UTC)" && t == "Tue, 24 Dec 2019 08:25:25 +0000"
    requires dt == DateTime(2019, 12, 24, 8, 25, 25, Some(0))
    ensures RemoveDupTimezone(s) == RemoveDupTimezone(t) == "24 Dec 2019 08:25:25 +0000"
    ensures ConvertDate(s) == Ok(dt)
  {
    var w, f, z := "Tue", "24 Dec 2019 08:25:25 +0000", "UTC";
    ExampleSplit();
    ExampleWithComment(s, w, f, z);
    ExampleWithoutComment(t, w, f);
    ExampleConverts(s, f, dt);
  }

  lemma ExampleWithComment(s: string, w: string, f: string, z: string)
    requires w == "Tue" && f == "24 Dec 2019 08:25:25 +0000" && z == "UTC"
    requires s == w + ", " + f + " (" + z + ")"
    ensures RemoveDupTimezone(s) == f
  {
    ExampleWords(w, f, z);
    RemoveDupTimezoneOfHeader(w, f, z);
  }

  lemma ExampleWithoutComment(t: string, w: string, f: string)
    requires w == "Tue" && f == "24 Dec 2019 08:25:25 +0000"
    requires t == w + ", " + f
    ensures RemoveDupTimezone(t) == f
  {
    ExampleWords(w, f, "UTC");
    RemoveDupTimezoneWithoutComment(w, f);
  }

  lemma ExampleConverts(s: string, f: string, dt: DateTime)
    requires f == "24 Dec 2019 08:25:25 +0000" && RemoveDupTimezone(s) == f
    requires dt == DateTime(2019, 12, 24, 8, 25, 25, Some(0))
    ensures ConvertDate(s) == Ok(dt)
  {
    ExampleHeaderDate(dt);
    HeaderDatePlain(dt);
    PlainIsClean(f);
    ConvertDateOnlyReadsClean(s, f);
    ConvertDateRoundTrip(dt);
  }
}
