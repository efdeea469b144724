/** The dashboard's date resolver. Instants are whole seconds since the Unix
    epoch; calendar days are counted in the fixed UTC+9 zone (Japan Standard
    Time, no daylight saving), which is also the zone assumed for the host. */
module JstDates {
  import opened Outcomes
  import opened Text

  const SecondsPerDay: int := 86400
  /** UTC+9, in seconds. */
  const JstOffset: int := 32400

  /** `YYYY-MM-DD HH:MM:SS`, the only shape the CSV import accepts. */
  const SpacePattern: string := "####-##-## ##:##:##"
  /** `YYYY-MM-DDTHH:MM:SS`, ISO date-time without an offset. */
  const TeePattern: string := "####-##-##T##:##:##"
  /** `YYYY-MM-DD`, a bare date. */
  const DatePattern: string := "####-##-##"

  predicate IsLeapYear(y: int) {
    y % 4 == 0 && (y % 100 != 0 || y % 400 == 0)
  }

  function DaysInMonth(y: int, m: int): int
    requires 1 <= m <= 12
  {
    if m == 2 then (if IsLeapYear(y) then 29 else 28)
    else if m == 4 || m == 6 || m == 9 || m == 11 then 30
    else 31
  }

  /** Days from 1970-01-01 to the proleptic Gregorian date `y-m-d`. */
  function DaysFromCivil(y: int, m: int, d: int): int
    requires 1 <= m <= 12
  {
    var y' := if m <= 2 then y - 1 else y;
    var era := y' / 400;
    var yoe := y' - era * 400;
    var doy := (153 * (if m > 2 then m - 3 else m + 9) + 2) / 5 + d - 1;
    var doe := yoe * 365 + yoe / 4 - yoe / 100 + doy;
    era * 146097 + doe - 719468
  }

  datatype CivilDate = CivilDate(year: int, month: int, day: int)

  /** The proleptic Gregorian date `z` days after 1970-01-01. */
  function CivilFromDays(z: int): CivilDate {
    var z' := z + 719468;
    var era := z' / 146097;
    var doe := z' - era * 146097;
    var yoe := (doe - doe / 1460 + doe / 36524 - doe / 146096) / 365;
    var doy := doe - (365 * yoe + yoe / 4 - yoe / 100);
    var mp := (5 * doy + 2) / 153;
    var d := doy - (153 * mp + 2) / 5 + 1;
    var m := if mp < 10 then mp + 3 else mp - 9;
    CivilDate(yoe + era * 400 + (if m <= 2 then 1 else 0), m, d)
  }

  /** The calendar day (in UTC+9) holding instant `t`: what `ymd` names. */
  function Day(t: int): int {
    (t + JstOffset) / SecondsPerDay
  }

  /** The instant that starts calendar day `day` in UTC+9. */
  function Midnight(day: int): (t: int)
    ensures Day(t) == day
    ensures forall u :: Day(u) == day ==> t <= u < t + SecondsPerDay
  {
    day * SecondsPerDay - JstOffset
  }

  /** `Math.ceil(delta / one day)` for a whole-second difference. */
  function CeilDays(delta: int): (n: int)
    ensures SecondsPerDay * (n - 1) < delta <= SecondsPerDay * n
  {
    -((-delta) / SecondsPerDay)
  }

  /** The fields of a date or date-time string, read at fixed positions. */
  datatype Stamp = Stamp(year: int, month: int, day: int, hour: int, minute: int, second: int)

  function StampOf(s: string): Stamp
    requires |s| >= 10
  {
    var withTime := |s| >= 19;
    Stamp(DigitsValue(s, 0, 4), DigitsValue(s, 5, 7), DigitsValue(s, 8, 10),
          if withTime then DigitsValue(s, 11, 13) else 0,
          if withTime then DigitsValue(s, 14, 16) else 0,
          if withTime then DigitsValue(s, 17, 19) else 0)
  }

  /** The fields name a real date and time of day. */
  predicate ValidStamp(st: Stamp) {
    && 1 <= st.month <= 12
    && 1 <= st.day <= DaysInMonth(st.year, st.month)
    && 0 <= st.hour <= 23 && 0 <= st.minute <= 59 && 0 <= st.second <= 59
  }

  /** The instant at which a clock `offset` seconds ahead of UTC shows `st`. */
  function InstantAt(st: Stamp, offset: int): int
    requires ValidStamp(st)
  {
    DaysFromCivil(st.year, st.month, st.day) * SecondsPerDay
      + st.hour * 3600 + st.minute * 60 + st.second - offset
  }

  /** Reads `s` as a wall-clock reading in a zone `offset` seconds ahead of
      UTC; `None` is JavaScript's Invalid Date. */
  function ReadClock(s: string, offset: int): Option<int>
    requires |s| >= 10
  {
    var st := StampOf(s);
    if ValidStamp(st) then Some(InstantAt(st, offset)) else None
  }

  /** `new Date(s)` on a host whose zone is UTC+9: a date-time without an
      offset is local time, a bare date is UTC midnight. Other shapes are
      outside the model and read as Invalid Date. */
  function HostDate(s: string): Option<int> {
    if HasShape(s, SpacePattern) || HasShape(s, TeePattern) then ReadClock(s, JstOffset)
    else if HasShape(s, DatePattern) then ReadClock(s, 0)
    else None
  }

  /** `parseJstDate`: the three known shapes are anchored to UTC+9
      (a bare date to its midnight); the empty string is Invalid Date;
      anything else falls back to `new Date`. */
  function ParseJstDate(s: string): Option<int> {
    if s == "" then None
    else if HasShape(s, SpacePattern) then ReadClock(s, JstOffset)
    else if HasShape(s, TeePattern) then ReadClock(s, JstOffset)
    else if HasShape(s, DatePattern) then ReadClock(s, JstOffset)
    else HostDate(s)
  }

  /** `isBeforeDateOnly`: `a` falls on an earlier calendar day than `b`. */
  predicate IsBeforeDateOnly(a: int, b: int) {
    Day(a) < Day(b)
  }

  /** `isAfterDateOnly`: `a` falls on a later calendar day than `b`. */
  predicate IsAfterDateOnly(a: int, b: int) {
    Day(a) > Day(b)
  }

  /** The empty string never resolves. */
  lemma EmptyIsInvalid()
    ensures ParseJstDate("") == None
  {
  }

  /** The space-separated and `T`-separated forms of the same reading name
      the same instant. */
  lemma SpaceAndTeeAgree(s: string)
    requires HasShape(s, SpacePattern)
    ensures HasShape(s[10 := 'T'], TeePattern)
    ensures ParseJstDate(s[10 := 'T']) == ParseJstDate(s)
  {
    var t := s[10 := 'T'];
    assert SpacePattern[10] == ' ' && TeePattern[10] == 'T';
    assert forall k :: 0 <= k < |s| && k != 10 ==> SpacePattern[k] == TeePattern[k];
    assert !HasShape(t, SpacePattern) by { assert t[10] != SpacePattern[10]; }
    assert StampOf(t) == StampOf(s) by {
      DigitsValueFrame(s, t, 0, 4);
      DigitsValueFrame(s, t, 5, 7);
      DigitsValueFrame(s, t, 8, 10);
      DigitsValueFrame(s, t, 11, 13);
      DigitsValueFrame(s, t, 14, 16);
      DigitsValueFrame(s, t, 17, 19);
    }
  }

  /** Digits read from equal slices are equal. */
  lemma {:induction false} DigitsValueFrame(s: string, t: string, from: nat, to: nat)
    requires from <= to <= |s| && to <= |t|
    requires forall k :: from <= k < to ==> s[k] == t[k]
    ensures DigitsValue(s, from, to) == DigitsValue(t, from, to)
    decreases (to as int) - (from as int)
  {
    if from < to {
      DigitsValueFrame(s, t, from, to - 1);
    }
  }

  /** A bare date has none of the date-time shapes. */
  lemma BareDateShape(s: string)
    requires HasShape(s, DatePattern)
    ensures s != "" && |s| == 10
    ensures !HasShape(s, SpacePattern) && !HasShape(s, TeePattern)
    ensures ParseJstDate(s) == ReadClock(s, JstOffset)
  {
  }

  /** A bare date resolves to the first second of its calendar day. */
  lemma BareDateIsMidnight(s: string)
    requires HasShape(s, DatePattern)
    requires ParseJstDate(s).Some?
    ensures ParseJstDate(s).value == Midnight(Day(ParseJstDate(s).value))
    ensures Day(ParseJstDate(s).value) == DaysFromCivil(StampOf(s).year, StampOf(s).month, StampOf(s).day)
  {
    BareDateShape(s);
    var st := StampOf(s);
    assert st.hour == 0 && st.minute == 0 && st.second == 0;
    var d := DaysFromCivil(st.year, st.month, st.day);
    var t := ParseJstDate(s).value;
    assert t == InstantAt(st, JstOffset);
    assert t == d * SecondsPerDay - JstOffset;
    assert Day(t) == d;
  }

  /** A full timestamp falls on the calendar day its date part names, so
      comparing calendar days discards exactly the time of day. */
  lemma TimestampDayIsItsDate(s: string)
    requires HasShape(s, SpacePattern) || HasShape(s, TeePattern)
    requires ParseJstDate(s).Some?
    ensures Day(ParseJstDate(s).value) == DaysFromCivil(StampOf(s).year, StampOf(s).month, StampOf(s).day)
    ensures Midnight(Day(ParseJstDate(s).value)) <= ParseJstDate(s).value
  {
    assert s != "" && |s| == 19;
    var st := StampOf(s);
    var d := DaysFromCivil(st.year, st.month, st.day);
    var secs := st.hour * 3600 + st.minute * 60 + st.second;
    assert 0 <= secs < SecondsPerDay;
    assert ParseJstDate(s).value == d * SecondsPerDay + secs - JstOffset;
  }

  /** `new Date` and `parseJstDate` agree on date-times; on a bare date
      `new Date` is nine hours later (UTC rather than UTC+9 midnight); both
      accept exactly the same strings. */
  lemma HostDateVersusJst(s: string)
    requires s != ""
    ensures HostDate(s).Some? <==> ParseJstDate(s).Some?
    ensures (HasShape(s, SpacePattern) || HasShape(s, TeePattern)) ==> HostDate(s) == ParseJstDate(s)
    ensures HasShape(s, DatePattern) && ParseJstDate(s).Some? ==>
      HostDate(s).value == ParseJstDate(s).value + JstOffset
  {
    if HasShape(s, DatePattern) {
      assert !HasShape(s, SpacePattern) && !HasShape(s, TeePattern);
    }
  }
}
