/** The pure logic of the dashboard page: resolving chart rows, clamping the
    base date into the data's range, the chart window around it, the refill
    warning, the statistics cards, the initial base date, the month buttons
    and the refill-level stepper. React state becomes function results; the
    wall clock ("today") and `parseFloat` become parameters. */
module Dashboard {
  import opened Outcomes
  import opened Text
  import opened Sequences
  import opened JstDates
  import opened Statistics
  import CsvParser

  /** Days either side of the base date that the chart shows (`currentRange`). */
  const RangeDays: int := 30
  /** The refill level the page starts with, in m³. */
  const InitialRefillLevel: int := 600
  /** The largest refill level the stepper accepts, in m³. */
  const MaxRefillLevel: int := 1000

  /** A chart row with its text resolved once: `t` is the instant
      `parseJstDate` gives its date, `hostT` the instant `new Date` gives it,
      and the numbers are `parseFloat` of the fields (`None` is NaN). */
  datatype Reading = Reading(
    date: string,
    t: int,
    hostT: int,
    actual: Option<real>,
    predicted: Option<real>,
    error: Option<real>,
    refillFlag: string)

  /** Resolves a loaded row; `None` when its date is an Invalid Date. */
  function Resolve(r: CsvParser.DataRow, num: CsvParser.NumParser): Option<Reading> {
    match (ParseJstDate(r.date), HostDate(r.date))
    case (Some(t), Some(h)) =>
      Some(Reading(r.date, t, h, num(r.actualAmmonia), num(r.predictedAmmonia), num(r.predictionError), r.isRefill))
    case _ => None
  }

  /** A non-empty date resolves exactly when `parseJstDate` accepts it, so
      the loader's `Date.parse` filter keeps only rows every later step can
      place in time; both readings agree on date-times, and `new Date` puts
      a bare date nine hours later. */
  lemma ResolveAgrees(r: CsvParser.DataRow, num: CsvParser.NumParser)
    requires r.date != ""
    ensures Resolve(r, num).Some? <==> ParseJstDate(r.date).Some?
    ensures Resolve(r, num).Some? && (HasShape(r.date, SpacePattern) || HasShape(r.date, TeePattern)) ==>
      Resolve(r, num).value.hostT == Resolve(r, num).value.t
    ensures Resolve(r, num).Some? && HasShape(r.date, DatePattern) ==>
      Resolve(r, num).value.hostT == Resolve(r, num).value.t + JstOffset
  {
    HostDateVersusJst(r.date);
  }

  // ---------------------------------------------------------------------
  // Clamping and the chart window
  // ---------------------------------------------------------------------

  /** `ymd(a) < ymd(b)` for a possibly invalid `a` and a valid `b`: an
      Invalid Date prints as the empty string, which sorts before any date. */
  predicate DayBefore(a: Option<int>, b: int) {
    a.None? || IsBeforeDateOnly(a.value, b)
  }

  /** Where the base date lands, whether it was raised to the first row and
      whether it was lowered to the last row (the range-exceeded case). */
  datatype Clamped = Clamped(at: int, raised: bool, exceeded: bool)

  /** The clamp at the head of the chart effect: a base day before the first
      row's day moves to the first row, then a base day after the last row's
      day moves to the last row. */
  function ClampBase(base: Option<int>, first: int, last: int): (c: Clamped)
    ensures c.raised <==> DayBefore(base, first)
    ensures c.exceeded ==> c.at == last
    ensures c.raised && !c.exceeded ==> c.at == first
    ensures !c.raised && !c.exceeded ==> base == Some(c.at)
    ensures !IsAfterDateOnly(c.at, last)
    ensures Day(first) <= Day(last) ==> Day(first) <= Day(c.at) <= Day(last)
    ensures Day(first) <= Day(last) ==> (c.exceeded <==> base.Some? && IsAfterDateOnly(base.value, last))
  {
    var raised := DayBefore(base, first);
    var b := if raised then first else base.value;
    if IsAfterDateOnly(b, last) then Clamped(last, raised, true) else Clamped(b, raised, false)
  }

  /** A base date already within the data's days is left alone. */
  lemma ClampKeepsInRange(base: int, first: int, last: int)
    requires Day(first) <= Day(base) <= Day(last)
    ensures ClampBase(Some(base), first, last) == Clamped(base, false, false)
  {
  }

  /** `t` lies within `RangeDays` whole days of `base` either way; on a
      zone without daylight saving `setDate(getDate() ∓ 30)` moves the base
      by exactly that many seconds. */
  predicate InWindow(t: int, base: int) {
    base - RangeDays * SecondsPerDay <= t <= base + RangeDays * SecondsPerDay
  }

  /** The rows the chart shows: those whose full timestamp is within the
      window, in their original order. */
  function Window(rows: seq<Reading>, base: int): (w: seq<Reading>)
    ensures |w| <= |rows|
    ensures forall k :: 0 <= k < |w| ==> w[k] in rows && InWindow(w[k].t, base)
    ensures forall k :: 0 <= k < |rows| && InWindow(rows[k].t, base) ==> rows[k] in w
  {
    Filter(rows, (x: Reading) => InWindow(x.t, base))
  }

  /** The window of a concatenation is the concatenation of the windows, so
      the window keeps the rows' relative order. */
  lemma WindowConcat(a: seq<Reading>, b: seq<Reading>, base: int)
    ensures Window(a + b, base) == Window(a, base) + Window(b, base)
  {
    FilterConcat(a, b, (x: Reading) => InWindow(x.t, base));
  }

  // ---------------------------------------------------------------------
  // The refill warning
  // ---------------------------------------------------------------------

  /** The warning state: the range-exceeded notice, a refill due in `days`
      days at predicted `level` on row `date`, or the all-clear notice. */
  datatype Alert = RangeExceeded(lastDay: int) | RefillDue(days: int, level: real, date: string) | AllClear

  /** `parseFloat(predicted) || 0`: a missing prediction counts as empty. */
  function WarningLevel(x: Reading): real {
    x.predicted.GetOr(0.0)
  }

  /** The row is at or after the base instant. */
  predicate Upcoming(x: Reading, base: int) {
    x.t >= base
  }

  predicate BelowLevel(x: Reading, level: int) {
    WarningLevel(x) < level as real
  }

  /** An upcoming row predicted strictly below the refill level. */
  predicate Breaches(x: Reading, level: int, base: int) {
    Upcoming(x, base) && BelowLevel(x, level)
  }

  /** Row `i` is the first breaching row of `w`. */
  ghost predicate FirstBreach(w: seq<Reading>, level: int, base: int, i: int) {
    0 <= i < |w| && Breaches(w[i], level, base)
    && forall j :: 0 <= j < i ==> !Breaches(w[j], level, base)
  }

  /** `checkRefillWarning`: among the window's rows at or after the base,
      the first whose prediction is below the refill level raises the
      warning, with the whole days until it rounded up; none gives the
      all-clear notice. Filtering the upcoming rows and then taking the
      first one below the level is one scan for the first breaching row. */
  function CheckRefillWarning(w: seq<Reading>, level: int, base: int): (a: Alert)
    ensures a.AllClear? <==> forall i :: 0 <= i < |w| ==> !Breaches(w[i], level, base)
    ensures forall i :: FirstBreach(w, level, base, i) ==>
      a == RefillDue(CeilDays(w[i].t - base), WarningLevel(w[i]), w[i].date)
    ensures a.RefillDue? ==> a.days >= 0
  {
    match Find(w, (x: Reading) => Breaches(x, level, base))
    case None => AllClear
    case Some(i) =>
      assert FirstBreach(w, level, base, i);
      RefillDue(CeilDays(w[i].t - base), WarningLevel(w[i]), w[i].date)
  }

  /** Four daily rows from the base predicted at 650, 620, 590 and 560 m³
      against a refill level of 600 m³ warn of the third row, two days out. */
  lemma WarningExample(base: int, d0: string, d1: string, d2: string, d3: string)
    ensures var w := [
        Reading(d0, base, base, Some(650.0), Some(650.0), None, "0"),
        Reading(d1, base + SecondsPerDay, base + SecondsPerDay, Some(620.0), Some(620.0), None, "0"),
        Reading(d2, base + 2 * SecondsPerDay, base + 2 * SecondsPerDay, Some(590.0), Some(590.0), None, "0"),
        Reading(d3, base + 3 * SecondsPerDay, base + 3 * SecondsPerDay, Some(560.0), Some(560.0), None, "0")];
      CheckRefillWarning(w, 600, base) == RefillDue(2, 590.0, d2)
  {
    var w := [
        Reading(d0, base, base, Some(650.0), Some(650.0), None, "0"),
        Reading(d1, base + SecondsPerDay, base + SecondsPerDay, Some(620.0), Some(620.0), None, "0"),
        Reading(d2, base + 2 * SecondsPerDay, base + 2 * SecondsPerDay, Some(590.0), Some(590.0), None, "0"),
        Reading(d3, base + 3 * SecondsPerDay, base + 3 * SecondsPerDay, Some(560.0), Some(560.0), None, "0")];
    assert !Breaches(w[0], 600, base) && !Breaches(w[1], 600, base) && Breaches(w[2], 600, base);
    assert FirstBreach(w, 600, base, 2);
    assert CeilDays(2 * SecondsPerDay) == 2;
  }

  // ---------------------------------------------------------------------
  // The statistics cards
  // ---------------------------------------------------------------------

  predicate OnDay(x: Reading, day: int) {
    Day(x.t) == day
  }

  /** Row `i` is the first row of `w` on calendar day `day`. */
  ghost predicate FirstOnDay(w: seq<Reading>, day: int, i: int) {
    0 <= i < |w| && OnDay(w[i], day) && forall j :: 0 <= j < i ==> !OnDay(w[j], day)
  }

  /** The current-stock card: the actual level of the first window row on
      the base's calendar day; `None` ("no data") when there is no such row
      or its level does not parse. */
  function CurrentStock(w: seq<Reading>, base: int): (s: Option<real>)
    ensures (forall i :: 0 <= i < |w| ==> !OnDay(w[i], Day(base))) ==> s.None?
    ensures forall i :: FirstOnDay(w, Day(base), i) ==> s == w[i].actual
  {
    match Find(w, (x: Reading) => OnDay(x, Day(base)))
    case None => None
    case Some(i) => w[i].actual
  }

  /** The actual levels with NaN read as 0, as `calculateR2` receives them. */
  function Actuals(w: seq<Reading>): (xs: seq<real>)
    ensures |xs| == |w|
    ensures forall k :: 0 <= k < |w| ==> xs[k] == w[k].actual.GetOr(0.0)
  {
    if |w| == 0 then [] else [w[0].actual.GetOr(0.0)] + Actuals(w[1..])
  }

  /** The predicted levels with non-finite values read as 0. */
  function Predictions(w: seq<Reading>): (xs: seq<real>)
    ensures |xs| == |w|
    ensures forall k :: 0 <= k < |w| ==> xs[k] == w[k].predicted.GetOr(0.0)
  {
    if |w| == 0 then [] else [w[0].predicted.GetOr(0.0)] + Predictions(w[1..])
  }

  /** The prediction errors with NaN read as 0 (`parseFloat(e) || 0`). */
  function Errors(w: seq<Reading>): (xs: seq<real>)
    ensures |xs| == |w|
    ensures forall k :: 0 <= k < |w| ==> xs[k] == w[k].error.GetOr(0.0)
  {
    if |w| == 0 then [] else [w[0].error.GetOr(0.0)] + Errors(w[1..])
  }

  /** The next-refill card: no future rows at all, a recommended day, or
      nothing within the horizon. */
  datatype NextRefill = NoForecast | RefillOn(at: int, days: int) | NoneInHorizon

  /** Strictly after the base, by `new Date`. */
  predicate After(x: Reading, base: int) {
    x.hostT > base
  }

  /** Predicted at or below the level; NaN compares false. */
  predicate AtOrBelow(x: Reading, level: int) {
    x.predicted.Some? && x.predicted.value <= level as real
  }

  /** `parseInt(is_refill, 10) === 1`. */
  predicate Flagged(x: Reading) {
    ParseInt(x.refillFlag) == Some(1)
  }

  /** After the base and predicted at or below the level. */
  predicate Low(x: Reading, base: int, level: int) {
    After(x, base) && AtOrBelow(x, level)
  }

  /** After the base and flagged as a refill. */
  predicate RefillAfter(x: Reading, base: int) {
    After(x, base) && Flagged(x)
  }

  /** Row `i` is the first row of `w` satisfying `p`. */
  ghost predicate FirstWhere(w: seq<Reading>, p: Reading -> bool, i: int) {
    0 <= i < |w| && p(w[i]) && forall j :: 0 <= j < i ==> !p(w[j])
  }

  /** A recommendation for the row at `at`, with the whole days until it
      rounded up. */
  function RefillAt(at: int, base: int): NextRefill {
    RefillOn(at, CeilDays(at - base))
  }

  /** The next-refill recommendation of `updateStats`: among the rows after
      the base, the first predicted at or below the refill level; failing
      that, the first flagged as a refill; failing that, none in the
      horizon; with no row after the base, no forecast. Each search over
      the future rows is one scan of the window for the first row meeting
      both conditions. */
  function NextRefillOf(w: seq<Reading>, base: int, level: int): (n: NextRefill)
    ensures n.NoForecast? <==> forall i :: 0 <= i < |w| ==> !After(w[i], base)
    ensures n.RefillOn? ==> n.days >= 1
  {
    if Find(w, (x: Reading) => After(x, base)).None? then NoForecast
    else match Find(w, (x: Reading) => Low(x, base, level))
      case Some(i) => RefillAt(w[i].hostT, base)
      case None =>
        match Find(w, (x: Reading) => RefillAfter(x, base))
        case Some(i) => RefillAt(w[i].hostT, base)
        case None => NoneInHorizon
  }

  /** The first future row at or below the level is the recommendation. */
  lemma NextRefillIsFirstLow(w: seq<Reading>, base: int, level: int, i: int)
    requires FirstWhere(w, x => Low(x, base, level), i)
    ensures NextRefillOf(w, base, level) == RefillAt(w[i].hostT, base)
  {
    assert After(w[i], base);
    var k := Find(w, (x: Reading) => Low(x, base, level));
    assert k.Some? && k.value == i;
  }

  /** With no future row at or below the level, the first future row
      flagged as a refill is the recommendation. */
  lemma NextRefillFallsBackToFlag(w: seq<Reading>, base: int, level: int, i: int)
    requires forall j :: 0 <= j < |w| ==> !Low(w[j], base, level)
    requires FirstWhere(w, x => RefillAfter(x, base), i)
    ensures NextRefillOf(w, base, level) == RefillAt(w[i].hostT, base)
  {
    assert After(w[i], base);
    assert Find(w, (x: Reading) => Low(x, base, level)).None?;
    var k := Find(w, (x: Reading) => RefillAfter(x, base));
    assert k.Some? && k.value == i;
  }

  /** Nothing in the horizon exactly when some row is after the base but
      none of them is low or flagged. */
  lemma NextRefillNoneInHorizon(w: seq<Reading>, base: int, level: int)
    ensures NextRefillOf(w, base, level).NoneInHorizon? <==>
      (exists i :: 0 <= i < |w| && After(w[i], base))
      && forall i :: 0 <= i < |w| ==> !Low(w[i], base, level) && !RefillAfter(w[i], base)
  {
  }

  /** The four statistics cards. `accuracy` is R² (shown as a percentage),
      `avgError` the mean absolute prediction error. */
  datatype Stats = Stats(currentStock: Option<real>, accuracy: real, avgError: real, nextRefill: NextRefill)

  /** `updateStats` over the window; `None` when the window is empty and the
      cards keep their old values. */
  function UpdateStats(w: seq<Reading>, base: int, level: int): (s: Option<Stats>)
    ensures s.None? <==> |w| == 0
    ensures s.Some? ==> s.value.accuracy <= 1.0 && s.value.avgError >= 0.0
  {
    if |w| == 0 then None
    else Some(Stats(CurrentStock(w, base), R2(Actuals(w), Predictions(w)), MeanAbs(Errors(w)), NextRefillOf(w, base, level)))
  }

  /** The average-error card never exceeds the largest single error. */
  lemma AverageErrorBounded(w: seq<Reading>, base: int, level: int, b: real)
    requires |w| > 0
    requires forall i :: 0 <= i < |w| ==> Abs(w[i].error.GetOr(0.0)) <= b
    ensures UpdateStats(w, base, level).value.avgError <= b
  {
    MeanAbsBounded(Errors(w), b);
  }

  // ---------------------------------------------------------------------
  // The chart effect
  // ---------------------------------------------------------------------

  /** The month a calendar day falls in, as `year * 12 + month - 1`; the
      `YYYY-MM` keys sort in this order. */
  function MonthIndex(day: int): int {
    var c := CivilFromDays(day);
    c.year * 12 + c.month - 1
  }

  /** What one run of the chart effect writes: the base day it sets back (if
      it clamped), the final warning state, the statistics cards and the
      active month button; `None` leaves that piece of state unchanged. */
  datatype View = View(baseDay: Option<int>, alert: Option<Alert>, stats: Option<Stats>, activeMonth: Option<int>)

  /** The effect after clamping; `check` is whether the refill warning runs. */
  function Settle(rows: seq<Reading>, c: Clamped, level: int, check: bool): (v: View)
    requires |rows| > 0
    ensures v.baseDay.Some? <==> c.raised || c.exceeded
    ensures v.stats.Some? <==> |Window(rows, c.at)| > 0
    ensures !check && c.exceeded ==> v.alert == Some(RangeExceeded(Day(rows[|rows| - 1].t)))
    ensures check && |Window(rows, c.at)| > 0 ==> v.alert == Some(CheckRefillWarning(Window(rows, c.at), level, c.at))
  {
    var baseDay := if c.raised || c.exceeded then Some(Day(c.at)) else None;
    var clampAlert := if c.exceeded then Some(RangeExceeded(Day(rows[|rows| - 1].t))) else None;
    var w := Window(rows, c.at);
    if |w| == 0 then View(baseDay, clampAlert, None, None)
    else
      var alert := if check then Some(CheckRefillWarning(w, level, c.at)) else clampAlert;
      View(baseDay, alert, UpdateStats(w, c.at, level), Some(MonthIndex(Day(c.at))))
  }

  /** One run of the chart effect as the page writes it: the refill check is
      guarded by `!isAfterDateOnly(baseDateObj, effectiveDataEnd)`, evaluated
      on the already clamped base. */
  function RefreshAsWritten(rows: seq<Reading>, base: Option<int>, level: int): View
    requires |rows| > 0
  {
    var last := rows[|rows| - 1].t;
    var c := ClampBase(base, rows[0].t, last);
    Settle(rows, c, level, !IsAfterDateOnly(c.at, last))
  }

  /** One run with the guard corrected: the refill check is skipped when
      this run clamped the base past the end. */
  function Refresh(rows: seq<Reading>, base: Option<int>, level: int): View
    requires |rows| > 0
  {
    var c := ClampBase(base, rows[0].t, rows[|rows| - 1].t);
    Settle(rows, c, level, !c.exceeded)
  }

  /** A piece of state after two writes: the later run's write wins, and a
      piece it leaves alone keeps the earlier value. */
  function Latest<T>(earlier: Option<T>, later: Option<T>): Option<T> {
    if later.Some? then later else earlier
  }

  /** The state two runs of the effect in a row leave behind. */
  function Then(first: View, second: View): View {
    View(Latest(first.baseDay, second.baseDay), Latest(first.alert, second.alert),
      Latest(first.stats, second.stats), Latest(first.activeMonth, second.activeMonth))
  }

  /** The effect as the page runs it. A clamp calls `setBaseDate` with a
      different day, and `baseDate` is a dependency of the effect, so it runs
      a second time on `parseJstDate(ymd(day))`, the midnight (UTC+9) of the
      clamped day; on rows in day order that run clamps nothing and there is
      no third. */
  function SettledAsWritten(rows: seq<Reading>, base: Option<int>, level: int): (v: View)
    requires |rows| > 0
    ensures v.baseDay.Some? <==> ClampBase(base, rows[0].t, rows[|rows| - 1].t).raised || ClampBase(base, rows[0].t, rows[|rows| - 1].t).exceeded
  {
    var v := RefreshAsWritten(rows, base, level);
    if v.baseDay.None? then v
    else Then(v, RefreshAsWritten(rows, Some(Midnight(v.baseDay.value)), level))
  }

  /** The same two runs with only the guard corrected to skip the refill
      check when the run itself clamped past the end. */
  function SettledGuardFixed(rows: seq<Reading>, base: Option<int>, level: int): (v: View)
    requires |rows| > 0
    ensures v.baseDay.Some? <==> ClampBase(base, rows[0].t, rows[|rows| - 1].t).raised || ClampBase(base, rows[0].t, rows[|rows| - 1].t).exceeded
  {
    var v := Refresh(rows, base, level);
    if v.baseDay.None? then v
    else Then(v, Refresh(rows, Some(Midnight(v.baseDay.value)), level))
  }

  /** The effect as its comment intends: a clamp past the end is carried
      into the run it causes, which then leaves the range warning alone. */
  function Settled(rows: seq<Reading>, base: Option<int>, level: int): (v: View)
    requires |rows| > 0
    ensures v.baseDay.Some? <==> ClampBase(base, rows[0].t, rows[|rows| - 1].t).raised || ClampBase(base, rows[0].t, rows[|rows| - 1].t).exceeded
  {
    var first := rows[0].t;
    var last := rows[|rows| - 1].t;
    var c := ClampBase(base, first, last);
    var v := Settle(rows, c, level, !c.exceeded);
    if v.baseDay.None? then v
    else
      var c2 := ClampBase(Some(Midnight(v.baseDay.value)), first, last);
      Then(v, Settle(rows, c2, level, !c.exceeded && !c2.exceeded))
  }

  /** The effect's entry as the page writes it: nothing happens without rows
      or without a base date string; on rows in day order the base day it
      writes back lies within the rows' days. */
  function OnChartChange(rows: seq<Reading>, baseDate: string, level: int): (v: Option<View>)
    ensures v.None? <==> |rows| == 0 || baseDate == ""
    ensures |rows| > 0 && v.Some? && Day(rows[0].t) <= Day(rows[|rows| - 1].t) && v.value.baseDay.Some? ==>
      Day(rows[0].t) <= v.value.baseDay.value <= Day(rows[|rows| - 1].t)
  {
    if |rows| == 0 || baseDate == "" then None
    else
      var base := ParseJstDate(baseDate);
      SettledBaseInRange(rows, base, level);
      Some(SettledAsWritten(rows, base, level))
  }

  /** The run a clamp causes starts at the midnight of a day within the
      rows' days, so it clamps nothing. */
  lemma RerunIsInRange(rows: seq<Reading>, day: int)
    requires |rows| > 0
    requires Day(rows[0].t) <= day <= Day(rows[|rows| - 1].t)
    ensures ClampBase(Some(Midnight(day)), rows[0].t, rows[|rows| - 1].t) == Clamped(Midnight(day), false, false)
  {
    ClampKeepsInRange(Midnight(day), rows[0].t, rows[|rows| - 1].t);
  }

  /** The window around a row's midnight holds that row. */
  lemma RowInMidnightWindow(rows: seq<Reading>, k: int)
    requires 0 <= k < |rows|
    ensures rows[k] in Window(rows, Midnight(Day(rows[k].t)))
    ensures |Window(rows, Midnight(Day(rows[k].t)))| > 0
  {
    var m := Midnight(Day(rows[k].t));
    assert m <= rows[k].t < m + SecondsPerDay;
    assert InWindow(rows[k].t, m);
  }

  /** On rows in day order every version of the effect leaves a base day
      within the rows' days, written by the first run only. */
  lemma SettledBaseInRange(rows: seq<Reading>, base: Option<int>, level: int)
    requires |rows| > 0
    ensures Day(rows[0].t) <= Day(rows[|rows| - 1].t) && SettledAsWritten(rows, base, level).baseDay.Some? ==>
      Day(rows[0].t) <= SettledAsWritten(rows, base, level).baseDay.value <= Day(rows[|rows| - 1].t)
  {
    var c := ClampBase(base, rows[0].t, rows[|rows| - 1].t);
    if Day(rows[0].t) <= Day(rows[|rows| - 1].t) && (c.raised || c.exceeded) {
      RerunIsInRange(rows, Day(c.at));
    }
  }

  /** As written, a base past the data's end ends with the refill check over
      the window around the last day's midnight: the second run is in range
      and overwrites the range-exceeded warning the first run set. */
  lemma RangeWarningIsOverwritten(rows: seq<Reading>, base: Option<int>, level: int)
    requires |rows| > 0
    requires Day(rows[0].t) <= Day(rows[|rows| - 1].t)
    requires ClampBase(base, rows[0].t, rows[|rows| - 1].t).exceeded
    ensures var m := Midnight(Day(rows[|rows| - 1].t));
      SettledAsWritten(rows, base, level).alert == Some(CheckRefillWarning(Window(rows, m), level, m))
    ensures SettledAsWritten(rows, base, level).baseDay == Some(Day(rows[|rows| - 1].t))
  {
    var last := rows[|rows| - 1].t;
    var m := Midnight(Day(last));
    RerunIsInRange(rows, Day(last));
    RowInMidnightWindow(rows, |rows| - 1);
    var v2 := RefreshAsWritten(rows, Some(m), level);
    assert v2.baseDay.None?;
    assert v2.alert == Some(CheckRefillWarning(Window(rows, m), level, m));
  }

  /** Correcting only the guard does not keep the warning either: the run
      the clamp causes is in range, so its refill check overwrites it. */
  lemma GuardFixAloneIsNotEnough(rows: seq<Reading>, base: Option<int>, level: int)
    requires |rows| > 0
    requires Day(rows[0].t) <= Day(rows[|rows| - 1].t)
    requires ClampBase(base, rows[0].t, rows[|rows| - 1].t).exceeded
    ensures var m := Midnight(Day(rows[|rows| - 1].t));
      SettledGuardFixed(rows, base, level).alert == Some(CheckRefillWarning(Window(rows, m), level, m))
    ensures SettledGuardFixed(rows, base, level).alert == SettledAsWritten(rows, base, level).alert
  {
    var last := rows[|rows| - 1].t;
    var m := Midnight(Day(last));
    RerunIsInRange(rows, Day(last));
    RowInMidnightWindow(rows, |rows| - 1);
    var v2 := Refresh(rows, Some(m), level);
    assert v2.baseDay.None?;
    assert v2.alert == Some(CheckRefillWarning(Window(rows, m), level, m));
    RangeWarningIsOverwritten(rows, base, level);
  }

  /** With the clamp carried into the re-run, a base past the data's end
      keeps the range-exceeded warning naming the last day, while the chart
      and the cards move to the window around that day's midnight. */
  lemma RangeWarningIsKept(rows: seq<Reading>, base: Option<int>, level: int)
    requires |rows| > 0
    requires Day(rows[0].t) <= Day(rows[|rows| - 1].t)
    requires ClampBase(base, rows[0].t, rows[|rows| - 1].t).exceeded
    ensures Settled(rows, base, level).alert == Some(RangeExceeded(Day(rows[|rows| - 1].t)))
    ensures Settled(rows, base, level).baseDay == Some(Day(rows[|rows| - 1].t))
    ensures var m := Midnight(Day(rows[|rows| - 1].t));
      Settled(rows, base, level).stats == UpdateStats(Window(rows, m), m, level)
  {
    var last := rows[|rows| - 1].t;
    var m := Midnight(Day(last));
    RerunIsInRange(rows, Day(last));
    RowInMidnightWindow(rows, |rows| - 1);
    var v2 := Settle(rows, Clamped(m, false, false), level, false);
    assert v2.alert.None? && v2.baseDay.None?;
    assert v2.stats == UpdateStats(Window(rows, m), m, level);
  }

  /** A single row at noon and a base ten days later: as written the alert
      ends up all-clear instead of range-exceeded. */
  lemma RangeWarningLostExample()
    ensures var rows := [Reading("2024-01-10 12:00:00", 1704855600, 1704855600, Some(700.0), Some(700.0), Some(0.0), "0")];
      var base := Some(1704855600 + 10 * SecondsPerDay);
      SettledAsWritten(rows, base, 600).alert == Some(AllClear)
      && Settled(rows, base, 600).alert == Some(RangeExceeded(Day(1704855600)))
  {
    var rows := [Reading("2024-01-10 12:00:00", 1704855600, 1704855600, Some(700.0), Some(700.0), Some(0.0), "0")];
    var base := Some(1704855600 + 10 * SecondsPerDay);
    RangeWarningIsOverwritten(rows, base, 600);
    RangeWarningIsKept(rows, base, 600);
    var m := Midnight(Day(1704855600));
    RowInMidnightWindow(rows, 0);
    var w := Window(rows, m);
    assert w == rows;
  }

  /** A base before the data's first day is raised to it; every version
      then redraws around that day's midnight and runs the refill check. */
  lemma RaisedBaseIsRecentred(rows: seq<Reading>, base: Option<int>, level: int)
    requires |rows| > 0
    requires Day(rows[0].t) <= Day(rows[|rows| - 1].t)
    requires DayBefore(base, rows[0].t)
    ensures var m := Midnight(Day(rows[0].t));
      SettledAsWritten(rows, base, level).alert == Some(CheckRefillWarning(Window(rows, m), level, m))
      && SettledAsWritten(rows, base, level).baseDay == Some(Day(rows[0].t))
    ensures Settled(rows, base, level) == SettledAsWritten(rows, base, level)
  {
    var first := rows[0].t;
    var m := Midnight(Day(first));
    var c := ClampBase(base, first, rows[|rows| - 1].t);
    assert !c.exceeded && c.at == first;
    RerunIsInRange(rows, Day(first));
    RowInMidnightWindow(rows, 0);
    var v2 := RefreshAsWritten(rows, Some(m), level);
    assert v2.baseDay.None?;
    assert v2.alert == Some(CheckRefillWarning(Window(rows, m), level, m));
  }

  /** A base within the data's days runs once, and every version runs the
      refill check over the window around it. */
  lemma InRangeVersionsAgree(rows: seq<Reading>, base: Option<int>, level: int)
    requires |rows| > 0
    requires var c := ClampBase(base, rows[0].t, rows[|rows| - 1].t); !c.raised && !c.exceeded
    ensures Settled(rows, base, level) == SettledAsWritten(rows, base, level) == SettledGuardFixed(rows, base, level)
    ensures Settled(rows, base, level).baseDay.None?
    ensures |Window(rows, base.value)| > 0 ==>
      Settled(rows, base, level).alert == Some(CheckRefillWarning(Window(rows, base.value), level, base.value))
  {
  }

  // ---------------------------------------------------------------------
  // Initial base date, month buttons, refill stepper
  // ---------------------------------------------------------------------

  /** The calendar days of the rows (`ymd(parseJstDate(date))`). */
  function Days(rows: seq<Reading>): (ds: seq<int>)
    ensures |ds| == |rows|
    ensures forall k :: 0 <= k < |rows| ==> ds[k] == Day(rows[k].t)
  {
    if |rows| == 0 then [] else [Day(rows[0].t)] + Days(rows[1..])
  }

  /** The initial base day: today if some row falls on it, else the latest
      row day before today, else the middle of the sorted days; `None` (the
      page's `undefined`) when there are no rows. */
  function InitialBaseDay(days: seq<int>, today: int): (r: Option<int>)
    ensures r.None? <==> |days| == 0
    ensures |days| > 0 && (forall i :: 0 <= i < |days| ==> days[i] > today) ==>
      r == Some(SortInts(days)[|days| / 2])
  {
    var sorted := SortInts(days);
    SameMembers(days, sorted);
    assert forall i :: 0 <= i < |sorted| ==> sorted[i] in days;
    PickBase(sorted, today)
  }

  /** The choice among the sorted days; when every day is after today it is
      the one at index `floor(n / 2)`. */
  function PickBase(sorted: seq<int>, today: int): (r: Option<int>)
    ensures r.None? <==> |sorted| == 0
    ensures |sorted| > 0 && (forall i :: 0 <= i < |sorted| ==> sorted[i] > today) ==>
      r == Some(sorted[|sorted| / 2])
  {
    if today in sorted then Some(today)
    else
      var past := Filter(sorted, (d: int) => d <= today);
      if |past| > 0 then Some(past[|past| - 1])
      else if |sorted| > 0 then Some(sorted[|sorted| / 2])
      else None
  }

  /** On ascending days the choice is a member, and the latest member not
      after today when there is one. */
  lemma PickBaseIsLatestPast(sorted: seq<int>, today: int)
    requires |sorted| > 0
    requires forall i, j :: 0 <= i < j < |sorted| ==> sorted[i] <= sorted[j]
    ensures PickBase(sorted, today).value in sorted
    ensures (exists i :: 0 <= i < |sorted| && sorted[i] <= today) ==>
      var r := PickBase(sorted, today).value;
      r <= today && forall i :: 0 <= i < |sorted| && sorted[i] <= today ==> sorted[i] <= r
  {
    var past := Filter(sorted, (d: int) => d <= today);
    if today !in sorted && |past| > 0 {
      FilterAscending(sorted, (d: int) => d <= today);
      LastIsGreatest(sorted, past, today);
    }
  }

  /** The initial base day is one of the row days; when some row day is not
      after today it is the latest such day (today itself when a row falls
      on it). */
  lemma InitialBaseIsLatestPast(days: seq<int>, today: int)
    requires |days| > 0
    ensures InitialBaseDay(days, today).value in days
    ensures (exists i :: 0 <= i < |days| && days[i] <= today) ==>
      var r := InitialBaseDay(days, today).value;
      r <= today && forall i :: 0 <= i < |days| && days[i] <= today ==> days[i] <= r
  {
    var sorted := SortInts(days);
    SameMembers(days, sorted);
    PickBaseIsLatestPast(sorted, today);
    var r := PickBase(sorted, today).value;
    assert r in days;
    if exists i :: 0 <= i < |days| && days[i] <= today {
      var i :| 0 <= i < |days| && days[i] <= today;
      assert days[i] in sorted;
      BoundCarries(days, sorted, today, r);
    }
  }

  /** A bound on the sorted days not after today bounds the days themselves. */
  lemma BoundCarries(days: seq<int>, sorted: seq<int>, today: int, r: int)
    requires forall x :: x in days <==> x in sorted
    requires forall i :: 0 <= i < |sorted| && sorted[i] <= today ==> sorted[i] <= r
    ensures forall i :: 0 <= i < |days| && days[i] <= today ==> days[i] <= r
  {
    forall i | 0 <= i < |days| && days[i] <= today
      ensures days[i] <= r
    {
      assert days[i] in sorted;
      var k :| 0 <= k < |sorted| && sorted[k] == days[i];
    }
  }

  /** A permutation has the same members. */
  lemma SameMembers(a: seq<int>, b: seq<int>)
    requires multiset(a) == multiset(b)
    ensures |a| == |b|
    ensures forall x :: x in a <==> x in b
  {
    assert |a| == |multiset(a)| == |multiset(b)| == |b|;
    forall x
      ensures x in a <==> x in b
    {
      assert x in a <==> x in multiset(a);
      assert x in b <==> x in multiset(b);
    }
  }

  /** The last of the past days is the greatest day not after today. */
  lemma LastIsGreatest(sorted: seq<int>, past: seq<int>, today: int)
    requires |past| > 0
    requires forall k :: 0 <= k < |past| ==> past[k] in sorted && past[k] <= today
    requires forall k :: 0 <= k < |sorted| && sorted[k] <= today ==> sorted[k] in past
    requires forall i, j :: 0 <= i < j < |past| ==> past[i] <= past[j]
    ensures past[|past| - 1] in sorted && past[|past| - 1] <= today
    ensures forall i :: 0 <= i < |sorted| && sorted[i] <= today ==> sorted[i] <= past[|past| - 1]
  {
    forall i | 0 <= i < |sorted| && sorted[i] <= today
      ensures sorted[i] <= past[|past| - 1]
    {
      var k :| 0 <= k < |past| && past[k] == sorted[i];
    }
  }

  /** `getMonthButtons`: the distinct months holding a row, ascending. */
  function MonthButtons(rows: seq<Reading>): (b: seq<int>)
    ensures StrictlyIncreasing(b)
    ensures forall m :: m in b <==> exists k :: 0 <= k < |rows| && MonthIndex(Day(rows[k].t)) == m
  {
    var months := MonthsOf(rows);
    var sorted := SortInts(months);
    SameMembers(months, sorted);
    Dedup(sorted)
  }

  function MonthsOf(rows: seq<Reading>): (ms: seq<int>)
    ensures |ms| == |rows|
    ensures forall k :: 0 <= k < |rows| ==> ms[k] == MonthIndex(Day(rows[k].t))
  {
    if |rows| == 0 then [] else [MonthIndex(Day(rows[0].t))] + MonthsOf(rows[1..])
  }

  /** `handleRefillChange`: a step applies only when the new level stays
      within [0, 1000]. */
  function StepRefill(level: int, amount: int): (r: int)
    ensures r == level || r == level + amount
    ensures r == level + amount <== 0 <= level + amount <= MaxRefillLevel
    ensures r == level <== !(0 <= level + amount <= MaxRefillLevel)
    ensures 0 <= level <= MaxRefillLevel ==> 0 <= r <= MaxRefillLevel
  {
    var next := level + amount;
    if 0 <= next && next <= MaxRefillLevel then next else level
  }

  /** The refill level after a sequence of button presses. */
  function AfterSteps(level: int, amounts: seq<int>): int
    decreases |amounts|
  {
    if |amounts| == 0 then level else AfterSteps(StepRefill(level, amounts[0]), amounts[1..])
  }

  /** From any level in [0, 1000] (the page starts at 600 m³), no sequence
      of presses leaves that range. */
  lemma {:induction false} StepsStayInRange(level: int, amounts: seq<int>)
    requires 0 <= level <= MaxRefillLevel
    ensures 0 <= AfterSteps(level, amounts) <= MaxRefillLevel
    decreases |amounts|
  {
    if |amounts| > 0 {
      StepsStayInRange(StepRefill(level, amounts[0]), amounts[1..]);
    }
  }
}
