/** The training pipeline's preprocessing: forward filling and dropping of
    missing readings, refill-event detection with the exclusion window after
    each refill, and the data validation pass. A frame is a sequence of
    records; a missing (NaN) reading is `None`; dates are instants in whole
    seconds. */
module Preprocess {
  import opened Outcomes
  import opened Sequences

  /** One row of the frame: `date`, `actual_power`, `actual_ammonia`. */
  datatype Record = Record(date: int, power: Option<real>, ammonia: Option<real>)

  /** The length of one unit of pandas' `.dt.days`, in seconds. */
  const TimedeltaDay: int := 86400
  /** The default refill threshold, in m³. */
  const DefaultThreshold: real := 50.0
  /** The default number of rows excluded after a refill. */
  const DefaultExcludeDaysAfter: int := 3

  function DateKey(r: Record): int { r.date }

  // ---------------------------------------------------------------------
  // Missing values
  // ---------------------------------------------------------------------

  /** The most recent present value of `s`, if any. */
  function LastPresent(s: seq<Option<real>>): Option<real>
    decreases |s|
  {
    if |s| == 0 then None
    else if s[|s| - 1].Some? then s[|s| - 1]
    else LastPresent(s[..|s| - 1])
  }

  /** Reference definition of a forward fill: each position holds the most
      recent present value up to and including it. */
  function Filled(xs: seq<Option<real>>): seq<Option<real>> {
    seq(|xs|, k requires 0 <= k < |xs| => LastPresent(xs[..k + 1]))
  }

  /** `LastPresent` is empty exactly when no value is present. */
  lemma {:induction false} LastPresentNone(s: seq<Option<real>>)
    ensures LastPresent(s).None? <==> forall j :: 0 <= j < |s| ==> s[j].None?
    decreases |s|
  {
    if |s| > 0 && s[|s| - 1].None? {
      var init := s[..|s| - 1];
      LastPresentNone(init);
      assert forall j :: 0 <= j < |init| ==> init[j] == s[j];
    }
  }

  /** `fillna(method='ffill')`: one pass carrying the last present value. */
  method FillForward(xs: seq<Option<real>>) returns (r: seq<Option<real>>)
    ensures r == Filled(xs)
    ensures |r| == |xs|
    ensures forall k :: 0 <= k < |xs| && xs[k].Some? ==> r[k] == xs[k]
  {
    r := [];
    var last: Option<real> := None;
    for k := 0 to |xs|
      invariant |r| == k
      invariant last == LastPresent(xs[..k])
      invariant forall j :: 0 <= j < k ==> r[j] == LastPresent(xs[..j + 1])
    {
      assert xs[..k + 1][..k] == xs[..k];
      if xs[k].Some? {
        last := xs[k];
      }
      r := r + [last];
    }
  }

  /** A filled position is empty exactly when nothing up to it is present:
      leading gaps stay NaN, every later gap is filled. */
  lemma FilledNoneIffLeading(xs: seq<Option<real>>, k: int)
    requires 0 <= k < |xs|
    ensures Filled(xs)[k].None? <==> forall j :: 0 <= j <= k ==> xs[j].None?
  {
    var pre := xs[..k + 1];
    LastPresentNone(pre);
    assert forall j :: 0 <= j <= k ==> pre[j] == xs[j];
  }

  /** A filled value is one of the values present at or before it. */
  lemma {:induction false} LastPresentFrom(s: seq<Option<real>>)
    requires LastPresent(s).Some?
    ensures exists j :: 0 <= j < |s| && s[j] == LastPresent(s)
    decreases |s|
  {
    if s[|s| - 1].None? {
      var init := s[..|s| - 1];
      LastPresentFrom(init);
      var j :| 0 <= j < |init| && init[j] == LastPresent(init);
      assert s[j] == init[j];
    }
  }

  /** Filling twice is filling once. */
  lemma FilledIdempotent(xs: seq<Option<real>>)
    ensures Filled(Filled(xs)) == Filled(xs)
  {
    var f := Filled(xs);
    forall k | 0 <= k < |xs|
      ensures Filled(f)[k] == f[k]
    {
      var pre := f[..k + 1];
      if f[k].None? {
        FilledNoneIffLeading(xs, k);
        forall i | 0 <= i <= k
          ensures f[i].None?
        {
          FilledNoneIffLeading(xs, i);
        }
        LastPresentNone(pre);
      }
    }
  }

  function Powers(rows: seq<Record>): (xs: seq<Option<real>>)
    ensures |xs| == |rows|
    ensures forall k :: 0 <= k < |rows| ==> xs[k] == rows[k].power
  {
    if |rows| == 0 then [] else [rows[0].power] + Powers(rows[1..])
  }

  function Ammonias(rows: seq<Record>): (xs: seq<Option<real>>)
    ensures |xs| == |rows|
    ensures forall k :: 0 <= k < |rows| ==> xs[k] == rows[k].ammonia
  {
    if |rows| == 0 then [] else [rows[0].ammonia] + Ammonias(rows[1..])
  }

  /** Both readings present: the rows `dropna(subset=...)` keeps. */
  predicate Complete(r: Record) {
    r.power.Some? && r.ammonia.Some?
  }

  /** `handle_missing_values`: `"ffill"` forward-fills both reading columns,
      `"drop"` keeps the complete rows in order, any other name leaves the
      frame as it is. The `"interpolate"` branch's result is the parameter
      `interpolated`. */
  method HandleMissing(rows: seq<Record>, how: string, interpolated: seq<Record>) returns (out: seq<Record>)
    ensures how == "interpolate" ==> out == interpolated
    ensures how == "ffill" ==> |out| == |rows| && forall k :: 0 <= k < |rows| ==>
      out[k] == Record(rows[k].date, Filled(Powers(rows))[k], Filled(Ammonias(rows))[k])
    ensures how == "drop" ==> out == Filter(rows, Complete)
    ensures how != "interpolate" && how != "ffill" && how != "drop" ==> out == rows
  {
    if how == "interpolate" {
      out := interpolated;
    } else if how == "ffill" {
      var p := FillForward(Powers(rows));
      var a := FillForward(Ammonias(rows));
      out := seq(|rows|, k requires 0 <= k < |rows| => Record(rows[k].date, p[k], a[k]));
    } else if how == "drop" {
      out := Filter(rows, Complete);
    } else {
      out := rows;
    }
  }

  /** Dropping keeps exactly the complete rows: every kept row is complete
      and every complete row is kept. */
  lemma DropKeepsComplete(rows: seq<Record>)
    ensures forall k :: 0 <= k < |Filter(rows, Complete)| ==> Complete(Filter(rows, Complete)[k])
    ensures forall k :: 0 <= k < |rows| && Complete(rows[k]) ==> rows[k] in Filter(rows, Complete)
    ensures (forall k :: 0 <= k < |rows| ==> Complete(rows[k])) ==> Filter(rows, Complete) == rows
  {
    FilterExtremes(rows, Complete);
  }

  // ---------------------------------------------------------------------
  // Refill events
  // ---------------------------------------------------------------------

  /** `diff() >= threshold` on the ammonia column: the first row and any row
      next to a missing reading compare as NaN, which is false. */
  predicate RisesBy(prev: Option<real>, cur: Option<real>, threshold: real) {
    prev.Some? && cur.Some? && cur.value - prev.value >= threshold
  }

  /** The `is_refill` column of a sorted frame. */
  function RefillFlags(rows: seq<Record>, threshold: real): (f: seq<bool>)
    ensures |f| == |rows|
    ensures |rows| > 0 ==> !f[0]
    ensures forall i :: 0 < i < |rows| ==> (f[i] <==> RisesBy(rows[i - 1].ammonia, rows[i].ammonia, threshold))
  {
    seq(|rows|, i requires 0 <= i < |rows| => i > 0 && RisesBy(rows[i - 1].ammonia, rows[i].ammonia, threshold))
  }

  /** Row `j` lies in the exclusion window of a refill among the first
      `upto` rows: from the refill row through `e` rows after it. */
  ghost predicate Covered(refill: seq<bool>, e: int, upto: int, j: int) {
    exists k :: 0 <= k < upto && k < |refill| && refill[k] && k <= j <= k + e
  }

  /** The exclusion loop: for each refill row `idx`, rows `idx` through
      `min(idx + e + 1, n) - 1` are flagged. */
  method MarkExcluded(refill: seq<bool>, e: int) returns (ex: seq<bool>)
    ensures |ex| == |refill|
    ensures forall j :: 0 <= j < |ex| ==>
      (ex[j] <==> exists k :: 0 <= k < |refill| && refill[k] && k <= j <= k + e)
  {
    var n := |refill|;
    ex := seq(n, _ => false);
    for idx := 0 to n
      invariant |ex| == n
      invariant forall m :: 0 <= m < n ==> (ex[m] <==> Covered(refill, e, idx, m))
    {
      if refill[idx] {
        var stop := if idx + e + 1 < n then idx + e + 1 else n;
        var j := idx;
        while j < stop
          invariant idx <= j && (j <= stop || j == idx)
          invariant |ex| == n
          invariant forall m :: 0 <= m < n ==> (ex[m] <==> Covered(refill, e, idx, m) || idx <= m < j)
        {
          ex := ex[j := true];
          j := j + 1;
        }
        CoveredStep(refill, e, idx, stop, n);
      } else {
        CoveredSkip(refill, e, idx, n);
      }
    }
    assert forall m :: 0 <= m < n ==> (Covered(refill, e, n, m) <==>
      exists k :: 0 <= k < |refill| && refill[k] && k <= m <= k + e);
  }

  /** Passing a refill row adds its window `idx .. stop - 1` to the cover. */
  lemma CoveredStep(refill: seq<bool>, e: int, idx: int, stop: int, n: int)
    requires n == |refill| && 0 <= idx < n && refill[idx]
    requires stop == (if idx + e + 1 < n then idx + e + 1 else n)
    ensures forall m :: 0 <= m < n ==>
      (Covered(refill, e, idx + 1, m) <==> Covered(refill, e, idx, m) || idx <= m < stop)
  {
    forall m | 0 <= m < n
      ensures Covered(refill, e, idx + 1, m) <==> Covered(refill, e, idx, m) || idx <= m < stop
    {
      if idx <= m < stop {
        assert refill[idx] && idx <= m <= idx + e;
      }
      if Covered(refill, e, idx + 1, m) && !Covered(refill, e, idx, m) {
        var k :| 0 <= k < idx + 1 && k < |refill| && refill[k] && k <= m <= k + e;
        assert k == idx;
      }
    }
  }

  /** Passing a row that is not a refill leaves the cover as it is. */
  lemma CoveredSkip(refill: seq<bool>, e: int, idx: int, n: int)
    requires n == |refill| && 0 <= idx < n && !refill[idx]
    ensures forall m :: 0 <= m < n ==> (Covered(refill, e, idx + 1, m) <==> Covered(refill, e, idx, m))
  {
    forall m | 0 <= m < n
      ensures Covered(refill, e, idx + 1, m) <==> Covered(refill, e, idx, m)
    {
      if Covered(refill, e, idx + 1, m) {
        var k :| 0 <= k < idx + 1 && k < |refill| && refill[k] && k <= m <= k + e;
        assert k != idx;
      }
    }
  }

  /** `detect_refill_events`: the frame sorted by date, its `is_refill`
      column (a rise of at least `threshold` over the previous row) and its
      `exclude_from_training` column (each refill row and the `e` rows
      after it). */
  method DetectRefillEvents(rows: seq<Record>, threshold: real, e: int)
    returns (sorted: seq<Record>, isRefill: seq<bool>, exclude: seq<bool>)
    ensures multiset(sorted) == multiset(rows) && SortedBy(sorted, DateKey)
    ensures |isRefill| == |sorted| && |exclude| == |sorted|
    ensures |sorted| > 0 ==> !isRefill[0]
    ensures forall i :: 0 < i < |sorted| ==>
      (isRefill[i] <==> RisesBy(sorted[i - 1].ammonia, sorted[i].ammonia, threshold))
    ensures forall j :: 0 <= j < |sorted| ==>
      (exclude[j] <==> exists k :: 0 <= k < |sorted| && isRefill[k] && k <= j <= k + e)
  {
    sorted := SortBy(rows, DateKey);
    isRefill := RefillFlags(sorted, threshold);
    exclude := MarkExcluded(isRefill, e);
  }

  /** With a non-negative window every refill row is excluded itself, and
      the row right after the window of a lone refill is not. */
  lemma ExclusionWindow(refill: seq<bool>, e: int, k: int)
    requires 0 <= k < |refill| && refill[k] && e >= 0
    requires forall i :: 0 <= i < |refill| && i != k ==> !refill[i]
    ensures Covered(refill, e, |refill|, k)
    ensures k + e + 1 < |refill| ==> !Covered(refill, e, |refill|, k + e + 1)
  {
  }

  /** At the default threshold a rise of exactly 50 m³ is a refill, a rise
      of 49.5 m³ is not, and a missing neighbour never is. */
  lemma DefaultThresholdExample()
    ensures RisesBy(Some(500.0), Some(550.0), DefaultThreshold)
    ensures !RisesBy(Some(500.0), Some(549.5), DefaultThreshold)
    ensures !RisesBy(None, Some(600.0), DefaultThreshold)
  {
  }

  /** At the default window a lone refill excludes itself and the three
      rows after it, and not the fourth. */
  lemma DefaultExclusion(refill: seq<bool>, k: int)
    requires 0 <= k && k + DefaultExcludeDaysAfter + 1 < |refill| && refill[k]
    requires forall i :: 0 <= i < |refill| && i != k ==> !refill[i]
    ensures forall j :: k <= j <= k + 3 ==> Covered(refill, DefaultExcludeDaysAfter, |refill|, j)
    ensures !Covered(refill, DefaultExcludeDaysAfter, |refill|, k + 4)
  {
    ExclusionWindow(refill, DefaultExcludeDaysAfter, k);
  }

  // ---------------------------------------------------------------------
  // Validation
  // ---------------------------------------------------------------------

  /** The columns `validate_data` requires by default. */
  const DefaultRequired: seq<string> := ["date", "actual_power", "actual_ammonia"]

  /** The outcome of `validate_data`: `Missing` is the `False` return for
      the first absent required column; `Checked` is the `True` return with
      the three warnings it may print; `KeyError` is the exception raised
      when a column the checks read is absent although not required. */
  datatype Validation =
    | Missing(column: string)
    | KeyError(column: string)
    | Checked(negativePower: bool, negativeAmmonia: bool, dateGaps: bool)

  /** Some present value of the column is below zero; NaN compares false. */
  predicate AnyNegative(xs: seq<Option<real>>) {
    exists k :: 0 <= k < |xs| && xs[k].Some? && xs[k].value < 0.0
  }

  /** Two consecutive sorted dates are more than one whole day apart
      (`diff().dt.days > 1`, whole days rounded down). */
  predicate HasGap(dates: seq<int>) {
    exists i :: 0 < i < |dates| && (dates[i] - dates[i - 1]) / TimedeltaDay > 1
  }

  function Dates(rows: seq<Record>): (ds: seq<int>)
    ensures |ds| == |rows|
    ensures forall k :: 0 <= k < |rows| ==> ds[k] == rows[k].date
  {
    if |rows| == 0 then [] else [rows[0].date] + Dates(rows[1..])
  }

  /** `validate_data`: the first required column missing from `columns`
      fails validation; otherwise the power, ammonia and date columns are
      read in that order and the warnings computed. */
  function ValidateData(columns: seq<string>, required: seq<string>, rows: seq<Record>): (v: Validation)
    ensures v.Missing? <==> exists i :: 0 <= i < |required| && required[i] !in columns
    ensures v.Missing? ==> v.column in required && v.column !in columns
    ensures v.Checked? <==> ((forall c :: c in required ==> c in columns)
      && "actual_power" in columns && "actual_ammonia" in columns && "date" in columns)
    ensures v.Checked? ==> ((v.negativePower <==> AnyNegative(Powers(rows)))
      && (v.negativeAmmonia <==> AnyNegative(Ammonias(rows)))
      && (v.dateGaps <==> HasGap(SortInts(Dates(rows)))))
  {
    match Find(required, (c: string) => c !in columns)
    case Some(i) => Missing(required[i])
    case None =>
      if "actual_power" !in columns then KeyError("actual_power")
      else if "actual_ammonia" !in columns then KeyError("actual_ammonia")
      else if "date" !in columns then KeyError("date")
      else Checked(AnyNegative(Powers(rows)), AnyNegative(Ammonias(rows)), HasGap(SortInts(Dates(rows))))
  }

  /** With the default required columns, validation either names a missing
      column or succeeds; it never raises. */
  lemma DefaultNeverRaises(columns: seq<string>, rows: seq<Record>)
    ensures !ValidateData(columns, DefaultRequired, rows).KeyError?
  {
    var v := ValidateData(columns, DefaultRequired, rows);
    if !v.Missing? {
      assert DefaultRequired[0] in columns && DefaultRequired[1] in columns && DefaultRequired[2] in columns;
    }
  }

  /** A gap is a step of at least two whole days between consecutive dates. */
  lemma GapIsTwoDays(dates: seq<int>)
    requires forall i, j :: 0 <= i < j < |dates| ==> dates[i] <= dates[j]
    ensures HasGap(dates) <==> exists i :: 0 < i < |dates| && dates[i] - dates[i - 1] >= 2 * TimedeltaDay
  {
    if HasGap(dates) {
      var i :| 0 < i < |dates| && (dates[i] - dates[i - 1]) / TimedeltaDay > 1;
      assert dates[i] - dates[i - 1] >= 2 * TimedeltaDay;
    }
    if exists i :: 0 < i < |dates| && dates[i] - dates[i - 1] >= 2 * TimedeltaDay {
      var i :| 0 < i < |dates| && dates[i] - dates[i - 1] >= 2 * TimedeltaDay;
      assert (dates[i] - dates[i - 1]) / TimedeltaDay >= 2;
    }
  }

  /** Daily readings with at most one day between them raise no gap warning. */
  lemma DailyHasNoGap(dates: seq<int>)
    requires forall i :: 0 < i < |dates| ==> 0 <= dates[i] - dates[i - 1] < 2 * TimedeltaDay
    ensures !HasGap(dates)
  {
    forall i | 0 < i < |dates|
      ensures (dates[i] - dates[i - 1]) / TimedeltaDay <= 1
    {
      assert 0 <= dates[i] - dates[i - 1] < 2 * TimedeltaDay;
    }
  }
}
