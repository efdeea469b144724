/** The consistency checks of `lib/utils/validators.ts`: the derived columns
    of each row against the level columns, the upload size, the date order
    and sudden unflagged level changes. A number that fails to parse is NaN
    in the source; every comparison with NaN is false, so a NaN never makes
    a check fail. */
module Validators {
  import opened Outcomes
  import opened CsvParser
  import JstDates
  import opened Statistics

  /** Why a check failed. */
  datatype Problem =
    | ErrorMismatch(expected: real, found: real)
    | PctMismatch(expected: real, found: real)
    | TooLarge(maxMegabytes: real)
    | OutOfOrder(line: nat)
    | AtRow(row: nat, problem: Problem)

  /** A remark on data that passed. */
  datatype Warning =
    | PctSkipped
    | OnRow(row: nat, warning: Warning)
    | SuddenChange(row: nat, change: real)

  /** `ValidationResult`: valid, with warnings only when there are some, or
      invalid with the error. */
  datatype Validation = Valid(warnings: Option<seq<Warning>>) | Invalid(error: Problem)

  /** Largest difference tolerated between `prediction_error` and
      `predicted_ammonia - actual_ammonia`, in cubic metres. */
  const ErrorTolerance: real := 0.01
  /** Largest difference tolerated for `prediction_error_pct`, in percentage points. */
  const PctTolerance: real := 0.1
  /** `validateFileSize`'s default limit. */
  const DefaultMaxMegabytes: real := 5.0
  const BytesPerMegabyte: int := 1024 * 1024
  /** `detectAnomalies`' default threshold, in cubic metres. */
  const DefaultAnomalyThreshold: real := 300.0

  /** The stored error is off from predicted minus actual by more than the
      tolerance (false when any of the three is NaN). */
  predicate ErrorInconsistent(r: DataRow, num: NumParser) {
    var a, p, e := num(r.actualAmmonia), num(r.predictedAmmonia), num(r.predictionError);
    a.Some? && p.Some? && e.Some? && Abs(e.value - (p.value - a.value)) > ErrorTolerance
  }

  /** `validatePredictionError`. */
  function ValidatePredictionError(r: DataRow, num: NumParser): (v: Validation)
    ensures v.Invalid? <==> ErrorInconsistent(r, num)
    ensures v.Valid? ==> v.warnings.None?
    ensures v.Invalid? ==> (v.error.ErrorMismatch?
      && v.error.expected == num(r.predictedAmmonia).value - num(r.actualAmmonia).value
      && v.error.found == num(r.predictionError).value)
  {
    match (num(r.actualAmmonia), num(r.predictedAmmonia), num(r.predictionError))
    case (Some(a), Some(p), Some(e)) =>
      if Abs(e - (p - a)) > ErrorTolerance then Invalid(ErrorMismatch(p - a, e)) else Valid(None)
    case _ => Valid(None)
  }

  /** The stored percentage is off from error over actual times 100 by more
      than the tolerance (false when actual is zero or anything is NaN). */
  predicate PctInconsistent(r: DataRow, num: NumParser) {
    var a, e, pct := num(r.actualAmmonia), num(r.predictionError), num(r.predictionErrorPct);
    a.Some? && e.Some? && pct.Some? && a.value != 0.0
      && Abs(pct.value - e.value / a.value * 100.0) > PctTolerance
  }

  /** `validatePredictionErrorPct`: a zero actual level skips the check with a warning. */
  function ValidatePredictionErrorPct(r: DataRow, num: NumParser): (v: Validation)
    ensures v.Invalid? <==> PctInconsistent(r, num)
    ensures v == Valid(Some([PctSkipped])) <==> num(r.actualAmmonia) == Some(0.0)
    ensures v.Valid? && num(r.actualAmmonia) != Some(0.0) ==> v.warnings.None?
    ensures v.Invalid? ==> (v.error.PctMismatch?
      && v.error.expected == num(r.predictionError).value / num(r.actualAmmonia).value * 100.0
      && v.error.found == num(r.predictionErrorPct).value)
  {
    if num(r.actualAmmonia) == Some(0.0) then Valid(Some([PctSkipped]))
    else match (num(r.actualAmmonia), num(r.predictionError), num(r.predictionErrorPct))
      case (Some(a), Some(e), Some(pct)) =>
        var expected := e / a * 100.0;
        if Abs(pct - expected) > PctTolerance then Invalid(PctMismatch(expected, pct)) else Valid(None)
      case _ => Valid(None)
  }

  /** A row whose derived columns are exactly what they are derived from
      passes both checks. */
  lemma ExactRowPasses(r: DataRow, num: NumParser, a: real, p: real)
    requires a != 0.0
    requires num(r.actualAmmonia) == Some(a) && num(r.predictedAmmonia) == Some(p)
    requires num(r.predictionError) == Some(p - a)
    requires num(r.predictionErrorPct) == Some((p - a) / a * 100.0)
    ensures ValidatePredictionError(r, num) == Valid(None)
    ensures ValidatePredictionErrorPct(r, num) == Valid(None)
  {
  }

  /** The first problem of a row, the error check running before the
      percentage check. */
  function RowProblem(r: DataRow, num: NumParser): (p: Option<Problem>)
    ensures p.None? <==> !ErrorInconsistent(r, num) && !PctInconsistent(r, num)
    ensures ErrorInconsistent(r, num) ==> p == Some(ValidatePredictionError(r, num).error)
    ensures !ErrorInconsistent(r, num) && PctInconsistent(r, num) ==>
      p == Some(ValidatePredictionErrorPct(r, num).error)
  {
    match ValidatePredictionError(r, num)
    case Invalid(e) => Some(e)
    case Valid(_) =>
      match ValidatePredictionErrorPct(r, num)
      case Invalid(e) => Some(e)
      case Valid(_) => None
  }

  /** Row `k` (0-based) is the first one with a problem. */
  ghost predicate FirstProblemAt(d: seq<DataRow>, num: NumParser, k: nat) {
    && k < |d|
    && RowProblem(d[k], num).Some?
    && forall j :: 0 <= j < k ==> RowProblem(d[j], num).None?
  }

  /** The skipped-percentage warnings of the first `n` rows, each tagged
      with its 1-based row number. */
  function SkipNotes(d: seq<DataRow>, num: NumParser, n: nat): (w: seq<Warning>)
    requires n <= |d|
    ensures |w| <= n
  {
    if n == 0 then []
    else
      var tail := if num(d[n - 1].actualAmmonia) == Some(0.0) then [OnRow(n, PctSkipped)] else [];
      SkipNotes(d, num, n - 1) + tail
  }

  /** Row `k` (0-based) draws a warning exactly when its actual level is zero. */
  lemma {:induction false} SkipNotesExact(d: seq<DataRow>, num: NumParser, n: nat, k: nat)
    requires n <= |d|
    ensures OnRow(k + 1, PctSkipped) in SkipNotes(d, num, n) <==>
      k < n && num(d[k].actualAmmonia) == Some(0.0)
  {
    if n > 0 {
      SkipNotesExact(d, num, n - 1, k);
      SkipNotesBelow(d, num, n - 1);
    } else {
      assert SkipNotes(d, num, n) == [];
    }
  }

  /** Every warning of the first `n` rows names one of those rows. */
  lemma {:induction false} SkipNotesBelow(d: seq<DataRow>, num: NumParser, n: nat)
    requires n <= |d|
    ensures forall w :: w in SkipNotes(d, num, n) ==> w.OnRow? && 1 <= w.row <= n
  {
    if n > 0 {
      SkipNotesBelow(d, num, n - 1);
    }
  }

  /** Present only when non-empty, as the source reports warnings. */
  function Notes(w: seq<Warning>): (o: Option<seq<Warning>>)
    ensures o.None? <==> |w| == 0
    ensures o.Some? ==> o.value == w
  {
    if |w| == 0 then None else Some(w)
  }

  /** The warnings of one row, each tagged with its 1-based row number. */
  function Tagged(row: nat, ws: seq<Warning>): (t: seq<Warning>)
    ensures |t| == |ws|
    ensures forall k :: 0 <= k < |ws| ==> t[k] == OnRow(row, ws[k])
  {
    if |ws| == 0 then [] else [OnRow(row, ws[0])] + Tagged(row, ws[1..])
  }

  /** One more passing row extends the skip warnings by its own, tagged. */
  lemma SkipNotesStep(d: seq<DataRow>, num: NumParser, i: nat)
    requires i < |d|
    requires ValidatePredictionErrorPct(d[i], num).Valid?
    ensures var w := ValidatePredictionErrorPct(d[i], num).warnings;
      SkipNotes(d, num, i + 1) == SkipNotes(d, num, i) + (if w.Some? then Tagged(i + 1, w.value) else [])
  {
    var w := ValidatePredictionErrorPct(d[i], num).warnings;
    if num(d[i].actualAmmonia) == Some(0.0) {
      assert w == Some([PctSkipped]);
      assert Tagged(i + 1, [PctSkipped]) == [OnRow(i + 1, PctSkipped)];
    }
  }

  /** `validateDataset`: stops at the first row with a problem and reports
      it with the row's 1-based number; otherwise valid, with the
      skipped-percentage warnings of all rows. */
  method ValidateDataset(d: seq<DataRow>, num: NumParser) returns (v: Validation)
    ensures v.Invalid? <==> exists k :: 0 <= k < |d| && RowProblem(d[k], num).Some?
    ensures v.Invalid? ==> exists k: nat :: (FirstProblemAt(d, num, k)
      && v.error == AtRow(k + 1, RowProblem(d[k], num).value))
    ensures v.Valid? ==> v.warnings == Notes(SkipNotes(d, num, |d|))
  {
    var warnings: seq<Warning> := [];
    var i := 0;
    while i < |d|
      invariant i <= |d|
      invariant forall j :: 0 <= j < i ==> RowProblem(d[j], num).None?
      invariant warnings == SkipNotes(d, num, i)
    {
      var e := ValidatePredictionError(d[i], num);
      if e.Invalid? {
        assert FirstProblemAt(d, num, i);
        return Invalid(AtRow(i + 1, e.error));
      }
      var p := ValidatePredictionErrorPct(d[i], num);
      if p.Invalid? {
        assert FirstProblemAt(d, num, i);
        return Invalid(AtRow(i + 1, p.error));
      }
      SkipNotesStep(d, num, i);
      if p.warnings.Some? {
        warnings := warnings + Tagged(i + 1, p.warnings.value);
      }
      i := i + 1;
    }
    return Valid(Notes(warnings));
  }

  /** `validateFileSize`: at most `maxMegabytes` mebibytes; the limit may
      be fractional. */
  function ValidateFileSize(bytes: int, maxMegabytes: real): (v: Validation)
    ensures v.Valid? <==> bytes as real <= maxMegabytes * BytesPerMegabyte as real
    ensures v.Valid? ==> v.warnings.None?
    ensures v.Invalid? ==> v.error == TooLarge(maxMegabytes)
  {
    var maxBytes := maxMegabytes * BytesPerMegabyte as real;
    if bytes as real > maxBytes then Invalid(TooLarge(maxMegabytes)) else Valid(None)
  }

  /** With the default limit, 5 MiB is accepted and one byte more is not;
      half a mebibyte admits 524288 bytes and no more. */
  lemma DefaultFileSizeLimit()
    ensures ValidateFileSize(5242880, DefaultMaxMegabytes).Valid?
    ensures ValidateFileSize(5242881, DefaultMaxMegabytes) == Invalid(TooLarge(5.0))
    ensures ValidateFileSize(524288, 0.5).Valid?
    ensures ValidateFileSize(524289, 0.5) == Invalid(TooLarge(0.5))
  {
  }

  /** The check is monotone: a file that passes under a limit passes under
      any larger limit, and so does any smaller file. */
  lemma FileSizeMonotone(bytes: int, smaller: int, limit: real, larger: real)
    requires smaller <= bytes && limit <= larger
    ensures ValidateFileSize(bytes, limit).Valid? ==> ValidateFileSize(smaller, larger).Valid?
  {
    assert limit * BytesPerMegabyte as real <= larger * BytesPerMegabyte as real;
  }

  /** `new Date(prev) > new Date(curr)`, false when either is Invalid Date. */
  predicate Later(prev: Option<int>, curr: Option<int>) {
    prev.Some? && curr.Some? && prev.value > curr.value
  }

  /** `new Date(row.date)` for every row. */
  function Instants(d: seq<DataRow>): (ts: seq<Option<int>>)
    ensures |ts| == |d|
  {
    if |d| == 0 then [] else [JstDates.HostDate(d[0].date)] + Instants(d[1..])
  }

  /** Entry `k` of `Instants(d)` is row `k`'s date as `new Date` reads it. */
  lemma {:induction false} InstantsExact(d: seq<DataRow>, k: nat)
    requires k < |d|
    ensures Instants(d)[k] == JstDates.HostDate(d[k].date)
  {
    if k > 0 {
      InstantsExact(d[1..], k - 1);
    }
  }

  /** Entries `i - 1` and `i` are out of time order. */
  predicate OutOfOrderAt(ts: seq<Option<int>>, i: nat) {
    1 <= i < |ts| && Later(ts[i - 1], ts[i])
  }

  /** `validateDateOrder`: the first pair whose earlier row has the later
      date is reported by the index of the second row. */
  method ValidateDateOrder(d: seq<DataRow>) returns (v: Validation)
    ensures v.Invalid? <==> exists i: nat :: OutOfOrderAt(Instants(d), i)
    ensures v.Invalid? ==> (v.error.OutOfOrder? && OutOfOrderAt(Instants(d), v.error.line)
      && forall j: nat :: 1 <= j < v.error.line ==> !OutOfOrderAt(Instants(d), j))
    ensures v.Valid? ==> v.warnings.None?
  {
    var ts := Instants(d);
    var i: nat := 1;
    while i < |ts|
      invariant 1 <= i
      invariant forall j: nat :: 1 <= j < i ==> !OutOfOrderAt(ts, j)
    {
      if Later(ts[i - 1], ts[i]) {
        assert OutOfOrderAt(Instants(d), i);
        v := Invalid(OutOfOrder(i));
        assert exists i: nat :: OutOfOrderAt(Instants(d), i);
        return;
      }
      i := i + 1;
    }
    return Valid(None);
  }

  /** When every date resolves, passing `validateDateOrder` means the whole
      sequence is in non-decreasing time order, not just neighbouring rows. */
  lemma {:induction false} DateOrderIsSorted(ts: seq<Option<int>>, i: nat, j: nat)
    requires forall k :: 0 <= k < |ts| ==> ts[k].Some?
    requires forall k: nat :: !OutOfOrderAt(ts, k)
    requires i <= j < |ts|
    ensures ts[i].value <= ts[j].value
    decreases j - i
  {
    if i < j {
      DateOrderIsSorted(ts, i, j - 1);
      assert !OutOfOrderAt(ts, j);
    }
  }

  /** The change between rows `i - 1` and `i` when both levels parse. */
  function Change(d: seq<DataRow>, num: NumParser, i: nat): (c: Option<real>)
    requires 1 <= i < |d|
    ensures c.Some? <==> num(d[i - 1].actualAmmonia).Some? && num(d[i].actualAmmonia).Some?
    ensures c.Some? ==> c.value >= 0.0
  {
    match (num(d[i - 1].actualAmmonia), num(d[i].actualAmmonia))
    case (Some(prev), Some(curr)) => Some(Abs(curr - prev))
    case _ => None
  }

  /** Row `i` changes the level by more than `threshold` without a refill flag. */
  predicate Anomalous(d: seq<DataRow>, num: NumParser, threshold: real, i: nat) {
    1 <= i < |d| && d[i].isRefill != "1"
      && Change(d, num, i).Some? && Change(d, num, i).value > threshold
  }

  /** At the default threshold a change of exactly 300 m³ is not an anomaly
      and a fall of 300.5 m³ is. */
  lemma DefaultThresholdExample(d: seq<DataRow>, num: NumParser)
    requires |d| == 3 && d[1].isRefill == "0" && d[2].isRefill == "0"
    requires num(d[0].actualAmmonia) == Some(600.0)
    requires num(d[1].actualAmmonia) == Some(900.0)
    requires num(d[2].actualAmmonia) == Some(599.5)
    ensures !Anomalous(d, num, DefaultAnomalyThreshold, 1)
    ensures Anomalous(d, num, DefaultAnomalyThreshold, 2)
  {
  }

  /** The anomaly warnings for rows `1..n-1`, in row order, tagged with the
      1-based row number. */
  function Anomalies(d: seq<DataRow>, num: NumParser, threshold: real, n: nat): (w: seq<Warning>)
    requires n <= |d|
    ensures |w| <= n
  {
    if n <= 1 then []
    else
      var tail := if Anomalous(d, num, threshold, n - 1)
        then [SuddenChange(n, Change(d, num, n - 1).value)] else [];
      Anomalies(d, num, threshold, n - 1) + tail
  }

  /** Some warning of `w` names row `row`. */
  ghost predicate Reports(w: seq<Warning>, row: nat) {
    exists k :: 0 <= k < |w| && w[k].SuddenChange? && w[k].row == row
  }

  /** Every anomaly warning of the first `n` rows names an anomalous row
      among rows `2..n` with that row's change. */
  lemma {:induction false} AnomaliesSound(d: seq<DataRow>, num: NumParser, threshold: real, n: nat)
    requires n <= |d|
    ensures forall w :: w in Anomalies(d, num, threshold, n) ==>
      w.SuddenChange? && 2 <= w.row <= n && Anomalous(d, num, threshold, w.row - 1)
      && w.change == Change(d, num, w.row - 1).value
  {
    if n > 1 {
      AnomaliesSound(d, num, threshold, n - 1);
    }
  }

  /** Every anomalous row among the first `n` is reported with its change. */
  lemma {:induction false} AnomaliesComplete(d: seq<DataRow>, num: NumParser, threshold: real, n: nat, i: nat)
    requires n <= |d|
    requires i < n && Anomalous(d, num, threshold, i)
    ensures SuddenChange(i + 1, Change(d, num, i).value) in Anomalies(d, num, threshold, n)
  {
    if i < n - 1 {
      AnomaliesComplete(d, num, threshold, n - 1, i);
    }
  }

  /** Row `i` (0-based) is reported exactly when it is anomalous. */
  lemma AnomaliesExact(d: seq<DataRow>, num: NumParser, threshold: real, n: nat, i: nat)
    requires n <= |d|
    ensures Reports(Anomalies(d, num, threshold, n), i + 1) <==> i < n && Anomalous(d, num, threshold, i)
  {
    var w := Anomalies(d, num, threshold, n);
    AnomaliesSound(d, num, threshold, n);
    if Reports(w, i + 1) {
      var k :| 0 <= k < |w| && w[k].SuddenChange? && w[k].row == i + 1;
      assert w[k] in w;
    }
    if i < n && Anomalous(d, num, threshold, i) {
      AnomaliesComplete(d, num, threshold, n, i);
      var k :| 0 <= k < |w| && w[k] == SuddenChange(i + 1, Change(d, num, i).value);
    }
  }

  /** `detectAnomalies`: always valid; warns about every unflagged change
      larger than `threshold`. */
  method DetectAnomalies(d: seq<DataRow>, num: NumParser, threshold: real) returns (v: Validation)
    ensures v.Valid?
    ensures v.warnings == Notes(Anomalies(d, num, threshold, |d|))
  {
    var warnings: seq<Warning> := [];
    var i := 1;
    while i < |d|
      invariant 1 <= i
      invariant i <= |d| || |d| == 0
      invariant warnings == Anomalies(d, num, threshold, if |d| == 0 then 0 else i)
    {
      var prev := num(d[i - 1].actualAmmonia);
      var curr := num(d[i].actualAmmonia);
      var isRefill := d[i].isRefill == "1";
      if prev.Some? && curr.Some? {
        var change := Abs(curr.value - prev.value);
        if !isRefill && change > threshold {
          warnings := warnings + [SuddenChange(i + 1, change)];
        }
      }
      i := i + 1;
    }
    return Valid(Notes(warnings));
  }
}
