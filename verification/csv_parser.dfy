/** The CSV gatekeeper of `lib/utils/csvParser.ts`: `parseCSV` turns text
    with the fixed seven-column header into validated rows or stops at the
    first broken rule; `dataToCSV` writes rows back out. Rows keep their
    fields as text, as the source does. */
module CsvParser {
  import opened Outcomes
  import opened Text
  import JstDates

  /** One line of the file, field by field, as trimmed text. */
  datatype DataRow = DataRow(
    date: string,
    actualPower: string,
    actualAmmonia: string,
    isRefill: string,
    predictedAmmonia: string,
    predictionError: string,
    predictionErrorPct: string)

  /** JavaScript's `parseFloat`, kept abstract: `None` is NaN. */
  type NumParser = string -> Option<real>

  /** The header, in order. */
  const Columns: seq<string> := ["date", "actual_power", "actual_ammonia", "is_refill",
                                 "predicted_ammonia", "prediction_error", "prediction_error_pct"]

  /** The header line `dataToCSV` writes, the column names comma-joined:
      `date,actual_power,actual_ammonia,is_refill,predicted_ammonia,prediction_error,prediction_error_pct`. */
  const HeaderLine: string := Join(Columns, ',')

  /** Inventory levels must lie in [0, MaxLevel] cubic metres. */
  const MaxLevel: real := 1200.0

  function Fields(r: DataRow): (f: seq<string>)
    ensures |f| == |Columns|
  {
    [r.date, r.actualPower, r.actualAmmonia, r.isRefill, r.predictedAmmonia,
     r.predictionError, r.predictionErrorPct]
  }

  function RowOf(v: seq<string>): (r: DataRow)
    requires |v| == |Columns|
    ensures Fields(r) == v
  {
    DataRow(v[0], v[1], v[2], v[3], v[4], v[5], v[6])
  }

  /** Why a single row was refused, in the order the checks run. */
  datatype RowError =
    | BadDate
    | NotNumeric(field: string)
    | BadRefillFlag
    | OutOfRange(field: string)

  /** Why a single data line was refused. */
  datatype LineError =
    | WrongColumnCount(count: nat)
    | InvalidRow(reason: RowError)

  /** Why a whole parse was refused. `line` is the index of the offending
      line among the non-empty lines, the header being line 0. */
  datatype ParseError =
    | InsufficientData
    | BadHeader(expected: seq<string>)
    | AtLine(line: nat, error: LineError)

  /** A successful parse: the rows and how many there are. */
  datatype Parsed = Parsed(data: seq<DataRow>, rowCount: nat)

  /** The numeric fields with their column names, in the order they are checked. */
  function NumericFields(r: DataRow): seq<(string, string)> {
    [("actual_power", r.actualPower), ("actual_ammonia", r.actualAmmonia),
     ("predicted_ammonia", r.predictedAmmonia), ("prediction_error", r.predictionError),
     ("prediction_error_pct", r.predictionErrorPct)]
  }

  predicate DateOk(r: DataRow) {
    HasShape(r.date, JstDates.SpacePattern)
  }

  predicate AllNumeric(r: DataRow, num: NumParser) {
    forall k :: 0 <= k < 5 ==> num(NumericFields(r)[k].1).Some?
  }

  predicate FlagOk(r: DataRow) {
    r.isRefill == "0" || r.isRefill == "1"
  }

  /** A parsed level inside [0, MaxLevel]. */
  predicate LevelOk(x: Option<real>) {
    x.Some? && 0.0 <= x.value <= MaxLevel
  }

  /** `field` names the first numeric field, in checking order, that does not parse. */
  ghost predicate FirstNonNumeric(r: DataRow, num: NumParser, field: string) {
    exists k :: 0 <= k < 5 && NumericFields(r)[k].0 == field && num(NumericFields(r)[k].1).None?
      && (forall j :: 0 <= j < k ==> num(NumericFields(r)[j].1).Some?)
  }

  /** Every rule `validateRow` enforces, stated as one conjunction. */
  predicate RowValid(r: DataRow, num: NumParser) {
    && DateOk(r)
    && AllNumeric(r, num)
    && FlagOk(r)
    && LevelOk(num(r.actualAmmonia))
    && LevelOk(num(r.predictedAmmonia))
  }

  /** `validateRow`: the first rule that fails decides the error. */
  function ValidateRow(r: DataRow, num: NumParser): (e: Option<RowError>)
    ensures e.None? <==> RowValid(r, num)
    ensures e == Some(BadDate) <==> !DateOk(r)
    ensures e.Some? && e.value.NotNumeric? ==> DateOk(r) && FirstNonNumeric(r, num, e.value.field)
    ensures (e.Some? && e.value.NotNumeric?) <==> DateOk(r) && !AllNumeric(r, num)
    ensures e == Some(BadRefillFlag) <==> DateOk(r) && AllNumeric(r, num) && !FlagOk(r)
    ensures e == Some(OutOfRange("actual_ammonia")) <==>
      DateOk(r) && AllNumeric(r, num) && FlagOk(r) && !LevelOk(num(r.actualAmmonia))
    ensures e == Some(OutOfRange("predicted_ammonia")) <==>
      DateOk(r) && AllNumeric(r, num) && FlagOk(r) && LevelOk(num(r.actualAmmonia))
      && !LevelOk(num(r.predictedAmmonia))
  {
    var nums := NumericFields(r);
    if !DateOk(r) then Some(BadDate)
    else if num(nums[0].1).None? then Some(NotNumeric(nums[0].0))
    else if num(nums[1].1).None? then Some(NotNumeric(nums[1].0))
    else if num(nums[2].1).None? then Some(NotNumeric(nums[2].0))
    else if num(nums[3].1).None? then Some(NotNumeric(nums[3].0))
    else if num(nums[4].1).None? then Some(NotNumeric(nums[4].0))
    else if !FlagOk(r) then Some(BadRefillFlag)
    else if !LevelOk(num(r.actualAmmonia)) then Some(OutOfRange("actual_ammonia"))
    else if !LevelOk(num(r.predictedAmmonia)) then Some(OutOfRange("predicted_ammonia"))
    else None
  }

  /** The lines the parser works on: the trimmed text split on newlines,
      empty lines dropped (whitespace-only lines are kept at this stage). */
  function Lines(text: string): seq<string> {
    NonEmpty(Split(Trim(text), '\n'))
  }

  /** The trimmed comma-separated fields of a line. */
  function CommaFields(line: string): seq<string> {
    TrimAll(Split(line, ','))
  }

  /** What becomes of one data line. */
  datatype LineVerdict = Blank | Rejected(error: LineError) | Accepted(row: DataRow)

  /** One iteration of the parse loop: a blank line is skipped, a line
      without exactly seven fields or with a failing row is refused, and
      anything else is accepted. */
  function ReadLine(line: string, num: NumParser): (v: LineVerdict)
    ensures v.Blank? <==> Trim(line) == ""
    ensures v.Rejected? && v.error.WrongColumnCount? ==> v.error.count != |Columns|
    ensures Trim(line) != "" && |CommaFields(Trim(line))| != |Columns| ==>
      v == Rejected(WrongColumnCount(|CommaFields(Trim(line))|))
    ensures v.Accepted? ==> |CommaFields(Trim(line))| == |Columns| && v.row == RowOf(CommaFields(Trim(line)))
    ensures Trim(line) != "" && |CommaFields(Trim(line))| == |Columns| ==>
      (v.Accepted? <==> ValidateRow(RowOf(CommaFields(Trim(line))), num).None?)
  {
    var t := Trim(line);
    if t == "" then Blank
    else
      var v := CommaFields(t);
      if |v| != |Columns| then Rejected(WrongColumnCount(|v|))
      else match ValidateRow(RowOf(v), num)
        case Some(e) => Rejected(InvalidRow(e))
        case None => Accepted(RowOf(v))
  }

  /** Fields as a successful parse leaves them: trimmed, and free of the
      comma and newline that delimit them. */
  predicate WellFormed(r: DataRow) {
    forall k :: 0 <= k < |Columns| ==>
      Trimmed(Fields(r)[k]) && ',' !in Fields(r)[k] && '\n' !in Fields(r)[k]
  }

  /** A character absent from a string is absent from anything built from its characters. */
  lemma AbsentWithin(a: string, b: string, x: char)
    requires CharsWithin(a, b) && x !in b
    ensures x !in a
  {
    forall k | 0 <= k < |a|
      ensures a[k] != x
    {
      assert a[k] in b;
    }
  }

  /** The fields of a newline-free line are trimmed and free of both delimiters. */
  lemma CommaFieldsClean(t: string)
    requires '\n' !in t
    ensures forall k :: 0 <= k < |CommaFields(t)| ==>
      Trimmed(CommaFields(t)[k]) && ',' !in CommaFields(t)[k] && '\n' !in CommaFields(t)[k]
  {
    var parts := Split(t, ',');
    var v := CommaFields(t);
    SplitWithin(t, ',');
    forall k | 0 <= k < |v|
      ensures Trimmed(v[k]) && ',' !in v[k] && '\n' !in v[k]
    {
      assert v[k] == Trim(parts[k]);
      TrimWithin(parts[k]);
      AbsentWithin(parts[k], t, '\n');
      AbsentWithin(v[k], parts[k], '\n');
      AbsentWithin(v[k], parts[k], ',');
    }
  }

  /** An accepted line yields a valid, well-formed row. */
  lemma AcceptedIsSound(line: string, num: NumParser)
    requires '\n' !in line
    requires ReadLine(line, num).Accepted?
    ensures RowValid(ReadLine(line, num).row, num)
    ensures WellFormed(ReadLine(line, num).row)
  {
    var t := Trim(line);
    var v := CommaFields(t);
    assert |v| == |Columns| && ValidateRow(RowOf(v), num).None? && ReadLine(line, num).row == RowOf(v);
    TrimWithin(line);
    AbsentWithin(t, line, '\n');
    CommaFieldsClean(t);
    var r := RowOf(v);
    forall k | 0 <= k < |Columns|
      ensures Trimmed(Fields(r)[k]) && ',' !in Fields(r)[k] && '\n' !in Fields(r)[k]
    {
      assert Fields(r)[k] == v[k];
    }
  }

  /** The verdict on every line. */
  function Verdicts(lines: seq<string>, num: NumParser): (vs: seq<LineVerdict>)
    ensures |vs| == |lines|
  {
    if |lines| == 0 then [] else [ReadLine(lines[0], num)] + Verdicts(lines[1..], num)
  }

  /** Entry `k` of the verdicts is the verdict on line `k`. */
  lemma {:induction false} VerdictsExact(lines: seq<string>, num: NumParser, k: nat)
    requires k < |lines|
    ensures Verdicts(lines, num)[k] == ReadLine(lines[k], num)
    decreases k
  {
    if k > 0 {
      VerdictsExact(lines[1..], num, k - 1);
    }
  }

  /** The rows of the accepted verdicts from `i` on, ignoring every error. */
  function Kept(vs: seq<LineVerdict>, i: nat): seq<DataRow>
    requires i <= |vs|
    decreases |vs| - i
  {
    if i == |vs| then []
    else if vs[i].Accepted? then [vs[i].row] + Kept(vs, i + 1)
    else Kept(vs, i + 1)
  }

  /** No verdict in `vs[i..j]` is a rejection. */
  ghost predicate NoneRejected(vs: seq<LineVerdict>, i: nat, j: nat)
    requires i <= j <= |vs|
  {
    forall k :: i <= k < j ==> !vs[k].Rejected?
  }

  /** The parse loop from line `i`: fail-fast over the verdicts. Every
      returned row comes from an accepted line, and an error names a
      rejected line and its reason. */
  function ParseRows(vs: seq<LineVerdict>, i: nat): (res: Result<seq<DataRow>, ParseError>)
    requires i <= |vs|
    ensures res.Ok? ==> |res.value| <= |vs| - i
    ensures res.Err? ==> (res.error.AtLine? && i <= res.error.line < |vs|
      && vs[res.error.line] == Rejected(res.error.error))
    decreases |vs| - i
  {
    if i == |vs| then Ok([])
    else match vs[i]
      case Blank => ParseRows(vs, i + 1)
      case Rejected(e) => Err(AtLine(i, e))
      case Accepted(r) =>
        match ParseRows(vs, i + 1)
        case Err(e) => Err(e)
        case Ok(rest) => Ok([r] + rest)
  }

  /** Fail-fast: the loop succeeds exactly when no line is rejected, and
      otherwise stops at the first rejected line. */
  lemma {:induction false} ParseRowsFailFast(vs: seq<LineVerdict>, i: nat)
    requires i <= |vs|
    ensures ParseRows(vs, i).Ok? <==> NoneRejected(vs, i, |vs|)
    ensures ParseRows(vs, i).Err? ==> (ParseRows(vs, i).error.AtLine?
      && i <= ParseRows(vs, i).error.line < |vs| && NoneRejected(vs, i, ParseRows(vs, i).error.line))
    decreases |vs| - i
  {
    if i < |vs| {
      ParseRowsFailFast(vs, i + 1);
    }
  }

  /** On success the rows are those of the accepted lines, in line order. */
  lemma {:induction false} ParseRowsKeepsOrder(vs: seq<LineVerdict>, i: nat)
    requires i <= |vs|
    requires ParseRows(vs, i).Ok?
    ensures ParseRows(vs, i).value == Kept(vs, i)
    decreases |vs| - i
  {
    if i < |vs| {
      ParseRowsKeepsOrder(vs, i + 1);
    }
  }

  /** The body of `parseCSV` once the text is split into lines: too few
      lines, then a wrong header, then the first rejected data line stop the
      parse; otherwise the accepted rows are returned with their count. */
  function ParseLines(lines: seq<string>, num: NumParser): (res: Result<Parsed, ParseError>)
    ensures |lines| < 2 <==> res == Err(InsufficientData)
    ensures |lines| >= 2 && CommaFields(lines[0]) != Columns <==> res == Err(BadHeader(Columns))
    ensures res.Ok? ==> res.value.rowCount == |res.value.data|
    ensures res.Err? && res.error.AtLine? ==> (1 <= res.error.line < |lines|
      && Verdicts(lines, num)[res.error.line] == Rejected(res.error.error))
  {
    if |lines| < 2 then Err(InsufficientData)
    else if CommaFields(lines[0]) != Columns then Err(BadHeader(Columns))
    else
      Counted(ParseRows(Verdicts(lines, num), 1))
  }

  /** A successful parse reports its rows with their count. */
  function Counted(rows: Result<seq<DataRow>, ParseError>): (res: Result<Parsed, ParseError>)
    ensures res.Ok? <==> rows.Ok?
    ensures res.Ok? ==> res.value == Parsed(rows.value, |rows.value|)
    ensures res.Err? ==> res.error == rows.error
  {
    match rows
    case Err(e) => Err(e)
    case Ok(d) => Ok(Parsed(d, |d|))
  }

  /** `parseCSV`: the text is trimmed, split on newlines and stripped of
      empty lines before the parse proper. */
  function ParseCsv(text: string, num: NumParser): Result<Parsed, ParseError> {
    ParseLines(Lines(text), num)
  }

  /** No line handed to the parse loop contains a newline. */
  lemma LinesHaveNoNewline(text: string)
    ensures forall k :: 0 <= k < |Lines(text)| ==> '\n' !in Lines(text)[k]
  {
    var parts := Split(Trim(text), '\n');
    NonEmptyWithin(parts);
    forall k | 0 <= k < |Lines(text)|
      ensures '\n' !in Lines(text)[k]
    {
      assert Lines(text)[k] in parts;
    }
  }

  /** Every accepted verdict carries a valid, well-formed row. */
  ghost predicate SoundVerdicts(vs: seq<LineVerdict>, num: NumParser) {
    forall j :: 0 <= j < |vs| && vs[j].Accepted? ==> RowValid(vs[j].row, num) && WellFormed(vs[j].row)
  }

  /** The verdicts on newline-free lines are sound. */
  lemma VerdictsSound(lines: seq<string>, num: NumParser)
    requires forall k :: 0 <= k < |lines| ==> '\n' !in lines[k]
    ensures SoundVerdicts(Verdicts(lines, num), num)
  {
    forall j | 0 <= j < |lines| && Verdicts(lines, num)[j].Accepted?
      ensures RowValid(Verdicts(lines, num)[j].row, num) && WellFormed(Verdicts(lines, num)[j].row)
    {
      VerdictSound(lines, num, j);
    }
  }

  /** The verdict on one newline-free line is sound. */
  lemma VerdictSound(lines: seq<string>, num: NumParser, j: nat)
    requires forall k :: 0 <= k < |lines| ==> '\n' !in lines[k]
    requires j < |lines| && Verdicts(lines, num)[j].Accepted?
    ensures RowValid(Verdicts(lines, num)[j].row, num) && WellFormed(Verdicts(lines, num)[j].row)
  {
    VerdictsExact(lines, num, j);
    AcceptedIsSound(lines[j], num);
  }

  /** The rows kept from sound verdicts are valid and well formed. */
  lemma {:induction false} KeptSound(vs: seq<LineVerdict>, i: nat, num: NumParser)
    requires i <= |vs| && SoundVerdicts(vs, num)
    ensures forall k :: 0 <= k < |Kept(vs, i)| ==> RowValid(Kept(vs, i)[k], num) && WellFormed(Kept(vs, i)[k])
    decreases |vs| - i
  {
    if i < |vs| {
      KeptSound(vs, i + 1, num);
    }
  }

  /** Every row of a successful parse of newline-free lines passes
      `validateRow` and is well formed. */
  lemma ParseLinesSound(lines: seq<string>, num: NumParser)
    requires forall k :: 0 <= k < |lines| ==> '\n' !in lines[k]
    requires ParseLines(lines, num).Ok?
    ensures forall k :: 0 <= k < |ParseLines(lines, num).value.data| ==>
      RowValid(ParseLines(lines, num).value.data[k], num) && WellFormed(ParseLines(lines, num).value.data[k])
  {
    var vs := Verdicts(lines, num);
    VerdictsSound(lines, num);
    ParseRowsKeepsOrder(vs, 1);
    KeptSound(vs, 1, num);
  }

  /** Every row `parseCSV` returns passes `validateRow` and is well formed. */
  lemma ParseCsvSound(text: string, num: NumParser)
    requires ParseCsv(text, num).Ok?
    ensures forall k :: 0 <= k < |ParseCsv(text, num).value.data| ==>
      RowValid(ParseCsv(text, num).value.data[k], num) && WellFormed(ParseCsv(text, num).value.data[k])
  {
    var lines := Lines(text);
    LinesHaveNoNewline(text);
    ParseLinesSound(lines, num);
  }

  /** Past a well-formed header, the parse is the parse loop from line 1. */
  lemma ParseLinesIsLoop(lines: seq<string>, num: NumParser)
    requires |lines| >= 2 && CommaFields(lines[0]) == Columns
    ensures ParseLines(lines, num) == Counted(ParseRows(Verdicts(lines, num), 1))
  {
  }

  /** Past a well-formed header, the parse succeeds exactly when no data
      line is rejected, and then returns the rows of the non-blank lines in
      order; otherwise it stops at the first rejected line. */
  lemma ParseLinesFailFast(lines: seq<string>, num: NumParser)
    requires |lines| >= 2 && CommaFields(lines[0]) == Columns
    ensures ParseLines(lines, num).Ok? <==> NoneRejected(Verdicts(lines, num), 1, |lines|)
    ensures ParseLines(lines, num).Ok? ==> ParseLines(lines, num).value.data == Kept(Verdicts(lines, num), 1)
    ensures ParseLines(lines, num).Err? ==> (ParseLines(lines, num).error.AtLine?
      && NoneRejected(Verdicts(lines, num), 1, ParseLines(lines, num).error.line))
  {
    var vs := Verdicts(lines, num);
    ParseLinesIsLoop(lines, num);
    ParseRowsFailFast(vs, 1);
    if ParseRows(vs, 1).Ok? {
      ParseRowsKeepsOrder(vs, 1);
    }
  }

  /** One output line of `dataToCSV`: the fields in column order, comma-joined. */
  function RowLine(r: DataRow): string {
    Join(Fields(r), ',')
  }

  /** The output lines of `dataToCSV` after the header. */
  function RowLines(d: seq<DataRow>): (ls: seq<string>)
    ensures |ls| == |d|
    ensures forall k :: 0 <= k < |d| ==> ls[k] == RowLine(d[k])
  {
    if |d| == 0 then [] else [RowLine(d[0])] + RowLines(d[1..])
  }

  /** `dataToCSV`: the header, then one line per row, newline-joined. */
  function DataToCsv(d: seq<DataRow>): string {
    Join([HeaderLine] + RowLines(d), '\n')
  }

  /** Trimming each of a list of trimmed strings changes nothing. */
  lemma TrimAllOfTrimmed(xs: seq<string>)
    requires forall k :: 0 <= k < |xs| ==> Trimmed(xs[k])
    ensures TrimAll(xs) == xs
  {
    forall k | 0 <= k < |xs|
      ensures TrimAll(xs)[k] == xs[k]
    {
      TrimOfTrimmed(xs[k]);
    }
  }

  /** Splitting a comma-joined list of clean fields gives the fields back. */
  lemma CommaFieldsOfJoin(f: seq<string>)
    requires |f| >= 1
    requires forall k :: 0 <= k < |f| ==> Trimmed(f[k]) && ',' !in f[k]
    ensures CommaFields(Join(f, ',')) == f
  {
    SplitJoin(f, ',');
    TrimAllOfTrimmed(f);
  }

  /** A lower-case identifier character. */
  predicate IsNameChar(c: char) {
    'a' <= c <= 'z' || c == '_'
  }

  /** A non-empty identifier is trimmed and holds neither delimiter. */
  lemma NameIsClean(s: string)
    requires |s| > 0 && forall k :: 0 <= k < |s| ==> IsNameChar(s[k])
    ensures Trimmed(s) && ',' !in s && '\n' !in s
  {
    assert IsNameChar(s[0]) && IsNameChar(s[|s| - 1]);
  }

  /** Every column name is a clean field. */
  lemma ColumnsClean()
    ensures forall k :: 0 <= k < |Columns| ==> Trimmed(Columns[k]) && ',' !in Columns[k] && '\n' !in Columns[k]
  {
    forall k | 0 <= k < |Columns|
      ensures Trimmed(Columns[k]) && ',' !in Columns[k] && '\n' !in Columns[k]
    {
      NameIsClean(Columns[k]);
    }
  }

  /** The header `dataToCSV` writes is the one `parseCSV` demands. */
  lemma HeaderRoundTrip()
    ensures CommaFields(HeaderLine) == Columns
    ensures '\n' !in HeaderLine && Trimmed(HeaderLine) && |HeaderLine| > 0
  {
    var f := Columns;
    ColumnsClean();
    CommaFieldsOfJoin(f);
    JoinAvoids(f, ',', '\n');
    JoinEnds(f, ',');
  }

  /** The line written for a row with a well-formed date and fields is
      non-empty, trimmed and free of newlines. */
  lemma RowLineClean(r: DataRow)
    requires DateOk(r) && WellFormed(r)
    ensures '\n' !in RowLine(r)
    ensures Trimmed(RowLine(r)) && |RowLine(r)| > 0
  {
    var f := Fields(r);
    JoinAvoids(f, ',', '\n');
    JoinLast(f, ',');
    assert JstDates.SpacePattern[0] == '#';
    assert |r.date| == 19 && IsDigit(r.date[0]) && !IsSpace(r.date[0]);
    assert Trimmed(f[6]);
  }

  /** The line written for a valid, well-formed row is a trimmed,
      newline-free line that reads back as that row. */
  lemma RowLineRoundTrip(r: DataRow, num: NumParser)
    requires RowValid(r, num) && WellFormed(r)
    ensures '\n' !in RowLine(r)
    ensures Trimmed(RowLine(r)) && |RowLine(r)| > 0
    ensures ReadLine(RowLine(r), num) == Accepted(r)
  {
    var f := Fields(r);
    RowLineClean(r);
    TrimOfTrimmed(RowLine(r));
    CommaFieldsOfJoin(f);
    assert RowOf(f) == r;
  }

  /** The parse loop accepts every line of a sequence of accepted verdicts. */
  lemma {:induction false} ParseRowsAllAccepted(vs: seq<LineVerdict>, i: nat, d: seq<DataRow>)
    requires i <= |vs| && |vs| - i == |d|
    requires forall k :: 0 <= k < |d| ==> vs[i + k] == Accepted(d[k])
    ensures ParseRows(vs, i) == Ok(d)
    decreases |d|
  {
    if |d| > 0 {
      assert vs[i] == Accepted(d[0]);
      ParseRowsAllAccepted(vs, i + 1, d[1..]);
      assert [d[0]] + d[1..] == d;
    }
  }

  /** Newline-joining non-empty, trimmed, newline-free lines and reading
      the result back gives the same lines. */
  lemma LinesOfJoin(parts: seq<string>)
    requires |parts| >= 1
    requires forall k :: 0 <= k < |parts| ==> |parts[k]| > 0 && Trimmed(parts[k]) && '\n' !in parts[k]
    ensures Lines(Join(parts, '\n')) == parts
  {
    var text := Join(parts, '\n');
    JoinEnds(parts, '\n');
    assert Trimmed(parts[0]) && Trimmed(parts[|parts| - 1]);
    assert Trimmed(text);
    TrimOfTrimmed(text);
    SplitJoin(parts, '\n');
  }

  /** Every line `dataToCSV` writes for valid, well-formed rows is
      non-empty, trimmed and newline-free. */
  lemma ExportLinesClean(d: seq<DataRow>, num: NumParser)
    requires forall k :: 0 <= k < |d| ==> RowValid(d[k], num) && WellFormed(d[k])
    ensures forall k :: 0 <= k < |[HeaderLine] + RowLines(d)| ==>
      var p := ([HeaderLine] + RowLines(d))[k]; |p| > 0 && Trimmed(p) && '\n' !in p
  {
    var parts := [HeaderLine] + RowLines(d);
    HeaderRoundTrip();
    forall k | 0 <= k < |parts|
      ensures |parts[k]| > 0 && Trimmed(parts[k]) && '\n' !in parts[k]
    {
      if k > 0 {
        assert parts[k] == RowLine(d[k - 1]);
        RowLineRoundTrip(d[k - 1], num);
      }
    }
  }

  /** The lines `dataToCSV` writes are exactly the lines `parseCSV` reads. */
  lemma LinesOfDataToCsv(d: seq<DataRow>, num: NumParser)
    requires forall k :: 0 <= k < |d| ==> RowValid(d[k], num) && WellFormed(d[k])
    ensures Lines(DataToCsv(d)) == [HeaderLine] + RowLines(d)
  {
    ExportLinesClean(d, num);
    LinesOfJoin([HeaderLine] + RowLines(d));
  }

  /** The verdict on a line holding a valid, well-formed row's output. */
  lemma VerdictAt(lines: seq<string>, num: NumParser, i: nat, r: DataRow)
    requires i < |lines| && lines[i] == RowLine(r)
    requires RowValid(r, num) && WellFormed(r)
    ensures Verdicts(lines, num)[i] == Accepted(r)
  {
    VerdictsExact(lines, num, i);
    RowLineRoundTrip(r, num);
  }

  /** One data line of a block of row lines is accepted as its row. */
  lemma VerdictOfRowLine(lines: seq<string>, d: seq<DataRow>, num: NumParser, k: nat)
    requires |lines| == |d| + 1 && k < |d|
    requires forall k :: 0 <= k < |d| ==> lines[1 + k] == RowLine(d[k])
    requires forall k :: 0 <= k < |d| ==> RowValid(d[k], num) && WellFormed(d[k])
    ensures Verdicts(lines, num)[1 + k] == Accepted(d[k])
  {
    var r := d[k];
    assert lines[1 + k] == RowLine(r);
    assert RowValid(r, num) && WellFormed(r);
    VerdictAt(lines, num, 1 + k, r);
  }

  /** Lines that after the first hold the output of valid, well-formed rows
      are accepted as those rows. */
  lemma VerdictsOfRowLines(lines: seq<string>, d: seq<DataRow>, num: NumParser)
    requires |lines| == |d| + 1
    requires forall k :: 0 <= k < |d| ==> lines[1 + k] == RowLine(d[k])
    requires forall k :: 0 <= k < |d| ==> RowValid(d[k], num) && WellFormed(d[k])
    ensures forall k :: 0 <= k < |d| ==> Verdicts(lines, num)[1 + k] == Accepted(d[k])
  {
    forall k | 0 <= k < |d|
      ensures Verdicts(lines, num)[1 + k] == Accepted(d[k])
    {
      VerdictOfRowLine(lines, d, num, k);
    }
  }

  /** The lines written for valid, well-formed rows parse back to those rows. */
  lemma ParseLinesOfExport(d: seq<DataRow>, num: NumParser)
    requires |d| >= 1
    requires forall k :: 0 <= k < |d| ==> RowValid(d[k], num) && WellFormed(d[k])
    ensures ParseLines([HeaderLine] + RowLines(d), num) == Ok(Parsed(d, |d|))
  {
    HeaderRoundTrip();
    ParseLinesOfRows(HeaderLine, d, num);
  }

  /** Under a correct header, lines holding valid, well-formed rows parse
      back to those rows. */
  lemma ParseLinesOfRows(h: string, d: seq<DataRow>, num: NumParser)
    requires |d| >= 1 && CommaFields(h) == Columns
    requires forall k :: 0 <= k < |d| ==> RowValid(d[k], num) && WellFormed(d[k])
    ensures ParseLines([h] + RowLines(d), num) == Ok(Parsed(d, |d|))
  {
    var lines := [h] + RowLines(d);
    assert forall k :: 0 <= k < |d| ==> lines[1 + k] == RowLine(d[k]);
    VerdictsOfRowLines(lines, d, num);
    ParseRowsAllAccepted(Verdicts(lines, num), 1, d);
    ParseLinesIsLoop(lines, num);
  }

  /** Round trip: parsing what `dataToCSV` writes for a non-empty list of
      valid, well-formed rows gives back the same rows and their count. */
  lemma DataToCsvRoundTrip(d: seq<DataRow>, num: NumParser)
    requires |d| >= 1
    requires forall k :: 0 <= k < |d| ==> RowValid(d[k], num) && WellFormed(d[k])
    ensures ParseCsv(DataToCsv(d), num) == Ok(Parsed(d, |d|))
  {
    LinesOfDataToCsv(d, num);
    ParseLinesOfExport(d, num);
  }

  /** Round trip from text: whatever non-empty row list `parseCSV` returns,
      writing it out and parsing again returns exactly that list. */
  lemma ReparseIsIdentity(text: string, num: NumParser)
    requires ParseCsv(text, num).Ok? && |ParseCsv(text, num).value.data| >= 1
    ensures var d := ParseCsv(text, num).value.data;
      ParseCsv(DataToCsv(d), num) == Ok(Parsed(d, |d|))
  {
    ParseCsvSound(text, num);
    DataToCsvRoundTrip(ParseCsv(text, num).value.data, num);
  }

  /** With no rows, `dataToCSV` writes only the header, which `parseCSV`
      refuses for want of data. */
  lemma EmptyExportIsRefused(num: NumParser)
    ensures DataToCsv([]) == HeaderLine
    ensures ParseCsv(DataToCsv([]), num) == Err(InsufficientData)
  {
    HeaderRoundTrip();
    assert Trimmed(HeaderLine);
    TrimOfTrimmed(HeaderLine);
    SplitWithoutSeparator(HeaderLine, '\n');
  }
}
