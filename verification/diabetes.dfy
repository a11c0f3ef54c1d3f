/** The type-2 diabetes cohorts of `diabetes_modeling` and their replay in
    `rf_evaluation_diabetes`: the signed day offset between the first E11
    report and the assessment visit puts a case in one of four onset
    windows, the LADA rule removes lean cases, and the evaluation repeats
    both steps with the window bounds stored next to each forest.
 */
module Diabetes {
  import opened Wrappers
  import opened Dates
  import opened Labels

  /** One participant row of the train or the test table, reduced to the
      columns the diabetes code reads. `diabetesBinary` is the
      `first_occurence_diabetes_binary` label (`nan_to_binary` of the
      earliest date over every diabetes code); `others` are the remaining
      question columns. */
  datatype Row = Row(
    e11: Cell,
    attendance: Cell,
    diabetesBinary: int,
    age: Option<real>,
    bmi: Option<real>,
    hba1c: Option<real>,
    others: seq<Option<real>>)

  /** The `..._onehot` column of E11: presence of the raw E11 cell. */
  function E11Onehot(r: Row): int {
    NanToBinary(r.e11)
  }

  /** The HbA1c threshold (mmol/mol) below which a non-case counts as a
      healthy control. */
  const HbA1cLimit: real := 48.0

  /** `x < limit` on a possibly-NaN cell: NaN compares false. */
  predicate Below(x: Option<real>, limit: real) {
    x.Some? && x.value < limit
  }

  /** No NaN in the model columns (the question columns and HbA1c). */
  predicate FeaturesPresent(r: Row) {
    && r.age.Some? && r.bmi.Some? && r.hba1c.Some?
    && forall i :: 0 <= i < |r.others| ==> r.others[i].Some?
  }

  /** `niddm[cols].dropna()`: the two date columns are part of `cols`. */
  predicate Complete(r: Row) {
    FeaturesPresent(r) && r.e11.Some? && r.attendance.Some?
  }

  // ---------------------------------------------------------------------------
  // Onset windows
  // ---------------------------------------------------------------------------

  datatype Window = OneYear | FiveYears | FiveToTen | OverTen

  /** The four literal filters on `diff_days` of the training code. */
  predicate InTrainingWindow(w: Window, d: int) {
    match w
    case OneYear => d < 365 && d > 0
    case FiveYears => d < 1825 && d > 0
    case FiveToTen => d > 1825 && d < 3650
    case OverTen => d > 3650
  }

  /** The `min_days`/`max_days` pair an `RFWrapper` is created with. */
  datatype Bounds = Bounds(minDays: int, maxDays: int)

  function StoredBounds(w: Window): (b: Bounds)
    ensures b.minDays < b.maxDays
  {
    match w
    case OneYear => Bounds(0, 365)
    case FiveYears => Bounds(0, 1825)
    case FiveToTen => Bounds(1825, 3650)
    case OverTen => Bounds(3650, 99999999)
  }

  /** The evaluation filter `diff < max_days and diff > min_days`. */
  predicate InStoredBounds(b: Bounds, d: int) {
    d < b.maxDays && d > b.minDays
  }

  /** Every case diagnosed within a year of the visit is also within five. */
  lemma OneYearWithinFiveYears(d: int)
    ensures InTrainingWindow(OneYear, d) ==> InTrainingWindow(FiveYears, d)
  {
  }

  /** The two late-onset windows never share a case, and neither shares one
      with the five-year window. */
  lemma LateWindowsDisjoint(d: int)
    ensures !(InTrainingWindow(FiveToTen, d) && InTrainingWindow(OverTen, d))
    ensures !(InTrainingWindow(FiveYears, d) && InTrainingWindow(FiveToTen, d))
    ensures !(InTrainingWindow(FiveYears, d) && InTrainingWindow(OverTen, d))
  {
  }

  /** The windows are open: a report on or before the visit, or exactly
      1825 or 3650 days after it, is in no later-onset window. */
  lemma WindowBoundariesExcluded(d: int)
    ensures d <= 0 ==> forall w :: !InTrainingWindow(w, d)
    ensures d == 1825 ==> !InTrainingWindow(FiveYears, d) && !InTrainingWindow(FiveToTen, d) && !InTrainingWindow(OverTen, d)
    ensures d == 3650 ==> forall w :: !InTrainingWindow(w, d)
  {
  }

  /** The stored bounds select the training window, for every offset two
      real dates can have; only the artificial cap 99999999 of the last
      window could tell them apart. */
  lemma StoredBoundsMatchWindow(w: Window, d: int)
    requires -OrdinalBound < d < OrdinalBound
    ensures InStoredBounds(StoredBounds(w), d) <==> InTrainingWindow(w, d)
  {
  }

  /** The cap of the last window does matter for an offset no pair of dates
      produces. */
  lemma StoredBoundsNeedDateOffsets()
    ensures InTrainingWindow(OverTen, 99999999) && !InStoredBounds(StoredBounds(OverTen), 99999999)
  {
  }

  // ---------------------------------------------------------------------------
  // LADA
  // ---------------------------------------------------------------------------

  /** `lada_alg` on `[age, bmi, hba1c]`: only the BMI entry is read; a NaN
      BMI compares false and gives 0. */
  function LadaAlg(age: Option<real>, bmi: Option<real>, hba1c: Option<real>): (flag: int)
    ensures flag == 0 || flag == 1
  {
    if Below(bmi, 24.0) then 1 else 0
  }

  function Lada(r: Row): int {
    LadaAlg(r.age, r.bmi, r.hba1c)
  }

  /** The flag is raised exactly for a recorded BMI under 24, whatever the
      age and HbA1c. */
  lemma LadaIsLowBmi(age: Option<real>, bmi: Option<real>, hba1c: Option<real>, age': Option<real>, hba1c': Option<real>)
    ensures LadaAlg(age, bmi, hba1c) == 1 <==> bmi.Some? && bmi.value < 24.0
    ensures LadaAlg(age, bmi, hba1c) == LadaAlg(age', bmi, hba1c')
  {
  }

  // ---------------------------------------------------------------------------
  // Row decisions
  // ---------------------------------------------------------------------------

  /** Which E11 texts the code drops before `pd.to_datetime`. */
  const WrittenSentinels: seq<string> := [SentinelBirthDate]

  /** Both date-of-birth codings: the set the code evidently meant to drop. */
  const AllSentinels: seq<string> := [SentinelBirthDate, SentinelBirthYear]

  /** What the date conversion leaves of a row that reaches it. */
  datatype Stage =
    | Dropped             // filtered out before the conversion, or NaT
    | Offset(days: int)   // both dates converted; `diff_days`
    | Unreadable          // `pd.to_datetime` raises on this row's text

  /** Training: E11 cases, `dropna`, the sentinel filter, then the two
      conversions. */
  function TrainStage(r: Row, sentinels: seq<string>): (st: Stage)
    ensures st.Offset? ==> Complete(r) && E11Onehot(r) == 1
    ensures st.Offset? ==> ParseDate(r.e11.value).Some? && ParseDate(r.attendance.value).Some?
    ensures st.Offset? ==> st.days == DayOffset(ParseDate(r.e11.value).value, ParseDate(r.attendance.value).value)
  {
    if E11Onehot(r) != 1 || !Complete(r) then Dropped
    else if r.e11.value in sentinels then Dropped
    else match (ParseDate(r.e11.value), ParseDate(r.attendance.value))
      case (Some(onset), Some(visit)) => Offset(DayOffset(onset, visit))
      case _ => Unreadable
  }

  /** Evaluation: E11 cases and the sentinel filter, with no `dropna` first;
      a null visit date becomes NaT and its offset NaN. */
  function EvalStage(r: Row, sentinels: seq<string>): (st: Stage)
    ensures st.Offset? ==> E11Onehot(r) == 1 && r.attendance.Some?
    ensures st.Offset? ==> ParseDate(r.e11.value).Some? && ParseDate(r.attendance.value).Some?
    ensures st.Offset? ==> st.days == DayOffset(ParseDate(r.e11.value).value, ParseDate(r.attendance.value).value)
  {
    if E11Onehot(r) != 1 then Dropped
    else if r.e11.value in sentinels then Dropped
    else if ParseDate(r.e11.value).None? then Unreadable
    else if r.attendance.None? then Dropped
    else match ParseDate(r.attendance.value)
      case None => Unreadable
      case Some(visit) => Offset(DayOffset(ParseDate(r.e11.value).value, visit))
  }

  /** A training case of window `w`: a dated E11 case in the window and not
      flagged as LADA. */
  predicate TrainKeeps(r: Row, w: Window, sentinels: seq<string>) {
    var st := TrainStage(r, sentinels);
    st.Offset? && InTrainingWindow(w, st.days) && Lada(r) == 0
  }

  /** An evaluation positive for a forest with bounds `b`: in the bounds,
      not LADA, and without NaN in the model columns. */
  predicate EvalKeeps(r: Row, b: Bounds, sentinels: seq<string>) {
    var st := EvalStage(r, sentinels);
    st.Offset? && InStoredBounds(b, st.days) && Lada(r) == 0 && FeaturesPresent(r)
  }

  /** The two conditions every window case meets: an E11 text that is no
      dropped coding and converts, and a visit date that converts. */
  predicate Dated(r: Row, sentinels: seq<string>) {
    && E11Onehot(r) == 1 && r.e11.Some? && r.attendance.Some?
    && r.e11.value !in sentinels
    && ParseDate(r.e11.value).Some? && ParseDate(r.attendance.value).Some?
  }

  /** `diff_days` of a dated row: onset minus visit. */
  function RowOffset(r: Row, sentinels: seq<string>): int
    requires Dated(r, sentinels)
  {
    DayOffset(ParseDate(r.e11.value).value, ParseDate(r.attendance.value).value)
  }

  /** A training case of window `w` is exactly a complete, dated, LADA-free
      E11 row whose onset-minus-visit offset lies in `w`. */
  lemma TrainKeepsExactly(r: Row, w: Window, sentinels: seq<string>)
    ensures TrainKeeps(r, w, sentinels) <==>
            && Complete(r) && Dated(r, sentinels) && Lada(r) == 0
            && InTrainingWindow(w, RowOffset(r, sentinels))
  {
  }

  /** An evaluation positive for bounds `b` is exactly a dated, LADA-free
      E11 row with every model column whose onset-minus-visit offset lies
      strictly between the bounds. */
  lemma EvalKeepsExactly(r: Row, b: Bounds, sentinels: seq<string>)
    ensures EvalKeeps(r, b, sentinels) <==>
            && FeaturesPresent(r) && Dated(r, sentinels) && Lada(r) == 0
            && InStoredBounds(b, RowOffset(r, sentinels))
  {
  }

  /** Every window case is an incident case: the first E11 report follows
      the visit, so `nan_to_tertiary` gives 2 and `binary_assesment` 1. */
  lemma WindowCasesAreIncident(r: Row, w: Window, sentinels: seq<string>)
    requires TrainKeeps(r, w, sentinels)
    ensures Dated(r, sentinels)
    ensures var o, v := ParseDate(r.e11.value).value, ParseDate(r.attendance.value).value;
            && InTrainingWindow(w, DayOffset(o, v))
            && Before(v, o)
            && NanToTertiary(Some(o), Some(v)) == 2
            && BinaryAssessment(Some(o), Some(v)) == 1
  {
    var o, v := ParseDate(r.e11.value).value, ParseDate(r.attendance.value).value;
    DayOffsetSign(o, v);
  }

  /** The same holds for the evaluation positives of every stored bound,
      since each lower bound is non-negative. */
  lemma EvalPositivesAreIncident(r: Row, w: Window, sentinels: seq<string>)
    requires EvalKeeps(r, StoredBounds(w), sentinels)
    ensures Dated(r, sentinels)
    ensures var o, v := ParseDate(r.e11.value).value, ParseDate(r.attendance.value).value;
            && InStoredBounds(StoredBounds(w), DayOffset(o, v))
            && Before(v, o)
            && NanToTertiary(Some(o), Some(v)) == 2
            && BinaryAssessment(Some(o), Some(v)) == 1
  {
    var o, v := ParseDate(r.e11.value).value, ParseDate(r.attendance.value).value;
    DayOffsetSign(o, v);
  }

  /** The diff-day offset of real dates stays within the ordinal range. */
  lemma OffsetInRange(r: Row, sentinels: seq<string>)
    requires TrainStage(r, sentinels).Offset?
    ensures -OrdinalBound < TrainStage(r, sentinels).days < OrdinalBound
  {
    DayOffsetBounds(ParseDate(r.e11.value).value, ParseDate(r.attendance.value).value);
  }

  /** Train/test consistency for one row: the evaluation filter with the
      stored bounds keeps a row exactly when the training code puts it in
      the matching window's cohort. */
  lemma KeepSameRows(r: Row, w: Window, sentinels: seq<string>)
    ensures TrainKeeps(r, w, sentinels) <==> EvalKeeps(r, StoredBounds(w), sentinels)
  {
    var ts, es := TrainStage(r, sentinels), EvalStage(r, sentinels);
    if ts.Offset? {
      assert es == ts;
      OffsetInRange(r, sentinels);
      StoredBoundsMatchWindow(w, ts.days);
    }
  }

  /** The row of an evaluation table whose dates raise for the conversion
      also raises in training, once it has every model column. */
  lemma UnreadableAgrees(r: Row, sentinels: seq<string>)
    requires Complete(r)
    ensures TrainStage(r, sentinels) == Unreadable <==> EvalStage(r, sentinels) == Unreadable
  {
  }

  // ---------------------------------------------------------------------------
  // Cohorts
  // ---------------------------------------------------------------------------

  datatype CohortError = UnparsableDate

  /** Some row of the table makes `pd.to_datetime` raise. */
  predicate AnyUnreadable(rows: seq<Row>, stage: Row -> Stage) {
    exists i :: 0 <= i < |rows| && stage(rows[i]) == Unreadable
  }

  /** The window-`w`, LADA-free training cases of a table, or the error the
      conversion raises. */
  function TrainingCohort(rows: seq<Row>, w: Window, sentinels: seq<string>): (r: Result<seq<Row>, CohortError>)
    ensures r.Err? <==> exists i :: 0 <= i < |rows| && TrainStage(rows[i], sentinels) == Unreadable
    ensures r.Ok? ==> forall x :: multiset(r.value)[x] == if TrainKeeps(x, w, sentinels) then multiset(rows)[x] else 0
  {
    if AnyUnreadable(rows, x => TrainStage(x, sentinels)) then Err(UnparsableDate)
    else Ok(Filter(rows, x => TrainKeeps(x, w, sentinels)))
  }

  /** The evaluation positives of the forest with bounds `b`, before the
      cluster replay. */
  function EvalPositives(rows: seq<Row>, b: Bounds, sentinels: seq<string>): (r: Result<seq<Row>, CohortError>)
    ensures r.Err? <==> exists i :: 0 <= i < |rows| && EvalStage(rows[i], sentinels) == Unreadable
    ensures r.Ok? ==> forall x :: multiset(r.value)[x] == if EvalKeeps(x, b, sentinels) then multiset(rows)[x] else 0
  {
    if AnyUnreadable(rows, x => EvalStage(x, sentinels)) then Err(UnparsableDate)
    else Ok(Filter(rows, x => EvalKeeps(x, b, sentinels)))
  }

  /** Applied to the same table, the evaluation replay with the stored
      bounds selects the same rows, in the same order, as the training
      window; and whenever the replay gets through the date conversion, so
      does training. */
  lemma SameCohort(rows: seq<Row>, w: Window, sentinels: seq<string>)
    requires EvalPositives(rows, StoredBounds(w), sentinels).Ok?
    ensures TrainingCohort(rows, w, sentinels).Ok?
    ensures TrainingCohort(rows, w, sentinels).value == EvalPositives(rows, StoredBounds(w), sentinels).value
  {
    forall i | 0 <= i < |rows|
      ensures TrainStage(rows[i], sentinels) != Unreadable
    {
      assert EvalStage(rows[i], sentinels) != Unreadable;
    }
    forall i | 0 <= i < |rows|
      ensures TrainKeeps(rows[i], w, sentinels) == EvalKeeps(rows[i], StoredBounds(w), sentinels)
    {
      KeepSameRows(rows[i], w, sentinels);
    }
    FilterCongruent(rows, x => TrainKeeps(x, w, sentinels), x => EvalKeeps(x, StoredBounds(w), sentinels));
  }

  // ---------------------------------------------------------------------------
  // Negatives
  // ---------------------------------------------------------------------------

  /** The healthy controls of training: no diabetes code at all, HbA1c under
      48, and every model column present. */
  predicate TrainHealthy(r: Row) {
    r.diabetesBinary == 0 && Below(r.hba1c, HbA1cLimit) && FeaturesPresent(r)
  }

  /** The evaluation negatives as written: no E11 code, HbA1c under 48, and
      every model column present. */
  predicate EvalNegative(r: Row) {
    E11Onehot(r) == 0 && Below(r.hba1c, HbA1cLimit) && FeaturesPresent(r)
  }

  /** The evaluation negatives chosen by the training rule. */
  predicate EvalNegativeCorrected(r: Row) {
    r.diabetesBinary == 0 && Below(r.hba1c, HbA1cLimit) && FeaturesPresent(r)
  }

  /** A participant whose only diabetes record is an E10 date carries the
      labels `first_occurence_diabetes_binary == 1` and E11 one-hot 0. */
  lemma E10OnlyLabels(d: Date)
    requires Valid(d)
    ensures var cells := [Some(FormatDate(d)), None, None, None, None];
            && EarliestDate(cells) == Ok(Some(d))
            && NanToBinary(EarliestDate(cells).value) == 1
            && NanToBinary(cells[1]) == 0
  {
    var x := FormatDate(d);
    var cells: seq<Cell> := [Some(x), None, None, None, None];
    PresentCount(cells);
    assert multiset(cells)[None] == 4;
    var p := Present(cells);
    assert p[0] in p;
    assert p == [x];
    ParseFormat(d);
  }

  /** A sample row with every model column present. */
  function SampleRow(e11: Cell, diabetesBinary: int, visit: Date): Row
    requires Valid(visit)
  {
    Row(e11, Some(FormatDate(visit)), diabetesBinary, Some(60.0), Some(30.0), Some(40.0), [])
  }

  /** The sample row is complete apart from its E11 cell, and its visit
      date converts. */
  lemma SampleRowFacts(e11: Cell, diabetesBinary: int, visit: Date)
    requires Valid(visit)
    ensures FeaturesPresent(SampleRow(e11, diabetesBinary, visit))
    ensures ParseDate(SampleRow(e11, diabetesBinary, visit).attendance.value) == Some(visit)
  {
    ParseFormat(visit);
  }

  /** The as-written evaluation takes a participant with a diabetes record
      other than E11 (no E11 cell, `diabetesBinary` 1, HbA1c 40) as a
      healthy negative, while training excludes it from the controls. */
  lemma EvalNegativeAdmitsOtherDiabetes(visit: Date)
    requires Valid(visit)
    ensures EvalNegative(SampleRow(None, 1, visit)) && !TrainHealthy(SampleRow(None, 1, visit))
  {
  }

  /** With the training rule the two negative sets coincide. */
  lemma CorrectedNegativesMatchTraining(r: Row)
    ensures EvalNegativeCorrected(r) <==> TrainHealthy(r)
    ensures EvalNegative(r) != TrainHealthy(r) ==> (E11Onehot(r) == 0) != (r.diabetesBinary == 0)
  {
  }

  // ---------------------------------------------------------------------------
  // The second date-of-birth coding
  // ---------------------------------------------------------------------------

  /** Every E11 text of the table is a date or a date-of-birth coding, and
      every visit date is a date. */
  predicate WellCoded(rows: seq<Row>) {
    forall i :: 0 <= i < |rows| ==> WellCodedRow(rows[i])
  }

  predicate WellCodedRow(r: Row) {
    && (r.e11.Some? ==> r.e11.value in AllSentinels || ParseDate(r.e11.value).Some?)
    && (r.attendance.Some? ==> ParseDate(r.attendance.value).Some?)
  }

  lemma SentinelBirthYearNotWritten()
    ensures SentinelBirthYear !in WrittenSentinels
    ensures SentinelBirthYear in AllSentinels
  {
    assert |SentinelBirthYear| != |SentinelBirthDate|;
  }

  /** An E11 case coded "same calendar year as date of birth", with a
      readable visit date and every model column. */
  function SameYearRow(visit: Date): Row
    requires Valid(visit)
  {
    SampleRow(Some(SentinelBirthYear), 1, visit)
  }

  /** A complete E11 case whose onset text is not dropped and does not
      convert raises in both conversions. */
  lemma UnconvertibleOnsetStages(r: Row, sentinels: seq<string>)
    requires E11Onehot(r) == 1 && Complete(r)
    requires r.e11.value !in sentinels && ParseDate(r.e11.value).None?
    ensures TrainStage(r, sentinels) == Unreadable
    ensures EvalStage(r, sentinels) == Unreadable
  {
  }

  lemma SameYearRowOnset(visit: Date)
    requires Valid(visit)
    ensures SameYearRow(visit).e11 == Some(SentinelBirthYear)
    ensures ParseDate(SentinelBirthYear).None?
    ensures SentinelBirthYear !in WrittenSentinels && SentinelBirthYear in AllSentinels
  {
    SentinelsNeverParse();
    SentinelBirthYearNotWritten();
  }

  lemma SameYearRowWellCoded(visit: Date)
    requires Valid(visit)
    ensures WellCodedRow(SameYearRow(visit))
  {
    var r := SameYearRow(visit);
    SameYearRowOnset(visit);
    assert r.e11.value in AllSentinels;
    SampleRowFacts(Some(SentinelBirthYear), 1, visit);
    assert ParseDate(r.attendance.value).Some?;
  }

  lemma SameYearRowStages(visit: Date)
    requires Valid(visit)
    ensures TrainStage(SameYearRow(visit), WrittenSentinels) == Unreadable
    ensures EvalStage(SameYearRow(visit), WrittenSentinels) == Unreadable
  {
    SameYearRowOnset(visit);
    SampleRowFacts(Some(SentinelBirthYear), 1, visit);
    UnconvertibleOnsetStages(SameYearRow(visit), WrittenSentinels);
  }

  /** One row whose dates raise is enough to abort a cohort. */
  lemma UnreadableRowAborts(rows: seq<Row>, i: nat, w: Window, sentinels: seq<string>)
    requires i < |rows|
    ensures TrainStage(rows[i], sentinels) == Unreadable ==> TrainingCohort(rows, w, sentinels).Err?
    ensures EvalStage(rows[i], sentinels) == Unreadable ==> EvalPositives(rows, StoredBounds(w), sentinels).Err?
  {
  }

  /** As written, one such case makes the whole training run, and the
      evaluation of every forest, raise. */
  lemma SameYearSentinelAborts(w: Window, visit: Date)
    requires Valid(visit)
    ensures WellCoded([SameYearRow(visit)])
    ensures TrainingCohort([SameYearRow(visit)], w, WrittenSentinels).Err?
    ensures EvalPositives([SameYearRow(visit)], StoredBounds(w), WrittenSentinels).Err?
  {
    var rows := [SameYearRow(visit)];
    SameYearRowWellCoded(visit);
    SameYearRowStages(visit);
    UnreadableRowAborts(rows, 0, w, WrittenSentinels);
  }

  /** Dropping both date-of-birth codings, a well-coded table never makes
      either conversion raise. */
  lemma AllSentinelsNeverAbort(rows: seq<Row>, w: Window)
    requires WellCoded(rows)
    ensures TrainingCohort(rows, w, AllSentinels).Ok?
    ensures EvalPositives(rows, StoredBounds(w), AllSentinels).Ok?
  {
    forall i | 0 <= i < |rows|
      ensures TrainStage(rows[i], AllSentinels) != Unreadable
      ensures EvalStage(rows[i], AllSentinels) != Unreadable
    {
    }
  }
}
