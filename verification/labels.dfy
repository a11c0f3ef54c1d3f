/** Onset label derivation (`dataPreprocessing` in pipelines/model.py):
    the earliest of several first-occurrence dates, its presence as a 0/1
    label, the three-way prevalent/incident label against the assessment
    date, and the small per-cell helpers the labelling functions apply.
 */
module Labels {
  import opened Wrappers
  import opened Dates

  /** One raw text cell of an extract; `None` is a pandas null. */
  type Cell = Option<string>

  /** Codings (data-coding 819) a first-occurrence date column may hold
      instead of a date when the event date coincides with the birth date. */
  const SentinelBirthDate: string :=
    "Code has event date matching participant" + [Apostrophe] + "s date of birth"
  const SentinelBirthYear: string :=
    "Code has event date after participant" + [Apostrophe]
    + "s date of birth and falls in the same calendar year as date of birth"
  const Apostrophe: char := '\''


  /** Why a labelling step raises. */
  datatype LabelError = MinOfEmptySequence

  /** `nan_to_binary`: 1 for a present value, 0 for a null. */
  function NanToBinary<T>(v: Option<T>): (b: int)
    ensures b == 0 || b == 1
    ensures b == 0 <==> v.None?
  {
    if v.None? then 0 else 1
  }

  /** `nan_to_tertiary`: 0 when there is no onset, 1 when the onset is
      strictly before the assessment (prevalent at baseline), 2 otherwise.
      A missing assessment date becomes `NaT`, which compares false, so it
      gives 2. */
  function NanToTertiary(onset: Option<Date>, assessment: Option<Date>): (t: int)
    ensures 0 <= t <= 2
    ensures t == 0 <==> NanToBinary(onset) == 0
    ensures t == 1 <==> onset.Some? && assessment.Some? && Before(onset.value, assessment.value)
    ensures t == 2 <==> onset.Some? && !(assessment.Some? && Before(onset.value, assessment.value))
  {
    if onset.None? then 0
    else if assessment.Some? && Before(onset.value, assessment.value) then 1
    else 2
  }

  /** `binary_assesment`: 1 when both dates are present and the onset is
      strictly after the assessment. */
  function BinaryAssessment(onset: Option<Date>, assessment: Option<Date>): (b: int)
    ensures b == 0 || b == 1
    ensures b == 1 ==> onset.Some? && assessment.Some?
  {
    if onset.Some? && assessment.Some? && Before(assessment.value, onset.value) then 1 else 0
  }

  /** The two incident labels differ in two places: an onset on the
      assessment day itself, and an onset with no assessment date. Both are
      incident (2) for `nan_to_tertiary` but 0 for `binary_assesment`. */
  lemma TertiaryVersusAssessment(onset: Option<Date>, assessment: Option<Date>)
    ensures BinaryAssessment(onset, assessment) == 1
            <==> NanToTertiary(onset, assessment) == 2 && assessment.Some? && onset.value != assessment.value
    ensures onset.Some? && onset == assessment
            ==> NanToTertiary(onset, assessment) == 2 && BinaryAssessment(onset, assessment) == 0
    ensures onset.Some? && assessment.None?
            ==> NanToTertiary(onset, assessment) == 2 && BinaryAssessment(onset, assessment) == 0
  {
    if onset.Some? && assessment.Some? {
      BeforeIsStrictTotalOrder(onset.value, assessment.value, assessment.value);
    }
  }

  /** For real dates the assessment label is the sign of the day offset:
      1 exactly when the onset lies a positive number of days after the
      visit. */
  lemma AssessmentIsOffsetSign(onset: Date, assessment: Date)
    requires Valid(onset) && Valid(assessment)
    ensures BinaryAssessment(Some(onset), Some(assessment)) == 1 <==> DayOffset(onset, assessment) > 0
  {
    DayOffsetSign(onset, assessment);
  }

  /** A null on either side gives 0. */
  lemma AssessmentOfNull(onset: Option<Date>, assessment: Option<Date>)
    requires onset.None? || assessment.None?
    ensures BinaryAssessment(onset, assessment) == 0
  {
  }

  /** For real dates the tertiary label is the sign of the day offset:
      prevalent exactly when the offset is negative. */
  lemma TertiaryIsOffsetSign(onset: Date, assessment: Date)
    requires Valid(onset) && Valid(assessment)
    ensures NanToTertiary(Some(onset), Some(assessment)) == 1 <==> DayOffset(onset, assessment) < 0
    ensures NanToTertiary(Some(onset), Some(assessment)) == 2 <==> DayOffset(onset, assessment) >= 0
  {
    DayOffsetSign(onset, assessment);
  }

  /** `nan_to_binary` applied to every cell of a row: a 0/1 presence
      label per cell. */
  function Binaries<T>(cells: seq<Option<T>>): (b: seq<int>)
    ensures |b| == |cells|
    ensures forall i :: 0 <= i < |cells| ==> b[i] == 0 || b[i] == 1
    ensures forall i :: 0 <= i < |cells| ==> (b[i] == 1 <==> cells[i].Some?)
  {
    seq(|cells|, i requires 0 <= i < |cells| => NanToBinary(cells[i]))
  }

  /** `any_binary`: 1 as soon as an entry equals 1, otherwise 0. */
  function AnyBinary(l: seq<int>): (r: int)
    ensures r == 0 || r == 1
    ensures r == 1 <==> exists i :: 0 <= i < |l| && l[i] == 1
  {
    if |l| == 0 then 0
    else if l[0] == 1 then 1
    else
      var r := AnyBinary(l[1..]);
      assert forall i :: 1 <= i < |l| ==> l[i] == l[1..][i - 1];
      r
  }

  /** A disease is flagged by `any_binary` over its per-code presence labels
      exactly when one of its code columns holds a value. */
  lemma AnyBinaryOfPresence<T>(cells: seq<Option<T>>)
    ensures AnyBinary(Binaries(cells)) == 1 <==> exists i :: 0 <= i < |cells| && cells[i].Some?
  {
    var b := Binaries(cells);
    if exists i :: 0 <= i < |cells| && cells[i].Some? {
      var i :| 0 <= i < |cells| && cells[i].Some?;
      assert b[i] == 1;
    }
  }

  /** `delete_coding`: 0 when the cell holds one of the coding meanings, so
      that the row is dropped; 1 otherwise (a null is never a meaning). */
  function DeleteCoding(v: Cell, meanings: seq<string>): (keep: int)
    ensures keep == 0 || keep == 1
    ensures keep == 0 <==> v.Some? && v.value in meanings
  {
    if v.Some? && v.value in meanings then 0 else 1
  }

  /** The filter `df[df[c].apply(delete_coding) == 1]`: no kept cell holds a
      coding meaning, and every other cell, nulls included, is kept as often
      as it occurs. */
  lemma DeleteCodingFilter(cells: seq<Cell>, meanings: seq<string>)
    ensures var kept := Filter(cells, c => DeleteCoding(c, meanings) == 1);
            && (forall i :: 0 <= i < |kept| ==> kept[i].None? || kept[i].value !in meanings)
            && (forall c: Cell :: c.None? || c.value !in meanings ==> multiset(kept)[c] == multiset(cells)[c])
  {
    var kept := Filter(cells, c => DeleteCoding(c, meanings) == 1);
    forall i | 0 <= i < |kept|
      ensures kept[i].None? || kept[i].value !in meanings
    {
      assert kept[i] in multiset(kept);
    }
  }

  /** Neither birth-date coding reads as a date: a cell holding one is never
      counted as a valid onset. */
  lemma SentinelsNeverParse()
    ensures ParseDate(SentinelBirthDate) == None
    ensures ParseDate(SentinelBirthYear) == None
  {
    assert SentinelBirthDate[0] == 'C' && SentinelBirthYear[0] == 'C';
    LetterStartNeverParses(SentinelBirthDate);
    LetterStartNeverParses(SentinelBirthYear);
  }

  /** A text whose first character is neither a digit nor a dash has a
      year piece that `int()` rejects. */
  lemma LetterStartNeverParses(s: string)
    requires |s| > 0 && !IsDigit(s[0]) && s[0] != Dash
    ensures ParseDate(s) == None
  {
    var year := Split(s)[0];
    if Dash in s {
      var i := FirstDash(s);
      assert year == s[..i] && year[0] == s[0];
    } else {
      assert year == s;
    }
    assert ParseInt(year) == None;
  }

  // ---------------------------------------------------------------------------
  // earliest_date
  // ---------------------------------------------------------------------------

  /** `l.dropna()`: the texts of the non-null cells, in order. */
  function Present(cells: seq<Cell>): (p: seq<string>)
    ensures |p| <= |cells|
    ensures |p| == 0 <==> forall i :: 0 <= i < |cells| ==> cells[i].None?
    ensures forall s :: s in p <==> Some(s) in cells
  {
    if |cells| == 0 then []
    else
      var rest := Present(cells[..|cells| - 1]);
      assert cells == cells[..|cells| - 1] + [cells[|cells| - 1]];
      match cells[|cells| - 1]
      case None => rest
      case Some(s) => rest + [s]
  }

  /** The loop collecting every entry that converts to a `datetime`. */
  function ParsedDates(texts: seq<string>): (t: seq<Date>)
    ensures |t| <= |texts|
    ensures forall i :: 0 <= i < |t| ==> Valid(t[i])
    ensures forall d :: d in t <==> exists s :: s in texts && ParseDate(s) == Some(d)
  {
    if |texts| == 0 then []
    else
      var rest := ParsedDates(texts[..|texts| - 1]);
      assert texts == texts[..|texts| - 1] + [texts[|texts| - 1]];
      match ParseDate(texts[|texts| - 1])
      case None => rest
      case Some(d) => rest + [d]
  }

  /** The dates among a row's cells that parse. */
  function Parsed(cells: seq<Cell>): seq<Date> {
    ParsedDates(Present(cells))
  }

  /** Python's `min` on a non-empty list of datetimes. */
  function MinDate(t: seq<Date>): (m: Date)
    requires |t| > 0
    ensures m in t
    ensures forall i :: 0 <= i < |t| ==> !Before(t[i], m)
  {
    if |t| == 1 then t[0]
    else
      var m := MinDate(t[..|t| - 1]);
      assert forall i :: 0 <= i < |t| - 1 ==> t[i] == t[..|t| - 1][i];
      var last := t[|t| - 1];
      BeforeIsStrictTotalOrder(last, m, m);
      if Before(last, m) then
        assert forall i :: 0 <= i < |t| - 1 ==> !Before(t[i], last) by {
          forall i | 0 <= i < |t| - 1
            ensures !Before(t[i], last)
          {
            BeforeIsStrictTotalOrder(t[i], last, m);
          }
        }
        last
      else m
  }

  /** `earliest_date`: drop nulls; no entry gives no date; a single entry is
      converted on its own and an unconvertible one gives no date; with
      several entries the unconvertible ones are skipped and the minimum of
      the rest returned, which raises when none converted. */
  function EarliestDate(cells: seq<Cell>): (r: Result<Option<Date>, LabelError>)
    ensures (forall i :: 0 <= i < |cells| ==> cells[i].None?) ==> r == Ok(None)
    ensures |Present(cells)| == 1 ==> (r == Ok(None) <==> |Parsed(cells)| == 0)
    ensures |Present(cells)| >= 2 ==> r != Ok(None)
    ensures r.Err? <==> |Present(cells)| >= 2 && |Parsed(cells)| == 0
    ensures r.Ok? ==> (r.value.Some? <==> |Parsed(cells)| > 0)
    ensures r.Ok? && r.value.Some? ==>
              && r.value.value in Parsed(cells)
              && forall d :: d in Parsed(cells) ==> !Before(d, r.value.value)
  {
    var p := Present(cells);
    if |p| == 0 then
      Ok(None)
    else if |p| == 1 then
      assert p == [p[0]];
      assert Parsed(cells) == ParsedDates([p[0]]);
      Ok(ParseDate(p[0]))
    else
      var t := ParsedDates(p);
      if |t| == 0 then Err(MinOfEmptySequence)
      else
        var m := MinDate(t);
        Ok(Some(m))
  }

  lemma {:induction false} PresentCount(cells: seq<Cell>)
    ensures |Present(cells)| == |cells| - multiset(cells)[None]
    decreases |cells|
  {
    if |cells| > 0 {
      var init := cells[..|cells| - 1];
      assert cells == init + [cells[|cells| - 1]];
      PresentCount(init);
    }
  }

  /** Two rows with the same present texts, as many of each kind, give the
      same earliest date. */
  lemma EarliestDateDeterminedByPresent(a: seq<Cell>, b: seq<Cell>)
    requires |Present(a)| == |Present(b)|
    requires forall s :: s in Present(a) <==> s in Present(b)
    ensures EarliestDate(a) == EarliestDate(b)
  {
    var pa, pb := Present(a), Present(b);
    var ta, tb := Parsed(a), Parsed(b);
    assert forall d :: d in ta <==> d in tb;
    if |pa| == 1 {
      assert pa[0] in pb;
      assert pa == [pb[0]];
    } else if |pa| >= 2 && |ta| > 0 {
      assert ta[0] in tb;
      var ma, mb := EarliestDate(a).value.value, EarliestDate(b).value.value;
      assert ma in tb && mb in ta;
      BeforeIsStrictTotalOrder(ma, mb, mb);
    }
  }

  /** `earliest_date` does not depend on the order of the entries. */
  lemma EarliestDateOrderIndependent(a: seq<Cell>, b: seq<Cell>)
    requires multiset(a) == multiset(b)
    ensures EarliestDate(a) == EarliestDate(b)
  {
    PresentCount(a);
    PresentCount(b);
    assert |a| == |multiset(a)| == |multiset(b)| == |b|;
    forall x
      ensures x in a <==> x in b
    {
      assert x in a <==> x in multiset(a);
      assert x in b <==> x in multiset(b);
    }
    EarliestDateDeterminedByPresent(a, b);
  }
}
