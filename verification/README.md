# Diabetes onset models: labels, cohorts and evaluation bookkeeping

This project models the data-handling core of `pipelines/model.py` in Dafny.
That code builds type-2 diabetes risk models from UK-Biobank-style extracts.
The model covers the steps that decide which participants end up in which
table, with which label:

- **Onset labels** (`Labels`, `Dates`):
  - `earliest_date` takes the earliest of a participant's first-occurrence
    dates. It has two quirks, both modelled:
    - a single unconvertible entry gives no date;
    - several entries of which none converts make `min([])` raise.
  - `nan_to_binary`, `nan_to_tertiary`, `binary_assesment`, `any_binary` and
    `delete_coding`.
  - The `"YYYY-MM-DD"` text form of a date and its conversion.
  - The signed day offset between two dates.
- **Family history** (`Family`): the reduction in `pre_family_history`.
  - Each illness cell is coded 1, 0 or 3.
  - `np.select` picks the first matching condition.
  - Then 3 becomes 0.
- **Diabetes cohorts** (`Diabetes`), from `diabetes_modeling` and
  `rf_evaluation_diabetes`:
  - the E11 case selection, the date-of-birth coding filter and the date
    conversion;
  - the four onset windows and the window bounds each forest stores;
  - the LADA rule;
  - the healthy controls and the evaluation negatives.
- **Class balance** (`Balance`): `class_balance`, with Python's `round` and
  `DataFrame.sample` without replacement, and `cluster_label`.
- **Clustering** (`Clustering`):
  - the min-max scaling of `kmeans_clustering` and `random_forest`;
  - the nearest-centre rule of `kmeans.predict`;
  - how the evaluation replays a test participant's cluster.
- **Evaluation** (`Evaluation`):
  - the ZeroR baseline (`zeror`, `zeror_score`);
  - the stratified evaluation set;
  - the loop of `rf_evaluation_diabetes_con`, which pairs each of the sixteen
    forests with a k-means model and a cluster number.

Modelling conventions:

- A null cell is `None`.
- A step that raises in Python returns `Err`. This covers `min` of an empty
  list, `pd.to_datetime` on text that is not a date, `sample` of too many
  rows, `max` of an empty `value_counts`, and an index past the end of the
  cluster list.
- Random choices are parameters. `draw` lists the row positions
  `DataFrame.sample` picks.
- Tables are sequences of rows.
- Filtering a table is `Wrappers.Filter`: it keeps the order, and its
  contract states the multiset of kept rows.
- Real numbers stand in for floats.

`Wrappers` holds `Option`, `Result`, `Count` and `Filter`.

## Model

| member | source | states |
|---|---|---|
| Dates.BeforeIsStrictTotalOrder | pipelines/model.py:752 | The order `min` uses on datetimes is irreflexive, asymmetric, transitive and total, so the minimum is well defined. |
| Dates.ParseInt | pipelines/model.py:739 | `int()` of a date piece succeeds exactly on a non-empty string of decimal digits, and the value is non-negative. |
| Dates.MakeDate | pipelines/model.py:739 | `datetime(y, m, d)` succeeds exactly on a real calendar date (years 1-9999, Gregorian leap years) and returns that date. |
| Dates.ParseDate | pipelines/model.py:737-739 | Splitting on `-` and building a `datetime` from the first three pieces only ever yields valid dates. |
| Dates.JoinSplit | pipelines/model.py:737 | `split("-")` loses nothing: joining the pieces with dashes gives back the text. |
| Dates.ParseFormat | pipelines/model.py:737-739 | Every valid date written as `YYYY-MM-DD` is read back as the same date (round trip). |
| Dates.DayOffsetSign | pipelines/model.py:1151 | `diff_days` is negative exactly when the onset precedes the visit, zero exactly on the same day, and positive exactly when it follows. |
| Dates.DayOffsetBounds | pipelines/model.py:1151 | The offset between any two representable dates is strictly inside (-OrdinalBound, OrdinalBound). |
| Labels.NanToBinary | pipelines/model.py:754-769 | The label is 0 or 1, and it is 0 exactly for a null. |
| Labels.NanToTertiary | pipelines/model.py:771-776 | The result is in 0..2. It is 0 iff there is no onset; 1 iff both dates are present and the onset is strictly earlier; 2 otherwise, including a missing assessment date (NaT compares false). |
| Labels.TertiaryIsOffsetSign | pipelines/model.py:771-776 | For two real dates, tertiary 1 iff the day offset is negative and 2 iff it is non-negative. |
| Labels.BinaryAssessment | pipelines/model.py:821-824 | The label is 0 or 1, and 1 only when both dates are present. |
| Labels.AssessmentIsOffsetSign | pipelines/model.py:821-824 | For two real dates the label is 1 iff the onset lies a positive number of days after the assessment. |
| Labels.AssessmentOfNull | pipelines/model.py:821-824 | A null onset or a null assessment date gives 0. |
| Labels.TertiaryVersusAssessment | pipelines/model.py:821-824 | `binary_assesment` is 1 iff the tertiary label is 2, the assessment date is present and the dates differ. The labels disagree in two cases, each tertiary 2 but binary 0: an onset on the assessment day, and an onset with no assessment date. |
| Labels.Binaries | pipelines/model.py:712-713 | Each one-hot column is 0 or 1, and 1 exactly where its cell holds a value. |
| Labels.AnyBinary | pipelines/model.py:865-869 | The result is 0 or 1, and it is 1 iff some entry equals 1. |
| Labels.AnyBinaryOfPresence | pipelines/model.py:865-869 | `any_binary` over presence labels is 1 iff some cell holds a value. |
| Labels.DeleteCoding | pipelines/model.py:816-819 | The result is 0 or 1, and 0 exactly for a present value that is one of the coding meanings. |
| Labels.DeleteCodingFilter | pipelines/model.py:795-796 | The filter on `delete_coding == 1` leaves no cell holding a coding meaning. Every other cell, nulls included, is kept as often as it occurs. |
| Labels.LetterStartNeverParses | pipelines/model.py:736-742 | A text that starts with neither a digit nor a dash never converts to a date. |
| Labels.SentinelsNeverParse | pipelines/model.py:736-742 | Neither date-of-birth coding text converts to a date. |
| Labels.Present | pipelines/model.py:733 | `dropna` keeps at most as many entries. It is empty iff every cell is null. It holds exactly the texts of the non-null cells. |
| Labels.ParsedDates | pipelines/model.py:745-751 | The collected dates are valid. They are exactly the dates some entry converts to, and there are no more of them than entries. |
| Labels.MinDate | pipelines/model.py:752 | `min` returns a member of the list that no entry precedes. |
| Labels.EarliestDate | pipelines/model.py:719-752 | The result by case: <br>• all null: no date. <br>• one entry: no date iff it does not convert. <br>• two or more entries: never "no date", and it raises iff none converts. <br>• otherwise: a date iff some entry converts, and then the earliest converted date. |
| Labels.EarliestDateDeterminedByPresent | pipelines/model.py:733-752 | The result depends only on how many entries are present and which texts they are. |
| Labels.EarliestDateOrderIndependent | pipelines/model.py:719-752 | Permuting the cells of a row does not change the result. |
| Family.IllnessCode | pipelines/model.py:101-111 | An illness cell is coded 0, 1 or 3, and 1 iff it is a text naming "Diabetes". |
| Family.Select | pipelines/model.py:222 | `np.select` returns the value of the first condition that holds, or 0 when none does. |
| Family.SelectIsFirstTrue | pipelines/model.py:222 | When some condition holds, `np.select` is the value at the index of the first holding condition. |
| Family.RelativeFlagMeaning | pipelines/model.py:207-255 | A relative's reduced column is 0 or 1. It is 1 iff one of the four instances names diabetes, so "Do not know", other illnesses and nulls all give 0. |
| Family.FlagsDescribe | pipelines/model.py:254-255 | A reduced row keeps the identifier (after `replace(3, 0)`) and gives each relative's flag in the meaning above. |
| Family.FamilyHistory | pipelines/model.py:115-256 | The table loses its first row. Every other row is reduced to the identifier plus three 0/1 flags with that meaning. |
| Balance.RoundHalfEven | pipelines/model.py:1314-1317 | `round` gives an integer within one half of its argument, and the even one on a tie. |
| Balance.PickWithoutReplacement | pipelines/model.py:1315 | The rows at distinct drawn positions form a sub-multiset of the table. |
| Balance.Sample | pipelines/model.py:1315 | `sample(n)` raises iff n is negative or larger than the table. Otherwise it yields n rows, a sub-multiset of the table. |
| Balance.ClassBalance | pipelines/model.py:1297-1318 | The call succeeds iff the requested size fits the larger side. Then: the smaller side (the target class on a tie) comes first, whole; `round(min * ratio)` rows follow, drawn without replacement from the other side. |
| Balance.ClassBalanceRetention | pipelines/model.py:1314-1317 | The smaller class is kept whole at the front, and the sampled part is never larger than the side it comes from. |
| Balance.ClassBalanceRatioOne | pipelines/model.py:1297-1318 | With the default ratio 1 the call always succeeds and yields twice the size of the smaller class. |
| Balance.ClusterLabel | pipelines/model.py:1320-1322 | The label is 0 or 1, and 1 exactly for rows that carry a cluster id. |
| Balance.BalancedTrainingLabels | pipelines/model.py:1189-1190 | Each diabetes cell's training set holds exactly min(cases, controls) rows of label 1 and as many of label 0. |
| Diabetes.StoredBounds | pipelines/model.py:1038-1053 | Each forest stores an open interval with min_days < max_days: (0,365), (0,1825), (1825,3650) or (3650,99999999). |
| Diabetes.OneYearWithinFiveYears | pipelines/model.py:1154-1155 | Every one-year case is also a five-year case. |
| Diabetes.LateWindowsDisjoint | pipelines/model.py:1154-1157 | The five-year, five-to-ten and over-ten windows are pairwise disjoint. |
| Diabetes.WindowBoundariesExcluded | pipelines/model.py:1154-1157 | Offsets ≤ 0 and exactly 3650 are in no window. Exactly 1825 is in no five-year or later window. |
| Diabetes.StoredBoundsMatchWindow | pipelines/model.py:1724 | For every offset two real dates can have, the evaluation bounds filter selects exactly the training window. |
| Diabetes.StoredBoundsNeedDateOffsets | pipelines/model.py:1053 | The cap 99999999 would differ from the training window only on an offset no date pair produces. |
| Diabetes.LadaAlg | pipelines/model.py:1246-1262 | The LADA flag is 0 or 1. |
| Diabetes.LadaIsLowBmi | pipelines/model.py:1259-1261 | The flag is 1 iff a BMI is recorded and is under 24, whatever the age and HbA1c. Training and evaluation call the same rule, so they agree. |
| Diabetes.TrainStage | pipelines/model.py:1144-1151 | A training row reaches an offset only when it is an E11 case with no null model or date column and both dates convert. The offset is then the E11 date minus the visit date, in days. |
| Diabetes.EvalStage | pipelines/model.py:1715-1722 | An evaluation row reaches an offset only when it is an E11 case whose two dates convert. The offset is then the E11 date minus the visit date, in days. |
| Diabetes.TrainKeepsExactly | pipelines/model.py:1144-1170 | A row is a training case of a window iff it is complete, is a non-coding E11 case whose two dates convert, is not LADA, and its E11-minus-visit offset lies in the window. |
| Diabetes.EvalKeepsExactly | pipelines/model.py:1715-1726 | A row is an evaluation positive for given bounds iff it has every model column, is a non-coding E11 case whose two dates convert, is not LADA, and its E11-minus-visit offset lies strictly between the bounds. |
| Diabetes.WindowCasesAreIncident | pipelines/model.py:1151-1157 | Every training case of a window is an incident case: its E11 date comes after the visit, so `nan_to_tertiary` gives 2 and `binary_assesment` gives 1. |
| Diabetes.EvalPositivesAreIncident | pipelines/model.py:1722-1724 | Every evaluation positive under stored bounds is an incident case in the same sense. |
| Diabetes.KeepSameRows | pipelines/model.py:1724-1726 | A row is kept by the evaluation filter with the stored bounds iff training puts it in the matching window's LADA-free cohort. |
| Diabetes.UnreadableAgrees | pipelines/model.py:1720-1721 | For a row with every column, the date conversion raises at evaluation iff it raises in training. |
| Diabetes.UnreadableRowAborts | pipelines/model.py:1148-1149 | One row whose text does not convert makes the whole training cohort and the whole evaluation cohort raise. |
| Diabetes.TrainingCohort | pipelines/model.py:1144-1171 | The window's training cohort raises iff some row's date text does not convert. Otherwise each row occurs as often as in the table when the training filter keeps it, and not at all otherwise. |
| Diabetes.EvalPositives | pipelines/model.py:1715-1738 | Read as if line 1714 selected the identifier (see "Left out"): the evaluation positives raise iff some row's date text does not convert. Otherwise each row occurs as often as in the table when the evaluation filter keeps it, and not at all otherwise. |
| Diabetes.SameCohort | pipelines/model.py:1718-1726 | On the same table, an evaluation that gets through the conversion implies training does too. Both then select the same rows in the same order. |
| Diabetes.E10OnlyLabels | pipelines/model.py:699-713 | A participant whose only diabetes record is an E10 date gets `first_occurence_diabetes_binary` 1 and E11 one-hot 0. |
| Diabetes.EvalNegativeAdmitsOtherDiabetes | pipelines/model.py:1716 | As written, a participant with diabetes other than E11 and HbA1c under 48 is an evaluation negative but not a training control. |
| Diabetes.CorrectedNegativesMatchTraining | pipelines/model.py:1094 | With training's rule the evaluation negatives are exactly the training controls. The as-written rule differs only where E11 presence and overall diabetes disagree. |
| Diabetes.SentinelBirthYearNotWritten | pipelines/model.py:1146 | The "same calendar year" coding is not among the texts the code drops. |
| Diabetes.SameYearSentinelAborts | pipelines/model.py:1146-1149 | As written, a well-coded one-row table with a "same calendar year" E11 case makes training and evaluation raise, for every window. |
| Diabetes.AllSentinelsNeverAbort | pipelines/model.py:1146-1149 | If both date-of-birth codings are dropped, no well-coded table makes either conversion raise. |
| Clustering.Transform | pipelines/model.py:1291 | A value inside its column's fitted range scales into [0, 1]. On a column with a non-zero range, the value is recovered as `y * (hi - lo) + lo`. A constant column is only shifted by its minimum. |
| Clustering.ScaleInUnitInterval | pipelines/model.py:1288-1292 | A value within the fitted range scales into [0, 1]. The minimum goes to 0 and, for a non-constant column, the maximum to 1. |
| Clustering.FitScaler | pipelines/model.py:1290 | Fitting raises iff there are no rows. Otherwise, per column, the fitted minimum and maximum are values of that column that bound all of its values. |
| Clustering.FittedRowsInUnitBox | pipelines/model.py:1288-1292 | Every row the scaler was fitted on scales into the unit box. |
| Clustering.Nearest | pipelines/model.py:1907-1908 | `predict` gives a centre at minimal squared distance, and no earlier centre is as close. |
| Clustering.TrainingCluster | pipelines/model.py:1294-1295 | A training case gets a cluster index below the number of centres. |
| Clustering.ReplayAsWritten | pipelines/model.py:1741-1759 | The as-written replay gives a cluster index below the number of centres. |
| Clustering.Replay | pipelines/model.py:1753-1759 | The corrected replay gives a cluster index below the number of centres. |
| Clustering.ReplayAsWrittenMovesCase | pipelines/model.py:1741-1756 | A test participant identical to a cluster-1 training case is replayed into cluster 0, as written. |
| Clustering.ReplayAsWrittenWhenScalersAgree | pipelines/model.py:1741-1756 | The as-written replay is correct when the forest's scaler agrees with the clustering scaler on the question columns. |
| Clustering.ReplayMatchesTraining | pipelines/model.py:1288-1295 | The corrected replay gives every participant its training cluster, whatever the forest's scaler. This holds by construction; the substance of the correction is in Clustering.ReplayAsWrittenWhenScalersAgree. |
| Evaluation.MaxCount | pipelines/model.py:1896 | `max(value_counts)` is the count of some label present, and no label occurs more often. |
| Evaluation.ZeroR | pipelines/model.py:1891-1896 | The baseline raises iff the test set is empty. Otherwise it lies in (0, 1] and equals the most common label's count over the size. |
| Evaluation.ZeroRBinary | pipelines/model.py:1895-1896 | For 0/1 labels the baseline is max(K, N-K)/N, between one half and one. |
| Evaluation.EvaluationSet | pipelines/model.py:1767-1772 | Stratified, it raises iff there are more positives than negatives, and otherwise holds the positives followed by as many drawn negatives. Unstratified, it is all positives then all negatives. |
| Evaluation.StratifiedZeroR | pipelines/model.py:1767-1785 | A stratified, non-empty evaluation set has ZeroR exactly 0.5. |
| Evaluation.EvaluationSchedule | pipelines/model.py:2350-2370 | Forest k is evaluated with k-means model k div 4, cluster k mod 4 and name number k+1. The loop raises iff it needs a k-means model beyond the list. |
| Evaluation.ForestBounds | pipelines/model.py:1038-1053 | In the order of the model list (lines 2242-2257), forests 1-4 store (0, 365), 5-8 (0, 1825), 9-12 (1825, 3650) and 13-16 (3650, 99999999). |
| Evaluation.ScheduleMatchesTraining | pipelines/model.py:2242-2261 | The pairing in the loop matches training. Forest k was trained on a cluster of the window at position k div 4 of the cluster list, on cluster k mod 4, with that window's bounds. |

## Left out

- Reading and writing CSV files, the metrics file, plots and box plots are not modelled. Neither are the merges that copy predictions back into the test table (lines 1762-1764 and 1777-1778).
- `RandomForestClassifier` fitting and prediction are not modelled, nor are AUC, F1 and accuracy. They are library code outside this model.
- k-means fitting (how the centres are found) is not modelled. The centres are a parameter.
- Clustering.TrainingCluster: `kmeans.labels_` is modelled as the nearest-centre label of each fitted row, which is what k-means converges to.
- Floats are modelled as exact reals. Rounding error in the scaling, the day offsets and `max(vc) / sum(vc)` is not modelled.
- The sex split of the test set (lines 1728-1734) is not modelled. The model takes one sex's table.
- The 80/20 train-test split and the table merges before modelling are not modelled.
- The "None of the above" clean-up of the family-history extract (lines 61-71) is not modelled. Neither is the construction of the `dm`/`other`/`uncertain` lists beyond the code each cell receives.
- Dates.ParseInt: accepts only ASCII digits. Python's `int()` also accepts surrounding whitespace, a sign, underscores between digits and non-ASCII digits.
- Dates.ParseDate: `pd.to_datetime` (lines 1148-1149 and 1720-1721) accepts many more text formats than `YYYY-MM-DD`. The model uses the same conversion as `earliest_date` for it. `pd.Timestamp` also cannot represent years outside 1677-2262; the model accepts `datetime`'s range, years 1-9999.
- Labels.NanToTertiary: the assessment date arrives already converted. `pd.Timestamp` raising on a malformed assessment text is not modelled.
- Labels.BinaryAssessment: the source compares the two values before it tests them for null. The model takes a comparison with a null to be false, as it is for NaT. It does not model the `TypeError` another kind of null could raise there.
- Diabetes.LadaAlg: callers pass age, BMI and HbA1c (lines 1162-1165 and 1725), but the rule reads only the BMI entry (line 1260), as its docstring's "list with bmi values" says. Age and HbA1c play no part in the model either.
- Labels.EarliestDate: an unconvertible entry among several is printed and skipped, and an all-unconvertible list raises in `min`.
- The evaluation loop (line 2355) calls `rf_evaluation_diabetes_rebuilt`, which this file does not define. Evaluation.EvaluationSchedule models the loop's own bookkeeping and takes the evaluation it calls to be `rf_evaluation_diabetes`.
- Diabetes.EvalPositives: line 1714 builds the test table from the model columns, the label and the two dates, without `Participant ID`. Line 1737 then selects `Participant ID`, so `rf_evaluation_diabetes` raises `KeyError` on every call. (Pandas before 1.0 instead fills the column with NaN, and `dropna` then empties both tables.) The model describes the replay as if line 1714 had selected the identifier, and does not promise the source's unconditional error. The later lookups of the identifier, at lines 1763 and 1778, are bookkeeping outside the model.
- An empty evaluation set, which makes the forest's `predict` raise before ZeroR is computed, is not modelled. Evaluation.ZeroR models the baseline's own error.
- Evaluation.EvaluationSchedule: evaluations already written to disk before the loop raises are not modelled.
- `RFWrapper` and `ClusterWrapper` (lines 977-995) are modelled only through the bounds and the scaler they hold.

## Findings

| source | as written | input that shows it | evidently intended | confidence | as-written member | corrected member |
|---|---|---|---|---|---|---|
| pipelines/model.py:1716 | Evaluation negatives are rows with E11 one-hot 0 and HbA1c < 48. | A participant whose only diabetes record is an E10 date (so `first_occurence_diabetes_binary` is 1, E11 one-hot 0) with HbA1c 40. | Choose negatives by training's control rule, `first_occurence_diabetes_binary == 0` (line 1094). | medium; not executed | Diabetes.EvalNegativeAdmitsOtherDiabetes | Diabetes.CorrectedNegativesMatchTraining |
| pipelines/model.py:1146 | Only the "matching date of birth" coding is dropped before `pd.to_datetime`; the same line is repeated at line 1718. | An E11 case whose cell reads "Code has event date after participant's date of birth and falls in the same calendar year as date of birth"; the conversion raises for the whole table. | Drop both date-of-birth codings, as `labeling_cvd` does (lines 919-921). | medium; not executed | Diabetes.SameYearSentinelAborts | Diabetes.AllSentinelsNeverAbort |
| pipelines/model.py:1741-1756 | The test cluster is predicted on features scaled by the forest's scaler (fitted on cases and controls, with HbA1c). | One feature. The clustering scaler spans 0..10, with centres 0.2 and 0.8. The forest's scaler spans 0..100. A value of 8 is cluster 1 in training but replays to cluster 0. | Scale with the clustering scaler the k-means model was fitted with (lines 1288-1294) before `predict`. | high; not executed | Clustering.ReplayAsWrittenMovesCase | Clustering.ReplayMatchesTraining |
