# Feature preparation of ds_project_arch_lab, modelled in Dafny

This project models the table-preparation core of the asthma-diagnosis project
`ds_project_arch_lab`:

- the column-label normaliser `camel_to_snake` and `standardize_column_names`;
- `drop_columns`;
- the final cast `ensure_float_table` (all three in `utils/preprocessing.py`);
- the whole of `features/build_features.py`:
  - the `FeatureConfig` defaults;
  - `engineer_features`, which adds the FEV1/FVC ratio, the symptom score and the exposure index;
  - `encode_categoricals` (one-hot encoding);
  - `scale_continuous` (standard scaling);
  - `prepare_feature_table`, which chains drop, engineer, encode, scale and cast.

A data frame is a `Table`: a row count and an ordered list of labelled columns. Each cell is
a number (`Num`), text (`Text`) or a missing value (`Missing`, pandas' NaN).

No stage in the source changes the frame it is given: most start from `df.copy()`, and the
others return what pandas builds (`drop`, `get_dummies`) or, when switched off, the frame
itself. So each stage is a function on tables. Code that builds its result by reassigning a local frame is written as a method, and each
method is proved equal to its function:

- the column loop of `ensure_float_table`;
- the three guarded assignments of `engineer_features`;
- the stage chain of `prepare_feature_table`.

What pandas and scikit-learn decide are fields of a `Library` value that every operation
takes as a parameter:

- how text parses as a number;
- which categories `get_dummies` finds and in what order;
- how it names an indicator column;
- the spread the scaler fits.

Everything else is written out: the NaN-skipping row sum and mean, division with `inf`
turned into NaN, a spread of 0 scaled by 1, the `TypeError` raised by arithmetic on text (for
the ratio, only on rows where both operands are present, as pandas masks the rest), and the
scaler's `ValueError` on text that is not a number or on a frame without rows.

Modules:

- `Tables`: the data model, lookup, assignment and filtering.
- `Labels`: the label normaliser and its general properties.
- `LabelCases`: the normaliser on the concrete headers of the dataset.
- `Preprocessing`: `utils/preprocessing.py`.
- `Features`: `features/build_features.py`.
- `EngineerProperties`, `EncodeScaleProperties`, `PipelineProperties`: what each stage and the
  whole pipeline guarantee.
- `Findings`: the two discrepancies below, shown as written and corrected.

## Model

| member | source | states |
|---|---|---|
| Labels.Tokenise | src/ds_project_arch_lab/utils/preprocessing.py:17-24 | after the space, boundary, lower-case and underscore rewrites the label has no space, no ASCII upper-case letter, no letter directly before a digit, no "__" and no "_" at either end |
| Labels.CamelToSnake | src/ds_project_arch_lab/utils/preprocessing.py:16-27 | camel_to_snake as written returns a label with no space, no ASCII upper-case letter, no "__" and no "_" at either end; the acronym repairs cannot create one |
| Labels.NormalisedLetterDigitOnlyInFev1 | src/ds_project_arch_lab/utils/preprocessing.py:20-26 | in a normalised label a letter stands directly before a digit only inside a "fev1" that the "f_e_v_1" repair produced |
| Labels.SubPairsIsEveryBoundary | src/ds_project_arch_lab/utils/preprocessing.py:19-21 | the left-to-right regex pass equals inserting "_" at every boundary, for the two boundary classes used, whose pairs cannot chain |
| Labels.SubPairsClears | src/ds_project_arch_lab/utils/preprocessing.py:18-21 | after each regex pass no boundary of its class is left |
| Labels.ReplaceConfinesPairs | src/ds_project_arch_lab/utils/preprocessing.py:26 | after `str.replace` on a text with no pairs of a class, every such pair lies inside some occurrence of the replacement text |
| Labels.RepairsAppend | src/ds_project_arch_lab/utils/preprocessing.py:26 | chained `replace` calls run in order: two repair lists in turn are their concatenation |
| Labels.SqueezeNoDouble | src/ds_project_arch_lab/utils/preprocessing.py:24 | collapsing `__+` leaves no "__" |
| Labels.StripFacts | src/ds_project_arch_lab/utils/preprocessing.py:24 | `strip("_")` returns an infix of its argument with no "_" at either end |
| Labels.CanonicalUnchanged | src/ds_project_arch_lab/utils/preprocessing.py:16-27 | a label already in canonical snake case (lower case, digits, tidy underscores, no acronym pattern) is returned unchanged |
| Labels.RepairedIsTidy | src/ds_project_arch_lab/utils/preprocessing.py:16-27 | the corrected normaliser keeps the guarantees: no space, no upper case, no "__", no "_" at either end |
| Labels.CanonicalRepairedUnchanged | src/ds_project_arch_lab/utils/preprocessing.py:16-27 | the corrected normaliser leaves every canonical label alone unless it spells "fev_1" |
| LabelCases.DietQualityExample | src/ds_project_arch_lab/utils/preprocessing.py:11 | "DietQuality" becomes "diet_quality" under both normalisers, as documented |
| LabelCases.BmiExample | src/ds_project_arch_lab/utils/preprocessing.py:12 | "BMI" becomes "bmi" under both normalisers, as documented |
| LabelCases.Fev1ExamplesAsWritten | src/ds_project_arch_lab/utils/preprocessing.py:13-26 | as written, "LungFunctionFEV1", "Lung Function FEV1" and "lung_function_fev1" all become "lung_function_fev_1", not the documented "lung_function_fev1" |
| LabelCases.Fev1ExamplesRepaired | src/ds_project_arch_lab/utils/preprocessing.py:13-14 | with the "fev_1" repair that line 20 announces, the three spellings become "lung_function_fev1", as documented |
| LabelCases.FvcExample | src/ds_project_arch_lab/utils/preprocessing.py:16-27 | "LungFunctionFVC" becomes "lung_function_fvc", the configured name |
| LabelCases.PatientIdExample | src/ds_project_arch_lab/utils/preprocessing.py:16-27 | "PatientID" becomes "patient_id", which differs from "patientid" |
| Preprocessing.Relabel | src/ds_project_arch_lab/utils/preprocessing.py:29-31 | the copy has the same rows and cells, and label i is the normalised label i |
| Preprocessing.StandardizeColumnNames | src/ds_project_arch_lab/utils/preprocessing.py:29-31 | a copy with the same rows and cells in which label i is camel_to_snake, as written, of label i |
| Preprocessing.StandardizedLabels | src/ds_project_arch_lab/utils/preprocessing.py:7-31 | column count, order, cells and row count are kept, and every new label is snake case |
| Preprocessing.StandardizeCanonicalUnchanged | src/ds_project_arch_lab/utils/preprocessing.py:29-31 | a frame whose labels are already canonical (including ones spelling "fev_1") comes back unchanged |
| Preprocessing.StandardizeCollision | src/ds_project_arch_lab/utils/preprocessing.py:29-30 | labels are rewritten one by one with no collision check: "BMI" and "bmi" both become "bmi" |
| Preprocessing.DropColumns | src/ds_project_arch_lab/utils/preprocessing.py:34-36 | the rows are kept, and a column survives exactly when it was there and is not listed |
| Preprocessing.DropColumnsIsFilter | src/ds_project_arch_lab/utils/preprocessing.py:36 | filtering by the present names drops the same columns as filtering by all the names |
| Preprocessing.DropColumnsKeepsOrder | src/ds_project_arch_lab/utils/preprocessing.py:34-36 | the kept columns are the unlisted ones, at strictly increasing positions, with their cells |
| Preprocessing.DropColumnsIgnoresAbsent | src/ds_project_arch_lab/utils/preprocessing.py:35-36 | names that label no column change nothing and raise no error |
| Preprocessing.DropColumnsWellFormed | src/ds_project_arch_lab/utils/preprocessing.py:36 | dropping keeps every column as long as the table |
| Preprocessing.Coerce | src/ds_project_arch_lab/utils/preprocessing.py:46 | `to_numeric(errors="coerce")` gives a number or NaN, keeps numbers and NaN, and parses text or makes it NaN |
| Preprocessing.FloatTable | src/ds_project_arch_lab/utils/preprocessing.py:39-47 | the cast keeps the row count, the labels and the column lengths, and every cell outside the target is a float or NaN |
| Preprocessing.EnsureFloatTable | src/ds_project_arch_lab/utils/preprocessing.py:39-47 | the column loop computes exactly the cast table (target skipped, every other column coerced) |
| Preprocessing.FloatTableFacts | src/ds_project_arch_lab/utils/preprocessing.py:39-47 | names, order and row count are kept, the target is untouched, and every other cell is a float or NaN |
| Preprocessing.FloatTableTarget | src/ds_project_arch_lab/utils/preprocessing.py:45 | the target column reads back unchanged |
| Preprocessing.FloatTableKeepsNumeric | src/ds_project_arch_lab/utils/preprocessing.py:46 | an all-numeric table is not changed |
| Preprocessing.FloatTableIdempotent | src/ds_project_arch_lab/utils/preprocessing.py:43-47 | casting twice is casting once |
| Tables.AssignFacts | src/ds_project_arch_lab/features/build_features.py:38-47 | `df[name] = cells` overwrites the columns with that label, or appends one, and leaves every other column in place |
| Tables.PresentMembers | src/ds_project_arch_lab/features/build_features.py:41 | the filtered list holds exactly the listed names that label a column |
| Tables.PresentAppend | src/ds_project_arch_lab/features/build_features.py:63-64 | filtering a concatenated list filters each part in turn |
| Tables.WithoutIsSubsequence | src/ds_project_arch_lab/features/build_features.py:56 | the kept columns are the unlisted ones at strictly increasing positions, and exactly those |
| Tables.WithoutMembers | src/ds_project_arch_lab/utils/preprocessing.py:36 | a column is kept exactly when it is present and unlisted |
| Features.DefaultConfigFacts | src/ds_project_arch_lab/features/build_features.py:9-32 | the default configuration turns every stage on, lists the exposure and lung-function columns among the continuous ones, and keeps the target "diagnosis" out of every list a stage acts on |
| Features.AddRatio | src/ds_project_arch_lab/features/build_features.py:38-39 | the ratio step keeps the row count, is the identity when its toggle is off, and can only raise the TypeError of the ratio |
| Features.AddSymptomScore | src/ds_project_arch_lab/features/build_features.py:41-43 | the score step keeps the row count, is the identity when its toggle is off, and can only raise the TypeError of the score |
| Features.AddExposureIndex | src/ds_project_arch_lab/features/build_features.py:45-47 | the index step keeps the row count, is the identity when its toggle is off, and can only raise the TypeError of the index |
| Features.Engineered | src/ds_project_arch_lab/features/build_features.py:35-49 | engineer_features keeps the row count, changes nothing with all three toggles off, and raises only a TypeError naming a derived feature |
| Features.EncodeCategoricals | src/ds_project_arch_lab/features/build_features.py:52-56 | encoding returns its input when switched off; switched on, it raises get_dummies' ValueError exactly when the frame has no columns, and otherwise keeps the row count and, when no categorical name is listed twice, every column not configured as categorical |
| Features.ScaledColumns | src/ds_project_arch_lab/features/build_features.py:66-67 | the scaler's check gives one column per handed name, or a ValueError naming one of them |
| Features.ScaleContinuous | src/ds_project_arch_lab/features/build_features.py:59-68 | scaling fails only when switched on, and then only with the ValueError of a handed column or the refusal of a frame without rows |
| Features.Pipeline | src/ds_project_arch_lab/features/build_features.py:71-83 | prepare_feature_table raises a TypeError only for a derived feature, get_dummies' ValueError only when encoding is on, and the scaler's errors only when scaling is on |
| Features.EngineerFeatures | src/ds_project_arch_lab/features/build_features.py:35-49 | the three guarded assignments compute exactly the engineered table, or the first TypeError |
| Features.Numbers | src/ds_project_arch_lab/features/build_features.py:66-67 | the scaler's input check leaves a column of the same length holding only numbers and NaN |
| Features.Divisor | src/ds_project_arch_lab/features/build_features.py:66-67 | the scaler never divides by zero: a spread of 0 scales by 1 |
| Features.Standardise | src/ds_project_arch_lab/features/build_features.py:66-67 | the scaled column has the same length, numbers stay numbers, and NaN stays where it was |
| Features.PrepareFeatureTable | src/ds_project_arch_lab/features/build_features.py:71-83 | the five stages in order compute exactly the pipeline, and the first error propagates |
| EngineerProperties.AssignExtends | src/ds_project_arch_lab/features/build_features.py:39 | an assignment writes one label and leaves every other column and lookup as it was |
| EngineerProperties.ExtendsTrans | src/ds_project_arch_lab/features/build_features.py:35-49 | steps that each write their own labels together write only the union of those labels |
| EngineerProperties.RatioFacts | src/ds_project_arch_lab/features/build_features.py:38-39 | the ratio is written exactly when the toggle is on and both columns exist; TypeError is raised exactly when some row pairs text with a value that is not missing; each cell is a true quotient, or NaN for a zero or missing operand (never infinite); nothing else changes |
| EngineerProperties.RatioTextBesideMissing | src/ds_project_arch_lab/features/build_features.py:39 | text beside a missing divisor is masked: the row gets NaN and no error is raised |
| EngineerProperties.QuotientIsRatio | src/ds_project_arch_lab/features/build_features.py:39 | a ratio cell times the divisor gives the dividend, and a zero divisor gives NaN |
| EngineerProperties.ScoreFacts | src/ds_project_arch_lab/features/build_features.py:41-43 | the score is written exactly when the toggle is on and a symptom column exists; row k is the NaN-skipping sum of those columns; text raises TypeError; nothing else changes |
| EngineerProperties.SumOfIndicators | src/ds_project_arch_lab/features/build_features.py:43 | over 0/1 flags the sum counts the flags that are set |
| EngineerProperties.ScoreCountsSymptoms | src/ds_project_arch_lab/features/build_features.py:41-43 | with 0/1 symptom flags, a row's score is its number of symptoms, between 0 and the number of symptom columns |
| EngineerProperties.IndexFacts | src/ds_project_arch_lab/features/build_features.py:45-47 | the index is written exactly when the toggle is on and an exposure column exists; row k is the NaN-skipping mean of those columns; text raises TypeError; nothing else changes |
| EngineerProperties.CountNumZero | src/ds_project_arch_lab/features/build_features.py:47 | a row counts no numbers exactly when it holds none |
| EngineerProperties.MeanBetween | src/ds_project_arch_lab/features/build_features.py:47 | the mean is NaN exactly when the row has no number, and otherwise lies between any bounds of its numbers |
| EngineerProperties.EngineeredFacts | src/ds_project_arch_lab/features/build_features.py:35-49 | rows and well-formedness are kept, every other column keeps its position and cells, and new columns are appended |
| EncodeScaleProperties.IndicatorsOneHot | src/ds_project_arch_lab/features/build_features.py:56 | each indicator cell is 0 or 1, a row has at most one 1, and it has a 1 exactly when its value is one of the levels |
| EncodeScaleProperties.EncodedRow | src/ds_project_arch_lab/features/build_features.py:56 | with the categories get_dummies finds (dummy_na=False), a row of an encoded column has at most one 1, a missing cell has none, and any other cell has its 1 unless its value is the baseline drop_first removes |
| EncodeScaleProperties.LevelsDropFirst | src/ds_project_arch_lab/features/build_features.py:56 | with drop_first, every category but the first keeps an indicator; without it, every category does |
| EncodeScaleProperties.DummiesHaveRows | src/ds_project_arch_lab/features/build_features.py:56 | every indicator column is as long as the table |
| EncodeScaleProperties.DummiesAppend | src/ds_project_arch_lab/features/build_features.py:55-56 | the indicators of a concatenated list are the indicators of each part in turn |
| EncodeScaleProperties.EncodeFacts | src/ds_project_arch_lab/features/build_features.py:52-56 | with encoding off the table is returned as is; with it on, it fails exactly on a frame without columns, and otherwise the uncategorised columns come first, in order and untouched, then the indicators of the present categorical columns, except that when the present categorical names are as many as the columns no other column is kept |
| EncodeScaleProperties.EncodeKeepsOthers | src/ds_project_arch_lab/features/build_features.py:52-56 | with no categorical name listed twice, every column not configured as categorical is kept in front and reads back unchanged |
| EncodeScaleProperties.EncodeRepeatedDropsOthers | src/ds_project_arch_lab/features/build_features.py:55-56 | "gender" listed twice beside "age" leaves only the indicators: get_dummies keeps no other column |
| Tables.PresentNarrower | src/ds_project_arch_lab/features/build_features.py:55 | with no name listed twice, the present listed names are fewer than the columns as soon as one column is unlisted |
| EncodeScaleProperties.StandardiseAffine | src/ds_project_arch_lab/features/build_features.py:66-67 | scaling is the affine map x to (x - mean) / divisor on numbers, with NaN kept |
| EncodeScaleProperties.NumsOfAffine | src/ds_project_arch_lab/features/build_features.py:66-67 | the numbers of a scaled column are the shifted numbers of the input, in order |
| EncodeScaleProperties.SumShiftAll | src/ds_project_arch_lab/features/build_features.py:66-67 | the shifted numbers add up to (sum - n * mean) / divisor |
| EncodeScaleProperties.StandardiseCentred | src/ds_project_arch_lab/features/build_features.py:66-67 | the numbers of a scaled column add up to 0 |
| EncodeScaleProperties.StandardiseKeepsOrder | src/ds_project_arch_lab/features/build_features.py:66-67 | with a non-negative spread, scaling keeps the order of any two numbers |
| EncodeScaleProperties.NumbersFacts | src/ds_project_arch_lab/features/build_features.py:67 | the check passes exactly when every text cell parses; numbers are kept and NaN stays NaN |
| EncodeScaleProperties.ScaledColumnsOk | src/ds_project_arch_lab/features/build_features.py:66-67 | fit_transform succeeds exactly when every handed column passes the check |
| EncodeScaleProperties.ScaledColumnsValues | src/ds_project_arch_lab/features/build_features.py:66-67 | on success, column i is the scaling of the i-th handed column |
| EncodeScaleProperties.AssignAllShape | src/ds_project_arch_lab/features/build_features.py:67 | assigning present columns keeps the shape and the labels, and leaves the other columns alone |
| EncodeScaleProperties.AssignAllOther | src/ds_project_arch_lab/features/build_features.py:67 | a column that is not assigned reads back unchanged |
| EncodeScaleProperties.AssignAllGet | src/ds_project_arch_lab/features/build_features.py:67 | every assigned name reads back its column |
| EncodeScaleProperties.ToScalePresent | src/ds_project_arch_lab/features/build_features.py:63-64 | to_scale holds exactly the continuous and derived names that label a column |
| EncodeScaleProperties.ScaleErrors | src/ds_project_arch_lab/features/build_features.py:59-68 | off, or with nothing to scale, the table is returned as is; otherwise scaling fails exactly when a handed column holds text that is not a number or the frame has no rows, and the refusal of an empty frame comes exactly when every handed column is readable |
| EncodeScaleProperties.ScaleShape | src/ds_project_arch_lab/features/build_features.py:62-67 | on success the shape and labels are kept and every column outside to_scale is left alone |
| EncodeScaleProperties.ScaledColumnRead | src/ds_project_arch_lab/features/build_features.py:66-67 | a handed column reads back as the scaling of its checked cells |
| EncodeScaleProperties.ScaleCentres | src/ds_project_arch_lab/features/build_features.py:66-67 | every handed column comes back centred, with its NaN cells where they were |
| PipelineProperties.PipelineShape | src/ds_project_arch_lab/features/build_features.py:71-83 | the row count is kept, and every cell outside the target is a float or NaN |
| PipelineProperties.DropKeepsTarget | src/ds_project_arch_lab/utils/preprocessing.py:34-36 | an unlisted column reads back unchanged after the drop |
| PipelineProperties.PipelineKeepsTarget | src/ds_project_arch_lab/features/build_features.py:71-83 | a target that is not dropped, encoded, scaled or overwritten comes out with exactly its input cells, when no categorical name is listed twice |
| PipelineProperties.RatioNumeric | src/ds_project_arch_lab/features/build_features.py:38-39 | on numeric input the ratio step succeeds and writes only numbers and NaN |
| PipelineProperties.ScoreNumeric | src/ds_project_arch_lab/features/build_features.py:41-43 | on numeric input the score step succeeds and writes only numbers |
| PipelineProperties.IndexNumeric | src/ds_project_arch_lab/features/build_features.py:45-47 | on numeric input the index step succeeds and writes only numbers and NaN |
| PipelineProperties.EngineeredNumeric | src/ds_project_arch_lab/features/build_features.py:35-49 | on numeric input engineer_features succeeds and the table stays numeric |
| PipelineProperties.DummiesNumeric | src/ds_project_arch_lab/features/build_features.py:56 | every indicator cell is a number |
| PipelineProperties.EncodeNumeric | src/ds_project_arch_lab/features/build_features.py:52-56 | when encoding succeeds, it keeps a numeric table numeric |
| PipelineProperties.ScaleNumeric | src/ds_project_arch_lab/features/build_features.py:59-68 | on numeric input the scaler can only refuse a frame without rows |
| EngineerProperties.EngineeredNoColumns | src/ds_project_arch_lab/features/build_features.py:35-49 | a frame with no columns gets no derived feature |
| PipelineProperties.PipelineRejectsNoColumns | src/ds_project_arch_lab/features/build_features.py:78-80 | with encoding on, a frame the drop leaves without columns ends in get_dummies' ValueError |
| PipelineProperties.DoctorOnlyRejected | src/ds_project_arch_lab/features/build_features.py:32 | under the defaults, a frame holding only "doctor_in_charge" ends in get_dummies' ValueError |
| PipelineProperties.PipelineAcceptsNumbers | src/ds_project_arch_lab/features/build_features.py:71-83 | a well-formed table of numbers and NaN with at least one row and a column left after the drop goes through every stage without an error; otherwise the only possible errors are the scaler's refusal of a frame without rows and get_dummies' refusal of a frame without columns |
| PipelineProperties.DroppedHas | src/ds_project_arch_lab/utils/preprocessing.py:36 | a column of the dropped table was in the input and is not listed |
| PipelineProperties.DroppedFev1MeansNoRatio | src/ds_project_arch_lab/features/build_features.py:78-79 | the drop runs first, so dropping either lung-function column means the ratio is never created |
| PipelineProperties.DroppedSymptomsMeanNoScore | src/ds_project_arch_lab/features/build_features.py:78-79 | with every symptom column dropped there is no symptom score |
| PipelineProperties.NoExposureIndex | src/ds_project_arch_lab/features/build_features.py:45-47 | with no exposure column present, the index step changes nothing |
| PipelineProperties.DroppedExposuresMeanNoIndex | src/ds_project_arch_lab/features/build_features.py:78-79 | with every exposure column dropped there is no exposure index |
| Findings.RatioMissedAsWritten | src/ds_project_arch_lab/features/build_features.py:38 | after the normaliser as written, the raw lung-function headers never match "lung_function_fev1", so no ratio is written |
| Findings.RatioWrittenRepaired | src/ds_project_arch_lab/features/build_features.py:38-39 | after the corrected normaliser, the same headers match and the ratio of two numeric columns is written |
| Findings.PatientIdSurvivesDefaultDrop | src/ds_project_arch_lab/features/build_features.py:32 | after standardize_column_names as written, the raw "PatientID" is "patient_id" and survives the default drop list |
| Findings.PatientIdDroppedByIntendedConfig | src/ds_project_arch_lab/features/build_features.py:32 | with "patient_id" in the drop list, the identifier is dropped |

## Left out

- `cli/prepare_data.py` (reading the CSV, calling the two entry points, writing files) is
  I/O. The findings reproduce only its order of calls: normalise, then prepare.
- Floating point is modelled as exact reals. Rounding, overflow to `inf` (apart from division
  by zero) and the float dtype itself are not modelled. NaN is the `Missing` cell.
- Text parsing by `to_numeric` and by the scaler, the category order and indicator labels of
  `get_dummies`, and the standard deviation fitted by `StandardScaler` are parameters
  (`Library`), not computed.
- Features.Standardise: the scaler's tolerance for near-zero spreads is not modelled. Only an
  exact zero spread is replaced by 1.
- EncodeScaleProperties.StandardiseKeepsOrder: order is proved only for a non-negative
  spread, because the spread is a parameter.
- Duplicate column labels: lookups read the first column with a label. Assignment overwrites
  every column with the label. pandas would return a sub-frame instead.
- Indicator columns are the numbers 1 and 0, not pandas' boolean dtype. The final cast turns
  them into the same floats either way.
- EncodeScaleProperties.EncodedRow: the one-hot facts about missing cells hold for a
  `Library` whose categories are those get_dummies finds with `dummy_na=False`
  (`Features.SoundCategories`); their order stays a parameter.
- Aliasing: with encoding or scaling switched off, pandas returns the very frame it was
  given, so a caller who later changes the result changes the input too. Tables here are
  values without identity, so this sharing is not modelled.
- Features.AddRatio / EngineerProperties.RatioFacts: when a lung-function column holds text,
  pandas divides Python objects, where a zero divisor raises ZeroDivisionError instead of
  giving `inf`. The model gives NaN for a zero divisor in every case.
- Labels.CamelToSnake: lower-casing is ASCII only. Python's `str.lower` on other letters is
  not modelled.
- A row sum over text cells, which pandas would concatenate, is modelled as a TypeError.
  Only numeric symptom and exposure columns are expected.
- The scaler reads text with the same `parse` parameter as `to_numeric`. Any difference
  between the two parsers (the text "nan", say) is not modelled.

## Findings

| source | as written | input that shows it | evidently intended | confidence | as-written member | corrected member |
|---|---|---|---|---|---|---|
| src/ds_project_arch_lab/utils/preprocessing.py:20-26 | the digit pass turns "fev1" into "fev_1", and line 26 only repairs "f_e_v_1", so the docstring examples on lines 13-14 yield "lung_function_fev_1"; the configured "lung_function_fev1" is then never found and the FEV1/FVC ratio is silently skipped | a frame with columns "LungFunctionFEV1" and "LungFunctionFVC" | "fev_1" repaired to "fev1", as the comment on line 20 says, so the documented examples hold and the ratio is written | not executed | Findings.RatioMissedAsWritten | Findings.RatioWrittenRepaired |
| src/ds_project_arch_lab/features/build_features.py:32 | the default drop list names "patientid", but the normaliser turns the raw "PatientID" into "patient_id", so the patient identifier is never dropped and reaches the model as a feature | a frame with the column "PatientID", normalised and then dropped with the defaults | the identifier dropped, with "patient_id" in the default list (`Features.IntendedConfig`) | not executed | Findings.PatientIdSurvivesDefaultDrop | Findings.PatientIdDroppedByIntendedConfig |

`Preprocessing.StandardizeColumnNames` is standardize_column_names as written, built on
`Labels.CamelToSnake`. The corrected normaliser `Labels.CamelToSnakeRepaired` adds the
("fev_1", "fev1") repair. `Preprocessing.StandardizeColumnNamesRepaired` applies it to a frame
and is used only for the corrected half of the FEV1 finding. The patient-identifier finding is
corrected in the configuration (`Features.IntendedConfig`) and uses the normaliser as written
in both halves.
