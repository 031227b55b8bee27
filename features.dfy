/** features/build_features.py: the feature configuration, the three derived features, one-hot
    encoding, scaling, and the fixed order of the whole pipeline. */
module Features {
  import opened Tables
  import opened Preprocessing

  // ---------------------------------------------------------------------------------------
  // Configuration
  // ---------------------------------------------------------------------------------------

  datatype FeatureConfig = FeatureConfig(
    target: string,
    categorical: seq<string>,
    continuous: seq<string>,
    symptomCols: seq<string>,
    exposureCols: seq<string>,
    addFev1FvcRatio: bool,
    addSymptomScore: bool,
    addExposureIndex: bool,
    oneHotEncode: bool,
    dropFirst: bool,
    scaleContinuous: bool,
    dropCols: seq<string>)

  /** The defaults of the dataclass. */
  const DefaultConfig := FeatureConfig(
    "diagnosis",
    ["gender", "ethnicity", "education_level"],
    ["age", "bmi", "physical_activity", "diet_quality", "sleep_quality",
     "pollution_exposure", "pollen_exposure", "dust_exposure",
     "lung_function_fev1", "lung_function_fvc"],
    ["wheezing", "shortness_of_breath", "chest_tightness",
     "coughing", "nighttime_symptoms", "exercise_induced"],
    ["pollution_exposure", "pollen_exposure", "dust_exposure"],
    true, true, true,
    true, true, true,
    ["patientid", "doctor_in_charge"])

  /** The defaults with the identifier spelled as the label normaliser writes it, so that the
      default drop removes the patient identifier (see the findings). */
  const IntendedConfig := DefaultConfig.(dropCols := ["patient_id", "doctor_in_charge"])

  const Fev1 := "lung_function_fev1"
  const Fvc := "lung_function_fvc"
  const RatioName := "fev1_fvc_ratio"
  const ScoreName := "symptom_score"
  const IndexName := "exposure_index"

  /** The derived names appended to the continuous columns before scaling. */
  const DerivedNames := [RatioName, ScoreName, IndexName]

  /** The defaults turn every stage on, list the exposure and lung-function columns among the
      continuous ones, and keep the target out of every list a stage acts on. */
  lemma DefaultConfigFacts()
    ensures var c := DefaultConfig;
      && c.addFev1FvcRatio && c.addSymptomScore && c.addExposureIndex
      && c.oneHotEncode && c.dropFirst && c.scaleContinuous
      && (forall n :: n in c.exposureCols ==> n in c.continuous)
      && Fev1 in c.continuous && Fvc in c.continuous
      && c.target !in c.dropCols && c.target !in c.categorical && c.target !in c.continuous
      && c.target !in c.symptomCols && c.target !in DerivedNames
  {
  }

  /** What the stages take from pandas and scikit-learn and the model leaves open. */
  datatype Library = Library(
    parse: string -> Option<real>,         // the text parser of to_numeric and of the scaler
    categories: seq<Value> -> seq<Value>,  // the categories get_dummies finds in a column
    dummyName: (string, Value) -> string,  // the label get_dummies gives an indicator column
    spread: seq<real> -> real)             // the standard deviation the scaler fits

  /** Cell k of a column, or missing past its end (never reached in a well-formed table). */
  function At(cells: seq<Value>, k: int): Value
  {
    if 0 <= k < |cells| then cells[k] else Missing
  }

  /** Cells of the first column with the name, or none. */
  function Cells(t: Table, name: string): seq<Value>
  {
    if Has(t, name) then Get(t, name) else []
  }

  /** Some listed column holds text. */
  predicate AnyText(t: Table, names: seq<string>)
  {
    exists i :: 0 <= i < |names| && HasText(Cells(t, names[i]))
  }

  /** Row k of the listed columns, in list order (`out[names]` restricted to one row). */
  function Row(t: Table, names: seq<string>, k: int): (r: seq<Value>)
    ensures |r| == |names|
  {
    seq(|names|, i requires 0 <= i < |names| => At(Cells(t, names[i]), k))
  }

  // ---------------------------------------------------------------------------------------
  // engineer_features
  // ---------------------------------------------------------------------------------------

  /** Element-wise division with `inf` and `-inf` replaced by NaN: a zero divisor, like a
      missing operand, gives a missing value. */
  function Quotient(a: Value, b: Value): Value
  {
    if a.Num? && b.Num? && b.x != 0.0 then Num(a.x / b.x) else Missing
  }

  /** Independent description of a ratio cell: a number only for two numbers with a non-zero
      divisor, and then the number that times the divisor gives the dividend. */
  predicate RatioCell(a: Value, b: Value, q: Value)
  {
    && !q.Text?
    && (q.Num? <==> a.Num? && b.Num? && b.x != 0.0)
    && (q.Num? ==> q.x * b.x == a.x)
  }

  predicate RatioGate(t: Table, cfg: FeatureConfig)
  {
    cfg.addFev1FvcRatio && Has(t, Fev1) && Has(t, Fvc)
  }

  /** A row that raises when divided: a column holding text has object dtype, and pandas then
      divides only the rows where both operands are present; text in such a row raises
      TypeError, while text beside a missing value just gives NaN. */
  predicate TextPair(a: Value, b: Value)
  {
    (a.Text? || b.Text?) && !a.Missing? && !b.Missing?
  }

  predicate DivisionRaises(num: seq<Value>, den: seq<Value>, rows: nat)
  {
    exists k :: 0 <= k < rows && TextPair(At(num, k), At(den, k))
  }

  /** Lines 38-39. */
  function AddRatio(t: Table, cfg: FeatureConfig): (r: Result<Table>)
    ensures r.Err? ==> r.error == TypeError(RatioName)
    ensures r.Ok? ==> r.value.rows == t.rows
    ensures !cfg.addFev1FvcRatio ==> r == Ok(t)
  {
    if !RatioGate(t, cfg) then Ok(t)
    else if DivisionRaises(Get(t, Fev1), Get(t, Fvc), t.rows) then Err(TypeError(RatioName))
    else Ok(Assign(t, RatioName, seq(t.rows, k => Quotient(At(Get(t, Fev1), k), At(Get(t, Fvc), k)))))
  }

  /** Sum of the numbers in a row, NaN skipped; an empty sum is 0. */
  function SumSkipNa(vs: seq<Value>): real
  {
    if vs == [] then 0.0 else (if vs[0].Num? then vs[0].x else 0.0) + SumSkipNa(vs[1..])
  }

  function CountNum(vs: seq<Value>): nat
  {
    if vs == [] then 0 else (if vs[0].Num? then 1 else 0) + CountNum(vs[1..])
  }

  /** Mean of the numbers in a row, NaN skipped; NaN when there is none. */
  function MeanSkipNa(vs: seq<Value>): Value
  {
    if CountNum(vs) == 0 then Missing else Num(SumSkipNa(vs) / CountNum(vs) as real)
  }

  predicate ScoreGate(t: Table, cfg: FeatureConfig)
  {
    cfg.addSymptomScore && Present(cfg.symptomCols, t) != []
  }

  /** Lines 41-43: the row sum over the configured symptom columns that are present. */
  function AddSymptomScore(t: Table, cfg: FeatureConfig): (r: Result<Table>)
    ensures r.Err? ==> r.error == TypeError(ScoreName)
    ensures r.Ok? ==> r.value.rows == t.rows
    ensures !cfg.addSymptomScore ==> r == Ok(t)
  {
    var use := Present(cfg.symptomCols, t);
    if !ScoreGate(t, cfg) then Ok(t)
    else if AnyText(t, use) then Err(TypeError(ScoreName))
    else Ok(Assign(t, ScoreName, seq(t.rows, k => Num(SumSkipNa(Row(t, use, k))))))
  }

  predicate IndexGate(t: Table, cfg: FeatureConfig)
  {
    cfg.addExposureIndex && Present(cfg.exposureCols, t) != []
  }

  /** Lines 45-47: the row mean over the configured exposure columns that are present. */
  function AddExposureIndex(t: Table, cfg: FeatureConfig): (r: Result<Table>)
    ensures r.Err? ==> r.error == TypeError(IndexName)
    ensures r.Ok? ==> r.value.rows == t.rows
    ensures !cfg.addExposureIndex ==> r == Ok(t)
  {
    var use := Present(cfg.exposureCols, t);
    if !IndexGate(t, cfg) then Ok(t)
    else if AnyText(t, use) then Err(TypeError(IndexName))
    else Ok(Assign(t, IndexName, seq(t.rows, k => MeanSkipNa(Row(t, use, k)))))
  }

  /** The three steps in order; each sees the columns the previous one added. */
  function Engineered(t: Table, cfg: FeatureConfig): (r: Result<Table>)
    ensures r.Err? ==> r.error.TypeError? && r.error.feature in DerivedNames
    ensures r.Ok? ==> r.value.rows == t.rows
    ensures !cfg.addFev1FvcRatio && !cfg.addSymptomScore && !cfg.addExposureIndex ==> r == Ok(t)
  {
    match AddRatio(t, cfg)
    case Err(e) => Err(e)
    case Ok(t1) =>
      match AddSymptomScore(t1, cfg)
      case Err(e) => Err(e)
      case Ok(t2) => AddExposureIndex(t2, cfg)
  }

  /** engineer_features: a copy that receives up to three columns, one assignment at a time. */
  method EngineerFeatures(t: Table, cfg: FeatureConfig) returns (r: Result<Table>)
    ensures r == Engineered(t, cfg)
  {
    var out := t;
    if RatioGate(out, cfg) {
      var fev1, fvc := Get(out, Fev1), Get(out, Fvc);
      if DivisionRaises(fev1, fvc, out.rows) {
        return Err(TypeError(RatioName));
      }
      out := Assign(out, RatioName, seq(out.rows, k => Quotient(At(fev1, k), At(fvc, k))));
    }
    var useSymptoms := Present(cfg.symptomCols, out);
    if cfg.addSymptomScore && useSymptoms != [] {
      if AnyText(out, useSymptoms) {
        return Err(TypeError(ScoreName));
      }
      var before := out;
      out := Assign(out, ScoreName, seq(out.rows, k => Num(SumSkipNa(Row(before, useSymptoms, k)))));
    }
    var useExposures := Present(cfg.exposureCols, out);
    if cfg.addExposureIndex && useExposures != [] {
      if AnyText(out, useExposures) {
        return Err(TypeError(IndexName));
      }
      var before := out;
      out := Assign(out, IndexName, seq(out.rows, k => MeanSkipNa(Row(before, useExposures, k))));
    }
    r := Ok(out);
  }

  // ---------------------------------------------------------------------------------------
  // encode_categoricals
  // ---------------------------------------------------------------------------------------

  /** What get_dummies with dummy_na=False finds in a column: each value that is not missing,
      once. */
  predicate CategoriesOf(cells: seq<Value>, cats: seq<Value>)
  {
    && (forall i, j :: 0 <= i < j < |cats| ==> cats[i] != cats[j])
    && (forall v :: v in cats ==> v in cells && !v.Missing?)
    && (forall v :: v in cells && !v.Missing? ==> v in cats)
  }

  /** The library finds the categories of every column as get_dummies does; their order is
      left open. */
  ghost predicate SoundCategories(lib: Library)
  {
    forall cells :: CategoriesOf(cells, lib.categories(cells))
  }

  /** The categories that get an indicator column: the first one goes when drop_first is set. */
  function Levels(cells: seq<Value>, dropFirst: bool, lib: Library): seq<Value>
  {
    var cats := lib.categories(cells);
    if dropFirst && cats != [] then cats[1..] else cats
  }

  /** One 1/0 indicator column per level: a cell gets its 1 in the column of its value. */
  function Indicators(name: string, cells: seq<Value>, levels: seq<Value>, lib: Library): (r: seq<Column>)
    ensures |r| == |levels|
  {
    seq(|levels|, i requires 0 <= i < |levels| =>
      Column(lib.dummyName(name, levels[i]),
        seq(|cells|, k requires 0 <= k < |cells| => if cells[k] == levels[i] then Num(1.0) else Num(0.0))))
  }

  /** The indicator columns of every encoded column, in the order of `names`. */
  function Dummies(t: Table, names: seq<string>, dropFirst: bool, lib: Library): seq<Column>
  {
    if names == [] then []
    else
      var cells := Cells(t, names[0]);
      Indicators(names[0], cells, Levels(cells, dropFirst, lib), lib) + Dummies(t, names[1..], dropFirst, lib)
  }

  /** The columns get_dummies keeps in front of the indicators: every column not encoded, unless
      the encoded selection is as wide as the frame (a name listed twice can make it so), in
      which case pandas keeps none of them. */
  function KeptColumns(t: Table, use: seq<string>): seq<Column>
  {
    if |use| == |t.columns| then [] else Without(t.columns, use)
  }

  /** Lines 52-56: `get_dummies(df, columns=use_cats)` keeps the other columns in order and
      appends the indicator columns of each encoded column; with no column at all it has no
      frame to concatenate and raises ValueError. */
  function EncodeCategoricals(t: Table, cfg: FeatureConfig, lib: Library): (r: Result<Table>)
    ensures r.Err? <==> cfg.oneHotEncode && t.columns == []
    ensures r.Err? ==> r.error == NothingToConcat
    ensures r.Ok? ==> r.value.rows == t.rows
    ensures !cfg.oneHotEncode ==> r == Ok(t)
    ensures r.Ok? && NoRepeats(cfg.categorical) ==>
      forall c :: c in t.columns && c.name !in cfg.categorical ==> c in r.value.columns
  {
    if !cfg.oneHotEncode then Ok(t)
    else if t.columns == [] then Err(NothingToConcat)
    else
      var use := Present(cfg.categorical, t);
      PresentMembers(cfg.categorical, t);
      WithoutMembers(t.columns, use);
      assert NoRepeats(cfg.categorical) ==>
        forall c :: c in t.columns && c.name !in cfg.categorical ==> c in KeptColumns(t, use) by {
        if NoRepeats(cfg.categorical) {
          forall c | c in t.columns && c.name !in cfg.categorical
            ensures c in KeptColumns(t, use)
          {
            var i :| 0 <= i < |t.columns| && t.columns[i] == c;
            assert Has(t, c.name);
            PresentNarrower(cfg.categorical, t, c.name);
          }
        }
      }
      Ok(Table(t.rows, KeptColumns(t, use) + Dummies(t, use, cfg.dropFirst, lib)))
  }

  // ---------------------------------------------------------------------------------------
  // scale_continuous
  // ---------------------------------------------------------------------------------------

  /** The scaler's input check: text it cannot read as a number rejects the column. */
  function Numbers(parse: string -> Option<real>, cells: seq<Value>): (r: Option<seq<Value>>)
    ensures r.Some? ==> |r.value| == |cells| && forall k :: 0 <= k < |cells| ==> IsNumeric(r.value[k])
  {
    if cells == [] then Some([])
    else
      var head := match cells[0]
        case Text(s) => (match parse(s) case Some(x) => Some(Num(x)) case None => None)
        case _ => Some(cells[0]);
      match (head, Numbers(parse, cells[1..]))
      case (Some(v), Some(vs)) => Some([v] + vs)
      case _ => None
  }

  /** The numbers of a column, in order. */
  function NumsOf(cells: seq<Value>): seq<real>
  {
    if cells == [] then []
    else (if cells[0].Num? then [cells[0].x] else []) + NumsOf(cells[1..])
  }

  function Sum(xs: seq<real>): real
  {
    if xs == [] then 0.0 else xs[0] + Sum(xs[1..])
  }

  function Mean(xs: seq<real>): real
  {
    if xs == [] then 0.0 else Sum(xs) / |xs| as real
  }

  /** StandardScaler's divisor: the fitted spread, or 1 when the spread is 0. */
  function Divisor(xs: seq<real>, lib: Library): (d: real)
    ensures d != 0.0
  {
    if lib.spread(xs) == 0.0 then 1.0 else lib.spread(xs)
  }

  /** fit_transform on one column: NaN is ignored when fitting and kept when transforming. */
  function Standardise(cells: seq<Value>, lib: Library): (r: seq<Value>)
    ensures |r| == |cells|
    ensures forall k :: 0 <= k < |cells| ==>
      (r[k].Num? <==> cells[k].Num?) && (!cells[k].Num? ==> r[k] == cells[k])
  {
    var xs := NumsOf(cells);
    seq(|cells|, k requires 0 <= k < |cells| =>
      if cells[k].Num? then Num((cells[k].x - Mean(xs)) / Divisor(xs, lib)) else cells[k])
  }

  /** The scaled columns of the listed names, or the error for the first unreadable one. */
  function ScaledColumns(t: Table, names: seq<string>, lib: Library): (r: Result<seq<seq<Value>>>)
    ensures r.Ok? ==> |r.value| == |names|
    ensures r.Err? ==> r.error.ValueError? && r.error.column in names
  {
    if names == [] then Ok([])
    else
      match (Numbers(lib.parse, Cells(t, names[0])), ScaledColumns(t, names[1..], lib))
      case (None, _) => Err(ValueError(names[0]))
      case (Some(_), Err(e)) => Err(e)
      case (Some(ns), Ok(cs)) => Ok([Standardise(ns, lib)] + cs)
  }

  /** `out[names] = columns`, one name at a time. */
  function AssignAll(t: Table, names: seq<string>, cols: seq<seq<Value>>): Table
    requires |names| == |cols|
    decreases |names|
  {
    if names == [] then t else AssignAll(Assign(t, names[0], cols[0]), names[1..], cols[1..])
  }

  /** The columns handed to the scaler (lines 63-64). */
  function ToScale(t: Table, cfg: FeatureConfig): seq<string>
  {
    Present(cfg.continuous + DerivedNames, t)
  }

  /** Lines 59-68. The scaler first reads every handed column as numbers, then refuses a
      frame with no rows (it asks for at least one sample). */
  function ScaleContinuous(t: Table, cfg: FeatureConfig, lib: Library): (r: Result<Table>)
    ensures r.Err? ==> r.error == NoSamples || (r.error.ValueError? && r.error.column in ToScale(t, cfg))
    ensures r.Err? ==> cfg.scaleContinuous
  {
    var names := ToScale(t, cfg);
    if !cfg.scaleContinuous || names == [] then Ok(t)
    else
      match ScaledColumns(t, names, lib)
      case Err(e) => Err(e)
      case Ok(cols) => if t.rows == 0 then Err(NoSamples) else Ok(AssignAll(t, names, cols))
  }

  // ---------------------------------------------------------------------------------------
  // prepare_feature_table
  // ---------------------------------------------------------------------------------------

  /** Lines 78-82: drop, engineer, encode, scale, cast; the first error propagates. */
  function Pipeline(t: Table, cfg: FeatureConfig, lib: Library): (r: Result<Table>)
    ensures r.Err? && r.error.TypeError? ==> r.error.feature in DerivedNames
    ensures r.Err? && r.error == NothingToConcat ==> cfg.oneHotEncode
    ensures r.Err? && (r.error.ValueError? || r.error == NoSamples) ==> cfg.scaleContinuous
  {
    var dropped := DropColumns(t, cfg.dropCols);
    match Engineered(dropped, cfg)
    case Err(e) => Err(e)
    case Ok(engineered) =>
      match EncodeCategoricals(engineered, cfg, lib)
      case Err(e) => Err(e)
      case Ok(encoded) =>
        match ScaleContinuous(encoded, cfg, lib)
        case Err(e) => Err(e)
        case Ok(scaled) => Ok(FloatTable(lib.parse, scaled, cfg.target))
  }

  /** prepare_feature_table: one value threaded through the five stages. */
  method PrepareFeatureTable(t: Table, cfg: FeatureConfig, lib: Library) returns (r: Result<Table>)
    ensures r == Pipeline(t, cfg, lib)
  {
    var out := DropColumns(t, cfg.dropCols);
    var engineered := EngineerFeatures(out, cfg);
    if engineered.Err? {
      return Err(engineered.error);
    }
    var encoded := EncodeCategoricals(engineered.value, cfg, lib);
    if encoded.Err? {
      return Err(encoded.error);
    }
    var scaled := ScaleContinuous(encoded.value, cfg, lib);
    if scaled.Err? {
      return Err(scaled.error);
    }
    out := EnsureFloatTable(lib.parse, scaled.value, cfg.target);
    r := Ok(out);
  }
}
