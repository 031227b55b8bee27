/** What prepare_feature_table guarantees as a whole: the row count, a float-only table except
    for the target, the target's values, success on numeric input, and the consequences of
    running the drop before the feature steps. */
module PipelineProperties {
  import opened Tables
  import opened Preprocessing
  import opened Features
  import opened EngineerProperties
  import opened EncodeScaleProperties

  /** Every cell of every column is a number or missing. */
  predicate NumericColumns(cs: seq<Column>)
  {
    forall i, k :: 0 <= i < |cs| && 0 <= k < |cs[i].cells| ==> IsNumeric(cs[i].cells[k])
  }

  predicate AllNumeric(t: Table)
  {
    NumericColumns(t.columns)
  }

  // ---------------------------------------------------------------------------------------
  // Shape and types
  // ---------------------------------------------------------------------------------------

  /** Lines 71-83: the row count is kept and, after the final cast, every cell of every
      column but the target is a float or missing. */
  lemma PipelineShape(t: Table, cfg: FeatureConfig, lib: Library)
    requires WellFormed(t) && Pipeline(t, cfg, lib).Ok?
    ensures var r := Pipeline(t, cfg, lib).value;
      && r.rows == t.rows && WellFormed(r)
      && forall i, k :: 0 <= i < |r.columns| && r.columns[i].name != cfg.target && 0 <= k < r.rows ==>
           IsNumeric(r.columns[i].cells[k])
  {
    var d := DropColumns(t, cfg.dropCols);
    DropColumnsWellFormed(t, cfg.dropCols);
    EngineeredFacts(d, cfg);
    var e := Engineered(d, cfg).value;
    EncodeFacts(e, cfg, lib);
    var enc := EncodeCategoricals(e, cfg, lib).value;
    ScaleShape(enc, cfg, lib);
    FloatTableFacts(lib.parse, ScaleContinuous(enc, cfg, lib).value, cfg.target);
  }

  // ---------------------------------------------------------------------------------------
  // The target column
  // ---------------------------------------------------------------------------------------

  lemma DropKeepsTarget(t: Table, cols: seq<string>, name: string)
    requires Has(t, name) && name !in cols
    ensures Has(DropColumns(t, cols), name) && Get(DropColumns(t, cols), name) == Get(t, name)
  {
    DropColumnsIsFilter(t, cols);
    WithoutFind(t.columns, cols, name);
  }

  /** Lines 71-83 with preprocessing.py line 45: a target that is not dropped, encoded,
      scaled or overwritten by a derived feature comes out with exactly its input cells, as long
      as no categorical name is listed twice (see EncodeRepeatedDropsOthers for the case
      where get_dummies then loses every other column). */
  lemma PipelineKeepsTarget(t: Table, cfg: FeatureConfig, lib: Library)
    requires WellFormed(t) && Has(t, cfg.target) && NoRepeats(cfg.categorical)
    requires cfg.target !in cfg.dropCols && cfg.target !in cfg.categorical
    requires cfg.target !in cfg.continuous && cfg.target !in DerivedNames
    requires Pipeline(t, cfg, lib).Ok?
    ensures var r := Pipeline(t, cfg, lib).value;
      Has(r, cfg.target) && Get(r, cfg.target) == Get(t, cfg.target)
  {
    var n := cfg.target;
    var d := DropColumns(t, cfg.dropCols);
    DropKeepsTarget(t, cfg.dropCols, n);
    DropColumnsWellFormed(t, cfg.dropCols);
    EngineeredFacts(d, cfg);
    var e := Engineered(d, cfg).value;
    assert n !in {RatioName, ScoreName, IndexName};
    EncodeFacts(e, cfg, lib);
    EncodeKeepsOthers(e, cfg, lib);
    var enc := EncodeCategoricals(e, cfg, lib).value;
    assert Has(enc, n) && Get(enc, n) == Get(t, n);
    ToScalePresent(enc, cfg);
    ScaleShape(enc, cfg, lib);
    FloatTableTarget(lib.parse, ScaleContinuous(enc, cfg, lib).value, n);
  }

  // ---------------------------------------------------------------------------------------
  // Numeric input
  // ---------------------------------------------------------------------------------------

  lemma NumericHasNoText(t: Table, names: seq<string>)
    requires AllNumeric(t)
    ensures forall n :: Has(t, n) ==> !HasText(Get(t, n))
    ensures !AnyText(t, names)
  {
    forall n | Has(t, n) ensures !HasText(Get(t, n)) {
      var i := Find(t.columns, n);
      assert Get(t, n) == t.columns[i].cells;
    }
  }

  lemma AssignNumeric(t: Table, name: string, cells: seq<Value>)
    requires AllNumeric(t) && forall k :: 0 <= k < |cells| ==> IsNumeric(cells[k])
    ensures AllNumeric(Assign(t, name, cells))
  {
    AssignFacts(t, name, cells);
  }

  lemma RatioNumeric(t: Table, cfg: FeatureConfig)
    requires WellFormed(t) && AllNumeric(t)
    ensures AddRatio(t, cfg).Ok? && AllNumeric(AddRatio(t, cfg).value) && WellFormed(AddRatio(t, cfg).value)
  {
    NumericHasNoText(t, []);
    RatioFacts(t, cfg);
    if RatioGate(t, cfg) {
      AssignNumeric(t, RatioName, seq(t.rows, k => Quotient(At(Get(t, Fev1), k), At(Get(t, Fvc), k))));
    }
  }

  lemma ScoreNumeric(t: Table, cfg: FeatureConfig)
    requires WellFormed(t) && AllNumeric(t)
    ensures AddSymptomScore(t, cfg).Ok? && AllNumeric(AddSymptomScore(t, cfg).value)
    ensures WellFormed(AddSymptomScore(t, cfg).value)
  {
    var use := Present(cfg.symptomCols, t);
    NumericHasNoText(t, use);
    ScoreFacts(t, cfg);
    if ScoreGate(t, cfg) {
      AssignNumeric(t, ScoreName, seq(t.rows, k => Num(SumSkipNa(Row(t, use, k)))));
    }
  }

  lemma IndexNumeric(t: Table, cfg: FeatureConfig)
    requires WellFormed(t) && AllNumeric(t)
    ensures AddExposureIndex(t, cfg).Ok? && AllNumeric(AddExposureIndex(t, cfg).value)
  {
    var use := Present(cfg.exposureCols, t);
    NumericHasNoText(t, use);
    IndexFacts(t, cfg);
    if IndexGate(t, cfg) {
      AssignNumeric(t, IndexName, seq(t.rows, k => MeanSkipNa(Row(t, use, k))));
    }
  }

  /** The three feature steps succeed on numeric input and write only numeric cells. */
  lemma EngineeredNumeric(t: Table, cfg: FeatureConfig)
    requires WellFormed(t) && AllNumeric(t)
    ensures Engineered(t, cfg).Ok? && AllNumeric(Engineered(t, cfg).value)
  {
    RatioNumeric(t, cfg);
    ScoreNumeric(AddRatio(t, cfg).value, cfg);
    IndexNumeric(AddSymptomScore(AddRatio(t, cfg).value, cfg).value, cfg);
  }

  lemma {:induction false} DummiesNumeric(t: Table, names: seq<string>, dropFirst: bool, lib: Library)
    ensures NumericColumns(Dummies(t, names, dropFirst, lib))
  {
    if names != [] {
      DummiesNumeric(t, names[1..], dropFirst, lib);
      var ds := Dummies(t, names, dropFirst, lib);
      var cells := Cells(t, names[0]);
      var head := Indicators(names[0], cells, Levels(cells, dropFirst, lib), lib);
      assert ds == head + Dummies(t, names[1..], dropFirst, lib);
      assert forall i :: |head| <= i < |ds| ==> ds[i] == Dummies(t, names[1..], dropFirst, lib)[i - |head|];
    }
  }

  lemma EncodeNumeric(t: Table, cfg: FeatureConfig, lib: Library)
    requires AllNumeric(t)
    ensures EncodeCategoricals(t, cfg, lib).Ok? ==> AllNumeric(EncodeCategoricals(t, cfg, lib).value)
  {
    if cfg.oneHotEncode && t.columns != [] {
      var use := Present(cfg.categorical, t);
      var kept := KeptColumns(t, use);
      var ds := Dummies(t, use, cfg.dropFirst, lib);
      WithoutMembers(t.columns, use);
      assert forall c :: c in kept ==> c in t.columns;
      DummiesNumeric(t, use, cfg.dropFirst, lib);
      assert NumericColumns(kept) by {
        forall i, k | 0 <= i < |kept| && 0 <= k < |kept[i].cells| ensures IsNumeric(kept[i].cells[k]) {
          assert kept[i] in t.columns;
          var j :| 0 <= j < |t.columns| && t.columns[j] == kept[i];
          assert IsNumeric(t.columns[j].cells[k]);
        }
      }
      NumericAppend(kept, ds);
    }
  }

  lemma NumericAppend(a: seq<Column>, b: seq<Column>)
    requires NumericColumns(a) && NumericColumns(b)
    ensures NumericColumns(a + b)
  {
    forall i, k | 0 <= i < |a + b| && 0 <= k < |(a + b)[i].cells| ensures IsNumeric((a + b)[i].cells[k]) {
      if i >= |a| {
        assert (a + b)[i] == b[i - |a|];
      }
    }
  }

  /** On numeric input the scaler can only refuse a frame without rows. */
  lemma ScaleNumeric(t: Table, cfg: FeatureConfig, lib: Library)
    requires AllNumeric(t)
    ensures ScaleContinuous(t, cfg, lib).Ok? || (t.rows == 0 && ScaleContinuous(t, cfg, lib) == Err(NoSamples))
  {
    var names := ToScale(t, cfg);
    ToScalePresent(t, cfg);
    NumericHasNoText(t, []);
    forall n | n in names ensures !HasText(Cells(t, n)) && Numbers(lib.parse, Cells(t, n)).Some? {
      NumbersFacts(lib.parse, Cells(t, n));
    }
    ScaleErrors(t, cfg, lib);
  }

  /** Lines 52-56 with 78-80: with encoding on, a frame left with no column by the drop
      gets no derived feature either, and get_dummies raises on it, whatever its cells. */
  lemma PipelineRejectsNoColumns(t: Table, cfg: FeatureConfig, lib: Library)
    requires cfg.oneHotEncode && DropColumns(t, cfg.dropCols).columns == []
    ensures Pipeline(t, cfg, lib) == Err(NothingToConcat)
  {
    EngineeredNoColumns(DropColumns(t, cfg.dropCols), cfg);
  }

  /** The case of a frame holding only the column the defaults drop. */
  lemma DoctorOnlyRejected(cells: seq<Value>, lib: Library)
    ensures Pipeline(Table(|cells|, [Column("doctor_in_charge", cells)]), DefaultConfig, lib)
      == Err(NothingToConcat)
  {
    var t := Table(|cells|, [Column("doctor_in_charge", cells)]);
    DropColumnsIsFilter(t, DefaultConfig.dropCols);
    assert "doctor_in_charge" in DefaultConfig.dropCols;
    assert Without(t.columns[1..], DefaultConfig.dropCols) == [];
    PipelineRejectsNoColumns(t, DefaultConfig, lib);
  }

  /** A table of numbers and missing values goes through every stage; the errors left are the
      scaler's refusal of a frame without rows and get_dummies' refusal of a frame the drop
      left without columns. */
  lemma PipelineAcceptsNumbers(t: Table, cfg: FeatureConfig, lib: Library)
    requires WellFormed(t) && AllNumeric(t)
    ensures Pipeline(t, cfg, lib).Ok?
      || (t.rows == 0 && Pipeline(t, cfg, lib) == Err(NoSamples))
      || (cfg.oneHotEncode && DropColumns(t, cfg.dropCols).columns == []
          && Pipeline(t, cfg, lib) == Err(NothingToConcat))
    ensures t.rows > 0 && DropColumns(t, cfg.dropCols).columns != [] ==> Pipeline(t, cfg, lib).Ok?
  {
    var d := DropColumns(t, cfg.dropCols);
    DropColumnsWellFormed(t, cfg.dropCols);
    assert AllNumeric(d) by {
      forall i, k | 0 <= i < |d.columns| && 0 <= k < |d.columns[i].cells|
        ensures IsNumeric(d.columns[i].cells[k])
      {
        assert d.columns[i] in t.columns;
      }
    }
    EngineeredNumeric(d, cfg);
    EngineeredFacts(d, cfg);
    var e := Engineered(d, cfg).value;
    if cfg.oneHotEncode && d.columns == [] {
      PipelineRejectsNoColumns(t, cfg, lib);
    } else {
      EncodeNumeric(e, cfg, lib);
      var enc := EncodeCategoricals(e, cfg, lib).value;
      assert enc.rows == t.rows;
      ScaleNumeric(enc, cfg, lib);
    }
  }

  // ---------------------------------------------------------------------------------------
  // Stage order
  // ---------------------------------------------------------------------------------------

  /** A column of the dropped table was in the input and is not listed. */
  lemma DroppedHas(t: Table, cols: seq<string>)
    ensures forall n :: Has(DropColumns(t, cols), n) ==> Has(t, n) && n !in cols
  {
    var d := DropColumns(t, cols);
    forall n | Has(d, n) ensures Has(t, n) && n !in cols {
      var i := Find(d.columns, n);
      assert d.columns[i] in t.columns;
    }
  }

  /** Lines 78-79 with 38-39: the drop runs first, so dropping either lung-function column
      means the ratio is never created. */
  lemma DroppedFev1MeansNoRatio(t: Table, cfg: FeatureConfig)
    requires WellFormed(t) && (Fev1 in cfg.dropCols || Fvc in cfg.dropCols) && !Has(t, RatioName)
    requires Engineered(DropColumns(t, cfg.dropCols), cfg).Ok?
    ensures !Has(Engineered(DropColumns(t, cfg.dropCols), cfg).value, RatioName)
  {
    var d := DropColumns(t, cfg.dropCols);
    DroppedHas(t, cfg.dropCols);
    DropColumnsWellFormed(t, cfg.dropCols);
    EngineeredFacts(d, cfg);
    RatioFacts(d, cfg);
    var t1 := AddRatio(d, cfg).value;
    ScoreFacts(t1, cfg);
    var t2 := AddSymptomScore(t1, cfg).value;
    IndexFacts(t2, cfg);
  }

  /** Lines 78-79 with 41-43: with every symptom column dropped there is no symptom score. */
  lemma DroppedSymptomsMeanNoScore(t: Table, cfg: FeatureConfig)
    requires WellFormed(t) && forall n :: n in cfg.symptomCols ==> n in cfg.dropCols
    requires RatioName !in cfg.symptomCols && !Has(t, ScoreName)
    requires Engineered(DropColumns(t, cfg.dropCols), cfg).Ok?
    ensures !Has(Engineered(DropColumns(t, cfg.dropCols), cfg).value, ScoreName)
  {
    var d := DropColumns(t, cfg.dropCols);
    DroppedHas(t, cfg.dropCols);
    DropColumnsWellFormed(t, cfg.dropCols);
    RatioFacts(d, cfg);
    var t1 := AddRatio(d, cfg).value;
    PresentNone(cfg.symptomCols, t1);
    ScoreFacts(t1, cfg);
    var t2 := AddSymptomScore(t1, cfg).value;
    IndexFacts(t2, cfg);
  }

  /** The two steps before the exposure index write only the ratio and the score. */
  lemma FirstTwoSteps(d: Table, cfg: FeatureConfig)
    requires WellFormed(d) && AddRatio(d, cfg).Ok? && AddSymptomScore(AddRatio(d, cfg).value, cfg).Ok?
    ensures var t2 := AddSymptomScore(AddRatio(d, cfg).value, cfg).value;
      WellFormed(t2) && Extends(d, t2, {RatioName, ScoreName})
  {
    RatioFacts(d, cfg);
    var t1 := AddRatio(d, cfg).value;
    ScoreFacts(t1, cfg);
    ExtendsTrans(d, t1, AddSymptomScore(t1, cfg).value, {RatioName}, {ScoreName});
  }

  lemma IndexNameIsNew()
    ensures IndexName != RatioName && IndexName != ScoreName
  {
    assert IndexName[0] == 'e' && RatioName[0] == 'f' && ScoreName[0] == 's';
  }

  /** With no exposure column in reach of the index step, the step changes nothing. */
  lemma NoExposureIndex(d: Table, t2: Table, cfg: FeatureConfig)
    requires Extends(d, t2, {RatioName, ScoreName})
    requires forall n :: n in cfg.exposureCols ==> !Has(d, n)
    requires RatioName !in cfg.exposureCols && ScoreName !in cfg.exposureCols && !Has(d, IndexName)
    ensures AddExposureIndex(t2, cfg) == Ok(t2) && !Has(t2, IndexName)
  {
    IndexNameIsNew();
    PresentNone(cfg.exposureCols, t2);
  }

  /** Lines 78-79 with 45-47: with every exposure column dropped there is no exposure index. */
  lemma DroppedExposuresMeanNoIndex(t: Table, cfg: FeatureConfig)
    requires WellFormed(t) && forall n :: n in cfg.exposureCols ==> n in cfg.dropCols
    requires RatioName !in cfg.exposureCols && ScoreName !in cfg.exposureCols && !Has(t, IndexName)
    requires Engineered(DropColumns(t, cfg.dropCols), cfg).Ok?
    ensures !Has(Engineered(DropColumns(t, cfg.dropCols), cfg).value, IndexName)
  {
    var d := DropColumns(t, cfg.dropCols);
    DroppedHas(t, cfg.dropCols);
    DropColumnsWellFormed(t, cfg.dropCols);
    FirstTwoSteps(d, cfg);
    var t2 := AddSymptomScore(AddRatio(d, cfg).value, cfg).value;
    assert Engineered(d, cfg) == AddExposureIndex(t2, cfg);
    NoExposureIndex(d, t2, cfg);
  }
}
