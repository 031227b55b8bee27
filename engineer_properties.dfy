/** What engineer_features guarantees: each derived column is written exactly when its toggle
    is on and its sources are present, holds what its definition promises, and nothing else
    changes. */
module EngineerProperties {
  import opened Tables
  import opened Features

  /** r is t with only the named columns written: every old column keeps its position and
      label, the columns with other labels keep their cells, and whatever is new is appended
      under one of the names. */
  ghost predicate Extends(t: Table, r: Table, names: set<string>)
  {
    && r.rows == t.rows
    && |t.columns| <= |r.columns|
    && (forall i :: 0 <= i < |t.columns| ==> r.columns[i].name == t.columns[i].name)
    && (forall i :: 0 <= i < |t.columns| && t.columns[i].name !in names ==> r.columns[i] == t.columns[i])
    && (forall i :: |t.columns| <= i < |r.columns| ==> r.columns[i].name in names)
    && (forall n :: n !in names ==> (Has(r, n) <==> Has(t, n)))
    && (forall n :: n !in names && Has(t, n) ==> Get(r, n) == Get(t, n))
  }

  /** `df[name] = cells` writes only that column. */
  lemma AssignExtends(t: Table, name: string, cells: seq<Value>)
    ensures var r := Assign(t, name, cells);
      && Extends(t, r, {name})
      && Has(r, name) && Get(r, name) == cells
      && (!Has(t, name) ==> |r.columns| == |t.columns| + 1)
      && (WellFormed(t) && |cells| == t.rows ==> WellFormed(r))
  {
    AssignFacts(t, name, cells);
    forall n | n != name && Has(t, n) ensures Get(Assign(t, name, cells), n) == Get(t, n) {
      AssignOther(t, name, cells, n);
    }
  }

  lemma ExtendsTrans(t: Table, u: Table, r: Table, a: set<string>, b: set<string>)
    requires Extends(t, u, a) && Extends(u, r, b)
    ensures Extends(t, r, a + b)
  {
    forall i | |t.columns| <= i < |r.columns| ensures r.columns[i].name in a + b {
      if i < |u.columns| && u.columns[i].name !in b {
        assert r.columns[i] == u.columns[i];
      }
    }
  }

  // ---------------------------------------------------------------------------------------
  // fev1_fvc_ratio
  // ---------------------------------------------------------------------------------------

  /** Lines 38-39: the ratio is written exactly when the toggle is on and both lung-function
      columns are present; a cell is a number only for a non-zero divisor, so never infinite;
      a row pairing text with a present value raises TypeError, text beside a missing value
      gives NaN; nothing else changes. */
  lemma RatioFacts(t: Table, cfg: FeatureConfig)
    requires WellFormed(t)
    ensures AddRatio(t, cfg).Err? <==>
      RatioGate(t, cfg) &&
      (exists k :: 0 <= k < t.rows && (Get(t, Fev1)[k].Text? || Get(t, Fvc)[k].Text?) &&
                   !Get(t, Fev1)[k].Missing? && !Get(t, Fvc)[k].Missing?)
    ensures AddRatio(t, cfg).Ok? ==> var r := AddRatio(t, cfg).value;
      && WellFormed(r) && Extends(t, r, {RatioName})
      && (!RatioGate(t, cfg) ==> r == t)
      && (RatioGate(t, cfg) ==> (Has(r, RatioName) &&
            forall k :: 0 <= k < t.rows ==> RatioCell(Get(t, Fev1)[k], Get(t, Fvc)[k], Get(r, RatioName)[k])))
      && (!Has(t, RatioName) ==> (Has(r, RatioName) <==> RatioGate(t, cfg)))
  {
    if RatioGate(t, cfg) && AddRatio(t, cfg).Ok? {
      var a, b := Get(t, Fev1), Get(t, Fvc);
      var cells := seq(t.rows, k => Quotient(At(a, k), At(b, k)));
      AssignExtends(t, RatioName, cells);
      forall k | 0 <= k < t.rows ensures RatioCell(a[k], b[k], cells[k]) {
        QuotientIsRatio(a[k], b[k]);
      }
    }
  }

  /** Text beside a missing divisor is masked: the row gets NaN and nothing is raised. */
  lemma RatioTextBesideMissing(cfg: FeatureConfig, s: string)
    requires cfg.addFev1FvcRatio
    ensures var t := Table(1, [Column(Fev1, [Text(s)]), Column(Fvc, [Missing])]);
      AddRatio(t, cfg) == Ok(Table(1, t.columns + [Column(RatioName, [Missing])]))
  {
    var t := Table(1, [Column(Fev1, [Text(s)]), Column(Fvc, [Missing])]);
    assert |Fev1| != |Fvc| && |Fev1| != |RatioName| && |Fvc| != |RatioName|;
    assert t.columns[0].name == Fev1 && t.columns[1].name == Fvc;
    assert Get(t, Fev1) == [Text(s)] && Get(t, Fvc) == [Missing];
    assert !Has(t, RatioName);
    assert seq(1, k => Quotient(At([Text(s)], k), At([Missing], k))) == [Missing];
  }

  lemma QuotientIsRatio(a: Value, b: Value)
    ensures RatioCell(a, b, Quotient(a, b))
  {
    if a.Num? && b.Num? && b.x != 0.0 {
      assert (a.x / b.x) * b.x == a.x;
    }
  }

  // ---------------------------------------------------------------------------------------
  // symptom_score
  // ---------------------------------------------------------------------------------------

  /** Lines 41-43: the score is written exactly when the toggle is on and some configured
      symptom column is present; row k is the NaN-skipping sum of row k of exactly those
      columns, in configuration order; text raises TypeError; nothing else changes. */
  lemma ScoreFacts(t: Table, cfg: FeatureConfig)
    requires WellFormed(t)
    ensures AddSymptomScore(t, cfg).Err? <==>
      ScoreGate(t, cfg) && AnyText(t, Present(cfg.symptomCols, t))
    ensures AddSymptomScore(t, cfg).Ok? ==> var r := AddSymptomScore(t, cfg).value;
      && WellFormed(r) && Extends(t, r, {ScoreName})
      && (!ScoreGate(t, cfg) ==> r == t)
      && (ScoreGate(t, cfg) ==> (Has(r, ScoreName) &&
            forall k :: 0 <= k < t.rows ==>
              Get(r, ScoreName)[k] == Num(SumSkipNa(Row(t, Present(cfg.symptomCols, t), k)))))
      && (!Has(t, ScoreName) ==> (Has(r, ScoreName) <==> ScoreGate(t, cfg)))
  {
    var use := Present(cfg.symptomCols, t);
    if ScoreGate(t, cfg) && AddSymptomScore(t, cfg).Ok? {
      AssignExtends(t, ScoreName, seq(t.rows, k => Num(SumSkipNa(Row(t, use, k)))));
    }
  }

  /** How many cells are the number 1. */
  function Ones(vs: seq<Value>): nat
  {
    if vs == [] then 0 else (if vs[0] == Num(1.0) then 1 else 0) + Ones(vs[1..])
  }

  predicate Indicator(v: Value)
  {
    v == Num(0.0) || v == Num(1.0) || v.Missing?
  }

  /** Over 0/1 symptom flags the sum counts the flags that are set. */
  lemma {:induction false} SumOfIndicators(vs: seq<Value>)
    requires forall i :: 0 <= i < |vs| ==> Indicator(vs[i])
    ensures SumSkipNa(vs) == Ones(vs) as real && Ones(vs) <= |vs|
  {
    if vs != [] {
      SumOfIndicators(vs[1..]);
    }
  }

  /** With 0/1 symptom flags, the score of a row is the number of symptoms present, between 0
      and the number of symptom columns used. */
  lemma ScoreCountsSymptoms(t: Table, cfg: FeatureConfig, k: int)
    requires WellFormed(t) && ScoreGate(t, cfg) && AddSymptomScore(t, cfg).Ok?
    requires 0 <= k < t.rows
    requires forall i :: 0 <= i < |Present(cfg.symptomCols, t)| ==>
      Indicator(Row(t, Present(cfg.symptomCols, t), k)[i])
    ensures var r := AddSymptomScore(t, cfg).value; var use := Present(cfg.symptomCols, t);
      && Has(r, ScoreName)
      && Get(r, ScoreName)[k] == Num(Ones(Row(t, use, k)) as real)
      && 0 <= Ones(Row(t, use, k)) <= |use|
  {
    ScoreFacts(t, cfg);
    SumOfIndicators(Row(t, Present(cfg.symptomCols, t), k));
  }

  // ---------------------------------------------------------------------------------------
  // exposure_index
  // ---------------------------------------------------------------------------------------

  /** Lines 45-47: the index is written exactly when the toggle is on and some configured
      exposure column is present; row k is the NaN-skipping mean of row k of exactly those
      columns; text raises TypeError; nothing else changes. */
  lemma IndexFacts(t: Table, cfg: FeatureConfig)
    requires WellFormed(t)
    ensures AddExposureIndex(t, cfg).Err? <==>
      IndexGate(t, cfg) && AnyText(t, Present(cfg.exposureCols, t))
    ensures AddExposureIndex(t, cfg).Ok? ==> var r := AddExposureIndex(t, cfg).value;
      && WellFormed(r) && Extends(t, r, {IndexName})
      && (!IndexGate(t, cfg) ==> r == t)
      && (IndexGate(t, cfg) ==> (Has(r, IndexName) &&
            forall k :: 0 <= k < t.rows ==>
              Get(r, IndexName)[k] == MeanSkipNa(Row(t, Present(cfg.exposureCols, t), k))))
      && (!Has(t, IndexName) ==> (Has(r, IndexName) <==> IndexGate(t, cfg)))
  {
    var use := Present(cfg.exposureCols, t);
    if IndexGate(t, cfg) && AddExposureIndex(t, cfg).Ok? {
      AssignExtends(t, IndexName, seq(t.rows, k => MeanSkipNa(Row(t, use, k))));
    }
  }

  /** A row without numbers counts none. */
  lemma {:induction false} CountNumZero(vs: seq<Value>)
    ensures CountNum(vs) == 0 <==> forall i :: 0 <= i < |vs| ==> !vs[i].Num?
  {
    if vs != [] {
      CountNumZero(vs[1..]);
      assert forall i :: 1 <= i < |vs| ==> vs[i] == vs[1..][i - 1];
    }
  }

  lemma {:induction false} SumAbove(vs: seq<Value>, lo: real)
    requires forall i :: 0 <= i < |vs| && vs[i].Num? ==> lo <= vs[i].x
    ensures lo * CountNum(vs) as real <= SumSkipNa(vs)
  {
    if vs != [] {
      assert forall i :: 0 <= i < |vs[1..]| ==> vs[1..][i] == vs[i + 1];
      SumAbove(vs[1..], lo);
      var c := CountNum(vs[1..]) as real;
      assert lo * (c + 1.0) == lo * c + lo;
    }
  }

  lemma {:induction false} SumBelow(vs: seq<Value>, hi: real)
    requires forall i :: 0 <= i < |vs| && vs[i].Num? ==> vs[i].x <= hi
    ensures SumSkipNa(vs) <= hi * CountNum(vs) as real
  {
    if vs != [] {
      assert forall i :: 0 <= i < |vs[1..]| ==> vs[1..][i] == vs[i + 1];
      SumBelow(vs[1..], hi);
      var c := CountNum(vs[1..]) as real;
      assert hi * (c + 1.0) == hi * c + hi;
    }
  }

  lemma QuotientBetween(s: real, c: real, lo: real, hi: real)
    requires c > 0.0 && lo * c <= s <= hi * c
    ensures lo <= s / c <= hi
  {
    var m := s / c;
    assert m * c == s;
  }

  /** The mean of a row is missing exactly when the row has no number, and otherwise lies
      between any bounds of its numbers. */
  lemma MeanBetween(vs: seq<Value>, lo: real, hi: real)
    requires forall i :: 0 <= i < |vs| && vs[i].Num? ==> lo <= vs[i].x <= hi
    ensures MeanSkipNa(vs).Missing? <==> forall i :: 0 <= i < |vs| ==> !vs[i].Num?
    ensures MeanSkipNa(vs).Num? ==> lo <= MeanSkipNa(vs).x <= hi
  {
    CountNumZero(vs);
    SumAbove(vs, lo);
    SumBelow(vs, hi);
    if CountNum(vs) > 0 {
      QuotientBetween(SumSkipNa(vs), CountNum(vs) as real, lo, hi);
    }
  }

  // ---------------------------------------------------------------------------------------
  // engineer_features
  // ---------------------------------------------------------------------------------------

  /** Lines 36-49 on a frame with no columns: no feature finds its inputs, so none is added. */
  lemma EngineeredNoColumns(t: Table, cfg: FeatureConfig)
    requires t.columns == []
    ensures Engineered(t, cfg) == Ok(t)
  {
    PresentNone(cfg.symptomCols, t);
    PresentNone(cfg.exposureCols, t);
  }

  /** Lines 36-49: row count and well-formedness are kept, every column not named like a
      derived feature keeps its position and cells, and new columns are appended. */
  lemma EngineeredFacts(t: Table, cfg: FeatureConfig)
    requires WellFormed(t) && Engineered(t, cfg).Ok?
    ensures var r := Engineered(t, cfg).value;
      WellFormed(r) && Extends(t, r, {RatioName, ScoreName, IndexName})
  {
    RatioFacts(t, cfg);
    var t1 := AddRatio(t, cfg).value;
    ScoreFacts(t1, cfg);
    var t2 := AddSymptomScore(t1, cfg).value;
    IndexFacts(t2, cfg);
    ExtendsTrans(t, t1, t2, {RatioName}, {ScoreName});
    ExtendsTrans(t, t2, Engineered(t, cfg).value, {RatioName, ScoreName}, {IndexName});
    assert {RatioName, ScoreName} + {IndexName} == {RatioName, ScoreName, IndexName};
  }
}
