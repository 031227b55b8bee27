/** Two places where the code as written does not do what its own comments and defaults
    evidently intend, each shown on the raw header of the asthma dataset and set beside the
    corrected behaviour. */
module Findings {
  import opened Tables
  import opened Labels
  import opened LabelCases
  import opened Preprocessing
  import opened Features
  import opened EngineerProperties

  // ---------------------------------------------------------------------------------------
  // The FEV1 label
  // ---------------------------------------------------------------------------------------

  /** The raw lung-function headers, labelled as the raw CSV spells them. */
  function LungTable(n: nat, a: seq<Value>, b: seq<Value>): Table
  {
    Table(n, [Column("LungFunctionFEV1", a), Column("LungFunctionFVC", b)])
  }

  lemma LungLabels(s: string, u: string, f: string, v: string)
    requires s == "lung_function_fev_1" && u == "lung_function_fvc"
    requires f == Fev1 && v == Fvc
    ensures s != f && u != f && u == v
  {
    assert |s| != |f| && |u| != |f|;
  }

  /** As written, "LungFunctionFEV1" normalises to "lung_function_fev_1", so the configured
      "lung_function_fev1" is never found and the ratio is silently not written. */
  lemma RatioMissedAsWritten(n: nat, a: seq<Value>, b: seq<Value>)
    ensures var t := StandardizeColumnNames(LungTable(n, a, b));
      !Has(t, Fev1) && !RatioGate(t, DefaultConfig) && AddRatio(t, DefaultConfig) == Ok(t)
  {
    var t := StandardizeColumnNames(LungTable(n, a, b));
    AsWrittenLabels(t, n, a, b, "lung_function_fev_1");
    LungLabels("lung_function_fev_1", "lung_function_fvc", Fev1, Fvc);
    assert !Has(t, Fev1);
  }

  lemma AsWrittenLabels(t: Table, n: nat, a: seq<Value>, b: seq<Value>, s: string)
    requires t == StandardizeColumnNames(LungTable(n, a, b)) && s == "lung_function_fev_1"
    ensures t.columns == [Column(s, a), Column(Fvc, b)]
  {
    var raw := LungTable(n, a, b);
    RawLungAsWritten(raw.columns[0].name, raw.columns[1].name, s);
    RelabelPair(raw, CamelToSnake, s, Fvc);
  }


  lemma RawLungAsWritten(x: string, y: string, s: string)
    requires x == "LungFunctionFEV1" && y == "LungFunctionFVC" && s == "lung_function_fev_1"
    ensures CamelToSnake(x) == s && CamelToSnake(y) == Fvc
  {
    Fev1ExamplesAsWritten();
    FvcExample();
  }

  lemma RepairedLabels(t: Table, n: nat, a: seq<Value>, b: seq<Value>)
    requires t == StandardizeColumnNamesRepaired(LungTable(n, a, b))
    ensures t.columns == [Column(Fev1, a), Column(Fvc, b)]
  {
    var raw := LungTable(n, a, b);
    RawLungRepaired(raw.columns[0].name, raw.columns[1].name);
    RelabelPair(raw, CamelToSnakeRepaired, Fev1, Fvc);
  }

  lemma RawLungRepaired(x: string, y: string)
    requires x == "LungFunctionFEV1" && y == "LungFunctionFVC"
    ensures CamelToSnakeRepaired(x) == Fev1 && CamelToSnakeRepaired(y) == Fvc
  {
    Fev1ExamplesRepaired();
    FvcExample();
  }

  /** With the documented normaliser the same header yields "lung_function_fev1", and the
      ratio of two numeric lung-function columns is written. */
  lemma RatioWrittenRepaired(n: nat, a: seq<Value>, b: seq<Value>)
    requires |a| == n && |b| == n && !HasText(a) && !HasText(b)
    ensures var t := StandardizeColumnNamesRepaired(LungTable(n, a, b));
      && Has(t, Fev1) && Has(t, Fvc) && RatioGate(t, DefaultConfig)
      && AddRatio(t, DefaultConfig).Ok? && Has(AddRatio(t, DefaultConfig).value, RatioName)
  {
    var t := StandardizeColumnNamesRepaired(LungTable(n, a, b));
    RepairedLabels(t, n, a, b);
    assert t.columns[0].name == Fev1 && t.columns[1].name == Fvc;
    assert Get(t, Fev1) == a;
    LungLabels("lung_function_fev_1", "lung_function_fvc", Fev1, Fvc);
    assert Get(t, Fvc) == b;
    RatioFacts(t, DefaultConfig);
  }

  // ---------------------------------------------------------------------------------------
  // The patient identifier
  // ---------------------------------------------------------------------------------------

  function PatientTable(n: nat, a: seq<Value>): Table
  {
    Table(n, [Column("PatientID", a)])
  }

  lemma IdLabels(s: string, d: seq<string>)
    requires s == "patient_id" && d == DefaultConfig.dropCols
    ensures s !in d
  {
    assert s != d[0] && s != d[1];
  }

  /** As written, the raw "PatientID" becomes "patient_id" while the default drop list names
      "patientid": the identifier survives the drop and reaches the model as a feature. */
  lemma PatientIdSurvivesDefaultDrop(n: nat, a: seq<Value>)
    ensures var t := StandardizeColumnNames(PatientTable(n, a));
      Has(DropColumns(t, DefaultConfig.dropCols), "patient_id")
  {
    PatientIdExample();
    var t := StandardizeColumnNames(PatientTable(n, a));
    IdLabels(t.columns[0].name, DefaultConfig.dropCols);
    var r := DropColumns(t, DefaultConfig.dropCols);
    assert t.columns[0] in r.columns;
    var i :| 0 <= i < |r.columns| && r.columns[i] == t.columns[0];
  }

  /** With the identifier spelled as the normaliser writes it, the default drop removes it. */
  lemma PatientIdDroppedByIntendedConfig(n: nat, a: seq<Value>)
    ensures var t := StandardizeColumnNames(PatientTable(n, a));
      Has(t, "patient_id") && !Has(DropColumns(t, IntendedConfig.dropCols), "patient_id")
  {
    PatientIdExample();
    var t := StandardizeColumnNames(PatientTable(n, a));
    assert t.columns[0].name == "patient_id";
    assert "patient_id" in IntendedConfig.dropCols;
  }
}
