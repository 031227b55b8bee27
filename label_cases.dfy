/** The labels of the asthma data set pushed through the normaliser of preprocessing.py, as
    written and with the "fev_1" repair. Each rewrite is evaluated on short pieces that the split
    lemmas of Labels allow to be rewritten independently; the glue lemmas below put the pieces
    back together. */
module LabelCases {
  import opened Labels

  // ---------------------------------------------------------------------------------------
  // Glue: a rewrite of a text split into pieces
  // ---------------------------------------------------------------------------------------

  lemma SubPairsOfTwo(s: string, a: string, b: string, x: string, y: string, r: string,
                      p: (char, char) -> bool)
    requires s == a + b && a != [] && b != [] && !p(a[|a| - 1], b[0])
    requires SubPairs(a, p) == x && SubPairs(b, p) == y && r == x + y
    ensures SubPairs(s, p) == r
  {
    SubPairsConcat(a, b, p);
  }

  lemma SubPairsOfThree(s: string, a: string, b: string, c: string,
                        x: string, y: string, z: string, r: string, p: (char, char) -> bool)
    requires s == a + (b + c) && a != [] && b != [] && c != []
    requires !p(a[|a| - 1], b[0]) && !p(b[|b| - 1], c[0])
    requires SubPairs(a, p) == x && SubPairs(b, p) == y && SubPairs(c, p) == z
    requires r == x + (y + z)
    ensures SubPairs(s, p) == r
  {
    SubPairsConcat(b, c, p);
    SubPairsConcat(a, b + c, p);
  }

  lemma ReplaceOfThree(s: string, a: string, b: string, c: string,
                       x: string, y: string, z: string, r: string, pat: string, rep: string)
    requires pat != [] && s == a + (b + c) && a != [] && b != []
    requires a[|a| - 1] !in pat && b[|b| - 1] !in pat
    requires ReplaceAll(a, pat, rep) == x && ReplaceAll(b, pat, rep) == y
    requires ReplaceAll(c, pat, rep) == z && r == x + (y + z)
    ensures ReplaceAll(s, pat, rep) == r
  {
    ReplaceConcat(b, c, pat, rep);
    ReplaceConcat(a, b + c, pat, rep);
  }

  lemma LowerOfTwo(s: string, a: string, b: string, x: string, y: string, r: string)
    requires s == a + b && Lower(a) == x && Lower(b) == y && r == x + y
    ensures Lower(s) == r
  {
    LowerConcat(a, b);
  }

  /** Lines 17-24 stage by stage. */
  lemma TokeniseBy(name: string, spaced: string, cased: string, split: string, lowered: string,
                   r: string)
    requires ReplaceAll(name, " ", "_") == spaced
    requires SubPairs(spaced, CaseBoundary) == cased
    requires SubPairs(cased, DigitBoundary) == split
    requires Lower(split) == lowered
    requires Strip(Squeeze(lowered)) == r
    ensures Tokenise(name) == r
  {
  }

  /** Line 26, both repairs, as written and with "fev_1" added. */
  lemma RepairsBy(s: string, t: string, r: string, u: string)
    requires ReplaceAll(s, "b_m_i", "bmi") == t && ReplaceAll(t, "f_e_v_1", "fev1") == r
    requires ReplaceAll(r, "fev_1", "fev1") == u
    ensures ApplyRepairs(s, Repairs) == r
    ensures ApplyRepairs(s, RepairedRepairs) == u
  {
    RepairsAppend(s, Repairs, [("fev_1", "fev1")]);
  }

  lemma NormaliseBy(name: string, t: string, r: string, u: string)
    requires Tokenise(name) == t && ApplyRepairs(t, Repairs) == r
    requires ApplyRepairs(t, RepairedRepairs) == u
    ensures CamelToSnake(name) == r && CamelToSnakeRepaired(name) == u
  {
  }

  /** A label lacking a character of each repair pattern is left alone by every repair. */
  lemma RepairsSkip(s: string, c: char, d: char)
    requires c in "b_m_i" && c !in s && d in "f_e_v_1" && d in "fev_1" && d !in s
    ensures ApplyRepairs(s, Repairs) == s && ApplyRepairs(s, RepairedRepairs) == s
  {
    ReplaceMissingChar(s, "b_m_i", "bmi", c);
    ReplaceMissingChar(s, "f_e_v_1", "fev1", d);
    ReplaceMissingChar(s, "fev_1", "fev1", d);
    RepairsBy(s, s, s, s);
  }

  /** A header without a space is left alone by line 17. */
  lemma NoSpace(s: string)
    requires ' ' !in s
    ensures ReplaceAll(s, " ", "_") == s
  {
    ReplaceMissingChar(s, " ", "_", ' ');
  }

  /** A label already tidy is left alone by line 24. */
  lemma AlreadyTidy(s: string)
    requires Tidy(s)
    ensures Strip(Squeeze(s)) == s
  {
    SqueezeIdentity(s);
    StripIdentity(s);
  }

  // ---------------------------------------------------------------------------------------
  // "DietQuality" and "BMI" (lines 11-12)
  // ---------------------------------------------------------------------------------------

  lemma DietQPiece() ensures SubPairs("DietQ", CaseBoundary) == "Diet_Q" {}
  lemma UalityPiece() ensures SubPairs("uality", CaseBoundary) == "uality" {}
  lemma DietQualityPlain() ensures SubPairs("Diet_Quality", DigitBoundary) == "Diet_Quality"
  {
    SubPairsIdentity("Diet_Quality", DigitBoundary);
  }
  lemma DietQualityLower() ensures Lower("Diet_Quality") == "diet_quality" {}
  lemma DietQualitySpaced() ensures ReplaceAll("DietQuality", " ", "_") == "DietQuality"
  {
    NoSpace("DietQuality");
  }
  lemma DietQualityTidy() ensures Strip(Squeeze("diet_quality")) == "diet_quality"
  {
    AlreadyTidy("diet_quality");
  }
  lemma DietQualityRepairs()
    ensures ApplyRepairs("diet_quality", Repairs) == "diet_quality"
    ensures ApplyRepairs("diet_quality", RepairedRepairs) == "diet_quality"
  {
    RepairsSkip("diet_quality", 'b', 'v');
  }

  lemma DietQualityWords()
    ensures "DietQuality" == "DietQ" + "uality" && "Diet_Quality" == "Diet_Q" + "uality"
  {
  }

  lemma DietQualityCased() ensures SubPairs("DietQuality", CaseBoundary) == "Diet_Quality"
  {
    DietQPiece();
    UalityPiece();
    DietQualityWords();
    SubPairsOfTwo("DietQuality", "DietQ", "uality", "Diet_Q", "uality", "Diet_Quality",
      CaseBoundary);
  }

  lemma DietQualityTokenised() ensures Tokenise("DietQuality") == "diet_quality"
  {
    DietQualitySpaced();
    DietQualityCased();
    DietQualityPlain();
    DietQualityLower();
    DietQualityTidy();
    TokeniseBy("DietQuality", "DietQuality", "Diet_Quality", "Diet_Quality", "diet_quality",
      "diet_quality");
  }

  /** Line 11 holds, as written and repaired. */
  lemma DietQualityExample()
    ensures CamelToSnake("DietQuality") == "diet_quality"
    ensures CamelToSnakeRepaired("DietQuality") == "diet_quality"
  {
    DietQualityTokenised();
    DietQualityRepairs();
    NormaliseBy("DietQuality", "diet_quality", "diet_quality", "diet_quality");
  }

  lemma BmiPlain()
    ensures SubPairs("BMI", CaseBoundary) == "BMI" && SubPairs("BMI", DigitBoundary) == "BMI"
  {
    SubPairsIdentity("BMI", CaseBoundary);
    SubPairsIdentity("BMI", DigitBoundary);
  }

  lemma BmiLower() ensures Lower("BMI") == "bmi" {}

  lemma BmiTokenised() ensures Tokenise("BMI") == "bmi"
  {
    NoSpace("BMI");
    BmiPlain();
    BmiLower();
    AlreadyTidy("bmi");
    TokeniseBy("BMI", "BMI", "BMI", "BMI", "bmi", "bmi");
  }

  /** Line 12 holds, as written and repaired. */
  lemma BmiExample()
    ensures CamelToSnake("BMI") == "bmi"
    ensures CamelToSnakeRepaired("BMI") == "bmi"
  {
    BmiTokenised();
    RepairsSkip("bmi", '_', '_');
    NormaliseBy("BMI", "bmi", "bmi", "bmi");
  }

  // ---------------------------------------------------------------------------------------
  // "LungFunctionFEV1", "Lung Function FEV1" and "lung_function_fev1" (lines 13-14)
  // ---------------------------------------------------------------------------------------

  lemma LungFPiece() ensures SubPairs("LungF", CaseBoundary) == "Lung_F" {}
  lemma UnctPiece() ensures SubPairs("unct", CaseBoundary) == "unct" {}
  lemma IonFPiece() ensures SubPairs("ionF", CaseBoundary) == "ion_F" {}
  lemma UnctionFWords() ensures "unctionF" == "unct" + "ionF" && "unction_F" == "unct" + "ion_F" {}

  lemma UnctionFPiece() ensures SubPairs("unctionF", CaseBoundary) == "unction_F"
  {
    UnctPiece();
    IonFPiece();
    UnctionFWords();
    SubPairsOfTwo("unctionF", "unct", "ionF", "unct", "ion_F", "unction_F", CaseBoundary);
  }

  lemma LungFunctionFev1Words()
    ensures "LungFunctionFEV1" == "LungF" + ("unctionF" + "EV1")
    ensures "Lung_Function_FEV1" == "Lung_F" + ("unction_F" + "EV1")
  {
  }
  lemma Ev1Piece() ensures SubPairs("EV1", CaseBoundary) == "EV1" {}

  lemma LungFunctionFev1Spaced()
    ensures ReplaceAll("LungFunctionFEV1", " ", "_") == "LungFunctionFEV1"
  {
    NoSpace("LungFunctionFEV1");
  }

  /** Line 19: an underscore before each capital that follows a lower-case letter. */
  lemma LungFunctionFev1Cased()
    ensures SubPairs("LungFunctionFEV1", CaseBoundary) == "Lung_Function_FEV1"
  {
    LungFPiece();
    UnctionFPiece();
    Ev1Piece();
    LungFunctionFev1Words();
    SubPairsOfThree("LungFunctionFEV1", "LungF", "unctionF", "EV1",
      "Lung_F", "unction_F", "EV1", "Lung_Function_FEV1", CaseBoundary);
  }

  lemma LungPiece(s: string) requires s == "Lung_" ensures SubPairs(s, DigitBoundary) == s
  {
    SubPairsIdentity(s, DigitBoundary);
  }
  lemma FunctionFePiece(s: string)
    requires s == "Function_FE"
    ensures SubPairs(s, DigitBoundary) == s
  {
    SubPairsIdentity(s, DigitBoundary);
  }
  lemma V1Piece(s: string) requires s == "V1" ensures SubPairs(s, DigitBoundary) == "V_1" {}

  lemma SplitFev1Words()
    ensures "Lung_Function_FEV1" == "Lung_" + ("Function_FE" + "V1")
    ensures "Lung_Function_FEV_1" == "Lung_" + ("Function_FE" + "V_1")
  {
  }

  /** Line 21 splits "V1". */
  lemma LungFunctionFev1Split(s: string, a: string, b: string, c: string)
    requires s == "Lung_Function_FEV1" && a == "Lung_" && b == "Function_FE" && c == "V1"
    ensures SubPairs(s, DigitBoundary) == "Lung_Function_FEV_1"
  {
    LungPiece(a);
    FunctionFePiece(b);
    V1Piece(c);
    SplitFev1Words();
    SubPairsOfThree(s, a, b, c, a, b, "V_1", "Lung_Function_FEV_1", DigitBoundary);
  }

  lemma LungFunctionLower() ensures Lower("Lung_Function") == "lung_function" {}
  lemma Fev1Lower() ensures Lower("_FEV_1") == "_fev_1" {}

  lemma LungFunctionFev1Lower()
    ensures Lower("Lung_Function_FEV_1") == "lung_function_fev_1"
  {
    LungFunctionLower();
    Fev1Lower();
    LowerOfTwo("Lung_Function_FEV_1", "Lung_Function", "_FEV_1", "lung_function", "_fev_1",
      "lung_function_fev_1");
  }

  lemma LungFunctionFev1Tidy()
    ensures Strip(Squeeze("lung_function_fev_1")) == "lung_function_fev_1"
  {
    AlreadyTidy("lung_function_fev_1");
  }

  lemma LungFunctionFev1Tokenised()
    ensures Tokenise("LungFunctionFEV1") == "lung_function_fev_1"
  {
    LungFunctionFev1Spaced();
    LungFunctionFev1Cased();
    LungFunctionFev1Split("Lung_Function_FEV1", "Lung_", "Function_FE", "V1");
    LungFunctionFev1Lower();
    LungFunctionFev1Tidy();
    TokeniseBy("LungFunctionFEV1", "LungFunctionFEV1", "Lung_Function_FEV1",
      "Lung_Function_FEV_1", "lung_function_fev_1", "lung_function_fev_1");
  }

  /** A space followed by a word without spaces. */
  lemma SpaceWord(s: string, w: string)
    requires s == [' '] + w && ' ' !in w
    ensures ReplaceAll(s, " ", "_") == ['_'] + w
  {
    NoSpace(w);
    assert s[1..] == w;
  }

  lemma SpaceFunction(b: string)
    requires b == " Function"
    ensures ReplaceAll(b, " ", "_") == "_Function"
  {
    var w := b[1..];
    assert ' ' !in w;
    SpaceWord(b, w);
  }

  lemma SpaceFev1(c: string)
    requires c == " FEV1"
    ensures ReplaceAll(c, " ", "_") == "_FEV1"
  {
    var w := c[1..];
    assert ' ' !in w;
    SpaceWord(c, w);
  }

  lemma SpacedPieces(s: string, a: string, b: string, c: string, r: string)
    requires s == "Lung Function FEV1" && a == "Lung" && b == " Function" && c == " FEV1"
    requires r == "Lung_Function_FEV1"
    ensures s == a + (b + c) && a != [] && b != [] && a[|a| - 1] != ' ' && b[|b| - 1] != ' '
    ensures r == a + ("_Function" + "_FEV1") && ' ' !in a
  {
  }

  /** Line 17 on the spaced header. */
  lemma SpacedFev1Spaced(s: string, a: string, b: string, c: string)
    requires s == "Lung Function FEV1" && a == "Lung" && b == " Function" && c == " FEV1"
    ensures ReplaceAll(s, " ", "_") == "Lung_Function_FEV1"
  {
    var r := "Lung_Function_FEV1";
    SpacedPieces(s, a, b, c, r);
    NoSpace(a);
    SpaceFunction(b);
    SpaceFev1(c);
    ReplaceOfThree(s, a, b, c, a, "_Function", "_FEV1", r, " ", "_");
  }

  lemma SpacedFev1Cased()
    ensures SubPairs("Lung_Function_FEV1", CaseBoundary) == "Lung_Function_FEV1"
  {
    SubPairsIdentity("Lung_Function_FEV1", CaseBoundary);
  }

  lemma SpacedFev1Tokenised()
    ensures Tokenise("Lung Function FEV1") == "lung_function_fev_1"
  {
    SpacedFev1Spaced("Lung Function FEV1", "Lung", " Function", " FEV1");
    SpacedFev1Cased();
    LungFunctionFev1Split("Lung_Function_FEV1", "Lung_", "Function_FE", "V1");
    LungFunctionFev1Lower();
    LungFunctionFev1Tidy();
    TokeniseBy("Lung Function FEV1", "Lung_Function_FEV1", "Lung_Function_FEV1",
      "Lung_Function_FEV_1", "lung_function_fev_1", "lung_function_fev_1");
  }

  lemma ConfiguredFev1Spaced()
    ensures ReplaceAll("lung_function_fev1", " ", "_") == "lung_function_fev1"
  {
    NoSpace("lung_function_fev1");
  }

  lemma ConfiguredFev1Cased()
    ensures SubPairs("lung_function_fev1", CaseBoundary) == "lung_function_fev1"
  {
    SubPairsIdentity("lung_function_fev1", CaseBoundary);
  }

  lemma LowerV1Piece(s: string) requires s == "v1" ensures SubPairs(s, DigitBoundary) == "v_1" {}

  lemma ConfiguredFev1Split(s: string, a: string, c: string)
    requires s == "lung_function_fev1" && a == "lung_function_fe" && c == "v1"
    ensures SubPairs(s, DigitBoundary) == "lung_function_fev_1"
  {
    assert forall i :: 0 <= i < |a| ==> !IsDigit(a[i]);
    SubPairsIdentity(a, DigitBoundary);
    LowerV1Piece(c);
    SubPairsOfTwo(s, a, c, a, "v_1", "lung_function_fev_1", DigitBoundary);
  }

  lemma ConfiguredFev1Lower()
    ensures Lower("lung_function_fev_1") == "lung_function_fev_1"
  {
    LowerIdentity("lung_function_fev_1");
  }

  /** The label the feature configuration expects is itself split again by line 21. */
  lemma ConfiguredFev1Tokenised()
    ensures Tokenise("lung_function_fev1") == "lung_function_fev_1"
  {
    ConfiguredFev1Spaced();
    ConfiguredFev1Cased();
    ConfiguredFev1Split("lung_function_fev1", "lung_function_fe", "v1");
    ConfiguredFev1Lower();
    LungFunctionFev1Tidy();
    TokeniseBy("lung_function_fev1", "lung_function_fev1", "lung_function_fev1",
      "lung_function_fev_1", "lung_function_fev_1", "lung_function_fev_1");
  }

  lemma Fev1BmiRepair()
    ensures ReplaceAll("lung_function_fev_1", "b_m_i", "bmi") == "lung_function_fev_1"
  {
    ReplaceMissingChar("lung_function_fev_1", "b_m_i", "bmi", 'b');
  }

  lemma LungRepairPiece(s: string, pat: string)
    requires s == "lung" && (pat == "f_e_v_1" || pat == "fev_1")
    ensures ReplaceAll(s, pat, "fev1") == s
  {
    ReplaceMissingChar(s, pat, "fev1", 'f');
  }

  lemma FunctionRepairPiece(s: string, pat: string)
    requires s == "_function" && (pat == "f_e_v_1" || pat == "fev_1")
    ensures ReplaceAll(s, pat, "fev1") == s
  {
    ReplaceMissingChar(s, pat, "fev1", 'v');
  }

  lemma Fev1SpelledPieces(a: string, b: string, c: string)
    requires a == "lung" && b == "_function" && c == "_fev_1"
    ensures ReplaceAll(a, "f_e_v_1", "fev1") == a && ReplaceAll(b, "f_e_v_1", "fev1") == b
    ensures ReplaceAll(c, "f_e_v_1", "fev1") == c
  {
    LungRepairPiece(a, "f_e_v_1");
    FunctionRepairPiece(b, "f_e_v_1");
  }

  /** "f_e_v_1" would need an underscore between "f" and "e". */
  lemma Fev1SpelledRepair(s: string, a: string, b: string, c: string)
    requires s == "lung_function_fev_1" && a == "lung" && b == "_function" && c == "_fev_1"
    ensures ReplaceAll(s, "f_e_v_1", "fev1") == s
  {
    Fev1SpelledPieces(a, b, c);
    ReplaceOfThree(s, a, b, c, a, b, c, s, "f_e_v_1", "fev1");
  }

  lemma Fev1JoinRepairPiece(s: string)
    requires s == "_fev_1"
    ensures ReplaceAll(s, "fev_1", "fev1") == "_fev1"
  {
  }

  /** The "fev_1" repair rejoins it. */
  lemma Fev1Words()
    ensures "lung_function_fev_1" == "lung" + ("_function" + "_fev_1")
    ensures "lung_function_fev1" == "lung" + ("_function" + "_fev1")
  {
  }

  lemma Fev1JoinRepair(s: string, a: string, b: string, c: string)
    requires s == "lung_function_fev_1" && a == "lung" && b == "_function" && c == "_fev_1"
    ensures ReplaceAll(s, "fev_1", "fev1") == "lung_function_fev1"
  {
    Fev1Words();
    LungRepairPiece(a, "fev_1");
    FunctionRepairPiece(b, "fev_1");
    Fev1JoinRepairPiece(c);
    ReplaceOfThree(s, a, b, c, a, b, "_fev1", "lung_function_fev1", "fev_1", "fev1");
  }

  lemma Fev1Repairs()
    ensures ApplyRepairs("lung_function_fev_1", Repairs) == "lung_function_fev_1"
    ensures ApplyRepairs("lung_function_fev_1", RepairedRepairs) == "lung_function_fev1"
  {
    Fev1BmiRepair();
    Fev1SpelledRepair("lung_function_fev_1", "lung", "_function", "_fev_1");
    Fev1JoinRepair("lung_function_fev_1", "lung", "_function", "_fev_1");
    RepairsBy("lung_function_fev_1", "lung_function_fev_1", "lung_function_fev_1",
      "lung_function_fev1");
  }

  /** Lines 13-14 as written: both documented headers come out as "lung_function_fev_1", and
      so does the label the feature configuration uses, so no header normalises to
      "lung_function_fev1" through the documented route. */
  lemma Fev1ExamplesAsWritten()
    ensures CamelToSnake("LungFunctionFEV1") == "lung_function_fev_1"
    ensures CamelToSnake("Lung Function FEV1") == "lung_function_fev_1"
    ensures CamelToSnake("lung_function_fev1") == "lung_function_fev_1"
  {
    LungFunctionFev1Tokenised();
    SpacedFev1Tokenised();
    ConfiguredFev1Tokenised();
    Fev1Repairs();
    NormaliseBy("LungFunctionFEV1", "lung_function_fev_1", "lung_function_fev_1",
      "lung_function_fev1");
    NormaliseBy("Lung Function FEV1", "lung_function_fev_1", "lung_function_fev_1",
      "lung_function_fev1");
    NormaliseBy("lung_function_fev1", "lung_function_fev_1", "lung_function_fev_1",
      "lung_function_fev1");
  }

  /** Lines 13-14 with the "fev_1" repair: the documented results, and the configured label
      is a fixed point. */
  lemma Fev1ExamplesRepaired()
    ensures CamelToSnakeRepaired("LungFunctionFEV1") == "lung_function_fev1"
    ensures CamelToSnakeRepaired("Lung Function FEV1") == "lung_function_fev1"
    ensures CamelToSnakeRepaired("lung_function_fev1") == "lung_function_fev1"
  {
    LungFunctionFev1Tokenised();
    SpacedFev1Tokenised();
    ConfiguredFev1Tokenised();
    Fev1Repairs();
    NormaliseBy("LungFunctionFEV1", "lung_function_fev_1", "lung_function_fev_1",
      "lung_function_fev1");
    NormaliseBy("Lung Function FEV1", "lung_function_fev_1", "lung_function_fev_1",
      "lung_function_fev1");
    NormaliseBy("lung_function_fev1", "lung_function_fev_1", "lung_function_fev_1",
      "lung_function_fev1");
  }

  // ---------------------------------------------------------------------------------------
  // "LungFunctionFVC" and "PatientID"
  // ---------------------------------------------------------------------------------------

  lemma VcPiece() ensures SubPairs("VC", CaseBoundary) == "VC" {}

  lemma FvcWords()
    ensures "LungFunctionFVC" == "LungF" + ("unctionF" + "VC")
    ensures "Lung_Function_FVC" == "Lung_F" + ("unction_F" + "VC")
  {
  }

  lemma FvcCased()
    ensures SubPairs("LungFunctionFVC", CaseBoundary) == "Lung_Function_FVC"
  {
    LungFPiece();
    UnctionFPiece();
    VcPiece();
    FvcWords();
    SubPairsOfThree("LungFunctionFVC", "LungF", "unctionF", "VC",
      "Lung_F", "unction_F", "VC", "Lung_Function_FVC", CaseBoundary);
  }

  lemma FvcPlain()
    ensures SubPairs("Lung_Function_FVC", DigitBoundary) == "Lung_Function_FVC"
  {
    SubPairsIdentity("Lung_Function_FVC", DigitBoundary);
  }

  lemma FvcLowerPiece() ensures Lower("_FVC") == "_fvc" {}

  lemma FvcLower() ensures Lower("Lung_Function_FVC") == "lung_function_fvc"
  {
    LungFunctionLower();
    FvcLowerPiece();
    LowerOfTwo("Lung_Function_FVC", "Lung_Function", "_FVC", "lung_function", "_fvc",
      "lung_function_fvc");
  }

  lemma FvcTidy() ensures Strip(Squeeze("lung_function_fvc")) == "lung_function_fvc"
  {
    AlreadyTidy("lung_function_fvc");
  }

  lemma FvcSpaced() ensures ReplaceAll("LungFunctionFVC", " ", "_") == "LungFunctionFVC"
  {
    NoSpace("LungFunctionFVC");
  }

  lemma FvcRepairs()
    ensures ApplyRepairs("lung_function_fvc", Repairs) == "lung_function_fvc"
    ensures ApplyRepairs("lung_function_fvc", RepairedRepairs) == "lung_function_fvc"
  {
    RepairsSkip("lung_function_fvc", 'b', 'e');
  }

  /** The FVC header comes out as configured. */
  lemma FvcExample()
    ensures CamelToSnake("LungFunctionFVC") == "lung_function_fvc"
    ensures CamelToSnakeRepaired("LungFunctionFVC") == "lung_function_fvc"
  {
    FvcSpaced();
    FvcCased();
    FvcPlain();
    FvcLower();
    FvcTidy();
    TokeniseBy("LungFunctionFVC", "LungFunctionFVC", "Lung_Function_FVC", "Lung_Function_FVC",
      "lung_function_fvc", "lung_function_fvc");
    FvcRepairs();
    NormaliseBy("LungFunctionFVC", "lung_function_fvc", "lung_function_fvc",
      "lung_function_fvc");
  }

  lemma PatiePiece() ensures SubPairs("Patie", CaseBoundary) == "Patie" {}
  lemma NtIPiece() ensures SubPairs("ntI", CaseBoundary) == "nt_I" {}
  lemma PatientIWords() ensures "PatientI" == "Patie" + "ntI" && "Patient_I" == "Patie" + "nt_I" {}

  lemma PatientIPiece() ensures SubPairs("PatientI", CaseBoundary) == "Patient_I"
  {
    PatiePiece();
    NtIPiece();
    PatientIWords();
    SubPairsOfTwo("PatientI", "Patie", "ntI", "Patie", "nt_I", "Patient_I", CaseBoundary);
  }
  lemma DPiece() ensures SubPairs("D", CaseBoundary) == "D" {}

  lemma PatientIdCased() ensures SubPairs("PatientID", CaseBoundary) == "Patient_ID"
  {
    PatientIPiece();
    DPiece();
    SubPairsOfTwo("PatientID", "PatientI", "D", "Patient_I", "D", "Patient_ID", CaseBoundary);
  }

  lemma PatientIdPlain() ensures SubPairs("Patient_ID", DigitBoundary) == "Patient_ID"
  {
    SubPairsIdentity("Patient_ID", DigitBoundary);
  }

  lemma PatientIdLower() ensures Lower("Patient_ID") == "patient_id" {}

  lemma PatientIdTidy() ensures Strip(Squeeze("patient_id")) == "patient_id"
  {
    AlreadyTidy("patient_id");
  }

  lemma PatientIdSpaced() ensures ReplaceAll("PatientID", " ", "_") == "PatientID"
  {
    NoSpace("PatientID");
  }

  lemma PatientIdRepairs()
    ensures ApplyRepairs("patient_id", Repairs) == "patient_id"
    ensures ApplyRepairs("patient_id", RepairedRepairs) == "patient_id"
  {
    RepairsSkip("patient_id", 'b', 'v');
  }

  /** The identifier header: the capital "I" after "t" opens a new word, so the label is
      "patient_id", not "patientid". */
  lemma PatientIdExample()
    ensures CamelToSnake("PatientID") == "patient_id"
    ensures CamelToSnakeRepaired("PatientID") == "patient_id"
    ensures CamelToSnake("PatientID") != "patientid"
  {
    PatientIdSpaced();
    PatientIdCased();
    PatientIdPlain();
    PatientIdLower();
    PatientIdTidy();
    TokeniseBy("PatientID", "PatientID", "Patient_ID", "Patient_ID", "patient_id", "patient_id");
    PatientIdRepairs();
    NormaliseBy("PatientID", "patient_id", "patient_id", "patient_id");
  }
}
