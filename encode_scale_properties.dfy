/** What encode_categoricals and scale_continuous guarantee: which columns they are handed,
    what they leave alone, and what the indicator and scaled columns hold. */
module EncodeScaleProperties {
  import opened Tables
  import opened Preprocessing
  import opened Features

  predicate AllColumnsHave(cols: seq<Column>, n: nat)
  {
    forall i :: 0 <= i < |cols| ==> |cols[i].cells| == n
  }

  // ---------------------------------------------------------------------------------------
  // One-hot encoding
  // ---------------------------------------------------------------------------------------

  predicate Distinct(s: seq<Value>)
  {
    forall i, j :: 0 <= i < j < |s| ==> s[i] != s[j]
  }

  /** The indicator columns of one column: every cell is 0 or 1, a row has at most one 1 when
      the levels are distinct, and it has a 1 exactly when its value is one of the levels. */
  lemma IndicatorsOneHot(name: string, cells: seq<Value>, levels: seq<Value>, lib: Library, k: int)
    requires Distinct(levels) && 0 <= k < |cells|
    ensures var cs := Indicators(name, cells, levels, lib);
      && AllColumnsHave(cs, |cells|)
      && (forall i :: 0 <= i < |cs| ==> cs[i].cells[k] == Num(1.0) || cs[i].cells[k] == Num(0.0))
      && (forall i, j :: 0 <= i < j < |cs| && cs[i].cells[k] == Num(1.0) ==> cs[j].cells[k] == Num(0.0))
      && ((exists i :: 0 <= i < |cs| && cs[i].cells[k] == Num(1.0)) <==> cells[k] in levels)
  {
    var cs := Indicators(name, cells, levels, lib);
    if cells[k] in levels {
      var i :| 0 <= i < |levels| && levels[i] == cells[k];
      assert cs[i].cells[k] == Num(1.0);
    }
  }

  /** drop_first: the first category is the baseline, whose rows get no 1 at all; every other
      category keeps its indicator. */
  lemma LevelsDropFirst(cells: seq<Value>, lib: Library, v: Value)
    requires Distinct(lib.categories(cells))
    ensures Distinct(Levels(cells, true, lib)) && Distinct(Levels(cells, false, lib))
    ensures v in Levels(cells, false, lib) <==> v in lib.categories(cells)
    ensures v in Levels(cells, true, lib) <==> v in lib.categories(cells) && v != lib.categories(cells)[0]
  {
    var cats := lib.categories(cells);
    if cats != [] && v in cats && v != cats[0] {
      var i :| 0 <= i < |cats| && cats[i] == v;
      assert cats[1..][i - 1] == v;
    }
  }

  /** With the categories get_dummies finds (dummy_na=False), a row of one encoded column has
      at most one 1; a missing cell has no 1 at all, and any other cell has its 1 unless its
      value is the baseline drop_first removes. */
  lemma EncodedRow(name: string, cells: seq<Value>, dropFirst: bool, lib: Library, k: int)
    requires SoundCategories(lib) && 0 <= k < |cells|
    ensures var cs := Indicators(name, cells, Levels(cells, dropFirst, lib), lib);
      && (forall i, j :: 0 <= i < j < |cs| && cs[i].cells[k] == Num(1.0) ==> cs[j].cells[k] == Num(0.0))
      && (cells[k].Missing? ==> forall i :: 0 <= i < |cs| ==> cs[i].cells[k] == Num(0.0))
      && (!cells[k].Missing? ==>
            ((exists i :: 0 <= i < |cs| && cs[i].cells[k] == Num(1.0)) <==>
             !(dropFirst && cells[k] == lib.categories(cells)[0])))
  {
    var cats := lib.categories(cells);
    assert CategoriesOf(cells, cats);
    LevelsDropFirst(cells, lib, cells[k]);
    var levels := Levels(cells, dropFirst, lib);
    IndicatorsOneHot(name, cells, levels, lib, k);
    if !cells[k].Missing? {
      assert cells[k] in cats;
    }
  }

  /** Every indicator column is as long as the table. */
  lemma {:induction false} DummiesHaveRows(t: Table, names: seq<string>, dropFirst: bool, lib: Library)
    requires WellFormed(t)
    requires forall i :: 0 <= i < |names| ==> Has(t, names[i])
    ensures AllColumnsHave(Dummies(t, names, dropFirst, lib), t.rows)
  {
    if names != [] {
      DummiesHaveRows(t, names[1..], dropFirst, lib);
    }
  }

  /** The indicators of a concatenated list are the indicators of each part in turn. */
  lemma {:induction false} DummiesAppend(t: Table, a: seq<string>, b: seq<string>, dropFirst: bool, lib: Library)
    ensures Dummies(t, a + b, dropFirst, lib) == Dummies(t, a, dropFirst, lib) + Dummies(t, b, dropFirst, lib)
  {
    if a == [] {
      assert a + b == b;
    } else {
      assert (a + b)[0] == a[0] && (a + b)[1..] == a[1..] + b;
      DummiesAppend(t, a[1..], b, dropFirst, lib);
    }
  }

  /** Lines 52-56: off, the table is returned as is. On, a frame with no columns raises; otherwise
      the columns kept (see below) come first, in their order and untouched, and the indicator
      columns of the configured categorical columns that are present follow; the row count is
      kept. The kept columns are those not configured as categorical, except that when the
      present categorical names are as many as the columns, pandas keeps none. */
  lemma EncodeFacts(t: Table, cfg: FeatureConfig, lib: Library)
    requires WellFormed(t)
    ensures var r := EncodeCategoricals(t, cfg, lib);
      && (r.Err? <==> cfg.oneHotEncode && t.columns == [])
      && (r.Ok? ==> r.value.rows == t.rows && WellFormed(r.value))
      && (!cfg.oneHotEncode ==> r == Ok(t))
      && (r.Ok? && cfg.oneHotEncode ==>
            var use := Present(cfg.categorical, t);
            var kept := if |use| == |t.columns| then [] else Without(t.columns, cfg.categorical);
            r.value.columns == kept + Dummies(t, use, cfg.dropFirst, lib))
  {
    if cfg.oneHotEncode && t.columns != [] {
      var use := Present(cfg.categorical, t);
      DropColumnsIsFilter(t, cfg.categorical);
      PresentMembers(cfg.categorical, t);
      DummiesHaveRows(t, use, cfg.dropFirst, lib);
      WithoutWellFormed(t, use);
    }
  }

  /** With no categorical name listed twice, encoding keeps every column not configured as
      categorical, in front and untouched; the target, for one, survives. */
  lemma EncodeKeepsOthers(t: Table, cfg: FeatureConfig, lib: Library)
    requires WellFormed(t) && NoRepeats(cfg.categorical)
    ensures var r := EncodeCategoricals(t, cfg, lib);
      && (r.Ok? && cfg.oneHotEncode ==>
            r.value.columns == Without(t.columns, cfg.categorical)
                               + Dummies(t, Present(cfg.categorical, t), cfg.dropFirst, lib))
      && (r.Ok? ==> forall n :: n !in cfg.categorical && Has(t, n) ==>
            Has(r.value, n) && Get(r.value, n) == Get(t, n))
  {
    EncodeFacts(t, cfg, lib);
    var r := EncodeCategoricals(t, cfg, lib);
    if r.Ok? && cfg.oneHotEncode {
      var use := Present(cfg.categorical, t);
      var kept := Without(t.columns, cfg.categorical);
      var dummies := Dummies(t, use, cfg.dropFirst, lib);
      if |use| == |t.columns| {
        WithoutMembers(t.columns, cfg.categorical);
        if kept != [] {
          assert kept[0] in kept;
          assert Has(t, kept[0].name) by {
            var i :| 0 <= i < |t.columns| && t.columns[i] == kept[0];
          }
          PresentNarrower(cfg.categorical, t, kept[0].name);
        }
      }
      assert r.value.columns == kept + dummies;
      forall n | n !in cfg.categorical && Has(t, n) ensures Has(r.value, n) && Get(r.value, n) == Get(t, n) {
        WithoutFind(t.columns, cfg.categorical, n);
        FindAppend(kept, dummies, n);
      }
    }
  }

  /** A name listed twice can make the encoded selection as wide as the frame, and then
      get_dummies keeps no other column: `gender` listed twice beside `age` leaves only the
      indicators of `gender`, twice over. */
  lemma EncodeRepeatedDropsOthers(gender: seq<Value>, age: seq<Value>, cfg: FeatureConfig, lib: Library)
    requires cfg.oneHotEncode && cfg.categorical == ["gender", "gender"]
    ensures var t := Table(|gender|, [Column("gender", gender), Column("age", age)]);
      EncodeCategoricals(t, cfg, lib)
        == Ok(Table(|gender|, Dummies(t, ["gender", "gender"], cfg.dropFirst, lib)))
  {
    var t := Table(|gender|, [Column("gender", gender), Column("age", age)]);
    assert Has(t, "gender") by { assert t.columns[0].name == "gender"; }
    var names: seq<string> := ["gender", "gender"];
    assert names[1..] == ["gender"] && names[1..][1..] == [];
    assert Present(names[1..], t) == ["gender"];
    assert Present(names, t) == ["gender", "gender"];
    assert KeptColumns(t, Present(cfg.categorical, t)) == [];
    var d := Dummies(t, names, cfg.dropFirst, lib);
    assert [] + d == d;
  }

  // ---------------------------------------------------------------------------------------
  // Standardisation of one column
  // ---------------------------------------------------------------------------------------

  /** The reference transformation: numbers shifted by m and divided by d, the rest kept. */
  function Affine(cells: seq<Value>, m: real, d: real): seq<Value>
    requires d != 0.0
  {
    if cells == [] then []
    else [if cells[0].Num? then Num((cells[0].x - m) / d) else cells[0]] + Affine(cells[1..], m, d)
  }

  function ShiftAll(xs: seq<real>, m: real, d: real): seq<real>
    requires d != 0.0
  {
    if xs == [] then [] else [(xs[0] - m) / d] + ShiftAll(xs[1..], m, d)
  }

  lemma {:induction false} StandardiseIsAffine(cells: seq<Value>, m: real, d: real, r: seq<Value>)
    requires d != 0.0 && |r| == |cells|
    requires forall k :: 0 <= k < |cells| ==>
      r[k] == if cells[k].Num? then Num((cells[k].x - m) / d) else cells[k]
    ensures r == Affine(cells, m, d)
  {
    if cells != [] {
      StandardiseIsAffine(cells[1..], m, d, r[1..]);
    }
  }

  lemma {:induction false} NumsOfAffine(cells: seq<Value>, m: real, d: real)
    requires d != 0.0
    ensures NumsOf(Affine(cells, m, d)) == ShiftAll(NumsOf(cells), m, d)
  {
    if cells != [] {
      NumsOfAffine(cells[1..], m, d);
      var a := Affine(cells, m, d);
      assert a[0].Num? == cells[0].Num? && a[1..] == Affine(cells[1..], m, d);
      if cells[0].Num? {
        var xs := NumsOf(cells[1..]);
        assert NumsOf(cells) == [cells[0].x] + xs;
        assert NumsOf(a) == [a[0].x] + NumsOf(a[1..]);
        assert ([cells[0].x] + xs)[0] == cells[0].x && ([cells[0].x] + xs)[1..] == xs;
      } else {
        assert NumsOf(cells) == NumsOf(cells[1..]);
        assert NumsOf(a) == NumsOf(a[1..]);
      }
    }
  }

  lemma {:induction false} SumShiftAll(xs: seq<real>, m: real, d: real)
    requires d != 0.0
    ensures Sum(ShiftAll(xs, m, d)) == (Sum(xs) - |xs| as real * m) / d
  {
    if xs != [] {
      SumShiftAll(xs[1..], m, d);
      var n := |xs[1..]| as real;
      assert (xs[0] - m) / d + (Sum(xs[1..]) - n * m) / d == (xs[0] + Sum(xs[1..]) - (n + 1.0) * m) / d;
    }
  }

  /** Standardise is the affine map with the fitted mean and divisor. */
  lemma StandardiseAffine(cells: seq<Value>, lib: Library)
    ensures var xs := NumsOf(cells);
      Standardise(cells, lib) == Affine(cells, Mean(xs), Divisor(xs, lib))
  {
    var xs := NumsOf(cells);
    StandardiseIsAffine(cells, Mean(xs), Divisor(xs, lib), Standardise(cells, lib));
  }

  /** A scaled column is centred: its numbers add up to 0. */
  lemma StandardiseCentred(cells: seq<Value>, lib: Library)
    ensures Sum(NumsOf(Standardise(cells, lib))) == 0.0
  {
    var xs := NumsOf(cells);
    var m, d := Mean(xs), Divisor(xs, lib);
    StandardiseAffine(cells, lib);
    NumsOfAffine(cells, m, d);
    SumShiftAll(xs, m, d);
    MeanTimesCount(xs);
    ZeroOver(Sum(xs) - |xs| as real * m, d);
  }

  lemma ZeroOver(a: real, d: real)
    requires a == 0.0 && d != 0.0
    ensures a / d == 0.0
  {
  }

  lemma MeanTimesCount(xs: seq<real>)
    ensures |xs| as real * Mean(xs) == Sum(xs)
  {
    if xs != [] {
      var n := |xs| as real;
      assert n * (Sum(xs) / n) == Sum(xs);
    }
  }

  /** Scaling keeps the order of the numbers when the fitted spread is not negative. */
  lemma StandardiseKeepsOrder(cells: seq<Value>, lib: Library, k: int, l: int)
    requires 0 <= k < |cells| && 0 <= l < |cells|
    requires lib.spread(NumsOf(cells)) >= 0.0
    requires cells[k].Num? && cells[l].Num? && cells[k].x <= cells[l].x
    ensures var r := Standardise(cells, lib); r[k].x <= r[l].x
  {
    var xs := NumsOf(cells);
    var m, d := Mean(xs), Divisor(xs, lib);
    var r := Standardise(cells, lib);
    var a, b := cells[k].x - m, cells[l].x - m;
    assert d > 0.0;
    DivideKeepsOrder(a, b, d);
    assert r[k].x == a / d && r[l].x == b / d;
  }

  lemma DivideKeepsOrder(a: real, b: real, d: real)
    requires a <= b && d > 0.0
    ensures a / d <= b / d
  {
    assert (b - a) / d >= 0.0;
    assert b / d - a / d == (b - a) / d;
  }

  // ---------------------------------------------------------------------------------------
  // scale_continuous
  // ---------------------------------------------------------------------------------------

  /** The scaler's check keeps numbers and missing cells and reads text as numbers. */
  lemma {:induction false} NumbersFacts(parse: string -> Option<real>, cells: seq<Value>)
    ensures Numbers(parse, cells).Some? <==>
      forall k :: 0 <= k < |cells| && cells[k].Text? ==> parse(cells[k].s).Some?
    ensures Numbers(parse, cells).Some? ==> forall k :: 0 <= k < |cells| ==>
      && (cells[k].Missing? <==> Numbers(parse, cells).value[k].Missing?)
      && (cells[k].Num? ==> Numbers(parse, cells).value[k] == cells[k])
  {
    if cells != [] {
      NumbersFacts(parse, cells[1..]);
      assert forall k :: 1 <= k < |cells| ==> cells[k] == cells[1..][k - 1];
    }
  }

  /** fit_transform succeeds exactly when every handed column passes the check, and then
      column i is the standardisation of the i-th handed column. */
  lemma {:induction false} ScaledColumnsOk(t: Table, names: seq<string>, lib: Library)
    ensures ScaledColumns(t, names, lib).Ok? <==>
      forall i :: 0 <= i < |names| ==> Numbers(lib.parse, Cells(t, names[i])).Some?
  {
    if names != [] {
      ScaledColumnsOk(t, names[1..], lib);
      assert forall i :: 1 <= i < |names| ==> names[i] == names[1..][i - 1];
    }
  }

  lemma {:induction false} ScaledColumnsValues(t: Table, names: seq<string>, lib: Library)
    ensures ScaledColumns(t, names, lib).Ok? ==> forall i :: 0 <= i < |names| ==>
      Numbers(lib.parse, Cells(t, names[i])).Some? &&
      ScaledColumns(t, names, lib).value[i] == Standardise(Numbers(lib.parse, Cells(t, names[i])).value, lib)
  {
    if names != [] && ScaledColumns(t, names, lib).Ok? {
      ScaledColumnsValues(t, names[1..], lib);
      var rest := ScaledColumns(t, names[1..], lib).value;
      var ns := Numbers(lib.parse, Cells(t, names[0])).value;
      assert ScaledColumns(t, names, lib).value == [Standardise(ns, lib)] + rest;
      assert forall i :: 1 <= i < |names| ==> names[i] == names[1..][i - 1];
    }
  }

  /** Assigning columns that are all present keeps shape, labels and the other columns. */
  lemma {:induction false} AssignAllShape(t: Table, names: seq<string>, cols: seq<seq<Value>>)
    requires |names| == |cols|
    requires forall i :: 0 <= i < |names| ==> Has(t, names[i]) && |cols[i]| == t.rows
    ensures var r := AssignAll(t, names, cols);
      && r.rows == t.rows && |r.columns| == |t.columns|
      && (forall i :: 0 <= i < |t.columns| ==> r.columns[i].name == t.columns[i].name)
      && (forall i :: 0 <= i < |t.columns| && t.columns[i].name !in names ==> r.columns[i] == t.columns[i])
      && (WellFormed(t) ==> WellFormed(r))
    decreases |names|
  {
    if names != [] {
      var u := Assign(t, names[0], cols[0]);
      AssignFacts(t, names[0], cols[0]);
      assert forall n :: Has(t, n) ==> Has(u, n);
      AssignAllShape(u, names[1..], cols[1..]);
      assert forall n :: n in names[1..] ==> n in names;
    }
  }

  /** A column not assigned is read back unchanged. */
  lemma {:induction false} AssignAllOther(t: Table, names: seq<string>, cols: seq<seq<Value>>, n: string)
    requires |names| == |cols| && n !in names && Has(t, n)
    ensures Has(AssignAll(t, names, cols), n) && Get(AssignAll(t, names, cols), n) == Get(t, n)
    decreases |names|
  {
    if names != [] {
      AssignOther(t, names[0], cols[0], n);
      AssignAllOther(Assign(t, names[0], cols[0]), names[1..], cols[1..], n);
    }
  }

  /** A name listed twice gets the same column both times, so every assigned name reads back
      its column. */
  lemma {:induction false} AssignAllGet(t: Table, names: seq<string>, cols: seq<seq<Value>>, i: int)
    requires |names| == |cols| && 0 <= i < |names|
    requires forall j, k :: 0 <= j < |names| && 0 <= k < |names| && names[j] == names[k] ==> cols[j] == cols[k]
    ensures Has(AssignAll(t, names, cols), names[i])
    ensures Get(AssignAll(t, names, cols), names[i]) == cols[i]
    decreases |names|
  {
    var u := Assign(t, names[0], cols[0]);
    AssignFacts(t, names[0], cols[0]);
    if i > 0 {
      AssignAllGet(u, names[1..], cols[1..], i - 1);
    } else if names[0] in names[1..] {
      var j :| 0 <= j < |names[1..]| && names[1..][j] == names[0];
      AssignAllGet(u, names[1..], cols[1..], j);
    } else {
      AssignAllOther(u, names[1..], cols[1..], names[0]);
    }
  }

  /** The handed columns are present, so looking them up is looking up their cells. */
  lemma ToScalePresent(t: Table, cfg: FeatureConfig)
    ensures forall n :: n in ToScale(t, cfg) <==> n in cfg.continuous + DerivedNames && Has(t, n)
    ensures forall n :: n in ToScale(t, cfg) ==> Cells(t, n) == Get(t, n)
  {
    PresentMembers(cfg.continuous + DerivedNames, t);
  }

  /** Lines 60-68: off, or with nothing to scale, the table is returned as is; otherwise the
      scaler fails exactly when a handed column holds text that is not a number, or when the
      frame has no rows; an unreadable column is reported before the missing rows. */
  lemma ScaleErrors(t: Table, cfg: FeatureConfig, lib: Library)
    ensures (!cfg.scaleContinuous || ToScale(t, cfg) == []) ==> ScaleContinuous(t, cfg, lib) == Ok(t)
    ensures ScaleContinuous(t, cfg, lib).Err? <==>
      cfg.scaleContinuous && ToScale(t, cfg) != [] &&
      (t.rows == 0 ||
       exists n :: n in ToScale(t, cfg) && HasText(Cells(t, n)) && Numbers(lib.parse, Cells(t, n)).None?)
    ensures ScaleContinuous(t, cfg, lib) == Err(NoSamples) <==>
      cfg.scaleContinuous && ToScale(t, cfg) != [] && t.rows == 0 &&
      forall n :: n in ToScale(t, cfg) ==> Numbers(lib.parse, Cells(t, n)).Some?
  {
    var names := ToScale(t, cfg);
    if cfg.scaleContinuous && names != [] {
      ScaledColumnsOk(t, names, lib);
      UnreadableColumns(t, names, lib);
    }
  }

  /** A listed column fails the check exactly when it holds text that does not parse. */
  lemma UnreadableColumns(t: Table, names: seq<string>, lib: Library)
    ensures (forall n :: n in names ==> Numbers(lib.parse, Cells(t, n)).Some?) <==>
      (forall i :: 0 <= i < |names| ==> Numbers(lib.parse, Cells(t, names[i])).Some?)
    ensures (exists n :: n in names && HasText(Cells(t, n)) && Numbers(lib.parse, Cells(t, n)).None?) <==>
      !(forall i :: 0 <= i < |names| ==> Numbers(lib.parse, Cells(t, names[i])).Some?)
  {
    forall i | 0 <= i < |names|
      ensures Numbers(lib.parse, Cells(t, names[i])).None? ==> HasText(Cells(t, names[i]))
    {
      NumbersFacts(lib.parse, Cells(t, names[i]));
    }
  }

  /** Lines 62-67: on success the shape and labels are kept and every column outside
      to_scale is left alone. */
  lemma ScaleShape(t: Table, cfg: FeatureConfig, lib: Library)
    requires WellFormed(t) && ScaleContinuous(t, cfg, lib).Ok?
    ensures var r := ScaleContinuous(t, cfg, lib).value;
      && r.rows == t.rows && |r.columns| == |t.columns| && WellFormed(r)
      && (forall i :: 0 <= i < |t.columns| ==> r.columns[i].name == t.columns[i].name)
      && (forall i :: 0 <= i < |t.columns| && t.columns[i].name !in ToScale(t, cfg) ==> r.columns[i] == t.columns[i])
      && (forall n :: n !in ToScale(t, cfg) && Has(t, n) ==> Has(r, n) && Get(r, n) == Get(t, n))
  {
    var names := ToScale(t, cfg);
    if cfg.scaleContinuous && names != [] {
      ToScalePresent(t, cfg);
      ScaledColumnsOk(t, names, lib);
      ScaledColumnsValues(t, names, lib);
      var cols := ScaledColumns(t, names, lib).value;
      forall i | 0 <= i < |names| ensures Has(t, names[i]) && |cols[i]| == t.rows {
        assert names[i] in names;
        NumbersFacts(lib.parse, Get(t, names[i]));
      }
      AssignAllShape(t, names, cols);
      forall n | n !in names && Has(t, n) ensures Has(AssignAll(t, names, cols), n) && Get(AssignAll(t, names, cols), n) == Get(t, n) {
        AssignAllOther(t, names, cols, n);
      }
    }
  }

  /** Lines 66-67: a handed column is read back as the standardisation of its checked cells. */
  lemma ScaledColumnRead(t: Table, cfg: FeatureConfig, lib: Library, n: string)
    requires ScaleContinuous(t, cfg, lib).Ok?
    requires cfg.scaleContinuous && n in ToScale(t, cfg)
    ensures var r := ScaleContinuous(t, cfg, lib).value;
      && Has(t, n) && Numbers(lib.parse, Get(t, n)).Some? && Has(r, n)
      && Get(r, n) == Standardise(Numbers(lib.parse, Get(t, n)).value, lib)
  {
    var names := ToScale(t, cfg);
    ToScalePresent(t, cfg);
    ScaledColumnsOk(t, names, lib);
    ScaledColumnsValues(t, names, lib);
    var cols := ScaledColumns(t, names, lib).value;
    var i :| 0 <= i < |names| && names[i] == n;
    AssignAllGet(t, names, cols, i);
  }

  /** Lines 66-67: every handed column comes back centred (its numbers add up to 0) with its
      missing cells where they were. */
  lemma ScaleCentres(t: Table, cfg: FeatureConfig, lib: Library, n: string)
    requires WellFormed(t) && ScaleContinuous(t, cfg, lib).Ok?
    requires cfg.scaleContinuous && n in ToScale(t, cfg)
    ensures var r := ScaleContinuous(t, cfg, lib).value;
      && Has(t, n) && Has(r, n) && |Get(r, n)| == |Get(t, n)| == t.rows
      && Sum(NumsOf(Get(r, n))) == 0.0
      && forall k :: 0 <= k < t.rows ==> (Get(r, n)[k].Missing? <==> Get(t, n)[k].Missing?)
  {
    ScaledColumnRead(t, cfg, lib, n);
    var ns := Numbers(lib.parse, Get(t, n)).value;
    NumbersFacts(lib.parse, Get(t, n));
    StandardiseCentred(ns, lib);
  }
}
