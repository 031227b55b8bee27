/** The table helpers of utils/preprocessing.py: normalising every column label, dropping columns
    by name, and the final cast of every column but the target to float. */
module Preprocessing {
  import opened Tables
  import opened Labels
  import opened LabelCases

  // ---------------------------------------------------------------------------------------
  // standardize_column_names
  // ---------------------------------------------------------------------------------------

  /** The frame with each label rewritten by f on its own; `out.columns = [...]` on a copy. */
  function Relabel(t: Table, f: string -> string): (r: Table)
    ensures r.rows == t.rows && |r.columns| == |t.columns|
    ensures forall i :: 0 <= i < |t.columns| ==>
      r.columns[i].name == f(t.columns[i].name) && r.columns[i].cells == t.columns[i].cells
  {
    Table(t.rows, seq(|t.columns|, i requires 0 <= i < |t.columns| =>
      Column(f(t.columns[i].name), t.columns[i].cells)))
  }

  /** Relabelling a two-column frame. */
  lemma RelabelPair(t: Table, f: string -> string, x: string, y: string)
    requires |t.columns| == 2 && f(t.columns[0].name) == x && f(t.columns[1].name) == y
    ensures Relabel(t, f).columns == [Column(x, t.columns[0].cells), Column(y, t.columns[1].cells)]
  {
  }

  /** standardize_column_names: every label goes through camel_to_snake as written. */
  function StandardizeColumnNames(t: Table): (r: Table)
    ensures r.rows == t.rows && |r.columns| == |t.columns|
    ensures forall i :: 0 <= i < |t.columns| ==>
      r.columns[i].name == CamelToSnake(t.columns[i].name) && r.columns[i].cells == t.columns[i].cells
  {
    Relabel(t, CamelToSnake)
  }

  /** standardize_column_names with the documented normaliser (see the FEV1 repair); only the
      corrected half of that finding uses it. */
  function StandardizeColumnNamesRepaired(t: Table): Table
  {
    Relabel(t, CamelToSnakeRepaired)
  }

  /** Column count, order, cells and row count are kept; every new label is snake case:
      no space, no upper case, no "__", no "_" at either end. */
  lemma StandardizedLabels(t: Table)
    ensures var r := StandardizeColumnNames(t);
      && r.rows == t.rows && |r.columns| == |t.columns|
      && (forall i :: 0 <= i < |r.columns| ==> r.columns[i].cells == t.columns[i].cells)
      && (WellFormed(t) ==> WellFormed(r))
      && forall i :: 0 <= i < |r.columns| ==>
           Tidy(r.columns[i].name) && forall c :: c in r.columns[i].name ==> c != ' ' && !IsUpper(c)
  {
  }

  /** A frame whose labels are already canonical comes back unchanged. */
  lemma StandardizeCanonicalUnchanged(t: Table)
    requires forall i :: 0 <= i < |t.columns| ==> Canonical(t.columns[i].name)
    ensures StandardizeColumnNames(t) == t
  {
    var r := StandardizeColumnNames(t);
    forall i | 0 <= i < |t.columns| ensures r.columns[i] == t.columns[i] {
      CanonicalUnchanged(t.columns[i].name);
    }
  }

  /** Labels are rewritten one by one and collisions go undetected: "BMI" and "bmi" both
      become "bmi", leaving two columns with one label. */
  lemma StandardizeCollision(n: nat, a: seq<Value>, b: seq<Value>)
    ensures StandardizeColumnNames(Table(n, [Column("BMI", a), Column("bmi", b)]))
      == Table(n, [Column("bmi", a), Column("bmi", b)])
  {
    var raw := Table(n, [Column("BMI", a), Column("bmi", b)]);
    BmiExample();
    BmiKept("bmi");
    RelabelPair(raw, CamelToSnake, "bmi", "bmi");
  }

  lemma BmiKept(s: string)
    requires s == "bmi"
    ensures CamelToSnake(s) == s
  {
    CanonicalUnchanged(s);
  }

  // ---------------------------------------------------------------------------------------
  // drop_columns
  // ---------------------------------------------------------------------------------------

  /** drop_columns: the listed names that label some column are dropped, the rest ignored. */
  function DropColumns(t: Table, cols: seq<string>): (r: Table)
    ensures r.rows == t.rows
    ensures forall c :: c in r.columns <==> c in t.columns && c.name !in cols
  {
    PresentMembers(cols, t);
    WithoutMembers(t.columns, Present(cols, t));
    Table(t.rows, Without(t.columns, Present(cols, t)))
  }

  /** Filtering by present names drops the same columns as filtering by all the names. */
  lemma DropColumnsIsFilter(t: Table, cols: seq<string>)
    ensures DropColumns(t, cols) == Table(t.rows, Without(t.columns, cols))
  {
    PresentMembers(cols, t);
    forall i | 0 <= i < |t.columns|
      ensures t.columns[i].name in Present(cols, t) <==> t.columns[i].name in cols
    {
      assert Named(t.columns, t.columns[i].name);
    }
    WithoutIgnoresAbsent(t.columns, Present(cols, t), cols);
  }

  /** The kept columns are the unlisted ones, at increasing positions, cells untouched. */
  lemma DropColumnsKeepsOrder(t: Table, cols: seq<string>)
    ensures var r := DropColumns(t, cols); var idx := KeptIndices(t.columns, cols);
      && |idx| == |r.columns|
      && StrictlyIncreasing(idx)
      && (forall k :: 0 <= k < |idx| ==> idx[k] < |t.columns| && r.columns[k] == t.columns[idx[k]])
      && (forall i :: 0 <= i < |t.columns| ==> (i in idx <==> t.columns[i].name !in cols))
  {
    DropColumnsIsFilter(t, cols);
    WithoutIsSubsequence(t.columns, cols);
  }

  /** Names that label no column change nothing and raise nothing. */
  lemma DropColumnsIgnoresAbsent(t: Table, cols: seq<string>, extra: seq<string>)
    requires forall n :: n in extra ==> !Has(t, n)
    ensures DropColumns(t, cols + extra) == DropColumns(t, cols)
  {
    PresentAppend(cols, extra, t);
    PresentNone(extra, t);
    assert Present(cols, t) + Present(extra, t) == Present(cols, t);
  }

  lemma DropColumnsWellFormed(t: Table, cols: seq<string>)
    requires WellFormed(t)
    ensures WellFormed(DropColumns(t, cols))
  {
    WithoutWellFormed(t, Present(cols, t));
  }

  // ---------------------------------------------------------------------------------------
  // ensure_float_table
  // ---------------------------------------------------------------------------------------

  /** `pd.to_numeric(errors="coerce").astype(float)` on one cell: numbers and missing values
      stay, text is parsed by `parse` and becomes missing when it is not a number. */
  function Coerce(parse: string -> Option<real>, v: Value): (r: Value)
    ensures IsNumeric(r)
    ensures IsNumeric(v) ==> r == v
    ensures v.Text? ==> (r.Num? <==> parse(v.s).Some?) && (r.Num? ==> parse(v.s) == Some(r.x))
  {
    match v
    case Text(s) => (match parse(s) case Some(x) => Num(x) case None => Missing)
    case _ => v
  }

  function CoerceAll(parse: string -> Option<real>, cells: seq<Value>): seq<Value>
  {
    seq(|cells|, k requires 0 <= k < |cells| => Coerce(parse, cells[k]))
  }

  /** One iteration of the loop: the target is skipped, any other column is coerced. */
  function FloatColumn(parse: string -> Option<real>, target: string, c: Column): Column
  {
    if c.name == target then c else Column(c.name, CoerceAll(parse, c.cells))
  }

  function FloatTable(parse: string -> Option<real>, t: Table, target: string): (r: Table)
    ensures r.rows == t.rows && |r.columns| == |t.columns|
    ensures forall i :: 0 <= i < |t.columns| ==>
      r.columns[i].name == t.columns[i].name && |r.columns[i].cells| == |t.columns[i].cells|
    ensures forall i, k :: 0 <= i < |t.columns| && t.columns[i].name != target && 0 <= k < |r.columns[i].cells| ==>
      IsNumeric(r.columns[i].cells[k])
  {
    Table(t.rows, seq(|t.columns|, i requires 0 <= i < |t.columns| =>
      FloatColumn(parse, target, t.columns[i])))
  }

  /** ensure_float_table: walks the columns of a copy, overwriting every non-target column. */
  method EnsureFloatTable(parse: string -> Option<real>, t: Table, target: string) returns (r: Table)
    ensures r == FloatTable(parse, t, target)
  {
    var out := t.columns;
    var i := 0;
    while i < |out|
      invariant 0 <= i <= |out| == |t.columns|
      invariant forall j :: 0 <= j < i ==> out[j] == FloatColumn(parse, target, t.columns[j])
      invariant forall j :: i <= j < |out| ==> out[j] == t.columns[j]
    {
      if out[i].name != target {
        out := out[i := Column(out[i].name, CoerceAll(parse, out[i].cells))];
      }
      i := i + 1;
    }
    r := Table(t.rows, out);
  }

  /** Names, order and row count are kept, the target columns are left exactly as given, and
      every cell of every other column is a number or missing. */
  lemma FloatTableFacts(parse: string -> Option<real>, t: Table, target: string)
    ensures var r := FloatTable(parse, t, target);
      && r.rows == t.rows && |r.columns| == |t.columns|
      && (forall i :: 0 <= i < |t.columns| ==> r.columns[i].name == t.columns[i].name)
      && (forall i :: 0 <= i < |t.columns| && t.columns[i].name == target ==> r.columns[i] == t.columns[i])
      && (forall i :: 0 <= i < |t.columns| && t.columns[i].name != target ==>
            |r.columns[i].cells| == |t.columns[i].cells| &&
            forall k :: 0 <= k < |r.columns[i].cells| ==> IsNumeric(r.columns[i].cells[k]))
      && (WellFormed(t) ==> WellFormed(r))
  {
  }

  /** The target column is read back unchanged. */
  lemma FloatTableTarget(parse: string -> Option<real>, t: Table, target: string)
    requires Has(t, target)
    ensures var r := FloatTable(parse, t, target);
      Has(r, target) && Get(r, target) == Get(t, target)
  {
    var r := FloatTable(parse, t, target);
    var k := Find(t.columns, target);
    assert r.columns[k] == t.columns[k];
    assert forall j :: 0 <= j < k ==> r.columns[j].name == t.columns[j].name;
  }

  /** A column that already holds only numbers and missing values is not changed. */
  lemma FloatTableKeepsNumeric(parse: string -> Option<real>, t: Table, target: string)
    requires forall i, k :: 0 <= i < |t.columns| && 0 <= k < |t.columns[i].cells| ==>
      IsNumeric(t.columns[i].cells[k])
    ensures FloatTable(parse, t, target) == t
  {
    var r := FloatTable(parse, t, target);
    forall i | 0 <= i < |t.columns| ensures r.columns[i] == t.columns[i] {
      assert CoerceAll(parse, t.columns[i].cells) == t.columns[i].cells;
    }
  }

  /** Casting twice is casting once. */
  lemma FloatTableIdempotent(parse: string -> Option<real>, t: Table, target: string)
    ensures FloatTable(parse, FloatTable(parse, t, target), target) == FloatTable(parse, t, target)
  {
    var r := FloatTable(parse, t, target);
    var r2 := FloatTable(parse, r, target);
    forall i | 0 <= i < |r.columns| ensures r2.columns[i] == r.columns[i] {
      if r.columns[i].name != target {
        assert CoerceAll(parse, r.columns[i].cells) == r.columns[i].cells;
      }
    }
  }
}
