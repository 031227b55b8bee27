/** The data model shared by the preprocessing and feature stages: a table of named columns of
    cells, the column lookups the stages perform, and the two name filters they use. */
module Tables {

  /** A cell: a number, a piece of text, or a missing value (NaN). */
  datatype Value = Num(x: real) | Text(s: string) | Missing

  datatype Column = Column(name: string, cells: seq<Value>)

  /** rows is kept apart from the columns so that a table without columns still has a length. */
  datatype Table = Table(rows: nat, columns: seq<Column>)

  datatype Option<T> = None | Some(value: T)

  /** The exceptions the stages can raise, with the column or feature concerned; NoSamples is
      the scaler's ValueError on a frame without rows; NothingToConcat is the one-hot encoder's
      ValueError when it is left with no frame to concatenate. */
  datatype Error = TypeError(feature: string) | ValueError(column: string) | NoSamples | NothingToConcat

  datatype Result<T> = Ok(value: T) | Err(error: Error)

  predicate WellFormed(t: Table)
  {
    forall i :: 0 <= i < |t.columns| ==> |t.columns[i].cells| == t.rows
  }

  /** A cell that survives a float cast unchanged. */
  predicate IsNumeric(v: Value)
  {
    v.Num? || v.Missing?
  }

  predicate HasText(cells: seq<Value>)
  {
    exists i :: 0 <= i < |cells| && cells[i].Text?
  }

  // ---------------------------------------------------------------------------------------
  // Lookup by name
  // ---------------------------------------------------------------------------------------

  predicate Named(cols: seq<Column>, name: string)
  {
    exists i :: 0 <= i < |cols| && cols[i].name == name
  }

  /** `name in df.columns`. */
  predicate Has(t: Table, name: string)
  {
    Named(t.columns, name)
  }

  /** Position of the first column carrying the name. */
  function Find(cols: seq<Column>, name: string): (k: nat)
    requires Named(cols, name)
    ensures k < |cols| && cols[k].name == name
    ensures forall j :: 0 <= j < k ==> cols[j].name != name
  {
    if cols[0].name == name then 0
    else
      assert Named(cols[1..], name) by {
        var i :| 0 <= i < |cols| && cols[i].name == name;
        assert cols[1..][i - 1] == cols[i];
      }
      1 + Find(cols[1..], name)
  }

  /** `df[name]`: the cells of the first column carrying the name. */
  function Get(t: Table, name: string): (cells: seq<Value>)
    requires Has(t, name)
    ensures WellFormed(t) ==> |cells| == t.rows
  {
    t.columns[Find(t.columns, name)].cells
  }

  /** `df[name] = cells`: every column carrying the name is overwritten in place; when there is
      none, a new column is appended at the end. */
  function Assign(t: Table, name: string, cells: seq<Value>): Table
  {
    if Named(t.columns, name) then
      Table(t.rows, seq(|t.columns|, i requires 0 <= i < |t.columns| =>
        if t.columns[i].name == name then Column(name, cells) else t.columns[i]))
    else
      Table(t.rows, t.columns + [Column(name, cells)])
  }

  /** Assignment overwrites exactly the columns carrying the name, appends otherwise, and
      leaves every other column where it was. */
  lemma AssignFacts(t: Table, name: string, cells: seq<Value>)
    ensures var r := Assign(t, name, cells);
      && r.rows == t.rows
      && |r.columns| == |t.columns| + (if Has(t, name) then 0 else 1)
      && (forall i :: 0 <= i < |t.columns| ==>
            r.columns[i] == if t.columns[i].name == name then Column(name, cells) else t.columns[i])
      && (!Has(t, name) ==> r.columns[|t.columns|] == Column(name, cells))
      && Has(r, name) && Get(r, name) == cells
      && (forall n :: Has(r, n) <==> Has(t, n) || n == name)
      && (WellFormed(t) && |cells| == t.rows ==> WellFormed(r))
  {
    var r := Assign(t, name, cells);
    if Has(t, name) {
      assert r.columns[Find(t.columns, name)].name == name;
    } else {
      assert r.columns[|t.columns|].name == name;
    }
    forall n | Has(r, n) ensures Has(t, n) || n == name {
      var i :| 0 <= i < |r.columns| && r.columns[i].name == n;
      if i < |t.columns| && t.columns[i].name != name {
        assert t.columns[i].name == n;
      }
    }
    forall n | Has(t, n) ensures Has(r, n) {
      var i :| 0 <= i < |t.columns| && t.columns[i].name == n;
      assert r.columns[i].name == n;
    }
    if !Has(t, name) {
      assert r.columns[|t.columns|].name == name;
    }
  }

  /** Reading a column other than the one assigned sees the old cells. */
  lemma AssignOther(t: Table, name: string, cells: seq<Value>, other: string)
    requires other != name && Has(t, other)
    ensures Has(Assign(t, name, cells), other)
    ensures Get(Assign(t, name, cells), other) == Get(t, other)
  {
    AssignFacts(t, name, cells);
    var r := Assign(t, name, cells);
    var k := Find(t.columns, other);
    assert r.columns[k] == t.columns[k];
    assert forall j :: 0 <= j < k ==> r.columns[j].name != other;
  }

  /** Lookup in a concatenation finds the first part's column when it has one. */
  lemma {:induction false} FindAppend(a: seq<Column>, b: seq<Column>, name: string)
    requires Named(a, name) || Named(b, name)
    ensures Named(a + b, name)
    ensures Named(a, name) ==> Find(a + b, name) == Find(a, name)
    ensures !Named(a, name) ==> Find(a + b, name) == |a| + Find(b, name)
  {
    if Named(a, name) {
      var i := Find(a, name);
      assert (a + b)[i] == a[i];
      assert forall j :: 0 <= j < i ==> (a + b)[j] == a[j];
    } else {
      var i := Find(b, name);
      assert (a + b)[|a| + i] == b[i];
      assert forall j :: 0 <= j < |a| + i ==> (a + b)[j].name != name by {
        forall j | 0 <= j < |a| + i ensures (a + b)[j].name != name {
          if j < |a| {
            assert (a + b)[j] == a[j];
          } else {
            assert (a + b)[j] == b[j - |a|];
          }
        }
      }
    }
  }

  // ---------------------------------------------------------------------------------------
  // The two name filters
  // ---------------------------------------------------------------------------------------

  /** `[c for c in names if c in df.columns]`. */
  function Present(names: seq<string>, t: Table): (r: seq<string>)
    ensures |r| <= |names|
  {
    if names == [] then []
    else (if Has(t, names[0]) then [names[0]] else []) + Present(names[1..], t)
  }

  lemma {:induction false} PresentMembers(names: seq<string>, t: Table)
    ensures forall n :: n in Present(names, t) <==> n in names && Has(t, n)
  {
    if names != [] {
      PresentMembers(names[1..], t);
      assert forall n :: n in names <==> n == names[0] || n in names[1..];
    }
  }

  /** No listed name labels a column: nothing is present. */
  lemma {:induction false} PresentNone(names: seq<string>, t: Table)
    requires forall n :: n in names ==> !Has(t, n)
    ensures Present(names, t) == []
  {
    if names != [] {
      PresentNone(names[1..], t);
    }
  }

  /** Filtering a concatenation of name lists filters each list in turn. */
  lemma {:induction false} PresentAppend(a: seq<string>, b: seq<string>, t: Table)
    ensures Present(a + b, t) == Present(a, t) + Present(b, t)
  {
    if a == [] {
      assert a + b == b;
    } else {
      assert (a + b)[0] == a[0] && (a + b)[1..] == a[1..] + b;
      PresentAppend(a[1..], b, t);
    }
  }

  /** No name occurs twice in the list. */
  predicate NoRepeats(names: seq<string>)
  {
    forall i, j :: 0 <= i < j < |names| ==> names[i] != names[j]
  }

  /** The set of column names of a table. */
  function NameSet(cols: seq<Column>): set<string>
  {
    set c | c in cols :: c.name
  }

  lemma {:induction false} NameSetSize(cols: seq<Column>)
    ensures |NameSet(cols)| <= |cols|
  {
    if cols != [] {
      NameSetSize(cols[1..]);
      assert forall c :: c in cols <==> c == cols[0] || c in cols[1..];
      assert NameSet(cols) == NameSet(cols[1..]) + {cols[0].name};
    }
  }

  lemma {:induction false} NoRepeatsSize(names: seq<string>)
    requires NoRepeats(names)
    ensures |set n | n in names| == |names|
  {
    if names != [] {
      var rest := names[1..];
      assert NoRepeats(rest) by {
        forall i, j | 0 <= i < j < |rest| ensures rest[i] != rest[j] {
          assert rest[i] == names[i + 1] && rest[j] == names[j + 1];
        }
      }
      NoRepeatsSize(rest);
      assert forall n :: n in names <==> n == names[0] || n in rest;
      assert (set n | n in names) == (set n | n in rest) + {names[0]};
      assert names[0] !in rest by {
        forall k | 0 <= k < |rest| ensures rest[k] != names[0] {
          assert rest[k] == names[k + 1];
        }
      }
    }
  }

  lemma {:induction false} PresentNoRepeats(names: seq<string>, t: Table)
    requires NoRepeats(names)
    ensures NoRepeats(Present(names, t))
  {
    if names != [] {
      var rest := names[1..];
      assert NoRepeats(rest) by {
        forall i, j | 0 <= i < j < |rest| ensures rest[i] != rest[j] {
          assert rest[i] == names[i + 1] && rest[j] == names[j + 1];
        }
      }
      PresentNoRepeats(rest, t);
      PresentMembers(rest, t);
      assert names[0] !in rest by {
        forall k | 0 <= k < |rest| ensures rest[k] != names[0] {
          assert rest[k] == names[k + 1];
        }
      }
    }
  }

  /** With no name listed twice, the listed names present in a table are fewer than its columns
      as soon as one column goes unlisted (a pigeonhole count). */
  lemma PresentNarrower(names: seq<string>, t: Table, n: string)
    requires NoRepeats(names) && Has(t, n) && n !in names
    ensures |Present(names, t)| < |t.columns|
  {
    var use := Present(names, t);
    PresentNoRepeats(names, t);
    NoRepeatsSize(use);
    PresentMembers(names, t);
    NameSetSize(t.columns);
    var u := set x | x in use;
    assert u + {n} <= NameSet(t.columns) by {
      forall x | x in u + {n} ensures x in NameSet(t.columns) {
        var i :| 0 <= i < |t.columns| && t.columns[i].name == x;
        assert t.columns[i] in t.columns;
      }
    }
    assert n !in u;
    assert |u + {n}| == |u| + 1;
    SubsetSize(u + {n}, NameSet(t.columns));
  }

  lemma SubsetSize(a: set<string>, b: set<string>)
    requires a <= b
    ensures |a| <= |b|
  {
    assert b == a + (b - a);
  }

  /** The columns whose names are not listed, in their original order. */
  function Without(cols: seq<Column>, names: seq<string>): seq<Column>
  {
    if cols == [] then []
    else (if cols[0].name in names then [] else [cols[0]]) + Without(cols[1..], names)
  }

  /** Every position moved one to the right. */
  function Shift(s: seq<nat>): (r: seq<nat>)
    ensures |r| == |s| && forall k :: 0 <= k < |s| ==> r[k] == s[k] + 1
  {
    seq(|s|, k requires 0 <= k < |s| => s[k] + 1)
  }

  predicate StrictlyIncreasing(s: seq<nat>)
  {
    forall j, k :: 0 <= j < k < |s| ==> s[j] < s[k]
  }

  /** The positions Without keeps. */
  function KeptIndices(cols: seq<Column>, names: seq<string>): seq<nat>
  {
    if cols == [] then []
    else (if cols[0].name in names then [] else [0]) + Shift(KeptIndices(cols[1..], names))
  }

  lemma ShiftMembers(s: seq<nat>, i: nat)
    ensures i in Shift(s) <==> 1 <= i && i - 1 in s
  {
    if i in Shift(s) {
      var k :| 0 <= k < |s| && Shift(s)[k] == i;
    }
    if 1 <= i && i - 1 in s {
      var k :| 0 <= k < |s| && s[k] == i - 1;
      assert Shift(s)[k] == i;
    }
  }

  /** Without picks the columns at the kept positions, in order. */
  lemma {:induction false} KeptPick(cols: seq<Column>, names: seq<string>)
    ensures var r := Without(cols, names); var idx := KeptIndices(cols, names);
      && |idx| == |r|
      && (forall k :: 0 <= k < |idx| ==> idx[k] < |cols| && r[k] == cols[idx[k]])
  {
    if cols != [] {
      var t := cols[1..];
      KeptPick(t, names);
      var ki, tr := KeptIndices(t, names), Without(t, names);
      var ti := Shift(ki);
      assert Picks(cols, ti, tr) by {
        forall k | 0 <= k < |ti| ensures ti[k] < |cols| && tr[k] == cols[ti[k]] {
          assert tr[k] == t[ki[k]] == cols[ki[k] + 1];
        }
      }
      if cols[0].name !in names {
        assert KeptIndices(cols, names) == [0] + ti && Without(cols, names) == [cols[0]] + tr;
        PicksCons(cols, ti, tr);
      } else {
        assert KeptIndices(cols, names) == ti && Without(cols, names) == tr;
      }
    }
  }

  /** r holds the columns of cols at the positions idx. */
  predicate Picks(cols: seq<Column>, idx: seq<nat>, r: seq<Column>)
  {
    |idx| == |r| && forall k :: 0 <= k < |idx| ==> idx[k] < |cols| && r[k] == cols[idx[k]]
  }

  lemma PicksCons(cols: seq<Column>, idx: seq<nat>, r: seq<Column>)
    requires cols != [] && Picks(cols, idx, r)
    ensures Picks(cols, [0] + idx, [cols[0]] + r)
  {
    var idx', r' := [0] + idx, [cols[0]] + r;
    forall k | 1 <= k < |idx'| ensures idx'[k] < |cols| && r'[k] == cols[idx'[k]] {
      assert idx'[k] == idx[k - 1] && r'[k] == r[k - 1];
    }
  }

  lemma {:induction false} KeptIncreasing(cols: seq<Column>, names: seq<string>)
    ensures StrictlyIncreasing(KeptIndices(cols, names))
  {
    if cols != [] {
      KeptIncreasing(cols[1..], names);
    }
  }

  /** The kept positions are exactly those of the unlisted columns. */
  lemma {:induction false} KeptExactly(cols: seq<Column>, names: seq<string>)
    ensures forall i :: 0 <= i < |cols| ==> (i in KeptIndices(cols, names) <==> cols[i].name !in names)
  {
    if cols != [] {
      var t := cols[1..];
      KeptExactly(t, names);
      var idx := KeptIndices(cols, names);
      var head: seq<nat> := if cols[0].name in names then [] else [0];
      assert idx == head + Shift(KeptIndices(t, names));
      forall i | 0 <= i < |cols| ensures (i in idx <==> cols[i].name !in names) {
        ShiftMembers(KeptIndices(t, names), i);
        if i > 0 {
          assert cols[i] == t[i - 1];
        }
      }
    }
  }

  /** Without is the subsequence of the unlisted columns: it picks them at increasing positions
      and skips exactly the listed ones. */
  lemma WithoutIsSubsequence(cols: seq<Column>, names: seq<string>)
    ensures var r := Without(cols, names); var idx := KeptIndices(cols, names);
      && |idx| == |r|
      && StrictlyIncreasing(idx)
      && (forall k :: 0 <= k < |idx| ==> idx[k] < |cols| && r[k] == cols[idx[k]])
      && (forall i :: 0 <= i < |cols| ==> (i in idx <==> cols[i].name !in names))
  {
    KeptPick(cols, names);
    KeptIncreasing(cols, names);
    KeptExactly(cols, names);
  }

  /** An unlisted name is looked up to the same column after the filter. */
  lemma {:induction false} WithoutFind(cols: seq<Column>, names: seq<string>, name: string)
    requires name !in names && Named(cols, name)
    ensures Named(Without(cols, names), name)
    ensures Without(cols, names)[Find(Without(cols, names), name)] == cols[Find(cols, name)]
  {
    var h := if cols[0].name in names then [] else [cols[0]];
    assert Without(cols, names) == h + Without(cols[1..], names);
    if cols[0].name == name {
      FindAppend(h, Without(cols[1..], names), name);
      assert h[0].name == name;
    } else {
      assert Named(cols[1..], name) by {
        var i := Find(cols, name);
        assert cols[1..][i - 1] == cols[i];
      }
      WithoutFind(cols[1..], names, name);
      FindAppend(h, Without(cols[1..], names), name);
      assert !Named(h, name);
    }
  }

  /** A column survives the filter exactly when it is present and unlisted. */
  lemma {:induction false} WithoutMembers(cols: seq<Column>, names: seq<string>)
    ensures forall c :: c in Without(cols, names) <==> c in cols && c.name !in names
  {
    if cols != [] {
      WithoutMembers(cols[1..], names);
      assert forall c :: c in cols <==> c == cols[0] || c in cols[1..];
    }
  }

  /** Names in the list that no column carries change nothing. */
  lemma {:induction false} WithoutIgnoresAbsent(cols: seq<Column>, names: seq<string>, names': seq<string>)
    requires forall i :: 0 <= i < |cols| ==> (cols[i].name in names <==> cols[i].name in names')
    ensures Without(cols, names) == Without(cols, names')
  {
    if cols != [] {
      WithoutIgnoresAbsent(cols[1..], names, names');
    }
  }

  lemma {:induction false} WithoutWellFormed(t: Table, names: seq<string>)
    requires WellFormed(t)
    ensures WellFormed(Table(t.rows, Without(t.columns, names)))
  {
    WithoutMembers(t.columns, names);
    var r := Without(t.columns, names);
    forall i | 0 <= i < |r| ensures |r[i].cells| == t.rows {
      assert r[i] in t.columns;
    }
  }
}
