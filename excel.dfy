/** The spreadsheet component: a list of row objects (`data`) and the list of column names
    (`columns`). Editing a cell writes into the row object itself, which the shallow copy of
    `data` shares; adding a row builds a new object field by field; adding and deleting a
    column replace every row by a new object; deleting a row filters the list by id. The
    `prompt` that asks for a new column's name is a parameter. */
module Spreadsheet {
  import opened Js
  import Seqs
  import opened Receivers

  /** The own properties of one row. */
  type Fields = map<string, Value>

  /** `newRow.id`, `row.id`. */
  const IdField: string := "id"

  /** The sheet as values: the rows' fields in order, and the column names. */
  datatype Grid = Grid(data: seq<Fields>, columns: seq<string>)

  /** `initialData` and `Object.keys(initialData[0])`. */
  function InitialGrid(): Grid {
    Grid([map[IdField := Num(1), "name" := Str("John"), "age" := Num(25), "city" := Str("New York")],
          map[IdField := Num(2), "name" := Str("Jane"), "age" := Num(30), "city" := Str("Los Angeles")],
          map[IdField := Num(3), "name" := Str("Mike"), "age" := Num(35), "city" := Str("Chicago")]],
         [IdField, "name", "age", "city"])
  }

  /** `handleInputChange(rowIndex, field, value)` on a row that exists. */
  function Edit(g: Grid, rowIndex: nat, field: string, value: string): Grid
    requires rowIndex < |g.data|
  {
    g.(data := g.data[rowIndex := g.data[rowIndex][field := Str(value)]])
  }

  /** The row `addRow` builds: `''` under every column, then `id` set to `id`. */
  function NewRow(columns: seq<string>, id: int): Fields {
    (map c | c in columns :: Str(""))[IdField := Num(id)]
  }

  /** `addRow()`: the new row's id is the old row count plus one. */
  function RowAdded(g: Grid): Grid {
    g.(data := g.data + [NewRow(g.columns, |g.data| + 1)])
  }

  /** The `addColumn` guard: `prompt` gave a non-empty name (not cancelled, not `''`) that is
      not a column yet. */
  predicate Accepts(columns: seq<string>, answer: Option<string>) {
    answer.Some? && answer.value != "" && answer.value !in columns
  }

  /** `{ ...row, [name]: '' }`. */
  function WithField(row: Fields, name: string): Fields {
    row[name := Str("")]
  }

  /** `addColumn()` with `answer` the value `prompt` returned (`None` for a cancelled prompt). */
  function ColumnAdded(g: Grid, answer: Option<string>): Grid {
    if Accepts(g.columns, answer) then
      Grid(seq(|g.data|, i requires 0 <= i < |g.data| => WithField(g.data[i], answer.value)),
           g.columns + [answer.value])
    else g
  }

  /** The test `row.id !== rowId`; a row without an id reads undefined. */
  function KeepsRow(rowId: Value): Fields -> bool {
    (row: Fields) => Get(row, IdField) != rowId
  }

  /** `deleteRow(rowId)`. */
  function RowDeleted(g: Grid, rowId: Value): Grid {
    g.(data := Seqs.Filter(g.data, KeepsRow(rowId)))
  }

  /** The test `col !== columnName`. */
  function KeepsColumn(name: string): string -> bool {
    (col: string) => col != name
  }

  /** `const { [columnName]: _, ...remainingFields } = row`. */
  function WithoutField(row: Fields, name: string): Fields {
    row - {name}
  }

  /** `deleteColumn(columnName)`. */
  function ColumnDeleted(g: Grid, name: string): Grid {
    Grid(seq(|g.data|, i requires 0 <= i < |g.data| => WithoutField(g.data[i], name)),
         Seqs.Filter(g.columns, KeepsColumn(name)))
  }

  /** Editing changes exactly one cell: the row count and the columns stay, the cell gets the
      typed text, the row's other fields and all other rows are unchanged. */
  lemma EditChangesOneCell(g: Grid, rowIndex: nat, field: string, value: string)
    requires rowIndex < |g.data|
    ensures var r := Edit(g, rowIndex, field, value);
            && |r.data| == |g.data| && r.columns == g.columns
            && r.data[rowIndex][field] == Str(value)
            && r.data[rowIndex].Keys == g.data[rowIndex].Keys + {field}
            && (forall k :: k in g.data[rowIndex] && k != field ==> r.data[rowIndex][k] == g.data[rowIndex][k])
            && (forall j :: 0 <= j < |g.data| && j != rowIndex ==> r.data[j] == g.data[j])
  {
  }

  /** `addRow` appends one row and keeps the others; the new row has a key for every column,
      set to `''`, except `id`, which is the old row count plus one. */
  lemma AddRowAppends(g: Grid)
    ensures var r := RowAdded(g);
            && |r.data| == |g.data| + 1 && r.data[..|g.data|] == g.data && r.columns == g.columns
            && r.data[|g.data|].Keys == set c | c in g.columns + [IdField]
            && r.data[|g.data|][IdField] == Num(|g.data| + 1)
            && (forall c :: c in g.columns && c != IdField ==> r.data[|g.data|][c] == Str(""))
  {
    var r := RowAdded(g);
    assert r.data[..|g.data|] == g.data;
    var row := r.data[|g.data|];
    assert row.Keys == set c | c in g.columns + [IdField] by {
      forall c ensures c in row.Keys <==> c in g.columns + [IdField] {
        assert c in g.columns + [IdField] <==> c in g.columns || c == IdField;
      }
    }
  }

  /** A cancelled prompt, an empty name or an existing column name changes nothing. */
  lemma AddColumnRejected(g: Grid, answer: Option<string>)
    requires answer.None? || answer.value == "" || answer.value in g.columns
    ensures ColumnAdded(g, answer) == g
  {
  }

  /** Otherwise the name becomes the last column and every row gains it as `''`, keeping its
      other fields. */
  lemma AddColumnAddsField(g: Grid, name: string)
    requires name != "" && name !in g.columns
    ensures var r := ColumnAdded(g, Some(name));
            && r.columns == g.columns + [name]
            && |r.data| == |g.data|
            && (forall i :: 0 <= i < |g.data| ==>
                  r.data[i].Keys == g.data[i].Keys + {name} && r.data[i][name] == Str("")
                  && forall k :: k in g.data[i] && k != name ==> r.data[i][k] == g.data[i][k])
  {
  }

  /** `deleteRow` keeps, in order, exactly the rows whose id differs, each as often as before. */
  lemma DeleteRowRemovesId(g: Grid, rowId: Value)
    ensures var r := RowDeleted(g, rowId);
            && r.columns == g.columns
            && Seqs.IsSubsequence(r.data, g.data)
            && (forall i :: 0 <= i < |r.data| ==> Get(r.data[i], IdField) != rowId)
            && (forall row :: Get(row, IdField) != rowId ==> multiset(r.data)[row] == multiset(g.data)[row])
  {
    var keep := KeepsRow(rowId);
    Seqs.FilterIsSubsequence(g.data, keep);
    Seqs.FilterSatisfies(g.data, keep);
    forall row | Get(row, IdField) != rowId
      ensures multiset(Seqs.Filter(g.data, keep))[row] == multiset(g.data)[row]
    {
      Seqs.FilterCount(g.data, keep, row);
    }
  }

  /** `deleteRow` of an id that no row has leaves the sheet equal, and only then. */
  lemma DeleteRowAbsentIsNoOp(g: Grid, rowId: Value)
    ensures RowDeleted(g, rowId) == g <==> forall i :: 0 <= i < |g.data| ==> Get(g.data[i], IdField) != rowId
  {
    Seqs.FilterKeepsAll(g.data, KeepsRow(rowId));
  }

  /** `deleteColumn` removes the name from the columns, keeps the other columns in order, and
      removes the field from every row, leaving the row's other fields. */
  lemma DeleteColumnRemovesField(g: Grid, name: string)
    ensures var r := ColumnDeleted(g, name);
            && name !in r.columns
            && (forall c :: c in r.columns <==> c in g.columns && c != name)
            && Seqs.IsSubsequence(r.columns, g.columns)
            && |r.data| == |g.data|
            && (forall i :: 0 <= i < |g.data| ==>
                  r.data[i].Keys == g.data[i].Keys - {name}
                  && forall k :: k in r.data[i] ==> r.data[i][k] == g.data[i][k])
  {
    var keep := KeepsColumn(name);
    Seqs.FilterIsSubsequence(g.columns, keep);
    forall c ensures c in ColumnDeleted(g, name).columns <==> c in g.columns && c != name {
      Seqs.FilterMember(g.columns, keep, c);
    }
  }

  /** Row ids are not unique: after deleting John (id 1), `addRow` gives the new row id 3, the
      id Mike already has, and a later `deleteRow(3)` removes both rows. */
  lemma AddRowAfterDeleteRowDuplicatesId()
    ensures var g := RowAdded(RowDeleted(InitialGrid(), Num(1)));
            && |g.data| == 3
            && g.data[1][IdField] == Num(3) && g.data[2][IdField] == Num(3)
            && |RowDeleted(g, Num(3)).data| == 1
  {
    var g0 := InitialGrid();
    var john, jane, mike := g0.data[0], g0.data[1], g0.data[2];
    assert g0.data == [john, jane, mike];
    assert Get(john, IdField) == Num(1) && Get(jane, IdField) == Num(2) && Get(mike, IdField) == Num(3);
    Seqs.FilterThree(john, jane, mike, KeepsRow(Num(1)));
    var g1 := RowDeleted(g0, Num(1));
    assert g1.data == [jane, mike];
    var added := NewRow(g0.columns, 3);
    assert Get(added, IdField) == Num(3);
    var g := RowAdded(g1);
    assert g.data == [jane, mike, added];
    Seqs.FilterThree(jane, mike, added, KeepsRow(Num(3)));
  }

  /** The fields of a list of row objects. */
  ghost function FieldsOfRows(rows: seq<Record>): (t: seq<Fields>)
    reads rows
    ensures |t| == |rows|
    ensures forall i :: 0 <= i < |rows| ==> t[i] == rows[i].fields
  {
    seq(|rows|, i requires 0 <= i < |rows| reads rows => rows[i].fields)
  }

  lemma FieldsOfRowsSnoc(rows: seq<Record>, r: Record)
    ensures FieldsOfRows(rows + [r]) == FieldsOfRows(rows) + [r.fields]
  {
    assert (rows + [r])[..|rows|] == rows;
  }

  /** One step of `deleteRow`'s filter over row objects: keeping or skipping `rows[i]` extends a
      kept list that mirrors the filtered fields of the first `i` rows to one that mirrors the
      first `i + 1`. */
  lemma DeleteRowStep(rows: seq<Record>, i: nat, kept: seq<Record>, keep: Fields -> bool)
    requires i < |rows|
    requires FieldsOfRows(kept) == Seqs.Filter(FieldsOfRows(rows[..i]), keep)
    requires Seqs.IsSubsequence(kept, rows[..i])
    ensures var next := if keep(rows[i].fields) then kept + [rows[i]] else kept;
            && FieldsOfRows(next) == Seqs.Filter(FieldsOfRows(rows[..i + 1]), keep)
            && Seqs.IsSubsequence(next, rows[..i + 1])
  {
    assert rows[..i + 1] == rows[..i] + [rows[i]];
    FieldsOfRowsSnoc(rows[..i], rows[i]);
    FieldsOfRowsSnoc(kept, rows[i]);
    Seqs.FilterSnoc(FieldsOfRows(rows[..i]), rows[i].fields, keep);
    Seqs.SubsequenceSnoc(kept, rows[..i], rows[i]);
  }

  /** At the end of `deleteRow`'s filter the kept rows are distinct objects taken from the
      original rows. */
  lemma DeleteRowDone(rows: seq<Record>, kept: seq<Record>, keep: Fields -> bool)
    requires Seqs.Distinct(rows)
    requires FieldsOfRows(kept) == Seqs.Filter(FieldsOfRows(rows[..|rows|]), keep)
    requires Seqs.IsSubsequence(kept, rows[..|rows|])
    ensures Seqs.Distinct(kept)
    ensures FieldsOfRows(kept) == Seqs.Filter(FieldsOfRows(rows), keep)
    ensures forall r :: r in kept ==> r in rows
  {
    assert rows[..|rows|] == rows;
    Seqs.SubsequenceKeepsDistinct(kept, rows);
  }

  /** `rows.filter((row) => row.id !== rowId)` over row objects: the rows kept are distinct
      objects taken from `rows` in order, and their fields are the filtered fields. */
  method KeptRows(rows: seq<Record>, rowId: Value) returns (kept: seq<Record>)
    requires Seqs.Distinct(rows)
    ensures Seqs.Distinct(kept)
    ensures FieldsOfRows(kept) == Seqs.Filter(FieldsOfRows(rows), KeepsRow(rowId))
    ensures forall r :: r in kept ==> r in rows
  {
    ghost var keep := KeepsRow(rowId);
    kept := [];
    var i := 0;
    while i < |rows|
      invariant 0 <= i <= |rows|
      invariant FieldsOfRows(kept) == Seqs.Filter(FieldsOfRows(rows[..i]), keep)
      invariant Seqs.IsSubsequence(kept, rows[..i])
    {
      DeleteRowStep(rows, i, kept, keep);
      if Get(rows[i].fields, IdField) != rowId {
        kept := kept + [rows[i]];
      }
      i := i + 1;
    }
    DeleteRowDone(rows, kept, keep);
  }

  /** `const newRow = {}` followed by `columns.forEach((col) => { newRow[col] = ''; })`: a new
      object with `''` under every column and no other field. */
  method BlankRow(cols: seq<string>) returns (row: Record)
    ensures fresh(row)
    ensures row.fields == map c | c in cols :: Str("")
  {
    row := new Record(map[]);
    for i := 0 to |cols|
      modifies row
      invariant forall c :: c in row.fields <==> c in cols[..i]
      invariant forall c :: c in row.fields ==> row.fields[c] == Str("")
    {
      assert cols[..i + 1] == cols[..i] + [cols[i]];
      row.fields := row.fields[cols[i] := Str("")];
    }
    assert cols[..|cols|] == cols;
  }

  /** The component's state, with rows as objects. */
  class Sheet {
    var data: seq<Record>
    var columns: seq<string>

    ghost predicate Valid()
      reads this
    {
      Seqs.Distinct(data)
    }

    /** The sheet's value. */
    ghost function Value(): Grid
      reads this, data
    {
      Grid(FieldsOfRows(data), columns)
    }

    constructor ()
      ensures Valid() && Value() == InitialGrid()
    {
      var g := InitialGrid();
      var john := new Record(g.data[0]);
      var jane := new Record(g.data[1]);
      var mike := new Record(g.data[2]);
      data := [john, jane, mike];
      columns := g.columns;
    }

    /** `handleInputChange(rowIndex, field, value)`. The row object is written in place; an
        index with no row makes `updatedData[rowIndex][field]` a TypeError and changes
        nothing. */
    method HandleInputChange(rowIndex: int, field: string, value: string) returns (c: Completion)
      requires Valid()
      modifies data
      ensures data == old(data) && columns == old(columns) && Valid()
      ensures 0 <= rowIndex < |data| ==> c == Ok(Undefined) && Value() == Edit(old(Value()), rowIndex, field, value)
      ensures !(0 <= rowIndex < |data|) ==> c == Err(TypeError) && Value() == old(Value())
    {
      var updatedData := data;
      if !(0 <= rowIndex < |updatedData|) {
        return Err(TypeError);
      }
      var row := updatedData[rowIndex];
      row.fields := row.fields[field := Str(value)];
      c := Ok(Undefined);
      assert forall j :: 0 <= j < |data| && j != rowIndex ==> data[j] != row;
    }

    /** `addRow()`: the new row object gets `''` under every column, then its id. */
    method AddRow()
      requires Valid()
      modifies this
      ensures Valid() && Value() == RowAdded(old(Value()))
      ensures |data| == |old(data)| + 1 && data[..|old(data)|] == old(data) && fresh(data[|old(data)|])
    {
      ghost var before := data;
      ghost var was := FieldsOfRows(data);
      var newRow := BlankRow(columns);
      newRow.fields := newRow.fields[IdField := Num(|data| + 1)];
      data := data + [newRow];
      assert FieldsOfRows(before) == was;
      FieldsOfRowsSnoc(before, newRow);
      Seqs.DistinctSnoc(before, newRow);
      assert data[..|before|] == before;
      assert Value() == Grid(was + [NewRow(columns, |before| + 1)], columns);
    }

    /** `addColumn()`, with `answer` the value `prompt` returned. When it is accepted, each row
        is replaced by a new object that has the new field. */
    method AddColumn(answer: Option<string>)
      requires Valid()
      modifies this
      ensures Valid() && Value() == ColumnAdded(old(Value()), answer)
      ensures !Accepts(old(columns), answer) ==> data == old(data)
      ensures Accepts(old(columns), answer) ==> forall r :: r in data ==> fresh(r)
    {
      if !(answer.Some? && answer.value != "" && answer.value !in columns) {
        return;
      }
      var name := answer.value;
      var rows := data;
      ghost var was := FieldsOfRows(rows);
      var updatedData: seq<Record> := [];
      var i := 0;
      while i < |rows|
        modifies {}
        invariant 0 <= i <= |rows| && |updatedData| == i
        invariant forall j :: 0 <= j < i ==> fresh(updatedData[j])
        invariant Seqs.Distinct(updatedData)
        invariant forall j :: 0 <= j < i ==> updatedData[j].fields == WithField(was[j], name)
      {
        var row := new Record(WithField(rows[i].fields, name));
        updatedData := updatedData + [row];
        i := i + 1;
      }
      columns := columns + [name];
      data := updatedData;
      assert FieldsOfRows(data) == seq(|was|, j requires 0 <= j < |was| => WithField(was[j], name));
    }

    /** `deleteRow(rowId)`: the surviving row objects, in order. */
    method DeleteRow(rowId: Value)
      requires Valid()
      modifies this
      ensures Valid() && Value() == RowDeleted(old(Value()), rowId)
      ensures forall r :: r in data ==> r in old(data)
    {
      ghost var was := FieldsOfRows(data);
      var updatedData := KeptRows(data, rowId);
      data := updatedData;
      assert FieldsOfRows(data) == Seqs.Filter(was, KeepsRow(rowId));
    }

    /** `deleteColumn(columnName)`: the name leaves the columns, and each row is replaced by a
        new object without that field. */
    method DeleteColumn(columnName: string)
      requires Valid()
      modifies this
      ensures Valid() && Value() == ColumnDeleted(old(Value()), columnName)
      ensures forall r :: r in data ==> fresh(r)
    {
      var rows := data;
      ghost var was := FieldsOfRows(rows);
      var updatedData: seq<Record> := [];
      var i := 0;
      while i < |rows|
        modifies {}
        invariant 0 <= i <= |rows| && |updatedData| == i
        invariant forall j :: 0 <= j < i ==> fresh(updatedData[j])
        invariant Seqs.Distinct(updatedData)
        invariant forall j :: 0 <= j < i ==> updatedData[j].fields == WithoutField(was[j], columnName)
      {
        var row := new Record(WithoutField(rows[i].fields, columnName));
        updatedData := updatedData + [row];
        i := i + 1;
      }
      columns := Seqs.Filter(columns, KeepsColumn(columnName));
      data := updatedData;
      assert FieldsOfRows(data) == seq(|was|, j requires 0 <= j < |was| => WithoutField(was[j], columnName));
    }
  }
}
