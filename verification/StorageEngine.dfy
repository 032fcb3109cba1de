/**
 Tables of rows kept as bytes, and the statements that create, fill and read them.
 */
module StorageEngine {
  import opened DataTypes
  import opened Pages

  type Column = (string, DataType)

  datatype ColumnToFetch = ColumnToFetch(name: string, offset: nat, dt: DataType)

  /** Where a fetched value starts in the row data, and its type. */
  datatype Fetched = Fetched(pos: nat, dt: DataType)

  // ----- rows -----

  /** Where column j starts in a row. */
  function Offset(columns: seq<Column>, j: nat): nat
    requires j <= |columns|
  {
    if j == 0 then 0 else Offset(columns, j - 1) + FindOffset(columns[j - 1].1)
  }

  function Width(columns: seq<Column>): nat {
    Offset(columns, |columns|)
  }

  lemma {:induction false} OffsetsGrow(columns: seq<Column>, i: nat, j: nat)
    requires i <= j <= |columns|
    ensures Offset(columns, i) + 4 * (j - i) <= Offset(columns, j)
    ensures i < j ==> Offset(columns, i) + FindOffset(columns[i].1) <= Offset(columns, j)
  {
    if i < j { OffsetsGrow(columns, i, j - 1); }
  }

  predicate Known(columns: seq<Column>, name: string) {
    exists j :: 0 <= j < |columns| && columns[j].0 == name
  }

  ghost predicate KnownAll(columns: seq<Column>, names: seq<string>) {
    forall i :: 0 <= i < |names| ==> Known(columns, names[i])
  }

  function First(names: seq<string>, name: string): (i: nat)
    requires name in names
    ensures i < |names| && names[i] == name && forall j :: 0 <= j < i ==> names[j] != name
  {
    if names[0] == name then 0 else First(names[1..], name) + 1
  }

  lemma FirstIs(names: seq<string>, name: string, i: nat)
    requires i < |names| && names[i] == name && forall j :: 0 <= j < i ==> names[j] != name
    ensures First(names, name) == i
  {
  }

  /** What an insertion stores in a column: the value given for it, or a zero when the column is not named. */
  function ValueFor(name: string, names: seq<string>, values: seq<Value>): Value
    requires |names| <= |values|
  {
    if name in names then values[First(names, name)] else Int(0)
  }

  function RowOf(columns: seq<Column>, names: seq<string>, values: seq<Value>): (row: seq<Value>)
    requires |names| <= |values|
    ensures |row| == |columns| && forall j :: 0 <= j < |row| ==> row[j] == ValueFor(columns[j].0, names, values)
  {
    if columns == [] then []
    else RowOf(columns[..|columns| - 1], names, values) + [ValueFor(columns[|columns| - 1].0, names, values)]
  }

  /** Row data and strings after the values were appended one by one. */
  function Appended(data: seq<Byte>, strings: seq<string>, row: seq<Value>): (seq<Byte>, seq<string>) {
    if row == [] then (data, strings)
    else
      var (d, s) := Appended(data, strings, row[..|row| - 1]);
      (d + Encoded(row[|row| - 1], |s|), s + Kept(row[|row| - 1]))
  }

  lemma NoneAppended(data: seq<Byte>, strings: seq<string>, row: seq<Value>)
    ensures Appended(data, strings, row[..0]) == (data, strings)
  {
  }

  lemma AppendedOneMore(data: seq<Byte>, strings: seq<string>, row: seq<Value>, j: nat)
    requires j < |row|
    ensures var (d, s) := Appended(data, strings, row[..j]);
            Appended(data, strings, row[..j + 1]) == (d + Encoded(row[j], |s|), s + Kept(row[j]))
  {
    assert row[..j + 1][..j] == row[..j];
  }

  /** An insertion: the columns it names, and their values in the same order. */
  type Insertion = (seq<string>, seq<Value>)

  ghost predicate Counted(ops: seq<Insertion>) {
    forall i :: 0 <= i < |ops| ==> |ops[i].0| <= |ops[i].1|
  }

  /** Row data and strings after a run of insertions. */
  ghost function AfterInsertions(columns: seq<Column>, ops: seq<Insertion>): (seq<Byte>, seq<string>)
    requires Counted(ops)
  {
    if ops == [] then ([], [])
    else
      var (data, strings) := AfterInsertions(columns, ops[..|ops| - 1]);
      Appended(data, strings, RowOf(columns, ops[|ops| - 1].0, ops[|ops| - 1].1))
  }

  lemma OneMoreInsertion(columns: seq<Column>, ops: seq<Insertion>, op: Insertion)
    requires Counted(ops) && |op.0| <= |op.1|
    ensures Counted(ops + [op])
    ensures var (data, strings) := AfterInsertions(columns, ops);
            AfterInsertions(columns, ops + [op]) == Appended(data, strings, RowOf(columns, op.0, op.1))
  {
    assert (ops + [op])[..|ops|] == ops;
  }

  class Table {
    var columns: seq<Column>
    var data: seq<Byte>
    var strings: seq<string>
    var rowSize: nat

    /** The insertions made so far, in order. */
    ghost var inserted: seq<Insertion>

    ghost predicate Valid()
      reads this
    {
      && rowSize == Width(columns)
      && Counted(inserted) && (data, strings) == AfterInsertions(columns, inserted)
    }

    constructor ()
      ensures Valid() && columns == [] && data == [] && strings == [] && inserted == []
    {
      columns, data, strings, rowSize, inserted := [], [], [], 0, [];
    }

    method AddColumn(name: string, dt: DataType)
      requires Valid() && inserted == []
      modifies this`columns, this`rowSize
      ensures Valid() && columns == old(columns) + [(name, dt)]
    {
      columns := columns + [(name, dt)];
      rowSize := rowSize + FindOffset(dt);
      OffsetsOfPrefix(old(columns), (name, dt), |old(columns)|);
    }

    method PushBytes(bytes: seq<Byte>)
      modifies this`data
      ensures data == old(data) + bytes
    {
      for i := 0 to |bytes|
        invariant data == old(data) + bytes[..i]
      {
        data := data + [bytes[i]];
      }
      assert bytes[..|bytes|] == bytes;
    }

    method InsertData(value: Value)
      modifies this`data, this`strings
      ensures data == old(data) + Encoded(value, |old(strings)|)
      ensures strings == old(strings) + Kept(value)
    {
      match value
      case Float(bits) => PushBytes(bits);
      case Int(n) => PushBytes(LittleEndian(Unsigned(n), 4));
      case Text(chars) =>
        var size := |chars| % LENGTHS;
        PushBytes(LittleEndian(size, 2));
        PushBytes(LittleEndian(|strings|, 8));
        strings := strings + [chars[..size]];
    }

    /** Whether every named column exists. */
    method KnowsAll(names: seq<string>) returns (ok: bool)
      ensures ok <==> forall i :: 0 <= i < |names| ==> Known(columns, names[i])
    {
      for i := 0 to |names|
        invariant forall l :: 0 <= l < i ==> Known(columns, names[l])
      {
        var found := false;
        for j := 0 to |columns|
          invariant !found && forall l :: 0 <= l < j ==> columns[l].0 != names[i]
        {
          if columns[j].0 == names[i] {
            found := true;
            break;
          }
        }
        if !found {
          assert !Known(columns, names[i]);
          return false;
        }
      }
      return true;
    }

    /** Stores one value per column, in the order of the table's columns. */
    method StoreValues(names: seq<string>, values: seq<Value>)
      requires |names| <= |values|
      modifies this`data, this`strings
      ensures (data, strings) == Appended(old(data), old(strings), RowOf(columns, names, values))
    {
      hide Appended, Encoded, Kept, RowOf, First, AfterInsertions;
      ghost var row := RowOf(columns, names, values);
      NoneAppended(old(data), old(strings), row);
      for j := 0 to |columns|
        invariant (data, strings) == Appended(old(data), old(strings), row[..j])
      {
        AppendedOneMore(old(data), old(strings), row, j);
        var i, found := 0, false;
        while i < |names|
          invariant 0 <= i <= |names| && !found
          invariant forall l :: 0 <= l < i ==> names[l] != columns[j].0
        {
          if names[i] == columns[j].0 {
            found := true;
            break;
          }
          i := i + 1;
        }
        if found {
          FirstIs(names, columns[j].0, i);
          InsertData(values[i]);
        } else {
          InsertData(Int(0));
        }
      }
      assert row[..|columns|] == row;
      assert (data, strings) == Appended(old(data), old(strings), row);
    }

    method InsertRow(names: seq<string>, values: seq<Value>)
      requires Valid() && |names| <= |values|
      modifies this`data, this`strings, this`inserted
      ensures Valid() && inserted == old(inserted) + [(names, values)]
      ensures (data, strings) == Appended(old(data), old(strings), RowOf(columns, names, values))
    {
      hide Appended, RowOf;
      OneMoreInsertion(columns, inserted, (names, values));
      StoreValues(names, values);
      inserted := inserted + [(names, values)];
    }

    /** Where in a row the requested columns lie; fails when one of them does not exist. */
    method FindColumns(requested: seq<string>) returns (r: Outcome<seq<ColumnToFetch>>)
      ensures r.Returned? <==> forall i :: 0 <= i < |requested| ==> Known(columns, requested[i])
      ensures r.Returned? ==> |r.value| == |requested|
      ensures r.Returned? ==>
                forall i :: 0 <= i < |requested| ==> Sought(columns, requested[i], r.value[i])
    {
      var found: seq<ColumnToFetch> := [];
      for i := 0 to |requested|
        invariant |found| == i && forall l :: 0 <= l < i ==> Sought(columns, requested[l], found[l])
      {
        var offset, isThere := 0, false;
        for j := 0 to |columns|
          invariant !isThere && |found| == i && offset == Offset(columns, j)
          invariant forall l :: 0 <= l < j ==> columns[l].0 != requested[i]
          invariant forall l :: 0 <= l < i ==> Sought(columns, requested[l], found[l])
        {
          if columns[j].0 == requested[i] {
            isThere := true;
            found := found + [ColumnToFetch(columns[j].0, offset, columns[j].1)];
            break;
          }
          offset := offset + FindOffset(columns[j].1);
        }
        if !isThere { return Thrown; }
      }
      return Returned(found);
    }

    /** Notes where the values of one row start; taking the address of a byte past the data is undefined. */
    method FetchRow(gathered: map<string, seq<Fetched>>, wanted: seq<ColumnToFetch>, idx: nat)
      returns (fetched: map<string, seq<Fetched>>)
      requires forall i :: 0 <= i < |wanted| ==> idx + wanted[i].offset < |data|
      ensures forall name :: Upto(fetched, name) == Upto(gathered, name) + RowSpots(wanted, name, idx)
    {
      hide Upto, RowSpots;
      fetched := gathered;
      NoneNoted(gathered, idx);
      for i := 0 to |wanted|
        invariant forall name :: Upto(fetched, name) == Upto(gathered, name) + RowSpots(wanted[..i], name, idx)
      {
        assert idx + wanted[i].offset < |data|;
        var spot := Fetched(idx + wanted[i].offset, wanted[i].dt);
        OneMoreNoted(gathered, fetched, wanted, i, idx);
        if wanted[i].name !in fetched {
          fetched := fetched[wanted[i].name := [spot]];
        } else {
          fetched := fetched[wanted[i].name := fetched[wanted[i].name] + [spot]];
        }
      }
      assert wanted[..|wanted|] == wanted;
    }

    /**
     Walks over the rows and notes, name by name, where their values start.  The last row may be cut short,
     as long as each value in it at least starts inside the data.
     */
    method Fetch(wanted: seq<ColumnToFetch>, ghost rows: nat) returns (fetched: map<string, seq<Fetched>>)
      requires rowSize > 0 && Covers(rows, rowSize, |data|)
      requires forall i :: 0 <= i < |wanted| && rows > 0 ==> (rows - 1) * rowSize + wanted[i].offset < |data|
      ensures forall name :: Upto(fetched, name) == Spots(wanted, name, rows, rowSize)
    {
      hide Upto, Spots, RowSpots, Noted;
      fetched := map[];
      NothingNoted(wanted, rowSize);
      var idx := 0;
      ghost var done := 0;
      while idx < |data|
        invariant done <= rows && idx == done * rowSize
        invariant Noted(fetched, wanted, done, rowSize)
        decreases rows - done
      {
        RowsBelow(done, rows, rowSize);
        Monotone(done, rows - 1, rowSize);
        ghost var before := fetched;
        fetched := FetchRow(fetched, wanted, idx);
        RowNoted(before, fetched, wanted, done, rowSize);
        idx := idx + rowSize;
        done := done + 1;
      }
      AllRows(done, rows, rowSize, |data|);
      AllNoted(fetched, wanted, rows, rowSize);
    }
  }

  function Upto(fetched: map<string, seq<Fetched>>, name: string): seq<Fetched> {
    if name in fetched then fetched[name] else []
  }

  /** Where the values of one column start, row by row, each of them noted n times. */
  function Places(rows: nat, rowSize: nat, offset: nat, dt: DataType, n: nat): seq<Fetched> {
    if rows == 0 then []
    else Places(rows - 1, rowSize, offset, dt, n) + Copies(Fetched((rows - 1) * rowSize + offset, dt), n)
  }

  /** The places noted for a name in one row, as often as the name is wanted. */
  function RowSpots(wanted: seq<ColumnToFetch>, name: string, start: nat): seq<Fetched> {
    if wanted == [] then []
    else
      var last := wanted[|wanted| - 1];
      RowSpots(wanted[..|wanted| - 1], name, start)
      + if last.name == name then [Fetched(start + last.offset, last.dt)] else []
  }

  lemma NoneNoted(gathered: map<string, seq<Fetched>>, idx: nat)
    ensures forall name :: Upto(gathered, name) == Upto(gathered, name) + RowSpots([], name, idx)
  {
  }

  /** Noting one more place under its name, whether or not the name has places already. */
  lemma OneMoreNoted(
    gathered: map<string, seq<Fetched>>, fetched: map<string, seq<Fetched>>, wanted: seq<ColumnToFetch>, i: nat, idx: nat)
    requires i < |wanted|
    requires forall name :: Upto(fetched, name) == Upto(gathered, name) + RowSpots(wanted[..i], name, idx)
    ensures var spot, column := Fetched(idx + wanted[i].offset, wanted[i].dt), wanted[i].name;
            var after := fetched[column := if column in fetched then fetched[column] + [spot] else [spot]];
            forall name :: Upto(after, name) == Upto(gathered, name) + RowSpots(wanted[..i + 1], name, idx)
  {
    hide Spots;
    var spot, column := Fetched(idx + wanted[i].offset, wanted[i].dt), wanted[i].name;
    var after := fetched[column := if column in fetched then fetched[column] + [spot] else [spot]];
    assert wanted[..i + 1][..i] == wanted[..i];
    forall name
      ensures Upto(after, name) == Upto(gathered, name) + RowSpots(wanted[..i + 1], name, idx)
    {
      assert Upto(after, name) == Upto(fetched, name) + if column == name then [spot] else [];
    }
  }

  function Spots(wanted: seq<ColumnToFetch>, name: string, rows: nat, rowSize: nat): seq<Fetched> {
    if rows == 0 then []
    else Spots(wanted, name, rows - 1, rowSize) + RowSpots(wanted, name, (rows - 1) * rowSize)
  }

  /** The places of the first rows are noted under every name. */
  ghost predicate Noted(fetched: map<string, seq<Fetched>>, wanted: seq<ColumnToFetch>, rows: nat, rowSize: nat) {
    forall name :: Upto(fetched, name) == Spots(wanted, name, rows, rowSize)
  }

  lemma NothingNoted(wanted: seq<ColumnToFetch>, rowSize: nat)
    ensures Noted(map[], wanted, 0, rowSize)
  {
  }

  lemma RowNoted(
    before: map<string, seq<Fetched>>, after: map<string, seq<Fetched>>, wanted: seq<ColumnToFetch>, rows: nat, rowSize: nat)
    requires Noted(before, wanted, rows, rowSize)
    requires forall name :: Upto(after, name) == Upto(before, name) + RowSpots(wanted, name, rows * rowSize)
    ensures Noted(after, wanted, rows + 1, rowSize)
  {
    hide Upto, RowSpots;
  }

  lemma AllNoted(fetched: map<string, seq<Fetched>>, wanted: seq<ColumnToFetch>, rows: nat, rowSize: nat)
    requires Noted(fetched, wanted, rows, rowSize)
    ensures forall name :: Upto(fetched, name) == Spots(wanted, name, rows, rowSize)
  {
  }

  /** As many rows as it takes to hold `size` bytes. */
  ghost predicate Covers(rows: nat, rowSize: nat, size: nat) {
    if size == 0 then rows == 0 else rows > 0 && (rows - 1) * rowSize < size <= rows * rowSize
  }

  /** How often a name is requested. */
  function Times(requested: seq<string>, name: string): nat {
    if requested == [] then 0
    else Times(requested[..|requested| - 1], name) + if requested[|requested| - 1] == name then 1 else 0
  }

  /** A name has as many places in each row as it is requested times, all of them the same. */
  lemma {:induction false} RequestedInRow(
    columns: seq<Column>, requested: seq<string>, wanted: seq<ColumnToFetch>, name: string, j: nat, start: nat)
    requires |requested| == |wanted| && forall i :: 0 <= i < |requested| ==> Sought(columns, requested[i], wanted[i])
    requires j < |columns| && IsFirst(columns, name, j)
    ensures RowSpots(wanted, name, start) ==
            Copies(Fetched(start + Offset(columns, j), columns[j].1), Times(requested, name))
  {
    if requested != [] {
      var n := |requested| - 1;
      RequestedInRow(columns, requested[..n], wanted[..n], name, j, start);
      assert Sought(columns, requested[n], wanted[n]);
    }
  }

  lemma {:induction false} RequestedPlaces(
    columns: seq<Column>, requested: seq<string>, wanted: seq<ColumnToFetch>, name: string, j: nat, rows: nat)
    requires |requested| == |wanted| && forall i :: 0 <= i < |requested| ==> Sought(columns, requested[i], wanted[i])
    requires j < |columns| && IsFirst(columns, name, j)
    ensures Spots(wanted, name, rows, Width(columns)) ==
            Places(rows, Width(columns), Offset(columns, j), columns[j].1, Times(requested, name))
  {
    hide RowSpots, Sought, IsFirst, Times;
    if rows > 0 {
      RequestedPlaces(columns, requested, wanted, name, j, rows - 1);
      RequestedInRow(columns, requested, wanted, name, j, (rows - 1) * Width(columns));
    }
  }

  lemma Monotone(a: nat, b: nat, c: nat)
    requires a <= b
    ensures a * c <= b * c
  {
    assert (b - a) * c >= 0;
  }

  lemma RowsBelow(done: nat, rows: nat, rowSize: nat)
    requires done * rowSize < rows * rowSize
    ensures done + 1 <= rows && (done + 1) * rowSize == done * rowSize + rowSize
  {
    if rows <= done { Monotone(rows, done, rowSize); }
  }

  lemma AllRows(done: nat, rows: nat, rowSize: nat, size: nat)
    requires Covers(rows, rowSize, size) && done <= rows && done * rowSize >= size
    ensures done == rows
  {
    if done < rows { Monotone(done, rows - 1, rowSize); }
  }

  lemma {:induction false} OffsetsOfPrefix(columns: seq<Column>, last: Column, j: nat)
    requires j <= |columns|
    ensures Offset(columns + [last], j) == Offset(columns, j)
  {
    if j > 0 { OffsetsOfPrefix(columns, last, j - 1); }
  }

  ghost predicate Sought(columns: seq<Column>, name: string, found: ColumnToFetch) {
    exists j :: 0 <= j < |columns| && IsFirst(columns, name, j) && found == ColumnToFetch(name, Offset(columns, j), columns[j].1)
  }

  /** These are the places of the named column, row by row, each of them n times. */
  ghost predicate ColumnGathered(columns: seq<Column>, name: string, spots: seq<Fetched>, rows: nat, n: nat) {
    exists j :: 0 <= j < |columns| && IsFirst(columns, name, j) &&
                spots == Places(rows, Width(columns), Offset(columns, j), columns[j].1, n)
  }

  ghost predicate IsFirst(columns: seq<Column>, name: string, j: nat)
    requires j < |columns|
  {
    columns[j].0 == name && forall l :: 0 <= l < j ==> columns[l].0 != name
  }

  /** A table's columns are those of the declaration, each with the type that is named there. */
  ghost predicate Declared(columns: seq<Column>, tblColumns: seq<(string, string)>) {
    && |columns| == |tblColumns|
    && forall i :: 0 <= i < |columns| ==>
         && columns[i].0 == tblColumns[i].0
         && tblColumns[i].1 == match columns[i].1 case Integer => "integer" case Varchar => "varchar" case Real => "real"
  }

  method BuildTable(tblColumns: seq<(string, string)>) returns (r: Outcome<Table>)
    ensures r.Returned? <==> forall i :: 0 <= i < |tblColumns| ==> IsTypeValid(tblColumns[i].1)
    ensures r.Returned? ==>
              && fresh(r.value) && r.value.Valid() && r.value.inserted == [] && Declared(r.value.columns, tblColumns)
  {
    hide AfterInsertions, Width;
    var newTable := new Table();
    for i := 0 to |tblColumns|
      invariant newTable.Valid() && newTable.inserted == []
      invariant forall l :: 0 <= l < i ==> IsTypeValid(tblColumns[l].1)
      invariant Declared(newTable.columns, tblColumns[..i])
    {
      if !IsTypeValid(tblColumns[i].1) { return Thrown; }
      newTable.AddColumn(tblColumns[i].0, FromString(tblColumns[i].1));
    }
    assert tblColumns[..|tblColumns|] == tblColumns;
    return Returned(newTable);
  }

  class Engine {
    var tables: map<string, Table>

    ghost predicate Valid()
      reads this, tables.Values
    {
      && (forall name :: name in tables ==> tables[name].Valid())
      && forall a, b :: a in tables && b in tables && a != b ==> tables[a] != tables[b]
    }

    constructor ()
      ensures Valid() && tables == map[]
    {
      tables := map[];
    }

    /** A table that exists already is left as it is, without complaint. */
    method CreateTable(name: string, tblColumns: seq<(string, string)>) returns (r: Outcome<()>)
      requires Valid()
      modifies this
      ensures Valid()
      ensures r.Returned? <==> forall i :: 0 <= i < |tblColumns| ==> tblColumns[i].1 in ["integer", "varchar", "real"]
      ensures r.Thrown? || name in old(tables) ==> tables == old(tables)
      ensures r.Returned? && name !in old(tables) ==>
                && name in tables && tables == old(tables)[name := tables[name]] && fresh(tables[name])
                && tables[name].inserted == [] && Declared(tables[name].columns, tblColumns)
    {
      hide AfterInsertions, Width, Declared;
      var newTable :- BuildTable(tblColumns);
      if name !in tables {
        tables := tables[name := newTable];
      }
      return Returned(());
    }

    method InsertIntoTable(name: string, names: seq<string>, values: seq<Value>) returns (r: Outcome<()>)
      requires Valid() && |names| <= |values|
      modifies if name in tables then {tables[name]} else {}
      ensures Valid()
      ensures r.Returned? <==> name in tables && forall i :: 0 <= i < |names| ==> Known(tables[name].columns, names[i])
      ensures r.Thrown? && name in tables ==> unchanged(tables[name])
      ensures r.Returned? ==>
                var t := tables[name];
                && t.columns == old(t.columns) && t.inserted == old(t.inserted) + [(names, values)]
    {
      if name !in tables { return Thrown; }
      var t := tables[name];
      var known := t.KnowsAll(names);
      if !known { return Thrown; }
      t.InsertRow(names, values);
      return Returned(());
    }

    /**
     The columns a selection names, gathered row by row; the expressions over them are not evaluated here.
     A selection from a table without rows is undefined.
     */
    method QueryDataFromTable(name: string, requested: seq<string>, ghost rows: nat)
      returns (r: Outcome<map<string, seq<Fetched>>>, ghost wanted: seq<ColumnToFetch>)
      requires Valid()
      requires requested != [] && name in tables && KnownAll(tables[name].columns, requested) ==>
                 var t := tables[name];
                 && t.data != [] && Covers(rows, t.rowSize, |t.data|)
                 && Addressable(t.columns, requested, rows, |t.data|)
      ensures requested == [] ==> (r.Returned? <==> name == "" || name in tables)
      ensures requested != [] ==>
                (r.Returned? <==> name in tables && KnownAll(tables[name].columns, requested))
      ensures r.Returned? && requested != [] ==>
                && |wanted| == |requested|
                && (forall i :: 0 <= i < |requested| ==> Sought(tables[name].columns, requested[i], wanted[i]))
                && forall column :: Upto(r.value, column) == Spots(wanted, column, rows, Width(tables[name].columns))
    {
      wanted := [];
      if requested == [] {
        r := if name == "" || name in tables then Returned(map[]) else Thrown;
        return;
      }
      if name !in tables { r := Thrown; return; }
      var t := tables[name];
      var found := t.FindColumns(requested);
      if found.Thrown? { r := Thrown; return; }
      wanted := found.value;
      forall i | 0 <= i < |wanted|
        ensures (rows - 1) * t.rowSize + wanted[i].offset < |t.data|
      {
        assert Sought(t.columns, requested[i], wanted[i]);
      }
      HasWidth(t.columns, requested[0], wanted[0]);
      var fetched := t.Fetch(found.value, rows);
      r := Returned(fetched);
    }
  }

  /** Every requested value of the last row starts inside the data. */
  ghost predicate Addressable(columns: seq<Column>, requested: seq<string>, rows: nat, size: nat) {
    forall i, j :: 0 <= i < |requested| && 0 <= j < |columns| && IsFirst(columns, requested[i], j) ==>
                     (rows - 1) * Width(columns) + Offset(columns, j) < size
  }

  lemma HasWidth(columns: seq<Column>, name: string, found: ColumnToFetch)
    requires Sought(columns, name, found)
    ensures Width(columns) > 0
  {
    OffsetsGrow(columns, 0, |columns|);
  }

  /** A requested name is gathered from its column, row by row, and in each row as often as it is requested. */
  lemma RequestedGathered(columns: seq<Column>, requested: seq<string>, wanted: seq<ColumnToFetch>, i: nat, rows: nat)
    requires i < |requested| == |wanted| && forall l :: 0 <= l < |requested| ==> Sought(columns, requested[l], wanted[l])
    ensures var name := requested[i];
            ColumnGathered(columns, name, Spots(wanted, name, rows, Width(columns)), rows, Times(requested, name))
  {
    assert Sought(columns, requested[i], wanted[i]);
    var j :| 0 <= j < |columns| && IsFirst(columns, requested[i], j) &&
             wanted[i] == ColumnToFetch(requested[i], Offset(columns, j), columns[j].1);
    RequestedPlaces(columns, requested, wanted, requested[i], j, rows);
  }
}
