/**
 Rows read back as they were inserted.
 */
module RowRoundTrip {
  import opened Pages
  import opened DataTypes
  import opened StorageEngine

  /** Every value has its column's type; only integer columns are left out, which store a zero then. */
  ghost predicate WellTyped(columns: seq<Column>, op: Insertion) {
    && |op.0| <= |op.1|
    && forall j :: 0 <= j < |columns| ==>
         if columns[j].0 in op.0 then TypeOf(op.1[First(op.0, columns[j].0)]) == columns[j].1
         else columns[j].1 == Integer
  }

  ghost predicate AllWellTyped(columns: seq<Column>, ops: seq<Insertion>)
    ensures AllWellTyped(columns, ops) ==> Counted(ops)
  {
    forall i :: 0 <= i < |ops| ==> WellTyped(columns, ops[i])
  }

  function Valued(columns: seq<Column>, op: Insertion): seq<Value>
    requires |op.0| <= |op.1|
  {
    RowOf(columns, op.0, op.1)
  }

  function RowStart(columns: seq<Column>, i: nat): nat {
    i * Width(columns)
  }

  /** Column j of the row that starts at `start` holds the value as it is stored. */
  ghost predicate Holds(columns: seq<Column>, data: seq<Byte>, strings: seq<string>, start: nat, j: nat, v: Value)
    requires j < |columns|
  {
    var pos := start + Offset(columns, j);
    && Readable(columns[j].1, data, strings, pos)
    && Decode(columns[j].1, data, strings, pos) == Stored(v)
  }

  lemma HoldsStill(
    columns: seq<Column>, data: seq<Byte>, strings: seq<string>, start: nat, j: nat, v: Value,
    moreData: seq<Byte>, moreStrings: seq<string>)
    requires j < |columns| && Holds(columns, data, strings, start, j, v)
    ensures Holds(columns, data + moreData, strings + moreStrings, start, j, v)
  {
    StillReads(columns[j].1, data, strings, start + Offset(columns, j), moreData, moreStrings);
  }

  /** Appending a row only adds to the data and to the strings. */
  lemma {:induction false} AppendedExtends(data: seq<Byte>, strings: seq<string>, row: seq<Value>)
    ensures var (d, s) := Appended(data, strings, row);
            data <= d && strings <= s
  {
    if row != [] { AppendedExtends(data, strings, row[..|row| - 1]); }
  }

  /** The values appended for the first columns of a row can be read back. */
  lemma {:induction false} RowAppended(columns: seq<Column>, data: seq<Byte>, strings: seq<string>, row: seq<Value>)
    requires |row| <= |columns| && forall j :: 0 <= j < |row| ==> TypeOf(row[j]) == columns[j].1
    requires |Appended(data, strings, row).1| < ADDRESSES
    ensures var (d, s) := Appended(data, strings, row);
            && |d| == |data| + Offset(columns, |row|)
            && forall j :: 0 <= j < |row| ==> Holds(columns, d, s, |data|, j, row[j])
  {
    hide Readable, Decode, Encoded, Kept, Stored;
    if row != [] {
      var n := |row| - 1;
      var (d, s) := Appended(data, strings, row[..n]);
      AppendedExtends(data, strings, row);
      RowAppended(columns, data, strings, row[..n]);
      forall j | 0 <= j < n
        ensures Holds(columns, d + Encoded(row[n], |s|), s + Kept(row[n]), |data|, j, row[j])
      {
        HoldsStill(columns, d, s, |data|, j, row[j], Encoded(row[n], |s|), Kept(row[n]));
      }
      ReadsBack(row[n], d, s);
    }
  }

  lemma RowTyped(columns: seq<Column>, op: Insertion)
    requires WellTyped(columns, op)
    ensures var row := Valued(columns, op);
            |row| == |columns| && forall j :: 0 <= j < |row| ==> TypeOf(row[j]) == columns[j].1
  {
  }

  lemma RowStarts(columns: seq<Column>)
    ensures RowStart(columns, 0) == 0
    ensures forall i: nat :: RowStart(columns, i + 1) == RowStart(columns, i) + Width(columns)
  {
  }

  /** After any run of well-typed insertions, every value inserted can be read back from its place. */
  lemma {:induction false} RunReadsBack(columns: seq<Column>, ops: seq<Insertion>)
    requires AllWellTyped(columns, ops)
    requires |AfterInsertions(columns, ops).1| < ADDRESSES
    ensures var (data, strings) := AfterInsertions(columns, ops);
            && |data| == RowStart(columns, |ops|)
            && forall i, j :: 0 <= i < |ops| && 0 <= j < |columns| ==>
                 Holds(columns, data, strings, RowStart(columns, i), j, Valued(columns, ops[i])[j])
  {
    hide Holds, Appended, RowOf, RowStart, WellTyped;
    RowStarts(columns);
    if ops != [] {
      var n := |ops| - 1;
      var (data, strings) := AfterInsertions(columns, ops[..n]);
      var row := Valued(columns, ops[n]);
      var (d, s) := Appended(data, strings, row);
      AppendedExtends(data, strings, row);
      RunReadsBack(columns, ops[..n]);
      RowTyped(columns, ops[n]);
      RowAppended(columns, data, strings, row);
      assert d == data + d[|data|..] && s == strings + s[|strings|..];
      forall i, j | 0 <= i < |ops| && 0 <= j < |columns|
        ensures Holds(columns, d, s, RowStart(columns, i), j, Valued(columns, ops[i])[j])
      {
        if i < n {
          assert ops[i] == ops[..n][i];
          HoldsStill(
            columns, data, strings, RowStart(columns, i), j, Valued(columns, ops[i])[j], d[|data|..], s[|strings|..]);
        }
      }
    }
  }

  /** The value an expression sees for a fetched place. */
  function ReadAt(spot: Fetched, data: seq<Byte>, strings: seq<string>): Value
    requires Readable(spot.dt, data, strings, spot.pos)
  {
    Decode(spot.dt, data, strings, spot.pos)
  }

  /** The values of a column, as they are stored, in order and each of them n times: those given for it, or zero. */
  ghost function GivenTimes(ops: seq<Insertion>, name: string, n: nat): seq<Value>
    requires Counted(ops)
  {
    if ops == [] then []
    else
      var last := ops[|ops| - 1];
      GivenTimes(ops[..|ops| - 1], name, n) + Copies(Stored(ValueFor(name, last.0, last.1)), n)
  }

  ghost predicate AllReadable(spots: seq<Fetched>, data: seq<Byte>, strings: seq<string>) {
    forall i :: 0 <= i < |spots| ==> Readable(spots[i].dt, data, strings, spots[i].pos)
  }

  /** What a list of places reads as. */
  ghost predicate ReadAs(spots: seq<Fetched>, data: seq<Byte>, strings: seq<string>, values: seq<Value>)
    requires AllReadable(spots, data, strings)
  {
    && |values| == |spots|
    && forall i :: 0 <= i < |spots| ==> ReadAt(spots[i], data, strings) == values[i]
  }

  /**
     A selection from a table filled by such a run finds, for each column it names and row by row, exactly
     the values that were given for that column, each as often as it names the column; strings of more than
     65535 characters are cut short.
   */
  lemma SelectionReadsBack(columns: seq<Column>, ops: seq<Insertion>, name: string, spots: seq<Fetched>, n: nat)
    requires AllWellTyped(columns, ops)
    requires |AfterInsertions(columns, ops).1| < ADDRESSES
    requires ColumnGathered(columns, name, spots, |ops|, n)
    ensures Counted(ops)
    ensures var (data, strings) := AfterInsertions(columns, ops);
            AllReadable(spots, data, strings) && ReadAs(spots, data, strings, GivenTimes(ops, name, n))
  {
    hide AfterInsertions, AllWellTyped, WellTyped, AllReadable, ReadAs, GivenTimes, Counted;
    var j :| 0 <= j < |columns| && IsFirst(columns, name, j) &&
             spots == Places(|ops|, Width(columns), Offset(columns, j), columns[j].1, n);
    RunReadsBack(columns, ops);
    RowsRead(columns, ops, j, |ops|, n);
    assert ops[..|ops|] == ops;
  }

  lemma NothingRead(
    data: seq<Byte>, strings: seq<string>, rowSize: nat, offset: nat, dt: DataType, ops: seq<Insertion>, name: string,
    n: nat)
    ensures Counted(ops[..0])
    ensures AllReadable(Places(0, rowSize, offset, dt, n), data, strings)
    ensures ReadAs(Places(0, rowSize, offset, dt, n), data, strings, GivenTimes(ops[..0], name, n))
  {
  }

  lemma ReadOn(
    spots: seq<Fetched>, data: seq<Byte>, strings: seq<string>, values: seq<Value>, spot: Fetched, v: Value, n: nat)
    requires AllReadable(spots, data, strings) && ReadAs(spots, data, strings, values)
    requires Readable(spot.dt, data, strings, spot.pos) && ReadAt(spot, data, strings) == v
    ensures AllReadable(spots + Copies(spot, n), data, strings)
    ensures ReadAs(spots + Copies(spot, n), data, strings, values + Copies(v, n))
  {
    hide Readable, Decode;
  }

  lemma {:induction false} RowsRead(columns: seq<Column>, ops: seq<Insertion>, j: nat, rows: nat, n: nat)
    requires AllWellTyped(columns, ops) && j < |columns| && rows <= |ops|
    requires var (data, strings) := AfterInsertions(columns, ops);
             forall i :: 0 <= i < |ops| ==>
                           Holds(columns, data, strings, RowStart(columns, i), j, Valued(columns, ops[i])[j])
    ensures Counted(ops[..rows])
    ensures var (data, strings) := AfterInsertions(columns, ops);
            var spots := Places(rows, Width(columns), Offset(columns, j), columns[j].1, n);
            AllReadable(spots, data, strings) && ReadAs(spots, data, strings, GivenTimes(ops[..rows], columns[j].0, n))
  {
    hide AfterInsertions, AllWellTyped, Valued, Readable, Decode, Stored, Offset, ValueFor, AllReadable, ReadAs, Places,
         GivenTimes, Counted, RowStart, Width;
    var name, dt, offset := columns[j].0, columns[j].1, Offset(columns, j);
    var (data, strings) := AfterInsertions(columns, ops);
    if rows == 0 {
      NothingRead(data, strings, Width(columns), offset, dt, ops, name, n);
    } else {
      var last := rows - 1;
      RowsRead(columns, ops, j, last, n);
      GivenFor(columns, ops, last, j);
      OneMoreGiven(ops, last, name, n);
      assert Holds(columns, data, strings, RowStart(columns, last), j, Valued(columns, ops[last])[j]);
      OneMorePlace(columns, offset, dt, last, n);
      ReadOn(
        Places(last, Width(columns), offset, dt, n), data, strings, GivenTimes(ops[..last], name, n),
        Fetched(RowStart(columns, last) + offset, dt), Stored(Valued(columns, ops[last])[j]), n);
    }
  }

  lemma OneMorePlace(columns: seq<Column>, offset: nat, dt: DataType, rows: nat, n: nat)
    ensures Places(rows + 1, Width(columns), offset, dt, n) ==
            Places(rows, Width(columns), offset, dt, n) + Copies(Fetched(RowStart(columns, rows) + offset, dt), n)
  {
  }

  lemma OneMoreGiven(ops: seq<Insertion>, rows: nat, name: string, n: nat)
    requires rows < |ops| && Counted(ops[..rows]) && |ops[rows].0| <= |ops[rows].1|
    ensures Counted(ops[..rows + 1])
    ensures GivenTimes(ops[..rows + 1], name, n) ==
            GivenTimes(ops[..rows], name, n) + Copies(Stored(ValueFor(name, ops[rows].0, ops[rows].1)), n)
  {
    hide Stored, ValueFor;
    assert ops[..rows + 1][..rows] == ops[..rows];
  }

  lemma {:induction false} GivenFor(columns: seq<Column>, ops: seq<Insertion>, i: nat, j: nat)
    requires AllWellTyped(columns, ops) && i < |ops| && j < |columns|
    ensures |ops[i].0| <= |ops[i].1| && |Valued(columns, ops[i])| == |columns|
    ensures Valued(columns, ops[i])[j] == ValueFor(columns[j].0, ops[i].0, ops[i].1)
  {
    assert WellTyped(columns, ops[i]);
  }

  /** The value of a column is the first one given for its name; a column that is left out stores four zero bytes. */
  lemma ValueGiven(name: string, op: Insertion, i: nat, address: nat)
    requires |op.0| <= |op.1|
    ensures i < |op.0| && op.0[i] == name && name !in op.0[..i] ==> ValueFor(name, op.0, op.1) == op.1[i]
    ensures name !in op.0 ==> Encoded(ValueFor(name, op.0, op.1), address) == [0, 0, 0, 0]
    ensures name !in op.0 ==> Stored(ValueFor(name, op.0, op.1)) == Int(0)
  {
    if i < |op.0| && op.0[i] == name && name !in op.0[..i] {
      assert forall j :: 0 <= j < i ==> op.0[j] == op.0[..i][j];
      FirstIs(op.0, name, i);
    }
    assert LittleEndian(0, 1) == [0] && LittleEndian(0, 2) == [0, 0] && LittleEndian(0, 3) == [0, 0, 0];
  }

  /** The values are those given for the column, one for each insertion. */
  ghost predicate AreGiven(values: seq<Value>, name: string, ops: seq<Insertion>)
    requires Counted(ops)
  {
    && |values| == |ops|
    && forall i :: 0 <= i < |ops| ==> values[i] == Stored(ValueFor(name, ops[i].0, ops[i].1))
  }

  /** A selection shows each row once exactly when it names the column once. */
  lemma {:induction false} RightWhenNamedOnce(ops: seq<Insertion>, name: string, n: nat)
    requires Counted(ops) && ops != []
    ensures AreGiven(GivenTimes(ops, name, n), name, ops) <==> n == 1
  {
    hide Stored, ValueFor, GivenTimes, Counted;
    GivenLength(ops, name, n);
    if n == 1 {
      GivenOnce(ops, name);
    } else if n == 0 {
    } else {
      Monotone(2, n, |ops|);
    }
  }

  lemma {:induction false} GivenLength(ops: seq<Insertion>, name: string, n: nat)
    requires Counted(ops)
    ensures |GivenTimes(ops, name, n)| == n * |ops|
  {
    if ops != [] {
      GivenLength(ops[..|ops| - 1], name, n);
      assert n * |ops| == n * (|ops| - 1) + n;
    }
  }

  lemma {:induction false} GivenOnce(ops: seq<Insertion>, name: string)
    requires Counted(ops)
    ensures AreGiven(GivenTimes(ops, name, 1), name, ops)
  {
    hide Stored, ValueFor;
    if ops != [] { GivenOnce(ops[..|ops| - 1], name); }
  }

  /** Naming a column twice shows every row twice, so the second row is the first insertion again. */
  lemma NamedTwice(column: string, first: Value, second: Value)
    requires Stored(first) != Stored(second)
    ensures var ops: seq<Insertion> := [([column], [first]), ([column], [second])];
            && Times([column, column], column) == 2 && Counted(ops)
            && GivenTimes(ops, column, 2) == [Stored(first), Stored(first), Stored(second), Stored(second)]
            && !AreGiven(GivenTimes(ops, column, 2)[..2], column, ops)
  {
    var ops: seq<Insertion> := [([column], [first]), ([column], [second])];
    assert Times([column], column) == 1 by { assert [column][..0] == []; }
    assert [column, column][..1] == [column];
    assert GivenTimes(ops[..1], column, 2) == Copies(Stored(first), 2) by { assert ops[..1][..0] == []; }
    assert Copies(Stored(first), 2) + Copies(Stored(second), 2) ==
           [Stored(first), Stored(first), Stored(second), Stored(second)];
  }

  // ----- the engine itself -----

  /** A table filled by well-typed insertions covers its rows, and every column of each row lies inside. */
  lemma {:induction false} FilledTable(columns: seq<Column>, ops: seq<Insertion>, requested: seq<string>)
    requires AllWellTyped(columns, ops) && |AfterInsertions(columns, ops).1| < ADDRESSES
    requires ops != [] && Width(columns) > 0
    ensures var data := AfterInsertions(columns, ops).0;
            && data != [] && Covers(|ops|, Width(columns), |data|)
            && Addressable(columns, requested, |ops|, |data|)
  {
    hide AfterInsertions, Width, Offset;
    RunReadsBack(columns, ops);
    RowStarts(columns);
    assert RowStart(columns, |ops| - 1 + 1) == RowStart(columns, |ops| - 1) + Width(columns);
    Monotone(0, |ops| - 1, Width(columns));
    forall i, j | 0 <= i < |requested| && 0 <= j < |columns| && IsFirst(columns, requested[i], j)
      ensures (|ops| - 1) * Width(columns) + Offset(columns, j) < |AfterInsertions(columns, ops).0|
    {
      OffsetBelowWidth(columns, j);
    }
  }

  lemma OffsetBelowWidth(columns: seq<Column>, j: nat)
    requires j < |columns|
    ensures Offset(columns, j) < Width(columns)
  {
    OffsetsGrow(columns, j, |columns|);
  }

  /** The selected values of the column are those given for it, each as often as the column is requested. */
  ghost predicate Shown(values: map<string, seq<Value>>, ops: seq<Insertion>, requested: seq<string>, name: string) {
    name in values && Counted(ops) && values[name] == GivenTimes(ops, name, Times(requested, name))
  }

  lemma ShownMore(
    values: map<string, seq<Value>>, ops: seq<Insertion>, requested: seq<string>, i: nat, column: seq<Value>)
    requires i < |requested| && forall l :: 0 <= l < i ==> Shown(values, ops, requested, requested[l])
    requires Counted(ops) && column == GivenTimes(ops, requested[i], Times(requested, requested[i]))
    ensures forall l :: 0 <= l < i + 1 ==> Shown(values[requested[i] := column], ops, requested, requested[l])
  {
    hide Counted, GivenTimes, Times;
  }

  /**
     Selects columns and reads their values row by row.  Whatever the engine went through, as long as all
     insertions into the table were well-typed, the values are those that were given, each as often as the
     column is requested.
   */
  method SelectColumns(engine: Engine, name: string, requested: seq<string>) returns (r: Outcome<map<string, seq<Value>>>)
    requires engine.Valid() && requested != []
    requires name in engine.tables ==>
               var t := engine.tables[name];
               t.inserted != [] && AllWellTyped(t.columns, t.inserted) && |t.strings| < ADDRESSES
    ensures r.Returned? <==> name in engine.tables && KnownAll(engine.tables[name].columns, requested)
    ensures r.Returned? ==>
              forall i :: 0 <= i < |requested| ==> Shown(r.value, engine.tables[name].inserted, requested, requested[i])
  {
    hide AfterInsertions, Offset, AllWellTyped, GivenTimes, Counted, Times, ColumnGathered, Shown;
    ghost var rows := 0;
    if name in engine.tables {
      var t := engine.tables[name];
      rows := |t.inserted|;
      if KnownAll(t.columns, requested) {
        KnownHasWidth(t.columns, requested[0]);
        FilledTable(t.columns, t.inserted, requested);
      }
    }
    var fetched, wanted := engine.QueryDataFromTable(name, requested, rows);
    if fetched.Thrown? { return Thrown; }
    var t := engine.tables[name];
    var values: map<string, seq<Value>> := map[];
    for i := 0 to |requested|
      invariant forall l :: 0 <= l < i ==> Shown(values, t.inserted, requested, requested[l])
    {
      RequestedGathered(t.columns, requested, wanted, i, rows);
      var column := ReadColumn(t, requested[i], Upto(fetched.value, requested[i]), Times(requested, requested[i]));
      ShownMore(values, t.inserted, requested, i, column);
      values := values[requested[i] := column];
    }
    return Returned(values);
  }

  lemma KnownHasWidth(columns: seq<Column>, name: string)
    requires Known(columns, name)
    ensures Width(columns) > 0
  {
    OffsetsGrow(columns, 0, |columns|);
  }

  /** The values an identifier stands for, place by place. */
  method ReadColumn(t: Table, name: string, spots: seq<Fetched>, ghost n: nat) returns (values: seq<Value>)
    requires t.Valid() && AllWellTyped(t.columns, t.inserted) && |t.strings| < ADDRESSES
    requires ColumnGathered(t.columns, name, spots, |t.inserted|, n)
    ensures Counted(t.inserted) && values == GivenTimes(t.inserted, name, n)
  {
    hide AfterInsertions, AllWellTyped, ColumnGathered, Readable, Decode, Stored, Offset, ValueFor, GivenTimes, Counted;
    SelectionReadsBack(t.columns, t.inserted, name, spots, n);
    values := [];
    for i := 0 to |spots|
      invariant |values| == i
      invariant forall l :: 0 <= l < i ==> values[l] == GivenTimes(t.inserted, name, n)[l]
    {
      values := values + [ReadAt(spots[i], t.data, t.strings)];
    }
  }
}
