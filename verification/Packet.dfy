/** Rows packed column-wise into one null bitmap and five typed pools. */
module Packet {

  datatype ColumnType = UNSUPPORTED | DOUBLE | INT32 | INT64 | NUMERIC | TIMESTAMP | DATE | STRING | BOOLEAN

  // A double is passed through unchanged, as its 64 bits.
  type Double = bits: int | 0 <= bits < 0x1_0000_0000_0000_0000

  datatype Cell = Null | DoubleCell(bits: Double) | Int32Cell(i: int) | Int64Cell(l: int) | TextCell(s: string) | BoolCell(b: bool)

  // The message table; `rows` counts the rows, the lists are the repeated fields.
  datatype Table = Table(
    rows: nat,
    nulls: seq<bool>,
    doubles: seq<Double>,
    int32s: seq<int>,
    int64s: seq<int>,
    strings: seq<string>,
    bools: seq<bool>,
    rowNumbers: seq<nat>)

  const EMPTY := Table(0, [], [], [], [], [], [], [])

  datatype Pool = Doubles | Int32s | Int64s | Strings | Bools

  // NUMERIC, TIMESTAMP, DATE and STRING share the string pool.
  function PoolOf(t: ColumnType): Pool
    requires t != UNSUPPORTED
  {
    match t
    case DOUBLE => Doubles
    case INT32 => Int32s
    case INT64 => Int64s
    case BOOLEAN => Bools
    case _ => Strings
  }

  // Which columns share a pool.
  lemma PoolsOfTypes(t: ColumnType)
    requires t != UNSUPPORTED
    ensures PoolOf(t) == Strings <==> t == NUMERIC || t == TIMESTAMP || t == DATE || t == STRING
    ensures PoolOf(t) == Doubles <==> t == DOUBLE
    ensures PoolOf(t) == Int32s <==> t == INT32
    ensures PoolOf(t) == Int64s <==> t == INT64
    ensures PoolOf(t) == Bools <==> t == BOOLEAN
  {
  }

  predicate Supported(types: seq<ColumnType>) {
    forall c :: 0 <= c < |types| ==> types[c] != UNSUPPORTED
  }

  predicate CellOfPool(cell: Cell, p: Pool) {
    match p
    case Doubles => cell.DoubleCell?
    case Int32s => cell.Int32Cell?
    case Int64s => cell.Int64Cell?
    case Strings => cell.TextCell?
    case Bools => cell.BoolCell?
  }

  // The values of a pool, as cells.
  function PoolCells(t: Table, p: Pool): (cells: seq<Cell>)
    ensures forall i :: 0 <= i < |cells| ==> CellOfPool(cells[i], p)
  {
    match p
    case Doubles => seq(|t.doubles|, i requires 0 <= i < |t.doubles| => DoubleCell(t.doubles[i]))
    case Int32s => seq(|t.int32s|, i requires 0 <= i < |t.int32s| => Int32Cell(t.int32s[i]))
    case Int64s => seq(|t.int64s|, i requires 0 <= i < |t.int64s| => Int64Cell(t.int64s[i]))
    case Strings => seq(|t.strings|, i requires 0 <= i < |t.strings| => TextCell(t.strings[i]))
    case Bools => seq(|t.bools|, i requires 0 <= i < |t.bools| => BoolCell(t.bools[i]))
  }

  function AppendNull(t: Table, isNull: bool): Table {
    t.(nulls := t.nulls + [isNull])
  }

  // Adds a value to the pool of its kind.
  function AppendValue(t: Table, cell: Cell): Table {
    match cell
    case Null => t
    case DoubleCell(d) => t.(doubles := t.doubles + [d])
    case Int32Cell(i) => t.(int32s := t.int32s + [i])
    case Int64Cell(i) => t.(int64s := t.int64s + [i])
    case TextCell(s) => t.(strings := t.strings + [s])
    case BoolCell(b) => t.(bools := t.bools + [b])
  }

  // ---------------------------------------------------------------------------------------------
  // What a table holds.

  // One cell of one row, with the type of its column.
  datatype Slot = Slot(t: ColumnType, cell: Cell)

  predicate SlotOk(s: Slot) {
    s.cell != Null ==> s.t != UNSUPPORTED && CellOfPool(s.cell, PoolOf(s.t))
  }

  ghost predicate SlotsOk(slots: seq<Slot>) {
    forall i :: 0 <= i < |slots| ==> SlotOk(slots[i])
  }

  predicate InPool(s: Slot, p: Pool) {
    s.t != UNSUPPORTED && s.cell != Null && PoolOf(s.t) == p
  }

  // The cells of the slots that belong to a pool, in order.
  function Filter(slots: seq<Slot>, p: Pool): seq<Cell>
    decreases |slots|
  {
    if slots == [] then []
    else
      var init, last := slots[..|slots| - 1], slots[|slots| - 1];
      Filter(init, p) + if InPool(last, p) then [last.cell] else []
  }

  function NullFlags(slots: seq<Slot>): (flags: seq<bool>)
    ensures |flags| == |slots|
  {
    seq(|slots|, i requires 0 <= i < |slots| => slots[i].cell.Null?)
  }

  // The table's bitmap and pools hold exactly these slots.
  ghost predicate Packed(t: Table, slots: seq<Slot>) {
    && t.nulls == NullFlags(slots)
    && forall p: Pool :: PoolCells(t, p) == Filter(slots, p)
  }

  // Reading: a slot's value is at the index given by the number of earlier slots in its pool.
  lemma {:induction false} FilterAt(slots: seq<Slot>, i: nat, p: Pool)
    requires i < |slots| && InPool(slots[i], p)
    ensures |Filter(slots[..i], p)| < |Filter(slots, p)|
    ensures Filter(slots, p)[|Filter(slots[..i], p)|] == slots[i].cell
    decreases |slots|
  {
    var init := slots[..|slots| - 1];
    if i < |slots| - 1 {
      FilterAt(init, i, p);
      assert init[..i] == slots[..i];
    }
  }

  lemma FilterNext(slots: seq<Slot>, i: nat, p: Pool)
    requires i < |slots|
    ensures Filter(slots[..i + 1], p) == Filter(slots[..i], p) + if InPool(slots[i], p) then [slots[i].cell] else []
  {
    assert slots[..i + 1][..i] == slots[..i];
  }

  lemma AppendPoolValue(t: Table, cell: Cell, p: Pool)
    ensures PoolCells(AppendValue(t, cell), p) == PoolCells(t, p) + if cell != Null && CellOfPool(cell, p) then [cell] else []
  {
  }

  lemma FilterAppend(slots: seq<Slot>, s: Slot, p: Pool)
    ensures Filter(slots + [s], p) == Filter(slots, p) + if InPool(s, p) then [s.cell] else []
  {
    assert (slots + [s])[..|slots|] == slots;
  }

  lemma PoolsDiffer(s: Slot, p: Pool)
    requires SlotOk(s)
    ensures InPool(s, p) <==> s.cell != Null && CellOfPool(s.cell, p)
  {
  }

  // Writing one more cell.
  lemma PackedAppend(t: Table, slots: seq<Slot>, s: Slot)
    requires Packed(t, slots) && SlotOk(s)
    ensures Packed(AppendValue(AppendNull(t, s.cell.Null?), s.cell), slots + [s])
  {
    hide PoolCells, Filter, InPool, PoolOf;
    var t1 := AppendNull(t, s.cell.Null?);
    var t2 := AppendValue(t1, s.cell);
    forall p: Pool
      ensures PoolCells(t2, p) == Filter(slots + [s], p)
    {
      AppendNullPools(t, s.cell.Null?, p);
      AppendPoolValue(t1, s.cell, p);
      FilterAppend(slots, s, p);
      PoolsDiffer(s, p);
    }
  }

  lemma AppendNullPools(t: Table, isNull: bool, p: Pool)
    ensures PoolCells(AppendNull(t, isNull), p) == PoolCells(t, p)
  {
  }

  // ---------------------------------------------------------------------------------------------
  // Rows.

  datatype Row = Row(number: nat, cells: seq<Cell>)

  ghost predicate RowOk(types: seq<ColumnType>, row: Row) {
    |row.cells| == |types| && forall c :: 0 <= c < |types| ==> SlotOk(Slot(types[c], row.cells[c]))
  }

  ghost predicate RowsOk(types: seq<ColumnType>, rows: seq<Row>) {
    forall k :: 0 <= k < |rows| ==> RowOk(types, rows[k])
  }

  function RowSlots(types: seq<ColumnType>, row: Row): (slots: seq<Slot>)
    ensures |slots| == |types|
  {
    seq(|types|, c requires 0 <= c < |types| => Slot(types[c], if c < |row.cells| then row.cells[c] else Null))
  }

  // The slots of all rows, row by row.
  function Slots(types: seq<ColumnType>, rows: seq<Row>): seq<Slot>
    decreases |rows|
  {
    if rows == [] then [] else Slots(types, rows[..|rows| - 1]) + RowSlots(types, rows[|rows| - 1])
  }

  function RowNumbers(rows: seq<Row>): (numbers: seq<nat>)
    ensures |numbers| == |rows|
  {
    seq(|rows|, k requires 0 <= k < |rows| => rows[k].number)
  }

  // `t` is the message table that holds these rows.
  ghost predicate IsEncoding(types: seq<ColumnType>, rows: seq<Row>, t: Table) {
    && RowsOk(types, rows)
    && t.rows == |rows|
    && t.rowNumbers == RowNumbers(rows)
    && Packed(t, Slots(types, rows))
  }

  lemma OneMoreRow(n: nat, cols: nat)
    requires n > 0
    ensures (n - 1) * cols + cols == n * cols
  {
  }

  lemma {:induction false} SlotsLength(types: seq<ColumnType>, rows: seq<Row>)
    ensures |Slots(types, rows)| == |rows| * |types|
    decreases |rows|
  {
    if rows != [] {
      SlotsLength(types, rows[..|rows| - 1]);
      OneMoreRow(|rows|, |types|);
    }
  }

  lemma RowIndex(k: nat, n: nat, c: nat, cols: nat)
    requires k < n && c < cols
    ensures k * cols + c < n * cols
  {
    assert k * cols + c < (k + 1) * cols;
    assert (k + 1) * cols <= n * cols;
  }

  lemma {:induction false} SlotAt(types: seq<ColumnType>, rows: seq<Row>, k: nat, c: nat)
    requires k < |rows| && c < |types| && RowsOk(types, rows)
    ensures k * |types| + c < |Slots(types, rows)|
    ensures Slots(types, rows)[k * |types| + c] == Slot(types[c], rows[k].cells[c])
    decreases |rows|
  {
    hide SlotOk;
    SlotsLength(types, rows);
    RowIndex(k, |rows|, c, |types|);
    var init := rows[..|rows| - 1];
    SlotsLength(types, init);
    if k < |init| {
      SlotAt(types, init, k, c);
    }
  }

  // A table determines its rows: no two lists of rows are packed the same.
  lemma EncodingInjective(types: seq<ColumnType>, a: seq<Row>, b: seq<Row>, t: Table)
    requires types != [] && IsEncoding(types, a, t) && IsEncoding(types, b, t)
    ensures a == b
  {
    hide SlotOk, Packed, Slots;
    forall k | 0 <= k < |a|
      ensures a[k] == b[k]
    {
      assert RowNumbers(a)[k] == RowNumbers(b)[k];
      forall c | 0 <= c < |types|
        ensures a[k].cells[c] == b[k].cells[c]
      {
        SlotAt(types, a, k, c);
        SlotAt(types, b, k, c);
        SameSlots(types, a, b, t, k * |types| + c);
      }
    }
  }

  // Slot by slot, equal prefixes make equal pool indices and so equal values.
  lemma {:induction false} SameSlots(types: seq<ColumnType>, a: seq<Row>, b: seq<Row>, t: Table, i: nat)
    requires IsEncoding(types, a, t) && IsEncoding(types, b, t) && i < |Slots(types, a)|
    ensures i < |Slots(types, b)| && Slots(types, a)[..i + 1] == Slots(types, b)[..i + 1]
    decreases i
  {
    hide Filter, PoolCells, Slots, SlotOk, PoolOf;
    var sa, sb := Slots(types, a), Slots(types, b);
    SlotsLength(types, a);
    SlotsLength(types, b);
    if i > 0 {
      SameSlots(types, a, b, t, i - 1);
      assert sa[..i] == sb[..i];
    } else {
      assert sa[..0] == sb[..0];
    }
    SameTypes(types, a, b, i);
    assert NullFlags(sa)[i] == NullFlags(sb)[i];
    if sa[i].cell != Null {
      var p := PoolOf(sa[i].t);
      SlotInPool(sa[i]);
      SlotInPool(sb[i]);
      FilterAt(sa, i, p);
      FilterAt(sb, i, p);
    }
    assert sa[i] == sb[i];
    assert sa[..i + 1] == sa[..i] + [sa[i]] && sb[..i + 1] == sb[..i] + [sb[i]];
  }

  lemma SlotInPool(s: Slot)
    requires s.cell != Null && s.t != UNSUPPORTED
    ensures InPool(s, PoolOf(s.t))
  {
  }

  lemma {:induction false} SameTypes(types: seq<ColumnType>, a: seq<Row>, b: seq<Row>, i: nat)
    requires RowsOk(types, a) && RowsOk(types, b) && |a| == |b| && i < |Slots(types, a)| == |Slots(types, b)|
    ensures Slots(types, a)[i].t == Slots(types, b)[i].t
    ensures SlotOk(Slots(types, a)[i])
    decreases |a|
  {
    var a', b' := a[..|a| - 1], b[..|b| - 1];
    SlotsLength(types, a');
    SlotsLength(types, b');
    if i < |Slots(types, a')| {
      SameTypes(types, a', b', i);
    } else {
      assert SlotOk(Slot(types[i - |Slots(types, a')|], a[|a| - 1].cells[i - |Slots(types, a')|]));
    }
  }
}
