/** The row emitter of a UDF (`SWIGResultHandler_Impl`): cells packed into messages and sent in chunks. */
module ResultHandler {
  import opened Wrappers
  import opened Sequences
  import opened Packet
  import opened TableIterator

  // The size from which a message is sent (SWIG_MAX_VAR_DATASIZE).
  const MAX_SIZE: nat := 4000000

  datatype EmitReply = Emitted | EmitClose(message: bool) | EmitOtherType | EmitUnparsable | EmitWrongConnection

  datatype EmitFault =
    | EmitParseFailed           // 1083
    | EmitWrongId               // 1084
    | EmitUnknownError          // 1085
    | EmitClosedByServer
    | EmitWrongType             // 1086
    | UnsupportedColumn         // 1087
    | MissingValue              // 1088 to 1092
    | NoSuchOutputColumn        // 1094, 1096, ...
    | WrongOutputType           // 1095, 1097, ...

  // Which replies to EMIT raise what.
  lemma ReplyFaults(before: Option<EmitFault>)
    ensures ReplyFault(Emitted, before) == before
    ensures ReplyFault(EmitClose(true), before) == Some(EmitClosedByServer)
    ensures ReplyFault(EmitClose(false), before) == Some(EmitUnknownError)
    ensures ReplyFault(EmitOtherType, before) == Some(EmitWrongType)
    ensures ReplyFault(EmitUnparsable, before) == Some(EmitParseFailed)
    ensures ReplyFault(EmitWrongConnection, before) == Some(EmitWrongId)
  {
  }

  // The exception after a reply to EMIT.
  function ReplyFault(r: EmitReply, before: Option<EmitFault>): Option<EmitFault> {
    match r
    case Emitted => before
    case EmitClose(message) => Some(if message then EmitClosedByServer else EmitUnknownError)
    case EmitOtherType => Some(EmitWrongType)
    case EmitUnparsable => Some(EmitParseFailed)
    case EmitWrongConnection => Some(EmitWrongId)
  }

  // The bytes that a cell is accounted for.
  function CellSize(cell: Cell): nat {
    match cell
    case Null => 0
    case DoubleCell(_) => 8
    case Int32Cell(_) => 4
    case Int64Cell(_) => 8
    case TextCell(s) => 4 + |s|
    case BoolCell(_) => 1
  }

  function CellsSize(cells: seq<Cell>): nat {
    if cells == [] then 0 else CellsSize(cells[..|cells| - 1]) + CellSize(cells[|cells| - 1])
  }

  function RowsSize(rows: seq<Row>): nat {
    if rows == [] then 0 else RowsSize(rows[..|rows| - 1]) + CellsSize(rows[|rows| - 1].cells)
  }

  // A value set through a char pointer ends at its first NUL.
  function CString(s: string): string {
    if s == [] || s[0] == '\0' then [] else [s[0]] + CString(s[1..])
  }

  // The text up to its first NUL, or the whole text.
  lemma {:induction false} CStringIs(s: string)
    ensures |CString(s)| <= |s| && CString(s) == s[..|CString(s)|]
    ensures forall i :: 0 <= i < |CString(s)| ==> s[i] != '\U{0000}'
    ensures |CString(s)| < |s| ==> s[|CString(s)|] == '\U{0000}'
    decreases |s|
  {
    if s != [] && s[0] != '\0' {
      CStringIs(s[1..]);
      var n := |CString(s[1..])|;
      assert CString(s) == [s[0]] + s[1..][..n];
      forall i | 0 <= i < n + 1
        ensures s[i] != '\U{0000}'
      {
        if i > 0 {
          assert s[1..][i - 1] == s[i];
        }
      }
    }
  }

  // What has been set for the row under construction. (One map holds the values of all columns: the
  // setters put a column's value only into the map of its type.)
  datatype RowData = RowData(nullData: map<nat, bool>, data: map<nat, Cell>) {
    // Unset columns count as not null.
    predicate IsNull(col: nat) {
      col in nullData && nullData[col]
    }

    ghost predicate Typed(types: seq<ColumnType>) {
      forall c :: c in data && c < |types| && types[c] != UNSUPPORTED ==> CellOfPool(data[c], PoolOf(types[c]))
    }

    // The column can be written: it is null, or it has a value and a supported type.
    predicate Ready(types: seq<ColumnType>, col: nat)
      requires col < |types|
    {
      IsNull(col) || (types[col] != UNSUPPORTED && col in data)
    }

    function CellAt(col: nat): Cell {
      if IsNull(col) || col !in data then Null else data[col]
    }

    // All columns but one are as in `other`.
    ghost predicate SameBut(other: RowData, types: seq<ColumnType>, col: nat) {
      forall c :: 0 <= c < |types| && c != col ==>
        CellAt(c) == other.CellAt(c) && Ready(types, c) == other.Ready(types, c)
    }

    function Cells(n: nat): (cells: seq<Cell>)
      ensures |cells| == n
    {
      seq(n, c requires 0 <= c < n => CellAt(c))
    }
  }

  // Before anything is set for a row, no column can be written.
  lemma NothingReady(types: seq<ColumnType>, c: nat)
    requires c < |types|
    ensures !NOTHING_SET.Ready(types, c)
  {
  }

  // The first column that is neither null nor set.
  ghost predicate FirstUnready(rowData: RowData, types: seq<ColumnType>, c: nat) {
    && c < |types| && !rowData.Ready(types, c)
    && forall d :: 0 <= d < c ==> rowData.Ready(types, d)
  }

  const NOTHING_SET := RowData(map[], map[])

  // ---------------------------------------------------------------------------------------------
  // What the accounted size is, on the message itself.

  function TextLength(strings: seq<string>): nat {
    if strings == [] then 0 else TextLength(strings[..|strings| - 1]) + |strings[|strings| - 1]|
  }

  // Eight bytes for each double and 64-bit integer, four for each 32-bit integer, one for each boolean, and
  // for each text four and its length.
  ghost function Accounted(t: Table): nat {
    8 * |t.doubles| + 4 * |t.int32s| + 8 * |t.int64s| + |t.bools| + 4 * |t.strings| + TextLength(t.strings)
  }

  function SlotsSize(slots: seq<Slot>): nat {
    if slots == [] then 0 else SlotsSize(slots[..|slots| - 1]) + CellSize(slots[|slots| - 1].cell)
  }

  function TextCellsLength(cells: seq<Cell>): nat {
    if cells == [] then 0
    else
      var last := cells[|cells| - 1];
      TextCellsLength(cells[..|cells| - 1]) + if last.TextCell? then |last.s| else 0
  }

  ghost function PoolsSize(slots: seq<Slot>): nat {
    8 * |Filter(slots, Doubles)| + 4 * |Filter(slots, Int32s)| + 8 * |Filter(slots, Int64s)| + |Filter(slots, Bools)|
    + 4 * |Filter(slots, Strings)| + TextCellsLength(Filter(slots, Strings))
  }

  lemma {:induction false} SlotsSizeIs(slots: seq<Slot>)
    requires SlotsOk(slots)
    ensures SlotsSize(slots) == PoolsSize(slots)
    decreases |slots|
  {
    hide SlotOk, InPool;
    if slots != [] {
      var init, last := slots[..|slots| - 1], slots[|slots| - 1];
      SlotsSizeIs(init);
      LastSlot(last);
      assert Filter(slots, Strings) == Filter(init, Strings) + if last.cell.TextCell? then [last.cell] else [];
      TextCellsAppend(Filter(init, Strings), last.cell);
      assert Filter(init, Strings) + [] == Filter(init, Strings);
    }
  }

  lemma TextCellsAppend(cells: seq<Cell>, cell: Cell)
    ensures TextCellsLength(cells + [cell]) == TextCellsLength(cells) + if cell.TextCell? then |cell.s| else 0
  {
    assert (cells + [cell])[..|cells|] == cells;
  }

  lemma LastSlot(s: Slot)
    requires SlotOk(s)
    ensures InPool(s, Doubles) <==> s.cell.DoubleCell?
    ensures InPool(s, Int32s) <==> s.cell.Int32Cell?
    ensures InPool(s, Int64s) <==> s.cell.Int64Cell?
    ensures InPool(s, Bools) <==> s.cell.BoolCell?
    ensures InPool(s, Strings) <==> s.cell.TextCell?
  {
  }

  lemma {:induction false} TextLengthIs(t: Table, cells: seq<Cell>)
    requires |cells| <= |t.strings| && forall i :: 0 <= i < |cells| ==> cells[i] == TextCell(t.strings[i])
    ensures TextCellsLength(cells) == TextLength(t.strings[..|cells|])
    decreases |cells|
  {
    if cells != [] {
      var n := |cells| - 1;
      TextLengthIs(t, cells[..n]);
      assert t.strings[..n + 1][..n] == t.strings[..n];
    }
  }

  lemma {:induction false} SlotsSizeAppend(a: seq<Slot>, b: seq<Slot>)
    ensures SlotsSize(a + b) == SlotsSize(a) + SlotsSize(b)
    decreases |b|
  {
    if b == [] {
      assert a + b == a;
    } else {
      assert (a + b)[..|a + b| - 1] == a + b[..|b| - 1];
      SlotsSizeAppend(a, b[..|b| - 1]);
    }
  }

  lemma {:induction false} CellsSizeIs(types: seq<ColumnType>, row: Row, n: nat)
    requires n <= |types| == |row.cells|
    ensures SlotsSize(RowSlots(types, row)[..n]) == CellsSize(row.cells[..n])
    decreases n
  {
    if n > 0 {
      CellsSizeIs(types, row, n - 1);
      assert RowSlots(types, row)[..n][..n - 1] == RowSlots(types, row)[..n - 1] && row.cells[..n][..n - 1] == row.cells[..n - 1];
    }
  }

  lemma {:induction false} RowsSizeIs(types: seq<ColumnType>, rows: seq<Row>)
    requires RowsOk(types, rows)
    ensures SlotsSize(Slots(types, rows)) == RowsSize(rows)
    decreases |rows|
  {
    hide SlotOk;
    if rows != [] {
      var init, last := rows[..|rows| - 1], rows[|rows| - 1];
      RowsSizeIs(types, init);
      CellsSizeIs(types, last, |types|);
      assert RowSlots(types, last)[..|types|] == RowSlots(types, last) && last.cells[..|types|] == last.cells;
      SlotsSizeAppend(Slots(types, init), RowSlots(types, last));
    }
  }

  // The size accounted for rows is that of any message that holds them.
  lemma AccountedIs(types: seq<ColumnType>, rows: seq<Row>, t: Table)
    requires IsEncoding(types, rows, t)
    ensures Accounted(t) == RowsSize(rows)
  {
    hide SlotOk, Slots, Filter, RowsSize, CellsSize, SlotsSize;
    RowsSizeIs(types, rows);
    AllSlotsOk(types, rows);
    SlotsSizeIs(Slots(types, rows));
    TextLengthIs(t, PoolCells(t, Strings));
    assert t.strings[..|t.strings|] == t.strings;
  }

  // A message is sent as soon as it reaches the limit: without its last row it is below it.
  ghost predicate BelowWithoutLast(types: seq<ColumnType>, rows: seq<Row>) {
    rows != [] && forall t :: IsEncoding(types, rows[..|rows| - 1], t) ==> Accounted(t) < 4000000
  }

  // The messages sent so far hold these rows.
  ghost predicate SentOk(types: seq<ColumnType>, sent: seq<Table>, sentRows: seq<seq<Row>>, bounded: bool) {
    && |sent| == |sentRows|
    && forall i :: 0 <= i < |sent| ==>
         IsEncoding(types, sentRows[i], sent[i]) && sentRows[i] != [] && (bounded ==> BelowWithoutLast(types, sentRows[i]))
  }

  lemma SentAppend(types: seq<ColumnType>, sent: seq<Table>, sentRows: seq<seq<Row>>, bounded: bool, t: Table, rows: seq<Row>)
    requires SentOk(types, sent, sentRows, bounded)
    requires IsEncoding(types, rows, t) && rows != [] && (bounded ==> BelowWithoutLast(types, rows))
    ensures SentOk(types, sent + [t], sentRows + [rows], bounded)
  {
    hide IsEncoding, BelowWithoutLast;
  }

  lemma EmptyEncoding(types: seq<ColumnType>)
    ensures IsEncoding(types, [], EMPTY)
  {
  }

  lemma RowsSizeAppend(rows: seq<Row>, row: Row)
    ensures RowsSize(rows + [row]) == RowsSize(rows) + CellsSize(row.cells)
  {
    assert (rows + [row])[..|rows|] == rows;
  }

  lemma BelowAppend(types: seq<ColumnType>, rows: seq<Row>, row: Row)
    requires RowsSize(rows) < MAX_SIZE
    ensures BelowWithoutLast(types, rows + [row])
  {
    hide IsEncoding, Accounted, RowsSize;
    assert (rows + [row])[..|rows|] == rows;
    forall t | IsEncoding(types, rows, t)
      ensures Accounted(t) < 4000000
    {
      AccountedIs(types, rows, t);
    }
  }

  lemma BelowAsWhole(types: seq<ColumnType>, rows: seq<Row>)
    requires rows != [] && RowsSize(rows) < MAX_SIZE
    ensures BelowWithoutLast(types, rows)
  {
    var init, last := rows[..|rows| - 1], rows[|rows| - 1];
    assert rows == init + [last];
    BelowAppend(types, init, last);
  }

  // ---------------------------------------------------------------------------------------------
  // Writing one row.

  // A table that holds `rows` and the first cells of one more row.
  ghost predicate Partial(types: seq<ColumnType>, rows: seq<Row>, cells: seq<Cell>, t: Table) {
    && |cells| <= |types|
    && Packed(t, Slots(types, rows) + RowSlots(types, Row(0, cells))[..|cells|])
    && t.rows == |rows| && t.rowNumbers == RowNumbers(rows)
    && RowsOk(types, rows)
    && forall c :: 0 <= c < |cells| ==> SlotOk(Slot(types[c], cells[c]))
  }

  lemma PartialStart(types: seq<ColumnType>, rows: seq<Row>, t: Table)
    requires IsEncoding(types, rows, t)
    ensures Partial(types, rows, [], t)
  {
    hide Packed, Slots;
    assert Slots(types, rows) + RowSlots(types, Row(0, []))[..0] == Slots(types, rows);
  }

  lemma PartialStep(types: seq<ColumnType>, rows: seq<Row>, cells: seq<Cell>, t: Table, cell: Cell)
    requires Partial(types, rows, cells, t) && |cells| < |types| && SlotOk(Slot(types[|cells|], cell))
    ensures Partial(types, rows, cells + [cell], AppendValue(AppendNull(t, cell.Null?), cell))
  {
    hide Packed, Slots, SlotOk;
    var slot := Slot(types[|cells|], cell);
    var before := Slots(types, rows) + RowSlots(types, Row(0, cells))[..|cells|];
    PackedAppend(t, before, slot);
    assert before + [slot] == Slots(types, rows) + RowSlots(types, Row(0, cells + [cell]))[..|cells| + 1];
  }

  lemma PartialComplete(types: seq<ColumnType>, rows: seq<Row>, cells: seq<Cell>, t: Table, number: nat)
    requires Partial(types, rows, cells, t) && |cells| == |types|
    ensures IsEncoding(types, rows + [Row(number, cells)], t.(rowNumbers := t.rowNumbers + [number], rows := t.rows + 1))
  {
    hide Slots, SlotOk, Filter;
    var row := Row(number, cells);
    assert (rows + [row])[..|rows|] == rows;
    SlotsAppend(types, rows, row);
    assert RowSlots(types, Row(0, cells))[..|cells|] == RowSlots(types, row);
    var t' := t.(rowNumbers := t.rowNumbers + [number], rows := t.rows + 1);
    assert forall p: Pool :: PoolCells(t', p) == PoolCells(t, p);
    assert RowOk(types, row);
    assert RowNumbers(rows + [row]) == RowNumbers(rows) + [number];
  }

  lemma SlotsAppend(types: seq<ColumnType>, rows: seq<Row>, row: Row)
    ensures Slots(types, rows + [row]) == Slots(types, rows) + RowSlots(types, row)
  {
    assert (rows + [row])[..|rows|] == rows;
  }

  // A table left behind in the middle of a row holds no rows at all any more.
  lemma PartialIsCorrupt(types: seq<ColumnType>, t: Table, other: seq<Row>, flags: nat)
    requires |t.nulls| == t.rows * |types| + flags && flags > 0
    ensures !IsEncoding(types, other, t)
  {
    hide Packed, Slots;
    if IsEncoding(types, other, t) {
      EncodedNulls(types, other, t);
    }
  }

  lemma EncodedNulls(types: seq<ColumnType>, rows: seq<Row>, t: Table)
    requires IsEncoding(types, rows, t)
    ensures |t.nulls| == t.rows * |types|
  {
    SlotsLength(types, rows);
  }

  lemma CellsSizeAppend(rowData: RowData, col: nat)
    ensures rowData.Cells(col + 1) == rowData.Cells(col) + [rowData.CellAt(col)]
    ensures CellsSize(rowData.Cells(col + 1)) == CellsSize(rowData.Cells(col)) + CellSize(rowData.CellAt(col))
  {
    assert rowData.Cells(col + 1) == rowData.Cells(col) + [rowData.CellAt(col)];
    assert rowData.Cells(col + 1)[..col] == rowData.Cells(col);
  }

  lemma CellFits(types: seq<ColumnType>, rowData: RowData, col: nat)
    requires rowData.Typed(types) && col < |types| && rowData.Ready(types, col)
    ensures SlotOk(Slot(types[col], rowData.CellAt(col)))
  {
  }

  // One column written, seen as a step of the row.
  lemma CellWritten(types: seq<ColumnType>, rows: seq<Row>, rowData: RowData, col: nat, t: Table)
    requires rowData.Typed(types) && col < |types| && rowData.Ready(types, col)
    ensures var cell := rowData.CellAt(col);
            var t' := AppendValue(AppendNull(t, cell.Null?), cell);
            && t'.rows == t.rows && |t'.nulls| == |t.nulls| + 1
            && (Partial(types, rows, rowData.Cells(col), t) ==> Partial(types, rows, rowData.Cells(col + 1), t'))
  {
    hide Partial, SlotOk, RowData.Typed;
    CellFits(types, rowData, col);
    CellsSizeAppend(rowData, col);
    if Partial(types, rows, rowData.Cells(col), t) {
      PartialStep(types, rows, rowData.Cells(col), t, rowData.CellAt(col));
    }
  }

  // A set column has a value; an unset one counts as not null.
  lemma CellOfColumn(types: seq<ColumnType>, rowData: RowData, col: nat)
    requires rowData.Typed(types) && col < |types|
    ensures rowData.IsNull(col) ==> rowData.Ready(types, col) && rowData.CellAt(col) == Null
    ensures !rowData.IsNull(col) ==> (rowData.Ready(types, col) <==> types[col] != UNSUPPORTED && col in rowData.data)
    ensures !rowData.IsNull(col) && rowData.Ready(types, col) ==> rowData.CellAt(col) != Null && rowData.CellAt(col) == rowData.data[col]
  {
  }

  lemma NothingWritten(types: seq<ColumnType>, rowData: RowData, rows: seq<Row>, t: Table)
    ensures CellsSize(rowData.Cells(0)) == 0
    ensures IsEncoding(types, rows, t) ==> Partial(types, rows, rowData.Cells(0), t)
  {
    hide IsEncoding, Partial;
    assert rowData.Cells(0) == [];
    if IsEncoding(types, rows, t) {
      PartialStart(types, rows, t);
    }
  }

  lemma NullWritten(t: Table)
    ensures AppendValue(AppendNull(t, true), Null) == AppendNull(t, true)
    ensures AppendNull(t, false).rows == t.rows && |AppendNull(t, false).nulls| == |t.nulls| + 1
    ensures CellSize(Null) == 0
  {
  }

  lemma UnreadyFirst(rowData: RowData, types: seq<ColumnType>, c: nat)
    requires c < |types| && !rowData.Ready(types, c) && forall d :: 0 <= d < c ==> rowData.Ready(types, d)
    ensures FirstUnready(rowData, types, c)
  {
  }

  // The loop over the columns of one row: flags and values are appended as far as the row is complete.
  method WriteCells(types: seq<ColumnType>, rowData: RowData, table: Table, size: nat, ghost rows: seq<Row>)
    returns (table': Table, size': nat, fault: Option<EmitFault>)
    requires rowData.Typed(types)
    ensures fault == None <==> forall c :: 0 <= c < |types| ==> rowData.Ready(types, c)
    ensures fault.Some? ==> exists c ::
                && 0 <= c < |types| && FirstUnready(rowData, types, c)
                && fault == Some(if types[c] == UNSUPPORTED then UnsupportedColumn else MissingValue)
    ensures table'.rows == table.rows
    ensures fault.Some? ==> |table.nulls| < |table'.nulls| <= |table.nulls| + |types|
    ensures fault == None ==> size' == size + CellsSize(rowData.Cells(|types|))
    ensures fault == None && IsEncoding(types, rows, table) ==> Partial(types, rows, rowData.Cells(|types|), table')
  {
    hide *;
    table', size', fault := table, size, None;
    NothingWritten(types, rowData, rows, table);
    var col := 0;
    while col < |types|
      invariant col <= |types| && fault == None
      invariant table'.rows == table.rows && |table'.nulls| == |table.nulls| + col
      invariant forall c :: 0 <= c < col ==> rowData.Ready(types, c)
      invariant size' == size + CellsSize(rowData.Cells(col))
      invariant IsEncoding(types, rows, table) ==> Partial(types, rows, rowData.Cells(col), table')
    {
      CellOfColumn(types, rowData, col);
      CellsSizeAppend(rowData, col);
      NullWritten(table');
      if rowData.Ready(types, col) {
        CellWritten(types, rows, rowData, col, table');
      }
      var isNull := rowData.IsNull(col);
      table' := AppendNull(table', isNull);
      if !isNull {
        if types[col] == UNSUPPORTED {
          UnreadyFirst(rowData, types, col);
          fault := Some(UnsupportedColumn);
          return;
        }
        if col !in rowData.data {
          UnreadyFirst(rowData, types, col);
          fault := Some(MissingValue);
          return;
        }
        size' := size' + CellSize(rowData.data[col]);
        table' := AppendValue(table', rowData.data[col]);
      }
      col := col + 1;
    }
  }

  class SWIGResultHandler {
    const input: SWIGTableIterator
    const params: VMParams
    const types: seq<ColumnType>
    const emitServer: nat -> EmitReply
    var messageSize: nat
    var rowData: RowData
    var emitRequest: Table
    var rowsEmited: nat
    var exception: Option<EmitFault>
    var sent: seq<Table>

    // The rows of each message sent, and the rows that are still pending.
    ghost var sentRows: seq<seq<Row>>
    ghost var pending: seq<Row>

    // Outside the mode in which both sides run exactly once, messages are bounded.
    predicate Bounded() {
      !(params.inpIterType == EXACTLY_ONCE && params.outIterType == EXACTLY_ONCE)
    }

    // The rows accepted so far: those sent, followed by those pending.
    ghost function Accepted(): seq<Row>
      reads this`sentRows, this`pending
    {
      Flatten(sentRows) + pending
    }

    ghost predicate Valid()
      reads this
    {
      rowData.Typed(types) && Sound()
    }

    // The messages sent, and the one under construction, hold exactly the rows they should.
    ghost predicate Sound()
      reads this`sent, this`sentRows, this`emitRequest, this`messageSize, this`pending
    {
      && SentOk(types, sent, sentRows, Bounded())
      && IsEncoding(types, pending, emitRequest)
      && messageSize == Accounted(emitRequest)
      && (Bounded() ==> messageSize < 4000000)
    }

    constructor (input: SWIGTableIterator, types: seq<ColumnType>, emitServer: nat -> EmitReply)
      ensures this.input == input && this.params == input.params && this.types == types
      ensures Valid() && sent == [] && Accepted() == [] && rowsEmited == 1 && exception == None && rowData == NOTHING_SET
    {
      this.input, this.params, this.types, this.emitServer := input, input.params, types, emitServer;
      messageSize, rowData, emitRequest, rowsEmited, exception, sent := 0, NOTHING_SET, EMPTY, 1, None, [];
      sentRows, pending := [], [];
      EmptyEncoding(types);
    }

    // Drops what is pending. Also the way out after a failed `Next`.
    method Reinitialize()
      requires SentOk(types, sent, sentRows, Bounded())
      modifies this
      ensures Valid() && sent == old(sent) && sentRows == old(sentRows) && pending == [] && rowsEmited == 0 && rowData == NOTHING_SET
    {
      rowsEmited, messageSize, emitRequest, rowData := 0, 0, EMPTY, NOTHING_SET;
      pending := [];
      EmptyEncoding(types);
    }

    // Sends what is pending, if anything; the answer only decides about an exception.
    method Flush()
      requires Valid()
      modifies this`sent, this`sentRows, this`pending, this`emitRequest, this`messageSize, this`exception
      ensures Valid() && Accepted() == old(Accepted()) && pending == []
      ensures sentRows == if old(pending) == [] then old(sentRows) else old(sentRows) + [old(pending)]
      ensures sent == if old(pending) == [] then old(sent) else old(sent) + [old(emitRequest)]
      ensures exception == if old(pending) == [] then old(exception) else ReplyFault(emitServer(|old(sent)|), old(exception))
    {
      hide IsEncoding, RowsSize, SentOk, Flatten, Accounted, BelowWithoutLast;
      AccountedIs(types, pending, emitRequest);
      if Bounded() && pending != [] {
        BelowAsWhole(types, pending);
      }
      Send();
    }

    // What `flush` does; the pending rows may have just reached the limit.
    method Send()
      requires SentOk(types, sent, sentRows, Bounded()) && IsEncoding(types, pending, emitRequest) && messageSize == Accounted(emitRequest)
      requires Bounded() && pending != [] ==> BelowWithoutLast(types, pending)
      modifies this`sent, this`sentRows, this`pending, this`emitRequest, this`messageSize, this`exception
      ensures SentOk(types, sent, sentRows, Bounded()) && IsEncoding(types, pending, emitRequest) && messageSize == Accounted(emitRequest) == 0
      ensures Accepted() == old(Accepted()) && pending == []
      ensures sentRows == if old(pending) == [] then old(sentRows) else old(sentRows) + [old(pending)]
      ensures sent == if old(pending) == [] then old(sent) else old(sent) + [old(emitRequest)]
      ensures exception == if old(pending) == [] then old(exception) else ReplyFault(emitServer(|old(sent)|), old(exception))
    {
      hide SentOk, Packed, Flatten, BelowWithoutLast;
      AccountedIs(types, pending, emitRequest);
      if emitRequest.rows > 0 {
        SentAppend(types, sent, sentRows, Bounded(), emitRequest, pending);
        FlattenAppend(sentRows, pending);
        var reply := emitServer(|sent|);
        sent := sent + [emitRequest];
        sentRows, pending := sentRows + [pending], [];
        emitRequest := EMPTY;
        messageSize := 0;
        EmptyEncoding(types);
        exception := ReplyFault(reply, exception);
      }
      assert Flatten(sentRows) + pending == old(Flatten(sentRows) + pending);
    }

    // Appends the row that has been set, and sends the message when it has reached the limit.
    method Next() returns (ok: bool)
      requires Valid()
      modifies this, params
      ensures ok <==> forall c :: 0 <= c < |types| ==> old(rowData).Ready(types, c)
      ensures rowsEmited == old(rowsEmited) + 1
      ensures ok ==> Valid() && Accepted() == old(Accepted()) + [Row(input.currentRow, old(rowData).Cells(|types|))] && rowData == NOTHING_SET
      ensures ok ==> var rows := old(pending) + [Row(input.currentRow, old(rowData).Cells(|types|))];
                if sent == old(sent) then pending == rows && sentRows == old(sentRows)
                else
                  && pending == [] && sentRows == old(sentRows) + [rows]
                  && |sent| == |old(sent)| + 1 && sent[..|old(sent)|] == old(sent) && Accounted(sent[|old(sent)|]) >= 4000000
      ensures ok && params.inpIterType == EXACTLY_ONCE && params.outIterType == EXACTLY_ONCE ==>
                sent == old(sent) && params.inpForceFinish == (old(params.inpForceFinish) || Accounted(emitRequest) >= 4000000)
      ensures ok && !(params.inpIterType == EXACTLY_ONCE && params.outIterType == EXACTLY_ONCE) ==>
                Accounted(emitRequest) < 4000000 && params.inpForceFinish == old(params.inpForceFinish)
      ensures !ok ==> exists c ::
                && 0 <= c < |types| && FirstUnready(old(rowData), types, c)
                && exception == Some(if types[c] == UNSUPPORTED then UnsupportedColumn else MissingValue)
      ensures !ok ==> sent == old(sent) && sentRows == old(sentRows) && forall rows :: !IsEncoding(types, rows, emitRequest)
    {
      hide IsEncoding, SentOk, RowsSize, CellsSize, Flatten, Partial, BelowWithoutLast, RowData.Cells, RowData.Ready, Accounted, FirstUnready;
      AccountedIs(types, pending, emitRequest);
      rowsEmited := rowsEmited + 1;
      ghost var row := Row(input.currentRow, rowData.Cells(|types|));
      EncodedNulls(types, pending, emitRequest);
      var table, size, fault := WriteCells(types, rowData, emitRequest, messageSize, pending);
      emitRequest, messageSize := table, size;
      if fault.Some? {
        exception := fault;
        forall rows
          ensures !IsEncoding(types, rows, emitRequest)
        {
          PartialIsCorrupt(types, emitRequest, rows, |emitRequest.nulls| - emitRequest.rows * |types|);
        }
        return false;
      }
      PartialComplete(types, pending, rowData.Cells(|types|), table, input.currentRow);
      RowsSizeAppend(pending, row);
      if Bounded() {
        BelowAppend(types, pending, row);
      }
      emitRequest := table.(rowNumbers := table.rowNumbers + [input.currentRow], rows := table.rows + 1);
      pending := pending + [row];
      AccountedIs(types, pending, emitRequest);
      rowData := NOTHING_SET;
      if messageSize >= MAX_SIZE {
        if params.inpIterType == EXACTLY_ONCE && params.outIterType == EXACTLY_ONCE {
          params.inpForceFinish := true;
        } else {
          Send();
        }
      }
      return true;
    }

    // The typed setters: `want` is the column type that the setter is for.
    method Set(col: nat, want: ColumnType, v: Cell)
      requires want != UNSUPPORTED && CellOfPool(v, PoolOf(want)) && rowData.Typed(types)
      modifies this`rowData, this`exception
      ensures rowData.Typed(types)
      ensures col >= |types| ==> exception == Some(NoSuchOutputColumn) && rowData == old(rowData)
      ensures col < |types| && types[col] != want ==> exception == Some(WrongOutputType) && rowData == old(rowData)
      ensures col < |types| && types[col] == want ==>
                exception == old(exception) && rowData.CellAt(col) == v && rowData.Ready(types, col)
      ensures rowData.SameBut(old(rowData), types, col)
    {
      if col >= |types| {
        exception := Some(NoSuchOutputColumn);
        return;
      }
      if types[col] != want {
        exception := Some(WrongOutputType);
        return;
      }
      rowData := RowData(rowData.nullData[col := false], rowData.data[col := v]);
    }

    method SetString(col: nat, v: string)
      requires rowData.Typed(types)
      modifies this`rowData, this`exception
      ensures rowData.Typed(types)
      ensures col < |types| && types[col] == STRING ==>
                exception == old(exception) && rowData.CellAt(col) == TextCell(CString(v)) && rowData.Ready(types, col)
      ensures !(col < |types| && types[col] == STRING) ==> exception.Some? && rowData == old(rowData)
      ensures rowData.SameBut(old(rowData), types, col)
    {
      Set(col, STRING, TextCell(CString(v)));
    }

    method SetNull(col: nat)
      requires rowData.Typed(types)
      modifies this`rowData
      ensures rowData.Typed(types)
      ensures col < |types| ==> rowData.CellAt(col) == Null && rowData.Ready(types, col)
      ensures rowData.SameBut(old(rowData), types, col)
    {
      rowData := rowData.(nullData := rowData.nullData[col := true]);
    }
  }
}
