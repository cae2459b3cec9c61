/** The row iterator of a UDF (`SWIGTableIterator_Impl`): cells recovered through running pool counters. */
module TableIterator {
  import opened Wrappers
  import opened Sequences
  import opened Packet

  datatype IterType = EXACTLY_ONCE | MULTIPLE

  // The part of the VM parameters that the iterator and the result handler share.
  class VMParams {
    const inpIterType: IterType
    const outIterType: IterType
    var inpForceFinish: bool

    constructor (inp: IterType, out: IterType)
      ensures inpIterType == inp && outIterType == out && !inpForceFinish
    {
      inpIterType, outIterType, inpForceFinish := inp, out, false;
    }
  }

  // The database's answer to a NEXT or RESET request.
  datatype Response =
    | NextData(table: Table)
    | ResetData(table: Table)
    | Done
    | Close(message: bool)
    | OtherType
    | Unparsable
    | WrongConnection

  // What the shared exception handler has been told last, by error code.
  datatype Fault =
    | NotEnoughNulls            // 1056
    | UnsupportedType           // 1057
    | ParseFailed               // 1060
    | WrongConnectionId         // 1061
    | ClosedByServer
    | WrongMessageType          // 1063
    | NotEnoughValues           // 1064
    | IterationFinished         // 1065
    | NoSuchColumn              // 1066, 1068, ...
    | WrongColumnType           // 1067, 1069, ...

  // How many values of each pool have been passed.
  datatype Counters = Counters(strings: nat, bools: nat, int32s: nat, int64s: nat, doubles: nat) {
    function Get(p: Pool): nat {
      match p
      case Doubles => doubles
      case Int32s => int32s
      case Int64s => int64s
      case Strings => strings
      case Bools => bools
    }

    function Bump(p: Pool): Counters {
      match p
      case Doubles => this.(doubles := doubles + 1)
      case Int32s => this.(int32s := int32s + 1)
      case Int64s => this.(int64s := int64s + 1)
      case Strings => this.(strings := strings + 1)
      case Bools => this.(bools := bools + 1)
    }
  }

  const ZERO := Counters(0, 0, 0, 0, 0)

  // The counters after the first `n` slots.
  ghost predicate Counted(c: Counters, slots: seq<Slot>, n: nat)
    requires n <= |slots|
  {
    forall p: Pool :: c.Get(p) == |Filter(slots[..n], p)|
  }

  // The offsets of the non-null cells among the first `n` columns of the row that starts at slot `base`.
  ghost predicate OffsetsOk(types: seq<ColumnType>, offsets: seq<nat>, slots: seq<Slot>, base: nat, n: nat) {
    && n <= |types| == |offsets| && base + n <= |slots|
    && forall c :: 0 <= c < n && slots[base + c].cell != Null && types[c] != UNSUPPORTED ==>
         offsets[c] == |Filter(slots[..base + c], PoolOf(types[c]))|
  }

  // The slots from `base` on are one row of these column types.
  ghost predicate RowAt(types: seq<ColumnType>, slots: seq<Slot>, base: nat) {
    base + |types| <= |slots| && forall c :: 0 <= c < |types| ==> slots[base + c].t == types[c]
  }

  lemma CountStep(counters: Counters, slots: seq<Slot>, n: nat)
    requires n < |slots| && SlotOk(slots[n]) && Counted(counters, slots, n)
    ensures Counted(if slots[n].cell.Null? then counters else counters.Bump(PoolOf(slots[n].t)), slots, n + 1)
  {
    hide Filter;
    var next, read := if slots[n].cell.Null? then counters else counters.Bump(PoolOf(slots[n].t)), slots[..n + 1];
    forall p: Pool
      ensures next.Get(p) == |Filter(read, p)|
    {
      FilterNext(slots, n, p);
    }
  }

  lemma CountedNothing(slots: seq<Slot>)
    ensures Counted(ZERO, slots, 0)
  {
    assert slots[..0] == [];
  }

  // One pass over the columns of the row that starts at null flag `base`, as far as it gets.
  method ScanColumns(types: seq<ColumnType>, nulls: seq<bool>, base: nat, counters: Counters, offsets: seq<nat>, ghost slots: seq<Slot>)
    returns (counters': Counters, offsets': seq<nat>, fault: Option<Fault>)
    requires base + |types| <= |nulls| && |offsets| == |types|
    ensures |offsets'| == |types|
    ensures fault == None || fault == Some(UnsupportedType)
    ensures fault.Some? <==> exists c :: 0 <= c < |types| && types[c] == UNSUPPORTED && !nulls[base + c]
    ensures SlotsOk(slots) && nulls == NullFlags(slots) && RowAt(types, slots, base) && Counted(counters, slots, base) ==>
              && fault == None
              && Counted(counters', slots, base + |types|)
              && OffsetsOk(types, offsets', slots, base, |types|)
  {
    hide Filter, Counted, PoolOf;
    ghost var good := SlotsOk(slots) && nulls == NullFlags(slots) && RowAt(types, slots, base) && Counted(counters, slots, base);
    counters', offsets', fault := counters, offsets, None;
    var column := 0;
    while column < |types|
      invariant column <= |types| && |offsets'| == |types| && fault == None
      invariant forall c :: 0 <= c < column && types[c] == UNSUPPORTED ==> nulls[base + c]
      invariant good ==> Counted(counters', slots, base + column) && OffsetsOk(types, offsets', slots, base, column)
    {
      if good {
        CountStep(counters', slots, base + column);
        CountedAt(counters', slots, base + column);
      }
      if !nulls[base + column] {
        if types[column] == UNSUPPORTED {
          fault := Some(UnsupportedType);
          return;
        }
        var pool := PoolOf(types[column]);
        offsets' := offsets'[column := counters'.Get(pool)];
        counters' := counters'.Bump(pool);
      }
      column := column + 1;
    }
  }

  lemma CountedAt(c: Counters, slots: seq<Slot>, n: nat)
    requires n <= |slots| && Counted(c, slots, n)
    ensures forall p: Pool :: c.Get(p) == |Filter(slots[..n], p)|
  {
  }

  // ---------------------------------------------------------------------------------------------
  // What the database sends.

  // From request `from` on, the answers are these nonempty packets and then DONE. The first answers a
  // RESET if `reset`, all others a NEXT.
  ghost predicate Sends(server: nat -> Response, from: nat, types: seq<ColumnType>, packets: seq<seq<Row>>, reset: bool) {
    && (forall i :: 0 <= i < |packets| ==>
          && packets[i] != []
          && (if reset && i == 0 then server(from + i).ResetData? else server(from + i).NextData?)
          && IsEncoding(types, packets[i], server(from + i).table))
    && server(from + |packets|) == Done
  }

  // What a getter returns for a null.
  function DefaultValue(t: ColumnType): Cell {
    match t
    case DOUBLE => DoubleCell(0)
    case INT32 => Int32Cell(0)
    case INT64 => Int64Cell(0)
    case NUMERIC => TextCell("0")
    case TIMESTAMP => TextCell("1970-01-01 00:00:00.00 0000")
    case DATE => TextCell("1970-01-01")
    case BOOLEAN => BoolCell(false)
    case _ => TextCell("")
  }

  // What it returns for a column that is missing or of another type. (The empty text that the boolean
  // getter returns there converts to true.)
  function ErrorValue(t: ColumnType): Cell {
    match t
    case DOUBLE => DoubleCell(0)
    case INT32 => Int32Cell(0)
    case INT64 => Int64Cell(0)
    case BOOLEAN => BoolCell(true)
    case _ => TextCell("")
  }

  // The values, one by one.
  lemma NullValues()
    ensures DefaultValue(DOUBLE) == DoubleCell(0) && DefaultValue(INT32) == Int32Cell(0) && DefaultValue(INT64) == Int64Cell(0)
    ensures DefaultValue(NUMERIC) == TextCell("0") && DefaultValue(DATE) == TextCell("1970-01-01")
    ensures DefaultValue(TIMESTAMP) == TextCell("1970-01-01 00:00:00.00 0000")
    ensures DefaultValue(STRING) == TextCell("") && DefaultValue(BOOLEAN) == BoolCell(false)
  {
  }

  lemma ErrorValues()
    ensures ErrorValue(DOUBLE) == DoubleCell(0) && ErrorValue(INT32) == Int32Cell(0) && ErrorValue(INT64) == Int64Cell(0)
    ensures forall t :: t in {NUMERIC, TIMESTAMP, DATE, STRING} ==> ErrorValue(t) == TextCell("")
    ensures ErrorValue(BOOLEAN) == BoolCell(true)
  {
  }

  lemma DefaultFits(t: ColumnType)
    requires t != UNSUPPORTED
    ensures CellOfPool(DefaultValue(t), PoolOf(t)) && CellOfPool(ErrorValue(t), PoolOf(t))
  {
  }

  // The answer accepted for a request, or why there is no row.
  function Accept(r: Response, reset: bool): Result<Table, Option<Fault>> {
    match r
    case NextData(table) => if reset then Err(Some(WrongMessageType)) else Ok(table)
    case ResetData(table) => if reset then Ok(table) else Err(Some(WrongMessageType))
    case Done => Err(None)
    case Close(message) => Err(if message then Some(ClosedByServer) else None)
    case OtherType => Err(Some(WrongMessageType))
    case Unparsable => Err(Some(ParseFailed))
    case WrongConnection => Err(Some(WrongConnectionId))
  }

  // Which answers bring rows, which only end the rows, and which raise what.
  lemma Acceptance(table: Table)
    ensures Accept(NextData(table), false) == Ok(table) && Accept(ResetData(table), true) == Ok(table)
    ensures Accept(NextData(table), true) == Accept(ResetData(table), false) == Err(Some(WrongMessageType))
    ensures forall reset ::
              && Accept(Done, reset) == Accept(Close(false), reset) == Err(None)
              && Accept(Close(true), reset) == Err(Some(ClosedByServer))
              && Accept(OtherType, reset) == Err(Some(WrongMessageType))
              && Accept(Unparsable, reset) == Err(Some(ParseFailed))
              && Accept(WrongConnection, reset) == Err(Some(WrongConnectionId))
  {
  }

  function TableOf(r: Response): Table {
    match r
    case NextData(table) => table
    case ResetData(table) => table
    case _ => EMPTY
  }

  // The rows from row `k` of packet `n` on.
  function RowsFrom(packets: seq<seq<Row>>, n: nat, k: nat): seq<Row>
    requires n < |packets| && k <= |packets[n]|
  {
    packets[n][k..] + Flatten(packets[n + 1..])
  }

  // The counters and offsets at row `k` of a packet.
  ghost predicate ReadingRow(types: seq<ColumnType>, rows: seq<Row>, k: nat, counters: Counters, offsets: seq<nat>) {
    var slots, base := Slots(types, rows), k * |types|;
    && base + |types| <= |slots|
    && Counted(counters, slots, base + |types|)
    && OffsetsOk(types, offsets, slots, base, |types|)
  }

  class SWIGTableIterator {
    const params: VMParams
    const types: seq<ColumnType>
    const server: nat -> Response
    var requests: nat
    var response: Table
    var rowsReceived: nat
    var valuesPerRow: Counters
    var colOffsets: seq<nat>
    var currentRow: nat
    var rowsCompleted: nat
    var rowsGroupCompleted: nat
    var wasNull: bool
    var exception: Option<Fault>

    // The packets of the current iteration, the request that asked for the first of them (a RESET if
    // `byReset`), and the index of the packet that is being read.
    ghost var packets: seq<seq<Row>>
    ghost var first: nat
    ghost var byReset: bool
    ghost var packet: nat

    ghost predicate AtRow()
      reads this
    {
      && packet < |packets| && requests == first + packet + 1
      && rowsReceived == |packets[packet]| && rowsCompleted < rowsReceived
      && IsEncoding(types, packets[packet], response)
      && currentRow == packets[packet][rowsCompleted].number
      && ReadingRow(types, packets[packet], rowsCompleted, valuesPerRow, colOffsets)
    }

    // The iterator stands at a row of the packets that the database sends, or behind the last one.
    ghost predicate Valid()
      reads this
    {
      && |colOffsets| == |types|
      && Sends(server, first, types, packets, byReset)
      && (if rowsReceived == 0 then packet == |packets| else AtRow())
    }

    // The rows from the current one on.
    ghost function Remaining(): seq<Row>
      reads this
    {
      if packet < |packets| && rowsCompleted <= |packets[packet]| then RowsFrom(packets, packet, rowsCompleted) else []
    }

    method IncrementColOffsets(reset: bool, ghost rows: seq<Row>)
      requires |colOffsets| == |types|
      modifies this`currentRow, this`valuesPerRow, this`colOffsets, this`exception
      ensures |colOffsets| == |types|
      ensures |response.nulls| < (rowsCompleted + 1) * |types| ==> exception == Some(NotEnoughNulls)
      ensures IsEncoding(types, rows, response) && rowsCompleted < |rows| &&
              (if reset then rowsCompleted == 0 else Counted'(old(valuesPerRow), Slots(types, rows), rowsCompleted * |types|)) ==>
                && currentRow == rows[rowsCompleted].number
                && ReadingRow(types, rows, rowsCompleted, valuesPerRow, colOffsets)
                && exception == old(exception)
    {
      hide Slots, Packed, OffsetsOk, Counted;
      currentRow := if rowsCompleted < |response.rowNumbers| then response.rowNumbers[rowsCompleted] else 0;
      if reset {
        valuesPerRow := ZERO;
      }
      var nullIndex := rowsCompleted * |types|;
      ghost var slots := Slots(types, rows);
      ghost var good := IsEncoding(types, rows, response) && rowsCompleted < |rows| &&
                        (if reset then rowsCompleted == 0 else Counted'(valuesPerRow, slots, nullIndex));
      if good {
        EncodedRow(types, rows, response, rowsCompleted);
        CountedNothing(slots);
      }
      if |response.nulls| <= nullIndex + |types| - 1 {
        exception := Some(NotEnoughNulls);
        return;
      }
      var counters, offsets, fault := ScanColumns(types, response.nulls, nullIndex, valuesPerRow, colOffsets, slots);
      valuesPerRow, colOffsets := counters, offsets;
      if fault.Some? {
        exception := fault;
      }
    }

    // Sends a NEXT or RESET request and takes in the answer.
    method ReceiveNextData(reset: bool, ghost rows: seq<Row>)
      requires |colOffsets| == |types|
      modifies this`requests, this`response, this`rowsReceived, this`rowsCompleted
      modifies this`currentRow, this`valuesPerRow, this`colOffsets, this`exception
      ensures |colOffsets| == |types| && requests == old(requests) + 1 && rowsCompleted == 0
      ensures response == TableOf(server(old(requests)))
      ensures match Accept(server(old(requests)), reset)
              case Ok(table) => rowsReceived == table.rows
              case Err(fault) => rowsReceived == 0 && exception == if fault.Some? then fault else old(exception)
      ensures Accept(server(old(requests)), reset).Ok? && IsEncoding(types, rows, response) && rows != [] ==>
                && currentRow == rows[0].number
                && ReadingRow(types, rows, 0, valuesPerRow, colOffsets)
                && exception == old(exception)
    {
      hide IsEncoding, ReadingRow;
      rowsReceived, rowsCompleted := 0, 0;
      var answer := server(requests);
      requests := requests + 1;
      response := TableOf(answer);
      match Accept(answer, reset) {
        case Err(fault) =>
          if fault.Some? {
            exception := fault;
          }
          return;
        case Ok(table) =>
          rowsReceived := table.rows;
          IncrementColOffsets(true, rows);
      }
    }

    constructor (params: VMParams, types: seq<ColumnType>, server: nat -> Response, ghost packets: seq<seq<Row>>)
      requires Sends(server, 0, types, packets, false)
      ensures this.params == params && this.types == types && this.server == server
      ensures Valid() && Remaining() == Flatten(packets) && this.packets == packets
      ensures rowsGroupCompleted == 1 && exception == None
    {
      this.params, this.types, this.server := params, types, server;
      this.packets, first, byReset, packet := packets, 0, false, 0;
      requests, response, rowsReceived, valuesPerRow := 0, EMPTY, 0, ZERO;
      colOffsets := seq(|types|, _ => 0);
      currentRow, rowsCompleted, rowsGroupCompleted, wasNull, exception := 0xFFFF_FFFF_FFFF_FFFF, 0, 1, false, None;
      new;
      StartIteration(false);
    }

    // The request that starts an iteration over `packets`.
    method StartIteration(reset: bool)
      requires |colOffsets| == |types| && Sends(server, requests, types, packets, reset)
      requires first == requests && byReset == reset && packet == 0
      modifies this`requests, this`response, this`rowsReceived, this`rowsCompleted
      modifies this`currentRow, this`valuesPerRow, this`colOffsets, this`exception
      ensures Valid() && Remaining() == Flatten(packets) && exception == old(exception)
    {
      hide IsEncoding, ReadingRow, Sends, Accept, TableOf;
      Answer(server, first, types, packets, reset, 0);
      ReceiveNextData(reset, if packets == [] then [] else packets[0]);
      if packets != [] {
        EncodingRows(types, packets[0], response);
        assert packets[0][0..] == packets[0];
      }
    }

    method Reinitialize(ghost packets: seq<seq<Row>>)
      requires |colOffsets| == |types| && Sends(server, requests, types, packets, false)
      modifies this
      ensures Valid() && Remaining() == Flatten(packets) && this.packets == packets && rowsGroupCompleted == 1 && exception == old(exception)
    {
      hide Sends, AtRow;
      this.packets, first, byReset, packet := packets, requests, false, 0;
      rowsCompleted, rowsGroupCompleted := 0, 1;
      valuesPerRow := ZERO;
      StartIteration(false);
    }

    method Reset(ghost packets: seq<seq<Row>>)
      requires |colOffsets| == |types| && Sends(server, requests, types, packets, true)
      modifies this, params
      ensures Valid() && Remaining() == Flatten(packets) && this.packets == packets && rowsGroupCompleted == 1 && exception == old(exception)
      ensures !params.inpForceFinish
    {
      hide Sends, AtRow;
      this.packets, first, byReset, packet := packets, requests, true, 0;
      rowsGroupCompleted := 1;
      params.inpForceFinish := false;
      StartIteration(true);
    }

    method Eot() returns (eot: bool)
      requires Valid()
      ensures eot <==> Remaining() == []
    {
      hide IsEncoding, ReadingRow;
      eot := rowsReceived == 0;
    }

    lemma CurrentRowNumber()
      requires Valid() && Remaining() != []
      ensures currentRow == Remaining()[0].number
    {
      hide IsEncoding, ReadingRow;
    }

    // Moves to the next row, fetching the next packet when the current one is used up.
    method Next() returns (more: bool)
      requires Valid()
      modifies this
      ensures old(Remaining()) == [] ==> !more && exception == Some(IterationFinished) && Valid() && Remaining() == []
      ensures old(Remaining()) != [] && params.inpForceFinish ==> !more
      ensures old(Remaining()) != [] && !params.inpForceFinish ==>
                && Valid() && packets == old(packets)
                && Remaining() == old(Remaining())[1..]
                && (more <==> Remaining() != [])
                && rowsGroupCompleted == old(rowsGroupCompleted) + 1
                && exception == old(exception)
    {
      hide IsEncoding, ReadingRow, Sends, Accept, TableOf, RowsFrom;
      if rowsReceived == 0 {
        exception := Some(IterationFinished);
        return false;
      }
      FirstRemaining(packets, packet, rowsCompleted);
      StepRemaining(packets, packet, rowsCompleted);
      ghost var rows := packets[packet];
      ReadingNextRow(types, rows, response, rowsCompleted, valuesPerRow, colOffsets);
      rowsCompleted := rowsCompleted + 1;
      rowsGroupCompleted := rowsGroupCompleted + 1;
      if params.inpForceFinish {
        return false;
      }
      if rowsCompleted >= rowsReceived {
        packet := packet + 1;
        Answer(server, first, types, packets, byReset, packet);
        ReceiveNextData(false, if packet < |packets| then packets[packet] else []);
        if packet < |packets| {
          EncodingRows(types, packets[packet], response);
        }
        return rowsReceived != 0;
      }
      IncrementColOffsets(false, rows);
      return true;
    }

    // `check_value`: the pool index of a column of the current row; None when it is null or missing.
    method CheckValue(col: nat, available: nat) returns (index: Option<nat>)
      requires |colOffsets| == |types| && col < |types|
      modifies this`wasNull, this`exception
      ensures wasNull <==> index == None
      ensures index.Some? ==> index.value == colOffsets[col] < available && exception == old(exception)
      ensures var at := |types| * rowsCompleted + col;
              if at >= |response.nulls| then index == None && exception == Some(NotEnoughValues)
              else if response.nulls[at] then index == None && exception == old(exception)
              else if colOffsets[col] >= available then index == None && exception == Some(NotEnoughValues)
              else index.Some?
    {
      wasNull := false;
      var at := |types| * rowsCompleted + col;
      if at >= |response.nulls| {
        exception, wasNull := Some(NotEnoughValues), true;
        return None;
      }
      wasNull := response.nulls[at];
      if wasNull {
        return None;
      }
      if colOffsets[col] >= available {
        exception, wasNull := Some(NotEnoughValues), true;
        return None;
      }
      return Some(colOffsets[col]);
    }

    // The typed getters: `want` is the column type that the getter is for.
    method Get(col: nat, want: ColumnType) returns (v: Cell)
      requires Valid() && want != UNSUPPORTED
      modifies this`wasNull, this`exception
      ensures Valid() && Remaining() == old(Remaining())
      ensures CellOfPool(v, PoolOf(want))
      ensures col >= |types| ==> wasNull && exception == Some(NoSuchColumn) && v == ErrorValue(want)
      ensures col < |types| && types[col] != want ==> wasNull && exception == Some(WrongColumnType) && v == ErrorValue(want)
      ensures col < |types| && types[col] == want && Remaining() != [] ==>
                && |Remaining()[0].cells| == |types|
                && var cell := Remaining()[0].cells[col];
                   wasNull == cell.Null? && v == (if cell.Null? then DefaultValue(want) else cell) && exception == old(exception)
    {
      hide Packed, Slots, Filter, Counted, PoolCells, PoolOf, DefaultValue, ErrorValue, CellOfPool;
      DefaultFits(want);
      if col >= |types| {
        exception, wasNull := Some(NoSuchColumn), true;
        return ErrorValue(want);
      }
      if types[col] != want {
        exception, wasNull := Some(WrongColumnType), true;
        return ErrorValue(want);
      }
      if rowsReceived > 0 {
        CellAt(types, packets[packet], response, rowsCompleted, valuesPerRow, colOffsets, col);
      }
      var pool := PoolCells(response, PoolOf(want));
      var index := CheckValue(col, |pool|);
      return if index.None? then DefaultValue(want) else pool[index.value];
    }
  }

  ghost predicate Counted'(c: Counters, slots: seq<Slot>, n: nat) {
    n <= |slots| && Counted(c, slots, n)
  }

  lemma RowFits(k: nat, n: nat, cols: nat)
    requires k < n
    ensures k * cols + cols <= n * cols
  {
    assert (k + 1) * cols <= n * cols;
  }

  lemma RowTypes(types: seq<ColumnType>, rows: seq<Row>, k: nat)
    requires RowsOk(types, rows) && k < |rows|
    ensures RowAt(types, Slots(types, rows), k * |types|)
  {
    hide Slots, SlotOk, RowsOk;
    SlotsLength(types, rows);
    RowFits(k, |rows|, |types|);
    forall c | 0 <= c < |types|
      ensures Slots(types, rows)[k * |types| + c].t == types[c]
    {
      SlotAt(types, rows, k, c);
    }
  }

  // A row of an encoded packet, as the column scan needs it.
  lemma EncodedRow(types: seq<ColumnType>, rows: seq<Row>, t: Table, k: nat)
    requires IsEncoding(types, rows, t) && k < |rows|
    ensures k * |types| + |types| <= |Slots(types, rows)| == |t.nulls|
    ensures SlotsOk(Slots(types, rows)) && t.nulls == NullFlags(Slots(types, rows)) && RowAt(types, Slots(types, rows), k * |types|)
    ensures t.rowNumbers == RowNumbers(rows)
  {
    hide Slots, SlotOk, RowsOk, Filter, PoolCells;
    RowTypes(types, rows, k);
    AllSlotsOk(types, rows);
  }

  lemma {:induction false} AllSlotsOk(types: seq<ColumnType>, rows: seq<Row>)
    requires RowsOk(types, rows)
    ensures SlotsOk(Slots(types, rows))
    decreases |rows|
  {
    hide SlotOk;
    if rows != [] {
      AllSlotsOk(types, rows[..|rows| - 1]);
      var last := rows[|rows| - 1];
      forall c | 0 <= c < |types|
        ensures SlotOk(RowSlots(types, last)[c])
      {
        assert SlotOk(Slot(types[c], last.cells[c]));
      }
    }
  }

  lemma EncodingRows(types: seq<ColumnType>, rows: seq<Row>, t: Table)
    requires IsEncoding(types, rows, t)
    ensures t.rows == |rows|
  {
  }

  lemma Answer(server: nat -> Response, from: nat, types: seq<ColumnType>, packets: seq<seq<Row>>, reset: bool, n: nat)
    requires Sends(server, from, types, packets, reset) && n <= |packets|
    ensures n == |packets| ==> Accept(server(from + n), n == 0 && reset) == Err(None)
    ensures n < |packets| ==>
              && packets[n] != []
              && Accept(server(from + n), n == 0 && reset) == Ok(TableOf(server(from + n)))
              && IsEncoding(types, packets[n], TableOf(server(from + n)))
  {
    hide IsEncoding;
  }

  lemma StepRemaining(packets: seq<seq<Row>>, n: nat, k: nat)
    requires n < |packets| && k < |packets[n]|
    ensures RowsFrom(packets, n, k) != []
    ensures k + 1 < |packets[n]| ==> RowsFrom(packets, n, k + 1) == RowsFrom(packets, n, k)[1..] != []
    ensures k + 1 == |packets[n]| && n + 1 < |packets| && packets[n + 1] != [] ==> RowsFrom(packets, n + 1, 0) != []
    ensures k + 1 == |packets[n]| ==>
              RowsFrom(packets, n, k)[1..] == if n + 1 == |packets| then [] else RowsFrom(packets, n + 1, 0)
  {
    if k + 1 == |packets[n]| && n + 1 < |packets| {
      assert packets[n + 1..][0] == packets[n + 1] && packets[n + 1..][1..] == packets[n + 2..];
      assert packets[n + 1][0..] == packets[n + 1];
    }
  }

  // The counters after one row are those before the next.
  lemma ReadingNextRow(types: seq<ColumnType>, rows: seq<Row>, t: Table, k: nat, counters: Counters, offsets: seq<nat>)
    requires ReadingRow(types, rows, k, counters, offsets)
    ensures Counted'(counters, Slots(types, rows), (k + 1) * |types|)
  {
    OneMoreRow(k + 1, |types|);
  }

  // The offset of a non-null column leads to its cell.
  lemma CellAt(types: seq<ColumnType>, rows: seq<Row>, t: Table, k: nat, counters: Counters, offsets: seq<nat>, col: nat)
    requires IsEncoding(types, rows, t) && k < |rows| && ReadingRow(types, rows, k, counters, offsets) && col < |types|
    ensures |rows[k].cells| == |types| && |types| * k + col < |t.nulls|
    ensures t.nulls[|types| * k + col] == rows[k].cells[col].Null?
    ensures rows[k].cells[col] != Null ==>
              types[col] != UNSUPPORTED &&
              var pool := PoolCells(t, PoolOf(types[col]));
              offsets[col] < |pool| && pool[offsets[col]] == rows[k].cells[col]
  {
    hide Filter, Slots, Counted, PoolCells, PoolOf;
    var slots, i := Slots(types, rows), k * |types| + col;
    EncodedRow(types, rows, t, k);
    SlotAt(types, rows, k, col);
    assert slots[i].t == types[col] && slots[i].cell == rows[k].cells[col] && SlotOk(slots[i]);
    if slots[i].cell != Null {
      SlotInPool(slots[i]);
      FilterAt(slots, i, PoolOf(types[col]));
    }
  }

  lemma FirstRemaining(packets: seq<seq<Row>>, n: nat, k: nat)
    requires n < |packets| && k < |packets[n]|
    ensures RowsFrom(packets, n, k) != [] && RowsFrom(packets, n, k)[0] == packets[n][k]
  {
  }

  // Reads the current row through the getters.
  method ReadRow(iter: SWIGTableIterator) returns (row: Row)
    requires iter.Valid() && iter.Remaining() != [] && Supported(iter.types)
    modifies iter`wasNull, iter`exception
    ensures iter.Valid() && iter.Remaining() == old(iter.Remaining())
    ensures row == iter.Remaining()[0] && iter.exception == old(iter.exception)
  {
    hide IsEncoding, ReadingRow, RowsFrom, DefaultValue;
    FirstRemaining(iter.packets, iter.packet, iter.rowsCompleted);
    assert RowOk(iter.types, iter.Remaining()[0]) by { RowsAreOk(iter.types, iter.packets[iter.packet], iter.response); }
    var cells := [];
    while |cells| < |iter.types|
      invariant iter.Valid() && iter.Remaining() == old(iter.Remaining())
      invariant |cells| <= |iter.types| == |iter.Remaining()[0].cells|
      invariant cells == iter.Remaining()[0].cells[..|cells|]
      invariant iter.exception == old(iter.exception)
    {
      var v := iter.Get(|cells|, iter.types[|cells|]);
      cells := cells + [if iter.wasNull then Null else v];
    }
    row := Row(iter.currentRow, cells);
  }

  lemma RowsAreOk(types: seq<ColumnType>, rows: seq<Row>, t: Table)
    requires IsEncoding(types, rows, t)
    ensures RowsOk(types, rows)
  {
  }

  // The loop of every reader: while not at the end, read and advance. It visits exactly the rows of all
  // packets in order, and at each of them `rowsCompleted()` is its position, counted from 1.
  method VisitRows(iter: SWIGTableIterator) returns (visited: seq<Row>, positions: seq<nat>)
    requires iter.Valid() && iter.rowsGroupCompleted == 1 && Supported(iter.types) && !iter.params.inpForceFinish
    modifies iter
    ensures visited == old(iter.Remaining())
    ensures |positions| == |visited| && forall i :: 0 <= i < |positions| ==> positions[i] == i + 1
    ensures iter.exception == old(iter.exception)
  {
    hide *;
    visited, positions := [], [];
    var eot := iter.Eot();
    while !eot
      invariant iter.Valid() && (eot <==> iter.Remaining() == [])
      invariant visited + iter.Remaining() == old(iter.Remaining())
      invariant |positions| == |visited| && iter.rowsGroupCompleted == |visited| + 1
      invariant forall i :: 0 <= i < |positions| ==> positions[i] == i + 1
      invariant iter.exception == old(iter.exception)
      decreases |iter.Remaining()|
    {
      var row := ReadRow(iter);
      positions := positions + [iter.rowsGroupCompleted];
      var more := iter.Next();
      visited := visited + [row];
      eot := iter.Eot();
    }
  }
}
