/** The test container's VM (`TestVM`): every input row is read, and emitted again under its row number. */
module ForwardInput {
  import opened Wrappers
  import opened Sequences
  import opened Packet
  import opened TableIterator
  import opened ResultHandler

  datatype TestFault = OnlySetEmits | NeedsOneColumn | NeedsStringColumns

  const ONE_STRING: seq<ColumnType> := [STRING]

  // A value as the setter keeps it: up to its first NUL.
  function ForwardedCell(cell: Cell): Cell {
    if cell.TextCell? then TextCell(CString(cell.s)) else cell
  }

  function ForwardedRow(row: Row): Row {
    Row(row.number, if |row.cells| == 1 then [ForwardedCell(row.cells[0])] else row.cells)
  }

  function Forwarded(rows: seq<Row>): (forwarded: seq<Row>)
    ensures |forwarded| == |rows|
    ensures forall i :: 0 <= i < |rows| ==> forwarded[i] == ForwardedRow(rows[i])
  {
    seq(|rows|, i requires 0 <= i < |rows| => ForwardedRow(rows[i]))
  }

  predicate NulFree(s: string) {
    forall i :: 0 <= i < |s| ==> s[i] != '\U{0000}'
  }

  ghost predicate RowNulFree(row: Row) {
    forall c :: 0 <= c < |row.cells| ==> row.cells[c].TextCell? ==> NulFree(row.cells[c].s)
  }

  lemma {:induction false} CStringIdentity(s: string)
    ensures CString(s) == s <==> NulFree(s)
    decreases |s|
  {
    if s != [] {
      CStringIdentity(s[1..]);
      assert s == [s[0]] + s[1..];
      if NulFree(s[1..]) && s[0] != '\0' {
        assert forall i :: 1 <= i < |s| ==> s[i] == s[1..][i - 1];
      }
      if !NulFree(s[1..]) {
        var i :| 0 <= i < |s[1..]| && s[1..][i] == '\0';
        assert s[i + 1] == '\0';
      }
    }
  }

  // Rows of one string column come out as they went in exactly when no value contains a NUL.
  lemma IdentityExactlyWithoutNul(rows: seq<Row>)
    requires RowsOk(ONE_STRING, rows)
    ensures Forwarded(rows) == rows <==> forall i :: 0 <= i < |rows| ==> RowNulFree(rows[i])
  {
    hide CString, NulFree;
    forall i | 0 <= i < |rows|
      ensures ForwardedRow(rows[i]) == rows[i] <==> RowNulFree(rows[i])
    {
      assert RowOk(ONE_STRING, rows[i]);
      var cell := rows[i].cells[0];
      assert rows[i].cells == [cell];
      if cell.TextCell? {
        CStringIdentity(cell.s);
      }
    }
    if forall i :: 0 <= i < |rows| ==> RowNulFree(rows[i]) {
      assert Forwarded(rows) == rows;
    } else {
      var i :| 0 <= i < |rows| && !RowNulFree(rows[i]);
      assert Forwarded(rows)[i] != rows[i];
    }
  }

  lemma ForwardedNext(rows: seq<Row>, n: nat)
    requires n < |rows|
    ensures Forwarded(rows[..n + 1]) == Forwarded(rows[..n]) + [ForwardedRow(rows[n])]
  {
  }

  class TestVM {
    const input: SWIGTableIterator
    const output: SWIGResultHandler

    ghost predicate Valid()
      reads this, input, output
    {
      && input.Valid() && output.Valid()
      && output.input == input && output.params == input.params
      && input.params.inpIterType == MULTIPLE && input.params.outIterType == MULTIPLE
    }

    constructor (input: SWIGTableIterator, output: SWIGResultHandler)
      ensures this.input == input && this.output == output
    {
      this.input, this.output := input, output;
    }

    method ForwardInput() returns (fault: Option<TestFault>)
      requires Valid() && !input.params.inpForceFinish && output.rowData == NOTHING_SET && output.Accepted() == []
      modifies input, output, input.params
      ensures Valid()
      ensures fault == if !(|input.types| == 1 == |output.types|) then Some(NeedsOneColumn)
                       else if !(input.types[0] == STRING == output.types[0]) then Some(NeedsStringColumns)
                       else None
      ensures fault.Some? ==> output.sent == old(output.sent) && input.Remaining() == old(input.Remaining())
      ensures fault == None ==> input.Remaining() == [] && output.pending == []
      ensures fault == None ==> Flatten(output.sentRows) == Forwarded(old(input.Remaining()))
    {
      hide SWIGTableIterator.Valid, SWIGTableIterator.Remaining, SWIGResultHandler.Valid, Forwarded, Flatten, SentOk, IsEncoding;
      if !(|input.types| == 1 == |output.types|) {
        return Some(NeedsOneColumn);
      }
      if input.types[0] != STRING || output.types[0] != STRING {
        return Some(NeedsStringColumns);
      }
      ghost var rows := input.Remaining();
      ghost var n := 0;
      var eot := input.Eot();
      while !eot
        invariant Valid() && !input.params.inpForceFinish && output.rowData == NOTHING_SET
        invariant n <= |rows| && input.Remaining() == rows[n..] && (eot <==> n == |rows|)
        invariant output.Accepted() == Forwarded(rows[..n])
        decreases |rows| - n
      {
        ForwardRow();
        ForwardedNext(rows, n);
        n := n + 1;
        eot := input.Eot();
      }
      output.Flush();
      fault := None;
    }

    // The body of the loop.
    method ForwardRow()
      requires Valid() && !input.params.inpForceFinish && input.Remaining() != []
      requires |input.types| == 1 == |output.types| && input.types[0] == STRING == output.types[0]
      modifies input, output, input.params
      ensures Valid() && !input.params.inpForceFinish && output.rowData == NOTHING_SET
      ensures input.Remaining() == old(input.Remaining())[1..]
      ensures output.Accepted() == old(output.Accepted()) + [ForwardedRow(old(input.Remaining())[0])]
    {
      hide SWIGTableIterator.Valid, SWIGTableIterator.Remaining, SWIGResultHandler.Sound, SWIGResultHandler.Accepted, CString, Flatten, RowData.Typed;
      ghost var row := input.Remaining()[0];
      var v := input.Get(0, STRING);
      if input.wasNull {
        output.SetNull(0);
      } else {
        output.SetString(0, v.s);
      }
      input.CurrentRowNumber();
      assert row.cells == [row.cells[0]];
      assert output.rowData.Cells(1) == [ForwardedCell(row.cells[0])];
      var ok := output.Next();
      var more := input.Next();
    }
  }

  // Sets up the VM, whose members are built before the call type is looked at.
  method NewTestVM(input: SWIGTableIterator, output: SWIGResultHandler) returns (vm: Result<TestVM, TestFault>)
    requires input.Valid() && output.Valid() && output.input == input && output.params == input.params
    ensures vm.Ok? <==> input.params.inpIterType == MULTIPLE && input.params.outIterType == MULTIPLE
    ensures vm.Ok? ==> fresh(vm.value) && vm.value.Valid() && vm.value.input == input && vm.value.output == output
    ensures vm.Err? ==> vm.error == OnlySetEmits
  {
    if input.params.inpIterType != MULTIPLE || input.params.outIterType != MULTIPLE {
      return Err(OnlySetEmits);
    }
    var created := new TestVM(input, output);
    return Ok(created);
  }

  // ---------------------------------------------------------------------------------------------
  // From the database's packets to a reader of the emitted ones.

  // The emitted messages, offered to another reader.
  function Replay(sent: seq<Table>): nat -> Response {
    (n: nat) => if n < |sent| then NextData(sent[n]) else Done
  }

  lemma ReplaySends(types: seq<ColumnType>, sent: seq<Table>, sentRows: seq<seq<Row>>, bounded: bool)
    requires SentOk(types, sent, sentRows, bounded)
    ensures Sends(Replay(sent), 0, types, sentRows, false)
  {
    hide IsEncoding, BelowWithoutLast;
  }

  lemma {:induction false} SentRowsOk(server: nat -> Response, from: nat, types: seq<ColumnType>, packets: seq<seq<Row>>, reset: bool)
    requires Sends(server, from, types, packets, reset)
    ensures RowsOk(types, Flatten(packets))
  {
    hide RowOk, Packed;
    forall i | 0 <= i < |packets|
      ensures RowsOk(types, packets[i])
    {
      assert IsEncoding(types, packets[i], server(from + i).table);
    }
    FlattenOk(types, packets);
  }

  lemma {:induction false} FlattenOk(types: seq<ColumnType>, packets: seq<seq<Row>>)
    requires forall i :: 0 <= i < |packets| ==> RowsOk(types, packets[i])
    ensures RowsOk(types, Flatten(packets))
    decreases |packets|
  {
    hide RowOk;
    if packets != [] {
      FlattenOk(types, packets[1..]);
    }
  }

  // The codec's round trip, for every list of supported column types: a reader of the messages that a handler
  // has sent recovers, cell by cell and null by null, the rows that its successful `Next` calls took.
  method ReadBack(handler: SWIGResultHandler) returns (visited: seq<Row>)
    requires handler.Valid() && Supported(handler.types)
    ensures visited == Flatten(handler.sentRows)
  {
    hide SWIGTableIterator.Valid, SWIGTableIterator.Remaining, SWIGResultHandler.Sound, Flatten, SentOk, Sends, Replay;
    HandlerSent(handler);
    ReplaySends(handler.types, handler.sent, handler.sentRows, handler.Bounded());
    var params := new VMParams(MULTIPLE, MULTIPLE);
    var reader := new SWIGTableIterator(params, handler.types, Replay(handler.sent), handler.sentRows);
    var positions;
    visited, positions := VisitRows(reader);
  }

  // The whole way: whatever packets the database sends, and however the handler cuts what it emits into
  // messages, a reader of these messages sees every row again, in order and with its number.
  method ForwardAndRead(params: VMParams, server: nat -> Response, emitServer: nat -> EmitReply, ghost packets: seq<seq<Row>>)
    returns (sent: seq<Table>, visited: seq<Row>)
    requires params.inpIterType == MULTIPLE && params.outIterType == MULTIPLE && !params.inpForceFinish
    requires Sends(server, 0, ONE_STRING, packets, false)
    modifies params
    ensures visited == Forwarded(Flatten(packets))
    ensures visited == Flatten(packets) <==> forall i :: 0 <= i < |Flatten(packets)| ==> RowNulFree(Flatten(packets)[i])
    ensures exists sentRows :: SentOk(ONE_STRING, sent, sentRows, true) && Flatten(sentRows) == visited
  {
    hide SWIGTableIterator.Valid, SWIGTableIterator.Remaining, SWIGResultHandler.Sound, Forwarded, Flatten, SentOk, Sends, IsEncoding, RowsOk, RowNulFree;
    var input := new SWIGTableIterator(params, ONE_STRING, server, packets);
    var output := new SWIGResultHandler(input, ONE_STRING, emitServer);
    var vm := NewTestVM(input, output);
    var fault := vm.value.ForwardInput();
    sent := output.sent;
    HandlerSent(output);
    SentRowsOk(server, 0, ONE_STRING, packets, false);
    IdentityExactlyWithoutNul(Flatten(packets));
    visited := ReadBack(output);
  }

  lemma HandlerSent(handler: SWIGResultHandler)
    requires handler.Valid()
    ensures SentOk(handler.types, handler.sent, handler.sentRows, handler.Bounded())
  {
  }
}
