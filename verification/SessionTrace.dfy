/** The messages of one client process, and which sequences of them are legal. */
module SessionTrace {
  import opened Wrappers

  // What the VM itself asks for while it works.
  datatype DataRequest = IMPORT | NEXT | RESET | EMIT

  datatype MessageType =
    | CLIENT | INFO | META | CLOSE | RUN | DONE | CLEANUP | FINISHED | CALL | RETURN | UNDEFINED_CALL
    | Data(r: DataRequest)
    | OTHER

  // A reply. `complete` says that the column types of a META are supported, or that a CALL brings the
  // arguments of its function; `single` is META's single-call flag, `nil` CALL's empty function.
  datatype Reply = Unparsable | Reply(t: MessageType, complete: bool, single: bool, nil: bool)

  // How a call into the VM ends. `Yes` and `No` stand for the VM or no VM, for run_'s true and false, and
  // for a result or none of a single call.
  datatype VmEnd = Yes | No | ThrewVm | ThrewOther

  // What happens in a session, in order: sockets are opened, messages are exchanged, and calls into the VM
  // end, leaving behind an exception message or the name of an undefined single call, or neither.
  datatype Event = Open | Send(t: MessageType) | Recv(r: Reply) | Vm(end: VmEnd, msg: bool, undefined: bool)

  predicate IsReply(r: Reply, t: MessageType) {
    r.Reply? && r.t == t
  }

  predicate Threw(end: VmEnd) {
    end == ThrewVm || end == ThrewOther
  }

  // ---------------------------------------------------------------------------------------------
  // The legal traces, by a monitor that reads them event by event. Apart from the VM's own requests, every
  // stage allows one request at most.

  datatype Stage =
    | Start       // no socket yet
    | Fresh       // a new socket
    | Informed    // INFO received
    | Rejected    // the handshake went wrong
    | Making      // META received: the VM is being made
    | Ready       // the next round's RUN is due
    | Called      // a RUN was answered: the VM works
    | Answering   // a single call's answer is due
    | Worked      // the round's DONE is due
    | Ended       // CLEANUP received for a RUN or DONE: the VM is shut down
    | Clean       // FINISHED is due
    | Failing     // an error: the VM is shut down
    | Doomed      // CLOSE is due
    | Finished    // FINISHED was answered
    | Closed      // CLOSE was answered

  // `asked` is the request whose reply is outstanding; `nil` tells that the single call to be made is the
  // empty one; `msg` and `undefined` are what the last call into the VM left behind.
  datatype Phase = Phase(stage: Stage, single: bool, asked: Option<MessageType>, nil: bool, msg: bool, undefined: bool)

  const START := Phase(Start, false, None, true, false, false)

  // The requests that may be sent at a stage.
  predicate MaySend(p: Phase, t: MessageType) {
    match p.stage
    case Fresh => t == CLIENT
    case Informed => t == META
    case Rejected => t == CLOSE
    case Making => t.Data?
    case Ready => t == RUN
    case Called => t.Data?
    case Answering => t == if p.undefined then UNDEFINED_CALL else RETURN
    case Worked => t == DONE
    case Ended => t.Data?
    case Clean => t == FINISHED
    case Failing => t.Data?
    case Doomed => t == CLOSE
    case _ => false
  }

  // A single call with its outcome: an exception is swallowed, a message is an error, and a missing result
  // is an exception before anything is sent.
  function AfterSingleCall(threw: bool, msg: bool, undefined: bool, result: bool): Stage {
    if threw then Ready
    else if msg then Failing
    else if undefined || result then Answering
    else Ready
  }

  // The stage after an accepted RUN. The empty single call calls nothing, and has no result.
  function AfterRun(p: Phase, nil: bool): Stage {
    if p.single && nil then AfterSingleCall(false, p.msg, p.undefined, false) else Called
  }

  // The stage after the reply to a request.
  function AfterReply(p: Phase, t: MessageType, r: Reply): Stage {
    match t
    case CLIENT => if IsReply(r, INFO) then Informed else Rejected
    case META => if IsReply(r, META) && r.complete then Making else Rejected
    case RUN =>
      if IsReply(r, CLEANUP) then Ended
      else if p.single && IsReply(r, CALL) then if r.complete then AfterRun(p, r.nil) else Failing
      else if IsReply(r, RUN) then AfterRun(p, p.nil)
      else Failing
    case RETURN => if IsReply(r, RETURN) || IsReply(r, CLEANUP) then Worked else Ready
    case UNDEFINED_CALL => if IsReply(r, UNDEFINED_CALL) then Worked else Ready
    case DONE =>
      if IsReply(r, CLEANUP) then Ended
      else if IsReply(r, DONE) || p.single then Ready
      else Failing
    case FINISHED => if IsReply(r, FINISHED) then Finished else Failing
    case CLOSE => Closed
    case _ => p.stage
  }

  // META announces the mode, and CALL the function.
  function Replied(p: Phase, t: MessageType, r: Reply): Phase {
    Phase(
      AfterReply(p, t, r),
      if t == META then IsReply(r, META) && r.single else p.single,
      None,
      if t == RUN && p.single && IsReply(r, CALL) then r.nil else p.nil,
      p.msg,
      p.undefined)
  }

  // The stage after a call into the VM.
  function AfterVm(p: Phase, end: VmEnd, msg: bool, undefined: bool): Option<Stage> {
    match p.stage
    case Making => Some(if end == Yes && !msg then Ready else Doomed)
    case Called =>
      Some(
        if p.single then AfterSingleCall(Threw(end), msg, undefined, end == Yes)
        else if end == ThrewOther || (end == No && msg) then Failing
        else if end == No then Called
        else Worked)
    case Ended => Some(if Threw(end) then Failing else if msg then Doomed else Clean)
    case Failing => Some(Doomed)
    case _ => None
  }

  function Next(p: Phase, e: Event): Option<Phase> {
    match e
    case Open =>
      // A new socket takes the place of one whose handshake went wrong or was never answered.
      if (p.asked == None && (p.stage == Start || p.stage == Rejected)) || (p.stage == Fresh && p.asked == Some(CLIENT)) then
        Some(START.(stage := Fresh))
      else None
    case Send(t) =>
      if p.asked == None && MaySend(p, t) then Some(p.(asked := Some(t))) else None
    case Recv(r) =>
      if p.asked == None then None else Some(Replied(p, p.asked.value, r))
    case Vm(end, msg, undefined) =>
      if p.asked != None then None
      else
        var stage :- AfterVm(p, end, msg, undefined);
        Some(p.(stage := stage, msg := msg, undefined := undefined))
  }

  function Monitor(trace: seq<Event>): Option<Phase>
    decreases |trace|
  {
    if trace == [] then Some(START)
    else
      var before := Monitor(trace[..|trace| - 1]);
      if before.None? then None else Next(before.value, trace[|trace| - 1])
  }

  ghost predicate Legal(trace: seq<Event>) {
    Monitor(trace).Some?
  }

  lemma MonitorAppend(trace: seq<Event>, e: Event)
    ensures Monitor(trace + [e]) == if Monitor(trace).None? then None else Next(Monitor(trace).value, e)
  {
    assert (trace + [e])[..|trace|] == trace;
  }

  // ---------------------------------------------------------------------------------------------
  // What holds of every legal trace.

  // The monitor's phase before event `i`.
  lemma {:induction false} Prefix(trace: seq<Event>, i: nat)
    requires Legal(trace) && i <= |trace|
    ensures Legal(trace[..i])
    decreases |trace|
  {
    if i == |trace| {
      assert trace[..i] == trace;
    } else {
      Prefix(trace[..|trace| - 1], i);
      assert trace[..|trace| - 1][..i] == trace[..i];
    }
  }

  function Before(trace: seq<Event>, i: nat): Phase
    requires Legal(trace) && i <= |trace|
  {
    Prefix(trace, i);
    Monitor(trace[..i]).value
  }

  lemma At(trace: seq<Event>, i: nat)
    requires Legal(trace) && i < |trace|
    ensures Next(Before(trace, i), trace[i]) == Some(Before(trace, i + 1))
  {
    Prefix(trace, i);
    Prefix(trace, i + 1);
    assert trace[..i + 1] == trace[..i] + [trace[i]];
    MonitorAppend(trace[..i], trace[i]);
  }

  // The request whose reply is outstanding is the last event, and was allowed.
  lemma AskedLast(trace: seq<Event>, i: nat)
    requires Legal(trace) && i <= |trace|
    ensures var p := Before(trace, i);
            p.asked.Some? ==> 0 < i && trace[i - 1] == Send(p.asked.value) && MaySend(p, p.asked.value)
    ensures 0 < i && trace[i - 1].Send? ==> Before(trace, i).asked == Some(trace[i - 1].t)
  {
    hide Before, AfterReply, AfterVm;
    if i == 0 {
      StartPhase(trace);
    } else {
      At(trace, i - 1);
    }
  }

  // Sends and replies alternate in the life of a socket: a reply follows its request at once, and every
  // request the reply to the one before, apart from calls into the VM. Only an unanswered CLIENT is given
  // up, with its socket.
  lemma Alternation(trace: seq<Event>, i: nat)
    requires Legal(trace) && i < |trace|
    ensures trace[i].Recv? ==> i > 0 && trace[i - 1].Send?
    ensures trace[i].Send? && i + 1 < |trace| ==> trace[i + 1].Recv? || (trace[i + 1].Open? && trace[i] == Send(CLIENT))
    ensures trace[i].Send? ==> i > 0 && (trace[i - 1].Recv? || trace[i - 1].Vm? || (trace[i - 1].Open? && trace[i] == Send(CLIENT)))
    ensures trace[i].Vm? ==> i > 0 && (trace[i - 1].Recv? || trace[i - 1].Vm?)
  {
    hide Before, AfterReply;
    AskedLast(trace, i);
    AskedLast(trace, i + 1);
    At(trace, i);
    if i > 0 {
      At(trace, i - 1);
    } else {
      StartPhase(trace);
    }
    if i + 1 < |trace| {
      At(trace, i + 1);
    }
  }

  lemma StartPhase(trace: seq<Event>)
    requires Legal(trace)
    ensures Before(trace, 0) == START
  {
  }

  // CLOSE is sent at most once; nothing but its reply follows.
  lemma CloseIsLast(trace: seq<Event>, i: nat)
    requires Legal(trace) && i < |trace| && trace[i] == Send(CLOSE)
    ensures |trace| <= i + 2
    ensures i + 1 < |trace| ==> trace[i + 1].Recv?
  {
    hide Before;
    At(trace, i);
    AskedLast(trace, i + 1);
    if i + 1 < |trace| {
      At(trace, i + 1);
    }
    if i + 2 < |trace| {
      At(trace, i + 2);
    }
  }

  // Nothing follows an acknowledged FINISHED.
  lemma FinishedIsLast(trace: seq<Event>, i: nat)
    requires Legal(trace) && i + 1 < |trace| && trace[i] == Send(FINISHED)
    requires trace[i + 1].Recv? && IsReply(trace[i + 1].r, FINISHED)
    ensures |trace| == i + 2
  {
    hide Before;
    At(trace, i);
    At(trace, i + 1);
    if i + 2 < |trace| {
      At(trace, i + 2);
    }
  }

  // The reply at `j` is a CLEANUP that answers a RUN or a DONE.
  predicate EndsAt(trace: seq<Event>, j: nat) {
    && 0 < j < |trace|
    && trace[j].Recv? && IsReply(trace[j].r, CLEANUP)
    && (trace[j - 1] == Send(RUN) || trace[j - 1] == Send(DONE))
  }

  // Between two positions there are only the VM's own requests and their replies.
  predicate OnlyData(trace: seq<Event>, from: nat, to: nat) {
    forall k :: from <= k < to < |trace| ==> (trace[k].Send? && trace[k].t.Data?) || trace[k].Recv?
  }

  lemma {:induction false} EndedBecause(trace: seq<Event>, i: nat) returns (j: nat)
    requires Legal(trace) && i < |trace| && Before(trace, i).stage == Ended
    ensures j < i && EndsAt(trace, j) && OnlyData(trace, j, i)
  {
    hide Before, MaySend;
    if i == 0 {
      StartPhase(trace);
      return;
    }
    At(trace, i - 1);
    if Before(trace, i - 1).stage == Ended {
      EndedStep(trace, i);
      j := EndedBecause(trace, i - 1);
      return;
    }
    EndedFrom(trace, i);
    j := i - 1;
  }

  // While the VM is shut down there is nothing but data.
  lemma EndedStep(trace: seq<Event>, i: nat)
    requires Legal(trace) && 0 < i < |trace| && Before(trace, i).stage == Ended && Before(trace, i - 1).stage == Ended
    ensures (trace[i - 1].Send? && trace[i - 1].t.Data?) || trace[i - 1].Recv?
  {
    hide Before;
    At(trace, i - 1);
  }

  // The event that brings the session to its end.
  lemma EndedFrom(trace: seq<Event>, i: nat)
    requires Legal(trace) && 0 < i < |trace| && Before(trace, i).stage == Ended && Before(trace, i - 1).stage != Ended
    ensures EndsAt(trace, i - 1)
  {
    hide Before;
    At(trace, i - 1);
    AskedLast(trace, i - 1);
  }

  // What the VM's shutdown decides: FINISHED comes directly behind a shutdown without exception and
  // message, and that only behind a CLEANUP reply to a RUN or DONE, with nothing but the VM's own requests
  // in between.
  lemma FinishedAfterCleanup(trace: seq<Event>, i: nat) returns (j: nat)
    requires Legal(trace) && i < |trace| && trace[i] == Send(FINISHED)
    ensures i > 0 && trace[i - 1].Vm? && !Threw(trace[i - 1].end) && !trace[i - 1].msg
    ensures j < i - 1 && EndsAt(trace, j) && OnlyData(trace, j, i - 1)
  {
    hide Before;
    At(trace, i);
    if i == 0 {
      StartPhase(trace);
    }
    At(trace, i - 1);
    AskedLast(trace, i - 1);
    j := EndedBecause(trace, i - 1);
  }

  // The last events: a call into the VM that neither threw nor left a message, FINISHED, and its answer.
  predicate EndsCleanly(trace: seq<Event>) {
    var n := |trace|;
    && n >= 3
    && trace[n - 1].Recv? && IsReply(trace[n - 1].r, FINISHED)
    && trace[n - 2] == Send(FINISHED)
    && trace[n - 3].Vm? && !Threw(trace[n - 3].end) && !trace[n - 3].msg
  }

  // A finished session ended cleanly.
  lemma FinishedEndsCleanly(trace: seq<Event>)
    requires Legal(trace) && Monitor(trace).value.stage == Finished
    ensures EndsCleanly(trace)
  {
    hide Before, Monitor;
    WholePrefix(trace);
    FinishedFrom(trace);
    var j := FinishedAfterCleanup(trace, |trace| - 2);
  }

  lemma WholePrefix(trace: seq<Event>)
    requires Legal(trace)
    ensures Before(trace, |trace|) == Monitor(trace).value
  {
    assert trace[..|trace|] == trace;
  }

  lemma FinishedFrom(trace: seq<Event>)
    requires Legal(trace) && Before(trace, |trace|).stage == Finished
    ensures |trace| >= 2 && trace[|trace| - 2] == Send(FINISHED)
    ensures trace[|trace| - 1].Recv? && IsReply(trace[|trace| - 1].r, FINISHED)
  {
    hide Before;
    if trace == [] {
      StartPhase(trace);
    }
    At(trace, |trace| - 1);
    AskedLast(trace, |trace| - 1);
  }

  // The last events: CLOSE, and its answer.
  predicate EndsInClose(trace: seq<Event>) {
    |trace| >= 2 && trace[|trace| - 2] == Send(CLOSE) && trace[|trace| - 1].Recv?
  }

  // An ordinary UDF whose message is not taken back is never reported as a success: when the calls behind
  // event `i` all end with a message, no FINISHED is sent.
  lemma FailedUdfNeverFinishes(trace: seq<Event>, i: nat, k: nat)
    requires Legal(trace) && i < k < |trace| && trace[i].Vm?
    requires forall n :: i <= n < |trace| && trace[n].Vm? ==> trace[n].msg
    ensures trace[k] != Send(FINISHED)
  {
    if trace[k] == Send(FINISHED) {
      var j := FinishedAfterCleanup(trace, k);
    }
  }

  // A shutdown that leaves a message behind is followed by CLOSE, one that throws by a second shutdown,
  // and any other by FINISHED.
  lemma ShutdownDecides(trace: seq<Event>, j: nat, i: nat)
    requires Legal(trace) && EndsAt(trace, j) && j < i && i + 1 < |trace| && trace[i].Vm?
    requires forall k :: j < k < i ==> !trace[k].Vm?
    ensures if Threw(trace[i].end) then (trace[i + 1].Send? && trace[i + 1].t.Data?) || trace[i + 1].Vm?
            else trace[i + 1] == Send(if trace[i].msg then CLOSE else FINISHED)
  {
    hide Before;
    AskedLast(trace, j);
    At(trace, j);
    EndedUntil(trace, j + 1, i);
    At(trace, i);
    At(trace, i + 1);
  }

  lemma {:induction false} EndedUntil(trace: seq<Event>, i: nat, k: nat)
    requires Legal(trace) && i <= k < |trace| && Before(trace, i).stage == Ended
    requires forall n :: i <= n < k ==> !trace[n].Vm?
    ensures Before(trace, k).stage == Ended
    decreases k - i
  {
    hide Before;
    if i < k {
      At(trace, i);
      AskedLast(trace, i);
      EndedUntil(trace, i + 1, k);
    }
  }

  // The VM's making decides about the first RUN: without a VM, or with a message, CLOSE comes instead.
  lemma MakingDecides(trace: seq<Event>, i: nat)
    requires Legal(trace) && i + 1 < |trace| && trace[i].Vm?
    requires forall k :: 0 <= k < i ==> !trace[k].Vm? && trace[k] != Send(RUN)
    ensures trace[i + 1] == Send(if trace[i].end == Yes && !trace[i].msg then RUN else CLOSE)
  {
    hide Before;
    EarlyStages(trace, i);
    At(trace, i);
    At(trace, i + 1);
  }

  predicate Early(stage: Stage) {
    stage in {Start, Fresh, Informed, Rejected, Making, Closed}
  }

  lemma {:induction false} EarlyStages(trace: seq<Event>, i: nat)
    requires Legal(trace) && i <= |trace|
    requires forall k :: 0 <= k < i ==> !trace[k].Vm? && trace[k] != Send(RUN)
    ensures Early(Before(trace, i).stage)
    decreases i
  {
    hide Before;
    if i == 0 {
      StartPhase(trace);
    } else {
      EarlyStages(trace, i - 1);
      At(trace, i - 1);
      AskedLast(trace, i - 1);
    }
  }

  // What an ordinary UDF's run decides, directly behind its end: another run, the round's DONE, or the
  // shutdown before a CLOSE.
  lemma RunDecides(trace: seq<Event>, i: nat)
    requires Legal(trace) && i + 1 < |trace| && trace[i].Vm? && Before(trace, i).stage == Called && !Before(trace, i).single
    ensures trace[i].end == Yes || trace[i].end == ThrewVm ==> trace[i + 1] == Send(DONE)
    ensures trace[i].end == No && !trace[i].msg ==> Before(trace, i + 1).stage == Called
    ensures trace[i].end == ThrewOther || (trace[i].end == No && trace[i].msg) ==> Before(trace, i + 1).stage == Failing
  {
    hide Before;
    At(trace, i);
    At(trace, i + 1);
  }

  // What a single call decides, directly behind its end: its exception is swallowed and the next RUN sent,
  // an undefined call is reported, and a result returned; without a result there is nothing to return.
  lemma SingleCallDecides(trace: seq<Event>, i: nat)
    requires Legal(trace) && i + 1 < |trace| && trace[i].Vm? && Before(trace, i).stage == Called && Before(trace, i).single
    ensures Threw(trace[i].end) ==> trace[i + 1] == Send(RUN)
    ensures !Threw(trace[i].end) && trace[i].msg ==> Before(trace, i + 1).stage == Failing
    ensures !Threw(trace[i].end) && !trace[i].msg ==>
              trace[i + 1] == Send(if trace[i].undefined then UNDEFINED_CALL else if trace[i].end == Yes then RETURN else RUN)
  {
    hide Before;
    At(trace, i);
    At(trace, i + 1);
  }

  // Once a session is failing, no request but the VM's own ones and CLOSE is sent any more.
  lemma FailureEnds(trace: seq<Event>, i: nat, k: nat)
    requires Legal(trace) && i <= k < |trace| && Before(trace, i).stage == Failing && trace[k].Send?
    ensures trace[k].t.Data? || trace[k].t == CLOSE
  {
    hide Before;
    AskedLast(trace, i);
    GivesUpStays(trace, i, k);
    At(trace, k);
  }

  // Nothing but data requests and a CLOSE can follow.
  predicate GivesUp(stage: Stage) {
    stage == Failing || stage == Doomed || stage == Closed
  }

  lemma {:induction false} GivesUpStays(trace: seq<Event>, i: nat, k: nat)
    requires Legal(trace) && i <= k <= |trace| && GivesUp(Before(trace, i).stage)
    ensures GivesUp(Before(trace, k).stage)
    decreases k - i
  {
    hide Before;
    if i < k {
      At(trace, i);
      AskedLast(trace, i);
      GivesUpStays(trace, i + 1, k);
    }
  }

  // Stages from which no RUN, DONE or call result can follow any more.
  predicate Over(stage: Stage) {
    GivesUp(stage) || stage == Ended || stage == Clean || stage == Finished
  }

  lemma {:induction false} OverStays(trace: seq<Event>, i: nat, k: nat)
    requires Legal(trace) && i <= k <= |trace| && Over(Before(trace, i).stage)
    ensures Over(Before(trace, k).stage)
    decreases k - i
  {
    hide Before;
    if i < k {
      At(trace, i);
      AskedLast(trace, i);
      OverStays(trace, i + 1, k);
    }
  }

  // After a CLEANUP reply to a RUN or DONE, no RUN and no DONE is sent any more.
  lemma NoRunAfterCleanup(trace: seq<Event>, j: nat, i: nat)
    requires Legal(trace) && EndsAt(trace, j) && j < i < |trace|
    ensures trace[i] != Send(RUN) && trace[i] != Send(DONE)
  {
    hide Before;
    AskedLast(trace, j);
    At(trace, j);
    OverStays(trace, j + 1, i);
    At(trace, i);
  }

  // FINISHED is sent at most once.
  lemma FinishedOnce(trace: seq<Event>, i: nat, k: nat)
    requires Legal(trace) && i < k < |trace| && trace[i] == Send(FINISHED)
    ensures trace[k] != Send(FINISHED)
  {
    hide Before, OnlyData;
    if trace[k] == Send(FINISHED) {
      var j := FinishedAfterCleanup(trace, k);
      if j <= i {
        BetweenData(trace, j, k - 1, i);
        assert false;
      }
      var before := FinishedAfterCleanup(trace, i);
      NoRunAfterCleanup(trace, before, j - 1);
      assert false;
    }
  }

  lemma BetweenData(trace: seq<Event>, from: nat, to: nat, k: nat)
    requires OnlyData(trace, from, to) && from <= k <= to < |trace| && (k == to ==> trace[k].Vm?)
    ensures (trace[k].Send? && trace[k].t.Data?) || !trace[k].Send?
  {
  }

  // Answers to calls are due in single-call mode only.
  lemma {:induction false} AnsweringIsSingle(trace: seq<Event>, i: nat)
    requires Legal(trace) && i <= |trace| && Before(trace, i).stage == Answering
    ensures Before(trace, i).single
    decreases i
  {
    hide Before;
    if i == 0 {
      StartPhase(trace);
    } else {
      At(trace, i - 1);
      AskedLast(trace, i - 1);
      if Before(trace, i - 1).stage == Answering {
        AnsweringIsSingle(trace, i - 1);
      }
    }
  }

  // Outside single-call mode every RUN but the first directly follows the DONE reply to a DONE.
  lemma RunAfterDone(trace: seq<Event>, i: nat)
    requires Legal(trace) && i < |trace| && trace[i] == Send(RUN) && !Before(trace, i).single
    ensures i > 0 && (trace[i - 1].Vm? || (i >= 2 && trace[i - 2] == Send(DONE) && trace[i - 1].Recv? && IsReply(trace[i - 1].r, DONE)))
    ensures i > 0 && trace[i - 1].Vm? ==> Before(trace, i - 1).stage == Making
  {
    hide Before;
    At(trace, i);
    if i == 0 {
      StartPhase(trace);
    } else {
      At(trace, i - 1);
      AskedLast(trace, i - 1);
      if Before(trace, i - 1).stage == Answering {
        AnsweringIsSingle(trace, i - 1);
      }
    }
  }

  // The RUN at `j` was accepted, and is still being worked on before event `i`.
  predicate RunOpen(trace: seq<Event>, j: nat, i: nat) {
    && j + 1 < i <= |trace| && trace[j] == Send(RUN)
    && trace[j + 1].Recv? && (IsReply(trace[j + 1].r, RUN) || IsReply(trace[j + 1].r, CALL))
    && forall k :: j < k < i ==> trace[k] != Send(RUN) && trace[k] != Send(DONE)
  }

  predicate Working(p: Phase) {
    (p.stage == Called || p.stage == Answering || p.stage == Worked) && p.asked != Some(DONE)
  }

  lemma WorkStarts(trace: seq<Event>, i: nat)
    requires Legal(trace) && 0 < i <= |trace| && Working(Before(trace, i)) && !Working(Before(trace, i - 1))
    ensures i >= 2 && RunOpen(trace, i - 2, i)
  {
    hide Before, AfterVm, AfterSingleCall;
    At(trace, i - 1);
    AskedLast(trace, i - 1);
    if trace[i - 1].Vm? {
      WorkNotMade(trace, i);
    }
  }

  // A call into the VM does not start a round's work.
  lemma WorkNotMade(trace: seq<Event>, i: nat)
    requires Legal(trace) && 0 < i <= |trace| && trace[i - 1].Vm? && Working(Before(trace, i))
    ensures Working(Before(trace, i - 1))
  {
    hide Before;
    At(trace, i - 1);
  }

  lemma WorkGoesOn(trace: seq<Event>, i: nat)
    requires Legal(trace) && 0 < i <= |trace| && Working(Before(trace, i)) && Working(Before(trace, i - 1))
    ensures trace[i - 1] != Send(RUN) && trace[i - 1] != Send(DONE)
  {
    hide Before, AfterVm, AfterReply;
    At(trace, i - 1);
    AskedLast(trace, i - 1);
  }

  lemma {:induction false} WorkingBecause(trace: seq<Event>, i: nat) returns (j: nat)
    requires Legal(trace) && i <= |trace| && Working(Before(trace, i))
    ensures RunOpen(trace, j, i)
  {
    hide Before, Next;
    if i == 0 {
      StartPhase(trace);
    } else if Working(Before(trace, i - 1)) {
      j := WorkingBecause(trace, i - 1);
      WorkGoesOn(trace, i);
    } else {
      WorkStarts(trace, i);
      j := i - 2;
    }
  }

  // Every DONE answers for one accepted RUN of its own.
  lemma DoneAfterRun(trace: seq<Event>, i: nat) returns (j: nat)
    requires Legal(trace) && i < |trace| && trace[i] == Send(DONE)
    ensures RunOpen(trace, j, i)
  {
    hide Before;
    At(trace, i);
    j := WorkingBecause(trace, i);
  }

  // ---------------------------------------------------------------------------------------------
  // What each reply decides.

  predicate DataOrVm(e: Event) {
    e.Vm? || (e.Send? && e.t.Data?)
  }

  // The handshake: META follows INFO, and the VM is made after a META with supported columns; any other
  // reply is followed by CLOSE or another socket.
  lemma HandshakeDecides(trace: seq<Event>, j: nat)
    requires Legal(trace) && 0 < j && j + 1 < |trace| && trace[j].Recv?
    ensures trace[j - 1] == Send(CLIENT) ==>
              if IsReply(trace[j].r, INFO) then trace[j + 1] == Send(META) else trace[j + 1] == Send(CLOSE) || trace[j + 1].Open?
    ensures trace[j - 1] == Send(META) ==>
              if IsReply(trace[j].r, META) && trace[j].r.complete then DataOrVm(trace[j + 1])
              else trace[j + 1] == Send(CLOSE) || trace[j + 1].Open?
  {
    hide Before;
    AskedLast(trace, j);
    At(trace, j);
    At(trace, j + 1);
  }

  // The reply at `j` keeps a round from going on.
  predicate BadReply(trace: seq<Event>, j: nat, single: bool)
    requires 0 < j < |trace| && trace[j].Recv?
  {
    var t, r := trace[j - 1], trace[j].r;
    || (t == Send(RUN) && !IsReply(r, CLEANUP) && !IsReply(r, RUN) && !(single && IsReply(r, CALL) && r.complete))
    || (t == Send(DONE) && !single && !IsReply(r, CLEANUP) && !IsReply(r, DONE))
    || (t == Send(FINISHED) && !IsReply(r, FINISHED))
  }

  // A reply that is not allowed for a RUN or FINISHED, or for a DONE outside single-call mode, is the end;
  // among them a CLOSE from the server. Nothing is sent any more but the VM's own requests and one CLOSE.
  lemma BadReplyEnds(trace: seq<Event>, j: nat, i: nat)
    requires Legal(trace) && 0 < j < i < |trace| && trace[i].Send?
    requires trace[j].Recv? && BadReply(trace, j, Before(trace, j).single)
    ensures trace[i].t.Data? || trace[i].t == CLOSE
  {
    hide Before;
    AskedLast(trace, j);
    At(trace, j);
    FailureEnds(trace, j + 1, i);
  }

  // An accepted RUN outside single-call mode puts the VM to work, and so does a call of single-call mode
  // that is not empty; the DONE reply to a DONE is followed by another RUN.
  lemma GoodReplyGoesOn(trace: seq<Event>, j: nat)
    requires Legal(trace) && 0 < j && j + 1 < |trace| && trace[j].Recv?
    ensures trace[j - 1] == Send(RUN) && IsReply(trace[j].r, RUN) && !Before(trace, j).single ==> DataOrVm(trace[j + 1])
    ensures trace[j - 1] == Send(RUN) && IsReply(trace[j].r, CALL) && trace[j].r.complete && !trace[j].r.nil && Before(trace, j).single ==>
              DataOrVm(trace[j + 1])
    ensures trace[j - 1] == Send(DONE) && IsReply(trace[j].r, DONE) ==> trace[j + 1] == Send(RUN)
    ensures EndsAt(trace, j) ==> DataOrVm(trace[j + 1])
  {
    hide Before;
    AskedLast(trace, j);
    At(trace, j);
    At(trace, j + 1);
  }

  // In single-call mode the reply to an answer decides between DONE and another RUN, and so does the one to
  // a DONE: every reply but the expected ones is swallowed, even a CLOSE from the server.
  lemma SingleCallRunsOn(trace: seq<Event>, j: nat)
    requires Legal(trace) && 0 < j && j + 1 < |trace| && trace[j].Recv? && Before(trace, j).single
    ensures trace[j - 1] == Send(RETURN) ==>
              trace[j + 1] == Send(if IsReply(trace[j].r, RETURN) || IsReply(trace[j].r, CLEANUP) then DONE else RUN)
    ensures trace[j - 1] == Send(UNDEFINED_CALL) ==> trace[j + 1] == Send(if IsReply(trace[j].r, UNDEFINED_CALL) then DONE else RUN)
    ensures trace[j - 1] == Send(DONE) && !IsReply(trace[j].r, CLEANUP) ==> trace[j + 1] == Send(RUN)
  {
    hide Before;
    AskedLast(trace, j);
    At(trace, j);
    At(trace, j + 1);
  }
}
