/** The client process of one UDF session (`exaudfclient_main`), against any server and any VM. */
module Session {
  import opened Wrappers
  import opened SessionTrace

  // What the VM does next: it exchanges a message with the server, or the call ends, and leaves behind an
  // exception message or the name of an undefined single call.
  datatype VmAction = Exchange(r: DataRequest) | Finish(end: VmEnd, exceptionMsg: bool, undefinedCall: bool)

  // The end of a call: a value, an exception, or none at all, when the server or the VM never answers.
  datatype Outcome<+T> = Value(value: T) | Thrown | Stuck {
    predicate IsFailure() {
      !Value?
    }

    function PropagateFailure<U>(): Outcome<U>
      requires !Value?
    {
      if Thrown? then Thrown else Stuck
    }

    function Extract(): T
      requires Value?
    {
      value
    }
  }

  // The process's end: its exit code, an exception nobody caught, or none.
  datatype Exit = Code(code: nat) | Uncaught | Unended

  // How the VM's current call will end, after the messages it exchanges first.
  function NextFinish(script: seq<VmAction>): (call: Option<VmAction>)
    ensures call.Some? ==> call.value.Finish?
  {
    if script == [] then None
    else if script[0].Finish? then Some(script[0])
    else NextFinish(script[1..])
  }

  // One request and its reply have been added to the trace.
  predicate Exchanged(before: seq<Event>, after: seq<Event>, t: MessageType, r: Reply) {
    after == before + [Send(t), Recv(r)]
  }

  // Sockets are not opened between these traces.
  predicate NoOpens(before: seq<Event>, after: seq<Event>) {
    && |before| <= |after| && after[..|before|] == before
    && forall i :: |before| <= i < |after| ==> !after[i].Open?
  }

  // A local client opens another socket only when the one before was not answered at all.
  predicate OpensUnanswered(trace: seq<Event>) {
    forall i :: 0 < i < |trace| && trace[i].Open? ==> trace[i - 1] == Send(CLIENT)
  }

  lemma OpensKept(before: seq<Event>, after: seq<Event>)
    requires OpensUnanswered(before) && NoOpens(before, after)
    ensures OpensUnanswered(after)
  {
    forall i | 0 < i < |after| && after[i].Open?
      ensures after[i - 1] == Send(CLIENT)
    {
      assert after[i] == before[i] && after[i - 1] == before[i - 1];
    }
  }

  lemma OpensMore(trace: seq<Event>)
    requires OpensUnanswered(trace) && (trace == [] || trace[|trace| - 1] == Send(CLIENT))
    ensures OpensUnanswered(trace + [Open])
  {
  }

  lemma OpensNone(a: seq<Event>, b: seq<Event>, c: seq<Event>)
    requires NoOpens(a, b) && NoOpens(b, c)
    ensures NoOpens(a, c)
  {
    assert c[..|a|] == b[..|a|];
    forall i | |a| <= i < |c|
      ensures !c[i].Open?
    {
      assert i < |b| ==> c[i] == b[i];
    }
  }

  predicate VmStage(stage: Stage) {
    stage == Making || stage == Called || stage == Ended || stage == Failing
  }

  lemma DataKeepsPhase(p: Phase, r: DataRequest)
    requires VmStage(p.stage) && p.asked == None
    ensures MaySend(p, Data(r)) && forall reply :: Replied(p, Data(r), reply) == p
  {
  }

  lemma RepliedIgnoresAsked(p: Phase, t: MessageType, r: Reply)
    ensures Replied(p.(asked := Some(t)), t, r) == Replied(p, t, r)
  {
  }

  // The replies of the handshake.
  lemma HandshakeReplies(p: Phase, r: Reply)
    ensures Replied(p, CLIENT, r) == p.(stage := if IsReply(r, INFO) then Informed else Rejected, asked := None)
    ensures Replied(p, META, r) ==
            p.(stage := if IsReply(r, META) && r.complete then Making else Rejected, asked := None, single := IsReply(r, META) && r.single)
  {
  }

  lemma FreshSocket(trace: seq<Event>)
    requires Legal(trace) && Monitor(trace).value.stage == Fresh && Monitor(trace).value.asked == None
    ensures Monitor(trace + [Send(CLIENT)]) == Some(Monitor(trace).value.(asked := Some(CLIENT)))
    ensures Next(Monitor(trace + [Send(CLIENT)]).value, Open).Some?
  {
    MonitorAppend(trace, Send(CLIENT));
  }

  lemma VmMayEnd(p: Phase, end: VmEnd, msg: bool, undefined: bool)
    requires VmStage(p.stage)
    ensures AfterVm(p, end, msg, undefined).Some?
  {
  }

  lemma AskedKeepsStage(trace: seq<Event>, t: MessageType)
    requires Legal(trace) && Legal(trace + [Send(t)])
    ensures Monitor(trace + [Send(t)]).value == Monitor(trace).value.(asked := Some(t))
  {
    MonitorAppend(trace, Send(t));
  }

  class Session {
    const remote: bool
    // Whether the memory, core and file limits can be set.
    const limitsOk: bool

    // The answers that are still to come; None is a receive that times out.
    var inbox: seq<Option<Reply>>
    // What the VM will still do.
    var script: seq<VmAction>

    var trace: seq<Event>
    var exthrowed: bool
    var singleCallMode: bool
    var nilFunction: bool
    var exceptionMsg: bool
    var undefinedCall: bool

    constructor (remote: bool, limitsOk: bool, inbox: seq<Option<Reply>>, script: seq<VmAction>)
      ensures this.remote == remote && this.limitsOk == limitsOk && this.inbox == inbox && this.script == script
      ensures trace == [] && !exthrowed && nilFunction && !exceptionMsg && !undefinedCall
    {
      this.remote, this.limitsOk, this.inbox, this.script := remote, limitsOk, inbox, script;
      trace, exthrowed, singleCallMode, nilFunction, exceptionMsg, undefinedCall := [], false, false, true, false, false;
    }

    // The session stands at a stage, with no reply outstanding.
    ghost predicate Is(stage: Stage)
      reads this`trace
    {
      Monitor(trace).Some? && Monitor(trace).value.stage == stage && Monitor(trace).value.asked == None
    }

    // The same, once the VM is being made: the mode is the one that META announced, and in single-call mode
    // the function and what the last call into the VM left behind are those of the trace.
    ghost predicate At(stage: Stage)
      reads this`trace, this`singleCallMode, this`nilFunction, this`exceptionMsg, this`undefinedCall
    {
      && Is(stage)
      && var p := Monitor(trace).value;
         p.single == singleCallMode && (singleCallMode ==> p.nil == nilFunction && p.msg == exceptionMsg && p.undefined == undefinedCall)
    }

    // The session has not come to either of its ends.
    ghost predicate Underway()
      reads this`trace
    {
      Legal(trace) && !Is(Finished) && !Is(Closed)
    }

    // It never will: the server or the VM is waited for in vain.
    ghost predicate Abandoned()
      reads this`trace, this`inbox, this`script
    {
      Underway() && (inbox == [] || script == [])
    }

    // Stages at which the VM works.
    ghost predicate InVm()
      reads this`trace
    {
      Legal(trace) && Monitor(trace).value.asked == None && VmStage(Monitor(trace).value.stage)
    }

    lemma AtIs(stage: Stage)
      ensures At(stage) ==> Is(stage)
    {
    }

    // ---------------------------------------------------------------------------------------------
    // Messages.

    // Waits for a reply; only the first one of a connection is not waited for again after an error.
    method SocketRecv(returnOnError: bool) returns (r: Outcome<Option<Reply>>)
      modifies this`inbox, this`trace
      ensures |inbox| <= |old(inbox)| && (r.Value? ==> |inbox| < |old(inbox)|)
      ensures r != Thrown
      ensures r.Value? && r.value.Some? ==> trace == old(trace) + [Recv(r.value.value)]
      ensures r.Stuck? || r.value.None? ==> trace == old(trace)
      ensures r.Stuck? ==> inbox == []
      ensures r.Value? && r.value.None? ==> returnOnError
    {
      while inbox != []
        invariant |inbox| <= |old(inbox)| && trace == old(trace)
        decreases |inbox|
      {
        var answer := inbox[0];
        inbox := inbox[1..];
        if answer.Some? {
          trace := trace + [Recv(answer.value)];
          return Value(answer);
        }
        if returnOnError {
          return Value(None);
        }
      }
      return Stuck;
    }

    // A request and its reply, on a socket that waits until it comes.
    method Request(t: MessageType) returns (r: Outcome<Reply>)
      requires Legal(trace) && Monitor(trace).value.asked == None && MaySend(Monitor(trace).value, t)
      modifies this`inbox, this`trace
      ensures |inbox| <= |old(inbox)| && (r.Value? ==> |inbox| < |old(inbox)|)
      ensures r != Thrown
      ensures r.Stuck? ==> trace == old(trace) + [Send(t)] && Underway() && inbox == []
      ensures r.Value? ==>
                && trace == old(trace) + [Send(t), Recv(r.value)] && Legal(trace)
                && Monitor(trace).value == Replied(old(Monitor(trace)).value, t, r.value)
    {
      hide Replied, MaySend;
      MonitorAppend(trace, Send(t));
      trace := trace + [Send(t)];
      var answer := SocketRecv(false);
      if answer.Stuck? {
        return Stuck;
      }
      MonitorAppend(old(trace) + [Send(t)], Recv(answer.value.value));
      RepliedIgnoresAsked(old(Monitor(trace)).value, t, answer.value.value);
      return Value(answer.value.value);
    }

    // The end of a handshake that succeeded: the VM is made next.
    ghost predicate Connected()
      reads this`trace, this`singleCallMode
    {
      Is(Making) && Monitor(trace).value.single == singleCallMode && Monitor(trace).value.nil
    }

    ghost predicate MayOpen()
      reads this`trace
    {
      Legal(trace) && Next(Monitor(trace).value, Open).Some?
    }

    method OpenSocket()
      requires MayOpen()
      modifies this`trace
      ensures trace == old(trace) + [Open] && Is(Fresh) && Monitor(trace).value.nil
    {
      MonitorAppend(trace, Open);
      trace := trace + [Open];
    }

    // The handshake. False: it went wrong, and an exception is noted unless the server just did not answer.
    method SendInit() returns (connected: Outcome<bool>)
      requires Is(Fresh) && Monitor(trace).value.nil
      modifies this`inbox, this`trace, this`exthrowed, this`singleCallMode
      ensures |inbox| <= |old(inbox)| && (connected.Value? ==> |inbox| < |old(inbox)|)
      ensures NoOpens(old(trace), trace)
      ensures connected == Value(true) ==> Connected() && exthrowed == old(exthrowed)
      ensures connected == Value(false) ==>
                || (Is(Rejected) && exthrowed)
                || (trace == old(trace) + [Send(CLIENT)] && MayOpen() && exthrowed == old(exthrowed))
      ensures connected.Thrown? ==> Is(Informed) && !limitsOk
      ensures connected.Stuck? ==> Abandoned()
    {
      hide Replied;
      FreshSocket(trace);
      trace := trace + [Send(CLIENT)];
      ghost var asked := trace;
      var answer := SocketRecv(true);
      if answer.Stuck? {
        return Stuck;
      }
      if answer.value.None? {
        return Value(false);
      }
      var info := answer.value.value;
      MonitorAppend(asked, Recv(info));
      HandshakeReplies(Monitor(asked).value, info);
      if !IsReply(info, INFO) {
        exthrowed := true;
        return Value(false);
      }
      if !limitsOk {
        return Thrown;
      }
      ghost var informed := trace;
      connected := SendMeta();
      OpensNone(old(trace), informed, trace);
    }

    // The handshake's second half.
    method SendMeta() returns (connected: Outcome<bool>)
      requires Is(Informed) && Monitor(trace).value.nil
      modifies this`inbox, this`trace, this`exthrowed, this`singleCallMode
      ensures |inbox| <= |old(inbox)| && connected != Thrown
      ensures NoOpens(old(trace), trace)
      ensures connected == Value(true) ==> Connected() && exthrowed == old(exthrowed)
      ensures connected == Value(false) ==> Is(Rejected) && exthrowed
      ensures connected.Stuck? ==> Abandoned()
    {
      hide Replied;
      ghost var informed := Monitor(trace).value;
      var meta := Request(META);
      if meta.Stuck? {
        return Stuck;
      }
      HandshakeReplies(informed, meta.value);
      if !IsReply(meta.value, META) {
        exthrowed := true;
        return Value(false);
      }
      singleCallMode := meta.value.single;
      if !meta.value.complete {
        exthrowed := true;
        return Value(false);
      }
      return Value(true);
    }

    // False: the server asks for CLEANUP.
    method SendRun() returns (more: Outcome<bool>)
      requires At(Ready)
      modifies this`inbox, this`trace, this`nilFunction
      ensures |inbox| <= |old(inbox)| && (more.Value? ==> |inbox| < |old(inbox)|)
      ensures !more.Stuck? ==> exists r ::
                && Exchanged(old(trace), trace, RUN, r)
                && (more == Value(false) <==> IsReply(r, CLEANUP))
                && (more == Value(true) <==> IsReply(r, RUN) || (singleCallMode && IsReply(r, CALL) && r.complete))
      ensures more == Value(true) ==>
                At(if singleCallMode && nilFunction then AfterSingleCall(false, exceptionMsg, undefinedCall, false) else Called)
      ensures more == Value(false) ==> At(Ended)
      ensures more.Thrown? ==> Is(Failing)
      ensures more.Stuck? ==> Abandoned()
    {
      hide AfterSingleCall;
      var r := Request(RUN);
      if r.Stuck? {
        return Stuck;
      }
      assert Exchanged(old(trace), trace, RUN, r.value);
      if IsReply(r.value, CLEANUP) {
        return Value(false);
      }
      if singleCallMode && IsReply(r.value, CALL) {
        nilFunction := r.value.nil;
        if !r.value.complete {
          return Thrown;
        }
        return Value(true);
      }
      if !IsReply(r.value, RUN) {
        return Thrown;
      }
      return Value(true);
    }

    // A missing result is an error before anything is sent.
    method SendReturn(result: bool) returns (more: Outcome<bool>)
      requires if result then At(Answering) && !undefinedCall && singleCallMode else At(Ready)
      modifies this`inbox, this`trace
      ensures |inbox| <= |old(inbox)|
      ensures !result ==> more == Thrown && trace == old(trace)
      ensures result && !more.Stuck? ==> exists r ::
                && Exchanged(old(trace), trace, RETURN, r)
                && (more == Value(false) <==> IsReply(r, CLEANUP)) && (more == Value(true) <==> IsReply(r, RETURN))
      ensures more.Value? ==> At(Worked)
      ensures more.Thrown? ==> At(Ready)
      ensures more.Stuck? ==> Abandoned()
    {
      if !result {
        return Thrown;
      }
      var r := Request(RETURN);
      if r.Stuck? {
        return Stuck;
      }
      assert Exchanged(old(trace), trace, RETURN, r.value);
      if IsReply(r.value, CLEANUP) {
        return Value(false);
      }
      return if IsReply(r.value, RETURN) then Value(true) else Thrown;
    }

    method SendUndefinedCall() returns (sent: Outcome<()>)
      requires At(Answering) && undefinedCall && singleCallMode
      modifies this`inbox, this`trace
      ensures |inbox| <= |old(inbox)|
      ensures !sent.Stuck? ==> exists r :: Exchanged(old(trace), trace, UNDEFINED_CALL, r) && (sent.Value? <==> IsReply(r, UNDEFINED_CALL))
      ensures sent.Value? ==> At(Worked)
      ensures sent.Thrown? ==> At(Ready)
      ensures sent.Stuck? ==> Abandoned()
    {
      var r := Request(UNDEFINED_CALL);
      if r.Stuck? {
        return Stuck;
      }
      assert Exchanged(old(trace), trace, UNDEFINED_CALL, r.value);
      return if IsReply(r.value, UNDEFINED_CALL) then Value(()) else Thrown;
    }

    // False: the server asks for CLEANUP.
    method SendDone() returns (more: Outcome<bool>)
      requires At(Worked)
      modifies this`inbox, this`trace
      ensures |inbox| <= |old(inbox)|
      ensures !more.Stuck? ==> exists r ::
                && Exchanged(old(trace), trace, DONE, r)
                && (more == Value(false) <==> IsReply(r, CLEANUP)) && (more == Value(true) <==> IsReply(r, DONE))
      ensures more == Value(true) ==> At(Ready)
      ensures more == Value(false) ==> At(Ended)
      ensures more.Thrown? ==> At(if singleCallMode then Ready else Failing)
      ensures more.Stuck? ==> Abandoned()
    {
      var r := Request(DONE);
      if r.Stuck? {
        return Stuck;
      }
      assert Exchanged(old(trace), trace, DONE, r.value);
      if IsReply(r.value, CLEANUP) {
        return Value(false);
      }
      return if IsReply(r.value, DONE) then Value(true) else Thrown;
    }

    method SendFinished() returns (sent: Outcome<()>)
      requires At(Clean)
      modifies this`inbox, this`trace
      ensures !sent.Stuck? ==> exists r :: Exchanged(old(trace), trace, FINISHED, r) && (sent.Value? <==> IsReply(r, FINISHED))
      ensures sent.Stuck? ==> trace == old(trace) + [Send(FINISHED)]
      ensures sent.Value? ==> Is(Finished)
      ensures sent.Thrown? ==> Is(Failing)
      ensures sent.Stuck? ==> Abandoned()
    {
      var r := Request(FINISHED);
      if r.Stuck? {
        return Stuck;
      }
      assert Exchanged(old(trace), trace, FINISHED, r.value);
      return if IsReply(r.value, FINISHED) then Value(()) else Thrown;
    }

    // Fails too when the answer is not FINISHED, but the connection is over either way.
    method SendClose() returns (sent: Outcome<()>)
      requires Is(Rejected) || Is(Doomed)
      modifies this`inbox, this`trace
      ensures |inbox| <= |old(inbox)|
      ensures !sent.Stuck? ==> exists r :: Exchanged(old(trace), trace, CLOSE, r) && (sent.Value? <==> IsReply(r, FINISHED))
      ensures !sent.Stuck? ==> Is(Closed)
      ensures sent.Stuck? ==> Abandoned() && trace == old(trace) + [Send(CLOSE)]
    {
      var r := Request(CLOSE);
      if r.Stuck? {
        return Stuck;
      }
      assert Exchanged(old(trace), trace, CLOSE, r.value);
      return if IsReply(r.value, FINISHED) then Value(()) else Thrown;
    }

    // ---------------------------------------------------------------------------------------------
    // The VM.

    // Lets the VM work until its call ends.
    method CallVm() returns (end: Outcome<VmEnd>)
      requires InVm()
      modifies this`inbox, this`trace, this`script, this`exceptionMsg, this`undefinedCall
      ensures |inbox| <= |old(inbox)| && |script| <= |old(script)| && (!end.Stuck? ==> |script| < |old(script)|)
      ensures end != Thrown
      ensures end.Value? ==> NextFinish(old(script)) == Some(Finish(end.value, exceptionMsg, undefinedCall))
      ensures end.Value? ==> trace != [] && trace[|trace| - 1] == Vm(end.value, exceptionMsg, undefinedCall)
      ensures end.Value? ==>
                && Legal(trace)
                && var p := old(Monitor(trace)).value;
                   var stage := AfterVm(p, end.value, exceptionMsg, undefinedCall);
                   stage.Some? && Monitor(trace).value == p.(stage := stage.value, msg := exceptionMsg, undefined := undefinedCall)
      ensures end.Stuck? ==> Abandoned() && Monitor(trace).value.stage == old(Monitor(trace)).value.stage
    {
      hide AfterVm, Replied, MaySend;
      while script != []
        invariant Underway() && Monitor(trace) == old(Monitor(trace))
        invariant NextFinish(script) == NextFinish(old(script))
        invariant |inbox| <= |old(inbox)| && |script| <= |old(script)|
        decreases |script|
      {
        var action := script[0];
        script := script[1..];
        match action {
          case Exchange(r) =>
            DataKeepsPhase(Monitor(trace).value, r);
            ghost var before := trace;
            var reply := Request(Data(r));
            if reply.Stuck? {
              AskedKeepsStage(before, Data(r));
              return Stuck;
            }
          case Finish(how, msg, undefined) =>
            exceptionMsg, undefinedCall := msg, undefined;
            VmMayEnd(Monitor(trace).value, how, msg, undefined);
            MonitorAppend(trace, Vm(how, msg, undefined));
            trace := trace + [Vm(how, msg, undefined)];
            return Value(how);
        }
      }
      return Stuck;
    }

    // `run_`: an exception of the VM's own kind becomes a message, and the VM counts as done.
    method RunVm() returns (done: Outcome<bool>)
      requires At(Called) && !singleCallMode
      modifies this`inbox, this`trace, this`script, this`exceptionMsg, this`undefinedCall
      ensures |inbox| <= |old(inbox)| && |script| <= |old(script)| && (!done.Stuck? ==> |script| < |old(script)|)
      ensures done == Value(true) ==> At(Worked)
      ensures done == Value(false) ==> At(if exceptionMsg then Failing else Called)
      ensures done.Thrown? ==> Is(Failing)
      ensures !done.Stuck? ==>
                && NextFinish(old(script)).Some?
                && var call := NextFinish(old(script)).value;
                   && (call.end == ThrewOther <==> done == Thrown)
                   && (call.end == Yes || call.end == ThrewVm <==> done == Value(true))
                   && (call.end == ThrewVm || call.exceptionMsg <==> exceptionMsg)
      ensures done.Stuck? ==> Abandoned()
    {
      hide NextFinish;
      var end := CallVm();
      if end.Stuck? {
        return Stuck;
      }
      match end.value {
        case Yes => return Value(true);
        case No => return Value(false);
        case ThrewVm =>
          exceptionMsg := true;
          return Value(true);
        case ThrewOther => return Thrown;
      }
    }

    // ---------------------------------------------------------------------------------------------
    // The process.

    // The exit code that the messages account for.
    ghost predicate Explained(exit: Exit)
      reads this`trace, this`inbox, this`script
    {
      match exit
      case Code(n) => (n == 0 && Is(Finished)) || (n == 1 && Is(Closed))
      case Uncaught => Is(Informed) && !limitsOk
      case Unended => Abandoned()
    }

    // The process is on its way out through CLOSE: it has been answered, or it is waited for, or the VM's
    // shutdown before it is.
    ghost predicate Closing(exit: Exit)
      reads this`trace, this`inbox, this`script
    {
      && Explained(exit)
      && ((exit == Code(1) && EndsInClose(trace)) ||
          (exit == Unended && (Monitor(trace).value.asked == Some(CLOSE) || Monitor(trace).value.stage == Failing)))
    }

    // Shuts the VM down if asked to, and tells the server with a CLOSE, whatever goes wrong on the way.
    method HandleError(shutdownVm: bool) returns (exit: Exit)
      requires if shutdownVm then Is(Failing) else Is(Rejected) || Is(Doomed)
      modifies this`inbox, this`trace, this`script, this`exceptionMsg, this`undefinedCall
      ensures Closing(exit) && |inbox| <= |old(inbox)|
      ensures !shutdownVm ==> NoOpens(old(trace), trace) && (exit == Unended ==> Monitor(trace).value.asked == Some(CLOSE))
    {
      if shutdownVm {
        exceptionMsg := false;
        var end := CallVm();
        if end.Stuck? {
          return Unended;
        }
      }
      ghost var before := trace;
      var sent := SendClose();
      if sent.Stuck? {
        MonitorAppend(before, Send(CLOSE));
        return Unended;
      }
      return Code(1);
    }

    // Opens sockets until a handshake succeeds. An error ends a local client, and makes a remote one start
    // over; so does a server that does not answer.
    method Connect() returns (exit: Option<Exit>)
      requires trace == [] && !exthrowed
      modifies this`inbox, this`trace, this`exthrowed, this`singleCallMode, this`script, this`exceptionMsg, this`undefinedCall
      ensures exit == None ==> Connected()
      ensures exit.Some? ==> Explained(exit.value) && exit.value != Code(0)
      ensures exit == Some(Code(1)) ==> !remote && EndsInClose(trace)
      ensures !remote ==> OpensUnanswered(trace)
    {
      hide Connected, MayOpen, NoOpens, OpensUnanswered, Is, Abandoned, Monitor;
      StartMayOpen();
      while true
        invariant MayOpen() && (remote || !exthrowed)
        invariant !remote ==> OpensUnanswered(trace) && (trace == [] || trace[|trace| - 1] == Send(CLIENT))
        decreases |inbox|
      {
        if !remote {
          OpensMore(trace);
        }
        OpenSocket();
        ghost var newest := trace;
        var connected := SendInit();
        RejectedMayOpen();
        if !remote {
          OpensKept(newest, trace);
        }
        match connected {
          case Stuck => return Some(Unended);
          case Thrown => return Some(Uncaught);
          case Value(ok) =>
            if ok {
              return None;
            }
            if !remote && exthrowed {
              ghost var refused := trace;
              var exit := HandleError(false);
              OpensKept(refused, trace);
              return Some(exit);
            }
        }
      }
    }

    lemma StartMayOpen()
      ensures trace == [] ==> MayOpen() && OpensUnanswered(trace)
    {
    }

    lemma RejectedMayOpen()
      ensures Is(Rejected) ==> MayOpen()
    {
    }

    // One round's work: the VM is run until it is done. Some: the process ends here.
    method RunUntilDone() returns (r: Outcome<Option<Exit>>)
      requires At(Called) && !singleCallMode
      modifies this`inbox, this`trace, this`script, this`exceptionMsg, this`undefinedCall
      ensures |inbox| <= |old(inbox)|
      ensures r == Value(None) ==> At(Worked)
      ensures r.Value? && r.value.Some? ==> Closing(r.value.value)
      ensures r.Thrown? ==> Is(Failing)
      ensures r.Stuck? ==> Abandoned()
    {
      hide At, Is, Abandoned, Closing;
      while true
        invariant At(Called) && |inbox| <= |old(inbox)|
        decreases |script|
      {
        var done := RunVm();
        if done.Thrown? {
          return Thrown;
        }
        if done.Stuck? {
          return Stuck;
        }
        if done.value {
          return Value(None);
        }
        if exceptionMsg {
          AtIs(Failing);
          var exit := HandleError(true);
          return Value(Some(exit));
        }
      }
    }

    // The rounds of an ordinary UDF. Some: the process ends here.
    method RunRounds() returns (r: Outcome<Option<Exit>>)
      requires At(Ready) && !singleCallMode
      modifies this`inbox, this`trace, this`script, this`nilFunction, this`exceptionMsg, this`undefinedCall
      ensures r == Value(None) ==> At(Ended)
      ensures r.Value? && r.value.Some? ==> Closing(r.value.value)
      ensures r.Thrown? ==> Is(Failing)
      ensures r.Stuck? ==> Abandoned()
    {
      hide At, Is, Abandoned, Closing;
      AtIs(Failing);
      while true
        invariant At(Ready)
        decreases |inbox|
      {
        var run := SendRun();
        if run.Thrown? {
          return Thrown;
        }
        if run.Stuck? {
          return Stuck;
        }
        if !run.value {
          return Value(None);
        }
        var worked := RunUntilDone();
        if worked != Value(None) {
          return worked;
        }
        var more := SendDone();
        if more.Thrown? {
          AtIs(Failing);
          return Thrown;
        }
        if more.Stuck? {
          return Stuck;
        }
        if !more.value {
          return Value(None);
        }
      }
    }

    // One single call, up to the answer to its DONE. Every exception on the way is swallowed, and the next
    // round asks for another call. False: the server asks for CLEANUP.
    method SingleCall() returns (r: Outcome<bool>, exit: Option<Exit>)
      requires singleCallMode
      requires At(if nilFunction then AfterSingleCall(false, exceptionMsg, undefinedCall, false) else Called)
      modifies this`inbox, this`trace, this`script, this`exceptionMsg, this`undefinedCall
      ensures |inbox| <= |old(inbox)|
      ensures exit.Some? ==> Closing(exit.value)
      ensures exit == None && (r == Value(true) || r.Thrown?) ==> At(Ready)
      ensures exit == None && r == Value(false) ==> At(Ended)
      ensures exit == None && r.Stuck? ==> Abandoned()
    {
      hide Abandoned, Closing, AfterReply;
      exit := None;
      var result := false;
      if !nilFunction {
        var end := CallVm();
        if end.Stuck? {
          return Stuck, None;
        }
        if end.value == ThrewVm || end.value == ThrewOther {
          return Thrown, None;
        }
        result := end.value == Yes;
      }
      if exceptionMsg {
        var code := HandleError(true);
        return Thrown, Some(code);
      }
      if undefinedCall {
        var sent := SendUndefinedCall();
        if !sent.Value? {
          return sent.PropagateFailure(), None;
        }
      } else {
        var sent := SendReturn(result);
        if !sent.Value? {
          return sent.PropagateFailure(), None;
        }
      }
      r := SendDone();
    }

    // The rounds of single-call mode. Some: the process ends here.
    method SingleCalls() returns (r: Outcome<Option<Exit>>)
      requires At(Ready) && singleCallMode
      modifies this`inbox, this`trace, this`script, this`nilFunction, this`exceptionMsg, this`undefinedCall
      ensures r == Value(None) ==> At(Ended)
      ensures r.Value? && r.value.Some? ==> Closing(r.value.value)
      ensures r.Thrown? ==> Is(Failing)
      ensures r.Stuck? ==> Abandoned()
    {
      hide At, Is, Abandoned, Closing, AfterSingleCall;
      while true
        invariant At(Ready)
        decreases |inbox|
      {
        var run := SendRun();
        if run.Thrown? {
          return Thrown;
        }
        if run.Stuck? {
          return Stuck;
        }
        if !run.value {
          return Value(None);
        }
        var more, exit := SingleCall();
        if exit.Some? {
          return Value(exit);
        }
        if more.Stuck? {
          return Stuck;
        }
        if more.Value? && !more.value {
          return Value(None);
        }
      }
    }

    // The way out: the VM is shut down, and its shutdown decides between FINISHED and CLOSE. An exception
    // it throws, or a message it leaves behind, is an error; only without either is FINISHED sent.
    method ShutDown() returns (r: Outcome<Exit>)
      requires At(Ended)
      modifies this`inbox, this`trace, this`script, this`exceptionMsg, this`undefinedCall
      ensures r.Value? ==> (r.value == Code(0) && Is(Finished)) || Closing(r.value)
      ensures r == Value(Code(0)) ==> EndsCleanly(trace)
      ensures r.Thrown? ==> Is(Failing)
      ensures r.Stuck? ==> Abandoned()
      ensures r.Stuck? ==> Monitor(trace).value.stage == Ended || Monitor(trace).value.asked == Some(FINISHED)
      ensures NextFinish(old(script)).Some? && r.Value? ==>
                var call := NextFinish(old(script)).value;
                && !Threw(call.end)
                && (r.value == Code(0) <==> !call.exceptionMsg)
                && (r.value == Unended ==> Monitor(trace).value.asked == Some(CLOSE))
    {
      hide NextFinish, AfterReply, Replied, EndsCleanly;
      var end := CallVm();
      if end.Stuck? {
        return Stuck;
      }
      if end.value == ThrewVm || end.value == ThrewOther {
        return Thrown;
      }
      if exceptionMsg {
        var exit := HandleError(false);
        return Value(exit);
      }
      ghost var before := trace;
      var sent := SendFinished();
      if sent.Stuck? {
        AskedKeepsStage(before, FINISHED);
        return Stuck;
      }
      if sent.Thrown? {
        return Thrown;
      }
      FinishedEndsCleanly(trace);
      return Value(Code(0));
    }

    // From the first RUN to the acknowledged FINISHED, once the VM exists.
    method Serve() returns (r: Outcome<Exit>)
      requires At(Ready)
      modifies this`inbox, this`trace, this`script, this`nilFunction, this`exceptionMsg, this`undefinedCall
      ensures r.Value? ==> (r.value == Code(0) && Is(Finished)) || Closing(r.value)
      ensures r == Value(Code(0)) ==> EndsCleanly(trace)
      ensures r.Thrown? ==> Is(Failing)
      ensures r.Stuck? ==> Abandoned()
    {
      hide At, Is, Abandoned, Explained, EndsCleanly, EndsInClose;
      var rounds;
      if singleCallMode {
        rounds := SingleCalls();
      } else {
        rounds := RunRounds();
      }
      if rounds.Thrown? {
        return Thrown;
      }
      if rounds.Stuck? {
        return Stuck;
      }
      if rounds.value.Some? {
        return Value(rounds.value.value);
      }
      r := ShutDown();
    }

    // The whole process, from nothing sent to its end: its messages and VM calls are a legal trace, and its
    // exit code tells which end they came to. It is 0 exactly when the server has acknowledged FINISHED, 1
    // exactly when a CLOSE has been answered.
    method ExaUdfClientMain() returns (exit: Exit)
      requires trace == [] && !exthrowed && nilFunction && !exceptionMsg && !undefinedCall
      modifies this
      ensures Legal(trace)
      ensures exit == Code(0) <==> Is(Finished)
      ensures exit == Code(0) ==> EndsCleanly(trace)
      ensures exit == Code(1) <==> Is(Closed)
      ensures exit == Code(1) ==> EndsInClose(trace)
      ensures exit == Uncaught ==> Is(Informed) && !limitsOk
      ensures exit == Unended ==> inbox == [] || script == []
      ensures exit.Code? ==> exit.code <= 1
    {
      hide AfterReply, EndsCleanly;
      var failed := Connect();
      if failed.Some? {
        return failed.value;
      }
      // The VM is made; its constructor may already ask for data.
      var made := CallVm();
      if made.Stuck? {
        return Unended;
      }
      if made.value != Yes || exceptionMsg {
        exit := HandleError(false);
        return;
      }
      var served := Serve();
      match served {
        case Value(code) => exit := code;
        case Stuck => exit := Unended;
        case Thrown => exit := HandleError(true);
      }
    }
  }
}
