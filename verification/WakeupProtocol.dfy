/** Producers and consumers of a waitable queue, interleaved call by call. */
module WakeupProtocol {
  import opened Wrappers
  import opened EventFd
  import opened WaitableQueue

  datatype Producer<T> =
    | Idle
    | Batching(values: seq<T>, enqueued: nat)
    | Notifying

  // A consumer waits for the descriptor to be readable, drains it, dequeues until nothing is left, and
  // looks at the queue once more before it waits again.
  datatype Consumer = Waiting | Draining | Dequeuing | Rechecking

  // In which order a woken consumer works. The class asks for DrainFirst.
  datatype Discipline = DrainFirst | DequeueFirst

  // An item with the producer that inserted it.
  datatype Entry<T> = Entry(producer: nat, value: T)

  datatype State<T> = State(
    order: Discipline,
    producers: seq<Producer<T>>,
    consumers: seq<Consumer>,
    items: seq<Entry<T>>,
    count: nat,
    accepted: seq<Entry<T>>,    // all items taken by the queue, in order
    delivered: seq<Entry<T>>,   // all items handed to consumers, in order
    signals: nat,        // writes that took effect
    drained: nat,        // sum of all counts read
    faults: nat          // calls that failed other than by interruption or for want of count
  )

  datatype Step<T> =
    | Enqueue(p: nat, v: T, takes: bool)
    | StartBatch(p: nat, values: seq<T>)
    | BatchNext(p: nat, takes: bool)
    | Write(p: nat, call: KernelCall)
    | Wake(c: nat)
    | Read(c: nat, call: KernelCall)
    | TryDequeue(c: nat)

  function Afterwards<T>(enqueued: nat): Producer<T> {
    if enqueued != 0 then Notifying else Idle
  }

  // Once nothing is left to dequeue, or nothing to drain.
  function AfterDequeue(order: Discipline): Consumer {
    match order
    case DrainFirst => Waiting
    case DequeueFirst => Draining
  }

  function AfterDrain(order: Discipline): Consumer {
    match order
    case DrainFirst => Dequeuing
    case DequeueFirst => Waiting
  }

  function AfterWake(order: Discipline): Consumer {
    match order
    case DrainFirst => Draining
    case DequeueFirst => Dequeuing
  }

  // The state after a step, if the step is possible.
  function Apply<T>(s: State<T>, step: Step<T>): Option<State<T>> {
    match step
    case Enqueue(p, v, takes) =>
      if p >= |s.producers| || !s.producers[p].Idle? then None
      else if !takes then Some(s)
      else Some(s.(items := s.items + [Entry(p, v)], accepted := s.accepted + [Entry(p, v)], producers := s.producers[p := Notifying]))
    case StartBatch(p, values) =>
      if p >= |s.producers| || !s.producers[p].Idle? then None
      else Some(s.(producers := s.producers[p := Batching(values, 0)]))
    case BatchNext(p, takes) =>
      if p >= |s.producers| || !s.producers[p].Batching? then None
      else
        var b := s.producers[p];
        if b.enqueued >= |b.values| || !takes then Some(s.(producers := s.producers[p := Afterwards(b.enqueued)]))
        else
          var entry := Entry(p, b.values[b.enqueued]);
          Some(s.(
            items := s.items + [entry],
            accepted := s.accepted + [entry],
            producers := s.producers[p := Batching(b.values, b.enqueued + 1)]))
    case Write(p, call) =>
      if p >= |s.producers| || !s.producers[p].Notifying? then None
      else (
        match call
        case Interrupted => Some(s)
        case Failed => Some(s.(producers := s.producers[p := Idle], faults := s.faults + 1))
        case Through =>
          match KernelWrite(s.count)
          case Ok(count) => Some(s.(count := count, signals := s.signals + 1, producers := s.producers[p := Idle]))
          case Err(_) => Some(s.(producers := s.producers[p := Idle])))
    case Wake(c) =>
      if c >= |s.consumers| || s.consumers[c] != Waiting || s.count == 0 then None
      else Some(s.(consumers := s.consumers[c := AfterWake(s.order)]))
    case Read(c, call) =>
      if c >= |s.consumers| || s.consumers[c] != Draining then None
      else (
        match call
        case Interrupted => Some(s)
        case Failed => Some(s.(consumers := s.consumers[c := Waiting], faults := s.faults + 1))
        case Through =>
          match KernelRead(s.count)
          case Ok(value) => Some(s.(count := 0, drained := s.drained + value))
          case Err(_) => Some(s.(consumers := s.consumers[c := AfterDrain(s.order)])))
    case TryDequeue(c) =>
      if c >= |s.consumers| || !(s.consumers[c] == Dequeuing || s.consumers[c] == Rechecking) then None
      else if s.items != [] then
        Some(s.(items := s.items[1..], delivered := s.delivered + [s.items[0]], consumers := s.consumers[c := Dequeuing]))
      else
        Some(s.(consumers := s.consumers[c := if s.consumers[c] == Dequeuing then Rechecking else AfterDequeue(s.order)]))
  }

  // A run: the steps one after the other, if each is possible.
  function Run<T>(s: State<T>, steps: seq<Step<T>>): Option<State<T>>
    decreases |steps|
  {
    if steps == [] then Some(s)
    else
      var before := Run(s, steps[..|steps| - 1]);
      if before.None? then None else Apply(before.value, steps[|steps| - 1])
  }

  ghost predicate Init<T>(s: State<T>, order: Discipline) {
    && s.order == order
    && (forall p :: 0 <= p < |s.producers| ==> s.producers[p].Idle?)
    && (forall c :: 0 <= c < |s.consumers| ==> s.consumers[c] == Waiting)
    && s.items == s.accepted == s.delivered == []
    && s.count == s.signals == s.drained == s.faults == 0
  }

  // Between an insertion and its notification.
  predicate Owes<T>(p: Producer<T>) {
    p.Notifying? || (p.Batching? && p.enqueued > 0)
  }

  ghost predicate SomeProducerOwes<T>(s: State<T>) {
    exists p :: 0 <= p < |s.producers| && Owes(s.producers[p])
  }

  ghost predicate SomeConsumerActive<T>(s: State<T>) {
    exists c :: 0 <= c < |s.consumers| && s.consumers[c] != Waiting
  }

  // Items that are there will be noticed.
  ghost predicate Noticed<T>(s: State<T>) {
    s.items != [] ==> s.count > 0 || SomeProducerOwes(s) || SomeConsumerActive(s)
  }

  ghost predicate Conserved<T>(s: State<T>) {
    && s.accepted == s.delivered + s.items
    && s.signals == s.drained + s.count
    && s.count <= MAX_COUNT
  }

  // ---------------------------------------------------------------------------------------------
  // What every step keeps.

  lemma ProducerOwes<T>(s: State<T>, p: nat)
    requires p < |s.producers| && Owes(s.producers[p])
    ensures SomeProducerOwes(s)
  {
  }

  lemma ConsumerActive<T>(s: State<T>, c: nat)
    requires c < |s.consumers| && s.consumers[c] != Waiting
    ensures SomeConsumerActive(s)
  {
  }

  lemma NoticedKept<T>(s: State<T>, step: Step<T>)
    requires s.order == DrainFirst && Noticed(s) && Apply(s, step).Some?
    ensures var t := Apply(s, step).value; t.order == DrainFirst && (t.faults > s.faults || Noticed(t))
  {
    var t := Apply(s, step).value;
    match step {
      case Wake(c) =>
      case Read(c, call) =>
        if call != Failed {
          ConsumerActive(t, c);
        }
      case TryDequeue(c) =>
        if t.items != [] {
          ConsumerActive(t, c);
        }
      case _ =>
        // A producer's step: the consumers stand where they stood.
        if t.items != [] && t.faults == s.faults {
          ProducerStepNoticed(s, step);
        }
    }
  }

  lemma ProducerStepNoticed<T>(s: State<T>, step: Step<T>)
    requires step.Enqueue? || step.StartBatch? || step.BatchNext? || step.Write?
    requires Noticed(s) && Apply(s, step).Some? && Apply(s, step).value.faults == s.faults
    ensures Noticed(Apply(s, step).value)
  {
    var t := Apply(s, step).value;
    assert t.consumers == s.consumers;
    if t.items != s.items || (step.Write? && step.call == Interrupted) {
      if step.p < |t.producers| && Owes(t.producers[step.p]) {
        ProducerOwes(t, step.p);
      }
    } else if SomeConsumerActive(s) {
      var c :| 0 <= c < |s.consumers| && s.consumers[c] != Waiting;
      ConsumerActive(t, c);
    } else if SomeProducerOwes(s) {
      var q :| 0 <= q < |s.producers| && Owes(s.producers[q]);
      if Owes(t.producers[q]) {
        ProducerOwes(t, q);
      }
    }
  }

  lemma ConservedKept<T>(s: State<T>, step: Step<T>)
    requires Conserved(s) && Apply(s, step).Some?
    ensures Conserved(Apply(s, step).value)
  {
    if step.TryDequeue? && s.items != [] {
      assert s.items == [s.items[0]] + s.items[1..];
    }
  }

  // ---------------------------------------------------------------------------------------------
  // Over whole runs.

  // Every item accepted is delivered once and in order, or still queued; every signal is drained or
  // still counted. This holds under either discipline and through faults.
  lemma {:induction false} ItemsConserved<T>(s: State<T>, order: Discipline, steps: seq<Step<T>>)
    requires Init(s, order) && Run(s, steps).Some?
    ensures Conserved(Run(s, steps).value)
    decreases |steps|
  {
    if steps != [] {
      ItemsConserved(s, order, steps[..|steps| - 1]);
      ConservedKept(Run(s, steps[..|steps| - 1]).value, steps[|steps| - 1]);
    }
  }

  // No lost wakeup: whatever the interleaving, as long as no call has failed, items that are queued while
  // every consumer waits are announced by the count or by a producer that is about to write. This
  // includes a count at its limit, where writes are dropped.
  lemma {:induction false} NoLostWakeup<T>(s: State<T>, steps: seq<Step<T>>)
    requires Init(s, DrainFirst) && Run(s, steps).Some?
    ensures var t := Run(s, steps).value;
            && t.order == DrainFirst
            && (t.faults > 0 || Noticed(t))
    decreases |steps|
  {
    hide Apply;
    if steps != [] {
      var before, last := Run(s, steps[..|steps| - 1]).value, steps[|steps| - 1];
      NoLostWakeup(s, steps[..|steps| - 1]);
      FaultsGrow(before, last);
      if before.faults == 0 {
        NoticedKept(before, last);
      } else {
        OrderKept(before, last);
      }
    }
  }

  lemma FaultsGrow<T>(s: State<T>, step: Step<T>)
    requires Apply(s, step).Some?
    ensures Apply(s, step).value.faults >= s.faults
  {
  }

  lemma OrderKept<T>(s: State<T>, step: Step<T>)
    requires Apply(s, step).Some?
    ensures Apply(s, step).value.order == s.order
  {
  }

  // ---------------------------------------------------------------------------------------------
  // What a producer's items are.

  // The values that a producer has inserted, in order.
  function FromProducer<T>(entries: seq<Entry<T>>, p: nat): seq<T> {
    if entries == [] then []
    else
      var last := entries[|entries| - 1];
      FromProducer(entries[..|entries| - 1], p) + if last.producer == p then [last.value] else []
  }

  predicate IsProducerStep<T>(step: Step<T>) {
    step.Enqueue? || step.StartBatch? || step.BatchNext? || step.Write?
  }

  // How often the queue takes an item of the batch of `p` in these steps.
  function Takes<T>(steps: seq<Step<T>>, p: nat): nat {
    if steps == [] then 0
    else
      var last := steps[|steps| - 1];
      Takes(steps[..|steps| - 1], p) + if last.BatchNext? && last.p == p then 1 else 0
  }

  // All that `p` does in these steps is to insert items of its batch, and all are taken.
  ghost predicate OnlyTakes<T>(steps: seq<Step<T>>, p: nat) {
    forall i :: 0 <= i < |steps| && IsProducerStep(steps[i]) && steps[i].p == p ==> steps[i].BatchNext? && steps[i].takes
  }

  lemma OthersStep<T>(s: State<T>, step: Step<T>, p: nat)
    requires p < |s.producers| && Apply(s, step).Some? && !(IsProducerStep(step) && step.p == p)
    ensures var t := Apply(s, step).value;
            && |t.producers| == |s.producers| && t.producers[p] == s.producers[p]
            && FromProducer(t.accepted, p) == FromProducer(s.accepted, p)
  {
    var t := Apply(s, step).value;
    if t.accepted != s.accepted {
      assert t.accepted[..|s.accepted|] == s.accepted;
    }
  }

  // One insertion: a taken value is appended for its producer, which owes a notification then; a refused
  // one changes nothing.
  lemma EnqueueTakes<T>(s: State<T>, p: nat, v: T, takes: bool)
    requires p < |s.producers| && s.producers[p].Idle?
    ensures Apply(s, Enqueue(p, v, takes)).Some?
    ensures var t := Apply(s, Enqueue(p, v, takes)).value;
            if !takes then t == s
            else FromProducer(t.accepted, p) == FromProducer(s.accepted, p) + [v] && Owes(t.producers[p])
  {
    assert (s.accepted + [Entry(p, v)])[..|s.accepted|] == s.accepted;
  }

  // A batch: whatever the others do meanwhile, after `n` taken insertions exactly the first `n` values of
  // the batch have been accepted from its producer, in order.
  lemma {:induction false} BatchTakesPrefix<T>(s: State<T>, p: nat, values: seq<T>, steps: seq<Step<T>>)
    requires p < |s.producers| && s.producers[p].Idle? && OnlyTakes(steps, p) && Takes(steps, p) <= |values|
    requires Apply(s, StartBatch(p, values)).Some? && Run(Apply(s, StartBatch(p, values)).value, steps).Some?
    ensures var t, n := Run(Apply(s, StartBatch(p, values)).value, steps).value, Takes(steps, p);
            && |t.producers| == |s.producers| && t.producers[p] == Batching(values, n)
            && FromProducer(t.accepted, p) == FromProducer(s.accepted, p) + values[..n]
    decreases |steps|
  {
    var started := Apply(s, StartBatch(p, values)).value;
    if steps == [] {
      assert values[..0] == [];
    } else {
      var init, last := steps[..|steps| - 1], steps[|steps| - 1];
      assert OnlyTakes(init, p);
      BatchTakesPrefix(s, p, values, init);
      var before := Run(started, init).value;
      if IsProducerStep(last) && last.p == p {
        BatchTakesOne(before, p, values, Takes(init, p));
      } else {
        OthersStep(before, last, p);
      }
    }
  }

  lemma BatchTakesOne<T>(s: State<T>, p: nat, values: seq<T>, n: nat)
    requires p < |s.producers| && s.producers[p] == Batching(values, n) && n < |values|
    ensures Apply(s, BatchNext(p, true)).Some?
    ensures var t := Apply(s, BatchNext(p, true)).value;
            && |t.producers| == |s.producers| && t.producers[p] == Batching(values, n + 1)
            && FromProducer(t.accepted, p) == FromProducer(s.accepted, p) + [values[n]]
    ensures values[..n + 1] == values[..n] + [values[n]]
  {
    assert (s.accepted + [Entry(p, values[n])])[..|s.accepted|] == s.accepted;
  }

  // A batch ends with the first refusal or after its last value; it owes a notification exactly if any of
  // its values was taken.
  lemma BatchEnds<T>(s: State<T>, p: nat, values: seq<T>, n: nat, takes: bool)
    requires p < |s.producers| && s.producers[p] == Batching(values, n) && n <= |values| && (n == |values| || !takes)
    ensures Apply(s, BatchNext(p, takes)).Some?
    ensures var t := Apply(s, BatchNext(p, takes)).value;
            && t.accepted == s.accepted && t.items == s.items
            && t.producers == s.producers[p := if n > 0 then Notifying else Idle]
  {
  }

  // ---------------------------------------------------------------------------------------------
  // Progress.

  predicate StepOf<T>(step: Step<T>, c: nat) {
    (step.Wake? || (step.Read? && step.call == Through) || step.TryDequeue?) && step.c == c
  }

  // All producers are done, and every consumer but `c` waits.
  ghost predicate OnlyRuns<T>(s: State<T>, c: nat) {
    && c < |s.consumers|
    && !SomeProducerOwes(s)
    && forall d :: 0 <= d < |s.consumers| && d != c ==> s.consumers[d] == Waiting
  }

  // How far a consumer is from waiting with nothing left to drain.
  function Distance(c: Consumer, count: nat): nat {
    match c
    case Draining => if count > 0 then 0 else 3
    case Waiting => if count > 0 then 1 else 0
    case Rechecking => if count > 0 then 2 else 1
    case Dequeuing => if count > 0 then 3 else 2
  }

  lemma {:induction false} RunFirst<T>(s: State<T>, step: Step<T>, rest: seq<Step<T>>)
    requires Apply(s, step).Some?
    ensures Run(s, [step] + rest) == Run(Apply(s, step).value, rest)
    decreases |rest|
  {
    hide Apply;
    var all := [step] + rest;
    if rest == [] {
      assert all[..0] == [];
      assert Run(s, all[..0]) == Some(s);
    } else {
      assert all[..|all| - 1] == [step] + rest[..|rest| - 1];
      RunFirst(s, step, rest[..|rest| - 1]);
    }
  }

  // What a consumer does next, left alone.
  function NextOf<T>(s: State<T>, c: nat): Step<T>
    requires c < |s.consumers|
  {
    match s.consumers[c]
    case Waiting => Wake(c)
    case Draining => Read(c, Through)
    case _ => TryDequeue(c)
  }

  lemma ConsumerStep<T>(s: State<T>, c: nat)
    requires s.order == DrainFirst && OnlyRuns(s, c) && Noticed(s)
    requires s.consumers[c] != Waiting || s.count > 0
    ensures Apply(s, NextOf(s, c)).Some?
    ensures var t := Apply(s, NextOf(s, c)).value;
            && t.order == DrainFirst && OnlyRuns(t, c) && Noticed(t)
            && t.producers == s.producers && t.accepted == s.accepted && t.delivered + t.items == s.delivered + s.items
            && (t.count < s.count || (t.count == s.count && |t.items| < |s.items|) ||
                (t.count == s.count && t.items == s.items && Distance(t.consumers[c], t.count) < Distance(s.consumers[c], s.count)))
  {
    var step := NextOf(s, c);
    var t := Apply(s, step).value;
    NoticedKept(s, step);
    if s.items != [] {
      assert s.items == [s.items[0]] + s.items[1..];
    }
  }

  // A consumer left alone empties the queue: from every state that the protocol can be in, without help
  // from a producer, it delivers all queued items in order and only then waits, with nothing to drain.
  lemma {:induction false} ConsumerEmptiesQueue<T>(s: State<T>, c: nat) returns (steps: seq<Step<T>>, t: State<T>)
    requires s.order == DrainFirst && OnlyRuns(s, c) && Noticed(s)
    ensures forall i :: 0 <= i < |steps| ==> StepOf(steps[i], c)
    ensures Run(s, steps) == Some(t)
    ensures t.items == [] && t.count == 0 && !SomeConsumerActive(t)
    ensures t.delivered == s.delivered + s.items && t.accepted == s.accepted && t.producers == s.producers
    decreases s.count, |s.items|, if c < |s.consumers| then Distance(s.consumers[c], s.count) else 0
  {
    hide Apply;
    if s.consumers[c] == Waiting && s.count == 0 {
      NothingMissed(s, c);
      return [], s;
    }
    ConsumerStep(s, c);
    var rest;
    rest, t := ConsumerEmptiesQueue(Apply(s, NextOf(s, c)).value, c);
    RunFirst(s, NextOf(s, c), rest);
    steps := [NextOf(s, c)] + rest;
  }

  lemma NothingMissed<T>(s: State<T>, c: nat)
    requires OnlyRuns(s, c) && Noticed(s) && s.consumers[c] == Waiting && s.count == 0
    ensures s.items == []
  {
  }

  // ---------------------------------------------------------------------------------------------
  // Why the discipline and the absence of faults are needed.

  ghost predicate Lost<T>(s: State<T>) {
    s.items != [] && s.count == 0 && !SomeProducerOwes(s) && !SomeConsumerActive(s)
  }

  // One producer and one consumer, before anything has happened.
  function Fresh(order: Discipline): (s: State<int>)
    ensures Init(s, order)
  {
    State(order, [Idle], [Waiting], [], 0, [], [], 0, 0, 0)
  }

  lemma {:induction false} RunThrough<T>(states: seq<State<T>>, steps: seq<Step<T>>)
    requires |states| == |steps| + 1
    requires forall k :: 0 <= k < |steps| ==> Apply(states[k], steps[k]) == Some(states[k + 1])
    ensures Run(states[0], steps) == Some(states[|steps|])
    decreases |steps|
  {
    hide Apply;
    if steps != [] {
      RunThrough(states[..|steps|], steps[..|steps| - 1]);
    }
  }

  lemma {:induction false} RunAppend<T>(s: State<T>, a: seq<Step<T>>, b: seq<Step<T>>)
    requires Run(s, a).Some?
    ensures Run(s, a + b) == Run(Run(s, a).value, b)
    decreases |b|
  {
    hide Apply;
    if b == [] {
      assert a + b == a;
    } else {
      assert (a + b)[..|a + b| - 1] == a + b[..|b| - 1];
      RunAppend(s, a, b[..|b| - 1]);
    }
  }

  // Liveness over whole runs: after any run without a failed call, once the producers are done, one
  // consumer alone brings it about that exactly the accepted items have been delivered, in their order.
  lemma EveryItemArrives<T>(s: State<T>, steps: seq<Step<T>>, c: nat) returns (more: seq<Step<T>>)
    requires Init(s, DrainFirst) && Run(s, steps).Some?
    requires Run(s, steps).value.faults == 0 && OnlyRuns(Run(s, steps).value, c)
    ensures forall i :: 0 <= i < |more| ==> StepOf(more[i], c)
    ensures Run(s, steps + more).Some?
    ensures Run(s, steps + more).value.delivered == Run(s, steps).value.accepted == Run(s, steps + more).value.accepted
    ensures !SomeConsumerActive(Run(s, steps + more).value)
  {
    hide Apply, StepOf, Noticed, SomeProducerOwes, SomeConsumerActive;
    NoLostWakeup(s, steps);
    ItemsConserved(s, DrainFirst, steps);
    var t;
    more, t := ConsumerEmptiesQueue(Run(s, steps).value, c);
    RunAppend(s, steps, more);
  }

  // An item is delivered, and the consumer has seen the queue empty twice.
  lemma DequeuedFirst() returns (steps: seq<Step<int>>)
    ensures Run(Fresh(DequeueFirst), steps).Some?
    ensures var s := Run(Fresh(DequeueFirst), steps).value;
            s.order == DequeueFirst && s.producers == [Idle] && s.consumers == [Draining] && s.items == [] && s.faults == 0
  {
    steps := [Enqueue(0, 1, true), Write(0, Through), Wake(0), TryDequeue(0), TryDequeue(0), TryDequeue(0)];
    var s0 := Fresh(DequeueFirst);
    var s1 := Apply(s0, steps[0]).value;
    var s2 := Apply(s1, steps[1]).value;
    var s3 := Apply(s2, steps[2]).value;
    var s4 := Apply(s3, steps[3]).value;
    var s5 := Apply(s4, steps[4]).value;
    var s6 := Apply(s5, steps[5]).value;
    RunThrough([s0, s1, s2, s3, s4, s5, s6], steps);
  }

  // The next item is announced, and its announcement read away.
  lemma ReadAway(s: State<int>) returns (steps: seq<Step<int>>)
    requires s.order == DequeueFirst && s.producers == [Idle] && s.consumers == [Draining] && s.items == []
    ensures Run(s, steps).Some? && Run(s, steps).value.faults == s.faults && Lost(Run(s, steps).value)
  {
    steps := [Enqueue(0, 2, true), Write(0, Through), Read(0, Through), Read(0, Through)];
    var s1 := Apply(s, steps[0]).value;
    var s2 := Apply(s1, steps[1]).value;
    var s3 := Apply(s2, steps[2]).value;
    var s4 := Apply(s3, steps[3]).value;
    RunThrough([s, s1, s2, s3, s4], steps);
  }

  // Draining after dequeuing instead of before loses a wakeup, although the queue was looked at again:
  // an item that arrives between that look and the read has its notification read away.
  lemma DequeueFirstLosesWakeup() returns (steps: seq<Step<int>>)
    ensures Run(Fresh(DequeueFirst), steps).Some?
    ensures Run(Fresh(DequeueFirst), steps).value.faults == 0 && Lost(Run(Fresh(DequeueFirst), steps).value)
  {
    hide Apply, Lost;
    var first := DequeuedFirst();
    var second := ReadAway(Run(Fresh(DequeueFirst), first).value);
    RunAppend(Fresh(DequeueFirst), first, second);
    steps := first + second;
  }

  // A write that fails otherwise leaves its item without a signal.
  lemma FaultLosesWakeup() returns (steps: seq<Step<int>>)
    ensures Run(Fresh(DrainFirst), steps).Some?
    ensures Run(Fresh(DrainFirst), steps).value.faults == 1 && Lost(Run(Fresh(DrainFirst), steps).value)
  {
    steps := [Enqueue(0, 1, true), Write(0, Failed)];
    var s0 := Fresh(DrainFirst);
    var s1 := Apply(s0, steps[0]).value;
    var s2 := Apply(s1, steps[1]).value;
    RunThrough([s0, s1, s2], steps);
  }
}
