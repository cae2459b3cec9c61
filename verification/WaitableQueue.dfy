/** A queue whose readers sleep on an event descriptor (`WaitableQueue`). */
module WaitableQueue {
  import opened Wrappers
  import opened EventFd

  // The count after one notification: saturation drops it, and leaves the descriptor readable.
  function Notified(count: nat): (after: nat)
    ensures after == (if count < 0xFFFF_FFFF_FFFF_FFFE then count + 1 else count) > 0
  {
    if count >= MAX_COUNT then count else count + 1
  }

  // How many of `n` insertions in a row the queue takes, the first refusal ending it.
  function Taken(accepts: nat -> bool, from: nat, n: nat): (taken: nat)
    ensures taken <= n
    ensures forall i :: from <= i < from + taken ==> accepts(i)
    ensures taken < n ==> !accepts(from + taken)
    decreases n
  {
    if n == 0 || !accepts(from) then 0 else 1 + Taken(accepts, from + 1, n - 1)
  }

  class WaitableQueue<T> {
    const fd: EventFd
    // Whether the storage takes the n-th insertion.
    const accepts: nat -> bool
    var attempts: nat
    var items: seq<T>

    constructor (accepts: nat -> bool, fd: EventFd)
      ensures this.fd == fd && this.accepts == accepts && items == [] && attempts == 0
    {
      this.fd, this.accepts, items, attempts := fd, accepts, [], 0;
    }

    ghost predicate Valid()
      reads this, fd
    {
      fd.Valid() && Calmly()
    }

    // No matter how many calls have been made, the interruptions end.
    ghost predicate Calmly() {
      forall from: nat :: Calms(fd.kernel, from)
    }

    // Signals that items are there, repeating interrupted writes.
    method Notify() returns (r: Result<(), IoError>)
      requires Valid()
      modifies fd
      ensures Valid()
      ensures r.Ok? ==> fd.count == Notified(old(fd.count))
      ensures r.Err? ==> r == Err(OtherError) && fd.count == old(fd.count) && exists k :: old(fd.calls) <= k < fd.calls && fd.kernel(k) == Failed
    {
      hide Calms;
      CalmNext(fd.kernel, fd.calls);
      ghost var n: nat :| CalmAt(fd.kernel, fd.calls, n);
      while true
        invariant Valid() && fd.count == old(fd.count) && old(fd.calls) <= fd.calls
        invariant CalmAt(fd.kernel, fd.calls, n)
        decreases n + 1 - fd.calls
      {
        var written := fd.WriteNotification(n);
        match written {
          case Ok(_) => return Ok(());
          case Err(WasInterrupted) => continue;
          case Err(WouldBlock) => return Ok(());
          case Err(OtherError) => return Err(OtherError);
        }
      }
    }

    method Enqueue(v: T) returns (r: Result<bool, IoError>)
      requires Valid()
      modifies this, fd
      ensures Valid() && attempts == old(attempts) + 1
      ensures !accepts(old(attempts)) ==> r == Ok(false) && items == old(items) && fd.count == old(fd.count)
      ensures accepts(old(attempts)) ==> items == old(items) + [v]
      ensures accepts(old(attempts)) && r.Ok? ==> r.value && fd.count == Notified(old(fd.count))
      ensures r.Err? ==> fd.count == old(fd.count) && exists k :: old(fd.calls) <= k < fd.calls && fd.kernel(k) == Failed
    {
      hide Notified, EventFd.Valid, Calmly;
      var taken := accepts(attempts);
      attempts := attempts + 1;
      if !taken {
        return Ok(false);
      }
      items := items + [v];
      var notified := Notify();
      return if notified.Ok? then Ok(true) else Err(notified.error);
    }

    // Inserts as many of the values as the storage takes, and signals them once.
    method EnqueueBatch(values: seq<T>) returns (r: Result<nat, IoError>)
      requires Valid()
      modifies this, fd
      ensures Valid()
      ensures var n := Taken(accepts, old(attempts), |values|);
              && items == old(items) + values[..n]
              && (n == 0 ==> r == Ok(0) && fd.count == old(fd.count))
              && (n > 0 && r.Ok? ==> r.value == n && fd.count == Notified(old(fd.count)))
              && (r.Err? ==> fd.count == old(fd.count) && exists k :: old(fd.calls) <= k < fd.calls && fd.kernel(k) == Failed)
    {
      hide Notified, EventFd.Valid, Calmly;
      var enqueued := 0;
      while enqueued < |values|
        invariant enqueued <= |values| && attempts == old(attempts) + enqueued
        invariant items == old(items) + values[..enqueued]
        invariant Taken(accepts, old(attempts), |values|) == enqueued + Taken(accepts, attempts, |values| - enqueued)
        invariant Valid() && fd.count == old(fd.count) && fd.calls == old(fd.calls)
      {
        var taken := accepts(attempts);
        attempts := attempts + 1;
        if !taken {
          break;
        }
        items := items + [values[enqueued]];
        enqueued := enqueued + 1;
      }
      if enqueued != 0 {
        var notified := Notify();
        return if notified.Ok? then Ok(enqueued) else Err(notified.error);
      }
      return Ok(0);
    }

    method TryDequeue() returns (v: Option<T>)
      modifies this`items
      ensures v.None? <==> old(items) == []
      ensures v.None? ==> items == []
      ensures v.Some? ==> old(items) == [v.value] + items
    {
      if items == [] {
        return None;
      }
      v := Some(items[0]);
      items := items[1..];
    }

    // Reads until nothing is left, repeating interrupted reads.
    method DrainNotifications() returns (r: Result<nat, IoError>)
      requires Valid()
      modifies fd
      ensures Valid()
      ensures r.Ok? ==> r.value == old(fd.count) && fd.count == 0
      ensures r.Err? ==> r == Err(OtherError) && exists k :: old(fd.calls) <= k < fd.calls && fd.kernel(k) == Failed
    {
      hide Calms;
      var total := 0;
      CalmNext(fd.kernel, fd.calls);
      ghost var n: nat :| CalmAt(fd.kernel, fd.calls, n);
      while true
        invariant Valid() && total + fd.count == old(fd.count) && old(fd.calls) <= fd.calls
        invariant CalmAt(fd.kernel, fd.calls, n)
        decreases fd.count, n + 1 - fd.calls
      {
        var read := fd.ReadNotification(n);
        match read {
          case Ok(value) =>
            total := total + value;
            CalmNext(fd.kernel, fd.calls);
            n :| CalmAt(fd.kernel, fd.calls, n);
          case Err(WasInterrupted) => continue;
          case Err(WouldBlock) => return Ok(total);
          case Err(OtherError) => return Err(OtherError);
        }
      }
    }
  }
}
