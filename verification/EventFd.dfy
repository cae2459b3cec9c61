/** The notification counter of the operating system and the descriptor wrapped around it. */
module EventFd {
  import opened Wrappers

  // The highest value of the kernel's counter.
  const MAX_COUNT: nat := 0xFFFF_FFFF_FFFF_FFFE

  // How a system call goes: it takes effect, is interrupted first, or fails for another reason.
  datatype KernelCall = Through | Interrupted | Failed

  datatype IoError = WouldBlock | WasInterrupted | OtherError

  // A read takes the whole count; there is nothing to read at zero.
  function KernelRead(count: nat): Result<nat, IoError> {
    if count == 0 then Err(WouldBlock) else Ok(count)
  }

  // A write of one; it is refused at the highest value.
  function KernelWrite(count: nat): Result<nat, IoError> {
    if count >= MAX_COUNT then Err(WouldBlock) else Ok(count + 1)
  }

  // The interruptions end: some call from `from` on is not interrupted.
  ghost predicate Calms(kernel: nat -> KernelCall, from: nat) {
    exists n :: n >= from && kernel(n) != Interrupted
  }

  // The next call that is not interrupted.
  ghost predicate CalmAt(kernel: nat -> KernelCall, from: nat, n: nat) {
    n >= from && kernel(n) != Interrupted && forall k :: from <= k < n ==> kernel(k) == Interrupted
  }

  lemma {:induction false} CalmExists(kernel: nat -> KernelCall, from: nat, calm: nat) returns (n: nat)
    requires calm >= from && kernel(calm) != Interrupted
    ensures CalmAt(kernel, from, n)
    decreases calm - from
  {
    if kernel(from) != Interrupted {
      return from;
    }
    n := CalmExists(kernel, from + 1, calm);
  }

  lemma CalmNext(kernel: nat -> KernelCall, from: nat)
    requires Calms(kernel, from)
    ensures exists n :: CalmAt(kernel, from, n)
  {
    var w :| w >= from && kernel(w) != Interrupted;
    var n := CalmExists(kernel, from, w);
  }

  // A descriptor. `retries` holds for the Linux one: it repeats interrupted calls itself, where another
  // one may let the interruption out.
  class EventFd {
    const kernel: nat -> KernelCall
    const retries: bool
    var calls: nat
    var count: nat

    constructor (kernel: nat -> KernelCall, retries: bool)
      ensures this.kernel == kernel && this.retries == retries && count == 0 && calls == 0
    {
      this.kernel, this.retries, calls, count := kernel, retries, 0, 0;
    }

    ghost predicate Valid()
      reads this
    {
      count <= MAX_COUNT
    }

    // Reads and clears the count. `n` is the call that is not interrupted.
    method ReadNotification(ghost n: nat) returns (r: Result<nat, IoError>)
      requires Valid() && CalmAt(kernel, calls, n)
      modifies this
      ensures Valid() && old(calls) < calls <= n + 1
      ensures if !retries && n > old(calls) then r == Err(WasInterrupted) && count == old(count) && calls == old(calls) + 1
              else
                && calls == n + 1
                && r == (if kernel(n) == Failed then Err(OtherError) else if old(count) == 0 then Err(WouldBlock) else Ok(old(count)))
                && count == if r.Ok? then 0 else old(count)
    {
      var call := kernel(calls);
      calls := calls + 1;
      while call == Interrupted && retries
        invariant old(calls) < calls <= n + 1 && call == kernel(calls - 1) && count == old(count)
        invariant !retries ==> calls == old(calls) + 1
        decreases n + 1 - calls
      {
        call := kernel(calls);
        calls := calls + 1;
      }
      match call {
        case Interrupted => r := Err(WasInterrupted);
        case Failed => r := Err(OtherError);
        case Through =>
          r := KernelRead(count);
          count := if r.Ok? then 0 else count;
      }
    }

    // Adds one to the count.
    method WriteNotification(ghost n: nat) returns (r: Result<(), IoError>)
      requires Valid() && CalmAt(kernel, calls, n)
      modifies this
      ensures Valid() && old(calls) < calls <= n + 1
      ensures if !retries && n > old(calls) then r == Err(WasInterrupted) && count == old(count) && calls == old(calls) + 1
              else
                && calls == n + 1
                && (kernel(n) == Failed ==> r == Err(OtherError))
                && (kernel(n) == Through ==> r == if old(count) < 0xFFFF_FFFF_FFFF_FFFE then Ok(()) else Err(WouldBlock))
                && count == if r.Ok? then old(count) + 1 else old(count)
    {
      var call := kernel(calls);
      calls := calls + 1;
      while call == Interrupted && retries
        invariant old(calls) < calls <= n + 1 && call == kernel(calls - 1) && count == old(count)
        invariant !retries ==> calls == old(calls) + 1
        decreases n + 1 - calls
      {
        call := kernel(calls);
        calls := calls + 1;
      }
      match call {
        case Interrupted => r := Err(WasInterrupted);
        case Failed => r := Err(OtherError);
        case Through =>
          var written := KernelWrite(count);
          if written.Ok? {
            count := written.value;
            r := Ok(());
          } else {
            r := Err(written.error);
          }
      }
    }
  }
}
