/** cmd/vcert/utils.go, retrieveCertificate: asking for a certificate until it is issued or the time
    is up. Times are in nanoseconds. */
module Polling {

  const PAUSE := 5_000_000_000

  datatype Answer = Pending | Failed(error: string) | Nothing | Issued(certificate: string)

  datatype Result =
    | Certificate(certificate: string)
    | RemoteError(error: string)
    | StillPending
    | NotReturned
    | TimedOut

  /** The remote side and the clock. The answers, the time each call takes and the time each pause
      overruns are fixed but unknown. */
  class Remote {
    const answers: nat -> Answer
    const callTime: nat -> nat
    const overrun: nat -> nat
    var now: nat
    var calls: nat

    constructor (answers: nat -> Answer, callTime: nat -> nat, overrun: nat -> nat, now: nat)
      ensures this.answers == answers && this.callTime == callTime && this.overrun == overrun
      ensures this.now == now && calls == 0
    {
      this.answers, this.callTime, this.overrun := answers, callTime, overrun;
      this.now, calls := now, 0;
    }

    method Ask() returns (a: Answer)
      modifies this
      ensures a == answers(old(calls)) && calls == old(calls) + 1 && now == old(now) + callTime(old(calls))
    {
      a := answers(calls);
      now := now + callTime(calls);
      calls := calls + 1;
    }

    method Sleep(duration: nat)
      requires calls > 0
      modifies this`now
      ensures now == old(now) + duration + overrun(calls - 1)
    {
      now := now + duration + overrun(calls - 1);
    }
  }

  // ---------- the run, as a function of the answers and times ----------

  /** Time from the start to the beginning of call n, each earlier call being followed by a pause. */
  function Begins(callTime: nat -> nat, overrun: nat -> nat, n: nat): nat {
    if n == 0 then 0 else Begins(callTime, overrun, n - 1) + callTime(n - 1) + PAUSE + overrun(n - 1)
  }

  /** Time from the start to the return of call n. */
  function Elapsed(callTime: nat -> nat, overrun: nat -> nat, n: nat): nat {
    Begins(callTime, overrun, n) + callTime(n)
  }

  /** The loop leaves at call n. */
  predicate Leaves(answers: nat -> Answer, callTime: nat -> nat, overrun: nat -> nat, timeout: int, n: nat) {
    answers(n) != Pending || timeout <= 0 || Elapsed(callTime, overrun, n) > timeout
  }

  function ResultAt(answers: nat -> Answer, timeout: int, n: nat): Result {
    match answers(n)
    case Issued(c) => Certificate(c)
    case Failed(e) => RemoteError(e)
    case Nothing => NotReturned
    case Pending => if timeout > 0 then TimedOut else StillPending
  }

  /** Call n is the first at which the loop leaves. */
  ghost predicate LastCall(answers: nat -> Answer, callTime: nat -> nat, overrun: nat -> nat, timeout: int, n: nat) {
    && Leaves(answers, callTime, overrun, timeout, n)
    && forall i: nat | i < n :: !Leaves(answers, callTime, overrun, timeout, i)
  }

  lemma {:induction false} PausesAddUp(callTime: nat -> nat, overrun: nat -> nat, n: nat)
    ensures Begins(callTime, overrun, n) >= PAUSE * n
  {
    if n > 0 {
      PausesAddUp(callTime, overrun, n - 1);
    }
  }

  method RetrieveCertificate(remote: Remote, timeout: int) returns (r: Result)
    requires remote.calls == 0
    modifies remote
    ensures remote.calls > 0
    ensures LastCall(remote.answers, remote.callTime, remote.overrun, timeout, remote.calls - 1)
    ensures r == ResultAt(remote.answers, timeout, remote.calls - 1)
  {
    var startTime := remote.now;
    while true
      invariant remote.now == startTime + Begins(remote.callTime, remote.overrun, remote.calls)
      invariant forall i: nat | i < remote.calls :: !Leaves(remote.answers, remote.callTime, remote.overrun, timeout, i)
      decreases timeout - PAUSE * remote.calls
    {
      PausesAddUp(remote.callTime, remote.overrun, remote.calls);
      var answer := remote.Ask();
      match answer {
        case Issued(c) =>
          return Certificate(c);
        case Nothing =>
          return NotReturned;
        case Failed(e) =>
          return RemoteError(e);
        case Pending =>
          if timeout > 0 {
            if remote.now > startTime + timeout {
              return TimedOut;
            }
            remote.Sleep(PAUSE);
          } else {
            return StillPending;
          }
      }
    }
  }

  // ---------- theorems ----------

  /** The first answer that is not pending is the one returned, unless time ran out while every
      answer so far was pending; a time-out is never early. Without a positive timeout a pending answer is
      reported as such. */
  lemma FirstAnswerOrTimeUp(answers: nat -> Answer, callTime: nat -> nat, overrun: nat -> nat, timeout: int, n: nat)
    requires LastCall(answers, callTime, overrun, timeout, n)
    ensures forall i: nat | i < n :: answers(i) == Pending && Elapsed(callTime, overrun, i) <= timeout
    ensures ResultAt(answers, timeout, n) == TimedOut <==>
              answers(n) == Pending && timeout > 0 && Elapsed(callTime, overrun, n) > timeout
    ensures forall c :: ResultAt(answers, timeout, n) == Certificate(c) <==> answers(n) == Issued(c)
    ensures forall e :: ResultAt(answers, timeout, n) == RemoteError(e) <==> answers(n) == Failed(e)
    ensures ResultAt(answers, timeout, n) == NotReturned <==> answers(n) == Nothing
    ensures ResultAt(answers, timeout, n) == StillPending <==> answers(n) == Pending && timeout <= 0
  {
    forall i: nat | i < n ensures answers(i) == Pending && Elapsed(callTime, overrun, i) <= timeout {
      assert !Leaves(answers, callTime, overrun, timeout, i);
    }
  }

  /** At most one call for each whole pause in the timeout, and two more; exactly one call if the
      timeout is not positive. */
  lemma CallBound(answers: nat -> Answer, callTime: nat -> nat, overrun: nat -> nat, timeout: int, n: nat)
    requires LastCall(answers, callTime, overrun, timeout, n)
    ensures timeout > 0 ==> n + 1 <= timeout / 5_000_000_000 + 2
    ensures timeout <= 0 ==> n == 0
  {
    if n > 0 {
      assert !Leaves(answers, callTime, overrun, timeout, n - 1);
      PausesAddUp(callTime, overrun, n - 1);
    }
  }

  function NoTime(n: nat): nat {
    0
  }

  function NeverReady(n: nat): Answer {
    Pending
  }

  lemma {:induction false} InstantCalls(n: nat)
    ensures Begins(NoTime, NoTime, n) == PAUSE * n
  {
    if n > 0 {
      InstantCalls(n - 1);
    }
  }

  /** The bound is met: instant calls that stay pending, with exact pauses, use every call of it. */
  lemma CallBoundIsMet(timeout: int)
    requires timeout > 0
    ensures LastCall(NeverReady, NoTime, NoTime, timeout, timeout / 5_000_000_000 + 1)
  {
    InstantCalls(timeout / PAUSE + 1);
    forall i: nat | i < timeout / PAUSE + 1 ensures !Leaves(NeverReady, NoTime, NoTime, timeout, i) {
      InstantCalls(i);
    }
  }
}
