// pbzip2's error context: a lazily created singleton that remembers the first
// non-zero kernel error number and the errno read by the latest saveError,
// which may be 0. The fiber mutex guarding
// it is a no-op in this sequential model. `errno` is read twice by
// saveError, once before and once after taking the lock, and the lock call
// may change it in between, so the two readings are separate inputs.
module Pbzip2ErrorContext {

  /** The two recorded error numbers. */
  datatype ErrState = ErrState(first: int, last: int)

  const Cleared := ErrState(0, 0)

  /** The state saveError leaves behind. `errnoOnEntry` is the value read
      into `newerr`; `errnoAfterLock` is the value read when `last` is stored.
      The first store goes to whichever field `err_ref` designates. */
  function AfterSave(s: ErrState, errnoOnEntry: int, errnoAfterLock: int): (r: ErrState)
    ensures r.last == errnoAfterLock
    ensures s.first == 0 && errnoOnEntry != 0 ==> r.first == errnoOnEntry
    ensures s.first != 0 ==> r.first == s.first
    ensures errnoOnEntry == 0 ==> r.first == s.first
  {
    var s1 :=
      if errnoOnEntry != 0 then
        if s.first == 0 then s.(first := errnoOnEntry) else s.(last := errnoOnEntry)
      else s;
    s1.(last := errnoAfterLock)
  }

  /** A call made on the singleton. */
  datatype Op = Save(errnoOnEntry: int, errnoAfterLock: int) | Reset

  /** The state after a sequence of calls, oldest first. */
  function Run(s: ErrState, ops: seq<Op>): ErrState
    decreases |ops|
  {
    if ops == [] then s
    else
      var s1 := match ops[0]
        case Save(e, l) => AfterSave(s, e, l)
        case Reset => Cleared;
      Run(s1, ops[1..])
  }

  predicate NoReset(ops: seq<Op>) {
    forall i :: 0 <= i < |ops| ==> ops[i].Save?
  }

  /** The first non-zero errno seen on entry to saveError, or 0. */
  function FirstError(ops: seq<Op>): int
    decreases |ops|
  {
    if ops == [] then 0
    else if ops[0].Save? && ops[0].errnoOnEntry != 0 then ops[0].errnoOnEntry
    else FirstError(ops[1..])
  }

  lemma {:induction false} RunAppend(s: ErrState, a: seq<Op>, b: seq<Op>)
    ensures Run(s, a + b) == Run(Run(s, a), b)
    decreases |a|
  {
    if a == [] {
      assert a + b == b;
    } else {
      assert (a + b)[1..] == a[1..] + b;
      var s1 := match a[0]
        case Save(e, l) => AfterSave(s, e, l)
        case Reset => Cleared;
      RunAppend(s1, a[1..], b);
    }
  }

  /** Without a reset in between, `first` ends up as the value it already
      had, or else as the first non-zero errno any saveError saw. */
  lemma {:induction false} RunFirst(s: ErrState, ops: seq<Op>)
    requires NoReset(ops)
    ensures Run(s, ops).first == (if s.first != 0 then s.first else FirstError(ops))
    decreases |ops|
  {
    if ops != [] {
      assert ops[0].Save?;
      RunFirst(AfterSave(s, ops[0].errnoOnEntry, ops[0].errnoAfterLock), ops[1..]);
    }
  }

  /** Once `first` is non-zero only reset changes it. */
  lemma FirstIsSticky(s: ErrState, ops: seq<Op>)
    requires s.first != 0 && NoReset(ops)
    ensures Run(s, ops).first == s.first
  {
    RunFirst(s, ops);
  }

  /** Starting from a cleared context, `first` is the earliest non-zero errno. */
  lemma FirstIsEarliestError(ops: seq<Op>)
    requires NoReset(ops)
    ensures Run(Cleared, ops).first == FirstError(ops)
  {
    RunFirst(Cleared, ops);
  }

  /** After any history, `last` is what errno held when the latest saveError
      stored it; the store of `newerr` into `last` never survives. */
  lemma LastIsLatestErrno(s: ErrState, ops: seq<Op>, errnoOnEntry: int, errnoAfterLock: int)
    ensures Run(s, ops + [Save(errnoOnEntry, errnoAfterLock)]).last == errnoAfterLock
  {
    RunAppend(s, ops, [Save(errnoOnEntry, errnoAfterLock)]);
  }

  /** A reset forgets everything that happened before it. */
  lemma ResetForgetsHistory(s: ErrState, before: seq<Op>, after: seq<Op>)
    ensures Run(s, before + [Reset] + after) == Run(Cleared, after)
  {
    RunAppend(s, before + [Reset], after);
    RunAppend(s, before, [Reset]);
  }

  /** ErrorContext: the two error-number fields of the singleton. */
  class ErrorContext {
    var firstKernelErrNo: int
    var lastKernelErrNo: int

    function State(): ErrState
      reads this
    {
      ErrState(firstKernelErrNo, lastKernelErrNo)
    }

    /** A new context records no error. */
    constructor ()
      ensures State() == Cleared
    {
      firstKernelErrNo, lastKernelErrNo := 0, 0;
    }

    /** saveError */
    method SaveError(errnoOnEntry: int, errnoAfterLock: int)
      modifies this
      ensures State() == AfterSave(old(State()), errnoOnEntry, errnoAfterLock)
    {
      var newErr := errnoOnEntry;
      if newErr != 0 {
        if firstKernelErrNo == 0 {
          firstKernelErrNo := newErr;
        } else {
          lastKernelErrNo := newErr;
        }
      }
      lastKernelErrNo := errnoAfterLock;
    }

    /** reset */
    method Reset()
      modifies this
      ensures State() == Cleared
    {
      lastKernelErrNo := 0;
      firstKernelErrNo := lastKernelErrNo;
    }
  }

  /** The static `_instance` pointer of ErrorContext. */
  class ErrorContextSingleton {
    var instance: ErrorContext?

    constructor ()
      ensures instance == null
    {
      instance := null;
    }

    /** getInstance: creates the context on first use and hands out the same
        one afterwards. `allocationSucceeds` stands for the outcome of the
        non-throwing `new`; when it fails, null is returned and a later call
        tries again. */
    method GetInstance(allocationSucceeds: bool) returns (r: ErrorContext?)
      modifies this
      ensures instance == r
      ensures old(instance) != null ==> r == old(instance)
      ensures old(instance) == null && allocationSucceeds ==> r != null && fresh(r) && r.State() == Cleared
      ensures old(instance) == null && !allocationSucceeds ==> r == null
    {
      if instance == null {
        if allocationSucceeds {
          instance := new ErrorContext();
        } else {
          instance := null;
        }
      }
      r := instance;
    }
  }
}
