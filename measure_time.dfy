// Time-difference helpers of libfiber's measurement header: subtraction of
// two `struct timespec` values with a nanosecond borrow, and the classic
// `timeval_subtract`, which normalises its second argument in place.
//
// C `long`/`time_t`/`int` are modelled as unbounded integers. In both
// divisions of `timeval_subtract` the dividend is positive, so C's
// truncating `/` and Dafny's Euclidean `/` agree there.
module MeasureTime {

  const NanoSecondsInSec: int := 1000000000
  const MicroSecondsInSec: int := 1000000

  /** struct timespec */
  datatype TimeSpec = TimeSpec(tvSec: int, tvNsec: int)

  /** The instant a timespec denotes, in nanoseconds. */
  function TotalNsec(t: TimeSpec): int {
    t.tvSec * NanoSecondsInSec + t.tvNsec
  }

  predicate NsecNormalized(t: TimeSpec) {
    0 <= t.tvNsec < NanoSecondsInSec
  }

  /** TimeSpecDiff: ts1 - ts2, borrowing one second when the nanoseconds underflow. */
  function TimeSpecDiff(ts1: TimeSpec, ts2: TimeSpec): (ts: TimeSpec)
    ensures TotalNsec(ts) == TotalNsec(ts1) - TotalNsec(ts2)
    ensures ts1.tvNsec < ts2.tvNsec ==> ts.tvSec == ts1.tvSec - ts2.tvSec - 1
    ensures ts1.tvNsec >= ts2.tvNsec ==> ts.tvSec == ts1.tvSec - ts2.tvSec
    ensures NsecNormalized(ts1) && NsecNormalized(ts2) ==> NsecNormalized(ts)
  {
    var sec := ts1.tvSec - ts2.tvSec;
    var nsec := ts1.tvNsec - ts2.tvNsec;
    if nsec < 0 then TimeSpec(sec - 1, nsec + NanoSecondsInSec)
    else TimeSpec(sec, nsec)
  }

  /** With normalised inputs the difference is THE normalised representation
      of the elapsed time: any normalised timespec denoting the same number of
      nanoseconds is equal to it. */
  lemma TimeSpecDiffCanonical(ts1: TimeSpec, ts2: TimeSpec, t: TimeSpec)
    requires NsecNormalized(ts1) && NsecNormalized(ts2) && NsecNormalized(t)
    requires TotalNsec(t) == TotalNsec(ts1) - TotalNsec(ts2)
    ensures TimeSpecDiff(ts1, ts2) == t
  {
  }

  /** The header assumes ts1 is not earlier than ts2; under that assumption
      (and normalised inputs) the difference has a non-negative seconds part. */
  lemma TimeSpecDiffNonNegative(ts1: TimeSpec, ts2: TimeSpec)
    requires NsecNormalized(ts1) && NsecNormalized(ts2)
    requires TotalNsec(ts1) >= TotalNsec(ts2)
    ensures TimeSpecDiff(ts1, ts2).tvSec >= 0
  {
  }

  /** struct timeval: `timeval_subtract` updates one of these in place. */
  class TimeVal {
    var tvSec: int
    var tvUsec: int

    constructor (sec: int, usec: int)
      ensures tvSec == sec && tvUsec == usec
    {
      tvSec, tvUsec := sec, usec;
    }
  }

  /** The instant a timeval denotes, in microseconds. */
  function TotalUsec(sec: int, usec: int): int {
    sec * MicroSecondsInSec + usec
  }

  /** timeval_subtract: stores x - y into result and returns 1 when the
      difference is negative. The carry steps rewrite y, keeping the instant
      it denotes; x is never written. */
  method TimevalSubtract(result: TimeVal, x: TimeVal, y: TimeVal) returns (negative: int)
    requires result != x && result != y && x != y
    modifies result, y
    ensures TotalUsec(y.tvSec, y.tvUsec) == TotalUsec(old(y.tvSec), old(y.tvUsec))
    ensures TotalUsec(result.tvSec, result.tvUsec)
         == TotalUsec(x.tvSec, x.tvUsec) - TotalUsec(old(y.tvSec), old(y.tvUsec))
    ensures 0 <= result.tvUsec <= MicroSecondsInSec
    ensures 0 <= x.tvUsec < MicroSecondsInSec && 0 <= old(y.tvUsec) < MicroSecondsInSec
            ==> result.tvUsec < MicroSecondsInSec
    ensures negative == (if result.tvSec < 0 then 1 else 0)
    ensures x.tvSec == old(x.tvSec) && x.tvUsec == old(x.tvUsec)
  {
    // carry for the later subtraction
    if x.tvUsec < y.tvUsec {
      var nsec := (y.tvUsec - x.tvUsec) / MicroSecondsInSec + 1;
      y.tvUsec := y.tvUsec - MicroSecondsInSec * nsec;
      y.tvSec := y.tvSec + nsec;
    }
    if x.tvUsec - y.tvUsec > MicroSecondsInSec {
      var nsec := (x.tvUsec - y.tvUsec) / MicroSecondsInSec;
      y.tvUsec := y.tvUsec + MicroSecondsInSec * nsec;
      y.tvSec := y.tvSec - nsec;
    }

    result.tvSec := x.tvSec - y.tvSec;
    result.tvUsec := x.tvUsec - y.tvUsec;

    negative := if x.tvSec < y.tvSec then 1 else 0;
  }
}
