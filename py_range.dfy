/** Python's built-in `range(start, stop, step)`, for a non-negative start and step. */
module PyRange {
  import opened Wrappers

  /** `range()` raises `ValueError` when its step is zero. */
  datatype RangeError = ZeroStep

  /** The values `start, start + step, ...` that lie strictly below `stop`. */
  function Upto(start: nat, stop: int, step: nat): (r: seq<nat>)
    requires step > 0
    ensures |r| == 0 <==> start >= stop
    ensures |r| > 0 ==> r[0] == start
    ensures forall i :: 0 <= i < |r| - 1 ==> r[i + 1] == r[i] + step
    ensures forall x :: x in r ==> start <= x < stop
    decreases stop - start
  {
    if start >= stop then [] else [start] + Upto(start + step, stop, step)
  }

  /** `range(0, stop, step)`: a failure for a zero step, the ascending frames otherwise. */
  function Range(stop: int, step: nat): (r: Result<seq<nat>, RangeError>)
    ensures r.Failure? <==> step == 0
    ensures r.Success? ==> r.value == Upto(0, stop, step)
  {
    if step == 0 then Failure(ZeroStep) else Success(Upto(0, stop, step))
  }

  /** The i-th value of the range is `start + i * step`, and index i exists exactly
      when that value is still below `stop`. */
  lemma {:induction false} UptoIndex(start: nat, stop: int, step: nat, i: nat)
    requires step > 0
    ensures start + i * step < stop <==> i < |Upto(start, stop, step)|
    ensures i < |Upto(start, stop, step)| ==> Upto(start, stop, step)[i] == start + i * step
    decreases i
  {
    if i > 0 && start < stop {
      UptoIndex(start + step, stop, step, i - 1);
      assert start + i * step == (start + step) + (i - 1) * step;
    }
  }
}
