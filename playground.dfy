/** The stop-at-end animation script of old/playground.py: one channel, a one-second
    window, and a frame schedule built with `range`; each frame either draws the window
    starting at that frame or stops the animation. */
module Playground {
  import opened Wrappers
  import PyRange

  /** One second of samples. */
  function WindowSize(sfreq: nat): nat { sfreq }

  /** `int(sfreq / 10)`: a tenth of a second of samples, truncated. */
  function Step(sfreq: nat): nat { sfreq / 10 }

  /** `range(0, n - window_size, step)`: the start index of every frame. */
  function Schedule(sfreq: nat, n: nat): (r: Result<seq<nat>, PyRange.RangeError>)
    ensures r.Failure? <==> sfreq < 10
  {
    PyRange.Range(n as int - WindowSize(sfreq), Step(sfreq))
  }

  /** What one call of `update(frame)` does. */
  datatype Frame<T> =
    | Stop
      /** `line.set_data(x, y)` and `ax.set_xlim(xlim.0, xlim.1)`. */
    | Drawn(x: seq<T>, y: seq<T>, xlim: (T, T))
      /** An empty window: `x[0]` raises `IndexError` after the line was emptied. */
    | EmptyWindow

  /** `update(frame)` over the timestamps and the samples of the plotted channel (the
      script fixes it to row 8 of the matrix before any frame runs). */
  function Update<T>(frame: nat, times: seq<T>, row: seq<T>, windowSize: nat): (r: Frame<T>)
    requires |times| == |row|
    ensures r.Stop? <==> frame + windowSize > |row|
    ensures r.EmptyWindow? <==> frame + windowSize <= |row| && windowSize == 0
    ensures r.Drawn? ==>
      |r.x| == windowSize && |r.y| == windowSize &&
      (forall k :: 0 <= k < windowSize ==> r.x[k] == times[frame + k] && r.y[k] == row[frame + k]) &&
      r.xlim == (times[frame], times[frame + windowSize - 1])
  {
    var start := frame;
    var end := start + windowSize;
    if end > |row| then Stop
    else
      var x := times[start..end];
      var y := row[start..end];
      if |x| == 0 then EmptyWindow else Drawn(x, y, (x[0], x[|x| - 1]))
  }

  /** The k-th scheduled frame is `k * step`, and the k-th frame exists exactly when a
      window from `k * step` would end strictly before the end of the signal. */
  lemma ScheduleFrames(sfreq: nat, n: nat, k: nat)
    requires sfreq >= 10
    ensures var frames := Schedule(sfreq, n).value;
            (k < |frames| <==> k * Step(sfreq) + WindowSize(sfreq) < n) &&
            (k < |frames| ==> frames[k] == k * Step(sfreq))
  {
    PyRange.UptoIndex(0, n as int - WindowSize(sfreq), Step(sfreq), k);
  }

  /** The frames are strictly increasing. */
  lemma ScheduleIncreasing(sfreq: nat, n: nat, i: nat, j: nat)
    requires sfreq >= 10
    requires i < j < |Schedule(sfreq, n).value|
    ensures Schedule(sfreq, n).value[i] < Schedule(sfreq, n).value[j]
  {
    ScheduleFrames(sfreq, n, i);
    ScheduleFrames(sfreq, n, j);
    MulLess(i, j, Step(sfreq));
  }

  lemma {:induction false} MulLess(i: nat, j: nat, s: nat)
    requires i < j && s > 0
    ensures i * s < j * s
    decreases j
  {
    if i + 1 < j {
      MulLess(i, j - 1, s);
    }
    assert j * s == (j - 1) * s + s;
  }

  /** Every scheduled frame draws a full one-second window: the stop branch is never
      taken on the schedule. */
  lemma ScheduledFramesDraw<T>(sfreq: nat, times: seq<T>, row: seq<T>, f: nat)
    requires |times| == |row|
    requires sfreq >= 10
    requires f in Schedule(sfreq, |row|).value
    ensures Update(f, times, row, WindowSize(sfreq)).Drawn?
    ensures f + WindowSize(sfreq) < |row|
  {
  }

  /** A window ending exactly at the last sample is still drawn by `update`, but the
      schedule never asks for it. */
  lemma FinalWindowNotScheduled<T>(sfreq: nat, times: seq<T>, row: seq<T>)
    requires |times| == |row|
    requires 10 <= sfreq <= |row|
    ensures Update(|row| - sfreq, times, row, WindowSize(sfreq)).Drawn?
    ensures |row| - sfreq !in Schedule(sfreq, |row|).value
  {
  }

  /** At 256 Hz over 1000 samples the window is 256 samples and the step 25; there are
      30 frames, the first draws samples `[0, 256)` and the second `[25, 281)`. */
  lemma Example256<T>(times: seq<T>, row: seq<T>)
    requires |times| == |row| == 1000
    ensures Schedule(256, 1000).Success?
    ensures var frames := Schedule(256, 1000).value;
            |frames| == 30 && frames[0] == 0 && frames[1] == 25 &&
            Update(frames[0], times, row, 256) == Drawn(times[0..256], row[0..256], (times[0], times[255])) &&
            Update(frames[1], times, row, 256) == Drawn(times[25..281], row[25..281], (times[25], times[280]))
  {
    ScheduleFrames(256, 1000, 0);
    ScheduleFrames(256, 1000, 1);
    ScheduleFrames(256, 1000, 29);
    ScheduleFrames(256, 1000, 30);
  }
}
