/** The looping replay cursor of main.py's `MainWindow`: a pointer `ptr` into a
    pre-loaded channel-by-sample matrix, a `step` it advances by on each timer tick,
    a window of `window_samples` samples delivered to every channel's curve, and one
    stream button that toggles playback. */
module Playback {
  import PyRange

  /** One `setData` call: the curve of `channel` receives `samples`. */
  datatype Delivery<T> = Delivery(channel: nat, samples: seq<T>)

  /** The playback state that the tick and the button act on. */
  datatype Cursor = Cursor(streaming: bool, ptr: nat)

  /** What can happen to the cursor: a click on the stream button, or a timer timeout. */
  datatype Event = StreamButton | TimerTick

  /** Seconds of signal shown at once. */
  const WindowSec: nat := 5

  function WindowSamples(sfreq: nat): nat { WindowSec * sfreq }

  /** `int(sfreq / 20)`: fifty milliseconds of samples, truncated. */
  function StepSize(sfreq: nat): nat { sfreq / 20 }

  /** Every row of the matrix holds `n` samples. */
  ghost predicate Rectangular<T>(data: seq<seq<T>>, n: nat) {
    forall ci :: 0 <= ci < |data| ==> |data[ci]| == n
  }

  /** `x` is a multiple of `step`: `0, step, 2 * step, ...` (only 0 when the step is 0). */
  predicate MultipleOf(x: nat, step: nat)
    decreases x
  {
    x == 0 || (0 < step <= x && MultipleOf(x - step, step))
  }

  /** numpy's `a[lo:hi]` for non-negative bounds: both bounds are clipped to the row. */
  function NpSlice<T>(a: seq<T>, lo: nat, hi: nat): (r: seq<T>)
    ensures lo <= hi <= |a| ==> r == a[lo..hi]
    ensures lo <= |a| <= hi ==> r == a[lo..]
    ensures |a| <= lo ==> r == []
  {
    var lo', hi' := if lo < |a| then lo else |a|, if hi < |a| then hi else |a|;
    if lo' <= hi' then a[lo'..hi'] else []
  }

  /** Where the next window starts: the pointer itself, or 0 when a window from the
      pointer would reach or pass the end of the signal. */
  function ServedStart(ptr: nat, ws: nat, n: nat): (p: nat)
    ensures p == 0 || p + ws < n
    ensures ptr + ws >= n ==> p == 0
    ensures p == ptr <==> ptr + ws < n || ptr == 0
  {
    if ptr + ws >= n then 0 else ptr
  }

  /** The window of every channel, in channel order, starting at `p`. */
  function Windows<T>(data: seq<seq<T>>, p: nat, ws: nat): (r: seq<Delivery<T>>)
    ensures |r| == |data|
    ensures forall ci :: 0 <= ci < |data| ==>
      r[ci].channel == ci && (p + ws <= |data[ci]| ==> r[ci].samples == data[ci][p..p + ws])
  {
    seq(|data|, ci requires 0 <= ci < |data| => Delivery(ci, NpSlice(data[ci], p, p + ws)))
  }

  /** The stream button. */
  function Toggle(c: Cursor): (r: Cursor)
    ensures r.streaming == !c.streaming
    ensures r.ptr == c.ptr
  {
    c.(streaming := !c.streaming)
  }

  /** The state after one timer tick. */
  function Tick(c: Cursor, ws: nat, step: nat, n: nat): (r: Cursor)
    ensures r.streaming == c.streaming
    ensures !c.streaming ==> r == c
    ensures c.streaming && c.ptr + ws >= n ==> r.ptr == step
    ensures c.streaming && c.ptr + ws < n ==> r.ptr == c.ptr + step
  {
    if !c.streaming then c else Cursor(true, ServedStart(c.ptr, ws, n) + step)
  }

  /** The windows one timer tick delivers. */
  function TickOutput<T>(c: Cursor, data: seq<seq<T>>, ws: nat, n: nat): (r: seq<Delivery<T>>)
    ensures |r| == if c.streaming then |data| else 0
    ensures c.streaming ==> forall ci :: 0 <= ci < |data| ==> r[ci].channel == ci
  {
    if !c.streaming then [] else Windows(data, ServedStart(c.ptr, ws, n), ws)
  }

  function Step(c: Cursor, e: Event, ws: nat, step: nat, n: nat): Cursor {
    match e
    case StreamButton => Toggle(c)
    case TimerTick => Tick(c, ws, step, n)
  }

  /** The state after a sequence of events. */
  function Run(c: Cursor, evs: seq<Event>, ws: nat, step: nat, n: nat): Cursor
    decreases |evs|
  {
    if evs == [] then c else Run(Step(c, evs[0], ws, step, n), evs[1..], ws, step, n)
  }

  /** Everything the sink receives during a sequence of events, in order. */
  function Output<T>(c: Cursor, evs: seq<Event>, data: seq<seq<T>>, ws: nat, step: nat, n: nat): seq<Delivery<T>>
    decreases |evs|
  {
    if evs == [] then []
    else
      (if evs[0] == TimerTick then TickOutput(c, data, ws, n) else [])
      + Output(Step(c, evs[0], ws, step, n), evs[1..], data, ws, step, n)
  }

  /** `t` timer ticks in a row, with the button left alone. */
  function Ticks(c: Cursor, t: nat, ws: nat, step: nat, n: nat): Cursor
    decreases t
  {
    if t == 0 then c else Tick(Ticks(c, t - 1, ws, step, n), ws, step, n)
  }

  /** What holds of the pointer between ticks: it is a multiple of the step, and unless it
      is 0 it sits one step past a start that was actually served. The pointer may lie
      beyond the end of the signal, but only until the next tick wraps it. */
  predicate Placed(ptr: nat, ws: nat, step: nat, n: nat) {
    MultipleOf(ptr, step) &&
    (ptr == 0 || (step <= ptr && (ptr - step == 0 || ptr - step + ws < n)))
  }

  lemma MultipleAdvance(p: nat, step: nat)
    requires MultipleOf(p, step)
    ensures MultipleOf(p + step, step)
  {
  }

  /** One tick keeps the pointer placed. */
  lemma TickKeepsPlaced(c: Cursor, ws: nat, step: nat, n: nat)
    requires Placed(c.ptr, ws, step, n)
    ensures Placed(Tick(c, ws, step, n).ptr, ws, step, n)
  {
    if c.streaming {
      var p := ServedStart(c.ptr, ws, n);
      assert MultipleOf(p, step);
      MultipleAdvance(p, step);
    }
  }

  /** No sequence of clicks and ticks takes the pointer off a multiple of the step or away
      from a served start. */
  lemma {:induction false} RunKeepsPlaced(c: Cursor, evs: seq<Event>, ws: nat, step: nat, n: nat)
    requires Placed(c.ptr, ws, step, n)
    ensures Placed(Run(c, evs, ws, step, n).ptr, ws, step, n)
    decreases |evs|
  {
    if evs != [] {
      var c' := Step(c, evs[0], ws, step, n);
      if evs[0] == TimerTick {
        TickKeepsPlaced(c, ws, step, n);
      }
      RunKeepsPlaced(c', evs[1..], ws, step, n);
    }
  }

  /** From the initial state, every reachable pointer is a multiple of the step. */
  lemma ReachablePointerIsMultiple(evs: seq<Event>, ws: nat, step: nat, n: nat)
    ensures MultipleOf(Run(Cursor(false, 0), evs, ws, step, n).ptr, step)
  {
    RunKeepsPlaced(Cursor(false, 0), evs, ws, step, n);
  }

  /** A streaming tick from a placed pointer, on a signal longer than the window, serves
      for each channel in ascending order the full window `data[ci][p .. p + ws]`, whose
      start `p` is a multiple of the step and whose end stays strictly before the last
      sample; afterwards the pointer is `p + step`. */
  lemma TickServesFullWindows<T>(c: Cursor, data: seq<seq<T>>, ws: nat, step: nat, n: nat)
    requires Rectangular(data, n)
    requires Placed(c.ptr, ws, step, n)
    requires c.streaming
    requires ws < n
    ensures var p := ServedStart(c.ptr, ws, n);
            var out := TickOutput(c, data, ws, n);
            p + ws < n && MultipleOf(p, step) &&
            Tick(c, ws, step, n) == Cursor(true, p + step) &&
            |out| == |data| &&
            forall ci :: 0 <= ci < |data| ==>
              out[ci].channel == ci && |out[ci].samples| == ws &&
              out[ci].samples == data[ci][p..p + ws]
  {
  }

  /** The wrap happens before reading: when a window from the pointer would reach or pass
      the end, the windows served start at 0 and the pointer becomes `step`. */
  lemma TickWrapsBeforeReading<T>(c: Cursor, data: seq<seq<T>>, ws: nat, step: nat, n: nat)
    requires Rectangular(data, n)
    requires c.streaming
    requires c.ptr + ws >= n
    ensures Tick(c, ws, step, n).ptr == step
    ensures var out := TickOutput(c, data, ws, n);
            |out| == |data| &&
            forall ci :: 0 <= ci < |data| ==>
              out[ci] == Delivery(ci, if ws <= n then data[ci][..ws] else data[ci])
  {
    var out := TickOutput(c, data, ws, n);
    forall ci | 0 <= ci < |data|
      ensures out[ci] == Delivery(ci, if ws <= n then data[ci][..ws] else data[ci])
    {
      assert out[ci] == Delivery(ci, NpSlice(data[ci], 0, ws));
      assert data[ci][0..] == data[ci];
    }
  }

  /** A paused tick changes nothing and delivers nothing. */
  lemma PausedTickIsNoop<T>(c: Cursor, data: seq<seq<T>>, ws: nat, step: nat, n: nat)
    requires !c.streaming
    ensures Tick(c, ws, step, n) == c
    ensures TickOutput(c, data, ws, n) == []
  {
  }

  /** Two clicks of the stream button restore the state. */
  lemma ToggleTwice(c: Cursor)
    ensures Toggle(Toggle(c)) == c
  {
  }

  /** Each delivery is to one of the `channels` curves and holds `ws` samples. */
  ghost predicate FullWindows<T>(out: seq<Delivery<T>>, channels: nat, ws: nat) {
    forall i :: 0 <= i < |out| ==> out[i].channel < channels && |out[i].samples| == ws
  }

  /** Over any sequence of clicks and ticks, on a signal longer than the window, every
      delivery names an existing channel and carries exactly `ws` samples. */
  lemma {:induction false} RunDeliversFullWindows<T>(c: Cursor, evs: seq<Event>, data: seq<seq<T>>, ws: nat, step: nat, n: nat)
    requires Rectangular(data, n)
    requires ws < n
    ensures FullWindows(Output(c, evs, data, ws, step, n), |data|, ws)
    decreases |evs|
  {
    if evs != [] {
      var head := if evs[0] == TimerTick then TickOutput(c, data, ws, n) else [];
      var c' := Step(c, evs[0], ws, step, n);
      RunDeliversFullWindows(c', evs[1..], data, ws, step, n);
      var tail := Output(c', evs[1..], data, ws, step, n);
      var out := Output(c, evs, data, ws, step, n);
      assert out == head + tail;
      var p := ServedStart(c.ptr, ws, n);
      forall i | 0 <= i < |out| ensures out[i].channel < |data| && |out[i].samples| == ws {
        if i < |head| {
          assert head == Windows(data, p, ws);
          assert out[i] == head[i] == Delivery(i, NpSlice(data[i], p, p + ws));
          assert |data[i]| == n;
          assert |NpSlice(data[i], p, p + ws)| == ws;
          assert out[i].channel < |data|;
        } else {
          assert out[i] == tail[i - |head|];
          assert tail[i - |head|].channel < |data|;
          assert |tail[i - |head|].samples| == ws;
        }
      }
    }
  }

  lemma {:induction false} TicksKeepStreaming(c: Cursor, t: nat, ws: nat, step: nat, n: nat)
    requires c.streaming
    ensures Ticks(c, t, ws, step, n).streaming
    decreases t
  {
    if t > 0 {
      TicksKeepStreaming(c, t - 1, ws, step, n);
    }
  }

  /** From the window at frame i, the next tick serves frame i + 1, or frame 0 after the
      last frame. */
  lemma NextFrame(c: Cursor, i: nat, ws: nat, step: nat, n: nat)
    requires step > 0
    requires c.streaming
    requires i < |PyRange.Upto(0, n - ws, step)|
    requires ServedStart(c.ptr, ws, n) == i * step
    ensures var m := |PyRange.Upto(0, n - ws, step)|;
            ServedStart(Tick(c, ws, step, n).ptr, ws, n) == if i + 1 < m then (i + 1) * step else 0
  {
    PyRange.UptoIndex(0, n - ws, step, i + 1);
    assert i * step + step == (i + 1) * step;
  }

  lemma TicksUnfold(c: Cursor, t: nat, ws: nat, step: nat, n: nat)
    ensures Ticks(c, t + 1, ws, step, n) == Tick(Ticks(c, t, ws, step, n), ws, step, n)
  {
  }

  /** The frame a cycling counter over m frames is at after t ticks. */
  function CycleIndex(t: nat, m: nat): (j: nat)
    requires m > 0
    ensures j < m
    decreases t
  {
    if t == 0 then 0
    else if CycleIndex(t - 1, m) + 1 < m then CycleIndex(t - 1, m) + 1
    else 0
  }

  /** After t streaming ticks from pointer 0, the next window starts at frame
      `CycleIndex(t, m)` of `range(0, n - ws, step)`. */
  lemma {:induction false} TicksFollowCycle(t: nat, ws: nat, step: nat, n: nat)
    requires step > 0
    requires ws < n
    ensures var frames := PyRange.Upto(0, n - ws, step);
            |frames| > 0 &&
            ServedStart(Ticks(Cursor(true, 0), t, ws, step, n).ptr, ws, n) == frames[CycleIndex(t, |frames|)]
    decreases t
  {
    var frames := PyRange.Upto(0, n - ws, step);
    var m := |frames|;
    PyRange.UptoIndex(0, n - ws, step, 0);
    var j := CycleIndex(t, m);
    PyRange.UptoIndex(0, n - ws, step, j);
    if t > 0 {
      var start := Cursor(true, 0);
      var i := CycleIndex(t - 1, m);
      TicksFollowCycle(t - 1, ws, step, n);
      PyRange.UptoIndex(0, n - ws, step, i);
      TicksKeepStreaming(start, t - 1, ws, step, n);
      NextFrame(Ticks(start, t - 1, ws, step, n), i, ws, step, n);
      TicksUnfold(start, t - 1, ws, step, n);
    }
  }

  /** The counter is back at frame i after q full rounds and i more ticks. */
  lemma {:induction false} CycleIndexAfterRounds(q: nat, i: nat, m: nat)
    requires i < m
    ensures CycleIndex(q * m + i, m) == i
    decreases q, i
  {
    if i > 0 {
      CycleIndexAfterRounds(q, i - 1, m);
      assert q * m + i - 1 == q * m + (i - 1);
    } else if q > 0 {
      CycleIndexAfterRounds(q - 1, m - 1, m);
      assert (q - 1) * m + (m - 1) == q * m - 1 by {
        assert (q - 1) * m + m == q * m;
      }
    }
  }

  /** The looping player visits exactly the frames of `range(0, n - ws, step)`, over and
      over: with m frames, the tick numbered `q * m + i` (counting from 0, after
      streaming starts at pointer 0) serves the window that starts at frame i. */
  lemma StreamingCyclesThroughFrames(q: nat, i: nat, ws: nat, step: nat, n: nat)
    requires step > 0
    requires i < |PyRange.Upto(0, n - ws, step)|
    ensures var frames := PyRange.Upto(0, n - ws, step);
            ServedStart(Ticks(Cursor(true, 0), q * |frames| + i, ws, step, n).ptr, ws, n) == frames[i]
  {
    var m := |PyRange.Upto(0, n - ws, step)|;
    PyRange.UptoIndex(0, n - ws, step, 0);
    TicksFollowCycle(q * m + i, ws, step, n);
    CycleIndexAfterRounds(q, i, m);
  }

  /** The signal is long enough for a first window exactly when the schedule has a frame. */
  lemma FramesNonEmpty(ws: nat, step: nat, n: nat)
    requires step > 0
    ensures |PyRange.Upto(0, n - ws, step)| > 0 <==> ws < n
  {
  }

  /** Wrapping example: 1000 samples, a 100-sample window, a 50-sample step and the pointer
      at 960 serve samples `[0, 100)` of every channel, not `[960, 1060)`. */
  lemma WrapExample<T>(data: seq<seq<T>>)
    requires Rectangular(data, 1000)
    ensures var out := TickOutput(Cursor(true, 960), data, 100, 1000);
            forall ci :: 0 <= ci < |data| ==> out[ci].samples == data[ci][0..100]
    ensures Tick(Cursor(true, 960), 100, 50, 1000) == Cursor(true, 50)
  {
  }

  /** The playback part of `MainWindow`. */
  class MainWindow<T> {
    /** The decoded samples, one row per picked channel. */
    const data: seq<seq<T>>
    const chNames: seq<string>
    /** `data.shape[1]`. */
    const sampleCount: nat
    const sfreq: nat
    const nChannels: nat
    const windowSamples: nat
    const step: nat
    var ptr: nat
    var streaming: bool
    /** The data each channel's curve currently shows. */
    var curves: seq<seq<T>>
    /** Every `setData` call so far, in order. */
    ghost var log: seq<Delivery<T>>

    ghost predicate Valid()
      reads this
    {
      |chNames| == nChannels == |data| == |curves| &&
      Rectangular(data, sampleCount) &&
      windowSamples == WindowSamples(sfreq) && step == StepSize(sfreq) &&
      Placed(ptr, windowSamples, step, sampleCount)
    }

    function State(): Cursor
      reads this
    {
      Cursor(streaming, ptr)
    }

    /** Playback set-up after loading: five-second window, fifty-millisecond step,
        pointer at the start, paused, every curve showing `windowSamples` zeros. */
    constructor (data: seq<seq<T>>, chNames: seq<string>, sampleCount: nat, sfreq: nat, zero: T)
      requires |chNames| == |data|
      requires Rectangular(data, sampleCount)
      ensures Valid()
      ensures this.data == data && this.chNames == chNames
      ensures this.sampleCount == sampleCount && this.sfreq == sfreq
      ensures windowSamples == 5 * sfreq && step == sfreq / 20
      ensures ptr == 0 && !streaming
      ensures curves == seq(|data|, _ => seq(5 * sfreq, _ => zero))
      ensures log == []
    {
      this.data := data;
      this.chNames := chNames;
      this.sampleCount := sampleCount;
      this.sfreq := sfreq;
      nChannels := |chNames|;
      windowSamples := WindowSec * sfreq;
      step := sfreq / 20;
      ptr := 0;
      streaming := false;
      curves := seq(|data|, _ => seq(WindowSec * sfreq, _ => zero));
      log := [];
    }

    /** The stream button: flips between playing and paused; the pointer stays. */
    method StartStream()
      requires Valid()
      modifies this`streaming
      ensures Valid()
      ensures State() == Toggle(old(State()))
      ensures streaming == !old(streaming) && ptr == old(ptr)
    {
      if !streaming {
        streaming := true;
      } else {
        streaming := false;
      }
    }

    /** The timer tick: nothing while paused; otherwise wrap the pointer if needed, send
        every channel its window in channel order, and advance by one step. */
    method UpdatePlot()
      requires Valid()
      modifies this`ptr, this`curves, this`log
      ensures Valid()
      ensures State() == Tick(old(State()), windowSamples, step, sampleCount)
      ensures log == old(log) + TickOutput(old(State()), data, windowSamples, sampleCount)
      ensures !streaming ==> curves == old(curves)
      ensures streaming ==>
        var p := ServedStart(old(ptr), windowSamples, sampleCount);
        forall ci :: 0 <= ci < nChannels ==> curves[ci] == NpSlice(data[ci], p, p + windowSamples)
    {
      if !streaming {
        return;
      }
      if ptr + windowSamples >= sampleCount {
        ptr := 0;
      }
      assert ptr == ServedStart(old(ptr), windowSamples, sampleCount);
      SendWindows(ptr, ptr + windowSamples);
      assert Windows(data, ptr, windowSamples) == TickOutput(old(State()), data, windowSamples, sampleCount);
      TickKeepsPlaced(old(State()), windowSamples, step, sampleCount);
      ptr := ptr + step;
    }

    /** The channel loop of the tick: curve `ci` receives `data[ci, lo:hi]`, for every
        channel in index order. */
    method SendWindows(lo: nat, hi: nat)
      requires hi == lo + windowSamples
      requires |curves| == nChannels == |data|
      modifies this`curves, this`log
      ensures |curves| == nChannels
      ensures forall ci :: 0 <= ci < nChannels ==> curves[ci] == NpSlice(data[ci], lo, hi)
      ensures log == old(log) + Windows(data, lo, windowSamples)
    {
      ghost var out := Windows(data, lo, windowSamples);
      var ci := 0;
      while ci < nChannels
        invariant 0 <= ci <= nChannels
        invariant |curves| == nChannels
        invariant forall j :: 0 <= j < ci ==> curves[j] == NpSlice(data[j], lo, hi)
        invariant log == old(log) + out[..ci]
      {
        assert out[ci] == Delivery(ci, NpSlice(data[ci], lo, hi));
        curves := curves[ci := NpSlice(data[ci], lo, hi)];
        log := log + [out[ci]];
        assert out[..ci + 1] == out[..ci] + [out[ci]];
        ci := ci + 1;
      }
      assert out[..nChannels] == out;
    }
  }
}
