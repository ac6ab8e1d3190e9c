# EEG replay cursor — a Dafny model

This project models the non-UI core of an EEG viewer prototype. The viewer loads a recording as a
channel-by-sample matrix and replays it through a window that slides over the samples. There are
two variants of that replay:

* `main.py`, class `MainWindow`: a looping player. The state is `streaming`, `ptr`,
  `window_samples` (five seconds) and `step` (fifty milliseconds). The stream button toggles
  `streaming`. Each timer tick, while streaming, first resets `ptr` to 0 if a window from `ptr`
  would reach or pass the end of the signal. It then hands every channel's curve the slice
  `data[ci, ptr:ptr+window_samples]`, in channel order, and advances `ptr` by `step`. Before that,
  the channel pick keeps those names of a fixed fourteen-electrode montage that the file contains.
* `old/playground.py`: a one-channel animation that stops at the end. Its frames are
  `range(0, n - window_size, step)`, with a one-second window and a step of a tenth of a second.
  `update(frame)` either stops the animation (`frame + window_size > n`) or draws the time slice
  and the sample slice of the window, and sets the x-axis limits to its first and last timestamps.

Samples and timestamps are an opaque type parameter `T`; nothing depends on their values.

Files:

* `wrappers.dfy`: module `Wrappers`, a `Result` datatype.
* `py_range.dfy`: module `PyRange`, Python's `range` for a non-negative start and step,
  including its `ValueError` for a zero step.
* `channel_selection.dfy`: module `ChannelSelection`, the `available_eeg` list comprehension.
* `playback.dfy`: module `Playback`. It holds the pure specification of the cursor (`Cursor`,
  `Toggle`, `Tick`, `TickOutput`, `Run`, `Output`, `Ticks`) with its lemmas, and the class
  `MainWindow`, whose methods `StartStream` and `UpdatePlot` (with its channel loop
  `SendWindows`) update the fields in place and are
  proved against that specification. The curves are a field `curves` (the data each curve
  shows). The ghost field `log` records every `setData` call as a `(channel, window)` delivery.
* `playground.dfy`: module `Playground`, the frame schedule and `update` as functions.

Facts about the code that shape the model:

* Playback has one toggle, the stream button. There is no separate start, pause or reset.
* Slicing follows numpy and clips to the row (`NpSlice`), so a tick never raises.
* Any window and step are accepted. If `window_samples >= n`, every tick wraps to 0 and serves
  the whole row, which has `n` samples. If `sfreq < 20`, `step` is 0 and the pointer stays at 0.
* Between ticks the pointer may lie past the end of the signal. The next tick wraps it before
  reading (`Placed`, `TickWrapsBeforeReading`).
* The wrap test is `ptr + window_samples >= n`. So when `window_samples < n`, no served window
  contains the last sample `n - 1` (`TickServesFullWindows`: `p + ws < n`). The playground's
  schedule likewise never asks for the window that ends exactly at `n`, so its stop branch is
  never reached from the schedule (`FinalWindowNotScheduled`, `ScheduledFramesDraw`).

A connecting result: `StreamingCyclesThroughFrames` shows that, with a positive step, the looping
player serves exactly the frames of a schedule of the playground's form, `range(0, n - ws, step)`
taken with main.py's own window and step, in order and over and over.

The playground plots one fixed channel, row 8 of the matrix; `Update` takes that row as given.

## Model

| member | source | states |
|---|---|---|
| PyRange.Upto | old/playground.py:62 | the range is empty iff start >= stop; it begins at start; consecutive values differ by step; every value lies in [start, stop) |
| PyRange.Range | old/playground.py:62 | `range(0, stop, step)` fails exactly when the step is 0, and otherwise yields the ascending values below stop |
| PyRange.UptoIndex | old/playground.py:62 | the i-th value is start + i*step, and index i exists exactly when start + i*step < stop |
| ChannelSelection.Available | main.py:72 | a name is kept iff it is in the wanted list and in the file's names; the result is no longer than the wanted list |
| ChannelSelection.AvailableEeg | main.py:71-72 | `available_eeg` holds exactly the montage names that the file contains |
| ChannelSelection.AvailableIsSubsequence | main.py:72 | the filter keeps the wanted list's order (the result is a subsequence of it) |
| ChannelSelection.AvailableNoDuplicates | main.py:72 | filtering a list without repeats gives a list without repeats |
| ChannelSelection.AvailableUnique | main.py:72 | any order-preserving selection from a list without repeats with exactly the required members equals the filter's result |
| ChannelSelection.EegNamesDistinct | main.py:71 | the fourteen montage names are pairwise distinct |
| ChannelSelection.AvailableEegSpec | main.py:71-72 | `available_eeg` is in montage order, has no duplicates, and holds exactly the montage names present in the file |
| Playback.NpSlice | main.py:190-193 | numpy slicing: an in-bounds slice is the exact subsequence; an upper bound past the end clips to the end; a start past the end gives an empty slice |
| Playback.ServedStart | main.py:187-188 | the served start is 0 exactly after a wrap (ptr + ws >= n), and otherwise leaves the window strictly inside the signal; it keeps the pointer exactly when the window from the pointer ends before n, or the pointer is 0 |
| Playback.Windows | main.py:190-193 | one delivery per channel in index order: entry ci is tagged ci and, when the window fits in the row, carries exactly `data[ci][p..p+ws]` |
| Playback.Tick | main.py:183-195 | a tick never changes `streaming`; paused it changes nothing; streaming, ptr becomes `step` after a wrap (ptr + ws >= n) and ptr + step otherwise |
| Playback.TickOutput | main.py:183-195 | a paused tick delivers nothing; a streaming tick delivers one window per channel, tagged with channel indices 0, 1, ... in order |
| Playback.Toggle | main.py:137-159 | the button flips `streaming` and never changes `ptr` |
| Playback.ToggleTwice | main.py:137-159 | two clicks restore the state |
| Playback.PausedTickIsNoop | main.py:184-185 | while paused, a tick leaves the state unchanged and delivers nothing |
| Playback.TickWrapsBeforeReading | main.py:187-190 | if a window from `ptr` would reach or pass n, the windows start at 0 (clipped to the row) and `ptr` becomes `step` |
| Playback.TickServesFullWindows | main.py:187-195 | for a signal longer than the window, a streaming tick from a placed pointer serves each channel, in order, exactly `data[ci][p..p+ws]` with p + ws < n and p a multiple of step, then sets `ptr` to p + step |
| Playback.TickKeepsPlaced | main.py:187-195 | one tick keeps the pointer a multiple of step, sitting one step past a served start |
| Playback.RunKeepsPlaced | main.py:183-195 | any sequence of clicks and ticks keeps that invariant |
| Playback.ReachablePointerIsMultiple | main.py:183-195 | from the initial state (paused, ptr 0), every reachable `ptr` is a multiple of `step` |
| Playback.RunDeliversFullWindows | main.py:183-195 | over any sequence of clicks and ticks, and for a signal longer than the window, every delivery goes to an existing channel and has exactly `window_samples` samples |
| Playback.NextFrame | main.py:187-195 | from the window at frame i of `range(0, n - ws, step)`, the next tick serves frame i + 1, or frame 0 after the last frame |
| Playback.TicksFollowCycle | main.py:183-195 | after t streaming ticks from ptr 0, the next window starts at the frame of `range(0, n - ws, step)` that a counter cycling through the frames has reached |
| Playback.StreamingCyclesThroughFrames | main.py:183-195 | after streaming starts at ptr 0, tick number q*m + i serves the window starting at frame i of `range(0, n - ws, step)`, where m is the number of frames |
| Playback.FramesNonEmpty | main.py:187 | there is at least one frame exactly when the window is shorter than the signal |
| Playback.WrapExample | main.py:187-195 | 1000 samples, window 100, step 50, ptr 960: the tick serves `[0, 100)` and leaves ptr at 50 |
| Playback.MainWindow.constructor | main.py:76-109 | initially ptr = 0, paused, window_samples = 5*sfreq, step = sfreq div 20, each curve holds window_samples zeros, nothing delivered |
| Playback.MainWindow.StartStream | main.py:137-159 | flips `streaming`, keeps `ptr`, and is `Toggle` on the state |
| Playback.MainWindow.UpdatePlot | main.py:183-195 | the new state is `Tick` of the old; the log grows by exactly the tick's deliveries in channel order; while streaming every curve shows its channel's window, while paused nothing changes; the class invariant (pointer placed) is kept |
| Playback.MainWindow.SendWindows | main.py:190-193 | the channel loop: every curve ci ends up showing `data[ci, lo:hi]` (numpy-clipped), and the log grows by exactly one delivery per channel, in index order |
| Playground.Schedule | old/playground.py:58-62 | building the frame range fails exactly when sfreq < 10 (a zero step) |
| Playground.Update | old/playground.py:40-55 | stops exactly when frame + window_size > n; otherwise draws x and y of exactly window_size samples, taken from `times` and the channel at indices [frame, frame+window_size), with x-limits at the first and last timestamps of the window; an empty window raises instead |
| Playground.ScheduleFrames | old/playground.py:62 | the k-th frame is k*step, and it exists exactly when k*step + window_size < n |
| Playground.ScheduleIncreasing | old/playground.py:62 | the frames are strictly increasing |
| Playground.ScheduledFramesDraw | old/playground.py:40-62 | every scheduled frame draws (never stops), and its window ends strictly before n |
| Playground.FinalWindowNotScheduled | old/playground.py:40-62 | the window ending exactly at n would be drawn by `update`, but no scheduled frame asks for it |
| Playground.Example256 | old/playground.py:23-62 | at 256 Hz over 1000 samples there are 30 frames; the first draws samples [0, 256), the second [25, 281) |

## Left out

- Qt and pyqtgraph wiring: loading the `.ui` file, layouts, labels, pens, colours, button icons and style sheets. These are presentation only.
- `QTimer` scheduling and intervals. The host event loop drives the ticks. The tick's own paused guard is modelled.
- Loading the EDF file and picking channels through MNE. Loading is I/O through a library, so the model takes the decoded matrix, the channel names and the integer sample rate as given. `AvailableEeg` models the list that is passed to the pick.
- Spline smoothing and the confidence plot. These are floating-point numerics through SciPy.
- `display_thresholds`. It parses floats from label text and adds line items.
- `start_record`. It is a stub that only changes styling.
- `HistoryWindow.populate_table`. It fills a static table.
- The playground's figure set-up, its y-limits from the signal's minimum and maximum, and the `FuncAnimation` engine that calls `update` on each frame. Rendering and the engine's repeat behaviour belong to the library.
- The commented-out block at the end of `old/playground.py`. It is dead code.
- The conversion `int(raw.info["sfreq"])`. The sample rate enters as a natural number.
