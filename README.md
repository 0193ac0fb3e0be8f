# Smart Nature Observer and the whisper-server utilities, modelled in Dafny

This project models two things.

The first is the video side of Smart Nature Observer:
- `processVideo` samples an uploaded video into thumbnail frames.
- The `Timeline` component resolves the frame shown at the current time. It also skips between frames, maps clicks to times, runs the playback clock and renders the `m:ss` label.
- The `Editor` component maps pointer positions onto the canvas grid and records a freehand stroke. It also computes the display scale and keeps the video element in sync.

The second is the whisper-server utilities:
- `transcribe` checks its input paths and converts non-WAV input with ffmpeg. It then builds and runs the whisper.cpp command line, trims the output and deletes the temporary file.
- The typed API error factories.

Modules:

| file | module | models |
|---|---|---|
| `wrappers.dfy` | `Wrappers` | `Option` (JavaScript `null`/`undefined`, a non-finite number) and `Result` (a thrown error) |
| `text.dfy` | `Text` | the string built-ins used: decimal rendering, `padStart`, `join`, `toLowerCase`, `trim` |
| `types.dfy` | `Types` | `Point`, `Mask`, `Label`, `FrameData`, `ProcessedVideoData` |
| `video_processing.dfy` | `VideoProcessing` | `processVideo` |
| `timeline.dfy` | `Timeline` | the `Timeline` component |
| `editor.dfy` | `Editor` | the `Editor` component |
| `whisper.dfy` | `Whisper` | `transcribe` and its argument list |
| `errors.dfy` | `Errors` | `createError` and its three helpers, with the error types |

How the model is built:
- **Numbers.** JavaScript numbers are `real`s. Integer-valued quantities (sizes, counts, indices) are `nat`s.
- **Outside world.** The browser, file system and shell are *parameters*.
  - A `VideoSource` records how loading ended and what `video.duration` reads after the forced seek. It also holds the intrinsic size, whether a 2D context exists, and the result of each capture attempt.
  - An `Environment` says which paths are accessible and what each shell command yields.
- **Mutable state.** Component state that the source mutates in place is a `class`:
  - `Timeline.TimelineView` has the time, the last announced frame id and the animation's previous tick.
  - `Editor.EditorView` has the drawing flag, the point buffer, the scale, the canvas size and the video position.
- **Loops.** The loops of the source are `method`s with `while`/`for` loops. Each is proved equal to a specification function about which the properties are proved as lemmas: `VideoProcessing.CaptureSamples` matches `CapturedFrames`, and `Timeline.FindNearestFrame` matches `Nearest`.

## Model

| member | source | states |
|---|---|---|
| Wrappers.Option.GetOr | examples/whisper-server/server/src/utils/whisper.ts:106 | `x ?? d`: the value when present, the default when absent |
| Text.NatToString | smart-nature-observer/src/hooks/useVideoProcessing.ts:177 | decimal rendering of a natural: non-empty, only digits, one digit exactly below 10, no leading zero except for 0 itself |
| Text.ParseNatToString | smart-nature-observer/src/hooks/useVideoProcessing.ts:177 | reading the decimal rendering back gives the number (round trip) |
| Text.NatToStringInjective | smart-nature-observer/src/hooks/useVideoProcessing.ts:177 | different numbers render differently |
| Text.IntToString | smart-nature-observer/src/components/UI/Timeline.tsx:29 | an integer renders as its magnitude, after `-` when negative |
| Text.PadStart | smart-nature-observer/src/components/UI/Timeline.tsx:29 | `padStart`: length is max(len, n), the original is a suffix, the added prefix is pad characters |
| Text.Join | examples/whisper-server/server/src/utils/whisper.ts:130 | `join(sep)`: empty for no parts, otherwise it starts with the first part and ends with the last |
| Text.ToLower | examples/whisper-server/server/src/utils/whisper.ts:78 | `toLowerCase`: same length, each character lowered independently |
| Text.Trim | examples/whisper-server/server/src/utils/whisper.ts:142 | `trim`: the result is a slice of the input with only white space cut away, and it neither starts nor ends with white space |
| Text.TrimIdempotent | examples/whisper-server/server/src/utils/whisper.ts:142 | trimming twice is trimming once |
| VideoProcessing.Ceil | smart-nature-observer/src/hooks/useVideoProcessing.ts:126 | `Math.ceil`: the least integer not below x |
| VideoProcessing.ResolveDuration | smart-nature-observer/src/hooks/useVideoProcessing.ts:103-112 | the probed duration when finite and positive, else max(size in MiB, 10); always positive |
| VideoProcessing.FrameCount | smart-nature-observer/src/hooks/useVideoProcessing.ts:126 | `ceil(duration / 5)`: at least 1, and the fewest 5 s slots covering the duration |
| VideoProcessing.FrameInterval | smart-nature-observer/src/hooks/useVideoProcessing.ts:142 | `duration / frameCount`: `count` intervals make up the duration, and the interval is positive for a positive duration |
| VideoProcessing.PlanTimestamp | smart-nature-observer/src/hooks/useVideoProcessing.ts:149 | `i * frameInterval`: `count` times the sample time is `i` times the duration, never negative for a non-negative duration |
| VideoProcessing.FrameIntervalBounds | smart-nature-observer/src/hooks/useVideoProcessing.ts:142 | the frame interval is in (0, 5] and `count` intervals add up to the duration |
| VideoProcessing.PlanWithinDuration | smart-nature-observer/src/hooks/useVideoProcessing.ts:145-149 | every sample time `i * interval` lies in [0, duration) |
| VideoProcessing.PlanStrictlyIncreasing | smart-nature-observer/src/hooks/useVideoProcessing.ts:149 | sample times strictly increase with the index |
| VideoProcessing.TwelveSecondExample | smart-nature-observer/src/hooks/useVideoProcessing.ts:126-149 | 12 s gives three samples, at 0, 4 and 8 s |
| VideoProcessing.OrDefault | smart-nature-observer/src/hooks/useVideoProcessing.ts:120-121 | `v \|\| d` on a size: zero falls back to the default |
| VideoProcessing.ResolutionOf | smart-nature-observer/src/hooks/useVideoProcessing.ts:120-121 | resolution is the intrinsic size, 640x480 in place of zeros; always positive |
| VideoProcessing.ThumbnailHeight | smart-nature-observer/src/hooks/useVideoProcessing.ts:132-134 | the thumbnail height is 320 * height / width rounded down |
| VideoProcessing.LoopProgress | smart-nature-observer/src/hooks/useVideoProcessing.ts:146 | the in-loop progress is within [30, 89] |
| VideoProcessing.LoopProgressMonotone | smart-nature-observer/src/hooks/useVideoProcessing.ts:146 | the in-loop progress never decreases |
| VideoProcessing.LoopProgressLog | smart-nature-observer/src/hooks/useVideoProcessing.ts:145-146 | the loop reports one progress value per iteration |
| VideoProcessing.LoopProgressLogWellFormed | smart-nature-observer/src/hooks/useVideoProcessing.ts:145-146 | the loop's progress reports never decrease and stay within [30, 89] |
| VideoProcessing.FrameIdZero | smart-nature-observer/src/hooks/useVideoProcessing.ts:203 | sample 0's id is `frame-0`, the id the fallback frame also takes |
| VideoProcessing.FrameIdInjective | smart-nature-observer/src/hooks/useVideoProcessing.ts:177 | `frame-${i}` ids of different samples differ |
| VideoProcessing.FrameId | smart-nature-observer/src/hooks/useVideoProcessing.ts:177 | `frame-${i}`; `FrameIdZero` and `FrameIdInjective` state it |
| VideoProcessing.CapturedFramesStep | smart-nature-observer/src/hooks/useVideoProcessing.ts:145-189 | one more iteration appends the new sample's frame exactly when its capture succeeds, and otherwise keeps the list |
| VideoProcessing.CapturedIndicesSelect | smart-nature-observer/src/hooks/useVideoProcessing.ts:145-189 | the kept sample indices are below the iteration count, strictly increasing, and hold i exactly when sample i's capture succeeded |
| VideoProcessing.CapturedFramesMatchIndices | smart-nature-observer/src/hooks/useVideoProcessing.ts:145-189 | the j-th kept frame belongs to the j-th kept index: its id, its planned time and its captured thumbnail |
| VideoProcessing.CapturedFrames | smart-nature-observer/src/hooks/useVideoProcessing.ts:145-189 | the frames the loop has kept after k iterations; `CapturedFramesFollowPlan` states which |
| VideoProcessing.CapturedFramesFollowPlan | smart-nature-observer/src/hooks/useVideoProcessing.ts:145-190 | the kept frames are exactly the samples whose capture succeeded, in order, each with its planned time, its id and its thumbnail |
| VideoProcessing.NothingCaptured | smart-nature-observer/src/hooks/useVideoProcessing.ts:186-189 | if every capture throws, the loop keeps no frame |
| VideoProcessing.SampledVideoWellFormed | smart-nature-observer/src/hooks/useVideoProcessing.ts:126-243 | the result has at least one frame and a positive duration and size. Every frame has an empty segmentation and a time within [0, duration). Times strictly increase and ids are distinct |
| VideoProcessing.SampleKeptIffCaptured | smart-nature-observer/src/hooks/useVideoProcessing.ts:151-189 | when some capture succeeded, sample i appears in the result iff its own capture succeeded |
| VideoProcessing.FallbackWhenNothingCaptured | smart-nature-observer/src/hooks/useVideoProcessing.ts:192-226 | when every capture fails, the result is the single frame `frame-0` at 0 s. Its thumbnail is the extra capture, or `''` if that also fails |
| VideoProcessing.FallbackFrame | smart-nature-observer/src/hooks/useVideoProcessing.ts:192-226 | the single `frame-0` at 0 s with the extra capture or `''`; stated by `FallbackWhenNothingCaptured` |
| VideoProcessing.SampleFrames | smart-nature-observer/src/hooks/useVideoProcessing.ts:145-226 | the frames a run ends with: the captured ones or the single fallback frame, never none |
| VideoProcessing.SampledVideo | smart-nature-observer/src/hooks/useVideoProcessing.ts:236-243 | the successful result: the sample frames, the resolved duration and the resolution; stated by `SampledVideoWellFormed` |
| VideoProcessing.ProgressConcat | smart-nature-observer/src/hooks/useVideoProcessing.ts:146 | two non-decreasing progress logs joined in order stay non-decreasing |
| VideoProcessing.CaptureSamples | smart-nature-observer/src/hooks/useVideoProcessing.ts:142-190 | the sampling loop returns `CapturedFrames` for all samples. It reports one progress value per iteration, non-decreasing and within [30, 89] |
| VideoProcessing.ProbeDuration | smart-nature-observer/src/hooks/useVideoProcessing.ts:103-112 | the duration used is `ResolveDuration` of the probed value and the file size |
| VideoProcessing.ExtractFrames | smart-nature-observer/src/hooks/useVideoProcessing.ts:142-226 | the loop and the single-frame fallback give `SampleFrames`. Progress is one report per sample, non-decreasing and within [30, 89] |
| VideoProcessing.ProcessVideo | smart-nature-observer/src/hooks/useVideoProcessing.ts:9-251 | fails iff the load fails or times out or there is no 2D context, each with its own message. Otherwise returns `SampledVideo`, with at least one frame and a positive duration. Progress starts at 0, never decreases and ends at 100 on success |
| Timeline.InsertByTimestamp | smart-nature-observer/src/components/UI/Timeline.tsx:37 | inserting into a sorted list keeps it sorted and adds exactly the one element (multiset) |
| Timeline.ConsSorted | smart-nature-observer/src/components/UI/Timeline.tsx:37 | a frame no later than every frame of a sorted list, put in front, keeps it sorted |
| Timeline.HeadBelowInsertion | smart-nature-observer/src/components/UI/Timeline.tsx:37 | the head of a sorted list is no later than anything left after inserting a later frame into its tail |
| Timeline.SortByTimestamp | smart-nature-observer/src/components/UI/Timeline.tsx:37 | the sorted copy is ordered by timestamp and is a permutation of the frames |
| Timeline.SortedCopySameMembers | smart-nature-observer/src/components/UI/Timeline.tsx:37 | the sorted copy has the same length and the same members as the frames |
| Timeline.SortedHeadEarliest | smart-nature-observer/src/components/UI/Timeline.tsx:37 | the first frame of a sorted list is no later than any of its frames |
| Timeline.ScanBackSpec | smart-nature-observer/src/components/UI/Timeline.tsx:40-47 | the reverse scan returns the last frame at or before the time, else the first sorted frame |
| Timeline.ScanBack | smart-nature-observer/src/components/UI/Timeline.tsx:40-47 | the backward scan always returns one of the sorted frames; which one is stated by `ScanBackSpec` |
| Timeline.Nearest | smart-nature-observer/src/components/UI/Timeline.tsx:33-48 | `findNearestFrame` on values: null for no frames, else the scan over the sorted copy; stated by `NearestSpec` and `NearestMonotone` |
| Timeline.NearestSpec | smart-nature-observer/src/components/UI/Timeline.tsx:33-48 | null iff there are no frames. Otherwise one of the frames: the latest at or before the time when one exists, else an earliest one |
| Timeline.NearestIsLatestBefore | smart-nature-observer/src/components/UI/Timeline.tsx:40-44 | a frame at or before the time, with no other frame between it and the time, is the one chosen |
| Timeline.NearestIsEarliest | smart-nature-observer/src/components/UI/Timeline.tsx:46-47 | when every frame is after the time, a frame strictly earlier than all others is the one chosen |
| Timeline.NearestMonotone | smart-nature-observer/src/components/UI/Timeline.tsx:33-48 | a later time never resolves to an earlier frame |
| Timeline.NearestExampleBetween | smart-nature-observer/src/components/UI/Timeline.tsx:40-44 | frames at 0/5/10 s, time 7 gives the 5 s frame |
| Timeline.NearestExampleBefore | smart-nature-observer/src/components/UI/Timeline.tsx:46-47 | frames at 0/5/10 s, time -1 gives the 0 s frame |
| Timeline.NearestExampleAfter | smart-nature-observer/src/components/UI/Timeline.tsx:40-44 | frames at 0/5/10 s, any time from 10 s on gives the 10 s frame |
| Timeline.FindNearestFrame | smart-nature-observer/src/components/UI/Timeline.tsx:33-48 | the sort-and-scan loop computes `Nearest`: null iff no frames, otherwise a member of the frames |
| Timeline.NotifyOnlyOnChange | smart-nature-observer/src/components/UI/Timeline.tsx:50-58 | once a frame with a non-empty id is announced, it is not announced again, and a frame with another id is |
| Timeline.ShouldNotify | smart-nature-observer/src/components/UI/Timeline.tsx:54 | a frame is announced when one was resolved and nothing is remembered, the remembered id is empty, or it differs; `NotifyOnlyOnChange` states the consequence |
| Timeline.IndexOf | smart-nature-observer/src/components/UI/Timeline.tsx:143 | `indexOf`: -1 iff absent, else the first position holding the frame |
| Timeline.SkipIndex | smart-nature-observer/src/components/UI/Timeline.tsx:144-146 | one step forward or back, clamped to the ends of the list |
| Timeline.ClickTime | smart-nature-observer/src/components/UI/Timeline.tsx:64-66 | a click inside the bar maps to a time in [0, duration] |
| Timeline.ClickOnMarker | smart-nature-observer/src/components/UI/Timeline.tsx:64-66 | clicking exactly where a frame's marker is drawn (line 162) seeks to that frame's time |
| Timeline.MarkerFraction | smart-nature-observer/src/components/UI/Timeline.tsx:162 | a marker's position is the fraction that scales back to its timestamp, within [0, 1] for a timestamp within the duration |
| Timeline.FormatTimeNonNegative | smart-nature-observer/src/components/UI/Timeline.tsx:26-30 | for t >= 0 the label is whole minutes, `:`, and seconds 0-59 as exactly two digits |
| Timeline.Trunc | smart-nature-observer/src/components/UI/Timeline.tsx:28 | JavaScript's truncation toward zero: within one below a non-negative number, within one above a negative one |
| Timeline.JsRem | smart-nature-observer/src/components/UI/Timeline.tsx:28 | JavaScript's `%` for a positive divisor: in [0, b) for a non-negative dividend, in (-b, 0] for a negative one |
| Timeline.JsRemNegated | smart-nature-observer/src/components/UI/Timeline.tsx:28 | the remainder takes the dividend's sign: negating the dividend negates the remainder |
| Timeline.MinutesAndSeconds | smart-nature-observer/src/components/UI/Timeline.tsx:27-28 | for t >= 0, `floor(t / 60)` and `floor(t % 60)` are the whole seconds divided by 60 and their remainder |
| Timeline.PadTwoDigits | smart-nature-observer/src/components/UI/Timeline.tsx:29 | a number below 100 padded to length 2 with `0` is its two decimal digits |
| Timeline.FormatTimeOf | smart-nature-observer/src/components/UI/Timeline.tsx:26-30 | given the whole minutes m and remaining seconds r of a non-negative time, the label is m, `:`, and r as two digits, with r < 60 |
| Timeline.FormatTime | smart-nature-observer/src/components/UI/Timeline.tsx:26-30 | `formatTime` as written, for any time; its meaning for t >= 0 is stated by `FormatTimeNonNegative` and `FormatTimeOf` |
| Timeline.FormatTimeMinuteExample | smart-nature-observer/src/components/UI/Timeline.tsx:26-30 | 75.4 s reads `1:15` |
| Timeline.FormatTimeSecondsExample | smart-nature-observer/src/components/UI/Timeline.tsx:26-30 | 5 s reads `0:05` |
| Timeline.PlaybackStep | smart-nature-observer/src/components/UI/Timeline.tsx:89-95 | the fallback clock advances by the elapsed seconds, and wraps to 0 on reaching the duration |
| Timeline.PlaybackStaysInRange | smart-nature-observer/src/components/UI/Timeline.tsx:89-95 | from a time within [0, duration), a tick stays within [0, duration) |
| Timeline.TimelineView.constructor | smart-nature-observer/src/components/UI/Timeline.tsx:13-24 | no frame announced yet, no previous tick |
| Timeline.TimelineView.SelectCurrentFrame | smart-nature-observer/src/components/UI/Timeline.tsx:51-58 | announces and remembers the resolved frame exactly when `ShouldNotify`, otherwise changes nothing |
| Timeline.TimelineView.SkipFrame | smart-nature-observer/src/components/UI/Timeline.tsx:139-151 | with no frames nothing happens. Otherwise seeks to, and selects, the clamped neighbour of the current frame's position |
| Timeline.TimelineView.SelectMarker | smart-nature-observer/src/components/UI/Timeline.tsx:166-169 | a marker click seeks to and selects that frame |
| Timeline.TimelineView.Click | smart-nature-observer/src/components/UI/Timeline.tsx:60-70 | the time becomes the `ClickTime` under the pointer |
| Timeline.TimelineView.Animate | smart-nature-observer/src/components/UI/Timeline.tsx:73-101 | the first tick only records its time. Later ticks adopt the video's clock or take a `PlaybackStep`. A tick that changes the time restarts the loop (previous tick reset to 0) |
| Editor.CanvasCoordinates | smart-nature-observer/src/components/Canvas/Editor.tsx:84-96 | offsets scale in proportion to internal size over displayed size. The rectangle's edges land on 0 and on the internal width and height |
| Editor.CanvasOfScreen | smart-nature-observer/src/components/Canvas/Editor.tsx:84-96 | pointing where a canvas point is drawn recovers that point |
| Editor.ScreenOfCanvas | smart-nature-observer/src/components/Canvas/Editor.tsx:84-96 | showing a mapped point gives back the pointer position |
| Editor.CentreMapsToCentre | smart-nature-observer/src/components/Canvas/Editor.tsx:84-96 | the centre of the element maps to the centre of the grid, at any display size |
| Editor.CentreExamples | smart-nature-observer/src/components/Canvas/Editor.tsx:84-96 | a 1920x1080 grid shown at 320x180 or full size: the centre click lands on (960, 540) |
| Editor.ScaleFor | smart-nature-observer/src/components/Canvas/Editor.tsx:45-50 | the scale is video size over display size, adopted only when all four sizes are non-zero |
| Editor.UnscaledDisplay | smart-nature-observer/src/components/Canvas/Editor.tsx:45-50 | a video displayed at its own size has scale 1 |
| Editor.SyncedPosition | smart-nature-observer/src/components/Canvas/Editor.tsx:27-31 | after syncing, the video is within 0.5 s of the shared time. It is left alone if it was already within 0.5 s |
| Editor.SyncIdempotent | smart-nature-observer/src/components/Canvas/Editor.tsx:27-31 | syncing twice to the same time is syncing once |
| Editor.EditorView.constructor | smart-nature-observer/src/components/Canvas/Editor.tsx:22-24 | not drawing, empty buffer, scale (1, 1), the default canvas size |
| Editor.EditorView.SetCanvasSize | smart-nature-observer/src/components/Canvas/Editor.tsx:161-166 | the internal grid takes the video's intrinsic size |
| Editor.EditorView.MouseDown | smart-nature-observer/src/components/Canvas/Editor.tsx:98-103 | starts a stroke whose buffer is exactly the mapped pointer position |
| Editor.EditorView.MouseMove | smart-nature-observer/src/components/Canvas/Editor.tsx:105-110 | while drawing, appends exactly one mapped point; otherwise changes nothing |
| Editor.EditorView.MouseUp | smart-nature-observer/src/components/Canvas/Editor.tsx:112-117 | ends a stroke in progress and emits its points once, starting with the mouse-down point. Otherwise emits nothing. Also bound to mouse-leave (lines 142-145) |
| Editor.EditorView.UpdateCanvasScale | smart-nature-observer/src/components/Canvas/Editor.tsx:36-51 | the scale becomes `ScaleFor` of the measured sizes |
| Editor.EditorView.SyncVideo | smart-nature-observer/src/components/Canvas/Editor.tsx:27-32 | the video position becomes `SyncedPosition` |
| Editor.StrokeExample | smart-nature-observer/src/components/Canvas/Editor.tsx:98-117 | mouse-down, two moves and mouse-up emit exactly the three mapped points, in drawing order |
| Whisper.Threads | examples/whisper-server/server/src/utils/whisper.ts:16 | the thread count is min(20, number of cores) |
| Whisper.FormatFlag | examples/whisper-server/server/src/utils/whisper.ts:29-33 | every output flag is `--output-` plus a three-letter suffix |
| Whisper.FormatFlagRoundTrip | examples/whisper-server/server/src/utils/whisper.ts:29-33 | each format has its own flag, and the flag reads back to the format |
| Whisper.Truthy | examples/whisper-server/server/src/utils/whisper.ts:118-126 | an optional switch counts as set only when it is present and `true`; its effect on `-wt` is stated by `WordThresholdIff` |
| Whisper.RawArgs | examples/whisper-server/server/src/utils/whisper.ts:103-126 | the argument array before filtering has its fifteen entries, in source order |
| Whisper.FilterNonEmpty | examples/whisper-server/server/src/utils/whisper.ts:127 | `.filter(Boolean)`: keeps exactly the non-empty strings, in their order |
| Whisper.FilterConcat | examples/whisper-server/server/src/utils/whisper.ts:127 | filtering a concatenation filters each part |
| Whisper.FilterKeepsNonEmpty | examples/whisper-server/server/src/utils/whisper.ts:127 | a list with no empty string passes unchanged |
| Whisper.FilterDropsEmpty | examples/whisper-server/server/src/utils/whisper.ts:127 | a list of empty strings filters to nothing |
| Whisper.FilterGroups | examples/whisper-server/server/src/utils/whisper.ts:103-127 | filtering four concatenated groups keeps the two groups without empty strings whole |
| Whisper.Args | examples/whisper-server/server/src/utils/whisper.ts:103-127 | no argument is empty, and the arguments are the raw entries with some removed and the rest in order |
| Whisper.ArgsGroups | examples/whisper-server/server/src/utils/whisper.ts:103-127 | the model/file/language and tuning entries always survive the filter |
| Whisper.ArgsShape | examples/whisper-server/server/src/utils/whisper.ts:103-127 | no argument is empty, and there are at least nine. The list opens with the model, the input file and the language (default `pl`), then `--translate` or the thread count |
| Whisper.LongFlagEntries | examples/whisper-server/server/src/utils/whisper.ts:103-127 | the only entries starting `x-` are the translate, no-timestamps and output flags |
| Whisper.WordFlagEntry | examples/whisper-server/server/src/utils/whisper.ts:118 | the only entry starting `xw` is the word-threshold entry |
| Whisper.TranslateIff | examples/whisper-server/server/src/utils/whisper.ts:107 | `--translate` is passed iff the task is translation |
| Whisper.NoTimestampsIff | examples/whisper-server/server/src/utils/whisper.ts:117 | `--no-timestamps` is passed iff timestamps are explicitly false (not when absent) |
| Whisper.WordThresholdIff | examples/whisper-server/server/src/utils/whisper.ts:118 | `-wt <wordThold, default 0.001>` is passed iff word timestamps are requested, and no `-wt` otherwise |
| Whisper.OutputFlagEntry | examples/whisper-server/server/src/utils/whisper.ts:121 | the only entry starting `x-o` is the output flag |
| Whisper.FormatFlagPassed | examples/whisper-server/server/src/utils/whisper.ts:121 | the chosen format's flag (default text) is passed, and no other format's flag |
| Whisper.DefaultGroups | examples/whisper-server/server/src/utils/whisper.ts:16-24 | with every option absent, the groups hold the defaults `pl`, 6, 6, 2.6, 2048 and the text flag |
| Whisper.DefaultArgs | examples/whisper-server/server/src/utils/whisper.ts:103-127 | with every option absent, the arguments are exactly the nine default entries |
| Whisper.JoinFirstTwo | examples/whisper-server/server/src/utils/whisper.ts:130 | `join(' ')` of three or more parts is the first part, a space, the second part, a space, and the rest joined |
| Whisper.CommandShape | examples/whisper-server/server/src/utils/whisper.ts:130 | the command opens with the quoted binary, the quoted model and the quoted input file, then the remaining arguments space-separated |
| Whisper.Command | examples/whisper-server/server/src/utils/whisper.ts:130 | the quoted binary, a space and the arguments joined by single spaces; what it opens with is stated by `CommandShape` |
| Whisper.FfmpegCommand | examples/whisper-server/server/src/utils/whisper.ts:90 | the ffmpeg conversion to 16 kHz mono 16-bit PCM, overwriting the WAV target. `Transcribe` runs it first on every non-WAV input |
| Whisper.LastIndexOf | examples/whisper-server/server/src/utils/whisper.ts:79-82 | the last position of a character, or -1 |
| Whisper.TrimTrailingSlashes | examples/whisper-server/server/src/utils/whisper.ts:79-82 | the path without its trailing separators |
| Whisper.Basename | examples/whisper-server/server/src/utils/whisper.ts:81 | `path.basename` is a single segment with no separator |
| Whisper.Dirname | examples/whisper-server/server/src/utils/whisper.ts:80 | `path.dirname` (POSIX). For `dir/name` it is `dir` (`SplitAtLastSlash`, `JoinSplits`) and for a bare name it is `.` (`BareName`) |
| Whisper.Extname | examples/whisper-server/server/src/utils/whisper.ts:81 | `path.extname` is a dot-started proper suffix of the base name with no further dot, so it starts at the last dot. It is empty exactly when the base name is `..` or has no dot after its first character, as in `abc` or the dot-file `.env` |
| Whisper.LastDotInside | examples/whisper-server/server/src/utils/whisper.ts:81 | the last `.` of a name lies after its first character exactly when some `.` does |
| Whisper.Stem | examples/whisper-server/server/src/utils/whisper.ts:81 | the stem followed by the extension is the base name, and it has no separator |
| Whisper.JoinPath | examples/whisper-server/server/src/utils/whisper.ts:79-82 | `path.join(dir, name)` is the name itself (dir `.`) or ends in `/name`; either way it ends with the name |
| Whisper.WavPath | examples/whisper-server/server/src/utils/whisper.ts:79-82 | the converted file name ends in `.wav`. Its directory and stem are fixed by `WavPathKeepsDirectory`, `WavPathNoExtension` and `WavPathOfBareName` |
| Whisper.BasenameOfJoin | examples/whisper-server/server/src/utils/whisper.ts:79-82 | a plain name joined to any directory is the joined path's base name |
| Whisper.WavPathBasename | examples/whisper-server/server/src/utils/whisper.ts:79-82 | the converted file is named after the input's stem plus `.wav` |
| Whisper.WavPathKeepsDirectory | examples/whisper-server/server/src/utils/whisper.ts:79-82 | `dir/stem.ext`, whose extension holds no other dot, becomes `dir/stem.wav`: same directory, same stem |
| Whisper.WavPathNoExtension | examples/whisper-server/server/src/utils/whisper.ts:79-82 | `dir/name`, where the name has no `.` after its first character, becomes `dir/name.wav`: same directory, whole name kept |
| Whisper.WavPathWithoutExtension | examples/whisper-server/server/src/utils/whisper.ts:79-82 | `uploads/abc` becomes `uploads/abc.wav` |
| Whisper.WavPathDotFile | examples/whisper-server/server/src/utils/whisper.ts:79-82 | the dot-file `.env` has no extension and becomes `.env.wav` |
| Whisper.LowerKeepsWav | examples/whisper-server/server/src/utils/whisper.ts:78 | lower-casing keeps a `.wav` ending |
| Whisper.InputFileIsWav | examples/whisper-server/server/src/utils/whisper.ts:77-98 | whisper.cpp always gets a WAV name. It differs from the input iff a conversion was needed, which is when the temporary file is deleted (line 146) |
| Whisper.WavPathInDirectory | examples/whisper-server/server/src/utils/whisper.ts:79-82 | `uploads/song.MP3` becomes `uploads/song.wav` |
| Whisper.BareName | examples/whisper-server/server/src/utils/whisper.ts:79-82 | a name with no separator is its own base name, with directory `.` |
| Whisper.WavPathOfBareName | examples/whisper-server/server/src/utils/whisper.ts:79-82 | a bare name converts next to itself, to its stem plus `.wav` |
| Whisper.StemOfName | examples/whisper-server/server/src/utils/whisper.ts:79-82 | a last segment `stem.ext`, whose extension holds no further dot, has stem `stem` |
| Whisper.WavPathBareName | examples/whisper-server/server/src/utils/whisper.ts:79-82 | `clip.ogg` becomes `clip.wav` |
| Whisper.WavPathLastExtension | examples/whisper-server/server/src/utils/whisper.ts:79-82 | only the last extension is replaced: `/tmp/a.b.m4a` becomes `/tmp/a.b.wav` |
| Whisper.UppercaseWavKept | examples/whisper-server/server/src/utils/whisper.ts:78 | `rec/take1.WAV` is used as it is, without conversion |
| Whisper.IsWavName | examples/whisper-server/server/src/utils/whisper.ts:78 | a name ending in `.wav` in any letter case; `LowerKeepsWav` and `UppercaseWavKept` state its meaning |
| Whisper.InputFile | examples/whisper-server/server/src/utils/whisper.ts:77-98 | the input itself when it is a WAV name, else its conversion. `InputFileIsWav` proves it is always a WAV name and differs from the input exactly when a conversion was needed |
| Whisper.FirstInaccessible | examples/whisper-server/server/src/utils/whisper.ts:67-74 | none iff all of audio, model and binary are accessible, otherwise an inaccessible one (checked in that order) |
| Whisper.WhisperOutcome | examples/whisper-server/server/src/utils/whisper.ts:134-142 | success iff whisper.cpp completed, with its trimmed stdout; otherwise its error is passed on |
| Whisper.Transcribe | examples/whisper-server/server/src/utils/whisper.ts:65-155 | an inaccessible path fails before any command. A non-WAV input runs ffmpeg first, and a conversion failure stops there with nothing deleted. When every path is accessible and the input is WAV or its ffmpeg run completed, whisper.cpp runs on `InputFile` and its trimmed output or its error is returned. The converted file, and only it, is deleted |
| Errors.TypeTag | examples/whisper-server/server/src/types/errors.ts:2-6 | each error type's tag ends in `_ERROR` |
| Errors.TypeTagInjective | examples/whisper-server/server/src/types/errors.ts:2-6 | the four error types have four distinct tags |
| Errors.CreateError | examples/whisper-server/server/src/utils/errors.ts:4-14 | the error holds exactly the given type, message, details and code |
| Errors.CreateValidationError | examples/whisper-server/server/src/utils/errors.ts:17-23 | a validation error, code 400, whose message ends in the field name, with the field and reason as details |
| Errors.CreateTranscriptionError | examples/whisper-server/server/src/utils/errors.ts:26-31 | a transcription error, code 500, with the message unchanged and the partial details attached |
| Errors.OperationName | examples/whisper-server/server/src/types/errors.ts:32 | the operation's name, a non-empty lower-case word |
| Errors.OperationNameInjective | examples/whisper-server/server/src/types/errors.ts:32 | different operations have different names |
| Errors.CreateFileSystemError | examples/whisper-server/server/src/utils/errors.ts:34-45 | a file-system error, code 500, with operation, path and system error as details |
| Errors.StripPrefix | examples/whisper-server/server/src/utils/errors.ts:22 | the rest after a prefix, present iff the string starts with it |
| Errors.ValidationMessageRoundTrip | examples/whisper-server/server/src/utils/errors.ts:22 | the field can be read back from a validation message |
| Errors.FileSystemMessageRoundTrip | examples/whisper-server/server/src/utils/errors.ts:44 | the operation can be read back from a file-system message |
| Errors.ValidationMessagesDistinct | examples/whisper-server/server/src/utils/errors.ts:22 | two validation messages are equal iff they name the same field |
| Errors.HelpersClassified | examples/whisper-server/server/src/utils/errors.ts:17-45 | the helpers never produce a server error. Codes are 400 or 500, and 400 exactly for validation errors |

## Left out

- Rendering, styling, React state setters and effect scheduling are not modelled. The DOM, `requestAnimationFrame`, timers, event-listener registration and removal, and the `drawPoints` canvas painting are not modelled either.
- Each effect and handler is modelled as one method call on the component's state.
- IEEE-754 floating point is modelled as exact reals. NaN, infinities and rounding are not modelled. A non-finite `video.duration` is `None`.
- `Timeline.ClickTime`, `Editor.CanvasCoordinates`: require a non-zero width (and height). A pointer event cannot land on a zero-size element, and the source would divide by zero there.
- `Timeline.IndexOf`: compares frames by value. JavaScript's `indexOf` compares object identity. They differ only when two frames are equal field by field.
- `Timeline.SortByTimestamp`: is an insertion sort and keeps ties in their order, like the stable `Array.prototype.sort`. Stability itself is not proved.
- The progress bar width and handle position (`currentTime / duration`) are not modelled. Nor are `togglePlayback` (play/pause of the video element) and the editor's `handleTimeUpdate`, which forwards the video position unchanged.
- `VideoProcessing.ProcessVideo`: some browser steps are not modelled:
  - the object-URL creation and revocation;
  - the `play()`/`pause()` attempt (whose failure is only logged);
  - the 500 ms wait;
  - the unloading of the element;
  - the `isProcessing` and `error` state.

  Both seek waits (the `seeked` event or the 5 s timeout) continue identically, so one attempt-indexed capture oracle stands for them.
- `VideoProcessing.FrameCount`: there is no cap at 20 frames. The comment at useVideoProcessing.ts:125 mentions one, but the code computes `Math.ceil(duration / 5)`, which the model follows.
- `Text.ToLower`: lower-cases ASCII letters only. Non-ASCII letters never make a name end in `.wav`.
- `Whisper.WavPath`: `path.join` is modelled for a directory produced by `path.dirname` and a plain file name. Its full normalisation of `.`/`..` segments and repeated separators inside the directory is not modelled.
- Numeric options (`beamSize`, `bestOf`, `entropyThold`, `wordThold`, `maxLen`) are held as the text JavaScript renders them. Number-to-string conversion of non-integers is not modelled.
- `os.cpus().length` is the `cpuCount` parameter. `fs.access`, `exec` and `fs.unlink` are answered by the `Environment` parameter.
- The failure of the final `fs.unlink` is only logged, so `deleted` names the file whose deletion is attempted.
- Console logging, including the logging of whisper.cpp's stderr, is not modelled.
- `DEFAULT_TASK`, `DEFAULT_TIMESTAMPS` and `DEFAULT_WORD_TIMESTAMPS` are declared but never read by `transcribe`, so they do not appear. As a consequence, `-wt` is only passed when word timestamps are requested explicitly.
- `Editor.EditorView`: `canvasScale` is computed and stored but never used by the coordinate mapping, exactly as in the component. The initial canvas size is the HTML default of 300x150.
- `Errors.CreateError`: `details` of type `unknown` is one of the three detail records or an `OtherDetails` description. `isAPIError`, a run-time shape check, is not modelled.
- The HTTP server and routes, path configuration, the whisper configuration file and the separate video-processor example are not part of this model.
