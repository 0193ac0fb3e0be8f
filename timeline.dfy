/**
 * The timeline synchroniser: the lookup of the frame shown at a time (the last
 * frame at or before it, else the earliest), the "notify only on a new frame
 * id" rule, skipping to the adjacent frame, click-to-time mapping, the
 * wall-clock playback tick and the `m:ss` clock label.
 */
module Timeline {
  import opened Wrappers
  import opened Types
  import Text

  // ---------------------------------------------------------------------------
  // Sorting a copy of the frames by timestamp
  // ---------------------------------------------------------------------------

  predicate SortedByTimestamp(s: seq<FrameData>) {
    forall a, b :: 0 <= a < b < |s| ==> s[a].timestamp <= s[b].timestamp
  }

  /** Putting in front a frame no later than any of a sorted list keeps it sorted. */
  lemma ConsSorted(h: FrameData, rest: seq<FrameData>)
    requires SortedByTimestamp(rest)
    requires forall i :: 0 <= i < |rest| ==> h.timestamp <= rest[i].timestamp
    ensures SortedByTimestamp([h] + rest)
  {
    var r := [h] + rest;
    forall a, b | 0 <= a < b < |r|
      ensures r[a].timestamp <= r[b].timestamp
    {
      assert r[b] == rest[b - 1];
      if a > 0 {
        assert r[a] == rest[a - 1];
      }
    }
  }

  /** Every frame of a reordering of `s[1..]` plus `f` is no earlier than `s[0]`, when `f` is not. */
  lemma HeadBelowInsertion(s: seq<FrameData>, f: FrameData, rest: seq<FrameData>)
    requires SortedByTimestamp(s) && s != [] && s[0].timestamp <= f.timestamp
    requires multiset(rest) == multiset(s[1..]) + multiset{f}
    ensures forall i :: 0 <= i < |rest| ==> s[0].timestamp <= rest[i].timestamp
  {
    forall i | 0 <= i < |rest|
      ensures s[0].timestamp <= rest[i].timestamp
    {
      var x := rest[i];
      assert x in multiset(rest);
      if x != f {
        assert x in multiset(s[1..]);
        var j :| 0 <= j < |s[1..]| && s[1..][j] == x;
        assert s[j + 1] == x;
      }
    }
  }

  /** Inserts `f` after every element whose timestamp is not greater than its own. */
  function InsertByTimestamp(s: seq<FrameData>, f: FrameData): (r: seq<FrameData>)
    requires SortedByTimestamp(s)
    ensures SortedByTimestamp(r)
    ensures multiset(r) == multiset(s) + multiset{f}
  {
    if s == [] || f.timestamp < s[0].timestamp then
      ConsSorted(f, s);
      [f] + s
    else
      var rest := InsertByTimestamp(s[1..], f);
      HeadBelowInsertion(s, f, rest);
      ConsSorted(s[0], rest);
      assert s == [s[0]] + s[1..];
      [s[0]] + rest
  }

  /**
   * `[...frames].sort((a, b) => a.timestamp - b.timestamp)`: an ordering of the
   * same frames by non-decreasing timestamp (insertion sort; ties keep their order).
   */
  function SortByTimestamp(frames: seq<FrameData>): (r: seq<FrameData>)
    ensures SortedByTimestamp(r)
    ensures multiset(r) == multiset(frames)
  {
    if frames == [] then []
    else
      assert frames == frames[..|frames| - 1] + [frames[|frames| - 1]];
      InsertByTimestamp(SortByTimestamp(frames[..|frames| - 1]), frames[|frames| - 1])
  }

  // ---------------------------------------------------------------------------
  // Nearest-frame lookup
  // ---------------------------------------------------------------------------

  /** The reverse scan over `sorted[..k]`: the last frame at or before `time`, else `sorted[0]`. */
  function ScanBack(sorted: seq<FrameData>, time: real, k: nat): (f: FrameData)
    requires 0 < |sorted| && k <= |sorted|
    ensures f in sorted
  {
    if k == 0 then sorted[0]
    else if sorted[k - 1].timestamp <= time then sorted[k - 1]
    else ScanBack(sorted, time, k - 1)
  }

  /** `findNearestFrame(time)`: `None` for no frames, otherwise the scan over the sorted copy. */
  function Nearest(frames: seq<FrameData>, time: real): Option<FrameData> {
    if |frames| == 0 then None
    else
      var sorted := SortByTimestamp(frames);
      assert |sorted| == |frames| by {
        assert |multiset(sorted)| == |multiset(frames)|;
      }
      Some(ScanBack(sorted, time, |sorted|))
  }

  lemma {:induction false} ScanBackSpec(sorted: seq<FrameData>, time: real, k: nat)
    requires 0 < |sorted| && k <= |sorted| && SortedByTimestamp(sorted)
    ensures var r := ScanBack(sorted, time, k);
            && r in sorted
            && ((exists j :: 0 <= j < k && sorted[j].timestamp <= time) ==>
                  r.timestamp <= time
                  && forall j :: 0 <= j < k && sorted[j].timestamp <= time ==> sorted[j].timestamp <= r.timestamp)
            && (!(exists j :: 0 <= j < k && sorted[j].timestamp <= time) ==> r == sorted[0])
  {
    if k > 0 && sorted[k - 1].timestamp > time {
      ScanBackSpec(sorted, time, k - 1);
      if exists j :: 0 <= j < k && sorted[j].timestamp <= time {
        var j :| 0 <= j < k && sorted[j].timestamp <= time;
        assert j < k - 1;
      }
    }
  }

  /** The sorted copy has the same length and the same members as the frames. */
  lemma SortedCopySameMembers(frames: seq<FrameData>)
    ensures |SortByTimestamp(frames)| == |frames|
    ensures forall f :: f in SortByTimestamp(frames) <==> f in frames
  {
    var sorted := SortByTimestamp(frames);
    assert |multiset(sorted)| == |multiset(frames)|;
    forall f
      ensures f in sorted <==> f in frames
    {
      assert f in frames <==> f in multiset(frames);
      assert f in sorted <==> f in multiset(sorted);
    }
  }

  /** The first frame of a sorted list is no later than any of its frames. */
  lemma SortedHeadEarliest(sorted: seq<FrameData>)
    requires SortedByTimestamp(sorted) && sorted != []
    ensures forall g :: g in sorted ==> sorted[0].timestamp <= g.timestamp
  {
    forall g | g in sorted
      ensures sorted[0].timestamp <= g.timestamp
    {
      var i :| 0 <= i < |sorted| && sorted[i] == g;
      if i > 0 {
        assert sorted[0].timestamp <= sorted[i].timestamp;
      }
    }
  }

  /**
   * The lookup returns nothing exactly for an empty frame list; otherwise it
   * returns one of the frames: the one with the greatest timestamp at or before
   * `time` when some frame qualifies, and else one with the least timestamp.
   */
  lemma NearestSpec(frames: seq<FrameData>, time: real)
    ensures var r := Nearest(frames, time);
            && (r.None? <==> frames == [])
            && (r.Some? ==> r.value in frames)
            && (r.Some? && (exists f :: f in frames && f.timestamp <= time) ==>
                  r.value.timestamp <= time
                  && forall f :: f in frames && f.timestamp <= time ==> f.timestamp <= r.value.timestamp)
            && (r.Some? && !(exists f :: f in frames && f.timestamp <= time) ==>
                  forall f :: f in frames ==> r.value.timestamp <= f.timestamp)
  {
    if frames != [] {
      var sorted := SortByTimestamp(frames);
      SortedCopySameMembers(frames);
      var r := ScanBack(sorted, time, |sorted|);
      assert Nearest(frames, time) == Some(r);
      ScanBackSpec(sorted, time, |sorted|);
      if exists f :: f in frames && f.timestamp <= time {
        var f :| f in frames && f.timestamp <= time;
        var j :| 0 <= j < |sorted| && sorted[j] == f;
        forall g | g in frames && g.timestamp <= time
          ensures g.timestamp <= r.timestamp
        {
          var i :| 0 <= i < |sorted| && sorted[i] == g;
        }
      } else {
        SortedHeadEarliest(sorted);
      }
    }
  }

  /** Moving the time forward never moves the resolved frame backward. */
  lemma NearestMonotone(frames: seq<FrameData>, t1: real, t2: real)
    requires frames != [] && t1 <= t2
    ensures Nearest(frames, t1).Some? && Nearest(frames, t2).Some?
    ensures Nearest(frames, t1).value.timestamp <= Nearest(frames, t2).value.timestamp
  {
    NearestSpec(frames, t1);
    NearestSpec(frames, t2);
    var r1, r2 := Nearest(frames, t1).value, Nearest(frames, t2).value;
    if exists f :: f in frames && f.timestamp <= t1 {
      assert r1 in frames && r1.timestamp <= t2;
    } else {
      assert r2 in frames;
    }
  }

  /** A frame at or before `time` that every other frame at or before `time` precedes is the one resolved. */
  lemma NearestIsLatestBefore(frames: seq<FrameData>, time: real, x: FrameData)
    requires x in frames && x.timestamp <= time
    requires forall f :: f in frames && f != x ==> time < f.timestamp || f.timestamp < x.timestamp
    ensures Nearest(frames, time) == Some(x)
  {
    NearestSpec(frames, time);
  }

  /** When every frame is after `time`, a frame strictly earlier than all the others is the one resolved. */
  lemma NearestIsEarliest(frames: seq<FrameData>, time: real, x: FrameData)
    requires x in frames
    requires forall f :: f in frames ==> time < f.timestamp
    requires forall f :: f in frames && f != x ==> x.timestamp < f.timestamp
    ensures Nearest(frames, time) == Some(x)
  {
    NearestSpec(frames, time);
  }

  /** Frames at 0, 5 and 10 s: time 7 resolves to the frame at 5. */
  lemma NearestExampleBetween(a: FrameData, b: FrameData, c: FrameData)
    requires a.timestamp == 0.0 && b.timestamp == 5.0 && c.timestamp == 10.0
    ensures Nearest([a, b, c], 7.0) == Some(b)
  {
    NearestIsLatestBefore([a, b, c], 7.0, b);
  }

  /** Frames at 0, 5 and 10 s: a time before every frame resolves to the earliest. */
  lemma NearestExampleBefore(a: FrameData, b: FrameData, c: FrameData)
    requires a.timestamp == 0.0 && b.timestamp == 5.0 && c.timestamp == 10.0
    ensures Nearest([a, b, c], -1.0) == Some(a)
  {
    NearestIsEarliest([a, b, c], -1.0, a);
  }

  /** Frames at 0, 5 and 10 s: any time at or after 10 resolves to the last frame. */
  lemma NearestExampleAfter(a: FrameData, b: FrameData, c: FrameData, late: real)
    requires a.timestamp == 0.0 && b.timestamp == 5.0 && c.timestamp == 10.0 && late >= 10.0
    ensures Nearest([a, b, c], late) == Some(c)
  {
    NearestIsLatestBefore([a, b, c], late, c);
  }

  /**
   * The body of `findNearestFrame`: sort a copy, scan it from the end for the
   * first frame at or before `time`, and fall back to the first sorted frame.
   */
  method FindNearestFrame(frames: seq<FrameData>, time: real) returns (r: Option<FrameData>)
    ensures r == Nearest(frames, time)
    ensures r.None? <==> frames == []
    ensures r.Some? ==> r.value in frames
  {
    NearestSpec(frames, time);
    if |frames| == 0 {
      return None;
    }
    var sorted := SortByTimestamp(frames);
    assert |sorted| == |frames| by {
      assert |multiset(sorted)| == |multiset(frames)|;
    }
    var i := |sorted| - 1;
    while i >= 0
      invariant -1 <= i < |sorted|
      invariant ScanBack(sorted, time, i + 1) == ScanBack(sorted, time, |sorted|)
    {
      if sorted[i].timestamp <= time {
        return Some(sorted[i]);
      }
      i := i - 1;
    }
    return Some(sorted[0]);
  }

  // ---------------------------------------------------------------------------
  // Frame-selection notification
  // ---------------------------------------------------------------------------

  /**
   * The condition of the selection effect: a frame was resolved and the
   * remembered id is unset, empty (falsy) or different from the frame's id.
   */
  predicate ShouldNotify(lastFrameId: Option<string>, nearest: Option<FrameData>) {
    nearest.Some? && (lastFrameId.None? || lastFrameId.value == "" || lastFrameId.value != nearest.value.id)
  }

  /**
   * Once a frame with a non-empty id has been announced and remembered,
   * resolving the same frame again announces nothing; resolving a frame with a
   * different id announces it.
   */
  lemma NotifyOnlyOnChange(lastFrameId: Option<string>, nearest: Option<FrameData>, next: Option<FrameData>)
    requires ShouldNotify(lastFrameId, nearest) && nearest.value.id != ""
    ensures !ShouldNotify(Some(nearest.value.id), nearest)
    ensures next.Some? && next.value.id != nearest.value.id ==> ShouldNotify(Some(nearest.value.id), next)
    ensures next.Some? && next.value.id == nearest.value.id ==> !ShouldNotify(Some(nearest.value.id), next)
  {
  }

  // ---------------------------------------------------------------------------
  // Skipping, clicking and the clock label
  // ---------------------------------------------------------------------------

  /** `frames.indexOf(frame)`: the first position holding `frame`, or -1. */
  function IndexOf(frames: seq<FrameData>, frame: FrameData): (i: int)
    ensures -1 <= i < |frames|
    ensures i == -1 <==> frame !in frames
    ensures i >= 0 ==> frames[i] == frame && frame !in frames[..i]
  {
    if |frames| == 0 then -1
    else if frames[0] == frame then 0
    else
      var j := IndexOf(frames[1..], frame);
      assert frames[1..][..if j < 0 then 0 else j] == frames[1..if j < 0 then 1 else j + 1];
      if j < 0 then -1 else j + 1
  }

  /**
   * `min(index + 1, length - 1)` forward, `max(index - 1, 0)` backward: one step
   * in the chosen direction, staying put at either end.
   */
  function SkipIndex(index: nat, length: nat, forward: bool): (r: nat)
    requires index < length
    ensures r < length
    ensures forward && index + 1 < length ==> r == index + 1
    ensures forward && index + 1 == length ==> r == index
    ensures !forward && index > 0 ==> r == index - 1
    ensures !forward && index == 0 ==> r == 0
  {
    if forward then (if index + 1 < length - 1 then index + 1 else length - 1)
    else (if index - 1 > 0 then index - 1 else 0)
  }

  /** `(clientX - rect.left) / rect.width * duration`: the time under the pointer. */
  function ClickTime(clientX: real, left: real, width: real, duration: real): (t: real)
    requires width > 0.0
    ensures left <= clientX <= left + width && duration >= 0.0 ==> 0.0 <= t <= duration
  {
    var position := (clientX - left) / width;
    assert left <= clientX <= left + width ==> 0.0 <= position <= 1.0 by {
      if left <= clientX <= left + width {
        assert (clientX - left) <= width;
      }
    }
    position * duration
  }

  /** Where a frame marker is drawn, as a fraction of the bar: `timestamp / duration`. */
  function MarkerFraction(timestamp: real, duration: real): (fraction: real)
    requires duration != 0.0
    ensures fraction * duration == timestamp
    ensures 0.0 <= timestamp <= duration ==> 0.0 <= fraction <= 1.0
  {
    timestamp / duration
  }

  /** Clicking exactly on a frame's marker seeks to that frame's timestamp. */
  lemma ClickOnMarker(timestamp: real, left: real, width: real, duration: real)
    requires width > 0.0 && duration > 0.0
    ensures ClickTime(left + MarkerFraction(timestamp, duration) * width, left, width, duration) == timestamp
  {
    var m := MarkerFraction(timestamp, duration);
    assert (left + m * width - left) / width == m;
    assert m * duration == timestamp;
  }

  /** JavaScript's `Math.trunc`. */
  function Trunc(x: real): (n: int)
    ensures x >= 0.0 ==> n as real <= x < n as real + 1.0
    ensures x < 0.0 ==> n as real - 1.0 < x <= n as real
  {
    if x >= 0.0 then x.Floor else -((-x).Floor)
  }

  /** JavaScript's `%` on numbers: the remainder takes the sign of the dividend. */
  function JsRem(a: real, b: real): (r: real)
    requires b != 0.0
    ensures b > 0.0 && a >= 0.0 ==> 0.0 <= r < b
    ensures b > 0.0 && a < 0.0 ==> -b < r <= 0.0
  {
    if b > 0.0 then RemainderBounds(a, b); a - b * Trunc(a / b) as real
    else a - b * Trunc(a / b) as real
  }

  /** `a` minus `b` times `Math.trunc(a / b)`, for a positive `b`, lies within one `b` of zero on `a`'s side. */
  lemma RemainderBounds(a: real, b: real)
    requires b > 0.0
    ensures var r := a - b * Trunc(a / b) as real;
            (a >= 0.0 ==> 0.0 <= r < b) && (a < 0.0 ==> -b < r <= 0.0)
  {
    var x := a / b;
    var q := Trunc(x) as real;
    ScaledSign(a, b, x);
    if a >= 0.0 {
      ScaledLowerBound(a, b, x, q);
      ScaledStrictUpperBound(a, b, x, q);
    } else {
      ScaledStrictLowerBound(a, b, x, q);
      ScaledUpperBound(a, b, x, q);
    }
  }

  // Scaling by a positive `b`, where `a == b * x`: one fact per lemma keeps the
  // non-linear steps small enough for the solver.

  lemma ScaledSign(a: real, b: real, x: real)
    requires b > 0.0 && b * x == a
    ensures a >= 0.0 <==> x >= 0.0
  {
    if x < 0.0 {
      assert b * -x > 0.0;
    }
  }

  lemma ScaledLowerBound(a: real, b: real, x: real, q: real)
    requires b > 0.0 && b * x == a && q <= x
    ensures b * q <= a
  {
    var d := x - q;
    assert b * d >= 0.0;
    assert b * d == b * x - b * q;
  }

  lemma ScaledStrictUpperBound(a: real, b: real, x: real, q: real)
    requires b > 0.0 && b * x == a && x < q + 1.0
    ensures a < b * q + b
  {
    var d := q + 1.0 - x;
    assert b * d > 0.0;
    assert b * d == b * q + b - b * x;
  }

  lemma ScaledStrictLowerBound(a: real, b: real, x: real, q: real)
    requires b > 0.0 && b * x == a && q - 1.0 < x
    ensures b * q - b < a
  {
    var d := x - q + 1.0;
    assert b * d > 0.0;
    assert b * d == b * x - b * q + b;
  }

  lemma ScaledUpperBound(a: real, b: real, x: real, q: real)
    requires b > 0.0 && b * x == a && x <= q
    ensures a <= b * q
  {
    var d := q - x;
    assert b * d >= 0.0;
    assert b * d == b * q - b * x;
  }

  /** Negating the dividend negates the remainder, unlike Dafny's Euclidean `%`. */
  lemma JsRemNegated(a: real, b: real)
    requires b != 0.0
    ensures JsRem(-a, b) == -JsRem(a, b)
  {
    assert (-a) / b == -(a / b);
    if a / b != 0.0 {
      assert Trunc(-(a / b)) == -Trunc(a / b);
    }
  }

  /** `formatTime`: `${Math.floor(s / 60)}:${String(Math.floor(s % 60)).padStart(2, '0')}`. */
  function FormatTime(seconds: real): string {
    var mins := (seconds / 60.0).Floor;
    var secs := JsRem(seconds, 60.0).Floor;
    Text.IntToString(mins) + ":" + Text.PadStart(Text.IntToString(secs), 2, '0')
  }

  /** Two decimal digits for a number below 100. */
  function TwoDigits(n: nat): string
    requires n < 100
  {
    [Text.Digit(n / 10), Text.Digit(n % 10)]
  }

  /** A number below 100 padded to two characters is its two decimal digits. */
  lemma PadTwoDigits(n: nat)
    requires n < 100
    ensures Text.PadStart(Text.NatToString(n), 2, '0') == TwoDigits(n)
  {
    var digits := Text.NatToString(n);
    if n < 10 {
      assert digits == [Text.Digit(n)];
      assert Text.PadStart(digits, 2, '0') == ['0'] + digits;
    } else {
      assert Text.NatToString(n / 10) == [Text.Digit(n / 10)];
      assert digits == [Text.Digit(n / 10)] + [Text.Digit(n % 10)];
    }
  }

  /** For a non-negative time, the minutes and the seconds remainder are those of its whole seconds. */
  lemma MinutesAndSeconds(seconds: real)
    requires seconds >= 0.0
    ensures (seconds / 60.0).Floor == seconds.Floor / 60
    ensures JsRem(seconds, 60.0).Floor == seconds.Floor % 60
  {
    var whole := seconds.Floor;
    var mins := (seconds / 60.0).Floor;
    assert 60.0 * mins as real <= seconds < 60.0 * mins as real + 60.0;
    assert 60 * mins <= whole < 60 * mins + 60;
    assert mins == whole / 60;
    assert Trunc(seconds / 60.0) == mins;
    assert JsRem(seconds, 60.0) == seconds - (60 * mins) as real;
  }

  /**
   * For a non-negative time the label is the whole minutes, a colon, and the
   * remaining whole seconds (0 to 59) as exactly two digits.
   */
  lemma FormatTimeNonNegative(seconds: real)
    requires seconds >= 0.0
    ensures var whole := seconds.Floor;
            FormatTime(seconds) == Text.NatToString(whole / 60) + ":" + TwoDigits(whole % 60)
  {
    var whole := seconds.Floor;
    MinutesAndSeconds(seconds);
    assert Text.IntToString((seconds / 60.0).Floor) == Text.NatToString(whole / 60);
    assert Text.IntToString(JsRem(seconds, 60.0).Floor) == Text.NatToString(whole % 60);
    PadTwoDigits(whole % 60);
  }

  /** The label of a non-negative time, given its whole minutes and remaining whole seconds. */
  lemma FormatTimeOf(seconds: real, m: nat, r: nat)
    requires seconds >= 0.0 && seconds.Floor / 60 == m && seconds.Floor % 60 == r
    ensures r < 60
    ensures FormatTime(seconds) == Text.NatToString(m) + ":" + TwoDigits(r)
  {
    FormatTimeNonNegative(seconds);
  }

  /** One minute and fifteen seconds, rendered. */
  lemma MinuteLabelText()
    ensures Text.NatToString(1) + ":" + TwoDigits(15) == "1:15"
  {
  }

  /** No minutes and five seconds, rendered. */
  lemma SecondsLabelText()
    ensures Text.NatToString(0) + ":" + TwoDigits(5) == "0:05"
  {
  }

  /** 75.4 s reads "1:15". */
  lemma FormatTimeMinuteExample(t: real)
    requires t == 75.4
    ensures FormatTime(t) == "1:15"
  {
    assert t.Floor == 75;
    FormatTimeOf(t, 1, 15);
    MinuteLabelText();
  }

  /** 5 s reads "0:05". */
  lemma FormatTimeSecondsExample(t: real)
    requires t == 5.0
    ensures FormatTime(t) == "0:05"
  {
    assert t.Floor == 5;
    FormatTimeOf(t, 0, 5);
    SecondsLabelText();
  }

  // ---------------------------------------------------------------------------
  // Playback tick
  // ---------------------------------------------------------------------------

  /**
   * The time the fallback clock lands on after one tick: `min(current + delta,
   * duration)`, and 0 (loop playback) once that reaches the duration.
   */
  function PlaybackStep(current: real, delta: real, duration: real): (next: real)
    ensures current + delta >= duration ==> next == 0.0
    ensures current + delta < duration ==> next == current + delta
  {
    var newTime := if current + delta <= duration then current + delta else duration;
    if newTime >= duration then 0.0 else newTime
  }

  /** From a time inside `[0, duration)`, a non-negative delta stays inside it. */
  lemma PlaybackStaysInRange(current: real, delta: real, duration: real)
    requires 0.0 <= current && 0.0 <= delta
    ensures 0.0 <= PlaybackStep(current, delta, duration)
    ensures duration > 0.0 ==> PlaybackStep(current, delta, duration) < duration
  {
  }

  // ---------------------------------------------------------------------------
  // The component's mutable state
  // ---------------------------------------------------------------------------

  /**
   * One mounted timeline. `currentTime` is the parent's time state, written
   * through `onSeek`; `lastFrameId` is the ref remembering the last announced
   * frame; `lastTime` is the animation closure's previous tick time (0 = none).
   */
  class TimelineView {
    const frames: seq<FrameData>
    const duration: real
    var currentTime: real
    var lastFrameId: Option<string>
    var lastTime: real

    constructor (frames: seq<FrameData>, duration: real, currentTime: real)
      ensures this.frames == frames && this.duration == duration && this.currentTime == currentTime
      ensures lastFrameId == None && lastTime == 0.0
    {
      this.frames := frames;
      this.duration := duration;
      this.currentTime := currentTime;
      lastFrameId := None;
      lastTime := 0.0;
    }

    /**
     * The selection effect run when `currentTime` changes: announce the resolved
     * frame (returned in `announced`) only under `ShouldNotify`, and remember its id.
     */
    method SelectCurrentFrame() returns (announced: Option<FrameData>)
      modifies this`lastFrameId
      ensures var nearest := Nearest(frames, currentTime);
              if ShouldNotify(old(lastFrameId), nearest)
              then announced == nearest && lastFrameId == Some(nearest.value.id)
              else announced == None && lastFrameId == old(lastFrameId)
    {
      var nearest := FindNearestFrame(frames, currentTime);
      if nearest.Some? && (lastFrameId.None? || lastFrameId.value == "" || lastFrameId.value != nearest.value.id) {
        lastFrameId := Some(nearest.value.id);
        announced := nearest;
      } else {
        announced := None;
      }
    }

    /**
     * `skipFrame`: from the frame shown now, step to the adjacent position in
     * `frames` (clamped), seek to its timestamp and return it as the selection.
     * With no frames nothing happens. `lastFrameId` is left as it is.
     */
    method SkipFrame(forward: bool) returns (selected: Option<FrameData>)
      modifies this`currentTime
      ensures frames == [] ==> selected == None && currentTime == old(currentTime)
      ensures frames != [] ==>
                var index := IndexOf(frames, Nearest(frames, old(currentTime)).value);
                && 0 <= index < |frames|
                && selected == Some(frames[SkipIndex(index, |frames|, forward)])
                && currentTime == selected.value.timestamp
    {
      var current := FindNearestFrame(frames, currentTime);
      if current.None? {
        return None;
      }
      var index := IndexOf(frames, current.value);
      var newIndex := SkipIndex(index, |frames|, forward);
      var newFrame := frames[newIndex];
      currentTime := newFrame.timestamp;
      selected := Some(newFrame);
    }

    /** A click on a frame's marker: seek to that frame's timestamp and select it. */
    method SelectMarker(frame: FrameData) returns (selected: FrameData)
      modifies this`currentTime
      ensures currentTime == frame.timestamp && selected == frame
    {
      currentTime := frame.timestamp;
      selected := frame;
    }

    /** `handleTimelineClick`: seek to the time under the pointer. */
    method Click(clientX: real, left: real, width: real)
      requires width > 0.0
      modifies this`currentTime
      ensures currentTime == ClickTime(clientX, left, width, duration)
    {
      var position := (clientX - left) / width;
      currentTime := position * duration;
    }

    /**
     * One `animate` callback at `time` ms. `mediaClock` is the `<video>`
     * element's position when one was found. The first tick after a (re)start
     * only records the time; later ticks adopt the media clock, or advance by the
     * elapsed seconds with `PlaybackStep`. The effect depends on `currentTime`,
     * so a tick that changes it restarts the loop with `lastTime = 0`.
     */
    method Animate(time: real, mediaClock: Option<real>)
      modifies this`currentTime, this`lastTime
      ensures old(lastTime) == 0.0 ==> currentTime == old(currentTime)
      ensures old(lastTime) != 0.0 && mediaClock.Some? ==> currentTime == mediaClock.value
      ensures old(lastTime) != 0.0 && mediaClock.None? ==>
                currentTime == PlaybackStep(old(currentTime), (time - old(lastTime)) / 1000.0, duration)
      ensures lastTime == if currentTime != old(currentTime) then 0.0 else time
    {
      var before := currentTime;
      if lastTime != 0.0 {
        var deltaTime := (time - lastTime) / 1000.0;
        match mediaClock {
          case Some(position) =>
            currentTime := position;
          case None =>
            var newTime := if currentTime + deltaTime <= duration then currentTime + deltaTime else duration;
            currentTime := newTime;
            if newTime >= duration {
              currentTime := 0.0;
            }
        }
      }
      lastTime := if currentTime != before then 0.0 else time;
    }
  }
}
