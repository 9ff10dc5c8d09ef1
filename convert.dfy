/** Concatenating trajectories frame by frame, and extracting one frame.
    A trajectory is the sequence of frames a reader would yield for it;
    files on disk are a map from path to entry. */
module Convert {
  import opened Common

  /** One frame: its integration time, positions and velocity components. */
  datatype Frame = Frame(time: int, positions: seq<int>, velocities: seq<int>)

  /** An input trajectory: its files and the frames they hold. */
  datatype Source = Source(structureFile: string, trajectoryFiles: seq<string>, frames: seq<Frame>)

  /** The trajectory object handed back: output file and structure file. */
  datatype OutTrajectory = OutTrajectory(trajectoryFile: string, structureFile: string)

  /** A `(start, stop, step)` tuple; `None` stands for Python's `None`. */
  datatype Slice = Slice(start: Option<int>, stop: Option<int>, step: Option<int>)

  datatype ConvertError =
    | OutputExists(path: string)
    | StructureMissing(path: string)
    | NoTrajectories
    | NoSlices
    | ZeroStep
    | StepComparison
    | LastTimeUnbound
    | FrameIndex(idx: int)

  // ---------------------------------------------------------------------
  // Slicing

  function Clamp(x: int, lower: int, upper: int): int {
    if x < lower then lower else if x > upper then upper else x
  }

  /** One bound of `slice.indices`: a default for `None`, a negative value
      counted from the end, then clamped. */
  function Bound(v: Option<int>, default: int, n: nat, lower: int, upper: int): int {
    match v
    case None => default
    case Some(x) => Clamp(if x < 0 then x + n else x, lower, upper)
  }

  /** `slice(start, stop, step).indices(n)`; a zero step is a `ValueError`. */
  function Indices(s: Slice, n: nat): (r: Result<(int, int, int), ConvertError>)
    ensures r.Failure? <==> s.step == Some(0)
    ensures r.Success? && r.value.2 > 0 ==> 0 <= r.value.0 <= n && r.value.1 <= n
    ensures r.Success? && r.value.2 < 0 ==> r.value.0 <= n - 1 && -1 <= r.value.1
  {
    var step := if s.step.None? then 1 else s.step.value;
    if step == 0 then Failure(ZeroStep)
    else
      var lower := if step < 0 then -1 else 0;
      var upper := if step < 0 then n - 1 else n;
      var start := Bound(s.start, if step < 0 then upper else lower, n, lower, upper);
      var stop := Bound(s.stop, if step < 0 then lower else upper, n, lower, upper);
      Success((start, stop, step))
  }

  /** `range(start, stop, step)`. */
  function Range(start: int, stop: int, step: int): seq<int>
    requires step != 0
    decreases if step > 0 then stop - start else start - stop
  {
    if (step > 0 && start < stop) || (step < 0 && start > stop) then [start] + Range(start + step, stop, step)
    else []
  }

  /** The elements of a range lie between its ends and run in the step's
      direction. */
  lemma {:induction false} RangeBetween(start: int, stop: int, step: int)
    requires step != 0
    ensures step > 0 ==> forall i :: 0 <= i < |Range(start, stop, step)| ==> start <= Range(start, stop, step)[i] < stop
    ensures step < 0 ==> forall i :: 0 <= i < |Range(start, stop, step)| ==> stop < Range(start, stop, step)[i] <= start
    ensures forall i :: 0 < i < |Range(start, stop, step)| ==> Range(start, stop, step)[i] == Range(start, stop, step)[i - 1] + step
    decreases if step > 0 then stop - start else start - stop
  {
    if (step > 0 && start < stop) || (step < 0 && start > stop) {
      RangeBetween(start + step, stop, step);
      var r, t := Range(start, stop, step), Range(start + step, stop, step);
      assert r == [start] + t;
      forall i | 0 < i < |r| ensures r[i] == r[i - 1] + step {
        assert r[i] == t[i - 1];
        if i > 1 {
          assert r[i - 1] == t[i - 2];
        }
      }
    }
  }

  /** Every index `slice.indices` gives is a valid one. */
  lemma IndicesInRange(s: Slice, n: nat)
    requires Indices(s, n).Success?
    ensures var (a, b, c) := Indices(s, n).value; forall i :: 0 <= i < |Range(a, b, c)| ==> 0 <= Range(a, b, c)[i] < n
  {
    var (a, b, c) := Indices(s, n).value;
    RangeBetween(a, b, c);
  }

  function Pick(frames: seq<Frame>, idx: seq<int>): (r: seq<Frame>)
    requires forall i :: 0 <= i < |idx| ==> 0 <= idx[i] < |frames|
    ensures |r| == |idx|
  {
    seq(|idx|, i requires 0 <= i < |idx| => frames[idx[i]])
  }

  /** `trajectory[start:stop:step]`. */
  function Select(frames: seq<Frame>, s: Slice): Result<seq<Frame>, ConvertError> {
    match Indices(s, |frames|)
    case Failure(e) => Failure(e)
    case Success((a, b, c)) =>
      IndicesInRange(s, |frames|);
      Success(Pick(frames, Range(a, b, c)))
  }

  lemma {:induction false} RangeUp(a: int, n: int)
    requires 0 <= a <= n
    ensures Range(a, n, 1) == seq(n - a, i requires 0 <= i < n - a => a + i)
    decreases n - a
  {
    if a < n {
      RangeUp(a + 1, n);
    }
  }

  /** `[::]` and `[:: 1]` select every frame, in order. */
  lemma SelectAll(frames: seq<Frame>, step: Option<int>)
    requires step == None || step == Some(1)
    ensures Select(frames, Slice(None, None, step)) == Success(frames)
  {
    var n := |frames|;
    assert Indices(Slice(None, None, step), n) == Success((0, n, 1));
    RangeUp(0, n);
    var r := Pick(frames, Range(0, n, 1));
    assert |r| == n && forall i :: 0 <= i < n ==> r[i] == frames[i];
    assert r == frames;
  }

  /** `[:: -1]` selects every frame, last first. */
  lemma SelectReversed(frames: seq<Frame>)
    ensures Select(frames, Slice(None, None, Some(-1))).Success?
    ensures var r := Select(frames, Slice(None, None, Some(-1))).value;
      |r| == |frames| && forall i :: 0 <= i < |r| ==> r[i] == frames[|frames| - 1 - i]
  {
    RangeDown(|frames| - 1);
  }

  lemma {:induction false} RangeDown(a: int)
    requires a >= -1
    ensures Range(a, -1, -1) == seq(a + 1, i requires 0 <= i < a + 1 => a - i)
    decreases a + 1
  {
    if a > -1 {
      RangeDown(a - 1);
    }
  }

  // ---------------------------------------------------------------------
  // Velocities

  function NegateAll(v: seq<int>): (r: seq<int>)
    ensures |r| == |v| && forall i :: 0 <= i < |v| ==> r[i] == -v[i]
  {
    seq(|v|, i requires 0 <= i < |v| => -v[i])
  }

  /** `velocities *= -1`: every component negated, nothing else touched. */
  function Negated(f: Frame): Frame {
    f.(velocities := NegateAll(f.velocities))
  }

  lemma NegatedTwice(f: Frame)
    ensures Negated(Negated(f)) == f
    ensures Negated(f).time == f.time && Negated(f).positions == f.positions
  {
    assert Negated(Negated(f)).velocities == f.velocities;
  }

  /** What happens to a written frame of a segment: kept, negated, or a
      `TypeError` from comparing a `None` step with 0. */
  datatype Negation = Keep | Negate | CompareError

  function NegationOf(invert: bool, step: Option<int>): (n: Negation)
    ensures n.Negate? <==> invert && step.Some? && step.value < 0
    ensures n.CompareError? <==> invert && step.None?
  {
    if !invert then Keep
    else match step
      case None => CompareError
      case Some(k) => if k < 0 then Negate else Keep
  }

  function Apply(neg: Negation, f: Frame): Frame {
    if neg.Negate? then Negated(f) else f
  }

  // ---------------------------------------------------------------------
  // The writing loop, as the loops run it

  /** The state between frames: what has been written and
      `last_time_seen` (`None` while unbound), or the exception that ended
      the run. */
  datatype Run = Running(written: seq<Frame>, last: Option<int>) | Stopped(written: seq<Frame>, error: ConvertError)

  /** The frames of one segment, front to back. A later segment (not `first`)
      with deduplication skips a frame whose time is the last one seen. */
  function Feed(run: Run, frames: seq<Frame>, neg: Negation, dedup: bool, first: bool): Run
    decreases |frames|
  {
    if run.Stopped? || frames == [] then run
    else
      var f := frames[0];
      if !first && dedup && run.last.None? then Stopped(run.written, LastTimeUnbound)
      else if !first && dedup && run.last == Some(f.time) then Feed(run, frames[1..], neg, dedup, first)
      else if neg.CompareError? then Stopped(run.written, StepComparison)
      else Feed(Running(run.written + [Apply(neg, f)], if dedup then Some(f.time) else run.last),
                frames[1..], neg, dedup, first)
  }

  /** One trajectory with its slice. */
  function Segment(run: Run, frames: seq<Frame>, sl: Slice, invert: bool, dedup: bool, first: bool): Run {
    if run.Stopped? then run
    else match Select(frames, sl)
      case Failure(e) => Stopped(run.written, e)
      case Success(sel) => Feed(run, sel, NegationOf(invert, sl.step), dedup, first)
  }

  /** `zip(trajs[1:], slices[1:])`: pairs up to the shorter of the two. */
  function FeedAll(run: Run, trajs: seq<Source>, slices: seq<Slice>, invert: bool, dedup: bool): Run
    decreases |trajs|
  {
    if trajs == [] || slices == [] then run
    else FeedAll(Segment(run, trajs[0].frames, slices[0], invert, dedup, false), trajs[1..], slices[1..], invert, dedup)
  }

  function Concat(trajs: seq<Source>, slices: seq<Slice>, invert: bool, dedup: bool): Run
    requires trajs != [] && slices != []
  {
    FeedAll(Segment(Running([], None), trajs[0].frames, slices[0], invert, dedup, true),
            trajs[1..], slices[1..], invert, dedup)
  }

  lemma {:induction false} FeedAllStopped(run: Run, trajs: seq<Source>, slices: seq<Slice>, invert: bool, dedup: bool)
    requires run.Stopped?
    ensures FeedAll(run, trajs, slices, invert, dedup) == run
    decreases |trajs|
  {
    if trajs != [] && slices != [] {
      FeedAllStopped(run, trajs[1..], slices[1..], invert, dedup);
    }
  }

  // ---------------------------------------------------------------------
  // A reference description of the output

  /** The frames of one segment as written without deduplication. */
  function Processed(sel: seq<Frame>, neg: Negation): (r: seq<Frame>)
    ensures |r| == |sel|
    ensures forall i :: 0 <= i < |sel| ==> r[i] == Apply(neg, sel[i])
  {
    seq(|sel|, i requires 0 <= i < |sel| => Apply(neg, sel[i]))
  }

  /** Every zipped segment, selected and with velocities inverted where its
      step asks for it; the first failing segment is the error. */
  function Segments(trajs: seq<Source>, slices: seq<Slice>, invert: bool): Result<seq<seq<Frame>>, ConvertError>
    decreases |trajs|
  {
    if trajs == [] || slices == [] then Success([])
    else match Select(trajs[0].frames, slices[0])
      case Failure(e) => Failure(e)
      case Success(sel) =>
        var neg := NegationOf(invert, slices[0].step);
        if neg.CompareError? && sel != [] then Failure(StepComparison)
        else match Segments(trajs[1..], slices[1..], invert)
          case Failure(e) => Failure(e)
          case Success(rest) => Success([Processed(sel, neg)] + rest)
  }

  lemma ProcessedCons(sel: seq<Frame>, neg: Negation)
    requires sel != []
    ensures Processed(sel, neg) == [Apply(neg, sel[0])] + Processed(sel[1..], neg)
  {
  }

  lemma Associate(a: seq<Frame>, b: seq<Frame>, c: seq<Frame>)
    ensures a + b + c == a + (b + c)
  {
  }

  function Flatten(segs: seq<seq<Frame>>): seq<Frame> {
    if segs == [] then [] else segs[0] + Flatten(segs[1..])
  }

  /** A successful `Segments` unfolded once. */
  lemma SegmentsHead(trajs: seq<Source>, slices: seq<Slice>, invert: bool)
    requires trajs != [] && slices != [] && Segments(trajs, slices, invert).Success?
    ensures Select(trajs[0].frames, slices[0]).Success?
    ensures Segments(trajs[1..], slices[1..], invert).Success?
    ensures var sel := Select(trajs[0].frames, slices[0]).value;
      var neg := NegationOf(invert, slices[0].step);
      var rest := Segments(trajs[1..], slices[1..], invert).value;
      && !(neg.CompareError? && sel != [])
      && Segments(trajs, slices, invert).value == [Processed(sel, neg)] + rest
      && Flatten(Segments(trajs, slices, invert).value) == Processed(sel, neg) + Flatten(rest)
  {
    var sel := Select(trajs[0].frames, slices[0]).value;
    var neg := NegationOf(invert, slices[0].step);
    var rest := Segments(trajs[1..], slices[1..], invert).value;
    assert ([Processed(sel, neg)] + rest)[1..] == rest;
  }

  /** Deduplication over a stream of frames: a frame is dropped when its
      time equals the time of the frame kept before it (`last` at first). */
  function Squeeze(last: int, s: seq<Frame>): seq<Frame>
    decreases |s|
  {
    if s == [] then []
    else if s[0].time == last then Squeeze(last, s[1..])
    else [s[0]] + Squeeze(s[0].time, s[1..])
  }

  /** The time of the last frame kept, `last` if none. */
  function SqueezeLast(last: int, s: seq<Frame>): int
    decreases |s|
  {
    if s == [] then last
    else if s[0].time == last then SqueezeLast(last, s[1..])
    else SqueezeLast(s[0].time, s[1..])
  }

  lemma {:induction false} SqueezeConcat(l: int, a: seq<Frame>, b: seq<Frame>)
    ensures Squeeze(l, a + b) == Squeeze(l, a) + Squeeze(SqueezeLast(l, a), b)
    ensures SqueezeLast(l, a + b) == SqueezeLast(SqueezeLast(l, a), b)
    decreases |a|
  {
    if a == [] {
      assert a + b == b;
    } else {
      assert (a + b)[0] == a[0] && (a + b)[1..] == a[1..] + b;
      if a[0].time == l {
        SqueezeConcat(l, a[1..], b);
      } else {
        SqueezeConcat(a[0].time, a[1..], b);
      }
    }
  }

  /** Without deduplication a segment appends its frames as processed. */
  lemma {:induction false} FeedPlain(w: seq<Frame>, l: Option<int>, sel: seq<Frame>, neg: Negation, first: bool)
    ensures Feed(Running(w, l), sel, neg, false, first)
         == if neg.CompareError? && sel != [] then Stopped(w, StepComparison) else Running(w + Processed(sel, neg), l)
    decreases |sel|
  {
    if sel == [] {
      assert w + Processed(sel, neg) == w;
    } else if !neg.CompareError? {
      var w' := w + [Apply(neg, sel[0])];
      FeedPlain(w', l, sel[1..], neg, first);
      ProcessedCons(sel, neg);
      Associate(w, [Apply(neg, sel[0])], Processed(sel[1..], neg));
    }
  }

  /** A later segment with deduplication appends its processed frames,
      squeezed against the last time seen. */
  lemma {:induction false} FeedDedup(w: seq<Frame>, l: int, sel: seq<Frame>, neg: Negation)
    requires !(neg.CompareError? && sel != [])
    ensures Feed(Running(w, Some(l)), sel, neg, true, false)
         == Running(w + Squeeze(l, Processed(sel, neg)), Some(SqueezeLast(l, Processed(sel, neg))))
    decreases |sel|
  {
    var p := Processed(sel, neg);
    if sel == [] {
      assert w + Squeeze(l, p) == w;
    } else {
      assert p[0] == Apply(neg, sel[0]) && p[0].time == sel[0].time;
      assert p[1..] == Processed(sel[1..], neg);
      if sel[0].time == l {
        FeedDedup(w, l, sel[1..], neg);
      } else {
        FeedDedup(w + [p[0]], sel[0].time, sel[1..], neg);
        assert w + [p[0]] + Squeeze(sel[0].time, p[1..]) == w + Squeeze(l, p);
      }
    }
  }

  /** The first segment writes every selected frame, duplicates included. */
  lemma {:induction false} FeedFirst(w: seq<Frame>, l: Option<int>, sel: seq<Frame>, neg: Negation, dedup: bool)
    requires !(neg.CompareError? && sel != [])
    ensures Feed(Running(w, l), sel, neg, dedup, true)
         == Running(w + Processed(sel, neg), if dedup && sel != [] then Some(sel[|sel| - 1].time) else l)
    decreases |sel|
  {
    if sel == [] {
      assert w + Processed(sel, neg) == w;
    } else {
      var w' := w + [Apply(neg, sel[0])];
      var l' := if dedup then Some(sel[0].time) else l;
      assert Feed(Running(w, l), sel, neg, dedup, true) == Feed(Running(w', l'), sel[1..], neg, dedup, true);
      FeedFirst(w', l', sel[1..], neg, dedup);
      ProcessedCons(sel, neg);
      Associate(w, [Apply(neg, sel[0])], Processed(sel[1..], neg));
      if |sel| > 1 {
        assert sel[1..][|sel| - 2] == sel[|sel| - 1];
      }
    }
  }

  /** Later segments without deduplication: the output grows by the
      concatenation of the processed segments. */
  lemma {:induction false} FeedAllPlain(w: seq<Frame>, l: Option<int>, trajs: seq<Source>, slices: seq<Slice>, invert: bool)
    ensures var r := FeedAll(Running(w, l), trajs, slices, invert, false);
      && (r.Running? <==> Segments(trajs, slices, invert).Success?)
      && (r.Running? ==> r == Running(w + Flatten(Segments(trajs, slices, invert).value), l))
    decreases |trajs|
  {
    if trajs != [] && slices != [] {
      var next := Segment(Running(w, l), trajs[0].frames, slices[0], invert, false, false);
      assert FeedAll(Running(w, l), trajs, slices, invert, false) == FeedAll(next, trajs[1..], slices[1..], invert, false);
      var s0 := Select(trajs[0].frames, slices[0]);
      if s0.Failure? {
        FeedAllStopped(next, trajs[1..], slices[1..], invert, false);
      } else {
        var sel := s0.value;
        var neg := NegationOf(invert, slices[0].step);
        FeedPlain(w, l, sel, neg, false);
        if neg.CompareError? && sel != [] {
          FeedAllStopped(next, trajs[1..], slices[1..], invert, false);
        } else {
          var p := Processed(sel, neg);
          FeedAllPlain(w + p, l, trajs[1..], slices[1..], invert);
          var r := Segments(trajs[1..], slices[1..], invert);
          if r.Success? {
            SegmentsHead(trajs, slices, invert);
            Associate(w, p, Flatten(r.value));
          }
        }
      }
    }
  }

  /** Later segments with deduplication, once `last_time_seen` is bound. */
  lemma {:induction false} FeedAllDedup(w: seq<Frame>, l: int, trajs: seq<Source>, slices: seq<Slice>, invert: bool)
    requires Segments(trajs, slices, invert).Success?
    ensures var f := Flatten(Segments(trajs, slices, invert).value);
      FeedAll(Running(w, Some(l)), trajs, slices, invert, true) == Running(w + Squeeze(l, f), Some(SqueezeLast(l, f)))
    decreases |trajs|
  {
    if trajs == [] || slices == [] {
      assert w + Squeeze(l, []) == w;
    } else {
      SegmentsHead(trajs, slices, invert);
      var sel := Select(trajs[0].frames, slices[0]).value;
      var neg := NegationOf(invert, slices[0].step);
      var p := Processed(sel, neg);
      var rest := Segments(trajs[1..], slices[1..], invert).value;
      assert Segment(Running(w, Some(l)), trajs[0].frames, slices[0], invert, true, false)
          == Feed(Running(w, Some(l)), sel, neg, true, false);
      FeedDedup(w, l, sel, neg);
      FeedAllDedup(w + Squeeze(l, p), SqueezeLast(l, p), trajs[1..], slices[1..], invert);
      SqueezeConcat(l, p, Flatten(rest));
      Associate(w, Squeeze(l, p), Squeeze(SqueezeLast(l, p), Flatten(rest)));
    }
  }

  /** Walks the later zipped pairs up to the first one whose selection is
      non-empty: `Success(true)` when such a frame is reached,
      `Success(false)` when none is, or the error of the first selection
      that fails on the way. Inversion and deduplication play no part. */
  function ReachesFrame(trajs: seq<Source>, slices: seq<Slice>): Result<bool, ConvertError>
    decreases |trajs|
  {
    if trajs == [] || slices == [] then Success(false)
    else match Select(trajs[0].frames, slices[0])
      case Failure(e) => Failure(e)
      case Success(sel) => if sel != [] then Success(true) else ReachesFrame(trajs[1..], slices[1..])
  }

  /** The outcome of a run whose `last_time_seen` is still unbound. */
  function UnboundOutcome(reach: Result<bool, ConvertError>): Run {
    match reach
    case Failure(e) => Stopped([], e)
    case Success(b) => if b then Stopped([], LastTimeUnbound) else Running([], None)
  }

  /** With deduplication and nothing written yet, the first later frame
      finds `last_time_seen` unbound. */
  lemma {:induction false} FeedAllUnbound(trajs: seq<Source>, slices: seq<Slice>, invert: bool)
    ensures FeedAll(Running([], None), trajs, slices, invert, true) == UnboundOutcome(ReachesFrame(trajs, slices))
    decreases |trajs|
  {
    if trajs != [] && slices != [] {
      match Select(trajs[0].frames, slices[0]) {
        case Failure(e) =>
          FeedAllStopped(Stopped([], e), trajs[1..], slices[1..], invert, true);
        case Success(sel) =>
          if sel == [] {
            FeedAllUnbound(trajs[1..], slices[1..], invert);
          } else {
            FeedAllStopped(Stopped([], LastTimeUnbound), trajs[1..], slices[1..], invert, true);
          }
      }
    }
  }

  lemma FirstSegment(trajs: seq<Source>, slices: seq<Slice>, invert: bool, dedup: bool)
    requires trajs != [] && slices != [] && Segments(trajs, slices, invert).Success?
    ensures var segs := Segments(trajs, slices, invert).value;
      && |segs| > 0
      && Segment(Running([], None), trajs[0].frames, slices[0], invert, dedup, true)
         == Running(segs[0], if dedup && segs[0] != [] then Some(segs[0][|segs[0]| - 1].time) else None)
      && segs[1..] == Segments(trajs[1..], slices[1..], invert).value
  {
    SegmentsHead(trajs, slices, invert);
    var sel := Select(trajs[0].frames, slices[0]).value;
    var neg := NegationOf(invert, slices[0].step);
    FeedFirst([], None, sel, neg, dedup);
    assert [] + Processed(sel, neg) == Processed(sel, neg);
  }

  /** Without deduplication the output is exactly the concatenation, in
      order, of every zipped segment, and the run fails exactly when some
      segment does. */
  lemma ConcatPlain(trajs: seq<Source>, slices: seq<Slice>, invert: bool)
    requires trajs != [] && slices != []
    ensures var r := Concat(trajs, slices, invert, false);
      && (r.Running? <==> Segments(trajs, slices, invert).Success?)
      && (r.Running? ==> r.written == Flatten(Segments(trajs, slices, invert).value))
  {
    match Select(trajs[0].frames, slices[0]) {
      case Failure(e) =>
        FeedAllStopped(Stopped([], e), trajs[1..], slices[1..], invert, false);
      case Success(sel) =>
        var neg := NegationOf(invert, slices[0].step);
        FeedPlain([], None, sel, neg, true);
        if neg.CompareError? && sel != [] {
          FeedAllStopped(Stopped([], StepComparison), trajs[1..], slices[1..], invert, false);
        } else {
          var p := Processed(sel, neg);
          assert [] + p == p;
          FeedAllPlain(p, None, trajs[1..], slices[1..], invert);
          match Segments(trajs[1..], slices[1..], invert) {
            case Failure(_) =>
            case Success(rest) =>
              assert ([p] + rest)[1..] == rest;
          }
        }
    }
  }

  /** With deduplication: every frame of the first segment is written, then
      the later segments' frames squeezed against the time of the last one. */
  lemma ConcatDedup(trajs: seq<Source>, slices: seq<Slice>, invert: bool)
    requires trajs != [] && slices != [] && Segments(trajs, slices, invert).Success?
    requires Segments(trajs, slices, invert).value[0] != []
    ensures var segs := Segments(trajs, slices, invert).value;
      var l := segs[0][|segs[0]| - 1].time;
      Concat(trajs, slices, invert, true).Running?
      && Concat(trajs, slices, invert, true).written == segs[0] + Squeeze(l, Flatten(segs[1..]))
  {
    FirstSegment(trajs, slices, invert, true);
    var segs: seq<seq<Frame>> := Segments(trajs, slices, invert).value;
    var s0: seq<Frame> := segs[0];
    FeedAllDedup(s0, s0[|s0| - 1].time, trajs[1..], slices[1..], invert);
  }

  /** With deduplication and an empty first selection, the first later
      frame raises the unbound-variable error before anything is written,
      whatever the inversion flag; a later slice with step zero that comes
      before any frame stops the run with its own error. */
  lemma ConcatDedupUnbound(trajs: seq<Source>, slices: seq<Slice>, invert: bool)
    requires trajs != [] && slices != [] && Select(trajs[0].frames, slices[0]) == Success([])
    ensures Concat(trajs, slices, invert, true) == UnboundOutcome(ReachesFrame(trajs[1..], slices[1..]))
  {
    FeedAllUnbound(trajs[1..], slices[1..], invert);
  }

  // ---------------------------------------------------------------------
  // What deduplication keeps

  /** `a` is a subsequence of `b`. */
  predicate IsSubseq(a: seq<Frame>, b: seq<Frame>)
    decreases |b|
  {
    if a == [] then true
    else if b == [] then false
    else if a[0] == b[0] then IsSubseq(a[1..], b[1..])
    else IsSubseq(a, b[1..])
  }

  lemma {:induction false} SubseqDrop(a: seq<Frame>, b: seq<Frame>)
    requires a != [] && IsSubseq(a, b)
    ensures IsSubseq(a[1..], b)
    decreases |b|, 0
  {
    if a[0] == b[0] {
      SubseqSkip(a[1..], b[1..], b[0]);
      assert [b[0]] + b[1..] == b;
    } else {
      SubseqDrop(a, b[1..]);
      SubseqSkip(a[1..], b[1..], b[0]);
      assert [b[0]] + b[1..] == b;
    }
  }

  lemma {:induction false} SubseqSkip(a: seq<Frame>, b: seq<Frame>, c: Frame)
    requires IsSubseq(a, b)
    ensures IsSubseq(a, [c] + b)
    decreases |b|, 1
  {
    var cb := [c] + b;
    assert cb[1..] == b;
    if a != [] && a[0] == c {
      SubseqDrop(a, b);
    }
  }

  lemma {:induction false} SubseqPrefix(p: seq<Frame>, a: seq<Frame>, b: seq<Frame>)
    requires IsSubseq(a, b)
    ensures IsSubseq(p + a, p + b)
    decreases |p|
  {
    if p != [] {
      SubseqPrefix(p[1..], a, b);
      var pa, pb := p + a, p + b;
      assert pa != [] && pb != [];
      assert pa[0] == p[0] == pb[0];
      assert pa[1..] == p[1..] + a && pb[1..] == p[1..] + b;
      assert IsSubseq(pa[1..], pb[1..]);
    } else {
      assert p + a == a && p + b == b;
    }
  }

  lemma {:induction false} SqueezeSubseq(l: int, s: seq<Frame>)
    ensures IsSubseq(Squeeze(l, s), s)
    decreases |s|
  {
    if s != [] {
      assert [s[0]] + s[1..] == s;
      if s[0].time == l {
        SqueezeSubseq(l, s[1..]);
        SubseqSkip(Squeeze(l, s[1..]), s[1..], s[0]);
      } else {
        SqueezeSubseq(s[0].time, s[1..]);
        SubseqPrefix([s[0]], Squeeze(s[0].time, s[1..]), s[1..]);
      }
    }
  }

  /** No kept frame has the time of the frame kept just before it (of
      `last`, for the first one). */
  predicate NoRepeat(l: int, q: seq<Frame>) {
    && (q != [] ==> q[0].time != l)
    && forall k :: 0 < k < |q| ==> q[k].time != q[k - 1].time
  }

  lemma {:induction false} SqueezeNoRepeat(l: int, s: seq<Frame>)
    ensures NoRepeat(l, Squeeze(l, s))
    decreases |s|
  {
    if s != [] {
      if s[0].time == l {
        SqueezeNoRepeat(l, s[1..]);
      } else {
        SqueezeNoRepeat(s[0].time, s[1..]);
        var q, t := Squeeze(l, s), Squeeze(s[0].time, s[1..]);
        assert q == [s[0]] + t;
        forall k | 0 < k < |q| ensures q[k].time != q[k - 1].time {
          assert q[k] == t[k - 1];
          if k > 1 {
            assert q[k - 1] == t[k - 2];
          }
        }
      }
    }
  }

  function Times(s: seq<Frame>): set<int> {
    set i | 0 <= i < |s| :: s[i].time
  }

  lemma TimesCons(f: Frame, s: seq<Frame>)
    ensures Times([f] + s) == {f.time} + Times(s)
  {
    var fs := [f] + s;
    forall t | t in Times(fs) ensures t in {f.time} + Times(s) {
      var i :| 0 <= i < |fs| && fs[i].time == t;
      if i > 0 {
        assert fs[i] == s[i - 1];
      }
    }
    forall t | t in Times(s) ensures t in Times(fs) {
      var i :| 0 <= i < |s| && s[i].time == t;
      assert fs[i + 1] == s[i];
    }
    assert fs[0] == f;
  }

  lemma {:induction false} TimesConcat(a: seq<Frame>, b: seq<Frame>)
    ensures Times(a + b) == Times(a) + Times(b)
    decreases |a|
  {
    if a == [] {
      assert a + b == b;
    } else {
      TimesConcat(a[1..], b);
      assert a + b == [a[0]] + (a[1..] + b);
      assert a == [a[0]] + a[1..];
      TimesCons(a[0], a[1..] + b);
      TimesCons(a[0], a[1..]);
    }
  }

  /** A dropped frame has the time of a kept one: no time is lost. */
  lemma {:induction false} SqueezeTimes(l: int, s: seq<Frame>)
    ensures Times(Squeeze(l, s)) + {l} == Times(s) + {l}
    decreases |s|
  {
    if s != [] {
      assert s == [s[0]] + s[1..];
      TimesCons(s[0], s[1..]);
      if s[0].time == l {
        SqueezeTimes(l, s[1..]);
      } else {
        SqueezeTimes(s[0].time, s[1..]);
        TimesCons(s[0], Squeeze(s[0].time, s[1..]));
      }
    }
  }

  /** A first segment followed by a squeezed rest, set against the plain
      concatenation. */
  lemma SqueezeAfter(s0: seq<Frame>, rest: seq<Frame>)
    requires s0 != []
    ensures var d := s0 + Squeeze(s0[|s0| - 1].time, rest);
      && IsSubseq(d, s0 + rest)
      && Times(d) == Times(s0 + rest)
      && |s0| <= |d| && d[..|s0|] == s0
      && (forall k :: |s0| <= k < |d| ==> d[k].time != d[k - 1].time)
  {
    var l := s0[|s0| - 1].time;
    var q := Squeeze(l, rest);
    var d := s0 + q;
    SqueezeSubseq(l, rest);
    SubseqPrefix(s0, q, rest);
    TimesConcat(s0, q);
    TimesConcat(s0, rest);
    SqueezeTimes(l, rest);
    assert l in Times(s0);
    SqueezeNoRepeat(l, rest);
    assert d[..|s0|] == s0;
    forall k | |s0| <= k < |d| ensures d[k].time != d[k - 1].time {
      assert d[k] == q[k - |s0|];
      if k == |s0| {
        assert d[k - 1] == s0[|s0| - 1];
      } else {
        var j := k - |s0|;
        assert d[k - 1] == q[j - 1];
        assert q[j].time != q[j - 1].time;
      }
    }
  }

  /** With deduplication, the output is a subsequence of the output without
      it, holds the same set of times, starts with the whole first segment,
      and no frame after the first segment repeats the time of the frame
      written just before it. */
  lemma DedupKeeps(trajs: seq<Source>, slices: seq<Slice>, invert: bool)
    requires trajs != [] && slices != [] && Segments(trajs, slices, invert).Success?
    requires Segments(trajs, slices, invert).value[0] != []
    ensures var d := Concat(trajs, slices, invert, true);
      var p := Concat(trajs, slices, invert, false);
      var n0 := |Segments(trajs, slices, invert).value[0]|;
      && d.Running? && p.Running?
      && IsSubseq(d.written, p.written)
      && Times(d.written) == Times(p.written)
      && n0 <= |d.written| && n0 <= |p.written|
      && d.written[..n0] == p.written[..n0]
      && (forall k :: n0 <= k < |d.written| ==> d.written[k].time != d.written[k - 1].time)
  {
    var segs: seq<seq<Frame>> := Segments(trajs, slices, invert).value;
    var s0: seq<Frame> := segs[0];
    ConcatDedup(trajs, slices, invert);
    ConcatPlain(trajs, slices, invert);
    assert Flatten(segs) == s0 + Flatten(segs[1..]);
    SqueezeAfter(s0, Flatten(segs[1..]));
    assert (s0 + Flatten(segs[1..]))[..|s0|] == s0;
  }

  /** Velocity inversion: a frame of a segment is negated exactly when the
      flag is on and the segment's step is negative. */
  lemma InversionRule(sel: seq<Frame>, invert: bool, step: Option<int>, i: nat)
    requires i < |sel| && !NegationOf(invert, step).CompareError?
    ensures Processed(sel, NegationOf(invert, step))[i]
         == if invert && step.Some? && step.value < 0 then Negated(sel[i]) else sel[i]
  {
  }

  // ---------------------------------------------------------------------
  // Mutable parts: the timestep, the writer and the disk

  datatype Entry = Directory | DataFile(frames: seq<Frame>) | OtherFile

  /** `os.path.isfile`. */
  predicate IsFile(entries: map<string, Entry>, p: string) {
    p in entries && !entries[p].Directory?
  }

  class Disk {
    var entries: map<string, Entry>

    constructor (entries: map<string, Entry>)
      ensures this.entries == entries
    {
      this.entries := entries;
    }

    method Put(path: string, e: Entry)
      modifies this
      ensures entries == old(entries)[path := e]
    {
      entries := entries[path := e];
    }
  }

  /** The reader's current timestep: velocities are a buffer changed in place. */
  class Timestep {
    var time: int
    var positions: seq<int>
    var velocities: array<int>

    constructor (f: Frame)
      ensures fresh(velocities) && AsFrame() == f
    {
      time := f.time;
      positions := f.positions;
      velocities := new int[|f.velocities|](i requires 0 <= i < |f.velocities| => f.velocities[i]);
      new;
      assert velocities[..] == f.velocities;
    }

    function AsFrame(): Frame
      reads this, velocities
    {
      Frame(time, positions, velocities[..])
    }

    /** `velocities *= -1`, element by element. */
    method InvertVelocities()
      modifies velocities
      ensures velocities[..] == NegateAll(old(velocities[..]))
    {
      var i := 0;
      while i < velocities.Length
        invariant 0 <= i <= velocities.Length
        invariant forall j :: 0 <= j < i ==> velocities[j] == -old(velocities[j])
        invariant forall j :: i <= j < velocities.Length ==> velocities[j] == old(velocities[j])
      {
        velocities[i] := -velocities[i];
        i := i + 1;
      }
    }

    /** `apply_modification` of the two extractors. */
    method ApplyModification(m: Modification)
      modifies velocities
      ensures AsFrame() == Modified(m, old(AsFrame()))
    {
      match m {
        case NoModification =>
        case InvertedVelocities =>
          InvertVelocities();
      }
    }
  }

  /** What a writer has written so far. */
  class Writer {
    var frames: seq<Frame>

    constructor ()
      ensures frames == []
    {
      frames := [];
    }

    method Write(f: Frame)
      modifies this
      ensures frames == old(frames) + [f]
    {
      frames := frames + [f];
    }
  }

  // ---------------------------------------------------------------------
  // TrajectoryConcatenator

  /** The checks made before the writer is opened; on success the
      structure file of the result. */
  function ConcatChecks(trajs: seq<Source>, slices: seq<Slice>, traOut: string, structOut: Option<string>,
                        overwrite: bool, entries: map<string, Entry>): (r: Result<string, ConvertError>)
    ensures traOut in entries && !overwrite ==> r == Failure(OutputExists(traOut))
    ensures r.Success? ==> trajs != [] && slices != [] && IsFile(entries, r.value)
    ensures r.Success? ==> r.value == if structOut.Some? then structOut.value else trajs[0].structureFile
    ensures trajs == [] || slices == [] ==> r.Failure?
    ensures (traOut !in entries || overwrite) && trajs != [] && slices != [] ==>
      var s := if structOut.Some? then structOut.value else trajs[0].structureFile;
      r == if IsFile(entries, s) then Success(s) else Failure(StructureMissing(s))
  {
    if traOut in entries && !overwrite then Failure(OutputExists(traOut))
    else if structOut.None? && trajs == [] then Failure(NoTrajectories)
    else
      var s := if structOut.Some? then structOut.value else trajs[0].structureFile;
      if !IsFile(entries, s) then Failure(StructureMissing(s))
      else if trajs == [] then Failure(NoTrajectories)
      else if slices == [] then Failure(NoSlices)
      else Success(s)
  }

  class Concatenator {
    var invertVForNegativeStep: bool

    constructor (invert: bool)
      ensures invertVForNegativeStep == invert
    {
      invertVForNegativeStep := invert;
    }

    /** `concatenate`: nothing is written when a check fails; otherwise the
        output file holds the frames the run wrote, also when it stopped
        with an exception. */
    method Concatenate(trajs: seq<Source>, slices: seq<Slice>, traOut: string, structOut: Option<string>,
                       overwrite: bool, dedup: bool, disk: Disk)
      returns (r: Result<OutTrajectory, ConvertError>)
      modifies disk
      ensures var c := ConcatChecks(trajs, slices, traOut, structOut, overwrite, old(disk.entries));
        c.Failure? ==> r == Failure(c.error) && disk.entries == old(disk.entries)
      ensures var c := ConcatChecks(trajs, slices, traOut, structOut, overwrite, old(disk.entries));
        c.Success? ==>
          var run := Concat(trajs, slices, invertVForNegativeStep, dedup);
          && disk.entries == old(disk.entries)[traOut := DataFile(run.written)]
          && r == if run.Running? then Success(OutTrajectory(traOut, c.value)) else Failure(run.error)
    {
      var c := ConcatChecks(trajs, slices, traOut, structOut, overwrite, disk.entries);
      if c.Failure? {
        return Failure(c.error);
      }
      var w := new Writer();
      var last: Option<int> := None;
      var err := WriteSegment(w, trajs[0].frames, slices[0], dedup, true, last);
      ghost var run := Segment(Running([], None), trajs[0].frames, slices[0], invertVForNegativeStep, dedup, true);
      if err.0.None? {
        last := err.1;
        var i := 1;
        while i < |trajs| && i < |slices| && err.0.None?
          invariant 1 <= i <= |trajs| && i <= |slices|
          invariant disk.entries == old(disk.entries)
          invariant err.0.None? ==> last == err.1
          invariant run == if err.0.None? then Running(w.frames, last) else Stopped(w.frames, err.0.value)
          invariant FeedAll(run, trajs[i..], slices[i..], invertVForNegativeStep, dedup)
                 == Concat(trajs, slices, invertVForNegativeStep, dedup)
          decreases |trajs| - i
        {
          assert trajs[i..][1..] == trajs[i + 1..] && slices[i..][1..] == slices[i + 1..];
          run := Segment(run, trajs[i].frames, slices[i], invertVForNegativeStep, dedup, false);
          err := WriteSegment(w, trajs[i].frames, slices[i], dedup, false, last);
          last := err.1;
          i := i + 1;
        }
        if err.0.Some? {
          FeedAllStopped(run, trajs[i..], slices[i..], invertVForNegativeStep, dedup);
        } else {
          assert trajs[i..] == [] || slices[i..] == [];
        }
      } else {
        FeedAllStopped(run, trajs[1..], slices[1..], invertVForNegativeStep, dedup);
      }
      disk.Put(traOut, DataFile(w.frames));
      if err.0.Some? {
        return Failure(err.0.value);
      }
      return Success(OutTrajectory(traOut, c.value));
    }

    /** One `for ts in u.trajectory[start:stop:step]` loop. */
    method WriteSegment(w: Writer, frames: seq<Frame>, sl: Slice, dedup: bool, first: bool, last: Option<int>)
      returns (res: (Option<ConvertError>, Option<int>))
      modifies w
      ensures Segment(Running(old(w.frames), last), frames, sl, invertVForNegativeStep, dedup, first)
           == if res.0.None? then Running(w.frames, res.1) else Stopped(w.frames, res.0.value)
    {
      var selected := Select(frames, sl);
      if selected.Failure? {
        return (Some(selected.error), last);
      }
      var sel := selected.value;
      var neg := NegationOf(invertVForNegativeStep, sl.step);
      ghost var goal := Feed(Running(w.frames, last), sel, neg, dedup, first);
      var cur := last;
      var k := 0;
      while k < |sel|
        invariant 0 <= k <= |sel|
        invariant Feed(Running(w.frames, cur), sel[k..], neg, dedup, first) == goal
      {
        var f := sel[k];
        assert sel[k..][0] == f && sel[k..][1..] == sel[k + 1..];
        if !first && dedup {
          if cur.None? {
            return (Some(LastTimeUnbound), cur);
          }
          if cur.value == f.time {
            k := k + 1;
            continue;
          }
        }
        if neg.CompareError? {
          return (Some(StepComparison), cur);
        }
        var ts := new Timestep(f);
        if neg.Negate? {
          ts.InvertVelocities();
        }
        w.Write(ts.AsFrame());
        if dedup {
          cur := Some(f.time);
        }
        k := k + 1;
      }
      return (None, cur);
    }
  }

  // ---------------------------------------------------------------------
  // Frame extractors

  /** The modification an extractor applies before writing its frame. */
  datatype Modification = NoModification | InvertedVelocities

  function Modified(m: Modification, f: Frame): Frame {
    match m
    case NoModification => f
    case InvertedVelocities => Negated(f)
  }

  /** The unmodified extractor writes the frame as it is; the inverting one
      changes the velocities only, negating each, and applying it twice
      gives the frame back. */
  lemma ModificationEffect(f: Frame)
    ensures Modified(NoModification, f) == f
    ensures var g := Modified(InvertedVelocities, f);
      && g.time == f.time && g.positions == f.positions && |g.velocities| == |f.velocities|
      && (forall i :: 0 <= i < |f.velocities| ==> g.velocities[i] == -f.velocities[i])
      && Modified(InvertedVelocities, g) == f
  {
    NegatedTwice(f);
  }

  /** `trajectory[idx]` with Python's negative indices. */
  function PyIndex(idx: int, n: nat): (r: Option<nat>)
    ensures r.Some? <==> -(n as int) <= idx < n
    ensures r.Some? ==> r.value < n && (if idx >= 0 then r.value == idx else r.value == idx + n)
  {
    if 0 <= idx < n then Some(idx) else if -(n as int) <= idx < 0 then Some(idx + n) else None
  }

  /** The checks `extract` makes before opening the writer. */
  function ExtractChecks(outfile: string, traj: Source, structOut: Option<string>, overwrite: bool,
                         entries: map<string, Entry>): (r: Result<string, ConvertError>)
    ensures outfile in entries && !overwrite ==> r == Failure(OutputExists(outfile))
    ensures r.Success? ==> IsFile(entries, r.value)
    ensures r.Success? ==> r.value == if structOut.Some? then structOut.value else traj.structureFile
    ensures outfile !in entries || overwrite ==>
      var s := if structOut.Some? then structOut.value else traj.structureFile;
      (r.Success? <==> IsFile(entries, s)) && (r.Failure? ==> r.error == StructureMissing(s))
  {
    if outfile in entries && !overwrite then Failure(OutputExists(outfile))
    else
      var s := if structOut.Some? then structOut.value else traj.structureFile;
      if !IsFile(entries, s) then Failure(StructureMissing(s)) else Success(s)
  }

  /** `extract`: the output holds exactly the modified frame at `idx`, or
      nothing when the index is out of range, since the writer was already
      open. */
  method Extract(m: Modification, outfile: string, traj: Source, idx: int, structOut: Option<string>,
                 overwrite: bool, disk: Disk)
    returns (r: Result<OutTrajectory, ConvertError>)
    modifies disk
    ensures var c := ExtractChecks(outfile, traj, structOut, overwrite, old(disk.entries));
      c.Failure? ==> r == Failure(c.error) && disk.entries == old(disk.entries)
    ensures var c := ExtractChecks(outfile, traj, structOut, overwrite, old(disk.entries));
      c.Success? && PyIndex(idx, |traj.frames|).None? ==>
        r == Failure(FrameIndex(idx)) && disk.entries == old(disk.entries)[outfile := DataFile([])]
    ensures var c := ExtractChecks(outfile, traj, structOut, overwrite, old(disk.entries));
      c.Success? && PyIndex(idx, |traj.frames|).Some? ==>
        && r == Success(OutTrajectory(outfile, c.value))
        && disk.entries
           == old(disk.entries)[outfile := DataFile([Modified(m, traj.frames[PyIndex(idx, |traj.frames|).value])])]
  {
    var c := ExtractChecks(outfile, traj, structOut, overwrite, disk.entries);
    if c.Failure? {
      return Failure(c.error);
    }
    var w := new Writer();
    var i := PyIndex(idx, |traj.frames|);
    if i.None? {
      disk.Put(outfile, DataFile(w.frames));
      return Failure(FrameIndex(idx));
    }
    var ts := new Timestep(traj.frames[i.value]);
    ts.ApplyModification(m);
    var g := ts.AsFrame();
    assert g == Modified(m, traj.frames[i.value]);
    w.Write(g);
    assert w.frames == [g];
    disk.Put(outfile, DataFile(w.frames));
    return Success(OutTrajectory(outfile, c.value));
  }
}
