/**
 * The decision logic of `src/smva/extract.py`: the range validator, the parse of
 * one frame, the search of neighbouring frames when a frame fails, the median
 * estimate of the experiment's start and end times, the pause threshold, the
 * target-frame sampler and the driver loop with its counters and final sort.
 *
 * The video and the OCR engine are one oracle: `read(f)` is the text OCR
 * recognises in the region of interest of frame `f`, or `None` when seeking to
 * or reading that frame fails.
 */
module Extract {
  import opened Optional
  import opened Ocr
  import opened Sorting

  /** Seek to a frame, read it, crop the region of interest and run OCR on it. */
  type FrameText = int -> Option<string>

  /** The `validation` section of the configuration: limits by name. */
  type Config = map<string, real>

  function Max(a: int, b: int): int {
    if a >= b then a else b
  }

  // ---------------------------------------------------------------------------
  // validate_extracted_data
  // ---------------------------------------------------------------------------

  /** `validation_config.get(name, default)` */
  function Setting(cfg: Config, name: string, default: real): real {
    if name in cfg then cfg[name] else default
  }

  function CurrentMin(cfg: Config): real { Setting(cfg, "current_min", -10.0) }
  function CurrentMax(cfg: Config): real { Setting(cfg, "current_max", 600.0) }
  function VoltageMin(cfg: Config): real { Setting(cfg, "voltage_min", -10.0) }
  function VoltageMax(cfg: Config): real { Setting(cfg, "voltage_max", 15.0) }

  predicate InRange(x: real, lo: real, hi: real) {
    lo <= x <= hi
  }

  /** The three range checks, in the order the validator runs them. */
  datatype Check = Current | Mps | Mag

  /** `(True, None)`, or `(False, message)` where the message names the check, the value and the bounds. */
  datatype Verdict = Accepted | Rejected(check: Check, value: real, lo: real, hi: real)

  /**
   * `validate_extracted_data`. The previous record and the pause threshold it is
   * also given were read only by the time-consistency rule, which is commented
   * out; the verdict depends on the record and the limits alone.
   */
  function Validate(d: MriData, cfg: Config): (v: Verdict)
    ensures v.Accepted? <==>
      && InRange(d.current, CurrentMin(cfg), CurrentMax(cfg))
      && InRange(d.mps, VoltageMin(cfg), VoltageMax(cfg))
      && InRange(d.mag, VoltageMin(cfg), VoltageMax(cfg))
    ensures v.Rejected? && v.check == Current ==>
      && v == Rejected(Current, d.current, CurrentMin(cfg), CurrentMax(cfg))
      && !InRange(d.current, v.lo, v.hi)
    ensures v.Rejected? && v.check == Mps ==>
      && InRange(d.current, CurrentMin(cfg), CurrentMax(cfg))
      && v == Rejected(Mps, d.mps, VoltageMin(cfg), VoltageMax(cfg))
      && !InRange(d.mps, v.lo, v.hi)
    ensures v.Rejected? && v.check == Mag ==>
      && InRange(d.current, CurrentMin(cfg), CurrentMax(cfg))
      && InRange(d.mps, VoltageMin(cfg), VoltageMax(cfg))
      && v == Rejected(Mag, d.mag, VoltageMin(cfg), VoltageMax(cfg))
      && !InRange(d.mag, v.lo, v.hi)
  {
    if !InRange(d.current, CurrentMin(cfg), CurrentMax(cfg)) then
      Rejected(Current, d.current, CurrentMin(cfg), CurrentMax(cfg))
    else if !InRange(d.mps, VoltageMin(cfg), VoltageMax(cfg)) then
      Rejected(Mps, d.mps, VoltageMin(cfg), VoltageMax(cfg))
    else if !InRange(d.mag, VoltageMin(cfg), VoltageMax(cfg)) then
      Rejected(Mag, d.mag, VoltageMin(cfg), VoltageMax(cfg))
    else
      Accepted
  }

  /** With no limits configured the defaults apply: current in [-10, 600] A, both voltages in [-10, 15] V. */
  lemma ValidateDefaults(d: MriData)
    ensures Validate(d, map[]).Accepted? <==>
      -10.0 <= d.current <= 600.0 && -10.0 <= d.mps <= 15.0 && -10.0 <= d.mag <= 15.0
  {
  }

  // ---------------------------------------------------------------------------
  // calculate_time_from_frame and try_parse_frame
  // ---------------------------------------------------------------------------

  /**
   * `calculate_time_from_frame`: the frame's time in seconds and its milliseconds
   * part, `int((t % 1) * 1000)`.
   */
  function CalculateTimeFromFrame(frame: int, fps: real): (r: (real, int))
    requires fps != 0.0
    ensures r.0 * fps == frame as real
    ensures 0 <= r.1 <= 999
    ensures r.1 as real <= (r.0 - r.0.Floor as real) * 1000.0 < r.1 as real + 1.0
  {
    var precise := frame as real / fps;
    (precise, ((precise - precise.Floor as real) * 1000.0).Floor)
  }

  /** The dictionary `try_parse_frame` returns for an accepted frame. */
  datatype FrameReading = FrameReading(
    frame: int,
    timeSec: int,
    timeSecPrecise: real,
    timeMs: int,
    current: real,
    mps: real,
    mag: real,
    time: string)

  function FrameOf(r: FrameReading): int {
    r.frame
  }

  /** The dictionary built for frame `frame` from the parsed record `d`. */
  function Reading(frame: int, fps: real, d: MriData): FrameReading
    requires fps != 0.0
  {
    var (precise, ms) := CalculateTimeFromFrame(frame, fps);
    FrameReading(frame, TimeToSeconds(d.time), precise, ms, d.current, d.mps, d.mag, d.time)
  }

  /** `try_parse_frame` as a function of the oracle: read, parse, validate, then build the reading. */
  function FrameResult(read: FrameText, frame: int, fps: real, cfg: Config): (r: Option<FrameReading>)
    requires fps != 0.0
    ensures r.Some? ==> r.value.frame == frame
  {
    match read(frame)
    case None => None
    case Some(text) =>
      match Parse(text)
      case None => None
      case Some(d) => if Validate(d, cfg).Rejected? then None else Some(Reading(frame, fps, d))
  }

  /** A frame is accepted exactly when it can be read, its text parses and the record passes validation. */
  lemma AcceptedFrame(read: FrameText, frame: int, fps: real, cfg: Config)
    requires fps != 0.0
    ensures FrameResult(read, frame, fps, cfg).Some? <==>
      && read(frame).Some?
      && Parse(read(frame).value).Some?
      && Validate(Parse(read(frame).value).value, cfg).Accepted?
  {
  }

  /**
   * The reading built from a parsed record keeps its values, converts its elapsed
   * time without error (at most 99:99:99), and carries the frame's own time.
   */
  lemma ReadingOfRecord(frame: int, fps: real, d: MriData)
    requires fps != 0.0
    requires IsClock(d.time)
    ensures var r := Reading(frame, fps, d);
      && r.frame == frame && r.current == d.current && r.mps == d.mps && r.mag == d.mag && r.time == d.time
      && r.timeSec == ClockSeconds(d.time) && 0 <= r.timeSec <= MaxClockSeconds
      && r.timeSecPrecise * fps == frame as real && 0 <= r.timeMs <= 999
  {
    TimeOfClock(d.time);
  }

  /**
   * An accepted reading has a non-negative current and values within the limits,
   * and its elapsed time in seconds is that of a "dd:dd:dd" time.
   */
  lemma AcceptedReading(read: FrameText, frame: int, fps: real, cfg: Config)
    requires fps != 0.0
    ensures FrameResult(read, frame, fps, cfg).Some? ==>
      var r := FrameResult(read, frame, fps, cfg).value;
      && r.current >= 0.0
      && InRange(r.current, CurrentMin(cfg), CurrentMax(cfg))
      && InRange(r.mps, VoltageMin(cfg), VoltageMax(cfg))
      && InRange(r.mag, VoltageMin(cfg), VoltageMax(cfg))
      && IsClock(r.time) && r.timeSec == ClockSeconds(r.time) && 0 <= r.timeSec <= MaxClockSeconds
  {
    if FrameResult(read, frame, fps, cfg).Some? {
      var d := Parse(read(frame).value).value;
      assert FrameResult(read, frame, fps, cfg) == Some(Reading(frame, fps, d));
      ReadingOfRecord(frame, fps, d);
    }
  }

  /** An accepted reading's precise time and milliseconds are those of its frame number at the frame rate. */
  lemma AcceptedTime(read: FrameText, frame: int, fps: real, cfg: Config)
    requires fps != 0.0
    ensures FrameResult(read, frame, fps, cfg).Some? ==>
      var r := FrameResult(read, frame, fps, cfg).value;
      (r.timeSecPrecise, r.timeMs) == CalculateTimeFromFrame(frame, fps)
  {
    if FrameResult(read, frame, fps, cfg).Some? {
      var d := Parse(read(frame).value).value;
      assert FrameResult(read, frame, fps, cfg) == Some(Reading(frame, fps, d));
    }
  }

  /** `try_parse_frame`: seek, read, OCR (the oracle), then `parse_mri_data` and validation. */
  method TryParseFrame(read: FrameText, frame: int, fps: real, cfg: Config) returns (r: Option<FrameReading>)
    requires fps != 0.0
    ensures r == FrameResult(read, frame, fps, cfg)
  {
    var text := read(frame);
    if text.None? {
      return None;
    }
    var parsed := ParseMriData(text.value);
    if parsed.None? {
      return None;
    }
    var d := parsed.value;
    if Validate(d, cfg).Rejected? {
      return None;
    }
    var (precise, ms) := CalculateTimeFromFrame(frame, fps);
    var timeSec := TimeToSeconds(d.time);
    return Some(FrameReading(frame, timeSec, precise, ms, d.current, d.mps, d.mag, d.time));
  }

  // ---------------------------------------------------------------------------
  // process_frame_with_fallback
  // ---------------------------------------------------------------------------

  /** What trying one frame gives: the accepted reading, or `None`. */
  type Attempt = int -> Option<FrameReading>

  /**
   * `try_parse_frame` with the oracle, the frame rate and the limits fixed. The
   * guard on `fps` only makes the function total; every caller has `fps != 0`.
   */
  function Attempts(read: FrameText, fps: real, cfg: Config): Attempt {
    f => if fps != 0.0 then FrameResult(read, f, fps, cfg) else None
  }

  /** The keys `original_frame` and `fallback_offset` added to a reading taken from a neighbour. */
  datatype FallbackInfo = FallbackInfo(originalFrame: int, offset: int)

  /** A reading and, when it came from a neighbouring frame, where that frame lies. */
  datatype Hit = Hit(reading: FrameReading, fallback: Option<FallbackInfo>)

  function Abs(x: int): nat {
    if x < 0 then -x else x
  }

  /** The offsets `+k` and, unless it would go below frame 0, `-k`. */
  function Pair(target: int, k: nat): seq<int> {
    [k] + (if target - k >= 0 then [-(k as int)] else [])
  }

  /**
   * The offsets from the target that are tried, in order: 0, +1, -1, +2, -2, ...
   * up to `n`, leaving out every `-k` that would go below frame 0.
   */
  function Offsets(target: int, n: nat): (offs: seq<int>)
    ensures |offs| >= 1 && offs[0] == 0
  {
    if n == 0 then [0] else Offsets(target, n - 1) + Pair(target, n)
  }

  /**
   * The first offset in `offs` whose frame is accepted, with the reading it gives.
   * A reading from a neighbour is tagged with the target and a non-zero offset.
   */
  function FirstHit(attempt: Attempt, target: int, offs: seq<int>): (r: Option<Hit>)
    ensures r.Some? && r.value.fallback.Some? ==>
      r.value.fallback.value.offset != 0 && r.value.fallback.value.originalFrame == target
  {
    if offs == [] then None
    else
      match attempt(target + offs[0])
      case Some(reading) =>
        Some(Hit(reading, if offs[0] == 0 then None else Some(FallbackInfo(target, offs[0]))))
      case None =>
        FirstHit(attempt, target, offs[1..])
  }

  /**
   * A reading without a tag is the target's own; a tagged one carries an offset
   * from `offs` other than 0, and is the reading of the frame at that offset.
   */
  lemma {:induction false} FirstHitFound(attempt: Attempt, target: int, offs: seq<int>)
    ensures var r := FirstHit(attempt, target, offs);
      r.Some? && r.value.fallback.None? ==> 0 in offs && attempt(target) == Some(r.value.reading)
    ensures var r := FirstHit(attempt, target, offs);
      r.Some? && r.value.fallback.Some? ==>
        var info := r.value.fallback.value;
        && info.offset in offs && info.offset != 0
        && info.originalFrame == target
        && attempt(target + info.offset) == Some(r.value.reading)
  {
    if offs != [] && attempt(target + offs[0]).None? {
      FirstHitFound(attempt, target, offs[1..]);
    }
  }

  lemma {:induction false} FirstHitAppend(attempt: Attempt, target: int, a: seq<int>, b: seq<int>)
    ensures FirstHit(attempt, target, a + b) ==
      if FirstHit(attempt, target, a).Some? then FirstHit(attempt, target, a) else FirstHit(attempt, target, b)
  {
    if a == [] {
      assert a + b == b;
    } else {
      assert (a + b)[0] == a[0] && (a + b)[1..] == a[1..] + b;
      FirstHitAppend(attempt, target, a[1..], b);
    }
  }

  /** A shorter list of offsets is a prefix of a longer one. */
  lemma {:induction false} OffsetsPrefix(target: int, m: nat, n: nat)
    requires m <= n
    ensures |Offsets(target, m)| <= |Offsets(target, n)|
    ensures Offsets(target, n)[..|Offsets(target, m)|] == Offsets(target, m)
    decreases n
  {
    if m < n {
      OffsetsPrefix(target, m, n - 1);
      assert Offsets(target, n)[..|Offsets(target, n - 1)|] == Offsets(target, n - 1);
    }
  }

  lemma FirstHitExtend(attempt: Attempt, target: int, m: nat, n: nat)
    requires m <= n
    requires FirstHit(attempt, target, Offsets(target, m)).Some?
    ensures FirstHit(attempt, target, Offsets(target, n)) == FirstHit(attempt, target, Offsets(target, m))
  {
    OffsetsPrefix(target, m, n);
    var offs := Offsets(target, n);
    var k := |Offsets(target, m)|;
    assert offs == offs[..k] + offs[k..];
    FirstHitAppend(attempt, target, offs[..k], offs[k..]);
  }

  lemma FirstHitStep(attempt: Attempt, target: int, k: nat)
    requires k >= 1
    requires FirstHit(attempt, target, Offsets(target, k - 1)) == None
    ensures FirstHit(attempt, target, Offsets(target, k)) == FirstHit(attempt, target, Pair(target, k))
  {
    FirstHitAppend(attempt, target, Offsets(target, k - 1), Pair(target, k));
  }

  lemma DirectHit(attempt: Attempt, target: int, n: nat)
    requires attempt(target).Some?
    ensures FirstHit(attempt, target, Offsets(target, n)) == Some(Hit(attempt(target).value, None))
  {
    assert target + Offsets(target, n)[0] == target;
  }

  lemma NoDirectHit(attempt: Attempt, target: int)
    requires attempt(target).None?
    ensures FirstHit(attempt, target, Offsets(target, 0)) == None
  {
    assert target + Offsets(target, 0)[0] == target;
    assert Offsets(target, 0)[1..] == [];
  }

  lemma PairAfter(attempt: Attempt, target: int, k: nat)
    requires k >= 1 && attempt(target + k).Some?
    ensures FirstHit(attempt, target, Pair(target, k)) ==
      Some(Hit(attempt(target + k).value, Some(FallbackInfo(target, k))))
  {
    assert Pair(target, k)[0] == k;
  }

  lemma PairBefore(attempt: Attempt, target: int, k: nat)
    requires k >= 1 && target - k >= 0
    requires attempt(target + k).None? && attempt(target - k).Some?
    ensures FirstHit(attempt, target, Pair(target, k)) ==
      Some(Hit(attempt(target - k).value, Some(FallbackInfo(target, -(k as int)))))
  {
    var p := Pair(target, k);
    assert p == [k, -(k as int)];
    assert p[1..] == [-(k as int)];
    assert target + p[1] == target - k;
  }

  lemma PairMiss(attempt: Attempt, target: int, k: nat)
    requires k >= 1 && attempt(target + k).None?
    requires target - k >= 0 ==> attempt(target - k).None?
    ensures FirstHit(attempt, target, Pair(target, k)) == None
  {
    var p := Pair(target, k);
    if target - k >= 0 {
      assert p == [k, -(k as int)];
      assert p[1..] == [-(k as int)];
      assert target + p[1] == target - k;
      assert p[1..][1..] == [];
      assert FirstHit(attempt, target, p[1..]) == None;
    } else {
      assert p == [k];
      assert p[1..] == [];
    }
  }

  /**
   * `process_frame_with_fallback`, with `try_parse_frame` (its capture, region,
   * frame rate and limits fixed) passed in as `attempt`: the target frame first,
   * then for each offset up to the range the frame after and, when it is not below
   * frame 0, the frame before; the first accepted frame is returned, tagged when it
   * is a neighbour.
   */
  method ProcessFrameWithFallback(attempt: Attempt, target: int, maxRange: int) returns (r: Option<Hit>)
    ensures r == FirstHit(attempt, target, Offsets(target, Max(maxRange, 0)))
  {
    ghost var range := Max(maxRange, 0);
    var result := attempt(target);
    if result.Some? {
      DirectHit(attempt, target, range);
      return Some(Hit(result.value, None));
    }
    NoDirectHit(attempt, target);
    var offset := 1;
    while offset <= maxRange
      invariant 1 <= offset <= range + 1
      invariant FirstHit(attempt, target, Offsets(target, offset - 1)) == None
    {
      FirstHitStep(attempt, target, offset);
      var frameAfter := target + offset;
      result := attempt(frameAfter);
      if result.Some? {
        PairAfter(attempt, target, offset);
        FirstHitExtend(attempt, target, offset, range);
        return Some(Hit(result.value, Some(FallbackInfo(target, offset))));
      }
      var frameBefore := target - offset;
      if frameBefore >= 0 {
        result := attempt(frameBefore);
        if result.Some? {
          PairBefore(attempt, target, offset);
          FirstHitExtend(attempt, target, offset, range);
          return Some(Hit(result.value, Some(FallbackInfo(target, -offset))));
        }
      }
      PairMiss(attempt, target, offset);
      offset := offset + 1;
    }
    return None;
  }

  /** Which offsets are tried: 0, every `+k` up to `n`, and every `-k` up to `n` that stays at or above frame 0. */
  lemma {:induction false} OffsetsMembers(target: int, n: nat)
    ensures forall o :: o in Offsets(target, n) <==>
      o == 0 || 1 <= o <= n || (-(n as int) <= o <= -1 && target + o >= 0)
  {
    if n > 0 {
      OffsetsMembers(target, n - 1);
    }
  }

  /**
   * The order of the attempts: a nearer frame before a farther one, and at equal
   * distance the frame after the target before the frame before it.
   */
  lemma {:induction false} OffsetsOrder(target: int, n: nat)
    ensures forall i, j :: 0 <= i < j < |Offsets(target, n)| ==>
      Abs(Offsets(target, n)[i]) < Abs(Offsets(target, n)[j])
      || (Offsets(target, n)[i] == -Offsets(target, n)[j] && Offsets(target, n)[i] > 0)
  {
    if n > 0 {
      OffsetsOrder(target, n - 1);
      OffsetsMembers(target, n - 1);
      var prev := Offsets(target, n - 1);
      var offs := Offsets(target, n);
      forall i, j | 0 <= i < j < |offs|
        ensures Abs(offs[i]) < Abs(offs[j]) || (offs[i] == -offs[j] && offs[i] > 0)
      {
        if j >= |prev| {
          assert offs[j] == n || offs[j] == -(n as int);
          if i < |prev| {
            assert offs[i] in prev;
          } else {
            assert offs[i] == n && offs[j] == -(n as int);
          }
        } else {
          assert offs[i] == prev[i] && offs[j] == prev[j];
        }
      }
    }
  }

  /** Every frame at an offset in `offs` from the target is rejected. */
  predicate AllRejected(attempt: Attempt, target: int, offs: seq<int>) {
    forall j :: 0 <= j < |offs| ==> attempt(target + offs[j]).None?
  }

  /** The search gives `None` exactly when no tried frame is accepted. */
  lemma {:induction false} FirstHitNone(attempt: Attempt, target: int, offs: seq<int>)
    ensures FirstHit(attempt, target, offs).None? <==> AllRejected(attempt, target, offs)
  {
    if offs != [] {
      FirstHitNone(attempt, target, offs[1..]);
      assert forall i :: 1 <= i < |offs| ==> offs[i] == offs[1..][i - 1];
    }
  }

  /** The position in `offs` of the first accepted frame, or `|offs|` when there is none. */
  function HitIndex(attempt: Attempt, target: int, offs: seq<int>): (i: nat)
    ensures i <= |offs|
  {
    if offs == [] then 0
    else if attempt(target + offs[0]).Some? then 0
    else 1 + HitIndex(attempt, target, offs[1..])
  }

  /** Every frame before the first accepted one is rejected. */
  lemma {:induction false} HitIndexRejected(attempt: Attempt, target: int, offs: seq<int>)
    ensures AllRejected(attempt, target, offs[..HitIndex(attempt, target, offs)])
  {
    if offs != [] && attempt(target + offs[0]).None? {
      var tail := offs[1..];
      HitIndexRejected(attempt, target, tail);
      var k := HitIndex(attempt, target, tail);
      assert offs[..k + 1] == [offs[0]] + tail[..k];
    }
  }

  /** The search finds a reading exactly at the first accepted position, and it is that frame's. */
  lemma {:induction false} HitIndexReading(attempt: Attempt, target: int, offs: seq<int>)
    ensures FirstHit(attempt, target, offs).Some? <==> HitIndex(attempt, target, offs) < |offs|
    ensures FirstHit(attempt, target, offs).Some? ==>
      attempt(target + offs[HitIndex(attempt, target, offs)]) == Some(FirstHit(attempt, target, offs).value.reading)
  {
    if offs != [] && attempt(target + offs[0]).None? {
      var tail := offs[1..];
      HitIndexReading(attempt, target, tail);
      if HitIndex(attempt, target, tail) < |tail| {
        assert offs[HitIndex(attempt, target, offs)] == tail[HitIndex(attempt, target, tail)];
      }
    }
  }

  /**
   * A found reading is that of the first accepted frame in the order of the
   * offsets: every earlier offset's frame was rejected.
   */
  lemma FirstHitIsFirst(attempt: Attempt, target: int, offs: seq<int>)
    ensures FirstHit(attempt, target, offs).Some? <==> HitIndex(attempt, target, offs) < |offs|
    ensures FirstHit(attempt, target, offs).Some? ==>
      var i := HitIndex(attempt, target, offs);
      && attempt(target + offs[i]) == Some(FirstHit(attempt, target, offs).value.reading)
      && AllRejected(attempt, target, offs[..i])
  {
    HitIndexReading(attempt, target, offs);
    HitIndexRejected(attempt, target, offs);
  }

  /**
   * A direct hit carries no fallback tag and is the target itself; a neighbour's
   * reading carries the target as its original frame and a non-zero offset within
   * the range, its frame is target + offset, and a negative offset never reaches
   * below frame 0.
   */
  lemma FallbackShape(attempt: Attempt, target: int, maxRange: int)
    requires Tagged(attempt)
    ensures var r := FirstHit(attempt, target, Offsets(target, Max(maxRange, 0)));
      r.Some? && r.value.fallback.None? ==> r.value.reading.frame == target
    ensures var r := FirstHit(attempt, target, Offsets(target, Max(maxRange, 0)));
      r.Some? && r.value.fallback.Some? ==>
        var info := r.value.fallback.value;
        && info.originalFrame == target
        && info.offset != 0 && Abs(info.offset) <= Max(maxRange, 0)
        && r.value.reading.frame == target + info.offset
        && (info.offset < 0 ==> r.value.reading.frame >= 0)
  {
    OffsetsMembers(target, Max(maxRange, 0));
    FirstHitFound(attempt, target, Offsets(target, Max(maxRange, 0)));
  }

  /** When the target and its nearer neighbours fail but target + 2 is accepted, the reading comes from target + 2. */
  lemma FallbackPlusTwo(attempt: Attempt, target: int, maxRange: int)
    requires maxRange >= 2
    requires attempt(target).None? && attempt(target + 1).None? && attempt(target - 1).None?
    requires attempt(target + 2).Some?
    ensures FirstHit(attempt, target, Offsets(target, maxRange)) ==
      Some(Hit(attempt(target + 2).value, Some(FallbackInfo(target, 2))))
  {
    NoDirectHit(attempt, target);
    FirstHitStep(attempt, target, 1);
    PairMiss(attempt, target, 1);
    FirstHitStep(attempt, target, 2);
    PairAfter(attempt, target, 2);
    FirstHitExtend(attempt, target, 2, maxRange);
  }

  /** When the target and target + 1 fail but target - 1 is accepted, the reading comes from target - 1. */
  lemma FallbackMinusOne(attempt: Attempt, target: int, maxRange: int)
    requires maxRange >= 1 && target >= 1
    requires attempt(target).None? && attempt(target + 1).None?
    requires attempt(target - 1).Some?
    ensures FirstHit(attempt, target, Offsets(target, maxRange)) ==
      Some(Hit(attempt(target - 1).value, Some(FallbackInfo(target, -1))))
  {
    NoDirectHit(attempt, target);
    FirstHitStep(attempt, target, 1);
    PairBefore(attempt, target, 1);
    FirstHitExtend(attempt, target, 1, maxRange);
  }

  // ---------------------------------------------------------------------------
  // extract_time_from_frames
  // ---------------------------------------------------------------------------

  /** The elapsed time a sampled frame contributes: its parsed time in seconds, when it reads and parses. */
  function SampleTime(read: FrameText, f: int): Option<int> {
    match read(f)
    case None => None
    case Some(text) =>
      match Parse(text)
      case None => None
      case Some(d) => Some(TimeToSeconds(d.time))
  }

  /** `SampleTime` with the oracle fixed. */
  function Samples(read: FrameText): int -> Option<int> {
    f => SampleTime(read, f)
  }

  /** The `times` list after the loop over `frames`, where `sample(f)` is what frame `f` contributes. */
  function CollectTimes(sample: int -> Option<int>, frames: seq<int>): (ts: seq<int>)
    ensures |ts| <= |frames|
  {
    if frames == [] then []
    else
      var init := CollectTimes(sample, frames[..|frames| - 1]);
      match sample(frames[|frames| - 1])
      case None => init
      case Some(t) => init + [t]
  }

  /** What `extract_time_from_frames` returns: the upper median of the collected times, or `None`. */
  function EstimateTime(read: FrameText, frames: seq<int>): (r: Option<int>)
    ensures r.None? <==> forall i :: 0 <= i < |frames| ==> SampleTime(read, frames[i]).None?
    ensures r.Some? ==> r.value in CollectTimes(Samples(read), frames)
  {
    var ts := CollectTimes(Samples(read), frames);
    CollectTimesEmpty(Samples(read), frames);
    if |ts| == 0 then None else Some(Median(ts))
  }

  /**
   * `extract_time_from_frames`: for each frame that reads and parses, append its
   * time in seconds; then sort the list and take its middle element.
   */
  method ExtractTimeFromFrames(read: FrameText, frames: seq<int>) returns (r: Option<int>)
    ensures r == EstimateTime(read, frames)
  {
    var times: seq<int> := [];
    for k := 0 to |frames|
      invariant times == CollectTimes(Samples(read), frames[..k])
    {
      assert frames[..k + 1][..k] == frames[..k];
      var text := read(frames[k]);
      if text.None? {
        continue;
      }
      var parsed := ParseMriData(text.value);
      if parsed.Some? {
        var timeSec := TimeToSeconds(parsed.value.time);
        times := times + [timeSec];
      }
    }
    assert frames[..|frames|] == frames;
    if |times| == 0 {
      return None;
    }
    times := SortBy(times, Id);
    return Some(times[|times| / 2]);
  }

  /** No time is collected exactly when no sampled frame contributes one. */
  lemma {:induction false} CollectTimesEmpty(sample: int -> Option<int>, frames: seq<int>)
    ensures |CollectTimes(sample, frames)| == 0 <==>
      forall i :: 0 <= i < |frames| ==> sample(frames[i]).None?
  {
    if frames != [] {
      var init := frames[..|frames| - 1];
      CollectTimesEmpty(sample, init);
      assert forall i :: 0 <= i < |init| ==> init[i] == frames[i];
    }
  }

  /** Every collected time is the contribution of one of the sampled frames. */
  lemma {:induction false} CollectTimesFrom(sample: int -> Option<int>, frames: seq<int>, k: nat)
    requires k < |CollectTimes(sample, frames)|
    ensures exists i :: 0 <= i < |frames| && sample(frames[i]) == Some(CollectTimes(sample, frames)[k])
  {
    var init := frames[..|frames| - 1];
    if k < |CollectTimes(sample, init)| {
      CollectTimesFrom(sample, init, k);
      var i :| 0 <= i < |init| && sample(init[i]) == Some(CollectTimes(sample, init)[k]);
      assert init[i] == frames[i];
    }
  }

  /** A sampled frame's time lies between 0 and 99:99:99. */
  lemma SampleTimeInRange(read: FrameText, f: int)
    ensures SampleTime(read, f).Some? ==> 0 <= SampleTime(read, f).value <= MaxClockSeconds
  {
    if SampleTime(read, f).Some? {
      ParsedTimeInRange(read(f).value);
    }
  }

  /**
   * `extract_time_from_frames` gives `None` exactly when no sampled frame reads and
   * parses; otherwise a collected time, in range, with at most half of the
   * collected times below it and at most half above it.
   */
  lemma EstimateTimeMedian(read: FrameText, frames: seq<int>)
    ensures EstimateTime(read, frames).None? <==>
      forall i :: 0 <= i < |frames| ==> SampleTime(read, frames[i]).None?
    ensures EstimateTime(read, frames).Some? ==>
      var ts, m := CollectTimes(Samples(read), frames), EstimateTime(read, frames).value;
      && m in ts && 0 <= m <= MaxClockSeconds
      && CountBelow(ts, m) <= |ts| / 2 && CountAbove(ts, m) <= |ts| - 1 - |ts| / 2
  {
    var sample := Samples(read);
    CollectTimesEmpty(sample, frames);
    var ts := CollectTimes(sample, frames);
    if |ts| > 0 {
      var m := Median(ts);
      MedianBelow(ts);
      MedianAbove(ts);
      var k :| 0 <= k < |ts| && ts[k] == m;
      CollectTimesFrom(sample, frames, k);
      var i :| 0 <= i < |frames| && sample(frames[i]) == Some(m);
      SampleTimeInRange(read, frames[i]);
    }
  }

  // ---------------------------------------------------------------------------
  // process_full_video: samples, pause threshold, target frames
  // ---------------------------------------------------------------------------

  /** Python's `int(x)` on a real: truncation toward zero. */
  function Trunc(x: real): int {
    if x >= 0.0 then x.Floor else -((-x).Floor)
  }

  /**
   * The frames sampled for the start time, `int(frame_count * 0.05 + i * frame_interval)`
   * for i in 0..4: five percent into the video, then stepping by the interval.
   */
  function StartSamples(frameCount: int, interval: int): (r: seq<int>)
    ensures |r| == 5
    ensures frameCount >= 0 && interval >= 0 ==>
      forall i :: 0 <= i < 5 ==> r[i] == frameCount / 20 + i * interval
  {
    var r := seq(5, i => Trunc(frameCount as real * 0.05 + (i * interval) as real));
    StartValues(frameCount, interval, r);
    r
  }

  lemma StartValues(frameCount: int, interval: int, r: seq<int>)
    requires |r| == 5
    requires forall i :: 0 <= i < 5 ==> r[i] == Trunc(frameCount as real * 0.05 + (i * interval) as real)
    ensures frameCount >= 0 && interval >= 0 ==>
      forall i :: 0 <= i < 5 ==> r[i] == frameCount / 20 + i * interval
  {
    if frameCount >= 0 && interval >= 0 {
      forall i | 0 <= i < 5
        ensures r[i] == frameCount / 20 + i * interval
      {
        var q, rem := frameCount / 20, frameCount % 20;
        assert frameCount as real * 0.05 == q as real + rem as real / 20.0;
        FloorShift(q, rem, i * interval);
      }
    }
  }

  /**
   * The frames sampled for the end time, `max(frame_count - 1 - i * frame_interval, 0)`
   * for i in 0..4: clamped at frame 0, starting at the last frame, never past it,
   * and stepping backwards.
   */
  function EndSamples(frameCount: int, interval: int): (r: seq<int>)
    ensures |r| == 5
    ensures forall i :: 0 <= i < 5 ==> r[i] >= 0
    ensures frameCount >= 1 ==> r[0] == frameCount - 1
    ensures frameCount >= 1 && interval >= 0 ==> forall i :: 0 <= i < 5 ==> r[i] <= frameCount - 1
    ensures interval >= 0 ==> forall i, j :: 0 <= i < j < 5 ==> r[i] >= r[j]
  {
    var r := seq(5, i => Max(frameCount - 1 - i * interval, 0));
    EndValues(frameCount, interval, r);
    r
  }

  lemma EndValues(frameCount: int, interval: int, r: seq<int>)
    requires |r| == 5
    requires forall i :: 0 <= i < 5 ==> r[i] == Max(frameCount - 1 - i * interval, 0)
    ensures frameCount >= 1 && interval >= 0 ==> forall i :: 0 <= i < 5 ==> r[i] <= frameCount - 1
    ensures interval >= 0 ==> forall i, j :: 0 <= i < j < 5 ==> r[i] >= r[j]
  {
    if interval >= 0 {
      forall i | 0 <= i < 5
        ensures frameCount >= 1 ==> r[i] <= frameCount - 1
      {
        MulMono(0, i, interval);
      }
      forall i, j | 0 <= i < j < 5
        ensures r[i] >= r[j]
      {
        MulMono(i, j, interval);
      }
    }
  }

  lemma FloorShift(q: int, r: int, n: int)
    requires 0 <= r < 20
    ensures (q as real + r as real / 20.0 + n as real).Floor == q + n
  {
  }

  /**
   * `max_pause_threshold`: three quarters of the estimated duration when both
   * estimates exist and the end is after the start, otherwise `None`.
   */
  function PauseThreshold(start: Option<int>, end: Option<int>): (r: Option<real>)
    ensures r.Some? <==> start.Some? && end.Some? && end.value > start.value
    ensures r.Some? ==> 0.0 < r.value < (end.value - start.value) as real
    ensures r.Some? ==> 4.0 * r.value == 3.0 * (end.value - start.value) as real
  {
    if start.Some? && end.Some? && end.value > start.value then
      Some((end.value - start.value) as real * 0.75)
    else
      None
  }

  lemma MulMono(a: int, b: int, c: int)
    requires a <= b && c >= 0
    ensures a * c <= b * c
  {
    assert b * c - a * c == (b - a) * c;
  }

  /** `n = ceil(frameCount / interval)` is the least `n` with `n * interval >= frameCount`. */
  lemma CeilDiv(frameCount: int, interval: int)
    requires frameCount >= 1 && interval >= 1
    ensures var n := (frameCount + interval - 1) / interval;
      n >= 1 && n * interval >= frameCount && (n - 1) * interval < frameCount
  {
    var q, r := (frameCount + interval - 1) / interval, (frameCount + interval - 1) % interval;
    assert frameCount + interval - 1 == q * interval + r;
    assert (q - 1) * interval == q * interval - interval;
    if q < 1 {
      MulMono(q, 0, interval);
    }
  }

  /** `list(range(0, frame_count, frame_interval))`: multiples of the interval, each a frame of the video. */
  function TargetFrames(frameCount: int, interval: int): (ts: seq<int>)
    requires interval >= 1
    ensures forall i :: 0 <= i < |ts| ==> 0 <= ts[i] < frameCount && ts[i] % interval == 0
  {
    var n := if frameCount <= 0 then 0 else (frameCount + interval - 1) / interval;
    var ts := seq(n, i => i * interval);
    MultiplesBelow(frameCount, interval, ts);
    ts
  }

  /** The first `ceil(frameCount / interval)` multiples of the interval are frames of the video. */
  lemma MultiplesBelow(frameCount: int, interval: int, ts: seq<int>)
    requires interval >= 1
    requires |ts| == if frameCount <= 0 then 0 else (frameCount + interval - 1) / interval
    requires forall i :: 0 <= i < |ts| ==> ts[i] == i * interval
    ensures forall i :: 0 <= i < |ts| ==> 0 <= ts[i] < frameCount && ts[i] % interval == 0
  {
    forall i | 0 <= i < |ts|
      ensures 0 <= ts[i] < frameCount && ts[i] % interval == 0
    {
      MultipleBelow(frameCount, interval, |ts|, i);
    }
  }

  lemma MultipleBelow(frameCount: int, interval: int, n: int, i: int)
    requires frameCount >= 1 && interval >= 1 && n == (frameCount + interval - 1) / interval
    requires 0 <= i < n
    ensures 0 <= i * interval < frameCount && (i * interval) % interval == 0
  {
    CeilDiv(frameCount, interval);
    MulMono(0, i, interval);
    MulMono(i, n - 1, interval);
    ModOfMultiple(i, interval);
  }

  lemma ModOfMultiple(i: int, d: int)
    requires d >= 1
    ensures (i * d) % d == 0
  {
    var q, r := (i * d) / d, (i * d) % d;
    assert (i - q) * d == r by {
      assert i * d == q * d + r;
    }
    if i - q >= 1 {
      MulMono(1, i - q, d);
    } else if i - q <= -1 {
      MulMono(i - q, -1, d);
    }
  }

  lemma MultipleIsTarget(frameCount: int, interval: int, k: int)
    requires interval >= 1 && 0 <= k < frameCount && k % interval == 0
    ensures k in TargetFrames(frameCount, interval)
  {
    var n := (frameCount + interval - 1) / interval;
    CeilDiv(frameCount, interval);
    var i := k / interval;
    assert k == i * interval;
    if i >= n {
      MulMono(n, i, interval);
    }
    assert TargetFrames(frameCount, interval)[i] == k;
  }

  /**
   * The target frames are exactly the multiples of the interval from 0 up to the
   * last frame, `ceil(frame_count / frame_interval)` of them.
   */
  lemma TargetFramesMembers(frameCount: int, interval: int)
    requires interval >= 1
    ensures forall k :: k in TargetFrames(frameCount, interval) <==> 0 <= k < frameCount && k % interval == 0
    ensures frameCount >= 1 ==> |TargetFrames(frameCount, interval)| == (frameCount + interval - 1) / interval
  {
    var ts := TargetFrames(frameCount, interval);
    forall k
      ensures k in ts <==> 0 <= k < frameCount && k % interval == 0
    {
      if 0 <= k < frameCount && k % interval == 0 {
        MultipleIsTarget(frameCount, interval, k);
      }
    }
  }

  /** The target frames start at 0 and increase by at least the interval from one to the next. */
  lemma TargetFramesOrder(frameCount: int, interval: int)
    requires interval >= 1
    ensures frameCount >= 1 ==> TargetFrames(frameCount, interval)[0] == 0
    ensures forall i, j :: 0 <= i < j < |TargetFrames(frameCount, interval)| ==>
      TargetFrames(frameCount, interval)[j] - TargetFrames(frameCount, interval)[i] >= interval
  {
    var ts := TargetFrames(frameCount, interval);
    forall i, j | 0 <= i < j < |ts|
      ensures ts[j] - ts[i] >= interval
    {
      assert ts[j] - ts[i] == (j - i) * interval;
      MulMono(1, j - i, interval);
    }
    if frameCount >= 1 {
      CeilDiv(frameCount, interval);
    }
  }

  // ---------------------------------------------------------------------------
  // process_full_video: the driver loop
  // ---------------------------------------------------------------------------

  /** Every accepted reading carries the number of the frame it was read from. */
  ghost predicate Tagged(attempt: Attempt) {
    forall f :: attempt(f).Some? ==> attempt(f).value.frame == f
  }

  lemma AttemptsTagged(read: FrameText, fps: real, cfg: Config)
    ensures Tagged(Attempts(read, fps, cfg))
  {
  }

  /** The driver's locals: `results`, the three counters and `previous_result`. */
  datatype Driver = Driver(
    results: seq<FrameReading>,
    processed: nat,
    failed: nat,
    fallbackUsed: nat,
    previous: Option<FrameReading>)

  /** One pass of the loop body, given what the fallback search returned for the target. */
  function Step(s: Driver, hit: Option<Hit>): Driver {
    if hit.None? then s.(failed := s.failed + 1)
    else
      var h := hit.value;
      Driver(
        s.results + [h.reading],
        s.processed + 1,
        s.failed,
        s.fallbackUsed + (if h.fallback.Some? then 1 else 0),
        Some(h.reading))
  }

  /**
   * The driver's locals after the loop over `targets`. Every target is counted as
   * processed or failed, a fallback is counted only with a success, and
   * `previous_result` is the last reading kept.
   */
  function Run(attempt: Attempt, maxRange: int, targets: seq<int>): (s: Driver)
    ensures s.processed + s.failed == |targets|
    ensures s.fallbackUsed <= s.processed == |s.results|
    ensures s.previous == if s.results == [] then None else Some(s.results[|s.results| - 1])
  {
    if targets == [] then Driver([], 0, 0, 0, None)
    else
      var t := targets[|targets| - 1];
      Step(Run(attempt, maxRange, targets[..|targets| - 1]), FirstHit(attempt, t, Offsets(t, Max(maxRange, 0))))
  }

  /** Every kept reading was taken at or above frame 0 when every target is. */
  lemma {:induction false} RunFramesNonNegative(attempt: Attempt, maxRange: int, targets: seq<int>)
    requires Tagged(attempt)
    requires forall j :: 0 <= j < |targets| ==> targets[j] >= 0
    ensures forall i :: 0 <= i < |Run(attempt, maxRange, targets).results| ==>
      Run(attempt, maxRange, targets).results[i].frame >= 0
  {
    if targets != [] {
      var init, t := targets[..|targets| - 1], targets[|targets| - 1];
      assert forall j :: 0 <= j < |init| ==> init[j] == targets[j];
      RunFramesNonNegative(attempt, maxRange, init);
      FallbackShape(attempt, t, maxRange);
    }
  }

  /** Every kept reading lies at most the range past the last target... */
  lemma {:induction false} RunFramesBelow(attempt: Attempt, maxRange: int, targets: seq<int>, b: int)
    requires Tagged(attempt)
    requires forall j :: 0 <= j < |targets| ==> targets[j] + Max(maxRange, 0) <= b
    ensures forall i :: 0 <= i < |Run(attempt, maxRange, targets).results| ==>
      Run(attempt, maxRange, targets).results[i].frame <= b
  {
    if targets != [] {
      var init, t := targets[..|targets| - 1], targets[|targets| - 1];
      assert forall j :: 0 <= j < |init| ==> init[j] == targets[j];
      RunFramesBelow(attempt, maxRange, init, b);
      FallbackShape(attempt, t, maxRange);
    }
  }

  predicate FramesIncreasing(rs: seq<FrameReading>) {
    forall i, j :: 0 <= i < j < |rs| ==> rs[i].frame < rs[j].frame
  }

  /**
   * When targets lie more than twice the range apart, the readings are kept in
   * strictly increasing frame order, so the final sort changes nothing; with
   * closer targets the same frame can be kept twice (see `DuplicateFrames`).
   */
  lemma {:induction false} RunFramesIncreasing(attempt: Attempt, maxRange: int, targets: seq<int>)
    requires Tagged(attempt)
    requires forall i, j :: 0 <= i < j < |targets| ==> targets[j] - targets[i] > 2 * Max(maxRange, 0)
    ensures FramesIncreasing(Run(attempt, maxRange, targets).results)
  {
    if targets != [] {
      var init, t := targets[..|targets| - 1], targets[|targets| - 1];
      var range := Max(maxRange, 0);
      assert forall i, j :: 0 <= i < j < |init| ==> init[i] == targets[i] && init[j] == targets[j];
      RunFramesIncreasing(attempt, maxRange, init);
      FallbackShape(attempt, t, maxRange);
      var hit := FirstHit(attempt, t, Offsets(t, range));
      var before := Run(attempt, maxRange, init).results;
      if init != [] && hit.Some? {
        var last := init[|init| - 1];
        forall j | 0 <= j < |init|
          ensures init[j] + range <= last + range
        {
          assert init[j] == targets[j] && last == targets[|init| - 1];
        }
        RunFramesBelow(attempt, maxRange, init, last + range);
        assert t - last > 2 * range by {
          assert last == targets[|targets| - 2];
        }
        var rs := before + [hit.value.reading];
        assert Run(attempt, maxRange, targets).results == rs;
        forall i, j | 0 <= i < j < |rs|
          ensures rs[i].frame < rs[j].frame
        {
          if j == |before| {
            assert rs[i] == before[i] && before[i].frame <= last + range;
            assert rs[j] == hit.value.reading && hit.value.reading.frame >= t - range;
          } else {
            assert rs[i] == before[i] && rs[j] == before[j];
            assert before[i].frame < before[j].frame;
          }
        }
      }
    }
  }

  /**
   * Over the target frames of a video, every kept reading was taken from frame 0
   * up to the range past the last frame.
   */
  lemma TargetsKeptFrames(attempt: Attempt, maxRange: int, frameCount: int, interval: int)
    requires Tagged(attempt) && interval >= 1
    ensures forall i :: 0 <= i < |Run(attempt, maxRange, TargetFrames(frameCount, interval)).results| ==>
      0 <= Run(attempt, maxRange, TargetFrames(frameCount, interval)).results[i].frame < frameCount + Max(maxRange, 0)
  {
    var targets := TargetFrames(frameCount, interval);
    assert forall j :: 0 <= j < |targets| ==>
      0 <= targets[j] && targets[j] + Max(maxRange, 0) <= frameCount - 1 + Max(maxRange, 0);
    RunFramesNonNegative(attempt, maxRange, targets);
    RunFramesBelow(attempt, maxRange, targets, frameCount - 1 + Max(maxRange, 0));
  }

  /**
   * When the interval is more than twice the range, the readings are already in
   * frame order and the final sort by frame leaves them as they are.
   */
  lemma WideIntervalSorted(attempt: Attempt, maxRange: int, frameCount: int, interval: int)
    requires Tagged(attempt) && interval >= 1 && interval > 2 * Max(maxRange, 0)
    ensures SortBy(Run(attempt, maxRange, TargetFrames(frameCount, interval)).results, FrameOf)
      == Run(attempt, maxRange, TargetFrames(frameCount, interval)).results
  {
    var rs := Run(attempt, maxRange, TargetFrames(frameCount, interval)).results;
    TargetFramesOrder(frameCount, interval);
    RunFramesIncreasing(attempt, maxRange, TargetFrames(frameCount, interval));
    assert SortedBy(rs, FrameOf) by {
      forall i, j | 0 <= i < j < |rs|
        ensures FrameOf(rs[i]) <= FrameOf(rs[j])
      {
      }
    }
    SortBySorted(rs, FrameOf);
  }


  /** The only offset in `offs` whose frame is accepted gives the reading. */
  lemma SingleHit(attempt: Attempt, target: int, offs: seq<int>, o: int)
    requires o in offs
    requires forall f :: attempt(f).Some? <==> f == target + o
    ensures FirstHit(attempt, target, offs).Some?
    ensures FirstHit(attempt, target, offs).value.reading == attempt(target + o).value
  {
    FirstHitNone(attempt, target, offs);
    var i :| 0 <= i < |offs| && offs[i] == o;
    assert !AllRejected(attempt, target, offs);
    FirstHitIsFirst(attempt, target, offs);
  }

  /** When only frame 5 reads, target 0 fails, and so do 1 to 4: the search ends at +5. */
  lemma FromZeroToFive(attempt: Attempt)
    requires forall f :: attempt(f).Some? <==> f == 5
    ensures FirstHit(attempt, 0, Offsets(0, 5)) == Some(Hit(attempt(5).value, Some(FallbackInfo(0, 5))))
  {
    OffsetsMembers(0, 5);
    SingleHit(attempt, 0, Offsets(0, 5), 5);
    FirstHitFound(attempt, 0, Offsets(0, 5));
  }

  /** When only frame 5 reads, target 10 fails, and so do its neighbours up to distance 4 and then 15: the search ends at -5. */
  lemma FromTenToFive(attempt: Attempt)
    requires forall f :: attempt(f).Some? <==> f == 5
    ensures FirstHit(attempt, 10, Offsets(10, 5)) == Some(Hit(attempt(5).value, Some(FallbackInfo(10, -5))))
  {
    OffsetsMembers(10, 5);
    SingleHit(attempt, 10, Offsets(10, 5), -5);
    FirstHitFound(attempt, 10, Offsets(10, 5));
  }

  /**
   * With the default interval 10 and range 5, a video of 11 frames of which only
   * frame 5 reads: target 0 falls back to +5 and target 10 to -5, so the reading
   * of frame 5 is kept twice.
   */
  lemma DuplicateFrames(attempt: Attempt)
    requires Tagged(attempt)
    requires forall f :: attempt(f).Some? <==> f == 5
    ensures TargetFrames(11, 10) == [0, 10]
    ensures Run(attempt, 5, TargetFrames(11, 10)).results == [attempt(5).value, attempt(5).value]
    ensures Run(attempt, 5, TargetFrames(11, 10)).results[0].frame == 5
    ensures Run(attempt, 5, TargetFrames(11, 10)).results[1].frame == 5
  {
    FromZeroToFive(attempt);
    FromTenToFive(attempt);
    assert TargetFrames(11, 10) == [0, 10];
    assert [0, 10][..1] == [0];
    assert [0][..0] == [];
  }

  lemma RunStep(attempt: Attempt, maxRange: int, targets: seq<int>, k: nat, hit: Option<Hit>)
    requires k < |targets|
    requires hit == FirstHit(attempt, targets[k], Offsets(targets[k], Max(maxRange, 0)))
    ensures Run(attempt, maxRange, targets[..k + 1]) == Step(Run(attempt, maxRange, targets[..k]), hit)
  {
    assert targets[..k + 1][..k] == targets[..k];
  }

  /**
   * The loop of `process_full_video` over the target frames, with
   * `try_parse_frame` (its capture, region, frame rate and limits fixed) passed
   * in as `attempt`: each target goes through `process_frame_with_fallback`; its
   * reading is kept and counted, and becomes `previous_result`, or the target is
   * counted as failed.
   */
  method ProcessTargets(attempt: Attempt, targets: seq<int>, maxRange: int) returns (s: Driver)
    ensures s == Run(attempt, maxRange, targets)
  {
    var results: seq<FrameReading> := [];
    var processed, failed, fallbackUsed := 0, 0, 0;
    var previous: Option<FrameReading> := None;
    for k := 0 to |targets|
      invariant Driver(results, processed, failed, fallbackUsed, previous) == Run(attempt, maxRange, targets[..k])
    {
      ghost var before := Driver(results, processed, failed, fallbackUsed, previous);
      var result := ProcessFrameWithFallback(attempt, targets[k], maxRange);
      RunStep(attempt, maxRange, targets, k, result);
      if result.Some? {
        if result.value.fallback.Some? {
          fallbackUsed := fallbackUsed + 1;
        }
        results := results + [result.value.reading];
        processed := processed + 1;
        previous := Some(result.value.reading);
      } else {
        failed := failed + 1;
      }
      assert Driver(results, processed, failed, fallbackUsed, previous) == Step(before, result);
    }
    assert targets[..|targets|] == targets;
    return Driver(results, processed, failed, fallbackUsed, previous);
  }

  /** The JSON document the driver writes, without the video name and the configuration it echoes. */
  datatype Extraction = Extraction(
    fps: real,
    frameInterval: int,
    totalFrames: int,
    processedFrames: nat,
    successfulParses: nat,
    failedParses: nat,
    fallbackUsed: nat,
    startTime: Option<int>,
    endTime: Option<int>,
    maxPauseThreshold: Option<real>,
    data: seq<FrameReading>)

  /** The keys the driver's summary line reads with `[]`, which raises when one is missing. */
  predicate HasSummaryKeys(cfg: Config) {
    && "current_min" in cfg && "current_max" in cfg
    && "voltage_min" in cfg && "voltage_max" in cfg
    && "time_tolerance_sec" in cfg
  }

  /**
   * `process_full_video` after the video and configuration are loaded: estimate
   * the start and end times from the samples, derive the pause threshold, run
   * the fallback search on every target frame, counting successes, failures and
   * fallbacks, and sort the kept readings by frame.
   */
  method ProcessFullVideo(read: FrameText, fps: real, frameCount: int, interval: int, maxRange: int, cfg: Config)
    returns (out: Extraction)
    requires frameCount >= 1 && interval >= 1 && fps != 0.0 && HasSummaryKeys(cfg)
    ensures out.startTime == EstimateTime(read, StartSamples(frameCount, interval))
    ensures out.endTime == EstimateTime(read, EndSamples(frameCount, interval))
    ensures out.maxPauseThreshold == PauseThreshold(out.startTime, out.endTime)
    ensures out.processedFrames == |TargetFrames(frameCount, interval)|
    ensures var s := Run(Attempts(read, fps, cfg), maxRange, TargetFrames(frameCount, interval));
      && out.data == SortBy(s.results, FrameOf)
      && out.successfulParses == s.processed && out.failedParses == s.failed && out.fallbackUsed == s.fallbackUsed
    ensures out.successfulParses + out.failedParses == out.processedFrames
    ensures out.fallbackUsed <= out.successfulParses == |out.data|
    ensures SortedBy(out.data, FrameOf)
    ensures multiset(out.data) == multiset(Run(Attempts(read, fps, cfg), maxRange, TargetFrames(frameCount, interval)).results)
  {
    var startTime := ExtractTimeFromFrames(read, StartSamples(frameCount, interval));
    var endTime := ExtractTimeFromFrames(read, EndSamples(frameCount, interval));
    var maxPauseThreshold := PauseThreshold(startTime, endTime);

    var targets := TargetFrames(frameCount, interval);
    var state := ProcessTargets(Attempts(read, fps, cfg), targets, maxRange);
    var results, failed, fallbackUsed := state.results, state.failed, state.fallbackUsed;
    var data := SortBy(results, FrameOf);
    out := Extraction(fps, interval, frameCount, |targets|, |data|, failed, fallbackUsed,
      startTime, endTime, maxPauseThreshold, data);
  }
}
