/**
 * The server's capture decisions: which H.264 encoder to open and with which options,
 * the presentation timestamps on the 90 kHz clock, the bounded drop-when-full queues
 * between the capture loops and their send tasks, and the cursor normalisation.
 *
 * FFmpeg itself (device input, decoding, scaling, encoding) is abstract: the frame loop
 * receives, per decoded frame, the packets the encoder returns for it, and the mouse
 * loop receives the pointer readings. The capture device, the framerate and whether the
 * track slot holds a track are parameters.
 */
module ServerCapture {
  import opened Common

  // ---------------------------------------------------------------- encoder selection

  /** The build targets that have their own hardware encoder list. */
  datatype TargetOs = Windows | MacOs | Linux

  /** `HW_ENCODERS`: the hardware encoders to probe, in order of preference. */
  function HwEncoders(os: TargetOs): (names: seq<string>)
    ensures |names| >= 1
  {
    match os
    case Windows => ["h264_nvenc", "h264_amf", "h264_qsv", "h264_mf"]
    case MacOs => ["h264_videotoolbox"]
    case Linux => ["h264_nvenc", "h264_vaapi"]
  }

  /** The name the software fallback is reported under. */
  const SoftwareEncoder: string := "libx264"

  /**
   * `find_map` over the candidates: the first name for which `available`
   * (`encoder::find_by_name` succeeding) holds.
   */
  function FirstAvailable(candidates: seq<string>, available: string -> bool): (r: Option<string>)
    ensures r.None? <==> forall i :: 0 <= i < |candidates| ==> !available(candidates[i])
    ensures r.Some? ==>
              exists i :: 0 <= i < |candidates| && candidates[i] == r.value && available(candidates[i]) &&
                          forall j :: 0 <= j < i ==> !available(candidates[j])
    decreases |candidates|
  {
    if candidates == [] then None
    else if available(candidates[0]) then
      Some(candidates[0])
    else
      var r := FirstAvailable(candidates[1..], available);
      assert forall i :: 1 <= i < |candidates| ==> candidates[i] == candidates[1..][i - 1];
      r
  }

  /** How choosing the encoder can fail. */
  datatype EncoderError =
    | FallbackEncoderMissing  // acceleration on, no hardware encoder, and the `expect` on the fallback panics
    | EncoderNotFound         // acceleration off and no H.264 encoder: "H264 encoder not found"

  /**
   * The encoder name `capture_screen` settles on when built for `os`. `hwAvailable` says
   * which names `find_by_name` finds; `softwareAvailable` whether `find(Id::H264)` finds an
   * encoder.
   */
  function SelectEncoder(
    acceleration: bool, os: TargetOs, hwAvailable: string -> bool, softwareAvailable: bool)
    : (r: Result<string, EncoderError>)
    // with acceleration, the first available hardware encoder in list order wins
    ensures acceleration && FirstAvailable(HwEncoders(os), hwAvailable).Some? ==>
              r.Ok? && r.value in HwEncoders(os) && hwAvailable(r.value)
    ensures acceleration && FirstAvailable(HwEncoders(os), hwAvailable).Some? ==>
              r == Ok(FirstAvailable(HwEncoders(os), hwAvailable).value)
    // otherwise the software encoder, reported as "libx264", or an error when there is none
    ensures (!acceleration || forall i :: 0 <= i < |HwEncoders(os)| ==> !hwAvailable(HwEncoders(os)[i])) ==>
              r == (if softwareAvailable then Ok(SoftwareEncoder)
                    else if acceleration then Err(FallbackEncoderMissing)
                    else Err(EncoderNotFound))
  {
    if acceleration then
      match FirstAvailable(HwEncoders(os), hwAvailable)
      case Some(name) => Ok(name)
      case None => if softwareAvailable then Ok(SoftwareEncoder) else Err(FallbackEncoderMissing)
    else if softwareAvailable then Ok(SoftwareEncoder)
    else Err(EncoderNotFound)
  }

  /** NVENC heads the Windows and Linux lists: with acceleration it wins whenever it is found. */
  lemma NvencPreferred(os: TargetOs, hwAvailable: string -> bool, softwareAvailable: bool)
    requires os != MacOs && hwAvailable("h264_nvenc")
    ensures SelectEncoder(true, os, hwAvailable, softwareAvailable) == Ok("h264_nvenc")
  {
    assert HwEncoders(os)[0] == "h264_nvenc";
  }

  /**
   * Media Foundation is the last Windows candidate: it is chosen only when the three
   * vendor encoders before it are all missing.
   */
  lemma MediaFoundationLast(hwAvailable: string -> bool, softwareAvailable: bool)
    requires hwAvailable("h264_mf")
    ensures SelectEncoder(true, Windows, hwAvailable, softwareAvailable) == Ok("h264_mf") <==>
            !hwAvailable("h264_nvenc") && !hwAvailable("h264_amf") && !hwAvailable("h264_qsv")
  {
    var names := HwEncoders(Windows);
    assert names[0] == "h264_nvenc" && names[1] == "h264_amf" && names[2] == "h264_qsv" && names[3] == "h264_mf";
    var r := FirstAvailable(names, hwAvailable);
    if !hwAvailable("h264_nvenc") && !hwAvailable("h264_amf") && !hwAvailable("h264_qsv") {
      assert r.Some?;
      var i :| 0 <= i < |names| && names[i] == r.value && hwAvailable(names[i]) &&
                forall j :: 0 <= j < i ==> !hwAvailable(names[j]);
      assert i == 3;
    } else if r.Some? {
      var i :| 0 <= i < |names| && names[i] == r.value && hwAvailable(names[i]) &&
                forall j :: 0 <= j < i ==> !hwAvailable(names[j]);
      assert i < 3;
    }
  }

  // ---------------------------------------------------------------- encoder options

  /** The options of the default branch, meant for libx264. */
  const LibX264Options: map<string, string> := map[
    "preset" := "fast", "tune" := "zerolatency", "crf" := "21", "sc_threshold" := "0",
    "profile" := "high", "level" := "5.2", "keyint" := "15"]

  /** The names with a branch of their own in the option table. */
  const DedicatedBranches: set<string> :=
    {"h264_nvenc", "h264_amf", "h264_qsv", "h264_videotoolbox", "h264_vaapi"}

  /** The interval between key frames the options ask for, under FFmpeg's `g` or x264's `keyint`. */
  function KeyInterval(opts: map<string, string>): Option<string> {
    if "g" in opts then Some(opts["g"])
    else if "keyint" in opts then Some(opts["keyint"])
    else None
  }

  /** The encoder options dictionary `capture_screen` opens the encoder with. */
  function EncoderOptions(codecName: string): (opts: map<string, string>)
    // every branch asks for a key frame every 15 frames
    ensures KeyInterval(opts) == Some("15")
    ensures "profile" in opts
    ensures codecName !in DedicatedBranches ==> opts == LibX264Options
  {
    if codecName == "h264_nvenc" then
      map["preset" := "p3", "tune" := "ll", "rc" := "constqp", "qp" := "23",
          "profile" := "high", "level" := "5.2", "g" := "15"]
    else if codecName == "h264_amf" then
      map["usage" := "ultralowlatency", "quality" := "balanced", "rc" := "cqp", "qp_i" := "23",
          "qp_p" := "23", "profile" := "high", "level" := "5.2", "g" := "15"]
    else if codecName == "h264_qsv" then
      map["preset" := "fast", "global_quality" := "23", "look_ahead" := "0",
          "profile" := "high", "level" := "5.2", "g" := "15"]
    else if codecName == "h264_videotoolbox" then
      map["allow_b_frames" := "0", "profile" := "high", "g" := "15"]
    else if codecName == "h264_vaapi" then
      map["rc_mode" := "CQP", "qp" := "23", "profile" := "100", "g" := "15"]
    else
      LibX264Options
  }

  /**
   * Media Foundation and the software fallback have no branch of their own: both get the
   * libx264 options.
   */
  lemma FallbackOptions()
    ensures EncoderOptions("h264_mf") == LibX264Options
    ensures EncoderOptions(SoftwareEncoder) == LibX264Options
    ensures LibX264Options["tune"] == "zerolatency" && LibX264Options["sc_threshold"] == "0"
  {
  }

  // ---------------------------------------------------------------- presentation timestamps

  /** The encoder time base is 1/90000 s, the RTP clock rate for video. */
  const EncoderClockRate: nat := 90000

  /**
   * The pts of the frame numbered `frameCount` (from 0): `frameCount * 90000 / framerate`
   * computed in `f64` and cast to `i64`. The cast truncates, sends NaN (0/0) to 0 and
   * saturates at `i64::MAX`, which is where an infinite quotient (framerate 0) lands.
   */
  function Pts(frameCount: nat, framerate: nat): (pts: int)
    ensures 0 <= pts <= I64Max
    ensures frameCount == 0 ==> pts == 0
    ensures framerate > 0 && frameCount * EncoderClockRate / framerate <= I64Max ==>
              pts * framerate <= frameCount * EncoderClockRate < (pts + 1) * framerate
  {
    if framerate == 0 then
      if frameCount == 0 then 0 else I64Max
    else
      var q := frameCount * EncoderClockRate / framerate;
      if q <= I64Max then q else I64Max
  }

  /** The pts never decreases from one frame to the next. */
  lemma PtsMonotone(n: nat, m: nat, framerate: nat)
    requires n <= m
    ensures Pts(n, framerate) <= Pts(m, framerate)
  {
    if framerate > 0 {
      var a, b := n * EncoderClockRate, m * EncoderClockRate;
      assert a <= b;
      DivMonotone(a, b, framerate);
    }
  }

  lemma DivMonotone(a: nat, b: nat, d: nat)
    requires a <= b && d > 0
    ensures a / d <= b / d
  {
    var qa, qb := a / d, b / d;
    assert qa * d <= a;
    assert b < (qb + 1) * d;
    if qa > qb {
      MulMonotone(qb + 1, qa, d);
      assert false;
    }
  }

  lemma MulMonotone(x: nat, y: nat, d: nat)
    requires x <= y
    ensures x * d <= y * d
  {
    var diff := y - x;
    assert y * d == x * d + diff * d;
  }

  /**
   * When the framerate divides the clock rate, consecutive frames are exactly
   * `90000 / framerate` ticks apart: the spacing is constant and does not drift.
   */
  lemma PtsConstantSpacing(n: nat, framerate: nat)
    requires framerate > 0 && EncoderClockRate % framerate == 0
    requires n * EncoderClockRate <= I64Max
    ensures Pts(n, framerate) == n * (EncoderClockRate / framerate)
  {
    var step := EncoderClockRate / framerate;
    assert EncoderClockRate == step * framerate;
    assert n * EncoderClockRate == (n * step) * framerate;
    DivExact(n * step, framerate);
    DivMonotone(n * EncoderClockRate / framerate, n * EncoderClockRate, 1);
  }

  lemma DivExact(k: nat, d: nat)
    requires d > 0
    ensures (k * d) / d == k
  {
    var q := (k * d) / d;
    assert q * d <= k * d < (q + 1) * d;
    if q < k {
      MulMonotone(q + 1, k, d);
      assert false;
    } else if q > k {
      MulMonotone(k + 1, q, d);
      assert false;
    }
  }

  // ---------------------------------------------------------------- bounded queues

  /** Capacity of the sample queue between the capture loop and the sending task. */
  const SampleQueueCapacity: nat := 2

  /** Capacity of the cursor queue between the mouse loop and its sending task. */
  const MouseQueueCapacity: nat := 64

  /**
   * A bounded `tokio::sync::mpsc` channel as its producer sees it: `try_send` enqueues
   * when there is room and otherwise drops the new value.
   */
  class BoundedQueue<T> {
    const capacity: nat
    var contents: seq<T>

    ghost predicate Valid()
      reads this
    {
      |contents| <= capacity
    }

    /** `mpsc::channel(capacity)`; tokio refuses a capacity of 0. */
    constructor (capacity: nat)
      requires capacity > 0
      ensures this.capacity == capacity && contents == [] && Valid()
    {
      this.capacity := capacity;
      contents := [];
    }

    /** `try_send`: never blocks; when the queue is full the new value is dropped. */
    method TrySend(x: T) returns (sent: bool)
      requires Valid()
      modifies this
      ensures Valid()
      ensures sent <==> |old(contents)| < capacity
      ensures contents == if sent then old(contents) + [x] else old(contents)
    {
      if |contents| < capacity {
        contents := contents + [x];
        sent := true;
      } else {
        sent := false;
      }
    }

    /** The sending task's `recv`, taken when a value is waiting: the oldest one, first in first out. */
    method TryRecv() returns (x: Option<T>)
      requires Valid()
      modifies this
      ensures Valid()
      ensures old(contents) == [] ==> x == None && contents == []
      ensures old(contents) != [] ==> x == Some(old(contents)[0]) && contents == old(contents)[1..]
    {
      if contents == [] {
        x := None;
      } else {
        x := Some(contents[0]);
        contents := contents[1..];
      }
    }
  }

  /** The queue after offering `xs` one by one with `try_send` and nothing received meanwhile. */
  function Fill<T>(q: seq<T>, capacity: nat, xs: seq<T>): seq<T>
    decreases |xs|
  {
    if xs == [] then q
    else
      var before := Fill(q, capacity, xs[..|xs| - 1]);
      if |before| < capacity then before + [xs[|xs| - 1]] else before
  }

  function Min(a: int, b: int): int {
    if a <= b then a else b
  }

  /**
   * Drop-newest: the queue keeps its earlier entries untouched, takes offered values in
   * order while there is room, drops every value offered after it is full, and never
   * holds more than its capacity.
   */
  lemma {:induction false} FillKeepsOldest<T>(q: seq<T>, capacity: nat, xs: seq<T>)
    requires |q| <= capacity
    ensures Fill(q, capacity, xs) == q + xs[..Min(|xs|, capacity - |q|)]
    ensures |Fill(q, capacity, xs)| <= capacity
    decreases |xs|
  {
    if xs != [] {
      var init := xs[..|xs| - 1];
      FillKeepsOldest(q, capacity, init);
      var k := Min(|init|, capacity - |q|);
      if |init| < capacity - |q| {
        assert init[..k] + [xs[|xs| - 1]] == xs[..Min(|xs|, capacity - |q|)];
      } else {
        assert init[..k] == xs[..Min(|xs|, capacity - |q|)];
      }
    }
  }

  // ---------------------------------------------------------------- the frame loop

  /** A packet the encoder returned, and whether the track slot held a track when it did. */
  datatype EncodedPacket = EncodedPacket(data: seq<byte>, trackReady: bool)

  /** A `Sample` offered to the sending task. */
  datatype Sample = Sample(data: seq<byte>)

  /** The samples a frame's packets offer: one per packet met by a ready track. */
  function OfferedSamples(packets: seq<EncodedPacket>): seq<Sample>
    decreases |packets|
  {
    if packets == [] then []
    else
      var last := packets[|packets| - 1];
      OfferedSamples(packets[..|packets| - 1]) + (if last.trackReady then [Sample(last.data)] else [])
  }

  /** The samples offered over a run of decoded frames, in order. */
  function Offered(frames: seq<seq<EncodedPacket>>): seq<Sample>
    decreases |frames|
  {
    if frames == [] then [] else Offered(frames[..|frames| - 1]) + OfferedSamples(frames[|frames| - 1])
  }

  /**
   * While the sending task takes nothing, the sample queue holds at most two samples: the
   * first two offered to it once it has room, every later one being dropped.
   */
  lemma SampleQueueHoldsTwo(q: seq<Sample>, xs: seq<Sample>)
    requires |q| <= SampleQueueCapacity
    ensures |Fill(q, SampleQueueCapacity, xs)| <= 2
    ensures q == [] ==> Fill(q, SampleQueueCapacity, xs) == xs[..Min(|xs|, 2)]
  {
    FillKeepsOldest(q, SampleQueueCapacity, xs);
  }

  lemma FillAppend<T>(q: seq<T>, capacity: nat, xs: seq<T>, x: T)
    ensures Fill(q, capacity, xs + [x]) ==
            (var before := Fill(q, capacity, xs); if |before| < capacity then before + [x] else before)
  {
    assert (xs + [x])[..|xs + [x]| - 1] == xs;
  }

  /** Offering `a` and then `b` is offering `a + b`. */
  lemma {:induction false} FillConcat<T>(q: seq<T>, capacity: nat, a: seq<T>, b: seq<T>)
    ensures Fill(q, capacity, a + b) == Fill(Fill(q, capacity, a), capacity, b)
    decreases |b|
  {
    if b == [] {
      assert a + b == a;
    } else {
      var init := b[..|b| - 1];
      FillConcat(q, capacity, a, init);
      assert (a + b)[..|a + b| - 1] == a + init;
    }
  }

  /** One more packet offers its sample after those of the packets before it, if its track was ready. */
  lemma OfferedSamplesStep(packets: seq<EncodedPacket>, j: nat)
    requires j < |packets|
    ensures OfferedSamples(packets[..j + 1]) ==
            OfferedSamples(packets[..j]) + (if packets[j].trackReady then [Sample(packets[j].data)] else [])
  {
    assert packets[..j + 1][..j] == packets[..j];
  }

  /**
   * The `receive_packet` loop for one decoded frame: each packet met by a ready track
   * goes to the sample queue with `try_send`.
   */
  method SendEncodedPackets(packets: seq<EncodedPacket>, tx: BoundedQueue<Sample>)
    requires tx.Valid()
    modifies tx
    ensures tx.Valid()
    ensures tx.contents == Fill(old(tx.contents), tx.capacity, OfferedSamples(packets))
  {
    var j := 0;
    while j < |packets|
      invariant 0 <= j <= |packets|
      invariant tx.Valid()
      invariant tx.contents == Fill(old(tx.contents), tx.capacity, OfferedSamples(packets[..j]))
    {
      var packet := packets[j];
      ghost var before := OfferedSamples(packets[..j]);
      OfferedSamplesStep(packets, j);
      if packet.trackReady {
        FillAppend(old(tx.contents), tx.capacity, before, Sample(packet.data));
        var _ := tx.TrySend(Sample(packet.data));
      } else {
        assert OfferedSamples(packets[..j + 1]) == before + [] == before;
      }
      j := j + 1;
    }
    assert packets[..|packets|] == packets;
  }

  /**
   * The capture loop from the first decoded frame on: frame `i` gets the pts of
   * `frame_count = i`, the count rises by one per frame, and each encoded packet met by
   * a ready track is offered to the sample queue with `try_send`.
   */
  method EncodeFrames(frames: seq<seq<EncodedPacket>>, framerate: nat, tx: BoundedQueue<Sample>)
    returns (ptsList: seq<int>, frameCount: nat)
    requires tx.Valid() && tx.capacity == SampleQueueCapacity
    modifies tx
    ensures tx.Valid() && |tx.contents| <= SampleQueueCapacity
    ensures frameCount == |frames|
    ensures |ptsList| == |frames| && forall i :: 0 <= i < |frames| ==> ptsList[i] == Pts(i, framerate)
    ensures tx.contents == Fill(old(tx.contents), tx.capacity, Offered(frames))
  {
    ptsList := [];
    frameCount := 0;
    var i := 0;
    while i < |frames|
      invariant 0 <= i <= |frames| && frameCount == i
      invariant tx.Valid()
      invariant |ptsList| == i && forall k :: 0 <= k < i ==> ptsList[k] == Pts(k, framerate)
      invariant tx.contents == Fill(old(tx.contents), tx.capacity, Offered(frames[..i]))
    {
      var pts := Pts(frameCount, framerate);
      ptsList := ptsList + [pts];
      frameCount := frameCount + 1;
      FillConcat(old(tx.contents), tx.capacity, Offered(frames[..i]), OfferedSamples(frames[i]));
      SendEncodedPackets(frames[i], tx);
      assert frames[..i + 1][..i] == frames[..i];
      i := i + 1;
    }
    assert frames[..|frames|] == frames;
  }

  // ---------------------------------------------------------------- the cursor

  /** `CaptureDevice`: the captured screen region. */
  datatype CaptureDevice = CaptureDevice(index: nat, name: string, width: u32, height: u32, x: int, y: int)

  /** `MousePosition`: each axis in [0, 1], or -1 when the pointer is off the region. */
  datatype MousePosition = MousePosition(x: real, y: real)

  /** The cursor on one axis: the offset from the origin over the extent, or -1 outside [0, 1]. */
  function RelativeAxis(pos: int, origin: int, extent: nat): (r: real)
    ensures r == -1.0 || 0.0 <= r <= 1.0
    ensures extent == 0 ==> r == 0.0
    ensures extent > 0 && 0 <= pos - origin <= extent ==> r * extent as real == (pos - origin) as real
    ensures extent > 0 && !(0 <= pos - origin <= extent) ==> r == -1.0
  {
    var relative := if extent > 0 then (pos - origin) as real / extent as real else 0.0;
    RatioInUnit(pos - origin, extent);
    if 0.0 <= relative <= 1.0 then relative else -1.0
  }

  /** For a positive extent the ratio lies in [0, 1] exactly when the offset lies in [0, extent]. */
  lemma RatioInUnit(offset: int, extent: nat)
    ensures extent > 0 ==> (0.0 <= offset as real / extent as real <= 1.0 <==> 0 <= offset <= extent)
  {
    if extent > 0 {
      var e := extent as real;
      var r := offset as real / e;
      assert r * e == offset as real;
      if 0 <= offset { assert r >= 0.0; }
      if offset <= extent { assert r <= 1.0; }
    }
  }

  /** The cursor position relative to the capture device, both axes normalised. */
  function NormalizeCursor(device: CaptureDevice, x: int, y: int): (p: MousePosition)
    ensures p.x == -1.0 || 0.0 <= p.x <= 1.0
    ensures p.y == -1.0 || 0.0 <= p.y <= 1.0
  {
    MousePosition(RelativeAxis(x, device.x, device.width), RelativeAxis(y, device.y, device.height))
  }

  /** On a 1920x1080 screen at the origin, (960, 540) is the centre and (-10, 540) is off to the left. */
  lemma NormalizeCursorExamples()
    ensures NormalizeCursor(CaptureDevice(1, "screen", 1920, 1080, 0, 0), 960, 540) == MousePosition(0.5, 0.5)
    ensures NormalizeCursor(CaptureDevice(1, "screen", 1920, 1080, 0, 0), -10, 540) == MousePosition(-1.0, 0.5)
  {
  }

  /** One answer of `Mouse::get_mouse_position`. */
  datatype MouseReading = Position(x: int, y: int) | ReadError

  /** The normalised positions of a run of successful readings. */
  function Normalized(device: CaptureDevice, readings: seq<MouseReading>): seq<MousePosition>
    requires forall i :: 0 <= i < |readings| ==> readings[i].Position?
    decreases |readings|
  {
    if readings == [] then []
    else
      var last := readings[|readings| - 1];
      Normalized(device, readings[..|readings| - 1]) + [NormalizeCursor(device, last.x, last.y)]
  }

  /** One more successful reading appends its normalised position. */
  lemma NormalizedStep(device: CaptureDevice, readings: seq<MouseReading>, n: nat)
    requires n < |readings| && forall i :: 0 <= i <= n ==> readings[i].Position?
    ensures Normalized(device, readings[..n + 1]) ==
            Normalized(device, readings[..n]) + [NormalizeCursor(device, readings[n].x, readings[n].y)]
  {
    assert readings[..n + 1][..n] == readings[..n];
  }

  /**
   * The mouse loop: each reading is normalised and offered to the cursor queue with
   * `try_send`; a read error ends the loop. Returns how many readings were sampled.
   */
  method CaptureMouse(device: CaptureDevice, readings: seq<MouseReading>, tx: BoundedQueue<MousePosition>)
    returns (sampled: nat)
    requires tx.Valid() && tx.capacity == MouseQueueCapacity
    modifies tx
    ensures tx.Valid() && |tx.contents| <= MouseQueueCapacity
    ensures sampled <= |readings|
    ensures forall i :: 0 <= i < sampled ==> readings[i].Position?
    ensures sampled < |readings| ==> readings[sampled].ReadError?
    ensures tx.contents == Fill(old(tx.contents), tx.capacity, Normalized(device, readings[..sampled]))
  {
    sampled := 0;
    while sampled < |readings|
      invariant 0 <= sampled <= |readings|
      invariant forall i :: 0 <= i < sampled ==> readings[i].Position?
      invariant tx.Valid()
      invariant tx.contents == Fill(old(tx.contents), tx.capacity, Normalized(device, readings[..sampled]))
    {
      match readings[sampled] {
        case Position(x, y) =>
          var current := NormalizeCursor(device, x, y);
          NormalizedStep(device, readings, sampled);
          FillAppend(old(tx.contents), tx.capacity, Normalized(device, readings[..sampled]), current);
          var _ := tx.TrySend(current);
          sampled := sampled + 1;
        case ReadError =>
          return;
      }
    }
  }
}
