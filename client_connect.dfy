/**
 * The client's access-unit reassembler (`process_video_track`).
 *
 * Each RTP packet read from the remote H.264 track is depacketized; a successful
 * depacketize appends the Annex B start code and the payload to `frame_buf` and
 * records the packet's RTP timestamp in `last_timestamp`. The RTP marker bit ends an
 * access unit (section 5.1 of RFC 6184): a non-empty buffer is then handed on as one
 * `WebRTCPacket` tagged with `last_timestamp`, and the buffer starts over empty.
 *
 * The depacketizer itself is abstract: a packet carries the outcome of
 * `H264Packet::depacketize` on its payload.
 */
module ClientConnect {
  import opened Common

  /** The 4-byte start code of an Annex B byte stream (ITU-T H.264, Annex B). */
  const StartCode: seq<byte> := [0, 0, 0, 1]

  /**
   * One RTP packet as the reassembly loop sees it: the result of depacketizing its
   * payload (`None` when depacketize returned an error), the header's marker bit and
   * the header's RTP timestamp.
   */
  datatype RtpPacket = RtpPacket(depacketized: Option<seq<byte>>, marker: bool, timestamp: u32)

  /** `WebRTCPacket`: one reassembled access unit and the timestamp it is tagged with. */
  datatype WebRtcPacket = WebRtcPacket(data: seq<byte>, timestamp: u32)

  /** The two variables the reassembly loop updates: `frame_buf` and `last_timestamp`. */
  datatype Reassembly = Reassembly(frameBuf: seq<byte>, lastTimestamp: u32)

  /** The loop starts with an empty buffer and `last_timestamp = 0`. */
  const Initial: Reassembly := Reassembly([], 0)

  /** What one packet does: the next loop state and the unit it emits, if any. */
  datatype Step = Step(next: Reassembly, emitted: Option<WebRtcPacket>)

  /** The buffer is empty or begins with a start code. */
  predicate AnnexBPrefixed(buf: seq<byte>) {
    buf == [] || (|buf| >= 4 && buf[..4] == StartCode)
  }

  /** One iteration of the reassembly loop on packet `p`. */
  function Feed(s: Reassembly, p: RtpPacket): (r: Step)
    // last_timestamp follows the last successful depacketize and is never reset by a flush
    ensures r.next.lastTimestamp == (if p.depacketized.Some? then p.timestamp else s.lastTimestamp)
    // without the marker bit nothing is emitted; a success appends exactly the start code
    // and the payload after the unchanged earlier bytes, a failure changes nothing
    ensures !p.marker ==> r.emitted.None?
    ensures !p.marker && p.depacketized.Some? ==>
              r.next.frameBuf == s.frameBuf + StartCode + p.depacketized.value
    ensures !p.marker && p.depacketized.None? ==> r.next == s
    // with the marker bit the buffer ends empty, and a unit is emitted exactly when the
    // buffer held something after this packet's own bytes were appended
    ensures p.marker ==> r.next.frameBuf == []
    ensures p.marker ==> (r.emitted.Some? <==> s.frameBuf != [] || p.depacketized.Some?)
    // the emitted unit is the whole buffer, tagged with last_timestamp
    ensures r.emitted.Some? ==>
              r.emitted.value.data != [] &&
              r.emitted.value.timestamp == r.next.lastTimestamp &&
              r.emitted.value.data ==
                s.frameBuf + (if p.depacketized.Some? then StartCode + p.depacketized.value else [])
    // the start-code shape of the buffer is kept and carried into every emitted unit
    ensures AnnexBPrefixed(s.frameBuf) ==> AnnexBPrefixed(r.next.frameBuf)
    ensures AnnexBPrefixed(s.frameBuf) && r.emitted.Some? ==>
              |r.emitted.value.data| >= 4 && r.emitted.value.data[..4] == StartCode
  {
    var appended :=
      match p.depacketized
      case Some(payload) => Reassembly(s.frameBuf + StartCode + payload, p.timestamp)
      case None => s;
    assert AnnexBPrefixed(s.frameBuf) && p.depacketized.Some? ==> appended.frameBuf[..4] == StartCode;
    if p.marker && appended.frameBuf != [] then
      Step(Reassembly([], appended.lastTimestamp),
           Some(WebRtcPacket(appended.frameBuf, appended.lastTimestamp)))
    else
      Step(appended, None)
  }

  /** The loop state after a run of packets, and the units emitted along the way. */
  datatype Trace = Trace(final: Reassembly, units: seq<WebRtcPacket>)

  function Emitted(o: Option<WebRtcPacket>): seq<WebRtcPacket> {
    match o
    case Some(u) => [u]
    case None => []
  }

  /** Feeds `ps` in order, starting from `s`. */
  function Run(s: Reassembly, ps: seq<RtpPacket>): Trace
    decreases |ps|
  {
    if ps == [] then Trace(s, [])
    else
      var before := Run(s, ps[..|ps| - 1]);
      var step := Feed(before.final, ps[|ps| - 1]);
      Trace(step.next, before.units + Emitted(step.emitted))
  }

  /** The number of packets in `ps` that carry the marker bit. */
  function MarkerCount(ps: seq<RtpPacket>): nat
    decreases |ps|
  {
    if ps == [] then 0
    else MarkerCount(ps[..|ps| - 1]) + (if ps[|ps| - 1].marker then 1 else 0)
  }

  /**
   * Over any run, every emitted unit is non-empty and begins with a start code, and at
   * most one unit is emitted per marker packet.
   */
  lemma {:induction false} RunWellFormed(s: Reassembly, ps: seq<RtpPacket>)
    requires AnnexBPrefixed(s.frameBuf)
    ensures AnnexBPrefixed(Run(s, ps).final.frameBuf)
    ensures forall u :: u in Run(s, ps).units ==> |u.data| >= 4 && u.data[..4] == StartCode
    ensures |Run(s, ps).units| <= MarkerCount(ps)
    decreases |ps|
  {
    if ps != [] {
      RunWellFormed(s, ps[..|ps| - 1]);
    }
  }

  /** Every packet of `ps` depacketized successfully. */
  predicate AllDepacketized(ps: seq<RtpPacket>) {
    forall i :: 0 <= i < |ps| ==> ps[i].depacketized.Some?
  }

  /** The payloads of a run of successfully depacketized packets, in order. */
  function Payloads(ps: seq<RtpPacket>): (r: seq<seq<byte>>)
    requires AllDepacketized(ps)
    ensures |r| == |ps|
    ensures forall i :: 0 <= i < |ps| ==> ps[i].depacketized == Some(r[i])
  {
    seq(|ps|, i requires 0 <= i < |ps| => ps[i].depacketized.value)
  }

  /** The Annex B byte stream of a sequence of NAL payloads: each one after a start code. */
  function AnnexB(payloads: seq<seq<byte>>): seq<byte>
    decreases |payloads|
  {
    if payloads == [] then []
    else AnnexB(payloads[..|payloads| - 1]) + StartCode + payloads[|payloads| - 1]
  }

  /** The packets of one access unit: all depacketize, and only the last has the marker. */
  predicate OneAccessUnit(ps: seq<RtpPacket>) {
    |ps| >= 1 && AllDepacketized(ps) &&
    forall i :: 0 <= i < |ps| ==> (ps[i].marker <==> i == |ps| - 1)
  }

  /** Successful packets without the marker accumulate their Annex B stream in the buffer. */
  lemma {:induction false} Accumulate(s: Reassembly, ps: seq<RtpPacket>)
    requires AllDepacketized(ps)
    requires forall i :: 0 <= i < |ps| ==> !ps[i].marker
    ensures Run(s, ps) ==
            Trace(Reassembly(s.frameBuf + AnnexB(Payloads(ps)),
                             if ps == [] then s.lastTimestamp else ps[|ps| - 1].timestamp),
                  [])
    decreases |ps|
  {
    if ps == [] {
      assert s.frameBuf + AnnexB(Payloads(ps)) == s.frameBuf;
    } else {
      var init := ps[..|ps| - 1];
      Accumulate(s, init);
      assert Payloads(ps)[..|ps| - 1] == Payloads(init);
      var last := ps[|ps| - 1].depacketized.value;
      assert AnnexB(Payloads(ps)) == AnnexB(Payloads(init)) + StartCode + last;
      assert s.frameBuf + AnnexB(Payloads(ps)) == s.frameBuf + AnnexB(Payloads(init)) + StartCode + last;
    }
  }

  /**
   * Round trip: the packets of one access unit yield exactly one unit, the buffer's earlier
   * contents followed by `(StartCode + p1) + ... + (StartCode + pn)`, tagged with the last
   * packet's timestamp, and leave the buffer empty.
   */
  lemma {:induction false} RoundTrip(s: Reassembly, ps: seq<RtpPacket>)
    requires OneAccessUnit(ps)
    ensures Run(s, ps) ==
            Trace(Reassembly([], ps[|ps| - 1].timestamp),
                  [WebRtcPacket(s.frameBuf + AnnexB(Payloads(ps)), ps[|ps| - 1].timestamp)])
  {
    var n := |ps|;
    var init := ps[..n - 1];
    Accumulate(s, init);
    assert Payloads(ps)[..n - 1] == Payloads(init);
    var last := ps[n - 1].depacketized.value;
    assert AnnexB(Payloads(ps)) == AnnexB(Payloads(init)) + StartCode + last;
    assert s.frameBuf + AnnexB(Payloads(ps)) == s.frameBuf + AnnexB(Payloads(init)) + StartCode + last;
  }

  /** Runs compose: feeding `a` then `b` is feeding `a + b`. */
  lemma {:induction false} RunAppend(s: Reassembly, a: seq<RtpPacket>, b: seq<RtpPacket>)
    ensures Run(s, a + b) ==
            Trace(Run(Run(s, a).final, b).final, Run(s, a).units + Run(Run(s, a).final, b).units)
    decreases |b|
  {
    if b == [] {
      assert a + b == a;
    } else {
      var b' := b[..|b| - 1];
      RunAppend(s, a, b');
      assert (a + b)[..|a + b| - 1] == a + b';
      assert (a + b)[|a + b| - 1] == b[|b| - 1];
    }
  }

  /** The packets of several access units, one after another. */
  function Flatten(groups: seq<seq<RtpPacket>>): seq<RtpPacket>
    decreases |groups|
  {
    if groups == [] then [] else Flatten(groups[..|groups| - 1]) + groups[|groups| - 1]
  }

  /** The units a stream of well-formed access units should reassemble into. */
  function ExpectedUnits(groups: seq<seq<RtpPacket>>): seq<WebRtcPacket>
    requires forall k :: 0 <= k < |groups| ==> OneAccessUnit(groups[k])
    decreases |groups|
  {
    if groups == [] then []
    else
      var g := groups[|groups| - 1];
      assert OneAccessUnit(g);
      ExpectedUnits(groups[..|groups| - 1]) + [WebRtcPacket(AnnexB(Payloads(g)), g[|g| - 1].timestamp)]
  }

  /**
   * Stream round trip: from an empty buffer, a stream of well-formed access units is
   * reassembled unit for unit, and the buffer is empty after each of them.
   */
  lemma {:induction false} StreamRoundTrip(s: Reassembly, groups: seq<seq<RtpPacket>>)
    requires s.frameBuf == []
    requires forall k :: 0 <= k < |groups| ==> OneAccessUnit(groups[k])
    ensures Run(s, Flatten(groups)).units == ExpectedUnits(groups)
    ensures Run(s, Flatten(groups)).final.frameBuf == []
    decreases |groups|
  {
    if groups != [] {
      var init := groups[..|groups| - 1];
      var g := groups[|groups| - 1];
      assert OneAccessUnit(g);
      StreamRoundTrip(s, init);
      var mid := Run(s, Flatten(init));
      RunAppend(s, Flatten(init), g);
      RoundTrip(mid.final, g);
      assert mid.final.frameBuf + AnnexB(Payloads(g)) == AnnexB(Payloads(g));
      assert Flatten(groups) == Flatten(init) + g;
    }
  }

  /**
   * `process_video_track`: reads packets until the track reports a read error (the end of
   * `packets`) and returns the units it sends to the video processor, in order.
   */
  method ProcessVideoTrack(packets: seq<RtpPacket>) returns (units: seq<WebRtcPacket>)
    ensures units == Run(Initial, packets).units
    ensures forall u :: u in units ==> |u.data| >= 4 && u.data[..4] == StartCode
    ensures |units| <= MarkerCount(packets)
  {
    var frameBuf: seq<byte> := [];
    var lastTimestamp: u32 := 0;
    units := [];
    var i := 0;
    while i < |packets|
      invariant 0 <= i <= |packets|
      invariant Run(Initial, packets[..i]) == Trace(Reassembly(frameBuf, lastTimestamp), units)
    {
      var packet := packets[i];
      assert packets[..i + 1][..i] == packets[..i];
      match packet.depacketized {
        case Some(payload) =>
          frameBuf := frameBuf + StartCode;
          frameBuf := frameBuf + payload;
          lastTimestamp := packet.timestamp;
        case None =>
      }
      if packet.marker {
        if frameBuf != [] {
          var rawPacket := WebRtcPacket(frameBuf, lastTimestamp);
          frameBuf := [];
          units := units + [rawPacket];
        }
      }
      i := i + 1;
    }
    assert packets[..|packets|] == packets;
    RunWellFormed(Initial, packets);
  }
}
