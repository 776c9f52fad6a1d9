/** The recording task's RTP clocks: 32-bit timestamp differences, fed to the segmenter, unwrap into
    its 64-bit positions. */
module RecordingClock {
  import opened Octets
  import opened Fragment
  import opened Segmenter

  const FIRST_AUDIO_TICKS: u32 := 960
  const FIRST_VIDEO_TICKS: u32 := 3_000

  /** The 32-bit timestamp carried by a packet whose true clock is `t`. */
  function Stamp(t: nat): u32 {
    t % 0x1_0000_0000
  }

  /** `wrapping_sub` */
  function WrappingSub(a: u32, b: u32): u32 {
    if a >= b then a - b else a - b + 0x1_0000_0000
  }

  /** A gap below 2^32 survives the wrap. */
  lemma GapIsExact(a: nat, b: nat)
    requires a <= b < a + 0x1_0000_0000
    ensures WrappingSub(Stamp(b), Stamp(a)) == b - a
  {
  }

  /** A true RTP clock never runs backwards and has no gap of 2^32 or more. */
  ghost predicate Clock(ts: seq<nat>) {
    forall k :: 0 < k < |ts| ==> ts[k - 1] <= ts[k] < ts[k - 1] + 0x1_0000_0000
  }

  /** Packets at which the clock stood still. */
  function StandStills(ts: seq<nat>): nat {
    if |ts| < 2 then 0
    else StandStills(ts[..|ts| - 1]) + if ts[|ts| - 1] == ts[|ts| - 2] then 1 else 0
  }

  lemma {:induction false} NoStandStill(ts: seq<nat>)
    ensures StandStills(ts) == 0 <==> forall k :: 0 < k < |ts| ==> ts[k] != ts[k - 1]
  {
    if |ts| >= 2 {
      var before := ts[..|ts| - 1];
      NoStandStill(before);
      assert forall k :: 0 < k < |before| ==> before[k] == ts[k];
    }
  }

  /** Where the audio position stands after these packets. */
  function AudioPosition(ts: seq<nat>): int {
    if ts == [] then 0 else FIRST_AUDIO_TICKS as int + ts[|ts| - 1] - ts[0]
  }

  /** Where the video position stands; a frame without progress counts 3000 ticks. */
  function VideoPosition(ts: seq<nat>): int {
    if ts == [] then 0 else 3_000 + ts[|ts| - 1] - ts[0] + 3_000 * StandStills(ts)
  }

  /** The audio branch of the task's loop. */
  method RecordAudio(segmenter: Segmenter, ts: seq<nat>, payloads: seq<seq<byte>>)
    requires segmenter.Valid() && Clock(ts) && |payloads| == |ts|
    modifies segmenter
    ensures segmenter.Valid()
    ensures segmenter.audio.currentPts
         == old(segmenter.audio.currentPts) + if ts == [] then 0 else 960 + ts[|ts| - 1] as int - ts[0]
    ensures |segmenter.audioHistory.accepted| == |old(segmenter.audioHistory.accepted)| + |ts|
  {
    hide Stored, VideoCounters, AudioCounters, Bounds;
    var prevTs: Option<u32> := None;
    var i := 0;
    while i < |ts|
      invariant 0 <= i <= |ts| && segmenter.Valid()
      invariant prevTs == if i == 0 then None else Some(Stamp(ts[i - 1]))
      invariant segmenter.audio.currentPts == old(segmenter.audio.currentPts) + AudioPosition(ts[..i])
      invariant |segmenter.audioHistory.accepted| == |old(segmenter.audioHistory.accepted)| + i
    {
      var pktTs := Stamp(ts[i]);
      var durationTicks := if prevTs.Some? then WrappingSub(pktTs, prevTs.value) else FIRST_AUDIO_TICKS;
      AudioStep(ts, i);
      prevTs := Some(pktTs);
      segmenter.PushOpus(payloads[i], durationTicks);
      i := i + 1;
    }
    assert ts[..i] == ts;
  }

  lemma AudioStep(ts: seq<nat>, i: nat)
    requires Clock(ts) && i < |ts|
    ensures AudioPosition(ts[..i + 1]) == AudioPosition(ts[..i])
         + if i == 0 then FIRST_AUDIO_TICKS else WrappingSub(Stamp(ts[i]), Stamp(ts[i - 1]))
  {
    if i > 0 {
      GapIsExact(ts[i - 1], ts[i]);
    }
  }

  lemma VideoStep(ts: seq<nat>, i: nat)
    requires Clock(ts) && i < |ts|
    ensures var ticks := if i == 0 then FIRST_VIDEO_TICKS else WrappingSub(Stamp(ts[i]), Stamp(ts[i - 1]));
            VideoPosition(ts[..i + 1]) == VideoPosition(ts[..i]) + if ticks == 0 then 3_000 else ticks
  {
    if i > 0 {
      GapIsExact(ts[i - 1], ts[i]);
      assert ts[..i + 1][..i] == ts[..i];
    }
  }

  predicate Ready(frame: Converted) {
    frame.configReady || frame.adapter.ready
  }

  /** The first frame at which the adapter is ready: from there on every frame is accepted. */
  function FirstReady(frames: seq<Converted>): (n: nat)
    ensures n <= |frames| && (forall k :: 0 <= k < n ==> !Ready(frames[k])) && (n < |frames| ==> Ready(frames[n]))
  {
    if frames == [] || Ready(frames[0]) then 0 else 1 + FirstReady(frames[1..])
  }

  /** What the segmenter has accepted in the epoch of this codec, and whether its track exists. */
  ghost function AcceptedOf(segmenter: Segmenter, codec: VideoCodec): seq<Sample>
    reads segmenter
  {
    if segmenter.video.codecKind == Some(codec) then segmenter.videoHistory.accepted else []
  }

  ghost predicate HasTrack(segmenter: Segmenter, codec: VideoCodec)
    reads segmenter
  {
    segmenter.video.codecKind == Some(codec) && segmenter.video.trackId.Some?
  }

  method RecordFrame(segmenter: Segmenter, codec: VideoCodec, frame: Converted, durationTicks: u32)
    requires segmenter.Valid()
    modifies segmenter
    ensures segmenter.Valid() && segmenter.video.codecKind == Some(codec)
    ensures HasTrack(segmenter, codec) <==> old(HasTrack(segmenter, codec)) || Ready(frame)
    ensures var before, after := old(AcceptedOf(segmenter, codec)), AcceptedOf(segmenter, codec);
            if HasTrack(segmenter, codec)
            then && |after| == |before| + 1
                 && TotalDuration(after) == TotalDuration(before) + if durationTicks == 0 then 3_000 else durationTicks
            else after == before
  {
    hide Stored, AudioCounters, VideoCounters, Bounds, Published, FilesOverEpochs, NoEmptySegments, TotalDuration;
    ghost var before := AcceptedOf(segmenter, codec);
    segmenter.PushVideoFrame(codec, frame, None, durationTicks);
    if HasTrack(segmenter, codec) {
      var dur: u32 := if durationTicks == 0 then 3_000 else durationTicks;
      ghost var sample := Sample(dur, frame.sync, frame.payload);
      assert AcceptedOf(segmenter, codec) == before + [sample];
      DurationSnoc(before, sample);
    }
  }

  /** The video branch, for frames of one codec. From the first accepted frame on, the segmenter's
      position follows the unwrapped clock, plus 3000 ticks for the first frame of all and for every
      frame without progress. */
  method RecordVideo(segmenter: Segmenter, codec: VideoCodec, ts: seq<nat>, frames: seq<Converted>)
    requires segmenter.Valid() && Clock(ts) && |frames| == |ts|
    modifies segmenter
    ensures segmenter.Valid()
    ensures var first := if old(HasTrack(segmenter, codec)) then 0 else FirstReady(frames);
            var before, after := old(AcceptedOf(segmenter, codec)), AcceptedOf(segmenter, codec);
            && |after| == |before| + |ts| - first
            && TotalDuration(after) == TotalDuration(before) + VideoPosition(ts) - VideoPosition(ts[..first])
            && (ts != [] ==> segmenter.video.codecKind == Some(codec) && segmenter.video.currentPts == TotalDuration(after))
  {
    hide Stored, AudioCounters, VideoCounters, Bounds, FirstReady, Ready, VideoPosition, Published, FilesOverEpochs,
         NoEmptySegments, TotalDuration, AcceptedOf, HasTrack;
    ghost var first := if HasTrack(segmenter, codec) then 0 else FirstReady(frames);
    ghost var base := AcceptedOf(segmenter, codec);
    var prevTs: Option<u32> := None;
    var i := 0;
    while i < |ts|
      invariant 0 <= i <= |ts| && segmenter.Valid()
      invariant prevTs == if i == 0 then None else Some(Stamp(ts[i - 1]))
      invariant i > 0 ==> segmenter.video.codecKind == Some(codec)
      invariant HasTrack(segmenter, codec) <==> first < i || old(HasTrack(segmenter, codec))
      invariant TotalDuration(AcceptedOf(segmenter, codec))
             == TotalDuration(base) + VideoPosition(ts[..i]) - VideoPosition(ts[..Earlier(first, i)])
      invariant |AcceptedOf(segmenter, codec)| == |base| + i - Earlier(first, i)
    {
      var pktTs := Stamp(ts[i]);
      var durationTicks := if prevTs.Some? then WrappingSub(pktTs, prevTs.value) else FIRST_VIDEO_TICKS;
      VideoStep(ts, i);
      prevTs := Some(pktTs);
      RecordFrame(segmenter, codec, frames[i], durationTicks);
      i := i + 1;
    }
    assert ts[..i] == ts;
    PositionIs(segmenter, codec);
  }

  lemma PositionIs(segmenter: Segmenter, codec: VideoCodec)
    requires segmenter.Valid()
    ensures segmenter.video.codecKind == Some(codec) ==> segmenter.video.currentPts == TotalDuration(AcceptedOf(segmenter, codec))
  {
    PositionIsAccepted(segmenter.video, segmenter.videoHistory);
  }

  function Earlier(first: nat, i: nat): nat {
    if first < i then first else i
  }

  /** The clock of the segmenter is the duration of what it has accepted. */
  lemma PositionIsAccepted(v: VideoState, h: History)
    requires VideoCounters(v, h)
    ensures v.currentPts == TotalDuration(h.accepted)
  {
    DurationsAddUp(h.closed, v.samples);
  }

  /** So the video position is 3000 + T_n - T_1 exactly when no two consecutive frames carry the same
      timestamp. */
  lemma VideoPositionExact(ts: seq<nat>)
    requires ts != []
    ensures VideoPosition(ts) == 3_000 + ts[|ts| - 1] as int - ts[0] <==> forall k :: 0 < k < |ts| ==> ts[k] != ts[k - 1]
  {
    NoStandStill(ts);
  }
}
