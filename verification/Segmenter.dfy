/** The recorder's segmenter: it buffers samples, closes segments, stores them as numbered fragment
    files and publishes a manifest whose timeline lists them (section 5.3.9.6 of ISO/IEC 23009-1). */
module Segmenter {
  import opened Octets
  import opened Fragment
  import InitSegment

  const DEFAULT_SEG_DURATION: nat := 10
  const VIDEO_TRACK_ID: u32 := 1
  const AUDIO_TRACK_ID: u32 := 2

  datatype SegmentInfo = SegmentInfo(startTime: nat, duration: nat)

  datatype Track = VideoTrack | AudioTrack

  function TrackId(t: Track): u32 {
    if t == VideoTrack then VIDEO_TRACK_ID else AUDIO_TRACK_ID
  }

  // ---- What has been stored ----

  datatype FileName = ManifestFile | InitFile(track: Track) | SegmentFile(track: Track, index: nat)
  datatype Timeline = Timeline(timescale: u32, entries: seq<SegmentInfo>)
  datatype Content = Bytes(data: seq<byte>) | Mpd(video: Option<Timeline>, audio: Option<Timeline>)
  datatype Write = Write(name: FileName, content: Content)

  /** What a file holds after these writes. */
  ghost function LastWrite(log: seq<Write>, name: FileName): Option<Content> {
    if log == [] then None
    else if log[|log| - 1].name == name then Some(log[|log| - 1].content)
    else LastWrite(log[..|log| - 1], name)
  }

  lemma LastWriteSnoc(log: seq<Write>, w: Write, name: FileName)
    ensures LastWrite(log + [w], name) == if w.name == name then Some(w.content) else LastWrite(log, name)
  {
    assert (log + [w])[..|log|] == log;
  }

  /** The file is fragment number `index` of the track, starts at the entry's time, and its samples
      last the entry's duration. */
  ghost predicate Describes(file: Option<Content>, track: Track, index: nat, entry: SegmentInfo) {
    exists samples: seq<Sample> ::
      && file == Some(Bytes(FragmentBytes(TrackId(track), index, entry.startTime, samples)))
      && TotalDuration(samples) == entry.duration
  }

  /** The k-th entry describes the file numbered k + 1 (`startNumber="1"`). */
  ghost predicate TimelineMatches(log: seq<Write>, track: Track, entries: seq<SegmentInfo>) {
    forall k :: 0 <= k < |entries| ==> Describes(LastWrite(log, SegmentFile(track, k + 1)), track, k + 1, entries[k])
  }

  ghost predicate ManifestAgrees(log: seq<Write>, m: Content) {
    && m.Mpd?
    && (m.video.Some? ==> TimelineMatches(log, VideoTrack, m.video.value.entries))
    && (m.audio.Some? ==> TimelineMatches(log, AudioTrack, m.audio.value.entries))
  }

  /** Every manifest ever written agreed with the files as they were at that moment. */
  ghost predicate ManifestsAgree(log: seq<Write>) {
    forall p :: 0 <= p < |log| && log[p].name == ManifestFile ==> ManifestAgrees(log[..p], log[p].content)
  }

  lemma ManifestsSnoc(log: seq<Write>, w: Write)
    requires ManifestsAgree(log) && (w.name == ManifestFile ==> ManifestAgrees(log, w.content))
    ensures ManifestsAgree(log + [w])
  {
    var log' := log + [w];
    forall p | 0 <= p < |log'| && log'[p].name == ManifestFile
      ensures ManifestAgrees(log'[..p], log'[p].content)
    {
      if p < |log| {
        assert log'[..p] == log[..p] && log'[p] == log[p];
      } else {
        assert log'[..p] == log;
      }
    }
  }

  /** In terms of the bytes: a described file of less than 4 GiB reads back with the entry's time as
      its decode time and the entry's duration as the sum of its sample durations. */
  lemma DescribedFileReads(data: seq<byte>, track: Track, index: u32, entry: SegmentInfo)
    requires Describes(Some(Bytes(data)), track, index, entry)
    requires |data| < 0x1_0000_0000 && entry.startTime < 0x1_0000_0000_0000_0000
    ensures var media := ParseFragment(data);
            && media.Some? && media.value.trackId == TrackId(track) && media.value.seqNumber == index
            && media.value.baseTime == entry.startTime
            && TotalDuration(media.value.samples) == entry.duration
  {
    var samples: seq<Sample> :| data == FragmentBytes(TrackId(track), index, entry.startTime, samples)
                                && TotalDuration(samples) == entry.duration;
    FragmentSize(TrackId(track), index, entry.startTime, samples);
    FragmentReadsBack(TrackId(track), index, entry.startTime, samples);
  }

  lemma FragmentSize(trackId: u32, index: nat, start: nat, samples: seq<Sample>)
    ensures |FragmentBytes(trackId, index, start, samples)| == 24 + MoofSize(|samples|) + 8 + TotalBytes(samples)
  {
  }

  function TimelineFor(m: Content, track: Track): seq<SegmentInfo>
    requires m.Mpd?
  {
    var t := if track == VideoTrack then m.video else m.audio;
    if t.Some? then t.value.entries else []
  }

  /** The promise of the manifest: at the moment any manifest was written, the file numbered k + 1
      existed for its k-th entry, and if it has less than 4 GiB, a reader finds in it exactly the
      time and the duration that the entry announces. */
  lemma PublishedEntryReads(log: seq<Write>, p: nat, track: Track, k: nat)
    requires ManifestsAgree(log) && p < |log| && log[p].name == ManifestFile
    requires log[p].content.Mpd? && k < |TimelineFor(log[p].content, track)| && k + 1 < 0x1_0000_0000
    ensures var file := LastWrite(log[..p], SegmentFile(track, k + 1));
            var entry := TimelineFor(log[p].content, track)[k];
            && file.Some? && file.value.Bytes?
            && (|file.value.data| < 0x1_0000_0000 && entry.startTime < 0x1_0000_0000_0000_0000 ==>
                  var media := ParseFragment(file.value.data);
                  && media.Some? && media.value.trackId == (if track == VideoTrack then 1 else 2) && media.value.seqNumber == k + 1
                  && media.value.baseTime == entry.startTime
                  && TotalDuration(media.value.samples) == entry.duration)
  {
    hide FragmentBytes, ParseFragment, TotalDuration, LastWrite;
    assert ManifestAgrees(log[..p], log[p].content);
    var file := LastWrite(log[..p], SegmentFile(track, k + 1));
    var entry := TimelineFor(log[p].content, track)[k];
    assert Describes(file, track, k + 1, entry);
    if |file.value.data| < 0x1_0000_0000 && entry.startTime < 0x1_0000_0000_0000_0000 {
      DescribedFileReads(file.value.data, track, k + 1, entry);
    }
  }

  // ---- Closed segments ----

  /** The samples of a stored segment, and whether `flush` closed it. */
  datatype Closed = Closed(samples: seq<Sample>, forced: bool)

  function EndOf(closed: seq<Closed>): (r: nat)
    ensures closed == [] ==> r == 0
  {
    if closed == [] then 0 else EndOf(closed[..|closed| - 1]) + TotalDuration(closed[|closed| - 1].samples)
  }

  function Joined(closed: seq<Closed>): (r: seq<Sample>)
    ensures closed == [] ==> r == []
  {
    if closed == [] then [] else Joined(closed[..|closed| - 1]) + closed[|closed| - 1].samples
  }

  /** The segments are contiguous from 0. */
  function TimelineOf(closed: seq<Closed>): (r: seq<SegmentInfo>)
    ensures |r| == |closed|
  {
    if closed == [] then []
    else
      var before := closed[..|closed| - 1];
      TimelineOf(before) + [SegmentInfo(EndOf(before), TotalDuration(closed[|closed| - 1].samples))]
  }

  lemma ClosedSnoc(closed: seq<Closed>, c: Closed)
    ensures EndOf(closed + [c]) == EndOf(closed) + TotalDuration(c.samples)
    ensures Joined(closed + [c]) == Joined(closed) + c.samples
    ensures TimelineOf(closed + [c]) == TimelineOf(closed) + [SegmentInfo(EndOf(closed), TotalDuration(c.samples))]
  {
    assert (closed + [c])[..|closed|] == closed;
  }

  lemma {:induction false} TimelineAt(closed: seq<Closed>, k: nat)
    requires k < |closed|
    ensures TimelineOf(closed)[k] == SegmentInfo(EndOf(closed[..k]), TotalDuration(closed[k].samples))
    decreases |closed|
  {
    if k < |closed| - 1 {
      var before := closed[..|closed| - 1];
      TimelineAt(before, k);
      assert before[..k] == closed[..k];
    }
  }

  /** Timelines start at 0 and have neither gap nor overlap. */
  lemma TimelineIsContiguous(closed: seq<Closed>, k: nat)
    requires k < |closed|
    ensures var t := TimelineOf(closed);
            t[k].startTime == if k == 0 then 0 else t[k - 1].startTime + t[k - 1].duration
  {
    TimelineAt(closed, k);
    if k == 0 {
      assert closed[..0] == [];
    } else {
      TimelineAt(closed, k - 1);
      assert closed[..k][..k - 1] == closed[..k - 1];
    }
  }

  lemma {:induction false} DurationSnoc(samples: seq<Sample>, s: Sample)
    ensures TotalDuration(samples + [s]) == TotalDuration(samples) + s.duration
  {
    if samples == [] {
      assert samples + [s] == [s];
    } else {
      assert (samples + [s])[1..] == samples[1..] + [s];
      DurationSnoc(samples[1..], s);
    }
  }

  /** File k + 1 is the fragment of the k-th closed segment. */
  ghost predicate FilesHold(log: seq<Write>, track: Track, closed: seq<Closed>) {
    forall k :: 0 <= k < |closed| ==>
      LastWrite(log, SegmentFile(track, k + 1))
      == Some(Bytes(FragmentBytes(TrackId(track), k + 1, EndOf(closed[..k]), closed[k].samples)))
  }

  lemma FilesUntouched(log: seq<Write>, w: Write, track: Track, closed: seq<Closed>)
    requires FilesHold(log, track, closed)
    requires w.name.SegmentFile? && w.name.track == track ==> w.name.index > |closed|
    ensures FilesHold(log + [w], track, closed)
  {
    forall k | 0 <= k < |closed|
      ensures LastWrite(log + [w], SegmentFile(track, k + 1))
           == Some(Bytes(FragmentBytes(TrackId(track), k + 1, EndOf(closed[..k]), closed[k].samples)))
    {
      LastWriteSnoc(log, w, SegmentFile(track, k + 1));
    }
  }

  lemma NoFiles(log: seq<Write>, track: Track)
    ensures FilesHold(log, track, [])
  {
  }

  lemma FilesSnoc(log: seq<Write>, track: Track, closed: seq<Closed>, c: Closed)
    requires FilesHold(log, track, closed)
    ensures var data := FragmentBytes(TrackId(track), |closed| + 1, EndOf(closed), c.samples);
            FilesHold(log + [Write(SegmentFile(track, |closed| + 1), Bytes(data))], track, closed + [c])
  {
    hide FragmentBytes, EndOf, LastWrite;
    var data := FragmentBytes(TrackId(track), |closed| + 1, EndOf(closed), c.samples);
    var w := Write(SegmentFile(track, |closed| + 1), Bytes(data));
    FilesUntouched(log, w, track, closed);
    LastWriteSnoc(log, w, w.name);
    var closed' := closed + [c];
    forall k | 0 <= k < |closed'|
      ensures LastWrite(log + [w], SegmentFile(track, k + 1))
           == Some(Bytes(FragmentBytes(TrackId(track), k + 1, EndOf(closed'[..k]), closed'[k].samples)))
    {
      assert closed'[..k] == closed[..k];
    }
  }

  lemma FilesMatch(log: seq<Write>, track: Track, closed: seq<Closed>)
    requires FilesHold(log, track, closed)
    ensures TimelineMatches(log, track, TimelineOf(closed))
  {
    forall k | 0 <= k < |closed|
      ensures Describes(LastWrite(log, SegmentFile(track, k + 1)), track, k + 1, TimelineOf(closed)[k])
    {
      TimelineAt(closed, k);
    }
  }

  function OtherTrack(t: Track): Track {
    if t == VideoTrack then AudioTrack else VideoTrack
  }

  /** A write that is no segment leaves every closed segment's file in place. */
  lemma Undisturbed(log: seq<Write>, w: Write, video: seq<Closed>, audio: seq<Closed>)
    requires FilesHold(log, VideoTrack, video) && FilesHold(log, AudioTrack, audio) && ManifestsAgree(log)
    requires !w.name.SegmentFile? && (w.name == ManifestFile ==> ManifestAgrees(log, w.content))
    ensures FilesHold(log + [w], VideoTrack, video) && FilesHold(log + [w], AudioTrack, audio)
    ensures ManifestsAgree(log + [w])
  {
    hide FilesHold, ManifestsAgree;
    FilesUntouched(log, w, VideoTrack, video);
    FilesUntouched(log, w, AudioTrack, audio);
    ManifestsSnoc(log, w);
  }

  /** A segment closed by a push lasts at least the target, and the segment behind it, closed or still
      open, starts on a sync sample; and no segment goes on past a sync sample that came once the
      target was reached. */
  ghost predicate VideoBounds(closed: seq<Closed>, open: seq<Sample>, target: nat) {
    && (forall k :: 0 <= k < |closed| ==> SegmentBound(closed[k], Following(closed, open, k), target))
    && ClosedInTime(open, target)
  }

  /** Every sync sample but the first comes before the target is reached. */
  ghost predicate ClosedInTime(samples: seq<Sample>, target: nat) {
    forall i :: 0 < i < |samples| && samples[i].isSync ==> TotalDuration(samples[..i]) < target
  }

  lemma InTimeSnoc(samples: seq<Sample>, s: Sample, target: nat)
    requires ClosedInTime(samples, target) && (samples != [] && s.isSync ==> TotalDuration(samples) < target)
    ensures ClosedInTime(samples + [s], target)
  {
    hide TotalDuration;
    var more := samples + [s];
    forall i | 0 < i < |more| && more[i].isSync
      ensures TotalDuration(more[..i]) < target
    {
      assert more[..i] == samples[..i];
      if i == |samples| {
        assert samples[..i] == samples;
      }
    }
  }

  lemma EmptyInTime(target: nat)
    ensures ClosedInTime([], target)
  {
  }

  function Following(closed: seq<Closed>, open: seq<Sample>, k: nat): seq<Sample> {
    if k + 1 < |closed| then closed[k + 1].samples else open
  }

  ghost predicate SegmentBound(c: Closed, next: seq<Sample>, target: nat) {
    && c.samples != [] && ClosedInTime(c.samples, target)
    && (!c.forced ==> TotalDuration(c.samples) >= target && next != [] && next[0].isSync)
  }

  lemma VideoBoundsGrow(closed: seq<Closed>, open: seq<Sample>, target: nat, s: Sample)
    requires VideoBounds(closed, open, target) && (open != [] && s.isSync ==> TotalDuration(open) < target)
    ensures (open != [] || s.isSync || closed == [] || closed[|closed| - 1].forced) ==> VideoBounds(closed, open + [s], target)
  {
    InTimeSnoc(open, s, target);
    hide TotalDuration, ClosedInTime;
    if open != [] || s.isSync || closed == [] || closed[|closed| - 1].forced {
      forall k | 0 <= k < |closed|
        ensures SegmentBound(closed[k], Following(closed, open + [s], k), target)
      {
        assert SegmentBound(closed[k], Following(closed, open, k), target);
      }
    }
  }

  /** Closing the open segment: unforced only if it is long enough and a sync sample follows. */
  lemma VideoBoundsClose(closed: seq<Closed>, open: seq<Sample>, target: nat, forced: bool, next: seq<Sample>)
    requires VideoBounds(closed, open, target) && open != []
    requires !forced ==> TotalDuration(open) >= target && next != [] && next[0].isSync
    requires ClosedInTime(next, target)
    ensures VideoBounds(closed + [Closed(open, forced)], next, target)
  {
    hide TotalDuration, ClosedInTime;
    var closed' := closed + [Closed(open, forced)];
    forall k | 0 <= k < |closed'|
      ensures SegmentBound(closed'[k], Following(closed', next, k), target)
    {
      if k < |closed| {
        assert SegmentBound(closed[k], Following(closed, open, k), target);
        assert Following(closed', next, k) == Following(closed, open, k);
      }
    }
  }

  /** One frame: the open segment grows, or is closed and the frame starts the next one. */
  lemma VideoBoundsPush(closed: seq<Closed>, open: seq<Sample>, target: nat, rolled: bool, s: Sample)
    requires VideoBounds(closed, open, target)
    requires rolled ==> open != [] && s.isSync && TotalDuration(open) >= target
    requires !rolled && open != [] && s.isSync ==> TotalDuration(open) < target
    ensures VideoBounds(if rolled then closed + [Closed(open, false)] else closed,
                        (if rolled then [] else open) + [s], target)
  {
    EmptyInTime(target);
    InTimeSnoc([], s, target);
    hide TotalDuration, ClosedInTime;
    if rolled {
      assert [] + [s] == [s];
      VideoBoundsClose(closed, open, target, false, [s]);
    } else {
      if closed != [] {
        assert SegmentBound(closed[|closed| - 1], Following(closed, open, |closed| - 1), target);
      }
      VideoBoundsGrow(closed, open, target, s);
    }
  }

  lemma {:induction false} DurationsAddUp(closed: seq<Closed>, open: seq<Sample>)
    ensures TotalDuration(Joined(closed) + open) == EndOf(closed) + TotalDuration(open)
    decreases |closed|
  {
    if closed == [] {
      assert [] + open == open;
    } else {
      var before, last := closed[..|closed| - 1], closed[|closed| - 1].samples;
      assert Joined(closed) + open == Joined(before) + (last + open);
      DurationsAddUp(before, last + open);
      DurationConcat(last, open);
    }
  }

  lemma {:induction false} DurationConcat(a: seq<Sample>, b: seq<Sample>)
    ensures TotalDuration(a + b) == TotalDuration(a) + TotalDuration(b)
  {
    if a == [] {
      assert a + b == b;
    } else {
      assert (a + b)[1..] == a[1..] + b;
      DurationConcat(a[1..], b);
    }
  }

  /** An unforced audio segment lasts at least the target and less than the target plus its last sample. */
  ghost predicate AudioBounds(closed: seq<Closed>, target: nat) {
    forall k :: 0 <= k < |closed| ==>
      && closed[k].samples != []
      && (!closed[k].forced ==>
            target <= TotalDuration(closed[k].samples)
                   < target + closed[k].samples[|closed[k].samples| - 1].duration)
  }

  lemma NoAudioYet(target: nat)
    ensures AudioBounds([], target)
  {
  }

  /** One more sample on a buffer that was below the target: if the target is reached, the segment
      that is closed now respects its bounds. */
  lemma AudioBoundsPush(closed: seq<Closed>, open: seq<Sample>, target: nat, s: Sample)
    requires AudioBounds(closed, target) && TotalDuration(open) < target
    ensures TotalDuration(open + [s]) >= target ==> AudioBounds(closed + [Closed(open + [s], false)], target)
  {
    DurationSnoc(open, s);
    hide TotalDuration;
  }

  lemma AudioBoundsFlush(closed: seq<Closed>, open: seq<Sample>, target: nat)
    requires AudioBounds(closed, target) && open != []
    ensures AudioBounds(closed + [Closed(open, true)], target)
  {
    hide TotalDuration;
  }

  // ---- What codec changes cost ----

  /** A finished codec epoch: the segments it closed, and the samples still buffered when it ended. */
  datatype Epoch = Epoch(closed: seq<Closed>, open: seq<Sample>)

  function AcceptedIn(e: Epoch): seq<Sample> {
    Joined(e.closed) + e.open
  }

  /** All samples accepted in these epochs, in order. */
  function AcceptedOver(epochs: seq<Epoch>): seq<Sample> {
    if epochs == [] then [] else AcceptedOver(epochs[..|epochs| - 1]) + AcceptedIn(epochs[|epochs| - 1])
  }

  /** The highest segment number used in these epochs and in the current one. */
  function Reach(later: seq<Epoch>, closed: seq<Closed>): (n: nat)
    ensures n >= |closed|
  {
    if later == [] then |closed|
    else
      var n := Reach(later[1..], closed);
      if |later[0].closed| > n then |later[0].closed| else n
  }

  /** How many segments of the first epoch have had their numbers reused. */
  function Reused(epochs: seq<Epoch>, closed: seq<Closed>): (n: nat)
    requires epochs != []
    ensures n <= |epochs[0].closed|
  {
    var n := Reach(epochs[1..], closed);
    if |epochs[0].closed| < n then |epochs[0].closed| else n
  }

  /** The accepted samples that no file holds any more: of each finished epoch, the segments whose numbers were
      reused, and the buffer it ended with. */
  function Lost(epochs: seq<Epoch>, closed: seq<Closed>): seq<Sample> {
    if epochs == [] then []
    else Joined(epochs[0].closed[..Reused(epochs, closed)]) + epochs[0].open + Lost(epochs[1..], closed)
  }

  /** The accepted samples that are still in a file or buffered: the segments not overwritten, and the current buffer. */
  function Kept(epochs: seq<Epoch>, closed: seq<Closed>, open: seq<Sample>): seq<Sample> {
    if epochs == [] then Joined(closed) + open
    else Joined(epochs[0].closed[Reused(epochs, closed)..]) + Kept(epochs[1..], closed, open)
  }

  /** Whose segment the video file numbered k + 1 holds: the current epoch's if it got that far, else
      that of the last epoch that did. */
  function OwnerOf(epochs: seq<Epoch>, closed: seq<Closed>, k: nat): (owner: Option<seq<Closed>>)
    ensures owner.Some? ==> k < |owner.value|
  {
    if k < |closed| then Some(closed)
    else if epochs == [] then None
    else OwnerOf(epochs[..|epochs| - 1], epochs[|epochs| - 1].closed, k)
  }

  function FileOf(owner: Option<seq<Closed>>, k: nat): Option<Content>
    requires owner.Some? ==> k < |owner.value|
  {
    match owner
    case None => None
    case Some(c) => Some(Bytes(FragmentBytes(TrackId(VideoTrack), k + 1, EndOf(c[..k]), c[k].samples)))
  }

  /** The video files, all epochs considered. */
  ghost predicate FilesOverEpochs(log: seq<Write>, epochs: seq<Epoch>, closed: seq<Closed>) {
    forall k: nat :: LastWrite(log, SegmentFile(VideoTrack, k + 1)) == FileOf(OwnerOf(epochs, closed, k), k)
  }

  lemma NoFilesYet()
    ensures FilesOverEpochs([], [], [])
  {
  }

  lemma EpochJoins(epochs: seq<Epoch>, e: Epoch)
    ensures AcceptedOver(epochs + [e]) + [] == AcceptedOver(epochs) + (Joined(e.closed) + e.open)
  {
    hide Joined;
    assert (epochs + [e])[..|epochs|] == epochs;
  }

  lemma SegmentsStayFull(epochs: seq<Epoch>, closed: seq<Closed>, open: seq<Sample>, target: nat)
    requires NoEmptySegments(epochs) && VideoBounds(closed, open, target)
    ensures NoEmptySegments(epochs + [Epoch(closed, open)])
  {
    hide TotalDuration;
    assert forall k :: 0 <= k < |closed| ==> SegmentBound(closed[k], Following(closed, open, k), target);
  }

  /** A finished epoch takes its segments along. */
  lemma EpochEnds(log: seq<Write>, epochs: seq<Epoch>, closed: seq<Closed>, open: seq<Sample>)
    requires FilesOverEpochs(log, epochs, closed)
    ensures FilesOverEpochs(log, epochs + [Epoch(closed, open)], [])
  {
    hide LastWrite, FileOf;
    var epochs' := epochs + [Epoch(closed, open)];
    assert epochs'[..|epochs|] == epochs;
    forall k: nat
      ensures OwnerOf(epochs', [], k) == OwnerOf(epochs, closed, k)
    {
    }
  }

  lemma EpochsSnoc(log: seq<Write>, epochs: seq<Epoch>, closed: seq<Closed>, c: Closed)
    requires FilesOverEpochs(log, epochs, closed)
    ensures var data := FragmentBytes(TrackId(VideoTrack), |closed| + 1, EndOf(closed), c.samples);
            FilesOverEpochs(log + [Write(SegmentFile(VideoTrack, |closed| + 1), Bytes(data))], epochs, closed + [c])
  {
    hide FragmentBytes, EndOf, LastWrite;
    var data := FragmentBytes(TrackId(VideoTrack), |closed| + 1, EndOf(closed), c.samples);
    var w := Write(SegmentFile(VideoTrack, |closed| + 1), Bytes(data));
    var closed' := closed + [c];
    forall k: nat
      ensures LastWrite(log + [w], SegmentFile(VideoTrack, k + 1)) == FileOf(OwnerOf(epochs, closed', k), k)
    {
      LastWriteSnoc(log, w, SegmentFile(VideoTrack, k + 1));
      assert LastWrite(log, SegmentFile(VideoTrack, k + 1)) == FileOf(OwnerOf(epochs, closed, k), k);
      if k < |closed| {
        assert closed'[..k] == closed[..k] && closed'[k] == closed[k];
      } else if k == |closed| {
        assert closed'[..k] == closed && closed'[k] == c;
      } else {
        assert OwnerOf(epochs, closed', k) == OwnerOf(epochs, closed, k);
      }
    }
  }

  lemma EpochsUntouched(log: seq<Write>, w: Write, epochs: seq<Epoch>, closed: seq<Closed>)
    requires FilesOverEpochs(log, epochs, closed)
    requires w.name.SegmentFile? ==> w.name.track != VideoTrack
    ensures FilesOverEpochs(log + [w], epochs, closed)
  {
    hide LastWrite, FileOf, OwnerOf;
    forall k: nat
      ensures LastWrite(log + [w], SegmentFile(VideoTrack, k + 1)) == FileOf(OwnerOf(epochs, closed, k), k)
    {
      LastWriteSnoc(log, w, SegmentFile(VideoTrack, k + 1));
    }
  }

  /** A segment number used in `later` epochs, or now, is owned there; otherwise by the epoch itself. */
  lemma {:induction false} OwnerAfter(before: seq<Epoch>, e: Epoch, later: seq<Epoch>, closed: seq<Closed>, k: nat)
    requires k < |e.closed|
    ensures k < Reach(later, closed) ==> OwnerOf(before + [e] + later, closed, k) == OwnerOf(later, closed, k) != None
    ensures k >= Reach(later, closed) ==> OwnerOf(before + [e] + later, closed, k) == Some(e.closed)
    decreases |later|
  {
    var all := before + [e] + later;
    if later == [] {
      assert all[..|all| - 1] == before && all[|all| - 1] == e;
    } else {
      var n := |later| - 1;
      var last := later[n];
      assert all[..|all| - 1] == before + [e] + later[..n] && all[|all| - 1] == last;
      ReachSnoc(later, closed);
      OwnerAfter(before, e, later[..n], last.closed, k);
    }
  }

  lemma {:induction false} ReachSnoc(later: seq<Epoch>, closed: seq<Closed>)
    requires later != []
    ensures var n := Reach(later[..|later| - 1], later[|later| - 1].closed);
            Reach(later, closed) == if n > |closed| then n else |closed|
  {
    if |later| > 1 {
      ReachSnoc(later[1..], closed);
      assert later[1..][..|later| - 2] == later[..|later| - 1][1..];
    } else {
      assert later[..0] == [] && later[1..] == [];
    }
  }

  /** So a stored segment of a finished epoch is in its file exactly as long as no later epoch has
      closed a segment of that number. */
  lemma StoredUntilReused(log: seq<Write>, before: seq<Epoch>, e: Epoch, later: seq<Epoch>, closed: seq<Closed>, k: nat)
    requires FilesOverEpochs(log, before + [e] + later, closed) && k < |e.closed|
    ensures var file := LastWrite(log, SegmentFile(VideoTrack, k + 1));
            if k < Reach(later, closed) then file == FileOf(OwnerOf(later, closed, k), k) != None
            else file == FileOf(Some(e.closed), k)
  {
    hide LastWrite, FragmentBytes;
    OwnerAfter(before, e, later, closed, k);
    assert LastWrite(log, SegmentFile(VideoTrack, k + 1)) == FileOf(OwnerOf(before + [e] + later, closed, k), k);
  }

  lemma {:induction false} JoinedConcat(a: seq<Closed>, b: seq<Closed>)
    ensures Joined(a + b) == Joined(a) + Joined(b)
    decreases |b|
  {
    if b == [] {
      assert a + b == a;
    } else {
      assert (a + b)[..|a + b| - 1] == a + b[..|b| - 1];
      JoinedConcat(a, b[..|b| - 1]);
    }
  }

  /** Each finished epoch's samples are its overwritten segments, then those still stored, then the
      buffer that was dropped. */
  lemma EpochSplits(epochs: seq<Epoch>, closed: seq<Closed>)
    requires epochs != []
    ensures var e, n := epochs[0], Reused(epochs, closed);
            AcceptedIn(e) == Joined(e.closed[..n]) + Joined(e.closed[n..]) + e.open
  {
    var e, n := epochs[0], Reused(epochs, closed);
    JoinedConcat(e.closed[..n], e.closed[n..]);
    assert e.closed[..n] + e.closed[n..] == e.closed;
  }

  lemma {:induction false} AcceptedCons(epochs: seq<Epoch>)
    requires epochs != []
    ensures AcceptedOver(epochs) == AcceptedIn(epochs[0]) + AcceptedOver(epochs[1..])
  {
    hide AcceptedIn;
    var n := |epochs| - 1;
    var front, last := epochs[..n], epochs[n];
    assert epochs == front + [last];
    AcceptedSnoc(front, last);
    if n == 0 {
      assert front == [] && epochs[1..] == [];
    } else {
      AcceptedCons(front);
      AcceptedSnoc(front[1..], last);
      assert epochs[1..] == front[1..] + [last] && front[0] == epochs[0];
    }
  }

  lemma AcceptedSnoc(epochs: seq<Epoch>, e: Epoch)
    ensures AcceptedOver([]) == [] && AcceptedOver(epochs + [e]) == AcceptedOver(epochs) + AcceptedIn(e)
  {
    hide AcceptedIn;
    assert (epochs + [e])[..|epochs|] == epochs;
  }

  lemma FourParts(gone: seq<Sample>, stored: seq<Sample>, dropped: seq<Sample>, later: seq<Sample>, now: seq<Sample>,
                  kept: seq<Sample>, lost: seq<Sample>)
    requires |later| + |now| == |kept| + |lost| && (lost == [] ==> later + now == kept)
    ensures |gone + stored + dropped + later| + |now| == |stored + kept| + |gone + dropped + lost|
    ensures gone + dropped + lost == [] ==> gone + stored + dropped + later + now == stored + kept
  {
    if gone + dropped + lost == [] {
      assert gone == [] && dropped == [] && lost == [] by {
        assert |gone + dropped + lost| == |gone| + |dropped| + |lost|;
      }
      assert gone + stored + dropped + later + now == stored + (later + now);
    }
  }

  /** Conservation: every accepted sample is kept or lost. */
  lemma {:induction false} KeptOrLost(epochs: seq<Epoch>, closed: seq<Closed>, open: seq<Sample>)
    ensures |AcceptedOver(epochs)| + |Joined(closed) + open| == |Kept(epochs, closed, open)| + |Lost(epochs, closed)|
    ensures Lost(epochs, closed) == [] ==> AcceptedOver(epochs) + (Joined(closed) + open) == Kept(epochs, closed, open)
  {
    if epochs != [] {
      hide Joined, Reach, AcceptedOver, AcceptedIn, Reused;
      AcceptedCons(epochs);
      EpochSplits(epochs, closed);
      KeptOrLost(epochs[1..], closed, open);
      var n := Reused(epochs, closed);
      FourParts(Joined(epochs[0].closed[..n]), Joined(epochs[0].closed[n..]), epochs[0].open, AcceptedOver(epochs[1..]),
                Joined(closed) + open, Kept(epochs[1..], closed, open), Lost(epochs[1..], closed));
      hide Kept, Lost;
    }
  }

  ghost predicate NoEmptySegments(epochs: seq<Epoch>) {
    forall e :: 0 <= e < |epochs| ==> forall k :: 0 <= k < |epochs[e].closed| ==> epochs[e].closed[k].samples != []
  }

  /** An epoch that left nothing to lose: no buffer, and no segment if any later epoch closed one. */
  predicate EndedCleanly(epochs: seq<Epoch>, closed: seq<Closed>, e: nat)
    requires e < |epochs|
  {
    epochs[e].open == [] && (epochs[e].closed == [] || Reach(epochs[e + 1..], closed) == 0)
  }

  /** What a player finds that follows the current manifest: its video timeline lists these segments
      and no others, each file of the listed numbers is the segment's fragment, and the
      initialisation file is the writer's. */
  ghost predicate Plays(log: seq<Write>, closed: seq<Closed>, timescale: u32, writer: InitSegment.Writer) {
    var manifest := LastWrite(log, ManifestFile);
    && manifest.Some? && manifest.value.Mpd? && manifest.value.video == Some(Timeline(timescale, TimelineOf(closed)))
    && FilesHold(log, VideoTrack, closed)
    && LastWrite(log, InitFile(VideoTrack)) == Some(Bytes(InitSegment.InitBytes(writer)))
  }

  lemma {:induction false} NothingBefore(epochs: seq<Epoch>)
    ensures AcceptedOver(epochs) == [] <==> forall e :: 0 <= e < |epochs| ==> AcceptedIn(epochs[e]) == []
  {
    hide AcceptedIn;
    if epochs != [] {
      var before := epochs[..|epochs| - 1];
      NothingBefore(before);
      assert forall e :: 0 <= e < |before| ==> before[e] == epochs[e];
    }
  }

  lemma AppendedIsSame(a: seq<Sample>, b: seq<Sample>)
    ensures a + b == b <==> a == []
  {
    assert |a + b| == |a| + |b|;
    assert [] + b == b;
  }

  /** No accepted sample has left the files and the buffer exactly if every epoch ended cleanly. */
  lemma {:induction false} NothingLostExactly(epochs: seq<Epoch>, closed: seq<Closed>)
    requires NoEmptySegments(epochs)
    ensures Lost(epochs, closed) == [] <==> forall e :: 0 <= e < |epochs| ==> EndedCleanly(epochs, closed, e)
  {
    if epochs != [] {
      var rest := epochs[1..];
      forall e | 0 <= e < |rest|
        ensures EndedCleanly(rest, closed, e) == EndedCleanly(epochs, closed, e + 1)
      {
        assert rest[e + 1..] == epochs[e + 2..];
      }
      NothingLostExactly(rest, closed);
      FirstLost(epochs, closed);
      hide Reach, Joined, EndedCleanly, Lost, Reused;
      if forall e :: 0 <= e < |rest| ==> EndedCleanly(rest, closed, e) {
        forall e | 1 <= e < |epochs|
          ensures EndedCleanly(epochs, closed, e)
        {
          assert EndedCleanly(rest, closed, e - 1);
        }
      }
    }
  }

  lemma FirstLost(epochs: seq<Epoch>, closed: seq<Closed>)
    requires epochs != [] && NoEmptySegments(epochs)
    ensures Lost(epochs, closed) == [] <==> EndedCleanly(epochs, closed, 0) && Lost(epochs[1..], closed) == []
  {
    var n := Reused(epochs, closed);
    if n > 0 {
      var first := epochs[0].closed[..n];
      assert Joined(first) == Joined(first[..n - 1]) + first[n - 1].samples;
      assert first[n - 1].samples == epochs[0].closed[n - 1].samples != [];
    }
  }

  // ---- The codec adapter, as far as it answers the segmenter ----

  datatype VideoCodec = H264 | H265 | Vp9 | Av1

  datatype AdapterView = AdapterView(timescale: u32, ready: bool, width: u32, height: u32, codecString: Option<string>,
                                     codecConfig: Option<seq<seq<byte>>>, vp: InitSegment.VpFields)

  /** The result of `convert_frame`, and the adapter afterwards. */
  datatype Converted = Converted(payload: seq<byte>, sync: bool, configReady: bool, adapter: AdapterView)

  /** Behind position `i` there is no slash, and before it there is one or nothing. */
  predicate SlashEnds(s: string, i: nat) {
    i <= |s| && (i > 0 ==> s[i - 1] == '/') && '/' !in s[i..]
  }

  ghost predicate Normalizes(codec: string, normalized: string) {
    exists i: nat :: SlashEnds(codec, i) && normalized == InitSegment.ToLower(codec[i..])
  }

  /** A size of 0 is unknown. */
  function FirstKnown(size: u32, otherwise: u32): u32 {
    if size > 0 then size else otherwise
  }

  lemma SizesKnown(size: u32, known: u32, fallback: u32)
    requires fallback > 0
    ensures var n := FirstKnown(size, FirstKnown(known, fallback));
            && n > 0 && (size > 0 ==> n == size) && (size == 0 && known > 0 ==> n == known)
            && (size == 0 && known == 0 ==> n == fallback)
  {
  }

  /** Only AVC, AV1 and HEVC sample entries take the adapter's configuration. */
  function ConfigFor(codec: string, adapter: AdapterView): seq<seq<byte>> {
    var lower := InitSegment.ToLower(codec);
    if ("avc1" <= lower || "av01" <= lower || "hev1" <= lower || "hvc1" <= lower) && adapter.codecConfig.Some?
    then adapter.codecConfig.value else []
  }

  /** Whose configuration goes into the initialisation segment, by the codec string alone. */
  lemma ConfigIsTaken(codec: string, adapter: AdapterView)
    ensures adapter.codecConfig.Some?
            && (InitSegment.StartsWith(codec, "avc1") || InitSegment.StartsWith(codec, "av01")
                || InitSegment.StartsWith(codec, "hev1") || InitSegment.StartsWith(codec, "hvc1")) ==>
              ConfigFor(codec, adapter) == adapter.codecConfig.value
    ensures !(InitSegment.StartsWith(codec, "avc1") || InitSegment.StartsWith(codec, "av01")
              || InitSegment.StartsWith(codec, "hev1") || InitSegment.StartsWith(codec, "hvc1")) ==>
              ConfigFor(codec, adapter) == []
    ensures adapter.codecConfig == None ==> ConfigFor(codec, adapter) == []
  {
    InitSegment.StartIsPrefix(codec, "avc1");
    InitSegment.StartIsPrefix(codec, "av01");
    InitSegment.StartIsPrefix(codec, "hev1");
    InitSegment.StartIsPrefix(codec, "hvc1");
  }

  // ---- The state ----

  /** The fields of the segmenter that concern video. */
  datatype VideoState = VideoState(
    timescale: u32, segDurationTicks: nat, segIndex: nat, segStartDts: nat, trackId: Option<u32>, samples: seq<Sample>,
    width: u32, height: u32, codec: string, currentPts: nat, totalTicks: nat, writer: Option<InitSegment.Writer>,
    codecKind: Option<VideoCodec>, segments: seq<SegmentInfo>)

  /** The fields of the segmenter that concern audio. */
  datatype AudioState = AudioState(
    trackId: Option<u32>, samples: seq<Sample>, writer: Option<InitSegment.Writer>, segIndex: nat, segStartPts: nat,
    currentPts: nat, sampleRate: u32, channels: u16, codec: string, totalTicks: nat, segments: seq<SegmentInfo>)

  /** The segments closed so far (for video: in this codec epoch), and all samples accepted. */
  datatype History = History(closed: seq<Closed>, accepted: seq<Sample>)

  /** Nothing accepted is lost, duplicated or reordered; segments are contiguous from 0 and the open
      one starts where the last closed one ended; the statistics agree with the clock. */
  ghost predicate VideoCounters(v: VideoState, h: History) {
    && v.trackId.Some? == v.writer.Some?
    && (v.writer.Some? ==> v.writer.value.trackId == VIDEO_TRACK_ID)
    && (v.trackId == None ==> h.closed == [] && v.samples == [])
    && v.segIndex == (if v.trackId.Some? then |h.closed| + 1 else 0)
    && v.segments == TimelineOf(h.closed)
    && v.segStartDts == EndOf(h.closed)
    && v.currentPts == v.totalTicks == EndOf(h.closed) + TotalDuration(v.samples)
    && h.accepted == Joined(h.closed) + v.samples
  }

  ghost predicate AudioCounters(a: AudioState, h: History) {
    && a.trackId.Some? == a.writer.Some?
    && (a.writer.Some? ==> a.writer.value.trackId == AUDIO_TRACK_ID && a.writer.value.timescale > 0)
    && (a.writer == None ==> h.closed == [] && a.samples == [])
    && a.segIndex == |h.closed|
    && a.segments == TimelineOf(h.closed)
    && a.segStartPts == EndOf(h.closed)
    && a.currentPts == a.totalTicks == EndOf(h.closed) + TotalDuration(a.samples)
    && h.accepted == Joined(h.closed) + a.samples
  }

  /** The files hold the closed segments, and all manifests so far agreed with them. */
  ghost predicate Stored(log: seq<Write>, video: seq<Closed>, audio: seq<Closed>) {
    FilesHold(log, VideoTrack, video) && FilesHold(log, AudioTrack, audio) && ManifestsAgree(log)
  }

  ghost predicate InitHeld(log: seq<Write>, track: Track, writer: Option<InitSegment.Writer>) {
    writer.Some? ==> LastWrite(log, InitFile(track)) == Some(Bytes(InitSegment.InitBytes(writer.value)))
  }

  function Listing(videoReady: bool, video: Timeline, audioWriter: Option<InitSegment.Writer>, audioSegments: seq<SegmentInfo>): Content {
    Mpd(if videoReady then Some(video) else None,
        if audioWriter.Some? then Some(Timeline(audioWriter.value.timescale, audioSegments)) else None)
  }

  /** The current manifest lists every closed segment of each track that is ready. */
  ghost predicate Listed(manifest: Option<Content>, videoReady: bool, video: Timeline, audioWriter: Option<InitSegment.Writer>,
                         audioSegments: seq<SegmentInfo>)
  {
    var now := Listing(videoReady, video, audioWriter, audioSegments);
    && (videoReady ==> manifest.Some? && manifest.value.Mpd? && manifest.value.video == now.video)
    && (audioWriter.Some? ==> manifest.Some? && manifest.value.Mpd? && manifest.value.audio == now.audio)
  }

  /** The initialisation file of each track that is ready is that of its writer, and the manifest is up to date. */
  ghost predicate Published(log: seq<Write>, videoWriter: Option<InitSegment.Writer>, video: Timeline,
                            audioWriter: Option<InitSegment.Writer>, audioSegments: seq<SegmentInfo>)
  {
    && InitHeld(log, VideoTrack, videoWriter) && InitHeld(log, AudioTrack, audioWriter)
    && Listed(LastWrite(log, ManifestFile), videoWriter.Some?, video, audioWriter, audioSegments)
  }

  lemma InitsStay(log: seq<Write>, w: Write, videoWriter: Option<InitSegment.Writer>, audioWriter: Option<InitSegment.Writer>)
    requires InitHeld(log, VideoTrack, videoWriter) && InitHeld(log, AudioTrack, audioWriter)
    requires !w.name.InitFile?
    ensures InitHeld(log + [w], VideoTrack, videoWriter) && InitHeld(log + [w], AudioTrack, audioWriter)
  {
    hide LastWrite, InitSegment.InitBytes;
    LastWriteSnoc(log, w, InitFile(VideoTrack));
    LastWriteSnoc(log, w, InitFile(AudioTrack));
  }

  lemma InitStored(log: seq<Write>, track: Track, writer: InitSegment.Writer, other: Option<InitSegment.Writer>)
    requires InitHeld(log, OtherTrack(track), other)
    ensures var log' := log + [Write(InitFile(track), Bytes(InitSegment.InitBytes(writer)))];
            InitHeld(log', track, Some(writer)) && InitHeld(log', OtherTrack(track), other)
  {
    hide LastWrite, InitSegment.InitBytes;
    var w := Write(InitFile(track), Bytes(InitSegment.InitBytes(writer)));
    LastWriteSnoc(log, w, InitFile(VideoTrack));
    LastWriteSnoc(log, w, InitFile(AudioTrack));
  }

  lemma ManifestPublished(log: seq<Write>, videoWriter: Option<InitSegment.Writer>, video: Timeline,
                          audioWriter: Option<InitSegment.Writer>, audioSegments: seq<SegmentInfo>)
    requires InitHeld(log, VideoTrack, videoWriter) && InitHeld(log, AudioTrack, audioWriter)
    ensures var w := Write(ManifestFile, Listing(videoWriter.Some?, video, audioWriter, audioSegments));
            Published(log + [w], videoWriter, video, audioWriter, audioSegments)
  {
    hide LastWrite, InitSegment.InitBytes, InitHeld;
    var w := Write(ManifestFile, Listing(videoWriter.Some?, video, audioWriter, audioSegments));
    InitsStay(log, w, videoWriter, audioWriter);
    LastWriteSnoc(log, w, ManifestFile);
  }

  /** Nothing is promised of a video track that is not ready. */
  lemma VideoForgotten(log: seq<Write>, videoWriter: Option<InitSegment.Writer>, video: Timeline, later: Timeline,
                       audioWriter: Option<InitSegment.Writer>, audioSegments: seq<SegmentInfo>)
    requires Published(log, videoWriter, video, audioWriter, audioSegments)
    ensures Published(log, None, later, audioWriter, audioSegments)
  {
    hide LastWrite;
  }

  /** Ten seconds of audio. */
  function AudioTarget(a: AudioState): nat {
    if a.writer.Some? then a.writer.value.timescale * DEFAULT_SEG_DURATION else 0
  }

  ghost predicate Bounds(v: VideoState, hv: History, a: AudioState, ha: History) {
    && v.segDurationTicks == 10 * v.timescale
    && VideoBounds(hv.closed, v.samples, v.segDurationTicks)
    && AudioBounds(ha.closed, AudioTarget(a))
    && (a.writer.Some? ==> TotalDuration(a.samples) < AudioTarget(a))
  }

  const INITIAL_VIDEO: VideoState :=
    VideoState(90_000, 90_000 * DEFAULT_SEG_DURATION, 0, 0, None, [], 0, 0, "", 0, 0, None, None, [])
  const INITIAL_AUDIO: AudioState := AudioState(None, [], None, 0, 0, 0, 48_000, 2, "opus", 0, [])

  lemma EmptyIsValid(v: VideoState, a: AudioState)
    requires v.segIndex == 0 && v.segStartDts == 0 && v.trackId == None && v.samples == [] && v.currentPts == 0
    requires v.totalTicks == 0 && v.writer == None && v.segments == [] && v.segDurationTicks == 10 * v.timescale
    requires a.trackId == None && a.samples == [] && a.writer == None && a.segIndex == 0 && a.segStartPts == 0
    requires a.currentPts == 0 && a.totalTicks == 0 && a.segments == []
    ensures VideoCounters(v, History([], [])) && AudioCounters(a, History([], []))
    ensures Stored([], [], []) && Bounds(v, History([], []), a, History([], []))
    ensures Published([], v.writer, Timeline(v.timescale, v.segments), a.writer, a.segments)
  {
    hide FragmentBytes, EndOf, Joined;
  }

  /** What a frame of this adapter makes of the track. A new epoch takes the adapter's time scale if
      it has one. A track that was ready keeps its writer; one that becomes ready gets a writer for
      its time scale, codec and size, with 1280 x 720 for a size that neither the adapter nor an
      earlier frame of the epoch knew. */
  ghost predicate TrackFollows(before: VideoState, sameEpoch: bool, adapter: AdapterView, after: VideoState) {
    && after.timescale == (if sameEpoch || adapter.timescale == 0 then before.timescale else adapter.timescale)
    && if sameEpoch && before.trackId.Some? then after.writer == before.writer
       else after.trackId.Some? ==>
           && after.writer == Some(InitSegment.Writer(after.timescale, 1, after.width, after.height, 0, 0, InitSegment.Video,
                                                      after.codec, ConfigFor(after.codec, adapter), adapter.vp))
           && after.width == FirstKnown(adapter.width, FirstKnown(if sameEpoch then before.width else 0, 1280))
           && after.height == FirstKnown(adapter.height, FirstKnown(if sameEpoch then before.height else 0, 720))
           && (adapter.codecString.Some? ==> after.codec == adapter.codecString.value)
  }

  /** What the adapter knows replaces what was known; a zero size or a missing codec string does not. */
  ghost predicate Refreshed(before: VideoState, adapter: AdapterView, after: VideoState) {
    && after == before.(width := after.width, height := after.height, codec := after.codec)
    && after.width == (if adapter.width > 0 then adapter.width else before.width)
    && after.height == (if adapter.height > 0 then adapter.height else before.height)
    && after.codec == (if adapter.codecString.Some? then adapter.codecString.value else before.codec)
  }

  lemma FollowsThrough(before: VideoState, sameEpoch: bool, adapter: AdapterView, epoch: VideoState, refreshed: VideoState,
                       after: VideoState)
    requires if sameEpoch then epoch == before
             else && epoch.trackId == None && epoch.width == epoch.height == 0
                  && epoch.timescale == if adapter.timescale == 0 then before.timescale else adapter.timescale
    requires Refreshed(epoch, adapter, refreshed) && TrackFollows(refreshed, true, adapter, after)
    ensures TrackFollows(before, sameEpoch, adapter, after)
  {
    hide ConfigFor;
  }

  class Segmenter {
    var video: VideoState
    var audio: AudioState

    /** Everything stored so far, in order. */
    ghost var log: seq<Write>
    ghost var videoHistory: History
    ghost var audioHistory: History
    /** The codec epochs before this one. */
    ghost var epochs: seq<Epoch>

    ghost predicate Core()
      reads this
    {
      && VideoCounters(video, videoHistory) && AudioCounters(audio, audioHistory)
      && Stored(log, videoHistory.closed, audioHistory.closed)
      && UpToDate() && Archive()
    }

    /** The video files hold what the epochs closed last under each number. */
    ghost predicate Archive()
      reads this
    {
      FilesOverEpochs(log, epochs, videoHistory.closed)
    }

    /** Every video sample accepted so far, in order. */
    ghost function AllAccepted(): seq<Sample>
      reads this
    {
      AcceptedOver(epochs) + videoHistory.accepted
    }

    ghost predicate Valid()
      reads this
    {
      Core() && Bounds(video, videoHistory, audio, audioHistory) && NoEmptySegments(epochs)
    }

    /** Once the track of the current epoch is ready, a player that follows the manifest finds this
        epoch alone: its segments are listed, the files of those numbers are theirs, and the
        initialisation file is that of its writer. What it plays, and what is still to be stored, is
        everything ever accepted exactly if no earlier epoch accepted anything. */
    lemma ListedExactly()
      requires Valid() && video.trackId.Some?
      ensures Plays(log, videoHistory.closed, video.timescale, video.writer.value)
      ensures AllAccepted() == Joined(videoHistory.closed) + video.samples
              <==> forall e :: 0 <= e < |epochs| ==> AcceptedIn(epochs[e]) == []
    {
      hide Bounds, AudioCounters, EndOf, TotalDuration, FilesOverEpochs, Joined, NoEmptySegments, LastWrite, FragmentBytes,
           InitSegment.InitBytes, AcceptedIn, AcceptedOver, TimelineOf, FilesHold, ManifestsAgree;
      NothingBefore(epochs);
      AppendedIsSame(AcceptedOver(epochs), Joined(videoHistory.closed) + video.samples);
    }

    /** How long video segments last: one closed by a push has ten seconds of the track's time scale or
        more, and the next one starts on a sync sample. */
    lemma VideoSegmentLength(k: nat)
      requires Valid() && k < |videoHistory.closed| && !videoHistory.closed[k].forced
      ensures TotalDuration(videoHistory.closed[k].samples) >= 10 * video.timescale
      ensures var next := if k + 1 < |videoHistory.closed| then videoHistory.closed[k + 1].samples else video.samples;
              next != [] && next[0].isSync
    {
      hide Core, TotalDuration, NoEmptySegments;
      assert SegmentBound(videoHistory.closed[k], Following(videoHistory.closed, video.samples, k), 10 * video.timescale);
    }

    /** And no longer than it must: in no video segment, closed or open, has a sync sample other than the
        first come after ten seconds of the segment. */
    lemma VideoClosedInTime(k: nat, i: nat)
      requires Valid() && k <= |videoHistory.closed|
      ensures var samples := if k < |videoHistory.closed| then videoHistory.closed[k].samples else video.samples;
              0 < i < |samples| && samples[i].isSync ==> TotalDuration(samples[..i]) < 10 * video.timescale
    {
      hide Core, TotalDuration, NoEmptySegments;
      if k < |videoHistory.closed| {
        assert SegmentBound(videoHistory.closed[k], Following(videoHistory.closed, video.samples, k), 10 * video.timescale);
      }
    }

    /** An audio segment closed by a push goes over ten seconds by less than its last sample, and the
        audio buffer never holds ten seconds. */
    lemma AudioSegmentLength(k: nat)
      requires Valid() && audio.writer.Some?
      ensures TotalDuration(audio.samples) < 10 * audio.writer.value.timescale
      ensures k < |audioHistory.closed| && !audioHistory.closed[k].forced ==>
                var samples := audioHistory.closed[k].samples;
                samples != [] && 10 * audio.writer.value.timescale <= TotalDuration(samples)
                                 < 10 * audio.writer.value.timescale + samples[|samples| - 1].duration
    {
      hide Core, TotalDuration, NoEmptySegments;
    }

    /** What a player of the audio track finds: all segments closed so far, and the initialisation file of the writer. */
    lemma AudioListed()
      requires Valid() && audio.writer.Some?
      ensures var manifest := LastWrite(log, ManifestFile);
              && manifest.Some? && manifest.value.Mpd?
              && manifest.value.audio == Some(Timeline(audio.writer.value.timescale, TimelineOf(audioHistory.closed)))
      ensures FilesHold(log, AudioTrack, audioHistory.closed)
      ensures LastWrite(log, InitFile(AudioTrack)) == Some(Bytes(InitSegment.InitBytes(audio.writer.value)))
      ensures audioHistory.accepted == Joined(audioHistory.closed) + audio.samples
    {
      hide Bounds, VideoCounters, EndOf, TotalDuration, FilesOverEpochs, Joined, NoEmptySegments, LastWrite, FragmentBytes,
           InitSegment.InitBytes, TimelineOf, FilesHold, ManifestsAgree;
    }

    /** At every moment: what was accepted is still in a file or in the buffer, or it is gone, and nothing
        is gone exactly if every codec change so far found the buffer empty and no segment that a later
        epoch has overwritten. */
    lemma LossesExactly()
      requires Valid()
      ensures var kept, lost := Kept(epochs, videoHistory.closed, video.samples), Lost(epochs, videoHistory.closed);
              && |AllAccepted()| == |kept| + |lost|
              && (lost == [] ==> AllAccepted() == kept)
              && (lost == [] <==> forall e :: 0 <= e < |epochs| ==> EndedCleanly(epochs, videoHistory.closed, e))
    {
      hide Stored, Published, Bounds, AudioCounters, TimelineOf, EndOf, TotalDuration, FilesOverEpochs, Lost, Kept, Joined,
           EndedCleanly, AcceptedOver, NoEmptySegments;
      KeptOrLost(epochs, videoHistory.closed, video.samples);
      NothingLostExactly(epochs, videoHistory.closed);
    }

    constructor ()
      ensures Valid() && log == [] && videoHistory == audioHistory == History([], []) && video.codecKind == None && epochs == []
      ensures video.trackId == None && audio.trackId == None && video.timescale == 90000 && video.segDurationTicks == 900000
      ensures audio.sampleRate == 48000 && audio.channels == 2 && audio.codec == "opus"
    {
      hide VideoCounters, AudioCounters, Stored, Bounds, Published, FilesOverEpochs;
      video, audio := INITIAL_VIDEO, INITIAL_AUDIO;
      log, videoHistory, audioHistory, epochs := [], History([], []), History([], []), [];
      NoFilesYet();
      EmptyIsValid(INITIAL_VIDEO, INITIAL_AUDIO);
    }

    /** Storing always reports success; the write itself is detached. */
    method StoreFile(name: FileName, content: Content)
      modifies `log
      ensures log == old(log) + [Write(name, content)]
    {
      log := log + [Write(name, content)];
    }

    ghost predicate InitsHeld()
      reads this
    {
      InitHeld(log, VideoTrack, video.writer) && InitHeld(log, AudioTrack, audio.writer)
    }

    ghost predicate UpToDate()
      reads this
    {
      Published(log, video.writer, Timeline(video.timescale, video.segments), audio.writer, audio.segments)
    }

    /** Lists the closed segments of each track that has been initialised. */
    method WriteManifest()
      requires Stored(log, videoHistory.closed, audioHistory.closed) && InitsHeld()
      requires video.segments == TimelineOf(videoHistory.closed) && audio.segments == TimelineOf(audioHistory.closed)
      requires video.trackId.Some? == video.writer.Some? && Archive()
      modifies `log
      ensures Stored(log, videoHistory.closed, audioHistory.closed) && UpToDate() && Archive()
      ensures var mpd := Mpd(if video.trackId.Some? then Some(Timeline(video.timescale, video.segments)) else None,
                             if audio.writer.Some? then Some(Timeline(audio.writer.value.timescale, audio.segments)) else None);
              log == old(log) + if video.trackId.Some? || audio.writer.Some? then [Write(ManifestFile, mpd)] else []
    {
      hide FragmentBytes, LastWrite, TimelineOf, FilesHold, TimelineMatches, InitHeld, FilesOverEpochs;
      var videoTrackReady := video.trackId.Some?;
      var audioTrackReady := audio.writer.Some?;
      if !videoTrackReady && !audioTrackReady {
        return;
      }
      var videoTimeline := if videoTrackReady then Some(Timeline(video.timescale, video.segments)) else None;
      var audioTimeline := if audioTrackReady then Some(Timeline(audio.writer.value.timescale, audio.segments)) else None;
      var mpd := Mpd(videoTimeline, audioTimeline);
      FilesMatch(log, VideoTrack, videoHistory.closed);
      FilesMatch(log, AudioTrack, audioHistory.closed);
      Undisturbed(log, Write(ManifestFile, mpd), videoHistory.closed, audioHistory.closed);
      ManifestPublished(log, video.writer, Timeline(video.timescale, video.segments), audio.writer, audio.segments);
      EpochsUntouched(log, Write(ManifestFile, mpd), epochs, videoHistory.closed);
      hide Published, Listed;
      StoreFile(ManifestFile, mpd);
    }

    /** Stores an initialisation segment. */
    method StoreInit(track: Track, writer: InitSegment.Writer, ghost other: Option<InitSegment.Writer>)
      requires Stored(log, videoHistory.closed, audioHistory.closed) && InitHeld(log, OtherTrack(track), other) && Archive()
      modifies `log
      ensures Stored(log, videoHistory.closed, audioHistory.closed) && Archive()
      ensures log == old(log) + [Write(InitFile(track), Bytes(InitSegment.InitBytes(writer)))]
      ensures InitHeld(log, track, Some(writer)) && InitHeld(log, OtherTrack(track), other)
    {
      hide FragmentBytes, LastWrite, FilesHold, InitSegment.InitBytes, ManifestAgrees, InitHeld, FilesOverEpochs;
      var data := InitSegment.InitBytes(writer);
      Undisturbed(log, Write(InitFile(track), Bytes(data)), videoHistory.closed, audioHistory.closed);
      InitStored(log, track, writer, other);
      EpochsUntouched(log, Write(InitFile(track), Bytes(data)), epochs, videoHistory.closed);
      StoreFile(InitFile(track), Bytes(data));
    }

    /** Builds the fragment of a closed segment and stores it under its number. */
    method StoreSegment(track: Track, trackId: u32, index: nat, baseTime: nat, samples: seq<Sample>, ghost forced: bool,
                        ghost closed: seq<Closed>, ghost other: seq<Closed>)
      requires trackId == TrackId(track) && index == |closed| + 1 && baseTime == EndOf(closed)
      requires FilesHold(log, track, closed) && FilesHold(log, OtherTrack(track), other) && ManifestsAgree(log)
      requires Archive() && (track == VideoTrack ==> closed == videoHistory.closed)
      modifies `log
      ensures FilesOverEpochs(log, epochs, if track == VideoTrack then closed + [Closed(samples, forced)] else videoHistory.closed)
      ensures FilesHold(log, track, closed + [Closed(samples, forced)])
      ensures FilesHold(log, OtherTrack(track), other) && ManifestsAgree(log)
      ensures log == old(log) + [Write(SegmentFile(track, index), Bytes(FragmentBytes(trackId, index, baseTime, samples)))]
      ensures old(InitsHeld()) ==> InitsHeld()
    {
      hide FragmentBytes, LastWrite, FilesHold, EndOf, ManifestAgrees, InitHeld, FilesOverEpochs;
      if track == VideoTrack {
        EpochsSnoc(log, epochs, closed, Closed(samples, forced));
      } else {
        EpochsUntouched(log, Write(SegmentFile(track, index), Bytes(FragmentBytes(trackId, index, baseTime, samples))),
                        epochs, videoHistory.closed);
      }
      if InitsHeld() {
        InitsStay(log, Write(SegmentFile(track, index), Bytes(FragmentBytes(trackId, index, baseTime, samples))), video.writer, audio.writer);
      }
      var fragment := BuildFragment(trackId, index, baseTime, samples);
      ghost var w := Write(SegmentFile(track, index), Bytes(fragment));
      FilesSnoc(log, track, closed, Closed(samples, forced));
      FilesUntouched(log, w, OtherTrack(track), other);
      ManifestsSnoc(log, w);
      StoreFile(SegmentFile(track, index), Bytes(fragment));
    }

    // ---- Video ----

    /** Forgets the epoch: its buffer is dropped without being stored, and its segment numbers are free. */
    method ResetVideoState()
      requires Core()
      modifies `video, `videoHistory, `epochs
      ensures Core() && videoHistory == History([], []) && video.trackId == None && video.samples == []
      ensures epochs == old(epochs) + [Epoch(old(videoHistory.closed), old(video.samples))]
      ensures video.timescale == old(video.timescale) && video.segDurationTicks == old(video.segDurationTicks)
      ensures video.width == video.height == 0 && video.codec == ""
    {
      hide FragmentBytes, LastWrite, TotalDuration, EndOf, Joined, TimelineOf, FilesHold, ManifestsAgree, Published, FilesOverEpochs;
      EpochEnds(log, epochs, videoHistory.closed, video.samples);
      epochs := epochs + [Epoch(videoHistory.closed, video.samples)];
      VideoForgotten(log, video.writer, Timeline(video.timescale, video.segments), Timeline(video.timescale, []),
                     audio.writer, audio.segments);
      video := video.(trackId := None, writer := None);
      video := video.(samples := [], segIndex := 0, segStartDts := 0, currentPts := 0, segments := [], totalTicks := 0);
      video := video.(width := 0, height := 0, codec := "");
      videoHistory := History([], []);
      NoFiles(log, VideoTrack);
    }

    /** A first frame, or one of another codec, starts a new epoch; within an epoch nothing changes. */
    method EnsureVideoAdapter(codec: VideoCodec, newTimescale: u32)
      requires Valid()
      modifies `video, `videoHistory, `epochs
      ensures Valid() && video.codecKind == Some(codec)
      ensures old(video.codecKind) == Some(codec) ==>
                video == old(video) && videoHistory == old(videoHistory) && epochs == old(epochs)
      ensures old(video.codecKind) != Some(codec) ==>
                && video.trackId == None && videoHistory == History([], []) && video.samples == []
                && epochs == old(epochs) + [Epoch(old(videoHistory.closed), old(video.samples))]
                && video.width == video.height == 0 && video.codec == ""
      ensures old(video.codecKind) != Some(codec) && newTimescale > 0 ==>
                video.timescale == newTimescale && video.segDurationTicks == 10 * newTimescale
      ensures old(video.codecKind) == Some(codec) || newTimescale == 0 ==>
                video.timescale == old(video.timescale) && video.segDurationTicks == old(video.segDurationTicks)
      ensures AllAccepted() == old(AllAccepted())
    {
      hide Stored, TimelineOf, Joined, EndOf, TotalDuration, AudioBounds, AudioCounters, Published, FilesOverEpochs;
      if video.codecKind != Some(codec) {
        EpochJoins(epochs, Epoch(videoHistory.closed, video.samples));
        SegmentsStayFull(epochs, videoHistory.closed, video.samples, video.segDurationTicks);
        ResetVideoState();
        video := video.(codecKind := Some(codec));
        if newTimescale > 0 {
          VideoForgotten(log, None, Timeline(video.timescale, video.segments), Timeline(newTimescale, video.segments),
                         audio.writer, audio.segments);
          video := video.(timescale := newTimescale, segDurationTicks := newTimescale * DEFAULT_SEG_DURATION);
        }
      }
    }

    method RefreshVideoMetadata(adapter: AdapterView)
      modifies `video
      ensures Refreshed(old(video), adapter, video)
      ensures old(Valid()) ==> Valid()
    {
      hide Stored, TimelineOf, Joined, EndOf, TotalDuration, VideoBounds, AudioBounds, AudioCounters, Published, FilesOverEpochs, NoEmptySegments;
      if adapter.width > 0 {
        video := video.(width := adapter.width);
      }
      if adapter.height > 0 {
        video := video.(height := adapter.height);
      }
      if adapter.codecString.Some? && video.codec != adapter.codecString.value {
        video := video.(codec := adapter.codecString.value);
      }
    }

    method OpenNewSegment()
      modifies `video
      ensures video == old(video).(samples := [], segStartDts := old(video.currentPts), segIndex := old(video.segIndex) + 1)
    {
      video := video.(samples := []);
      video := video.(segStartDts := video.currentPts);
      video := video.(segIndex := video.segIndex + 1);
    }

    /** The writer for the adapter's current parameters, with defaults for a missing picture size. */
    method BuildVideoWriter(adapter: AdapterView) returns (writer: InitSegment.Writer)
      modifies `video
      ensures video == old(video).(width := video.width, height := video.height, codec := video.codec)
      ensures video.width == FirstKnown(adapter.width, FirstKnown(old(video.width), 1280))
      ensures video.height == FirstKnown(adapter.height, FirstKnown(old(video.height), 720))
      ensures video.codec == (if adapter.codecString.Some? then adapter.codecString.value else old(video.codec))
      ensures writer == InitSegment.Writer(video.timescale, 1, video.width, video.height, 0, 0, InitSegment.Video,
                                           video.codec, ConfigFor(video.codec, adapter), adapter.vp)
    {
      RefreshVideoMetadata(adapter);
      var width, height := video.width, video.height;
      if (width == 0 || height == 0) && adapter.width != 0 && adapter.height != 0 {
        width, height := adapter.width, adapter.height;
      }
      if video.codec == "" && adapter.codecString.Some? {
        video := video.(codec := adapter.codecString.value);
      }
      video := video.(width := if width == 0 then 1280 else width, height := if height == 0 then 720 else height);
      var codecConfig := ConfigFor(video.codec, adapter);
      writer := InitSegment.Writer(video.timescale, VIDEO_TRACK_ID, video.width, video.height, 0, 0,
                                   InitSegment.Video, video.codec, codecConfig, adapter.vp);
    }

    method InitWriter(adapter: AdapterView)
      requires Core() && video.trackId == None
      modifies `video, `log
      ensures Core() && video.trackId.Some? && video.samples == [] && old(log) <= log
      ensures video.segDurationTicks == old(video.segDurationTicks) && video.codecKind == old(video.codecKind)
      ensures video.timescale == old(video.timescale)
      ensures video.width == FirstKnown(adapter.width, FirstKnown(old(video.width), 1280))
      ensures video.height == FirstKnown(adapter.height, FirstKnown(old(video.height), 720))
      ensures video.codec == (if adapter.codecString.Some? then adapter.codecString.value else old(video.codec))
      ensures video.writer == Some(InitSegment.Writer(video.timescale, 1, video.width, video.height, 0, 0,
                                                      InitSegment.Video, video.codec, ConfigFor(video.codec, adapter), adapter.vp))
      ensures video.width > 0 && video.height > 0
    {
      hide FragmentBytes, LastWrite, ManifestsAgree, InitSegment.InitBytes, FilesHold, TimelineOf, Joined, InitHeld, Listed, ConfigFor, FilesOverEpochs;
      var writer := BuildVideoWriter(adapter);
      StoreInit(VideoTrack, writer, audio.writer);
      video := video.(trackId := Some(VIDEO_TRACK_ID));
      video := video.(writer := Some(writer));
      WriteManifest();
      OpenNewSegment();
    }

    /** Time scale, picture, codec and writer are as before. */
    twostate predicate SameDescription()
      reads this
    {
      && video.timescale == old(video.timescale) && video.writer == old(video.writer)
      && video.width == old(video.width) && video.height == old(video.height) && video.codec == old(video.codec)
    }

    /** Stores the buffered samples as the next fragment and starts the next segment; does nothing
        without a track or samples. */
    method RollSegment(ghost forced: bool)
      requires Core()
      modifies `video, `videoHistory, `log
      ensures Core() && old(log) <= log
      ensures if video.trackId.Some? && old(video.samples) != []
              then && videoHistory == old(videoHistory).(closed := old(videoHistory.closed) + [Closed(old(video.samples), forced)])
                   && video.samples == []
              else videoHistory == old(videoHistory) && video == old(video)
      ensures video.trackId == old(video.trackId) && video.codecKind == old(video.codecKind)
      ensures video.segDurationTicks == old(video.segDurationTicks) && SameDescription()
    {
      hide FragmentBytes, LastWrite, ManifestsAgree, FilesHold, TimelineOf, Joined, EndOf, InitHeld, Listed, FilesOverEpochs;
      if video.samples == [] || video.trackId == None {
        return;
      }
      var baseTime := video.segStartDts;
      var segmentEndTime := video.currentPts;
      var actualDuration := segmentEndTime - baseTime;
      StoreSegment(VideoTrack, video.writer.value.trackId, video.segIndex, baseTime, video.samples, forced,
                   videoHistory.closed, audioHistory.closed);
      video := video.(segments := video.segments + [SegmentInfo(baseTime, actualDuration)]);
      ClosedSnoc(videoHistory.closed, Closed(video.samples, forced));
      videoHistory := videoHistory.(closed := videoHistory.closed + [Closed(video.samples, forced)]);
      OpenNewSegment();
      WriteManifest();
    }

    method AcceptVideo(sample: Sample)
      requires Core() && video.trackId.Some?
      modifies `video, `videoHistory
      ensures Core() && videoHistory == old(videoHistory).(accepted := old(videoHistory.accepted) + [sample])
      ensures video.samples == old(video.samples) + [sample] && video.trackId.Some?
      ensures video.segDurationTicks == old(video.segDurationTicks) && video.codecKind == old(video.codecKind)
      ensures SameDescription()
    {
      hide Stored, TimelineOf, Joined, EndOf, TotalDuration, Published, FilesOverEpochs;
      DurationSnoc(video.samples, sample);
      video := video.(samples := video.samples + [sample]);
      video := video.(currentPts := video.currentPts + sample.duration);
      video := video.(totalTicks := video.totalTicks + sample.duration);
      videoHistory := videoHistory.(accepted := videoHistory.accepted + [sample]);
    }

    /** The open segment has lasted ten seconds. */
    ghost predicate Full()
      reads this
    {
      video.trackId.Some? && video.samples != [] && TotalDuration(video.samples) >= 10 * video.timescale
    }

    /** One frame: perhaps a new epoch, perhaps a roll before a sync sample, perhaps the writer's
        initialisation; the sample is accepted unless there is still no track. */
    method PushVideoFrame(codec: VideoCodec, frame: Converted, explicitSync: Option<bool>, durationTicks: u32)
      requires Valid()
      modifies this
      ensures var dur := if durationTicks == 0 then 3_000 else durationTicks;
              var sync := explicitSync == Some(true) || frame.sync;
              var sameEpoch := old(video.codecKind) == Some(codec);
              var accepted := (sameEpoch && old(video.trackId).Some?) || frame.configReady || frame.adapter.ready;
              var more := if accepted then [Sample(dur, sync, frame.payload)] else [];
              && videoHistory.accepted == (if sameEpoch then old(videoHistory.accepted) else []) + more
              && AllAccepted() == old(AllAccepted()) + more
              && video.trackId.Some? == accepted
      ensures var sync := explicitSync == Some(true) || frame.sync;
              var rolls := old(video.codecKind) == Some(codec) && sync && old(Full());
              videoHistory.closed == if rolls then old(videoHistory.closed) + [Closed(old(video.samples), false)]
                                     else if old(video.codecKind) == Some(codec) then old(videoHistory.closed) else []
      ensures video.codecKind == Some(codec)
      ensures epochs == if old(video.codecKind) == Some(codec) then old(epochs)
                        else old(epochs) + [Epoch(old(videoHistory.closed), old(video.samples))]
      ensures audio == old(audio) && audioHistory == old(audioHistory)
      ensures old(log) <= log
      ensures TrackFollows(old(video), old(video.codecKind) == Some(codec), frame.adapter, video)
      ensures Valid()
    {
      hide Stored, TimelineOf, Joined, EndOf, TotalDuration, VideoBounds, AudioBounds, AudioCounters, AudioTarget, Published,
           FilesOverEpochs, AcceptedOver, NoEmptySegments, ConfigFor, TrackFollows, FirstKnown, VideoCounters, Bounds;
      ghost var before := video;
      EnsureVideoAdapter(codec, frame.adapter.timescale);
      ghost var epoch := video;
      RefreshVideoMetadata(frame.adapter);
      ghost var refreshed := video;
      var isSync := explicitSync == Some(true) || frame.sync;
      var dur: u32 := if durationTicks == 0 then 3_000 else durationTicks;
      PushConverted(frame, Sample(dur, isSync, frame.payload));
      FollowsThrough(before, before.codecKind == Some(codec), frame.adapter, epoch, refreshed, video);
    }

    /** The rest of the push, once the adapter is in place. */
    method PushConverted(frame: Converted, sample: Sample)
      requires Valid()
      modifies `video, `videoHistory, `log
      ensures Valid() && old(log) <= log
      ensures var accepted := old(video.trackId).Some? || frame.configReady || frame.adapter.ready;
              && videoHistory.accepted == old(videoHistory.accepted) + (if accepted then [sample] else [])
              && video.trackId.Some? == accepted
      ensures video.codecKind == old(video.codecKind) && TrackFollows(old(video), true, frame.adapter, video)
      ensures videoHistory.closed == if sample.isSync && old(Full()) then old(videoHistory.closed) + [Closed(old(video.samples), false)]
                                     else old(videoHistory.closed)
    {
      hide Stored, TimelineOf, Joined, EndOf, TotalDuration, VideoBounds, AudioBounds, AudioCounters, AudioTarget, Published, FilesOverEpochs;
      ghost var closed0, open0 := videoHistory.closed, video.samples;
      if sample.isSync && video.currentPts - video.segStartDts >= video.segDurationTicks {
        RollSegment(false);
      }
      ghost var rolled := videoHistory.closed != closed0;
      if video.trackId == None {
        if frame.configReady || frame.adapter.ready {
          RefreshVideoMetadata(frame.adapter);
          InitWriter(frame.adapter);
        } else {
          return;
        }
      }
      VideoBoundsPush(closed0, open0, video.segDurationTicks, rolled, sample);
      AcceptVideo(sample);
      RefreshVideoMetadata(frame.adapter);
    }

    // ---- Audio ----

    /** The part behind the last slash, in lower case: "audio/opus" gives "opus". */
    static method NormalizeCodec(codec: string) returns (normalized: string)
      ensures Normalizes(codec, normalized)
    {
      var i := |codec|;
      while i > 0 && codec[i - 1] != '/'
        invariant 0 <= i <= |codec| && '/' !in codec[i..]
      {
        i := i - 1;
      }
      normalized := InitSegment.ToLower(codec[i..]);
      assert SlashEnds(codec, i);
    }

    /** The track's parameters before its writer exists. `fmtpChannels` is what the fmtp line says of the
        channels, if it does; it wins over `channels`. */
    method ConfigureAudioTrack(sampleRate: u32, channels: u16, codec: string, fmtpChannels: Option<u16>)
      modifies `audio
      ensures var count := if fmtpChannels.Some? then fmtpChannels.value else channels;
              audio == old(audio).(sampleRate := if sampleRate > 0 then sampleRate else old(audio.sampleRate),
                                   channels := if count > 0 then count else old(audio.channels),
                                   codec := if codec != "" then audio.codec else old(audio.codec))
      ensures codec != "" ==> Normalizes(codec, audio.codec)
      ensures old(Valid()) ==> Valid()
    {
      hide Stored, TimelineOf, Joined, EndOf, TotalDuration, VideoBounds, AudioBounds, Published, FilesOverEpochs, Normalizes;
      if sampleRate > 0 {
        audio := audio.(sampleRate := sampleRate);
      }
      var derivedChannels := channels;
      if fmtpChannels.Some? {
        derivedChannels := fmtpChannels.value;
      }
      if derivedChannels > 0 {
        audio := audio.(channels := derivedChannels);
      }
      if codec != "" {
        var normalized := NormalizeCodec(codec);
        audio := audio.(codec := normalized);
      }
    }

    method BuildAudioWriter() returns (writer: InitSegment.Writer)
      modifies `audio
      ensures audio == old(audio).(sampleRate := if old(audio.sampleRate) > 0 then old(audio.sampleRate) else 48000,
                                   channels := if old(audio.channels) > 0 then old(audio.channels) else 2,
                                   codec := if old(audio.codec) == "" then "opus" else old(audio.codec))
      ensures writer.trackId == 2 && writer.kind == InitSegment.Audio && writer.codecString == audio.codec != ""
      ensures writer.timescale == writer.sampleRate == audio.sampleRate > 0 && writer.channels == audio.channels > 0
    {
      var channels := if audio.channels == 0 then 2 else audio.channels;
      var sampleRate := if audio.sampleRate == 0 then 48_000 else audio.sampleRate;
      var codec := if audio.codec == "" then "opus" else audio.codec;
      writer := InitSegment.Writer(sampleRate, AUDIO_TRACK_ID, 0, 0, channels, sampleRate, InitSegment.Audio, codec, [],
                                       InitSegment.VpFields(0, 0, 0, 0, 0, 0));
      audio := audio.(sampleRate := sampleRate, channels := channels, codec := codec);
    }

    method InitAudioWriter()
      requires Core() && audio.trackId == None
      modifies `audio, `log
      ensures Core() && audio.trackId.Some? && audio.samples == [] && audio.currentPts == old(audio.currentPts)
      ensures audio.writer.value.timescale == if old(audio.sampleRate) > 0 then old(audio.sampleRate) else 48000
      ensures audio.writer.value.channels == if old(audio.channels) > 0 then old(audio.channels) else 2
      ensures old(log) <= log
    {
      hide FragmentBytes, LastWrite, ManifestsAgree, InitSegment.InitBytes, FilesHold, TimelineOf, Joined, InitHeld, Listed, FilesOverEpochs;
      var writer := BuildAudioWriter();
      StoreInit(AudioTrack, writer, video.writer);
      audio := audio.(trackId := Some(AUDIO_TRACK_ID), writer := Some(writer));
      audio := audio.(segIndex := 0);
      audio := audio.(segStartPts := audio.currentPts);
      WriteManifest();
    }

    /** Stores the buffered audio as the next fragment once it has reached the target, or when forced. */
    method RollAudioSegment(force: bool)
      requires Core()
      modifies `audio, `audioHistory, `log
      ensures Core() && old(log) <= log
      ensures if audio.writer.Some? && old(audio.samples) != []
                 && (force || TotalDuration(old(audio.samples)) >= 10 * audio.writer.value.timescale)
              then && audioHistory == old(audioHistory).(closed := old(audioHistory.closed) + [Closed(old(audio.samples), force)])
                   && audio.samples == []
              else audioHistory == old(audioHistory) && audio == old(audio)
      ensures audio.writer == old(audio.writer) && audio.currentPts == old(audio.currentPts)
    {
      hide FragmentBytes, LastWrite, ManifestsAgree, FilesHold, TimelineOf, Joined, EndOf, TotalDuration, InitHeld, Listed, FilesOverEpochs;
      if audio.writer == None || audio.samples == [] {
        return;
      }
      var segmentStart := audio.segStartPts;
      var segmentEnd := audio.currentPts;
      var segmentDuration := segmentEnd - segmentStart;
      var targetDuration := audio.writer.value.timescale * DEFAULT_SEG_DURATION;
      if !force && segmentDuration < targetDuration {
        return;
      }
      audio := audio.(segIndex := audio.segIndex + 1);
      StoreSegment(AudioTrack, audio.writer.value.trackId, audio.segIndex, segmentStart, audio.samples, force,
                   audioHistory.closed, videoHistory.closed);
      audio := audio.(segments := audio.segments + [SegmentInfo(segmentStart, segmentDuration)]);
      ClosedSnoc(audioHistory.closed, Closed(audio.samples, force));
      audioHistory := audioHistory.(closed := audioHistory.closed + [Closed(audio.samples, force)]);
      audio := audio.(samples := []);
      audio := audio.(segStartPts := audio.currentPts);
      WriteManifest();
    }

    /** One Opus packet; every packet is accepted. */
    method PushOpus(payload: seq<byte>, durationTicks: u32)
      requires Valid()
      modifies this
      ensures Valid() && audio.writer.Some?
      ensures audioHistory.accepted == old(audioHistory.accepted) + [Sample(durationTicks, true, payload)]
      ensures audio.currentPts == old(audio.currentPts) + durationTicks
      ensures var open := old(audio.samples) + [Sample(durationTicks, true, payload)];
              if TotalDuration(open) >= 10 * audio.writer.value.timescale
              then audioHistory.closed == old(audioHistory.closed) + [Closed(open, false)] && audio.samples == []
              else audioHistory.closed == old(audioHistory.closed) && audio.samples == open
      ensures old(audio.trackId).Some? ==> audio.writer == old(audio.writer)
      ensures old(audio.trackId) == None ==>
                && audio.writer.value.timescale == (if old(audio.sampleRate) > 0 then old(audio.sampleRate) else 48000)
                && audio.writer.value.channels == (if old(audio.channels) > 0 then old(audio.channels) else 2)
      ensures old(log) <= log
      ensures video == old(video) && videoHistory == old(videoHistory) && epochs == old(epochs)
    {
      hide Stored, TimelineOf, Joined, EndOf, TotalDuration, VideoBounds, AudioBounds, Published, FilesOverEpochs;
      if audio.trackId == None {
        InitAudioWriter();
        NoAudioYet(AudioTarget(audio));
      }
      ghost var open0 := audio.samples;
      var sample := Sample(durationTicks, true, payload);
      AcceptAudio(sample);
      AudioBoundsPush(audioHistory.closed, open0, AudioTarget(audio), sample);
      RollAudioSegment(false);
    }

    method AcceptAudio(sample: Sample)
      requires Core() && audio.writer.Some?
      modifies `audio, `audioHistory
      ensures Core() && audioHistory == old(audioHistory).(accepted := old(audioHistory.accepted) + [sample])
      ensures audio.samples == old(audio.samples) + [sample] && audio.writer == old(audio.writer)
      ensures audio.currentPts == old(audio.currentPts) + sample.duration
    {
      hide Stored, TimelineOf, Joined, EndOf, TotalDuration, Published, FilesOverEpochs;
      var sampleStart := audio.currentPts;
      if audio.samples == [] {
        audio := audio.(segStartPts := sampleStart);
      }
      DurationSnoc(audio.samples, sample);
      audio := audio.(samples := audio.samples + [sample]);
      audio := audio.(currentPts := audio.currentPts + sample.duration);
      audio := audio.(totalTicks := audio.totalTicks + sample.duration);
      audioHistory := audioHistory.(accepted := audioHistory.accepted + [sample]);
    }

    /** Closes both open segments: afterwards every accepted sample is in a stored fragment. */
    method Flush()
      requires Valid()
      modifies this
      ensures Valid() && video.samples == [] && audio.samples == []
      ensures videoHistory.accepted == old(videoHistory.accepted) == Joined(videoHistory.closed)
      ensures audioHistory.accepted == old(audioHistory.accepted) == Joined(audioHistory.closed)
      ensures videoHistory.closed == old(videoHistory.closed) + if old(video.samples) == [] then [] else [Closed(old(video.samples), true)]
      ensures audioHistory.closed == old(audioHistory.closed) + if old(audio.samples) == [] then [] else [Closed(old(audio.samples), true)]
      ensures video.codecKind == old(video.codecKind) && epochs == old(epochs) && old(log) <= log
    {
      hide Stored, TimelineOf, Joined, EndOf, TotalDuration, VideoBounds, AudioBounds, Published, FilesOverEpochs;
      EmptyInTime(video.segDurationTicks);
      if video.samples != [] {
        VideoBoundsClose(videoHistory.closed, video.samples, video.segDurationTicks, true, []);
      }
      if audio.samples != [] {
        AudioBoundsFlush(audioHistory.closed, audio.samples, AudioTarget(audio));
      }
      RollSegment(true);
      RollAudioSegment(true);
    }
  }
}
