/** A subscriber's sender task: which published track it forwards, layer selection, mute and unmute,
    and the sequence numbers it writes. */
module LayerSwitch {
  import opened Octets

  const RID_ENABLE: string := "RID_ENABLE"
  const RID_DISABLE: string := "RID_DISABLE"

  datatype Kind = Video | Audio

  datatype PublishTrack = PublishTrack(kind: Kind, rid: string, ssrc: u32)

  /** The locals of the task and its entry of the binding map. `source` is the publish track it
      receives from (`None`: the empty virtual channel), `live` whether a local track is attached,
      `written` the sequence numbers written so far. */
  datatype State = State(preRid: Option<string>, source: Option<PublishTrack>, live: bool, sequenceNumber: u16,
                         binding: Option<string>, running: bool, written: seq<u16>)

  function FirstOfKind(tracks: seq<PublishTrack>, kind: Kind): Option<PublishTrack> {
    if tracks == [] then None
    else if tracks[0].kind == kind then Some(tracks[0])
    else FirstOfKind(tracks[1..], kind)
  }

  /** The selection loop looks at video tracks only. */
  predicate Selects(t: PublishTrack, rid: string) {
    t.kind == Video && (t.rid == rid || rid == RID_ENABLE)
  }

  function FirstSelected(tracks: seq<PublishTrack>, rid: string): Option<PublishTrack> {
    if tracks == [] then None
    else if Selects(tracks[0], rid) then Some(tracks[0])
    else FirstSelected(tracks[1..], rid)
  }

  lemma {:induction false} FirstSelectedFinds(tracks: seq<PublishTrack>, rid: string)
    ensures FirstSelected(tracks, rid).Some? <==> exists i :: 0 <= i < |tracks| && Selects(tracks[i], rid)
    ensures FirstSelected(tracks, rid).Some? ==> Selects(FirstSelected(tracks, rid).value, rid)
  {
    if tracks != [] && !Selects(tracks[0], rid) {
      FirstSelectedFinds(tracks[1..], rid);
      if exists i :: 0 <= i < |tracks| && Selects(tracks[i], rid) {
        var i :| 0 <= i < |tracks| && Selects(tracks[i], rid);
        assert tracks[1..][i - 1] == tracks[i];
      }
    }
  }

  lemma {:induction false} FirstOfKindFinds(tracks: seq<PublishTrack>, kind: Kind)
    ensures FirstOfKind(tracks, kind).Some? ==>
              FirstOfKind(tracks, kind).value in tracks && FirstOfKind(tracks, kind).value.kind == kind
  {
    if tracks != [] && tracks[0].kind != kind {
      FirstOfKindFinds(tracks[1..], kind);
    }
  }

  /** `i` is the first track of this kind. */
  predicate FirstTrack(tracks: seq<PublishTrack>, kind: Kind, i: int) {
    0 <= i < |tracks| && tracks[i].kind == kind && forall j :: 0 <= j < i ==> tracks[j].kind != kind
  }

  /** `i` is the first video track with this rid. */
  predicate FirstLayer(tracks: seq<PublishTrack>, rid: string, i: int) {
    && 0 <= i < |tracks| && tracks[i].kind == Video && tracks[i].rid == rid
    && forall j :: 0 <= j < i ==> !(tracks[j].kind == Video && tracks[j].rid == rid)
  }

  lemma {:induction false} FirstOfKindIsFirst(tracks: seq<PublishTrack>, kind: Kind)
    ensures forall i :: FirstTrack(tracks, kind, i) ==> FirstOfKind(tracks, kind) == Some(tracks[i])
    ensures FirstOfKind(tracks, kind) == None <==> forall j :: 0 <= j < |tracks| ==> tracks[j].kind != kind
  {
    if tracks != [] && tracks[0].kind != kind {
      var rest := tracks[1..];
      FirstOfKindIsFirst(rest, kind);
      forall i | FirstTrack(tracks, kind, i)
        ensures FirstOfKind(tracks, kind) == Some(tracks[i])
      {
        assert forall j :: 0 <= j < |rest| ==> rest[j] == tracks[j + 1];
        assert FirstTrack(rest, kind, i - 1);
      }
      assert forall j :: 0 < j < |tracks| ==> tracks[j] == rest[j - 1];
    }
  }

  lemma {:induction false} FirstSelectedIsFirst(tracks: seq<PublishTrack>, rid: string)
    ensures rid != "RID_ENABLE" ==> forall i :: FirstLayer(tracks, rid, i) ==> FirstSelected(tracks, rid) == Some(tracks[i])
    ensures rid == "RID_ENABLE" ==> forall i :: FirstTrack(tracks, Video, i) ==> FirstSelected(tracks, rid) == Some(tracks[i])
    ensures FirstSelected(tracks, rid) == None <==>
            forall j :: 0 <= j < |tracks| ==> !(tracks[j].kind == Video && (tracks[j].rid == rid || rid == "RID_ENABLE"))
    ensures rid != "RID_ENABLE" && FirstSelected(tracks, rid).Some? ==> exists i :: FirstLayer(tracks, rid, i)
  {
    if tracks != [] && Selects(tracks[0], rid) && rid != "RID_ENABLE" {
      assert FirstLayer(tracks, rid, 0);
    }
    if tracks != [] && !Selects(tracks[0], rid) {
      var rest := tracks[1..];
      assert forall j :: 0 <= j < |rest| ==> rest[j] == tracks[j + 1];
      assert forall j :: 0 < j < |tracks| ==> tracks[j] == rest[j - 1];
      FirstSelectedIsFirst(rest, rid);
      forall i | rid != "RID_ENABLE" && FirstLayer(tracks, rid, i)
        ensures FirstSelected(tracks, rid) == Some(tracks[i])
      {
        assert FirstLayer(rest, rid, i - 1);
      }
      forall i | rid == "RID_ENABLE" && FirstTrack(tracks, Video, i)
        ensures FirstSelected(tracks, rid) == Some(tracks[i])
      {
        assert FirstTrack(rest, Video, i - 1);
      }
      if i :| FirstLayer(rest, rid, i) {
        assert rid == "RID_ENABLE" || FirstLayer(tracks, rid, i + 1);
      }
    }
  }

  // ---- The three events ----

  function Attach(s: State, t: PublishTrack, rid: string): State {
    s.(source := Some(t), live := true, binding := Some(rid))
  }

  function Detach(s: State): State {
    s.(source := None, live := false)
  }

  /** The published tracks changed. */
  function OnTrackChange(kind: Kind, s: State, tracks: seq<PublishTrack>, replaceOk: bool): State {
    if tracks == [] then
      Detach(s).(preRid := None, binding := if s.binding == Some(RID_DISABLE) then s.binding else None)
    else if s.live || s.binding == Some(RID_DISABLE) then s
    else
      match FirstOfKind(tracks, kind)
      case None => s
      case Some(t) => if replaceOk then Attach(s, t, t.rid) else s
  }

  /** A packet arrives from the source. */
  function OnPacket(s: State, writeOk: bool): State {
    if !s.live then s
    else if !writeOk then s.(running := false)
    else s.(written := s.written + [s.sequenceNumber], sequenceNumber := WrappingNext(s.sequenceNumber))
  }

  /** The rid that a selection asks for; `None` if unmuting finds nothing to go back to. */
  function NewRid(kind: Kind, s: State, rid: string, tracks: seq<PublishTrack>): Option<string> {
    if s.binding == Some(RID_DISABLE) && rid == RID_ENABLE then
      if s.preRid.Some? then s.preRid
      else
        match FirstOfKind(tracks, kind)
        case None => None
        case Some(t) => Some(t.rid)
    else Some(rid)
  }

  /** A layer is selected for a kind. */
  function OnSelect(kind: Kind, s: State, forKind: Kind, rid: string, tracks: seq<PublishTrack>, replaceOk: bool): State {
    if forKind != kind || s.binding == Some(rid) then s
    else
      var wanted := NewRid(kind, s, rid, tracks);
      var s1 := if s.binding == Some(RID_DISABLE) && rid == RID_ENABLE then s.(binding := None) else s;
      if wanted == None then s1
      else if wanted.value == RID_DISABLE then
        (if s.binding.Some? then Detach(s1).(preRid := s.binding) else s1).(binding := Some(RID_DISABLE))
      else
        match FirstSelected(tracks, wanted.value)
        case None => s1
        case Some(t) => if replaceOk then Attach(s1, t, wanted.value) else s1
  }

  lemma SelectSwitches(kind: Kind, s: State, forKind: Kind, rid: string, tracks: seq<PublishTrack>, replaceOk: bool)
    ensures forKind == kind && rid != "RID_ENABLE" && rid != "RID_DISABLE"
            && s.binding != Some(rid) && s.binding != Some("RID_DISABLE") ==>
              var s' := OnSelect(kind, s, forKind, rid, tracks, replaceOk);
              && (forall i :: FirstLayer(tracks, rid, i) && replaceOk ==>
                    s'.source == Some(tracks[i]) && s'.live && s'.binding == Some(rid))
              && (!replaceOk || (forall i :: !FirstLayer(tracks, rid, i)) ==> s' == s)
  {
    FirstSelectedIsFirst(tracks, rid);
  }

  // ---- The task as an object ----

  class SenderForward {
    const kind: Kind
    var preRid: Option<string>
    var recv: Option<PublishTrack>
    var track: bool
    var sequenceNumber: u16
    /** The binding map of the subscriber, shared by its audio and video tasks. */
    var trackBindingPublishRid: map<Kind, string>
    var running: bool
    ghost var written: seq<u16>

    ghost function View(): State
      reads this
    {
      State(preRid, recv, track, sequenceNumber, Binding(), running, written)
    }

    function Binding(): Option<string>
      reads this
    {
      if kind in trackBindingPublishRid then Some(trackBindingPublishRid[kind]) else None
    }

    /** The other task's entry is not touched. */
    twostate predicate OtherKindsKept()
      reads this
    {
      forall k :: k != kind ==>
        (k in trackBindingPublishRid <==> k in old(trackBindingPublishRid))
        && (k in trackBindingPublishRid ==> trackBindingPublishRid[k] == old(trackBindingPublishRid[k]))
    }

    constructor (kind: Kind, bindings: map<Kind, string>)
      requires kind !in bindings
      ensures this.kind == kind && trackBindingPublishRid == bindings
      ensures View() == State(None, None, false, 0, None, true, [])
    {
      this.kind := kind;
      preRid, recv, track := None, None, false;
      sequenceNumber := 0;
      trackBindingPublishRid := bindings;
      running := true;
      written := [];
    }

    method TrackChange(publishTracks: seq<PublishTrack>, replaceOk: bool)
      modifies this
      ensures View() == OnTrackChange(kind, old(View()), publishTracks, replaceOk) && OtherKindsKept()
    {
      var currentRid := Binding();
      if publishTracks == [] {
        recv := None;
        track := false;
        preRid := None;
        if currentRid.Some? && currentRid.value != RID_DISABLE {
          trackBindingPublishRid := trackBindingPublishRid - {kind};
        }
        return;
      }
      if track {
        return;
      }
      if currentRid == Some(RID_DISABLE) {
        return;
      }
      var i := 0;
      while i < |publishTracks|
        invariant 0 <= i <= |publishTracks| && unchanged(this)
        invariant FirstOfKind(publishTracks[i..], kind) == FirstOfKind(publishTracks, kind)
      {
        var publishTrack := publishTracks[i];
        if publishTrack.kind != kind {
          i := i + 1;
          continue;
        }
        if replaceOk {
          recv := Some(publishTrack);
          track := true;
          trackBindingPublishRid := trackBindingPublishRid[kind := publishTrack.rid];
        }
        break;
      }
    }

    method Packet(writeOk: bool)
      modifies this
      ensures View() == OnPacket(old(View()), writeOk) && trackBindingPublishRid == old(trackBindingPublishRid)
    {
      if !track {
        return;
      }
      if !writeOk {
        running := false;
        return;
      }
      written := written + [sequenceNumber];
      sequenceNumber := WrappingNext(sequenceNumber);
    }

    method SelectLayer(forKind: Kind, selectRid: string, publishTracks: seq<PublishTrack>, replaceOk: bool)
      modifies this
      ensures View() == OnSelect(kind, old(View()), forKind, selectRid, publishTracks, replaceOk) && OtherKindsKept()
      ensures forKind == kind && selectRid != "RID_ENABLE" && selectRid != "RID_DISABLE"
              && old(Binding()) != Some(selectRid) && old(Binding()) != Some("RID_DISABLE") ==>
                && (forall i :: FirstLayer(publishTracks, selectRid, i) && replaceOk ==>
                      recv == Some(publishTracks[i]) && track && Binding() == Some(selectRid))
                && (!replaceOk || (forall i :: !FirstLayer(publishTracks, selectRid, i)) ==> View() == old(View()))
    {
      SelectSwitches(kind, View(), forKind, selectRid, publishTracks, replaceOk);
      hide FirstLayer;
      if forKind != kind {
        return;
      }
      var currentRid := Binding();
      if currentRid == Some(selectRid) {
        return;
      }
      var newRid := selectRid;
      if currentRid == Some(RID_DISABLE) && selectRid == RID_ENABLE {
        trackBindingPublishRid := trackBindingPublishRid - {kind};
        match preRid {
          case None =>
            var next := FirstOfKind(publishTracks, kind);
            if next == None {
              return;
            }
            newRid := next.value.rid;
          case Some(rid) => newRid := rid;
        }
      }
      if newRid == RID_DISABLE {
        if currentRid.Some? {
          recv := None;
          track := false;
          preRid := currentRid;
        }
        trackBindingPublishRid := trackBindingPublishRid[kind := newRid];
        return;
      }
      AttachSelected(newRid, publishTracks, replaceOk);
    }

    /** Attaches to the first video track with this rid. */
    method AttachSelected(newRid: string, publishTracks: seq<PublishTrack>, replaceOk: bool)
      modifies this
      ensures View() == match FirstSelected(publishTracks, newRid)
                        case None => old(View())
                        case Some(t) => if replaceOk then Attach(old(View()), t, newRid) else old(View())
      ensures OtherKindsKept()
    {
      var i := 0;
      while i < |publishTracks|
        invariant 0 <= i <= |publishTracks| && unchanged(this)
        invariant FirstSelected(publishTracks[i..], newRid) == FirstSelected(publishTracks, newRid)
      {
        var publishTrack := publishTracks[i];
        if publishTrack.kind == Video && (publishTrack.rid == newRid || newRid == RID_ENABLE) {
          if replaceOk {
            recv := Some(publishTrack);
            track := true;
            trackBindingPublishRid := trackBindingPublishRid[kind := newRid];
          }
          break;
        }
        i := i + 1;
      }
    }
  }

  // ---- Runs ----

  datatype Event = TracksChanged(tracks: seq<PublishTrack>, replaceOk: bool)
                 | PacketArrived(writeOk: bool)
                 | LayerSelected(forKind: Kind, rid: string, tracks: seq<PublishTrack>, replaceOk: bool)
                 | SelectorClosed

  function Step(kind: Kind, s: State, e: Event): State {
    if !s.running then s
    else
      match e
      case TracksChanged(tracks, ok) => OnTrackChange(kind, s, tracks, ok)
      case PacketArrived(ok) => OnPacket(s, ok)
      case LayerSelected(k, rid, tracks, ok) => OnSelect(kind, s, k, rid, tracks, ok)
      case SelectorClosed => s.(running := false)
  }

  const INITIAL: State := State(None, None, false, 0, None, true, [])

  /** The state after these events, from `s` on. */
  function After(kind: Kind, s: State, es: seq<Event>): State {
    if es == [] then s else Step(kind, After(kind, s, es[..|es| - 1]), es[|es| - 1])
  }

  function Run(kind: Kind, es: seq<Event>): State {
    After(kind, INITIAL, es)
  }

  /** No published track is named like the disable marker. */
  predicate ProperTracks(tracks: seq<PublishTrack>) {
    forall i :: 0 <= i < |tracks| ==> tracks[i].rid != RID_DISABLE
  }

  predicate ProperEvent(e: Event) {
    match e
    case TracksChanged(tracks, _) => ProperTracks(tracks)
    case LayerSelected(_, _, tracks, _) => ProperTracks(tracks)
    case _ => true
  }

  ghost predicate Proper(es: seq<Event>) {
    forall i :: 0 <= i < |es| ==> ProperEvent(es[i])
  }

  predicate Bound(s: State) {
    s.binding.Some? && s.binding.value != RID_DISABLE
  }

  /** Live, reading from a published track and bound to a rid are the same thing; the track read from
      is the one the binding names (or any, for the enable marker); and the numbers written so far are
      0, 1, 2, ... modulo 2^16. */
  ghost predicate Consistent(s: State) {
    && (s.live <==> Bound(s)) && (s.live <==> s.source.Some?)
    && (s.live ==> s.source.value.rid == s.binding.value || s.binding.value == RID_ENABLE)
    && s.preRid != Some(RID_DISABLE)
    && (forall n :: 0 <= n < |s.written| ==> s.written[n] == n % 0x1_0000)
    && s.sequenceNumber == |s.written| % 0x1_0000
  }

  lemma TrackChangeKeeps(kind: Kind, s: State, tracks: seq<PublishTrack>, ok: bool)
    requires Consistent(s) && ProperTracks(tracks)
    ensures Consistent(OnTrackChange(kind, s, tracks, ok))
  {
    FirstOfKindFinds(tracks, kind);
  }

  lemma PacketKeeps(s: State, ok: bool)
    requires Consistent(s)
    ensures Consistent(OnPacket(s, ok))
  {
    if s.live && ok {
      var s' := OnPacket(s, ok);
      assert s'.sequenceNumber == (|s.written| + 1) % 0x1_0000;
    }
  }

  lemma SelectKeeps(kind: Kind, s: State, forKind: Kind, rid: string, tracks: seq<PublishTrack>, ok: bool)
    requires Consistent(s) && ProperTracks(tracks)
    ensures Consistent(OnSelect(kind, s, forKind, rid, tracks, ok))
  {
    FirstOfKindFinds(tracks, kind);
    var wanted := NewRid(kind, s, rid, tracks);
    if wanted.Some? {
      FirstSelectedFinds(tracks, wanted.value);
    }
  }

  /** For every sequence of events. */
  lemma {:induction false} AlwaysConsistent(kind: Kind, es: seq<Event>)
    requires Proper(es)
    ensures Consistent(Run(kind, es))
  {
    hide Consistent, OnTrackChange, OnPacket, OnSelect;
    if es == [] {
      InitiallyConsistent();
    } else {
      var before, e := es[..|es| - 1], es[|es| - 1];
      AlwaysConsistent(kind, before);
      var s := Run(kind, before);
      match e
      case TracksChanged(tracks, ok) => TrackChangeKeeps(kind, s, tracks, ok);
      case PacketArrived(ok) => PacketKeeps(s, ok);
      case LayerSelected(k, rid, tracks, ok) => SelectKeeps(kind, s, k, rid, tracks, ok);
      case SelectorClosed => StoppingKeeps(s);
    }
  }

  lemma InitiallyConsistent()
    ensures Consistent(State(None, None, false, 0, None, true, []))
  {
  }

  lemma StoppingKeeps(s: State)
    requires Consistent(s)
    ensures Consistent(s.(running := false))
  {
  }

  /** A video subscriber reads from video tracks only. */
  lemma {:induction false} VideoReadsVideo(es: seq<Event>)
    ensures var s := Run(Video, es); s.source.Some? ==> s.source.value.kind == Video
  {
    if es != [] {
      VideoReadsVideo(es[..|es| - 1]);
      var s := Run(Video, es[..|es| - 1]);
      match es[|es| - 1]
      case TracksChanged(tracks, ok) => FirstOfKindFinds(tracks, Video);
      case LayerSelected(k, rid, tracks, ok) =>
        var wanted := NewRid(Video, s, rid, tracks);
        if wanted.Some? {
          FirstSelectedFinds(tracks, wanted.value);
        }
      case _ =>
    }
  }

  // ---- Mute and unmute ----

  /** An event that leaves a mute in place: anything but the end of the task, an unmute for this kind,
      and a selection for it that finds its track. */
  predicate Quiet(kind: Kind, e: Event) {
    && !e.SelectorClosed?
    && (e.LayerSelected? && e.forKind == kind && e.rid != RID_DISABLE ==>
          e.rid != RID_ENABLE && (FirstSelected(e.tracks, e.rid) == None || !e.replaceOk))
  }

  predicate AllQuiet(kind: Kind, es: seq<Event>) {
    forall i :: 0 <= i < |es| ==> Quiet(kind, es[i])
  }

  /** The publisher went away in between. */
  predicate WentOffline(es: seq<Event>) {
    exists i :: 0 <= i < |es| && es[i].TracksChanged? && es[i].tracks == []
  }

  function Muted(kind: Kind, s: State, now: seq<PublishTrack>, ok: bool): State {
    Step(kind, s, LayerSelected(kind, RID_DISABLE, now, ok))
  }

  function Unmuted(kind: Kind, s: State, later: seq<PublishTrack>, ok: bool): State {
    Step(kind, s, LayerSelected(kind, RID_ENABLE, later, ok))
  }

  /** A mute stands through every quiet run, packets and track changes included, and nothing is
      written; only the rid to go back to is forgotten if the publisher goes away. */
  lemma {:induction false} MuteStands(kind: Kind, s: State, es: seq<Event>)
    requires Consistent(s) && s.running && s.binding == Some(RID_DISABLE) && AllQuiet(kind, es)
    ensures After(kind, s, es) == s.(preRid := if WentOffline(es) then None else s.preRid)
  {
    hide Consistent;
    MutedIsIdle(s);
    if es != [] {
      var before, e := es[..|es| - 1], es[|es| - 1];
      MuteStands(kind, s, before);
      assert Quiet(kind, e);
      OfflineSnoc(es);
      assert s.(preRid := s.preRid) == s;
    }
  }

  lemma MutedIsIdle(s: State)
    requires Consistent(s) && s.binding == Some(RID_DISABLE)
    ensures !s.live && s.source == None
  {
  }

  lemma OfflineSnoc(es: seq<Event>)
    requires es != []
    ensures var e := es[|es| - 1];
            WentOffline(es) <==> WentOffline(es[..|es| - 1]) || (e.TracksChanged? && e.tracks == [])
  {
    var before := es[..|es| - 1];
    if WentOffline(es) {
      var i :| 0 <= i < |es| && es[i].TracksChanged? && es[i].tracks == [];
      if i < |before| {
        assert before[i] == es[i];
      }
    }
    if WentOffline(before) {
      var i :| 0 <= i < |before| && before[i].TracksChanged? && before[i].tracks == [];
      assert es[i] == before[i];
    }
  }

  lemma AfterOne(kind: Kind, s: State, es: seq<Event>, i: nat)
    requires i < |es|
    ensures After(kind, s, es[..i + 1]) == Step(kind, After(kind, s, es[..i]), es[i])
  {
    hide Step;
    assert es[..i + 1][..i] == es[..i];
  }

  /** And only quiet runs leave it in place: the first other event lifts it or ends the task. */
  lemma NoisyLifts(kind: Kind, s: State, e: Event)
    requires Consistent(s) && s.running && s.binding == Some(RID_DISABLE) && ProperEvent(e) && !Quiet(kind, e)
    ensures !MuteHolds(Step(kind, s, e))
  {
    if e.LayerSelected? {
      FirstOfKindFinds(e.tracks, kind);
    }
  }

  predicate MuteHolds(s: State) {
    s.running && s.binding == Some(RID_DISABLE)
  }

  /** A mute holds throughout a run exactly if every event is quiet. */
  lemma MuteStandsExactly(kind: Kind, s: State, es: seq<Event>)
    requires Consistent(s) && MuteHolds(s) && Proper(es)
    ensures (forall n :: 0 <= n <= |es| ==> MuteHolds(After(kind, s, es[..n]))) <==> AllQuiet(kind, es)
  {
    hide Consistent, After, Quiet, ProperEvent, Step;
    if AllQuiet(kind, es) {
      forall n | 0 <= n <= |es|
        ensures MuteHolds(After(kind, s, es[..n]))
      {
        assert forall i :: 0 <= i < n ==> es[..n][i] == es[i];
        MuteStands(kind, s, es[..n]);
      }
    } else {
      var i := FirstNoise(kind, es);
      assert forall j :: 0 <= j < i ==> es[..i][j] == es[j];
      MuteStands(kind, s, es[..i]);
      ForgettingKeeps(s);
      AfterOne(kind, s, es, i);
      assert ProperEvent(es[i]);
      NoisyLifts(kind, After(kind, s, es[..i]), es[i]);
      assert !MuteHolds(After(kind, s, es[..i + 1]));
    }
  }

  lemma ForgettingKeeps(s: State)
    requires Consistent(s)
    ensures Consistent(s.(preRid := None))
    ensures s.(preRid := s.preRid) == s
  {
  }

  lemma {:induction false} FirstNoise(kind: Kind, es: seq<Event>) returns (i: nat)
    requires !AllQuiet(kind, es)
    ensures i < |es| && !Quiet(kind, es[i]) && forall j :: 0 <= j < i ==> Quiet(kind, es[j])
  {
    hide Quiet;
    i := 0;
    while Quiet(kind, es[i])
      invariant i < |es| && forall j :: 0 <= j < i ==> Quiet(kind, es[j])
      decreases |es| - i
    {
      i := i + 1;
    }
  }

  /** Mute, any quiet events, unmute, for a live video subscriber. It is live again under the same rid
      exactly if the replacement succeeds and: the publisher stayed and a published video track answers
      to the rid; or the publisher went away in between and the first video track now published
      happens to be named by the rid. */
  lemma MuteUnmute(s: State, now: seq<PublishTrack>, ok: bool, es: seq<Event>, later: seq<PublishTrack>, ok': bool)
    requires Consistent(s) && s.live && s.running && AllQuiet(Video, es) && ProperTracks(later)
    ensures var muted := Muted(Video, s, now, ok);
            var before := After(Video, muted, es);
            var back := Unmuted(Video, before, later, ok');
            var rid := s.binding.value;
            && muted.binding == before.binding == Some(RID_DISABLE) && muted.source == before.source == None
            && back.written == before.written == s.written && back.sequenceNumber == s.sequenceNumber
            && (back.live && back.binding == s.binding <==>
                  ok' && if WentOffline(es) then FirstOfKind(later, Video).Some? && FirstOfKind(later, Video).value.rid == rid
                         else exists i :: 0 <= i < |later| && Selects(later[i], rid))
            && (back.live && back.binding == s.binding ==> Selects(back.source.value, rid))
  {
    var muted := Muted(Video, s, now, ok);
    MuteGoesSilent(Video, s, now, ok);
    MuteStands(Video, muted, es);
    var before := After(Video, muted, es);
    hide After, WentOffline, Muted, AllQuiet, ProperTracks;
    assert before == muted.(preRid := if WentOffline(es) then None else s.binding);
    if WentOffline(es) {
      BackToDefault(before, later, ok');
    } else {
      BackToRid(before, later, ok');
    }
  }

  lemma MuteGoesSilent(kind: Kind, s: State, now: seq<PublishTrack>, ok: bool)
    requires Consistent(s) && s.live && s.running
    ensures Muted(kind, s, now, ok) == s.(source := None, live := false, preRid := s.binding, binding := Some(RID_DISABLE))
    ensures Consistent(Muted(kind, s, now, ok))
  {
  }

  /** Unmuting while the rid is remembered. */
  lemma BackToRid(s: State, later: seq<PublishTrack>, ok: bool)
    requires s.running && !s.live && s.binding == Some(RID_DISABLE) && s.preRid.Some? && s.preRid != Some(RID_DISABLE)
    ensures var back := Unmuted(Video, s, later, ok);
            && (back.live && back.binding == s.preRid
                <==> ok && exists i :: 0 <= i < |later| && Selects(later[i], s.preRid.value))
            && (back.live ==> Selects(back.source.value, s.preRid.value))
            && back.written == s.written && back.sequenceNumber == s.sequenceNumber
  {
    FirstSelectedFinds(later, s.preRid.value);
  }

  /** Unmuting after the rid was forgotten: the first video track, if there is one. */
  lemma BackToDefault(s: State, later: seq<PublishTrack>, ok: bool)
    requires s.running && !s.live && s.binding == Some(RID_DISABLE) && s.preRid == None && ProperTracks(later)
    ensures var back := Unmuted(Video, s, later, ok);
            var first := FirstOfKind(later, Video);
            && (back.live <==> ok && first.Some?)
            && (back.live ==> back.binding == Some(first.value.rid) && Selects(back.source.value, first.value.rid))
            && back.written == s.written && back.sequenceNumber == s.sequenceNumber
  {
    FirstOfKindFinds(later, Video);
    var first := FirstOfKind(later, Video);
    if first.Some? {
      FirstSelectedFinds(later, first.value.rid);
      assert Selects(first.value, first.value.rid);
    }
  }

  /** The forgotten rid: muted on "h", the publisher gone and back with "l" and "h", unmuted on "l". */
  lemma RidForgotten()
    ensures var l, h := PublishTrack(Video, "l", 1), PublishTrack(Video, "h", 2);
            var muted := State(Some("h"), None, false, 0, Some(RID_DISABLE), true, []);
            Unmuted(Video, After(Video, muted, [TracksChanged([], true)]), [l, h], true).binding == Some("l")
  {
    var es := [TracksChanged([], true)];
    assert es[..0] == [];
  }

  // ---- Audio ----

  predicate ReadsVideo(s: State) {
    s.source.Some? && s.source.value.kind == Video
  }

  /** A selection for audio that finds a video track: the selection loop does not look at the task's own kind. */
  predicate Strays(s: State, e: Event) {
    && s.running && e.LayerSelected? && e.forKind == Audio && s.binding != Some(e.rid) && e.replaceOk
    && var wanted := NewRid(Audio, s, e.rid, e.tracks);
       wanted.Some? && wanted.value != RID_DISABLE && FirstSelected(e.tracks, wanted.value).Some?
  }

  /** One event gives an audio subscriber a video track only that way. */
  lemma StrayStep(s: State, e: Event)
    requires !ReadsVideo(s)
    ensures ReadsVideo(Step(Audio, s, e)) <==> Strays(s, e)
  {
    match e
    case TracksChanged(tracks, ok) => FirstOfKindFinds(tracks, Audio);
    case LayerSelected(k, rid, tracks, ok) =>
      var wanted := NewRid(Audio, s, rid, tracks);
      if wanted.Some? {
        FirstSelectedFinds(tracks, wanted.value);
      }
    case _ =>
  }

  lemma {:induction false} FirstStray(es: seq<Event>, n: nat) returns (i: nat)
    requires n <= |es| && ReadsVideo(Run(Audio, es[..n]))
    ensures i < n && Strays(Run(Audio, es[..i]), es[i])
    decreases n
  {
    hide Step, ReadsVideo, Strays;
    NothingRead(es);
    assert n > 0;
    i := n - 1;
    AfterOne(Audio, INITIAL, es, i);
    if ReadsVideo(Run(Audio, es[..i])) {
      i := FirstStray(es, i);
    } else {
      StrayStep(Run(Audio, es[..i]), es[i]);
    }
  }

  lemma NothingRead(es: seq<Event>)
    ensures !ReadsVideo(Run(Audio, es[..0]))
  {
  }

  /** Unlike a video subscriber, an audio subscriber can come to read video: at some point of a run it
      does exactly if some selection for audio strays. */
  lemma AudioReadsVideoExactly(es: seq<Event>)
    ensures (exists n :: 0 <= n <= |es| && ReadsVideo(Run(Audio, es[..n])))
            <==> exists i :: 0 <= i < |es| && Strays(Run(Audio, es[..i]), es[i])
  {
    hide Step, After, ReadsVideo, Strays;
    if n: nat :| n <= |es| && ReadsVideo(Run(Audio, es[..n])) {
      var i := FirstStray(es, n);
    }
    if i: nat :| i < |es| && Strays(Run(Audio, es[..i]), es[i]) {
      AfterOne(Audio, INITIAL, es, i);
      if !ReadsVideo(Run(Audio, es[..i])) {
        StrayStep(Run(Audio, es[..i]), es[i]);
        assert ReadsVideo(Run(Audio, es[..i + 1]));
      }
    }
  }

  /** Such a run: audio is enabled once more while it is on already. */
  lemma StrayRun()
    ensures var a, l := PublishTrack(Audio, "a", 1), PublishTrack(Video, "l", 2);
            Run(Audio, [TracksChanged([a, l], true), LayerSelected(Audio, RID_ENABLE, [a, l], true)]).source == Some(l)
  {
    var a, l := PublishTrack(Audio, "a", 1), PublishTrack(Video, "l", 2);
    var e0, e1 := TracksChanged([a, l], true), LayerSelected(Audio, RID_ENABLE, [a, l], true);
    assert [e0, e1][..1] == [e0] && [e0][..0] == [];
    assert After(Audio, INITIAL, [e0]) == Step(Audio, INITIAL, e0);
    assert After(Audio, INITIAL, [e0, e1]) == Step(Audio, After(Audio, INITIAL, [e0]), e1);
    var s := After(Audio, INITIAL, [e0]);
    assert s.source == Some(a) && s.binding == Some("a");
    assert |"a"| < |RID_ENABLE| < |RID_DISABLE|;
    assert NewRid(Audio, s, RID_ENABLE, [a, l]) == Some(RID_ENABLE);
    assert [a, l][1..] == [l];
    assert FirstSelected([a, l], RID_ENABLE) == Some(l);
  }

  predicate ReadsAudio(s: State) {
    s.source.Some? && s.source.value.kind == Audio
  }

  /** A track change that brings an idle, unmuted audio subscriber an audio track. */
  predicate Reattaches(s: State, e: Event) {
    && s.running && !s.live && s.binding != Some(RID_DISABLE)
    && e.TracksChanged? && e.replaceOk && FirstOfKind(e.tracks, Audio).Some?
  }

  /** One event gives an audio subscriber an audio track only that way: the selection loop considers
      video tracks alone. */
  lemma AudioStep(s: State, e: Event)
    requires !ReadsAudio(s)
    ensures ReadsAudio(Step(Audio, s, e)) <==> Reattaches(s, e)
  {
    match e
    case TracksChanged(tracks, ok) => FirstOfKindFinds(tracks, Audio);
    case LayerSelected(k, rid, tracks, ok) =>
      var wanted := NewRid(Audio, s, rid, tracks);
      if wanted.Some? {
        FirstSelectedFinds(tracks, wanted.value);
      }
    case _ =>
  }

  lemma {:induction false} FirstRead(s: State, es: seq<Event>, n: nat) returns (i: nat)
    requires !ReadsAudio(s) && n <= |es| && ReadsAudio(After(Audio, s, es[..n]))
    ensures i < n && Reattaches(After(Audio, s, es[..i]), es[i])
    decreases n
  {
    hide Step, ReadsAudio, Reattaches;
    assert n > 0 by {
      assert es[..0] == [];
    }
    i := n - 1;
    AfterOne(Audio, s, es, i);
    if ReadsAudio(After(Audio, s, es[..i])) {
      i := FirstRead(s, es, i);
    } else {
      AudioStep(After(Audio, s, es[..i]), es[i]);
    }
  }

  /** It reads audio at some point of a run exactly if such a track change arrives. */
  lemma AudioReadAgain(s: State, es: seq<Event>)
    requires !ReadsAudio(s)
    ensures (exists n :: 0 <= n <= |es| && ReadsAudio(After(Audio, s, es[..n])))
            <==> exists i :: 0 <= i < |es| && Reattaches(After(Audio, s, es[..i]), es[i])
  {
    hide Step, After, ReadsAudio, Reattaches;
    if n: nat :| n <= |es| && ReadsAudio(After(Audio, s, es[..n])) {
      var i := FirstRead(s, es, n);
    }
    if i: nat :| i < |es| && Reattaches(After(Audio, s, es[..i]), es[i]) {
      AfterOne(Audio, s, es, i);
      if !ReadsAudio(After(Audio, s, es[..i])) {
        AudioStep(After(Audio, s, es[..i]), es[i]);
        assert ReadsAudio(After(Audio, s, es[..i + 1]));
      }
    }
  }

  /** Unmuting does not bring a muted audio subscriber back to audio. From then on it reads audio
      again exactly if a track change with an audio track and a successful replacement arrives while it
      is idle and unmuted. */
  lemma AudioUnmuteExactly(s: State, now: seq<PublishTrack>, ok: bool, between: seq<Event>, later: seq<PublishTrack>, ok': bool,
                           es: seq<Event>)
    requires Consistent(s) && s.live && s.running && AllQuiet(Audio, between)
    ensures var back := Unmuted(Audio, After(Audio, Muted(Audio, s, now, ok), between), later, ok');
            && !ReadsAudio(back)
            && ((exists n :: 0 <= n <= |es| && ReadsAudio(After(Audio, back, es[..n])))
                <==> exists i :: 0 <= i < |es| && Reattaches(After(Audio, back, es[..i]), es[i]))
  {
    hide After, Consistent, AllQuiet;
    var muted := Muted(Audio, s, now, ok);
    MuteGoesSilent(Audio, s, now, ok);
    MuteStands(Audio, muted, between);
    var before := After(Audio, muted, between);
    var e := LayerSelected(Audio, RID_ENABLE, later, ok');
    hide Muted;
    AudioStep(before, e);
    assert !Reattaches(before, e);
    AudioReadAgain(Unmuted(Audio, before, later, ok'), es);
  }

  /** With only audio published, unmuting leaves the subscriber idle and unmuted, so the very next
      successful track change attaches it again. */
  lemma AudioComesBack(s: State, later: seq<PublishTrack>, ok: bool, tracks: seq<PublishTrack>)
    requires Consistent(s) && s.running && s.binding == Some(RID_DISABLE) && ProperTracks(later)
    requires forall i :: 0 <= i < |later| ==> later[i].kind == Audio
    ensures var back := Unmuted(Audio, s, later, ok);
            && !back.live && back.binding == None
            && (tracks != [] ==>
                  OnTrackChange(Audio, back, tracks, true).source == FirstOfKind(tracks, Audio))
  {
    FirstOfKindFinds(later, Audio);
    var wanted := NewRid(Audio, s, RID_ENABLE, later);
    if wanted.Some? {
      FirstSelectedFinds(later, wanted.value);
    }
  }

  /** A run that shows both: silent after the unmute, back on audio after the next track change. */
  lemma AudioRun()
    ensures var t := PublishTrack(Audio, "a", 1);
            var es := [TracksChanged([t], true), LayerSelected(Audio, RID_DISABLE, [t], true), LayerSelected(Audio, RID_ENABLE, [t], true)];
            && !Run(Audio, es).live && Run(Audio, es + [TracksChanged([t], true)]).source == Some(t)
  {
    var t := PublishTrack(Audio, "a", 1);
    var e0, e1, e2 := TracksChanged([t], true), LayerSelected(Audio, RID_DISABLE, [t], true), LayerSelected(Audio, RID_ENABLE, [t], true);
    var es := [e0, e1, e2];
    assert es[..2] == [e0, e1] && [e0, e1][..1] == [e0] && [e0][..0] == [] && (es + [e0])[..3] == es;
    assert After(Audio, INITIAL, [e0]) == Step(Audio, INITIAL, e0);
    assert After(Audio, INITIAL, [e0, e1]) == Step(Audio, After(Audio, INITIAL, [e0]), e1);
    assert After(Audio, INITIAL, es) == Step(Audio, After(Audio, INITIAL, [e0, e1]), e2);
  }
}
