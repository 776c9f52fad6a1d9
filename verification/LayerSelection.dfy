/** What the events of a sender task come to, said without the functions that compute them, and which
    layer a video subscriber is on after any run. */
module LayerSelection {
  import opened Octets
  import opened LayerSwitch

  // ---- One event ----

  /** A layer is selected while the subscriber is not muted: it goes to the first video track with
      this rid if there is one and the sender accepts it, and stays as it is otherwise. */
  lemma SelectionSwitches(kind: Kind, s: State, rid: string, tracks: seq<PublishTrack>, ok: bool)
    requires s.running && s.binding != Some("RID_DISABLE") && s.binding != Some(rid)
    requires rid != "RID_ENABLE" && rid != "RID_DISABLE"
    ensures var s' := Step(kind, s, LayerSelected(kind, rid, tracks, ok));
            && (forall i :: FirstLayer(tracks, rid, i) && ok ==>
                  && s'.source == Some(tracks[i]) && s'.live && s'.binding == Some(rid)
                  && s'.running && s'.preRid == s.preRid && s'.written == s.written && s'.sequenceNumber == s.sequenceNumber)
            && (!ok || (forall j :: 0 <= j < |tracks| ==> !(tracks[j].kind == Video && tracks[j].rid == rid)) ==> s' == s)
  {
    FirstSelectedIsFirst(tracks, rid);
  }

  /** Enabling a subscriber that is not muted: any video track will do. */
  lemma EnableSwitches(kind: Kind, s: State, tracks: seq<PublishTrack>, ok: bool)
    requires s.running && s.binding != Some("RID_DISABLE") && s.binding != Some("RID_ENABLE")
    ensures var s' := Step(kind, s, LayerSelected(kind, "RID_ENABLE", tracks, ok));
            && (forall i :: FirstTrack(tracks, Video, i) && ok ==>
                  s' == s.(source := Some(tracks[i]), live := true, binding := Some("RID_ENABLE")))
            && (!ok || (forall j :: 0 <= j < |tracks| ==> tracks[j].kind != Video) ==> s' == s)
  {
    assert |"RID_ENABLE"| == 10 && |"RID_DISABLE"| == 11;
    FirstSelectedIsFirst(tracks, "RID_ENABLE");
  }

  /** Muting: the source and the local track go and the binding is remembered; a subscriber that had
      none is bound to the marker and nothing else changes. */
  lemma MuteMeans(kind: Kind, s: State, tracks: seq<PublishTrack>, ok: bool)
    requires s.running && s.binding != Some("RID_DISABLE")
    ensures var s' := Step(kind, s, LayerSelected(kind, "RID_DISABLE", tracks, ok));
            && (s.binding.Some? ==>
                  s' == s.(preRid := s.binding, source := None, live := false, binding := Some("RID_DISABLE")))
            && (s.binding == None ==> s' == s.(binding := Some("RID_DISABLE")))
  {
    assert |"RID_ENABLE"| == 10 && |"RID_DISABLE"| == 11;
  }

  /** The rid an unmute goes back to: the remembered one, or that of the first track of the kind. */
  ghost predicate GoesBackTo(kind: Kind, s: State, tracks: seq<PublishTrack>, rid: string) {
    if s.preRid.Some? then s.preRid == Some(rid)
    else exists i :: FirstTrack(tracks, kind, i) && tracks[i].rid == rid
  }

  /** Unmuting: the marker goes at once; the subscriber is attached to the first video track that
      answers to the rid it goes back to, and is left unbound if there is none, if the sender refuses
      it, or if there is no rid to go back to. */
  lemma UnmuteMeans(kind: Kind, s: State, tracks: seq<PublishTrack>, ok: bool, rid: string)
    requires s.running && s.binding == Some("RID_DISABLE")
    requires rid != "RID_DISABLE"
    ensures var s' := Step(kind, s, LayerSelected(kind, "RID_ENABLE", tracks, ok));
            && (GoesBackTo(kind, s, tracks, rid) ==>
                  && (forall i :: (if rid == "RID_ENABLE" then FirstTrack(tracks, Video, i) else FirstLayer(tracks, rid, i)) && ok ==>
                        s' == s.(source := Some(tracks[i]), live := true, binding := Some(rid)))
                  && (!ok || (forall j :: 0 <= j < |tracks| ==>
                                !(tracks[j].kind == Video && (tracks[j].rid == rid || rid == "RID_ENABLE"))) ==>
                        s' == s.(binding := None)))
            && (s.preRid == None && (forall j :: 0 <= j < |tracks| ==> tracks[j].kind != kind) ==> s' == s.(binding := None))
  {
    assert |"RID_ENABLE"| == 10 && |"RID_DISABLE"| == 11;
    WantedRid(kind, s, tracks, rid);
    FirstSelectedIsFirst(tracks, rid);
    hide GoesBackTo, NewRid, FirstSelected;
  }

  lemma WantedRid(kind: Kind, s: State, tracks: seq<PublishTrack>, rid: string)
    requires s.binding == Some("RID_DISABLE")
    ensures GoesBackTo(kind, s, tracks, rid) ==> NewRid(kind, s, "RID_ENABLE", tracks) == Some(rid)
    ensures s.preRid == None && (forall j :: 0 <= j < |tracks| ==> tracks[j].kind != kind) ==>
              NewRid(kind, s, "RID_ENABLE", tracks) == None
  {
    FirstOfKindIsFirst(tracks, kind);
    hide FirstOfKind;
  }

  /** Every other selection leaves the task alone: one for the other kind, and one for the rid it is
      bound to already. */
  lemma OtherSelections(kind: Kind, s: State, forKind: Kind, rid: string, tracks: seq<PublishTrack>, ok: bool)
    requires forKind != kind || s.binding == Some(rid)
    ensures Step(kind, s, LayerSelected(forKind, rid, tracks, ok)) == s
  {
  }

  /** The published tracks change. With none left the subscriber is detached and forgets its rid, and
      its binding unless it is muted; a live or muted one stays as it is; an idle one is attached to
      the first track of its kind if the sender accepts it. */
  lemma TrackChangeMeans(kind: Kind, s: State, tracks: seq<PublishTrack>, ok: bool)
    requires s.running
    ensures var s' := Step(kind, s, TracksChanged(tracks, ok));
            if tracks == [] then
              && s'.source == None && !s'.live && s'.preRid == None && s'.running
              && (s.binding == Some("RID_DISABLE") ==> s'.binding == s.binding)
              && (s.binding != Some("RID_DISABLE") ==> s'.binding == None)
              && s'.written == s.written && s'.sequenceNumber == s.sequenceNumber
            else if s.live || s.binding == Some("RID_DISABLE") then s' == s
            else
              && (forall i :: FirstTrack(tracks, kind, i) && ok ==>
                    s' == s.(source := Some(tracks[i]), live := true, binding := Some(tracks[i].rid)))
              && (!ok || (forall j :: 0 <= j < |tracks| ==> tracks[j].kind != kind) ==> s' == s)
  {
    FirstOfKindIsFirst(tracks, kind);
  }

  /** A packet leaves under the task's own next number, and only from a live subscriber; a failed
      write ends the task. */
  lemma PacketMeans(kind: Kind, s: State, ok: bool)
    requires s.running
    ensures var s' := Step(kind, s, PacketArrived(ok));
            if !s.live then s' == s
            else if !ok then s' == s.(running := false)
            else s' == s.(written := s.written + [s.sequenceNumber], sequenceNumber := (s.sequenceNumber + 1) % 65536)
  {
  }

  /** Once the task has ended nothing changes, and a closed selection channel ends it. */
  lemma EndMeans(kind: Kind, s: State, e: Event)
    ensures !s.running ==> Step(kind, s, e) == s
    ensures s.running ==> Step(kind, s, SelectorClosed) == s.(running := false)
  {
  }

  // ---- Runs ----

  /** A selection for video that can be honoured: not a mute, accepted, and answered by a published
      video track. */
  predicate Honoured(e: Event) {
    && e.LayerSelected? && e.forKind == Video && e.replaceOk && e.rid != "RID_DISABLE"
    && exists i :: 0 <= i < |e.tracks| && e.tracks[i].kind == Video && (e.tracks[i].rid == e.rid || e.rid == "RID_ENABLE")
  }

  /** The rid of the last selection that could be honoured, `rid` if there was none. */
  function LastHonoured(es: seq<Event>, rid: string): (r: string)
    ensures (forall i :: 0 <= i < |es| ==> !Honoured(es[i])) ==> r == rid
    ensures forall i :: 0 <= i < |es| && Honoured(es[i]) && (forall j :: i < j < |es| ==> !Honoured(es[j])) ==> r == es[i].rid
  {
    if es == [] then rid
    else
      var before := es[..|es| - 1];
      assert forall i :: 0 <= i < |before| ==> before[i] == es[i];
      if Honoured(es[|es| - 1]) then es[|es| - 1].rid else LastHonoured(before, rid)
  }

  /** An event that does not take a live video subscriber off its track. */
  predicate Undisturbing(e: Event) {
    match e
    case TracksChanged(tracks, _) => tracks != []
    case PacketArrived(ok) => ok
    case LayerSelected(kind, rid, _, _) => kind != Video || rid != "RID_DISABLE"
    case SelectorClosed => false
  }

  ghost predicate Undisturbed(es: seq<Event>) {
    forall i :: 0 <= i < |es| ==> Undisturbing(es[i])
  }

  predicate Receiving(s: State) {
    s.running && s.live && s.binding.Some? && s.binding != Some("RID_DISABLE")
  }

  /** One event of a receiving video subscriber: it goes on receiving exactly if the event does not
      disturb it, and then on the rid that could be honoured last. */
  lemma ReceivingStep(s: State, e: Event)
    requires Receiving(s)
    ensures Receiving(Step(Video, s, e)) <==> Undisturbing(e)
    ensures Undisturbing(e) ==> Step(Video, s, e).binding == Some(if Honoured(e) then e.rid else s.binding.value)
    ensures Undisturbing(e) || !Step(Video, s, e).live || !Step(Video, s, e).running
  {
    assert |"RID_ENABLE"| == 10 && |"RID_DISABLE"| == 11;
    if e.LayerSelected? {
      FirstSelectedFinds(e.tracks, e.rid);
    }
  }

  /** Over any run that does not disturb it, a receiving video subscriber is on the last rid whose
      selection could be honoured. */
  lemma {:induction false} OnLastHonoured(s: State, es: seq<Event>)
    requires Receiving(s) && Undisturbed(es)
    ensures var s' := After(Video, s, es);
            Receiving(s') && s'.binding == Some(LastHonoured(es, s.binding.value))
  {
    hide Step, Honoured, Undisturbing, Receiving;
    ReceivingBound(s);
    if es != [] {
      var before, e := es[..|es| - 1], es[|es| - 1];
      OnLastHonoured(s, before);
      ReceivingStep(After(Video, s, before), e);
      ReceivingBound(After(Video, s, before));
    }
  }

  lemma ReceivingBound(s: State)
    requires Receiving(s)
    ensures s.binding.Some?
  {
  }

  /** The run from the attachment on: the subscriber was not live before its event, is live after it,
      and nothing has disturbed it since. */
  ghost predicate SinceAttached(es: seq<Event>, j: int) {
    && 0 < j <= |es|
    && !Run(Video, es[..j - 1]).live && Receiving(Run(Video, es[..j])) && Undisturbed(es[j..])
  }

  /** After every list of events, a live video subscriber is on the last rid whose selection could be
      honoured since it was attached. */
  lemma {:induction false} AlwaysOnLastHonoured(es: seq<Event>) returns (j: nat)
    requires Proper(es) && Run(Video, es).live && Run(Video, es).running
    ensures SinceAttached(es, j)
    ensures Run(Video, es).binding == Some(LastHonoured(es[j..], Run(Video, es[..j]).binding.value))
  {
    hide Step, Honoured, Undisturbing, Receiving, LastHonoured;
    j := Attachment(es);
    OnLastHonoured(Run(Video, es[..j]), es[j..]);
    AfterSplit(INITIAL, es, j);
  }

  lemma {:induction false} Attachment(es: seq<Event>) returns (j: nat)
    requires Proper(es) && Run(Video, es).live && Run(Video, es).running
    ensures SinceAttached(es, j)
  {
    hide Step, Honoured, Undisturbing, Receiving, ProperEvent;
    assert es != [];
    var before, e := es[..|es| - 1], es[|es| - 1];
    AlwaysConsistent(Video, es);
    AlwaysConsistent(Video, before);
    LiveReceives(Run(Video, es));
    assert es[..|es|] == es;
    if Run(Video, before).live {
      RunningBefore(Run(Video, before), e);
      LiveReceives(Run(Video, before));
      ReceivingStep(Run(Video, before), e);
      j := Attachment(before);
      assert before[..j] == es[..j] && before[..j - 1] == es[..j - 1];
      assert es[j..] == before[j..] + [e];
    } else {
      j := |es|;
    }
  }

  lemma RunningBefore(s: State, e: Event)
    requires Step(Video, s, e).running
    ensures s.running
  {
  }

  lemma LiveReceives(s: State)
    requires Consistent(s) && s.live && s.running
    ensures Receiving(s)
  {
  }

  lemma {:induction false} AfterSplit(s: State, es: seq<Event>, j: nat)
    requires j <= |es|
    ensures After(Video, s, es) == After(Video, After(Video, s, es[..j]), es[j..])
  {
    hide Step;
    if j == |es| {
      assert es[..j] == es;
    } else {
      var before := es[..|es| - 1];
      AfterSplit(s, before, j);
      assert before[..j] == es[..j] && before[j..] == es[j..][..|es| - j - 1];
    }
  }
}
