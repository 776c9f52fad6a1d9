/** A stream's life cycle: its publisher and subscribers, the leave times, the gauges, and the
    manager's map with its two timeout ticks. */
module ForwardLifecycle {
  import opened Octets

  datatype Subscriber = Subscriber(id: string, cascade: bool)

  datatype EventKind = PublishUp | PublishDown | SubscribeUp | SubscribeDown | ReforwardUp | ReforwardDown

  datatype ForwardEvent = ForwardEvent(kind: EventKind, id: string)

  /** One forward: its publisher, when the last publisher and the last subscriber left (0: not gone),
      the subscribers, and the events sent so far. Times are milliseconds since the epoch. */
  datatype Forward = Forward(publish: Option<string>, publishLeaveAt: int, subscribeLeaveAt: int,
                             group: seq<Subscriber>, events: seq<ForwardEvent>)

  /** The publish, subscribe and reforward gauges, or what they should read. */
  datatype Load = Load(publish: int, subscribe: int, reforward: int)

  function NewForward(now: int): Forward {
    Forward(None, 0, now, [], [])
  }

  // ---- The subscriber group ----

  function FindFirst(group: seq<Subscriber>, id: string): Option<Subscriber> {
    if group == [] then None
    else if group[0].id == id then Some(group[0])
    else FindFirst(group[1..], id)
  }

  function RemoveFirst(group: seq<Subscriber>, id: string): seq<Subscriber> {
    if group == [] then []
    else if group[0].id == id then group[1..]
    else [group[0]] + RemoveFirst(group[1..], id)
  }

  /** How many subscribers carry this id, how many of them relay the stream further, and how many
      relays there are at all. */
  function Sessions(group: seq<Subscriber>, id: string): nat {
    if group == [] then 0 else OneIf(group[0].id == id) + Sessions(group[1..], id)
  }

  function Relays(group: seq<Subscriber>, id: string): nat {
    if group == [] then 0 else OneIf(group[0].id == id && group[0].cascade) + Relays(group[1..], id)
  }

  function RelayCount(group: seq<Subscriber>): nat {
    if group == [] then 0 else OneIf(group[0].cascade) + RelayCount(group[1..])
  }

  function OneIf(b: bool): nat {
    if b then 1 else 0
  }

  lemma {:induction false} FirstAt(group: seq<Subscriber>, id: string, i: nat)
    requires i < |group| && group[i].id == id
    requires forall j :: 0 <= j < i ==> group[j].id != id
    ensures FindFirst(group, id) == Some(group[i])
    ensures RemoveFirst(group, id) == group[..i] + group[i + 1..]
  {
    if i > 0 {
      FirstAt(group[1..], id, i - 1);
      assert [group[0]] + (group[1..][..i - 1] + group[1..][i..]) == group[..i] + group[i + 1..];
    }
  }

  lemma {:induction false} FirstNowhere(group: seq<Subscriber>, id: string)
    requires forall j :: 0 <= j < |group| ==> group[j].id != id
    ensures FindFirst(group, id) == None && RemoveFirst(group, id) == group
  {
    if group != [] {
      FirstNowhere(group[1..], id);
    }
  }

  lemma {:induction false} GroupSnoc(group: seq<Subscriber>, s: Subscriber, id: string)
    ensures Sessions(group + [s], id) == Sessions(group, id) + OneIf(s.id == id)
    ensures Relays(group + [s], id) == Relays(group, id) + OneIf(s.id == id && s.cascade)
    ensures RelayCount(group + [s]) == RelayCount(group) + OneIf(s.cascade)
  {
    if group == [] {
      assert group + [s] == [s];
    } else {
      GroupSnoc(group[1..], s, id);
      assert (group + [s])[1..] == group[1..] + [s];
    }
  }

  lemma {:induction false} GroupRemoved(group: seq<Subscriber>, gone: string, id: string)
    requires FindFirst(group, gone).Some?
    ensures var s, rest := FindFirst(group, gone).value, RemoveFirst(group, gone);
            && s.id == gone && |rest| == |group| - 1
            && Sessions(group, id) == Sessions(rest, id) + OneIf(gone == id)
            && Relays(group, id) == Relays(rest, id) + OneIf(gone == id && s.cascade)
            && RelayCount(group) == RelayCount(rest) + OneIf(s.cascade)
  {
    if group[0].id != gone {
      GroupRemoved(group[1..], gone, id);
      assert RemoveFirst(group, gone)[1..] == RemoveFirst(group[1..], gone);
    }
  }

  lemma {:induction false} NotFound(group: seq<Subscriber>, id: string)
    requires FindFirst(group, id) == None
    ensures RemoveFirst(group, id) == group
  {
    if group != [] {
      NotFound(group[1..], id);
    }
  }

  // ---- The four operations on a forward ----

  datatype ForwardOp = Publish(id: string, peerOk: bool)
                     | Unpublish(id: string, at: int)
                     | Subscribe(subscriber: Subscriber)
                     | Unsubscribe(id: string, at: int)

  predicate Succeeds(f: Forward, op: ForwardOp) {
    match op
    case Publish(_, peerOk) => f.publish == None && peerOk
    case Unpublish(id, _) => f.publish == Some(id)
    case Subscribe(_) => true
    case Unsubscribe(id, _) => FindFirst(f.group, id).Some?
  }

  function Up(s: Subscriber): seq<ForwardEvent> {
    [ForwardEvent(SubscribeUp, s.id)] + if s.cascade then [ForwardEvent(ReforwardUp, s.id)] else []
  }

  function Down(s: Subscriber): seq<ForwardEvent> {
    [ForwardEvent(SubscribeDown, s.id)] + if s.cascade then [ForwardEvent(ReforwardDown, s.id)] else []
  }

  function Apply(f: Forward, op: ForwardOp): Forward {
    match op
    case Publish(id, _) =>
      if !Succeeds(f, op) then f
      else f.(publish := Some(id), publishLeaveAt := 0, events := f.events + [ForwardEvent(PublishUp, id)])
    case Unpublish(id, at) =>
      if !Succeeds(f, op) then f
      else f.(publish := None, publishLeaveAt := at, events := f.events + [ForwardEvent(PublishDown, id)])
    case Subscribe(s) =>
      f.(group := f.group + [s], subscribeLeaveAt := 0, events := f.events + Up(s))
    case Unsubscribe(id, at) =>
      var rest := RemoveFirst(f.group, id);
      var found := FindFirst(f.group, id);
      f.(group := rest, subscribeLeaveAt := if rest == [] then at else f.subscribeLeaveAt,
         events := if found.Some? then f.events + Down(found.value) else f.events)
  }

  /** The gauges after an operation on a forward. */
  function Count(g: Load, f: Forward, op: ForwardOp): Load {
    if !Succeeds(f, op) then g
    else
      match op
      case Publish(_, _) => g.(publish := g.publish + 1)
      case Unpublish(_, _) => g.(publish := g.publish - 1)
      case Subscribe(s) =>
        g.(subscribe := g.subscribe + 1, reforward := if s.cascade then g.reforward + 1 else g.reforward)
      case Unsubscribe(id, _) =>
        var s := FindFirst(f.group, id).value;
        g.(subscribe := g.subscribe - 1, reforward := if s.cascade then g.reforward - 1 else g.reforward)
  }

  // ---- What the operations come to ----

  /** A publisher comes: only if there is none, and the connection could be set up. */
  lemma PublishMeans(f: Forward, g: Load, id: string, peerOk: bool)
    ensures var op := Publish(id, peerOk);
            if f.publish == None && peerOk then
              && Succeeds(f, op) && Count(g, f, op) == Load(g.publish + 1, g.subscribe, g.reforward)
              && Apply(f, op) == Forward(Some(id), 0, f.subscribeLeaveAt, f.group, f.events + [ForwardEvent(PublishUp, id)])
            else !Succeeds(f, op) && Apply(f, op) == f && Count(g, f, op) == g
  {
  }

  /** It goes: only the current one can, and the time it left is the time of the removal. */
  lemma UnpublishMeans(f: Forward, g: Load, id: string, at: int)
    ensures var op := Unpublish(id, at);
            if f.publish == Some(id) then
              && Succeeds(f, op) && Count(g, f, op) == Load(g.publish - 1, g.subscribe, g.reforward)
              && Apply(f, op) == Forward(None, at, f.subscribeLeaveAt, f.group, f.events + [ForwardEvent(PublishDown, id)])
            else !Succeeds(f, op) && Apply(f, op) == f && Count(g, f, op) == g
  {
  }

  /** A subscriber comes, always: it goes to the end of the group. */
  lemma SubscribeMeans(f: Forward, g: Load, s: Subscriber)
    ensures var op := Subscribe(s);
            && Succeeds(f, op) && Count(g, f, op) == Load(g.publish, g.subscribe + 1, g.reforward + if s.cascade then 1 else 0)
            && Apply(f, op) == Forward(f.publish, f.publishLeaveAt, 0, f.group + [s], Apply(f, op).events)
            && Apply(f, op).events == f.events + [ForwardEvent(SubscribeUp, s.id)]
                                      + if s.cascade then [ForwardEvent(ReforwardUp, s.id)] else []
  {
  }

  /** The first subscriber of the group with this id. */
  predicate FirstWith(group: seq<Subscriber>, id: string, i: int) {
    0 <= i < |group| && group[i].id == id && forall j :: 0 <= j < i ==> group[j].id != id
  }

  /** It goes: the first one of the id, and no other; a group that is empty then was left at the time of
      the removal. */
  lemma UnsubscribeMeans(f: Forward, g: Load, id: string, at: int, i: nat)
    requires FirstWith(f.group, id, i)
    ensures var op, rest, relay := Unsubscribe(id, at), f.group[..i] + f.group[i + 1..], f.group[i].cascade;
            && Succeeds(f, op) && Count(g, f, op) == Load(g.publish, g.subscribe - 1, g.reforward - if relay then 1 else 0)
            && Apply(f, op) == Forward(f.publish, f.publishLeaveAt, if rest == [] then at else f.subscribeLeaveAt, rest,
                                       f.events + ([ForwardEvent(SubscribeDown, id)]
                                                   + if relay then [ForwardEvent(ReforwardDown, id)] else []))
  {
    FirstAt(f.group, id, i);
    hide FindFirst, RemoveFirst;
  }

  /** Nobody has the id: an error, but a group that is empty anyway was left now. */
  lemma UnsubscribeMisses(f: Forward, g: Load, id: string, at: int)
    requires forall i :: 0 <= i < |f.group| ==> f.group[i].id != id
    ensures var op := Unsubscribe(id, at);
            && !Succeeds(f, op) && Count(g, f, op) == g
            && Apply(f, op) == f.(subscribeLeaveAt := if f.group == [] then at else f.subscribeLeaveAt)
  {
    FirstNowhere(f.group, id);
    hide FindFirst, RemoveFirst;
  }

  // ---- When they left ----

  /** A forward created at `now`, after these operations. */
  function AfterOps(now: int, ops: seq<ForwardOp>): Forward {
    if ops == [] then NewForward(now) else Apply(AfterOps(now, ops[..|ops| - 1]), ops[|ops| - 1])
  }

  /** When a subscriber was last removed or asked to be; the creation if never. */
  function LastUnsubscribe(now: int, ops: seq<ForwardOp>): int {
    if ops == [] then now
    else if ops[|ops| - 1].Unsubscribe? then ops[|ops| - 1].at
    else LastUnsubscribe(now, ops[..|ops| - 1])
  }

  /** When the last publisher was removed; 0 if none ever was. */
  function LastUnpublish(now: int, ops: seq<ForwardOp>): int {
    if ops == [] then 0
    else
      var before, op := ops[..|ops| - 1], ops[|ops| - 1];
      if op.Unpublish? && AfterOps(now, before).publish == Some(op.id) then op.at else LastUnpublish(now, before)
  }

  /** Over every run of a forward: without subscribers the leave time is that of the last removal, or
      the creation, and 0 with some; without publisher it is that of the last publisher's removal, or 0
      if there never was one, and 0 with one. */
  lemma {:induction false} LeaveTimes(now: int, ops: seq<ForwardOp>)
    ensures var f := AfterOps(now, ops);
            && f.subscribeLeaveAt == (if f.group == [] then LastUnsubscribe(now, ops) else 0)
            && f.publishLeaveAt == (if f.publish == None then LastUnpublish(now, ops) else 0)
  {
    if ops != [] {
      var before := ops[..|ops| - 1];
      LeaveTimes(now, before);
      hide FindFirst, RemoveFirst, Up, Down;
      if ops[|ops| - 1].Unsubscribe? {
        NoneFromNone(AfterOps(now, before).group, ops[|ops| - 1].id);
      }
    }
  }

  lemma NoneFromNone(group: seq<Subscriber>, id: string)
    ensures group == [] ==> RemoveFirst(group, id) == []
  {
  }

  // ---- The forward as an object ----

  class Metrics {
    var publish: int
    var subscribe: int
    var reforward: int
    var stream: int

    function View(): Load
      reads this
    {
      Load(publish, subscribe, reforward)
    }
  }

  class PeerForwardInternal {
    var publish: Option<string>
    var publishLeaveAt: int
    var subscribeLeaveAt: int
    var subscribeGroup: seq<Subscriber>
    ghost var events: seq<ForwardEvent>

    ghost function View(): Forward
      reads this
    {
      Forward(publish, publishLeaveAt, subscribeLeaveAt, subscribeGroup, events)
    }

    constructor (now: int)
      ensures View() == NewForward(now)
    {
      publish := None;
      publishLeaveAt := 0;
      subscribeLeaveAt := now;
      subscribeGroup := [];
      events := [];
    }

    method SetPublish(metrics: Metrics, id: string, peerOk: bool) returns (ok: bool)
      modifies this, metrics
      ensures View() == Apply(old(View()), Publish(id, peerOk)) && ok == Succeeds(old(View()), Publish(id, peerOk))
      ensures metrics.View() == Count(old(metrics.View()), old(View()), Publish(id, peerOk))
      ensures metrics.stream == old(metrics.stream)
    {
      if publish.Some? || !peerOk {
        return false;
      }
      publish := Some(id);
      publishLeaveAt := 0;
      metrics.publish := metrics.publish + 1;
      events := events + [ForwardEvent(PublishUp, id)];
      return true;
    }

    method RemovePublish(metrics: Metrics, id: string, now: int) returns (ok: bool)
      modifies this, metrics
      ensures View() == Apply(old(View()), Unpublish(id, now)) && ok == Succeeds(old(View()), Unpublish(id, now))
      ensures metrics.View() == Count(old(metrics.View()), old(View()), Unpublish(id, now))
      ensures metrics.stream == old(metrics.stream)
    {
      if publish == None {
        return false;
      }
      if publish.value != id {
        return false;
      }
      publish := None;
      publishLeaveAt := now;
      metrics.publish := metrics.publish - 1;
      events := events + [ForwardEvent(PublishDown, id)];
      return true;
    }

    method AddSubscribe(metrics: Metrics, s: Subscriber)
      modifies this, metrics
      ensures View() == Apply(old(View()), Subscribe(s))
      ensures metrics.View() == Count(old(metrics.View()), old(View()), Subscribe(s))
      ensures metrics.stream == old(metrics.stream)
    {
      subscribeGroup := subscribeGroup + [s];
      subscribeLeaveAt := 0;
      metrics.subscribe := metrics.subscribe + 1;
      if s.cascade {
        metrics.reforward := metrics.reforward + 1;
      }
      events := events + Up(s);
    }

    method RemoveSubscribe(metrics: Metrics, id: string, now: int) returns (ok: bool)
      modifies this, metrics
      ensures View() == Apply(old(View()), Unsubscribe(id, now)) && ok == Succeeds(old(View()), Unsubscribe(id, now))
      ensures metrics.View() == Count(old(metrics.View()), old(View()), Unsubscribe(id, now))
      ensures metrics.stream == old(metrics.stream)
    {
      var i := 0;
      while i < |subscribeGroup| && subscribeGroup[i].id != id
        invariant 0 <= i <= |subscribeGroup|
        invariant forall j :: 0 <= j < i ==> subscribeGroup[j].id != id
      {
        i := i + 1;
      }
      ok := i < |subscribeGroup|;
      if ok {
        FirstAt(subscribeGroup, id, i);
        var s := subscribeGroup[i];
        metrics.subscribe := metrics.subscribe - 1;
        if s.cascade {
          metrics.reforward := metrics.reforward - 1;
        }
        subscribeGroup := subscribeGroup[..i] + subscribeGroup[i + 1..];
        events := events + Down(s);
      } else {
        FirstNowhere(subscribeGroup, id);
      }
      if subscribeGroup == [] {
        subscribeLeaveAt := now;
      }
    }
  }

  // ---- What a forward always satisfies ----

  function Tally(events: seq<ForwardEvent>, e: ForwardEvent): nat {
    if events == [] then 0 else Tally(events[..|events| - 1], e) + OneIf(events[|events| - 1] == e)
  }

  predicate EverPublished(events: seq<ForwardEvent>) {
    events != [] && (EverPublished(events[..|events| - 1]) || events[|events| - 1].kind == PublishUp)
  }

  /** What someone who only sees the publish events knows: nobody publishes, one session does, or the
      events do not fit a single publisher at a time. */
  datatype Trail = Idle | Held(id: string) | Broken

  function NextTrail(t: Trail, e: ForwardEvent): Trail {
    match e.kind
    case PublishUp => if t == Idle then Held(e.id) else Broken
    case PublishDown => if t == Held(e.id) then Idle else Broken
    case _ => t
  }

  function Holder(events: seq<ForwardEvent>): Trail {
    if events == [] then Idle else NextTrail(Holder(events[..|events| - 1]), events[|events| - 1])
  }

  /** Sessions under an id are those that came minus those that left; so for relays. */
  ghost predicate Balanced(f: Forward, id: string) {
    && Sessions(f.group, id) + Tally(f.events, ForwardEvent(SubscribeDown, id)) == Tally(f.events, ForwardEvent(SubscribeUp, id))
    && Relays(f.group, id) + Tally(f.events, ForwardEvent(ReforwardDown, id)) == Tally(f.events, ForwardEvent(ReforwardUp, id))
  }

  /** The publish events alternate and name the current publisher; the publisher-left time is set
      exactly if somebody published and nobody does now; the subscriber-left time is set exactly if the
      group is empty. */
  ghost predicate Tracked(f: Forward) {
    && Holder(f.events) == (if f.publish.Some? then Held(f.publish.value) else Idle)
    && f.publishLeaveAt >= 0 && f.subscribeLeaveAt >= 0
    && (f.publishLeaveAt > 0 <==> f.publish == None && EverPublished(f.events))
    && (f.publish.Some? ==> EverPublished(f.events))
    && (f.subscribeLeaveAt > 0 <==> f.group == [])
  }

  ghost predicate Inv(f: Forward) {
    Tracked(f) && forall id :: Balanced(f, id)
  }

  function LoadOf(f: Forward): Load {
    Load(OneIf(f.publish.Some?), |f.group|, RelayCount(f.group))
  }

  predicate ProperOp(op: ForwardOp) {
    (op.Unpublish? || op.Unsubscribe?) ==> op.at > 0
  }

  lemma Logged(events: seq<ForwardEvent>, e: ForwardEvent, other: ForwardEvent)
    ensures Holder(events + [e]) == NextTrail(Holder(events), e)
    ensures EverPublished(events + [e]) <==> EverPublished(events) || e.kind == PublishUp
    ensures Tally(events + [e], other) == Tally(events, other) + OneIf(e == other)
  {
    assert (events + [e])[..|events|] == events;
  }

  /** A subscriber comes (`up`) or goes: one event for it, a second one if it relays. */
  lemma LoggedSubscriber(events: seq<ForwardEvent>, s: Subscriber, up: bool, other: ForwardEvent)
    ensures var es := events + if up then Up(s) else Down(s);
            && Holder(es) == Holder(events) && EverPublished(es) == EverPublished(events)
            && Tally(es, other) == Tally(events, other)
                                   + OneIf(other == ForwardEvent(if up then SubscribeUp else SubscribeDown, s.id))
                                   + OneIf(s.cascade && other == ForwardEvent(if up then ReforwardUp else ReforwardDown, s.id))
  {
    hide Holder, EverPublished, Tally;
    var first := ForwardEvent(if up then SubscribeUp else SubscribeDown, s.id);
    var second := ForwardEvent(if up then ReforwardUp else ReforwardDown, s.id);
    var one := events + [first];
    var es := events + if up then Up(s) else Down(s);
    Logged(events, first, other);
    if s.cascade {
      Logged(one, second, other);
      assert es == one + [second];
    } else {
      assert es == one;
    }
  }

  /** Every operation keeps the publisher trail and the leave times. */
  lemma OpTracks(f: Forward, op: ForwardOp)
    requires Tracked(f) && ProperOp(op)
    ensures Tracked(Apply(f, op))
  {
    hide Holder, EverPublished, Tally, FindFirst, RemoveFirst, Up, Down;
    match op
    case Publish(id, _) => Logged(f.events, ForwardEvent(PublishUp, id), ForwardEvent(PublishUp, id));
    case Unpublish(id, _) => Logged(f.events, ForwardEvent(PublishDown, id), ForwardEvent(PublishUp, id));
    case Subscribe(s) => LoggedSubscriber(f.events, s, true, ForwardEvent(SubscribeUp, s.id));
    case Unsubscribe(id, _) => UnsubscribeTracks(f, op);
  }

  lemma UnsubscribeTracks(f: Forward, op: ForwardOp)
    requires Tracked(f) && ProperOp(op) && op.Unsubscribe?
    ensures Tracked(Apply(f, op))
  {
    hide Holder, EverPublished, Tally, Sessions, Relays, RelayCount, FindFirst, RemoveFirst, Up, Down;
    var found := FindFirst(f.group, op.id);
    if found.Some? {
      assert f.group != [] by { FoundInside(f.group, op.id); }
      LoggedSubscriber(f.events, found.value, false, ForwardEvent(SubscribeUp, op.id));
    } else {
      NotFound(f.group, op.id);
    }
  }

  lemma FoundInside(group: seq<Subscriber>, id: string)
    requires FindFirst(group, id).Some?
    ensures group != []
  {
  }

  /** Every operation keeps the balance of every session id. */
  lemma OpBalances(f: Forward, op: ForwardOp, id: string)
    requires Balanced(f, id)
    ensures Balanced(Apply(f, op), id)
  {
    hide Holder, EverPublished, Tally, Sessions, Relays, RelayCount, FindFirst, RemoveFirst, Up, Down;
    match op
    case Publish(p, _) => LoggedElsewhere(f.events, ForwardEvent(PublishUp, p), id);
    case Unpublish(p, _) => LoggedElsewhere(f.events, ForwardEvent(PublishDown, p), id);
    case Subscribe(s) =>
      GroupSnoc(f.group, s, id);
      LoggedFour(f.events, s, true, id);
    case Unsubscribe(gone, _) =>
      var found := FindFirst(f.group, gone);
      if found.Some? {
        GroupRemoved(f.group, gone, id);
        LoggedFour(f.events, found.value, false, id);
      } else {
        NotFound(f.group, gone);
      }
  }

  lemma LoggedElsewhere(events: seq<ForwardEvent>, e: ForwardEvent, id: string)
    requires e.kind == PublishUp || e.kind == PublishDown
    ensures forall k :: k != e.kind ==> Tally(events + [e], ForwardEvent(k, id)) == Tally(events, ForwardEvent(k, id))
  {
    hide Holder, EverPublished, Tally;
    forall k | k != e.kind
      ensures Tally(events + [e], ForwardEvent(k, id)) == Tally(events, ForwardEvent(k, id))
    {
      Logged(events, e, ForwardEvent(k, id));
    }
  }

  lemma LoggedFour(events: seq<ForwardEvent>, s: Subscriber, up: bool, id: string)
    ensures var es := events + if up then Up(s) else Down(s);
            && Tally(es, ForwardEvent(SubscribeUp, id)) == Tally(events, ForwardEvent(SubscribeUp, id)) + OneIf(up && s.id == id)
            && Tally(es, ForwardEvent(SubscribeDown, id)) == Tally(events, ForwardEvent(SubscribeDown, id)) + OneIf(!up && s.id == id)
            && Tally(es, ForwardEvent(ReforwardUp, id)) == Tally(events, ForwardEvent(ReforwardUp, id)) + OneIf(up && s.id == id && s.cascade)
            && Tally(es, ForwardEvent(ReforwardDown, id)) == Tally(events, ForwardEvent(ReforwardDown, id)) + OneIf(!up && s.id == id && s.cascade)
  {
    hide Holder, EverPublished, Tally, Up, Down;
    LoggedSubscriber(events, s, up, ForwardEvent(SubscribeUp, id));
    LoggedSubscriber(events, s, up, ForwardEvent(SubscribeDown, id));
    LoggedSubscriber(events, s, up, ForwardEvent(ReforwardUp, id));
    LoggedSubscriber(events, s, up, ForwardEvent(ReforwardDown, id));
  }

  /** Every operation moves the gauges by what really changed on the forward. */
  lemma OpCounts(f: Forward, op: ForwardOp, g: Load)
    ensures Count(g, f, op) == Plus(Minus(g, LoadOf(f)), LoadOf(Apply(f, op)))
  {
    hide Sessions, Relays, RelayCount, FindFirst, RemoveFirst;
    match op
    case Publish(_, _) =>
    case Unpublish(_, _) =>
    case Subscribe(s) => GroupSnoc(f.group, s, s.id);
    case Unsubscribe(gone, _) =>
      if FindFirst(f.group, gone).Some? {
        GroupRemoved(f.group, gone, gone);
      } else {
        NotFound(f.group, gone);
      }
  }

  lemma OpKeeps(f: Forward, op: ForwardOp)
    requires Inv(f) && ProperOp(op)
    ensures Inv(Apply(f, op))
  {
    hide Tracked, Balanced, Apply;
    OpTracks(f, op);
    forall id
      ensures Balanced(Apply(f, op), id)
    {
      assert Balanced(f, id);
      OpBalances(f, op, id);
    }
  }

  function Plus(a: Load, b: Load): Load {
    Load(a.publish + b.publish, a.subscribe + b.subscribe, a.reforward + b.reforward)
  }

  function Minus(a: Load, b: Load): Load {
    Load(a.publish - b.publish, a.subscribe - b.subscribe, a.reforward - b.reforward)
  }

  // ---- The manager's map and its timeout ticks ----

  datatype Side = PublishSide | SubscribeSide

  /** The test of a tick's first pass, under the read lock. The subscriber tick compares against the
      time the publisher left. */
  predicate Candidate(side: Side, f: Forward, now: int, timeout: int) {
    match side
    case PublishSide => f.publishLeaveAt > 0 && now - f.publishLeaveAt > timeout
    case SubscribeSide => f.subscribeLeaveAt > 0 && now - f.publishLeaveAt > timeout
  }

  /** The test of the second pass, under the write lock. */
  predicate Expired(side: Side, f: Forward, now: int, timeout: int) {
    match side
    case PublishSide => f.publishLeaveAt > 0 && now - f.publishLeaveAt > timeout
    case SubscribeSide => f.subscribeLeaveAt > 0 && now - f.subscribeLeaveAt > timeout
  }

  /** The streams that the second pass removes when it is given these names. */
  function Doomed(infos: map<string, Forward>, names: seq<string>, side: Side, now: int, timeout: int): set<string> {
    set n | n in infos.Keys && n in names && Expired(side, infos[n], now, timeout)
  }

  /** `m` is `n` without some names. */
  ghost predicate SameForwards(m: map<string, PeerForwardInternal>, n: map<string, PeerForwardInternal>) {
    forall x :: x in m ==> x in n && m[x] == n[x]
  }

  lemma SameKeys(m: map<string, PeerForwardInternal>, n: map<string, PeerForwardInternal>)
    requires m.Keys == n.Keys && SameForwards(m, n)
    ensures m == n
  {
  }

  class Manager {
    var streamMap: map<string, PeerForwardInternal>
    const metrics: Metrics

    ghost function Infos(): (r: map<string, Forward>)
      reads this, streamMap.Values
      ensures r.Keys == streamMap.Keys
    {
      map n | n in streamMap :: streamMap[n].View()
    }

    constructor (metrics: Metrics)
      ensures this.metrics == metrics && streamMap == map[]
    {
      this.metrics := metrics;
      streamMap := map[];
    }

    /** Creates a stream unless there is one; what publishing and subscribing do first if the
        configuration lets them. */
    method StreamCreate(stream: string, now: int) returns (ok: bool)
      modifies this`streamMap, metrics`stream
      ensures ok == (stream !in old(streamMap))
      ensures Infos() == if ok then old(Infos())[stream := NewForward(now)] else old(Infos())
      ensures ok ==> stream in streamMap && fresh(streamMap[stream]) && streamMap == old(streamMap)[stream := streamMap[stream]]
      ensures !ok ==> streamMap == old(streamMap)
      ensures metrics.stream == old(metrics.stream) + OneIf(ok)
    {
      if stream in streamMap {
        return false;
      }
      var forward := new PeerForwardInternal(now);
      metrics.stream := metrics.stream + 1;
      streamMap := streamMap[stream := forward];
      return true;
    }

    method StreamDelete(stream: string) returns (ok: bool)
      modifies this`streamMap, metrics`stream
      ensures ok == (stream in old(streamMap))
      ensures Infos() == old(Infos()) - {stream} && streamMap == old(streamMap) - {stream}
      ensures metrics.stream == old(metrics.stream) - OneIf(ok)
    {
      if stream !in streamMap {
        return false;
      }
      streamMap := streamMap - {stream};
      metrics.stream := metrics.stream - 1;
      return true;
    }

    /** First pass of a tick: the candidates, in no particular order. */
    method CollectCandidates(side: Side, now: int, timeout: int) returns (names: seq<string>)
      ensures forall n :: n in names <==> n in Infos() && Candidate(side, Infos()[n], now, timeout)
    {
      names := [];
      var left := streamMap.Keys;
      while left != {}
        invariant left <= streamMap.Keys
        invariant forall n :: n in names <==> n in Infos() && n !in left && Candidate(side, Infos()[n], now, timeout)
        decreases |left|
      {
        var n :| n in left;
        left := left - {n};
        var forward := streamMap[n];
        if side == PublishSide {
          if forward.publishLeaveAt > 0 && now - forward.publishLeaveAt > timeout {
            names := names + [n];
          }
        } else {
          if forward.subscribeLeaveAt > 0 && now - forward.publishLeaveAt > timeout {
            names := names + [n];
          }
        }
      }
    }

    /** Second pass: each name that is still there and still expired goes, and the stream gauge is
        decremented twice for it. */
    method RemoveExpired(names: seq<string>, side: Side, now: int, timeout: int)
      modifies this`streamMap, metrics`stream
      ensures Infos() == old(Infos()) - Doomed(old(Infos()), names, side, now, timeout)
      ensures streamMap == old(streamMap) - Doomed(old(Infos()), names, side, now, timeout)
      ensures metrics.stream == old(metrics.stream) - 2 * |Doomed(old(Infos()), names, side, now, timeout)|
    {
      hide Doomed, Expired;
      ghost var infos := Infos();
      DoomedByNone(infos, side, now, timeout);
      var i := 0;
      while i < |names|
        invariant 0 <= i <= |names|
        invariant Infos() == infos - Doomed(infos, names[..i], side, now, timeout)
        invariant SameForwards(streamMap, old(streamMap))
        invariant metrics.stream == old(metrics.stream) - 2 * |Doomed(infos, names[..i], side, now, timeout)|
      {
        DoomedSnoc(infos, names, i, side, now, timeout);
        var removed := RemoveIfExpired(names[i], side, now, timeout);
        i := i + 1;
      }
      assert names[..i] == names;
      SameKeys(streamMap, old(streamMap) - Doomed(infos, names, side, now, timeout));
    }

    method RemoveIfExpired(n: string, side: Side, now: int, timeout: int) returns (removed: bool)
      modifies this`streamMap, metrics`stream
      ensures removed == (n in old(Infos()) && Expired(side, old(Infos())[n], now, timeout))
      ensures Infos() == old(Infos()) - if removed then {n} else {}
      ensures SameForwards(streamMap, old(streamMap))
      ensures metrics.stream == old(metrics.stream) - 2 * OneIf(removed)
    {
      if n !in streamMap {
        return false;
      }
      var forward := streamMap[n];
      var leaveAt := if side == PublishSide then forward.publishLeaveAt else forward.subscribeLeaveAt;
      if leaveAt > 0 && now - leaveAt > timeout {
        streamMap := streamMap - {n};
        metrics.stream := metrics.stream - 1;
        metrics.stream := metrics.stream - 1;
        return true;
      }
      return false;
    }
  }

  lemma DoomedByNone(infos: map<string, Forward>, side: Side, now: int, timeout: int)
    ensures Doomed(infos, [], side, now, timeout) == {}
  {
  }

  /** One more name: it is removed if it is still there and expired. */
  lemma DoomedSnoc(infos: map<string, Forward>, names: seq<string>, i: nat, side: Side, now: int, timeout: int)
    requires i < |names|
    ensures var before, after := Doomed(infos, names[..i], side, now, timeout), Doomed(infos, names[..i + 1], side, now, timeout);
            var rest := infos - before;
            var removed := names[i] in rest && Expired(side, rest[names[i]], now, timeout);
            && infos - after == rest - (if removed then {names[i]} else {})
            && |after| == |before| + OneIf(removed)
  {
    hide Doomed, Expired;
    var n, before := names[i], Doomed(infos, names[..i], side, now, timeout);
    DoomedNext(infos, names, i, side, now, timeout);
    if n in infos && Expired(side, infos[n], now, timeout) {
      LessOne(infos, before, n);
    }
  }

  lemma DoomedNext(infos: map<string, Forward>, names: seq<string>, i: nat, side: Side, now: int, timeout: int)
    requires i < |names|
    ensures Doomed(infos, names[..i + 1], side, now, timeout)
            == Doomed(infos, names[..i], side, now, timeout)
               + (if names[i] in infos && Expired(side, infos[names[i]], now, timeout) then {names[i]} else {})
  {
    hide Expired;
    assert names[..i + 1] == names[..i] + [names[i]];
  }

  lemma LessOne(infos: map<string, Forward>, gone: set<string>, n: string)
    ensures infos - (gone + {n}) == infos - gone - (if n in gone then {} else {n})
    ensures |gone + {n}| == |gone| + OneIf(n !in gone)
  {
    if n in gone {
      assert gone + {n} == gone;
    }
  }

  /** A whole tick, its second pass `later`: with no interference a stream goes exactly if it passes
      both tests. */
  lemma TickRemoves(infos: map<string, Forward>, names: seq<string>, side: Side, now: int, later: int, timeout: int, n: string)
    requires forall x :: x in names <==> x in infos && Candidate(side, infos[x], now, timeout)
    requires now <= later && n in infos && Inv(infos[n])
    ensures var f, gone := infos[n], n in Doomed(infos, names, side, later, timeout);
            match side
            case PublishSide =>
              gone <==> f.publish == None && EverPublished(f.events) && now - f.publishLeaveAt > timeout
            case SubscribeSide =>
              gone <==> f.group == [] && later - f.subscribeLeaveAt > timeout && now - f.publishLeaveAt > timeout
  {
    hide Holder, EverPublished;
  }

  /** A stream without subscribers for longer than the timeout should go. It does exactly if its
      publisher did not leave within the timeout. */
  lemma SubscriberTimeoutExactly(infos: map<string, Forward>, names: seq<string>, now: int, later: int, timeout: int, n: string)
    requires forall x :: x in names <==> x in infos && Candidate(SubscribeSide, infos[x], now, timeout)
    requires now <= later && n in infos && Inv(infos[n])
    requires infos[n].group == [] && now - infos[n].subscribeLeaveAt > timeout
    ensures n in Doomed(infos, names, SubscribeSide, later, timeout) <==> now - infos[n].publishLeaveAt > timeout
  {
    hide Inv;
    TickRemoves(infos, names, SubscribeSide, now, later, timeout, n);
  }

  /** Nobody has subscribed for over a minute, yet a publisher that left ten seconds ago keeps the
      stream past a thirty-second subscriber timeout. */
  lemma SubscriberTimeoutDelayed()
    ensures var f := Apply(Apply(NewForward(1_000), Publish("p", true)), Unpublish("p", 60_000));
            && f.group == [] && 70_000 - f.subscribeLeaveAt > 30_000
            && !Candidate(SubscribeSide, f, 70_000, 30_000)
  {
  }

  // ---- Runs ----

  /** Every forward ever created (a forward removed from the map lives on with its sessions), the
      streams by name, the gauges, and how many streams a tick removed. */
  datatype System = System(forwards: seq<Forward>, streams: map<string, nat>, gauges: Load, stream: int, timeouts: nat)

  datatype Action = Create(name: string, now: int)
                  | Delete(name: string)
                  | Expire(side: Side, names: seq<string>, now: int, timeout: int)
                  | OnForward(k: nat, op: ForwardOp)

  predicate ProperAction(a: Action) {
    match a
    case Create(_, now) => now > 0
    case OnForward(_, op) => ProperOp(op)
    case _ => true
  }

  predicate Wired(s: System) {
    forall n :: n in s.streams ==> s.streams[n] < |s.forwards|
  }

  function Infos(s: System): (r: map<string, Forward>)
    requires Wired(s)
    ensures r.Keys == s.streams.Keys
  {
    map n | n in s.streams :: s.forwards[s.streams[n]]
  }

  /** The second pass of a tick works on whatever names its first pass found some time before. */
  function Step(s: System, a: Action): (r: System)
    requires Wired(s)
    ensures Wired(r)
  {
    match a
    case Create(name, now) =>
      if name in s.streams then s
      else s.(forwards := s.forwards + [NewForward(now)], streams := s.streams[name := |s.forwards|], stream := s.stream + 1)
    case Delete(name) =>
      if name !in s.streams then s else s.(streams := s.streams - {name}, stream := s.stream - 1)
    case Expire(side, names, now, timeout) =>
      var doomed := Doomed(Infos(s), names, side, now, timeout);
      s.(streams := s.streams - doomed, stream := s.stream - 2 * |doomed|, timeouts := s.timeouts + |doomed|)
    case OnForward(k, op) =>
      if k >= |s.forwards| then s
      else s.(forwards := s.forwards[k := Apply(s.forwards[k], op)], gauges := Count(s.gauges, s.forwards[k], op))
  }

  function Run(actions: seq<Action>): (r: System)
    ensures Wired(r)
  {
    if actions == [] then System([], map[], Load(0, 0, 0), 0, 0) else Step(Run(actions[..|actions| - 1]), actions[|actions| - 1])
  }

  function Total(forwards: seq<Forward>): Load {
    if forwards == [] then Load(0, 0, 0)
    else Plus(Total(forwards[..|forwards| - 1]), LoadOf(forwards[|forwards| - 1]))
  }

  /** Each forward is in order, no two names share one, the gauges read what the forwards hold, and
      the stream gauge is short by one for each stream that timed out. */
  ghost predicate Healthy(s: System) {
    && Wired(s)
    && (forall k :: 0 <= k < |s.forwards| ==> Inv(s.forwards[k]))
    && OneEach(s.streams)
    && s.gauges == Total(s.forwards)
    && s.stream + s.timeouts == |s.streams|
  }

  ghost predicate OneEach(streams: map<string, nat>) {
    forall m, n :: m in streams && n in streams && streams[m] == streams[n] ==> m == n
  }

  lemma OneEachShrinks(streams: map<string, nat>, gone: set<string>)
    requires OneEach(streams)
    ensures OneEach(streams - gone)
  {
  }

  lemma {:induction false} TotalChanged(forwards: seq<Forward>, k: nat, f: Forward)
    requires k < |forwards|
    ensures Total(forwards[k := f]) == Plus(Minus(Total(forwards), LoadOf(forwards[k])), LoadOf(f))
  {
    hide LoadOf;
    var n := |forwards| - 1;
    if k < n {
      TotalChanged(forwards[..n], k, f);
      assert forwards[k := f][..n] == forwards[..n][k := f];
    } else {
      assert forwards[k := f][..n] == forwards[..n];
    }
  }

  lemma CreateKeeps(s: System, name: string, now: int)
    requires Healthy(s) && now > 0
    ensures Healthy(Step(s, Create(name, now)))
  {
    hide Inv;
    if name !in s.streams {
      var forwards := s.forwards + [NewForward(now)];
      assert forwards[..|s.forwards|] == s.forwards;
      assert Inv(NewForward(now)) by { NewIsInOrder(now); }
    }
  }

  lemma NewIsInOrder(now: int)
    requires now > 0
    ensures Inv(NewForward(now))
  {
  }

  /** Taking streams out of the map. */
  lemma Shrunk(streams: map<string, nat>, gone: set<string>)
    requires gone <= streams.Keys
    ensures |streams - gone| == |streams| - |gone|
  {
    var rest := streams - gone;
    assert rest.Keys == streams.Keys - gone;
    assert |rest| == |rest.Keys| && |streams| == |streams.Keys|;
  }

  lemma MapKeeps(s: System, a: Action)
    requires Healthy(s) && (a.Delete? || a.Expire?)
    ensures Healthy(Step(s, a))
  {
    hide Inv, Total, Expired, Infos, OneEach;
    match a
    case Delete(name) =>
      if name in s.streams {
        OneEachShrinks(s.streams, {name});
        Shrunk(s.streams, {name});
      }
    case Expire(side, names, now, timeout) =>
      var doomed := Doomed(Infos(s), names, side, now, timeout);
      OneEachShrinks(s.streams, doomed);
      Shrunk(s.streams, doomed);
  }

  lemma OpKeepsHealth(s: System, k: nat, op: ForwardOp)
    requires Healthy(s) && ProperOp(op)
    ensures Healthy(Step(s, OnForward(k, op)))
  {
    hide Inv, Total, Apply, Count, LoadOf;
    if k < |s.forwards| {
      var f := s.forwards[k];
      OpKeeps(f, op);
      OpCounts(f, op, s.gauges);
      TotalChanged(s.forwards, k, Apply(f, op));
    }
  }

  /** Over every interleaving of the operations, both ticks included. */
  lemma {:induction false} AlwaysHealthy(actions: seq<Action>)
    requires forall i :: 0 <= i < |actions| ==> ProperAction(actions[i])
    ensures Healthy(Run(actions))
  {
    hide Healthy, Step;
    if actions == [] {
      EmptyIsHealthy();
    } else {
      var before, a := actions[..|actions| - 1], actions[|actions| - 1];
      AlwaysHealthy(before);
      var s := Run(before);
      match a
      case Create(name, now) => CreateKeeps(s, name, now);
      case OnForward(k, op) => OpKeepsHealth(s, k, op);
      case _ => MapKeeps(s, a);
    }
  }

  lemma EmptyIsHealthy()
    ensures Healthy(System([], map[], Load(0, 0, 0), 0, 0))
  {
  }

  /** The second pass of a tick finds nothing to remove. */
  predicate Spares(s: System, a: Action)
    requires Wired(s)
  {
    a.Expire? ==> Doomed(Infos(s), a.names, a.side, a.now, a.timeout) == {}
  }

  lemma StepTimesOut(s: System, a: Action)
    requires Wired(s)
    ensures Step(s, a).timeouts >= s.timeouts && (Step(s, a).timeouts == s.timeouts <==> Spares(s, a))
  {
    hide Doomed, Infos, Count, Apply;
  }

  /** Action `i` of the run removes nothing by time-out. */
  predicate SparesAt(actions: seq<Action>, i: nat)
    requires i < |actions|
  {
    Spares(Run(actions[..i]), actions[i])
  }

  lemma {:induction false} NothingTimedOut(actions: seq<Action>)
    ensures Run(actions).timeouts == 0 <==> forall i :: 0 <= i < |actions| ==> SparesAt(actions, i)
  {
    hide Step, Spares, SparesAt;
    if actions != [] {
      var n := |actions| - 1;
      var before := actions[..n];
      NothingTimedOut(before);
      StepTimesOut(Run(before), actions[n]);
      assert SparesAt(actions, n) == Spares(Run(before), actions[n]) by {
        LastOne(actions);
      }
      forall i | 0 <= i < n
        ensures SparesAt(before, i) == SparesAt(actions, i)
      {
        EarlierOne(actions, i);
      }
    }
  }

  lemma LastOne(actions: seq<Action>)
    requires actions != []
    ensures SparesAt(actions, |actions| - 1) == Spares(Run(actions[..|actions| - 1]), actions[|actions| - 1])
  {
  }

  lemma EarlierOne(actions: seq<Action>, i: nat)
    requires i < |actions| - 1
    ensures SparesAt(actions[..|actions| - 1], i) == SparesAt(actions, i)
  {
    hide Spares, Run;
    assert actions[..|actions| - 1][..i] == actions[..i];
  }

  /** The stream gauge shows the number of streams after a run exactly if every second pass in it
      found nothing to remove. */
  lemma StreamGaugeExactly(actions: seq<Action>)
    requires forall i :: 0 <= i < |actions| ==> ProperAction(actions[i])
    ensures Run(actions).stream == |Run(actions).streams|
            <==> forall i :: 0 <= i < |actions| ==> SparesAt(actions, i)
  {
    hide Run, SparesAt;
    AlwaysHealthy(actions);
    NothingTimedOut(actions);
  }

  /** One stream that times out leaves the gauge at minus one. */
  lemma StreamGaugeBelowZero()
    ensures Run([Create("s", 1_000), Expire(SubscribeSide, ["s"], 2_000, 0)]).stream == -1
  {
    var first := [Create("s", 1_000)];
    var all := first + [Expire(SubscribeSide, ["s"], 2_000, 0)];
    assert first[..0] == [] && all[..1] == first;
    assert Run(first) == Step(Run([]), Create("s", 1_000));
    var s := Run(first);
    assert Doomed(Infos(s), ["s"], SubscribeSide, 2_000, 0) == {"s"};
  }

  /** Whatever happened since its first pass, a tick never takes a stream away from somebody: the
      publisher tick removes only streams whose publisher is gone, the subscriber tick only streams
      without subscribers, and only after the timeout. */
  lemma TickSpares(actions: seq<Action>, side: Side, names: seq<string>, now: int, timeout: int, n: string)
    requires forall i :: 0 <= i < |actions| ==> ProperAction(actions[i])
    requires n in Run(actions).streams
    requires n !in Step(Run(actions), Expire(side, names, now, timeout)).streams
    ensures var s := Run(actions);
            var f := s.forwards[s.streams[n]];
            match side
            case PublishSide => f.publish == None && EverPublished(f.events) && now - f.publishLeaveAt > timeout
            case SubscribeSide => f.group == [] && now - f.subscribeLeaveAt > timeout
  {
    hide Run, EverPublished, Holder;
    AlwaysHealthy(actions);
    var s := Run(actions);
    assert n in Doomed(Infos(s), names, side, now, timeout);
    assert Inv(s.forwards[s.streams[n]]);
  }

  // ---- The objects run like the values ----

  /** The manager, the forwards ever created (`forwards[k]` is forward `k`) and the gauges are in state `s`. */
  ghost predicate Shows(m: Manager, forwards: seq<PeerForwardInternal>, s: System)
    reads m, m.metrics, forwards
  {
    && Wired(s) && Distinct(forwards)
    && |forwards| == |s.forwards| && (forall k :: 0 <= k < |forwards| ==> forwards[k].View() == s.forwards[k])
    && Points(m.streamMap, forwards, s.streams)
    && m.metrics.View() == s.gauges && m.metrics.stream == s.stream
  }

  ghost predicate Distinct(forwards: seq<PeerForwardInternal>) {
    forall i, j :: 0 <= i < j < |forwards| ==> forwards[i] != forwards[j]
  }

  ghost predicate Points(streamMap: map<string, PeerForwardInternal>, forwards: seq<PeerForwardInternal>, streams: map<string, nat>) {
    streamMap.Keys == streams.Keys
    && forall n :: n in streamMap ==> streams[n] < |forwards| && streamMap[n] == forwards[streams[n]]
  }

  lemma PointsAdd(streamMap: map<string, PeerForwardInternal>, forwards: seq<PeerForwardInternal>, streams: map<string, nat>,
                  name: string, f: PeerForwardInternal)
    requires Points(streamMap, forwards, streams) && Distinct(forwards) && f !in forwards
    ensures Points(streamMap[name := f], forwards + [f], streams[name := |forwards|]) && Distinct(forwards + [f])
  {
  }

  lemma PointsRemove(streamMap: map<string, PeerForwardInternal>, forwards: seq<PeerForwardInternal>, streams: map<string, nat>,
                     gone: set<string>)
    requires Points(streamMap, forwards, streams)
    ensures Points(streamMap - gone, forwards, streams - gone)
  {
  }

  lemma SameNames(m: Manager, forwards: seq<PeerForwardInternal>, s: System)
    requires Shows(m, forwards, s)
    ensures m.streamMap.Keys == s.streams.Keys
  {
  }

  lemma WiredLess(s: System, gone: set<string>)
    requires Wired(s)
    ensures forall x: int :: Wired(s.(streams := s.streams - gone, stream := x))
  {
  }

  lemma SameInfos(m: Manager, forwards: seq<PeerForwardInternal>, s: System)
    requires Shows(m, forwards, s)
    ensures m.Infos() == Infos(s)
  {
  }

  /** One operation on one forward. */
  method PerformOn(forward: PeerForwardInternal, metrics: Metrics, op: ForwardOp)
    modifies forward, metrics
    ensures forward.View() == Apply(old(forward.View()), op)
    ensures metrics.View() == Count(old(metrics.View()), old(forward.View()), op) && metrics.stream == old(metrics.stream)
  {
    match op
    case Publish(id, peerOk) => var ok := forward.SetPublish(metrics, id, peerOk);
    case Unpublish(id, at) => var ok := forward.RemovePublish(metrics, id, at);
    case Subscribe(s) => forward.AddSubscribe(metrics, s);
    case Unsubscribe(id, at) => var ok := forward.RemoveSubscribe(metrics, id, at);
  }

  lemma NewView(m: Manager, name: string, now: int)
    requires name in m.streamMap && m.Infos()[name] == NewForward(now)
    ensures m.streamMap[name].View() == NewForward(now)
  {
  }

  method PerformCreate(m: Manager, forwards: seq<PeerForwardInternal>, a: Action, ghost s: System)
    returns (after: seq<PeerForwardInternal>)
    requires Shows(m, forwards, s) && a.Create?
    modifies m`streamMap, m.metrics`stream
    ensures Shows(m, after, Step(s, a))
    ensures forwards <= after && forall k :: |forwards| <= k < |after| ==> fresh(after[k])
  {
    hide Points, Distinct;
    assert a.name in m.streamMap <==> a.name in s.streams by {
      SameInfos(m, forwards, s);
    }
    after := forwards;
    ghost var before := m.streamMap;
    var ok := m.StreamCreate(a.name, a.now);
    if ok {
      var forward := m.streamMap[a.name];
      assert forward !in forwards;
      PointsAdd(before, forwards, s.streams, a.name, forward);
      NewView(m, a.name, a.now);
      after := forwards + [forward];
    }
  }

  method PerformDelete(m: Manager, forwards: seq<PeerForwardInternal>, name: string, ghost s: System)
    requires Shows(m, forwards, s)
    modifies m`streamMap, m.metrics`stream
    ensures Shows(m, forwards, Step(s, Delete(name)))
  {
    hide Points, Distinct, Manager.Infos, Infos, Wired;
    assert m.streamMap.Keys == s.streams.Keys by {
      SameNames(m, forwards, s);
    }
    PointsRemove(m.streamMap, forwards, s.streams, {name});
    WiredLess(s, {name});
    assert name !in s.streams ==> s.streams - {name} == s.streams;
    var ok := m.StreamDelete(name);
  }

  method PerformTick(m: Manager, forwards: seq<PeerForwardInternal>, a: Action, ghost s: System)
    requires Shows(m, forwards, s) && a.Expire?
    modifies m`streamMap, m.metrics`stream
    ensures Shows(m, forwards, Step(s, a))
  {
    hide Doomed, Points, Distinct;
    SameInfos(m, forwards, s);
    PointsRemove(m.streamMap, forwards, s.streams, Doomed(Infos(s), a.names, a.side, a.now, a.timeout));
    m.RemoveExpired(a.names, a.side, a.now, a.timeout);
  }

  method PerformOp(m: Manager, forwards: seq<PeerForwardInternal>, k: nat, op: ForwardOp, ghost s: System)
    requires Shows(m, forwards, s)
    modifies m.metrics, forwards
    ensures Shows(m, forwards, Step(s, OnForward(k, op)))
  {
    hide Apply, Count;
    if k < |forwards| {
      PerformOn(forwards[k], m.metrics, op);
    }
  }

  /** Every action on the objects is a step of the system, whoever still holds the forward it works on. */
  method Perform(m: Manager, forwards: seq<PeerForwardInternal>, a: Action, ghost s: System)
    returns (after: seq<PeerForwardInternal>)
    requires Shows(m, forwards, s)
    modifies m`streamMap, m.metrics, forwards
    ensures Shows(m, after, Step(s, a))
    ensures forwards <= after && forall k :: |forwards| <= k < |after| ==> fresh(after[k])
  {
    hide Shows, Step;
    after := forwards;
    match a
    case Create(_, _) => after := PerformCreate(m, forwards, a, s);
    case OnForward(k, op) => PerformOp(m, forwards, k, op, s);
    case Delete(name) => PerformDelete(m, forwards, name, s);
    case Expire(_, _, _, _) => PerformTick(m, forwards, a, s);
  }

  /** Any sequence of actions on a new manager: what is proved of runs holds of the objects. */
  method Play(actions: seq<Action>) returns (m: Manager, forwards: seq<PeerForwardInternal>)
    ensures Shows(m, forwards, Run(actions))
  {
    hide Step;
    var metrics := new Metrics;
    metrics.publish, metrics.subscribe, metrics.reforward, metrics.stream := 0, 0, 0, 0;
    m := new Manager(metrics);
    forwards := [];
    var i := 0;
    assert actions[..0] == [];
    while i < |actions|
      invariant 0 <= i <= |actions|
      invariant Shows(m, forwards, Run(actions[..i]))
      invariant fresh(m) && fresh(m.metrics) && forall k :: 0 <= k < |forwards| ==> fresh(forwards[k])
    {
      hide Shows;
      assert actions[..i + 1][..i] == actions[..i];
      forwards := Perform(m, forwards, actions[i], Run(actions[..i]));
      i := i + 1;
    }
    assert actions[..i] == actions;
  }
}
