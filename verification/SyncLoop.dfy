/** The manager's side of the hand-off as the program runs it, shown to be a run of the protocol. */
module SyncLoop {
  import opened Octets
  import opened RecordingsIndex
  import opened RecordSync

  /** A change that a node makes to its own index: a recording starts or stops. */
  datatype Change = Started(entry: Entry)
                  | Stopped(key: RecordingKey, status: Status, endTs: Option<int>, durationMs: Option<int>, now: int)

  function StampOf(c: Change): int {
    match c
    case Started(e) => e.updatedAt
    case Stopped(_, _, _, _, now) => now
  }

  function AsAction(alias: string, c: Change): Action {
    match c
    case Started(e) => Start(alias, e)
    case Stopped(key, status, endTs, durationMs, now) => Stop(alias, key, status, endTs, durationMs, now)
  }

  /** Stamps strictly increase from `clock` on, and record ids are digits. */
  ghost predicate ProperChanges(cs: seq<Change>, clock: int) {
    cs == [] || (StampOf(cs[0]) > clock && (cs[0].Started? ==> IsDigits(cs[0].entry.record)) && ProperChanges(cs[1..], StampOf(cs[0])))
  }

  /** `trim().is_empty()` */
  predicate Blank(s: string) {
    forall k :: 0 <= k < |s| ==> s[k] in " \t\n\r"
  }

  lemma DigitsAreNotBlank(s: string)
    requires IsDigits(s)
    ensures !Blank(s)
  {
    assert '0' <= s[0] <= '9';
  }

  // ---- The protocol actions of one turn, from what went well in it ----

  /** The rows in order, each after what the node did just before it. */
  function RowActions(alias: string, rowOk: seq<bool>, meanwhile: seq<seq<Change>>): seq<Action>
    requires |meanwhile| >= |rowOk|
  {
    if rowOk == [] then []
    else
      var n := |rowOk| - 1;
      RowActions(alias, rowOk[..n], meanwhile) + ChangeActions(alias, meanwhile[n]) + [if rowOk[n] then RowStored else RowRefused]
  }

  function ChangeActions(alias: string, cs: seq<Change>): seq<Action> {
    seq(|cs|, k requires 0 <= k < |cs| => AsAction(alias, cs[k]))
  }

  function AckActions(alias: string, stored: bool, ackArrives: bool, answerArrives: bool, meanwhile: seq<Change>): seq<Action> {
    if !stored then [NothingToAck]
    else if !ackArrives then [AckLost]
    else [AckDelivered] + ChangeActions(alias, meanwhile) + [if answerArrives then AnswerOk else AnswerLost]
  }

  /** A turn that pulls `page`: `meanwhile[k]` is what the node does before row `k` is stored, the next
      block what it does before the acknowledgement, the one after that before the answer. */
  function TurnActions(alias: string, limit: nat, page: seq<Entry>, pullOk: bool, rowOk: seq<bool>, meanwhile: seq<seq<Change>>,
                       ackArrives: bool, answerArrives: bool): seq<Action>
    requires |page| <= |rowOk| && |page| + 2 <= |meanwhile|
  {
    var n := |page|;
    if !pullOk then []
    else if page == [] then [Pull(alias, limit, page)]
    else [Pull(alias, limit, page)] + RowActions(alias, rowOk[..n], meanwhile) + ChangeActions(alias, meanwhile[n])
         + AckActions(alias, true in rowOk[..n], ackArrives, answerArrives, meanwhile[n + 1])
  }

  /** Extends a run by one action. */
  lemma {:induction false} RunSnoc(s: Sys, actions: seq<Action>, a: Action)
    requires CanRun(s, actions) && Enabled(After(s, actions), a)
    ensures CanRun(s, actions + [a]) && After(s, actions + [a]) == Apply(After(s, actions), a)
    decreases |actions|
  {
    hide Enabled, Apply;
    if actions == [] {
      assert ([] + [a])[0] == a && ([] + [a])[1..] == [];
    } else {
      assert (actions + [a])[1..] == actions[1..] + [a];
      RunSnoc(Apply(s, actions[0]), actions[1..], a);
    }
  }

  class Manager {
    var cursors: map<string, int>
    var db: seq<Row>

    constructor ()
      ensures cursors == map[] && db == []
    {
      cursors := map[];
      db := [];
    }

    /** The object states are those of `s`. */
    ghost predicate Shows(s: Sys, alias: string, node: RecordingsIndex)
      reads this, node
    {
      s.cursors == cursors && s.db == db && alias in s.nodes && s.nodes[alias].index == node.entries
    }

    /** Finds the row of this recording and updates it, or inserts one. */
    method Upsert(row: Row)
      modifies `db
      ensures db == DbUpsert(old(db), row)
    {
      var i := 0;
      while i < |db|
        invariant 0 <= i <= |db|
        invariant db[..i] + DbUpsert(db[i..], row) == DbUpsert(db, row)
      {
        assert db[i..] == [db[i]] + db[i + 1..];
        if SameRecording(db[i], row) {
          db := db[..i] + [row] + db[i + 1..];
          return;
        }
        assert db[..i] + ([db[i]] + DbUpsert(db[i + 1..], row)) == db[..i + 1] + DbUpsert(db[i + 1..], row);
        i := i + 1;
      }
      assert db[..i] == db;
      db := db + [row];
    }

    /** Stores the sessions of a page one by one; those the database accepts are to be acknowledged. */
    method StoreRows(alias: string, node: RecordingsIndex, sessions: seq<Session>, rowOk: seq<bool>,
                     meanwhile: seq<seq<Change>>, ghost page: seq<Entry>, ghost s: Sys, ghost done: seq<Action>)
      returns (acks: seq<RecordingKey>, ghost actions: seq<Action>)
      requires sessions == ToSessions(page) && |rowOk| == |sessions| <= |meanwhile|
      requires node.Valid() && CanRun(s, done) && Shows(After(s, done), alias, node)
      requires var cur := After(s, done); Inv(cur) && cur.phase.Syncing? && cur.phase == Syncing(alias, page, [], cur.phase.lastTs)
      requires ProperChanges(Flatten(meanwhile), After(s, done).nodes[alias].clock)
      modifies `db, node
      ensures node.Valid() && CanRun(s, actions) && Shows(After(s, actions), alias, node)
      ensures var cur := After(s, actions);
              Inv(cur) && cur.phase == Syncing(alias, [], acks, After(s, done).phase.lastTs)
              && ProperChanges(Flatten(meanwhile[|rowOk|..]), cur.nodes[alias].clock)
      ensures actions == done + RowActions(alias, rowOk, meanwhile) && (acks != [] <==> true in rowOk)
    {
      hide Inv, IsDigits, CanRun, After, PhaseOk, ProperChanges, ChangeActions, DbUpsert, WellKeyed;
      acks := [];
      actions := done;
      ghost var cur := After(s, done);
      ghost var lastTs := cur.phase.lastTs;
      assert meanwhile[0..] == meanwhile;
      var i := 0;
      while i < |sessions|
        invariant 0 <= i <= |sessions| && cursors == old(cursors)
        invariant CanRun(s, actions) && cur == After(s, actions) && Inv(cur) && node.Valid()
        invariant Shows(cur, alias, node) && ProperChanges(Flatten(meanwhile[i..]), cur.nodes[alias].clock)
        invariant cur.phase == Syncing(alias, page[i..], acks, lastTs)
        invariant actions == done + RowActions(alias, rowOk[..i], meanwhile) && (acks != [] <==> true in rowOk[..i])
      {
        assert meanwhile[i..][1..] == meanwhile[i + 1..];
        actions := NodeWorks(alias, node, meanwhile[i], Flatten(meanwhile[i + 1..]), s, actions);
        cur := After(s, actions);
        var session := sessions[i];
        ghost var e := page[i];
        assert page[i..] == [e] + page[i + 1..];
        PageRecordIsDigits(cur);
        DigitsAreNotBlank(e.record);
        assert rowOk[..i + 1] == rowOk[..i] + [rowOk[i]];
        RowActionsSnoc(alias, rowOk, meanwhile, i, done);
        i := i + 1;
        if session.id == None || Blank(session.id.value) {
          continue;
        }
        var record := session.id.value;
        if !rowOk[i - 1] {
          cur, actions := Advance(s, actions, RowRefused);
          continue;
        }
        Upsert(Row(session.stream, record, session.mpdPath));
        acks := acks + [RecordingKey(session.stream, record)];
        cur, actions := Advance(s, actions, RowStored);
      }
      assert page[i..] == [] && rowOk[..i] == rowOk;
    }

    /** One server's turn in `do_record_sync`. `meanwhile` is what the node does between the steps of the
        turn; the booleans say which messages get through. */
    method SyncServer(alias: string, node: RecordingsIndex, limit: nat, pullOk: bool, rowOk: seq<bool>,
                      meanwhile: seq<seq<Change>>, ackArrives: bool, answerArrives: bool, ghost s: Sys)
      returns (ghost page: seq<Entry>, ghost actions: seq<Action>)
      requires node.Valid() && Inv(s) && s.phase == Idle && Shows(s, alias, node)
      requires |meanwhile| - 2 >= |rowOk| >= EffectiveLimit(limit) && ProperChanges(Flatten(meanwhile), s.nodes[alias].clock)
      modifies this, node
      ensures node.Valid() && CanRun(s, actions) && Shows(After(s, actions), alias, node)
      ensures Inv(After(s, actions)) && After(s, actions).phase == Idle
      ensures |page| <= |rowOk|
      ensures actions == TurnActions(alias, limit, page, pullOk, rowOk, meanwhile, ackArrives, answerArrives)
    {
      hide Inv, IsDigits, CanRun, After, IsPage, WellKeyed, PhaseOk, RowActions, ChangeActions, AckActions, ProperChanges, ToSessions;
      actions, page := [], [];
      NoActions(s);
      var since := if alias in cursors then Some(cursors[alias]) else None;
      if !pullOk {
        return;
      }
      var sessions, lastTs;
      sessions, lastTs, page := node.ListSessions(None, since, limit);
      PageFits(s.nodes[alias].index, since, EffectiveLimit(limit), page);
      PullIsEnabled(s, alias, limit, page);
      ghost var cur;
      cur, actions := Advance(s, actions, Pull(alias, limit, page));
      if sessions == [] {
        AdvanceCursor(alias, lastTs);
        return;
      }
      actions := SyncPage(alias, node, sessions, lastTs, rowOk[..|sessions|], meanwhile, ackArrives, answerArrives, page, s, actions);
    }

    /** The rest of the turn, once a page was pulled: its rows, and the acknowledgement of those stored. */
    method SyncPage(alias: string, node: RecordingsIndex, sessions: seq<Session>, lastTs: Option<int>, rowOk: seq<bool>,
                    meanwhile: seq<seq<Change>>, ackArrives: bool, answerArrives: bool,
                    ghost page: seq<Entry>, ghost s: Sys, ghost done: seq<Action>)
      returns (ghost actions: seq<Action>)
      requires sessions == ToSessions(page) && |rowOk| == |sessions| <= |meanwhile| - 2
      requires node.Valid() && CanRun(s, done) && Shows(After(s, done), alias, node) && Inv(After(s, done))
      requires lastTs.Some? && After(s, done).phase == Syncing(alias, page, [], lastTs.value)
      requires ProperChanges(Flatten(meanwhile), After(s, done).nodes[alias].clock)
      modifies this, node
      ensures node.Valid() && CanRun(s, actions) && Shows(After(s, actions), alias, node)
      ensures Inv(After(s, actions)) && After(s, actions).phase == Idle
      ensures actions == done + RowActions(alias, rowOk, meanwhile) + ChangeActions(alias, meanwhile[|rowOk|])
                         + AckActions(alias, true in rowOk, ackArrives, answerArrives, meanwhile[|rowOk| + 1])
    {
      hide Inv, IsDigits, CanRun, After, IsPage, WellKeyed, PhaseOk, RowActions, ChangeActions, AckActions, ProperChanges, ToSessions,
           Enabled, Apply;
      var acks;
      var n := |sessions|;
      acks, actions := StoreRows(alias, node, sessions, rowOk, meanwhile, page, s, done);
      assert meanwhile[n..][1..] == meanwhile[n + 1..] && meanwhile[n + 1..][1..] == meanwhile[n + 2..];
      actions := NodeWorks(alias, node, meanwhile[n], Flatten(meanwhile[n + 1..]), s, actions);
      ProperPrefix(meanwhile[n + 1], Flatten(meanwhile[n + 2..]), After(s, actions).nodes[alias].clock);
      actions := AckPage(alias, node, acks, lastTs, ackArrives, answerArrives, meanwhile[n + 1], s, actions);
    }

    /** Acknowledges what was stored; the cursor moves if the node confirmed, or if nothing was stored. */
    method AckPage(alias: string, node: RecordingsIndex, acks: seq<RecordingKey>, lastTs: Option<int>,
                   ackArrives: bool, answerArrives: bool, meanwhile: seq<Change>, ghost s: Sys, ghost done: seq<Action>)
      returns (ghost actions: seq<Action>)
      requires node.Valid() && CanRun(s, done) && Shows(After(s, done), alias, node) && Inv(After(s, done))
      requires ProperChanges(meanwhile, After(s, done).nodes[alias].clock)
      requires lastTs.Some? && After(s, done).phase == Syncing(alias, [], acks, lastTs.value)
      modifies `cursors, node
      ensures node.Valid() && CanRun(s, actions) && Shows(After(s, actions), alias, node)
      ensures Inv(After(s, actions)) && After(s, actions).phase == Idle
      ensures actions == done + AckActions(alias, acks != [], ackArrives, answerArrives, meanwhile)
      ensures cursors == if acks == [] || (ackArrives && answerArrives) then old(cursors)[alias := lastTs.value] else old(cursors)
    {
      hide Inv, IsDigits, CanRun, After, WellKeyed, PhaseOk, Without, AckedKeys, IsPage, WithStatus, DbUpsert, ProperChanges,
           ChangeActions;
      actions := done;
      ghost var cur;
      var shouldAdvance := false;
      if acks == [] {
        shouldAdvance := lastTs.Some?;
        cur, actions := Advance(s, actions, NothingToAck);
      } else if ackArrives {
        actions := Acknowledge(alias, node, acks, lastTs.value, meanwhile, s, actions);
        cur := After(s, actions);
        if answerArrives {
          shouldAdvance := true;
          cur, actions := Advance(s, actions, AnswerOk);
        } else {
          cur, actions := Advance(s, actions, AnswerLost);
        }
      } else {
        cur, actions := Advance(s, actions, AckLost);
      }
      if shouldAdvance {
        AdvanceCursor(alias, lastTs);
      }
    }

    /** The acknowledgement reaches the node, which goes on working before its answer is out. */
    method Acknowledge(alias: string, node: RecordingsIndex, acks: seq<RecordingKey>, ghost lastTs: int, meanwhile: seq<Change>,
                       ghost s: Sys, ghost done: seq<Action>) returns (ghost actions: seq<Action>)
      requires node.Valid() && CanRun(s, done) && Shows(After(s, done), alias, node) && Inv(After(s, done)) && acks != []
      requires ProperChanges(meanwhile, After(s, done).nodes[alias].clock)
      requires After(s, done).phase == Syncing(alias, [], acks, lastTs)
      modifies node
      ensures node.Valid() && CanRun(s, actions) && Shows(After(s, actions), alias, node) && Inv(After(s, actions))
      ensures After(s, actions).phase == Awaiting(alias, lastTs)
      ensures actions == done + ([AckDelivered] + ChangeActions(alias, meanwhile))
    {
      hide Inv, IsDigits, CanRun, After, WellKeyed, Without, AckedKeys, IsPage, ProperChanges, ChangeActions;
      ghost var cur;
      var removed := node.Ack(acks);
      cur, actions := Advance(s, done, AckDelivered);
      assert meanwhile + [] == meanwhile;
      actions := NodeWorks(alias, node, meanwhile, [], s, actions);
    }

    method AdvanceCursor(alias: string, lastTs: Option<int>)
      modifies `cursors
      ensures cursors == if lastTs.Some? then old(cursors)[alias := lastTs.value] else old(cursors)
    {
      if lastTs.Some? {
        cursors := cursors[alias := lastTs.value];
      }
    }

    /** The node's own changes while the manager is busy. */
    method NodeWorks(alias: string, node: RecordingsIndex, meanwhile: seq<Change>, ghost later: seq<Change>, ghost s: Sys,
                     ghost done: seq<Action>)
      returns (ghost actions: seq<Action>)
      requires node.Valid() && CanRun(s, done) && Shows(After(s, done), alias, node) && Inv(After(s, done))
      requires ProperChanges(meanwhile + later, After(s, done).nodes[alias].clock)
      modifies node
      ensures node.Valid() && CanRun(s, actions) && Shows(After(s, actions), alias, node) && Inv(After(s, actions))
      ensures After(s, actions).phase == After(s, done).phase && actions == done + ChangeActions(alias, meanwhile)
      ensures ProperChanges(later, After(s, actions).nodes[alias].clock)
    {
      hide Inv, IsDigits, CanRun, After, WellKeyed, KeyOf;
      actions := done;
      ghost var cur := After(s, done);
      assert meanwhile[0..] == meanwhile;
      var i := 0;
      while i < |meanwhile|
        invariant 0 <= i <= |meanwhile| && node.Valid()
        invariant CanRun(s, actions) && cur == After(s, actions) && Inv(cur)
        invariant Shows(cur, alias, node) && cur.phase == After(s, done).phase
        invariant ProperChanges(meanwhile[i..] + later, cur.nodes[alias].clock)
        invariant actions == done + ChangeActions(alias, meanwhile[..i])
      {
        var c := meanwhile[i];
        assert (meanwhile[i..] + later)[0] == c && (meanwhile[i..] + later)[1..] == meanwhile[i + 1..] + later;
        assert ChangeActions(alias, meanwhile[..i + 1]) == ChangeActions(alias, meanwhile[..i]) + [AsAction(alias, c)];
        match c {
          case Started(entry) => node.Upsert(entry);
          case Stopped(key, status, endTs, durationMs, now) =>
            node.UpdateStatus(key.stream, key.record, status, endTs, durationMs, now);
        }
        cur, actions := Advance(s, actions, AsAction(alias, c));
        i := i + 1;
      }
      assert meanwhile[..i] == meanwhile && meanwhile[i..] + later == later;
    }
  }

  /** One more action of the run. */
  lemma Advance(s: Sys, actions: seq<Action>, a: Action) returns (cur: Sys, actions': seq<Action>)
    requires CanRun(s, actions) && Enabled(After(s, actions), a) && Inv(After(s, actions))
    ensures actions' == actions + [a] && CanRun(s, actions') && cur == After(s, actions') == Apply(After(s, actions), a)
    ensures Inv(cur)
  {
    hide Inv, Enabled, Apply, CanRun, After;
    actions' := actions + [a];
    RunSnoc(s, actions, a);
    StepKeeps(After(s, actions), a);
    cur := After(s, actions');
  }

  lemma RowActionsSnoc(alias: string, rowOk: seq<bool>, meanwhile: seq<seq<Change>>, i: nat, done: seq<Action>)
    requires i < |rowOk| <= |meanwhile|
    ensures done + RowActions(alias, rowOk[..i + 1], meanwhile)
         == (done + RowActions(alias, rowOk[..i], meanwhile) + ChangeActions(alias, meanwhile[i]))
            + [if rowOk[i] then RowStored else RowRefused]
  {
    hide ChangeActions;
    assert rowOk[..i + 1][..i] == rowOk[..i];
  }

  lemma {:induction false} ProperPrefix(a: seq<Change>, b: seq<Change>, clock: int)
    requires ProperChanges(a + b, clock)
    ensures ProperChanges(a, clock)
    decreases |a|
  {
    if a != [] {
      assert (a + b)[1..] == a[1..] + b;
      ProperPrefix(a[1..], b, StampOf(a[0]));
    }
  }

  lemma NoActions(s: Sys)
    ensures CanRun(s, []) && After(s, []) == s
  {
  }

  lemma PullIsEnabled(s: Sys, alias: string, limit: nat, page: seq<Entry>)
    requires s.phase == Idle && alias in s.nodes
    requires IsPage(s.nodes[alias].index, None, Cursor(s.cursors, alias), EffectiveLimit(limit), page)
    ensures Enabled(s, Pull(alias, limit, page))
  {
  }

  lemma PageFits(m: Entries, since: Option<int>, limit: nat, page: seq<Entry>)
    requires IsPage(m, None, since, limit, page)
    ensures |page| <= limit
  {
  }

  lemma PageRecordIsDigits(s: Sys)
    requires Inv(s) && s.phase.Syncing? && s.phase.todo != []
    ensures IsDigits(s.phase.todo[0].record)
  {
  }
}
