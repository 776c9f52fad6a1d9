/** Whether the path that a node announced last for a recording is still listed or stored. */
module LatestPath {
  import opened Octets
  import opened RecordingsIndex
  import opened RecordSync

  ghost predicate ListedWith(s: Sys, alias: string, key: RecordingKey, path: string) {
    alias in s.nodes && KeyOf(key.stream, key.record) in s.nodes[alias].index
    && s.nodes[alias].index[KeyOf(key.stream, key.record)].mpdPath == path
  }

  ghost predicate StoredWith(db: seq<Row>, key: RecordingKey, path: string) {
    Row(key.stream, key.record, path) in db
  }

  ghost predicate Held(s: Sys, alias: string, key: RecordingKey, path: string) {
    ListedWith(s, alias, key, path) || StoredWith(s.db, key, path)
  }

  /** The node announces another path for this recording, or the same one again. */
  predicate Announces(a: Action, alias: string, key: RecordingKey) {
    a.Start? && a.alias == alias && KeyFor(a.entry) == key
  }

  /** The two ways in which a held path disappears: the acknowledgement takes the listing away although
      the database has another path, or a row with another path replaces it when it is not listed. */
  ghost predicate Drops(s: Sys, a: Action, alias: string, key: RecordingKey, path: string)
    requires Enabled(s, a)
  {
    || (a == AckDelivered && s.phase.alias == alias && KeyOf(key.stream, key.record) in AckedKeys(s.phase.acks)
        && !StoredWith(s.db, key, path))
    || (a == RowStored && KeyFor(s.phase.todo[0]) == key && s.phase.todo[0].mpdPath != path && !ListedWith(s, alias, key, path))
  }

  lemma StartedIsHeld(s: Sys, alias: string, e: Entry)
    requires Enabled(s, Start(alias, e))
    ensures Held(Apply(s, Start(alias, e)), alias, KeyFor(e), e.mpdPath)
  {
    hide IsDigits;
  }

  /** Each step: a held path stays held exactly if the step does not drop it. */
  lemma StepHolds(s: Sys, a: Action, alias: string, key: RecordingKey, path: string)
    requires OneRowEach(s.db) && Enabled(s, a) && !Announces(a, alias, key) && IsDigits(key.record)
    requires Held(s, alias, key, path)
    ensures Held(Apply(s, a), alias, key, path) <==> !Drops(s, a, alias, key, path)
  {
    match a
    case Start(b, e) =>
      if b == alias && KeyOf(e.stream, e.record) == KeyOf(key.stream, key.record) {
        KeysAreInjective(e.stream, e.record, key.stream, key.record);
      }
    case RowStored =>
      hide IsDigits, DbUpsert;
      DbUpsertRows(s.db, RowFor(s.phase.todo[0]));
    case AckDelivered =>
      hide IsDigits, AckedKeys;
    case _ =>
      hide IsDigits, AckedKeys, IsPage;
  }

  ghost predicate NeverAnnounces(actions: seq<Action>, alias: string, key: RecordingKey) {
    forall a :: a in actions ==> !Announces(a, alias, key)
  }

  ghost predicate AlwaysHeld(s: Sys, actions: seq<Action>, alias: string, key: RecordingKey, path: string)
    requires CanRun(s, actions)
    decreases |actions|
  {
    Held(s, alias, key, path) && (actions == [] || AlwaysHeld(Apply(s, actions[0]), actions[1..], alias, key, path))
  }

  ghost predicate NeverDrops(s: Sys, actions: seq<Action>, alias: string, key: RecordingKey, path: string)
    requires CanRun(s, actions)
    decreases |actions|
  {
    actions == [] ||
    (!Drops(s, actions[0], alias, key, path) && NeverDrops(Apply(s, actions[0]), actions[1..], alias, key, path))
  }

  /** Over every run after an announcement, up to the next one for the same recording by the same node:
      the announced path is listed or stored throughout exactly if no step drops it. */
  lemma {:induction false} HeldExactly(s: Sys, actions: seq<Action>, alias: string, key: RecordingKey, path: string)
    requires Inv(s) && CanRun(s, actions) && NeverAnnounces(actions, alias, key) && IsDigits(key.record)
    requires Held(s, alias, key, path)
    ensures AlwaysHeld(s, actions, alias, key, path) <==> NeverDrops(s, actions, alias, key, path)
    decreases |actions|
  {
    hide Inv, Enabled, Apply, Held, Drops, Announces, IsDigits;
    if actions != [] {
      var a, rest := actions[0], actions[1..];
      assert a in actions && forall x :: x in rest ==> x in actions;
      StepKeeps(s, a);
      OneRow(s);
      StepHolds(s, a, alias, key, path);
      if Held(Apply(s, a), alias, key, path) {
        HeldExactly(Apply(s, a), rest, alias, key, path);
      } else {
        NotHeld(Apply(s, a), rest, alias, key, path);
      }
    }
  }

  lemma OneRow(s: Sys)
    requires Inv(s)
    ensures OneRowEach(s.db)
  {
  }

  lemma NotHeld(s: Sys, actions: seq<Action>, alias: string, key: RecordingKey, path: string)
    requires CanRun(s, actions) && !Held(s, alias, key, path)
    ensures !AlwaysHeld(s, actions, alias, key, path)
  {
    hide Held;
  }

  /** In particular nothing is dropped while only one path was ever announced for the recording, by
      whichever nodes: after every run that path is listed by each of them or stored. */
  lemma OnlyPathIsHeld(s: Sys, actions: seq<Action>, alias: string, key: RecordingKey, path: string)
    requires Fresh(s) && CanRun(s, actions)
    requires (alias, key, path) in After(s, actions).started
    requires forall b, q :: (b, key, q) in After(s, actions).started ==> q == path
    ensures Held(After(s, actions), alias, key, path)
  {
    HandOffIsSafe(s, actions);
    RunKeeps(s, actions);
    hide CanRun, After, IsDigits;
    var end := After(s, actions);
    assert NothingLost(end.nodes, end.db, end.started);
    if KeyOf(key.stream, key.record) in end.nodes[alias].index {
      ListedPath(end, alias, key);
    } else {
      assert InDb(end.db, key);
      var i :| 0 <= i < |end.db| && end.db[i].stream == key.stream && end.db[i].record == key.record;
      assert Announced(end.started, end.db[i]);
    }
  }

  lemma ListedPath(s: Sys, alias: string, key: RecordingKey)
    requires Inv(s) && PathsOk(s) && IsDigits(key.record) && alias in s.nodes
    requires KeyOf(key.stream, key.record) in s.nodes[alias].index
    ensures (alias, key, s.nodes[alias].index[KeyOf(key.stream, key.record)].mpdPath) in s.started
  {
    hide IsDigits, KeyOf;
    assert NodeOk(s.nodes[alias]);
    var e := s.nodes[alias].index[KeyOf(key.stream, key.record)];
    assert EntryStarted(s.started, alias, e);
    KeysAreInjective(e.stream, e.record, key.stream, key.record);
  }

  /** A recording announced again on another path while its first row is being handed over: the
      acknowledgement of the first takes the second out of the index, and the database keeps the first. */
  lemma PathOvertaken(s: Sys, e: Entry, again: Entry)
    requires Fresh(s) && "n" in s.nodes && s.nodes["n"].clock < e.updatedAt < again.updatedAt
    requires IsDigits(e.record) && KeyFor(e) == KeyFor(again) && e.mpdPath != again.mpdPath
    ensures var actions := [Start("n", e), Pull("n", 1, [e]), RowStored, Start("n", again), AckDelivered];
            CanRun(s, actions) && !Held(After(s, actions), "n", KeyFor(e), again.mpdPath)
  {
    hide IsDigits;
    var a0, a1, a2, a3, a4 := Start("n", e), Pull("n", 1, [e]), RowStored, Start("n", again), AckDelivered;
    var s1 := Apply(s, a0);
    OnlyEntry(e);
    assert s1.nodes["n"].index == map[EntryKey(e) := e];
    assert Enabled(s1, a1);
    var s2 := Apply(s1, a1);
    var s3 := Apply(s2, a2);
    var s4 := Apply(s3, a3);
    assert s3.db == [RowFor(e)] && s3.phase.acks == [] + [KeyFor(e)] == [KeyFor(e)];
    OvertakenEnd(s4, e, again);
    Unfold(s, [a0, a1, a2, a3, a4]);
    Unfold(s1, [a1, a2, a3, a4]);
    Unfold(s2, [a2, a3, a4]);
    Unfold(s3, [a3, a4]);
    Unfold(s4, [a4]);
  }

  lemma OnlyEntry(e: Entry)
    ensures IsPage(map[EntryKey(e) := e], None, None, 1, [e])
  {
    var m := map[EntryKey(e) := e];
    assert EntryKey(e) in m && m.Values == {e};
  }

  lemma OvertakenEnd(s: Sys, e: Entry, again: Entry)
    requires "n" in s.nodes && KeyFor(e) == KeyFor(again) && e.mpdPath != again.mpdPath
    requires s.phase == Syncing("n", [], [KeyFor(e)], e.updatedAt) && s.db == [RowFor(e)]
    ensures Enabled(s, AckDelivered) && !Held(Apply(s, AckDelivered), "n", KeyFor(e), again.mpdPath)
  {
    var acks := [KeyFor(e)];
    assert KeyOf(acks[0].stream, acks[0].record) in AckedKeys(acks);
  }

  lemma Unfold(s: Sys, actions: seq<Action>)
    requires actions != [] && Enabled(s, actions[0])
    ensures CanRun(s, actions) <==> CanRun(Apply(s, actions[0]), actions[1..])
    ensures CanRun(s, actions) ==> After(s, actions) == After(Apply(s, actions[0]), actions[1..])
  {
  }
}
