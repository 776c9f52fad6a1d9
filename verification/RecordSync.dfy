/** The hand-off of recordings from nodes to the manager: pull, store in the database, acknowledge,
    advance the cursor. Every message can fail, and nodes go on recording in between. */
module RecordSync {
  import opened Octets
  import opened RecordingsIndex

  // ---- The manager's database ----

  datatype Row = Row(stream: string, record: string, mpdPath: string)

  predicate SameRecording(a: Row, b: Row) {
    a.stream == b.stream && a.record == b.record
  }

  /** Update the row of this recording if there is one, else insert. */
  function DbUpsert(db: seq<Row>, row: Row): seq<Row> {
    if db == [] then [row]
    else if SameRecording(db[0], row) then [row] + db[1..]
    else [db[0]] + DbUpsert(db[1..], row)
  }

  ghost predicate InDb(db: seq<Row>, key: RecordingKey) {
    exists i :: 0 <= i < |db| && db[i].stream == key.stream && db[i].record == key.record
  }

  ghost predicate OneRowEach(db: seq<Row>) {
    forall i, j :: 0 <= i < j < |db| ==> !SameRecording(db[i], db[j])
  }

  function RowFor(e: Entry): Row {
    Row(e.stream, e.record, e.mpdPath)
  }

  function KeyFor(e: Entry): RecordingKey {
    RecordingKey(e.stream, e.record)
  }

  /** The rows afterwards: this one, and those of all other recordings. */
  lemma {:induction false} DbUpsertRows(db: seq<Row>, row: Row)
    requires OneRowEach(db)
    ensures forall r :: r in DbUpsert(db, row) <==> r == row || (r in db && !SameRecording(r, row))
  {
    hide SameRecording;
    if db == [] {
    } else if SameRecording(db[0], row) {
      assert db == [db[0]] + db[1..];
      forall r | r in db[1..]
        ensures !SameRecording(r, row)
      {
        OtherRow(db, r, row);
      }
    } else {
      DbUpsertRows(db[1..], row);
      assert db == [db[0]] + db[1..];
    }
  }

  lemma OtherRow(db: seq<Row>, r: Row, row: Row)
    requires OneRowEach(db) && db != [] && r in db[1..] && SameRecording(db[0], row)
    ensures !SameRecording(r, row)
  {
    var i :| 0 <= i < |db[1..]| && db[1..][i] == r;
    assert db[i + 1] == r;
  }

  lemma {:induction false} DbUpsertKeeps(db: seq<Row>, row: Row)
    ensures forall key :: InDb(DbUpsert(db, row), key) <==> InDb(db, key) || key == RecordingKey(row.stream, row.record)
    ensures OneRowEach(db) ==> OneRowEach(DbUpsert(db, row))
  {
    var after := DbUpsert(db, row);
    if db == [] {
      assert after == [row] && after[0] == row;
    } else if SameRecording(db[0], row) {
      assert forall i :: 0 < i < |db| ==> after[i] == db[i];
      assert after[0] == row;
    } else {
      DbUpsertKeeps(db[1..], row);
      InDbCons(db[0], db[1..]);
      InDbCons(db[0], DbUpsert(db[1..], row));
      assert db == [db[0]] + db[1..];
      if OneRowEach(db) {
        OneRowCons(db, row);
      }
    }
  }

  lemma InDbCons(head: Row, tail: seq<Row>)
    ensures forall key :: InDb([head] + tail, key) <==> InDb(tail, key) || key == RecordingKey(head.stream, head.record)
  {
    var db := [head] + tail;
    forall key
      ensures InDb(db, key) <==> InDb(tail, key) || key == RecordingKey(head.stream, head.record)
    {
      if InDb(tail, key) {
        var i :| 0 <= i < |tail| && tail[i].stream == key.stream && tail[i].record == key.record;
        assert db[i + 1] == tail[i];
      }
      if key == RecordingKey(head.stream, head.record) {
        assert db[0] == head;
      }
    }
  }

  lemma OneRowCons(db: seq<Row>, row: Row)
    requires db != [] && !SameRecording(db[0], row) && OneRowEach(db)
    requires OneRowEach(DbUpsert(db[1..], row))
    requires forall key :: InDb(DbUpsert(db[1..], row), key) <==> InDb(db[1..], key) || key == RecordingKey(row.stream, row.record)
    ensures OneRowEach([db[0]] + DbUpsert(db[1..], row))
  {
    var rest := DbUpsert(db[1..], row);
    hide DbUpsert;
    var all := [db[0]] + rest;
    forall i, j | 0 <= i < j < |all|
      ensures !SameRecording(all[i], all[j])
    {
      if i == 0 {
        assert InDb(rest, RecordingKey(rest[j - 1].stream, rest[j - 1].record));
        if InDb(db[1..], RecordingKey(rest[j - 1].stream, rest[j - 1].record)) {
          var k :| 0 <= k < |db[1..]| && db[1..][k].stream == rest[j - 1].stream && db[1..][k].record == rest[j - 1].record;
          assert !SameRecording(db[0], db[k + 1]);
        }
      }
    }
  }

  // ---- The whole system ----

  /** A node: its index, and the last stamp it has used. */
  datatype Node = Node(index: Entries, clock: int)

  /** What the manager is doing: nothing, storing the rows of a page, or waiting for the answer to an
      acknowledgement that has reached the node. */
  datatype Phase = Idle
                 | Syncing(alias: string, todo: seq<Entry>, acks: seq<RecordingKey>, lastTs: int)
                 | Awaiting(alias: string, lastTs: int)

  /** `started` and `undelivered` are history: the recordings ever started, with their paths, and the
      index entries (by node, key and stamp) whose row the database refused. */
  datatype Sys = Sys(nodes: map<string, Node>, db: seq<Row>, cursors: map<string, int>, phase: Phase,
                     started: set<(string, RecordingKey, string)>, undelivered: set<(string, string, int)>)

  datatype Action =
    | Start(alias: string, entry: Entry)
    | Stop(alias: string, key: RecordingKey, status: Status, endTs: Option<int>, durationMs: Option<int>, now: int)
    | Pull(alias: string, limit: nat, page: seq<Entry>)
    | RowStored
    | RowRefused
    | NothingToAck
    | AckDelivered
    | AckLost
    | AnswerOk
    | AnswerLost
    | ManagerRestart

  function Cursor(cursors: map<string, int>, alias: string): Option<int> {
    if alias in cursors then Some(cursors[alias]) else None
  }

  /** When an action can happen. Stamps strictly increase at each change of a node's index. */
  ghost predicate Enabled(s: Sys, a: Action) {
    match a
    case Start(alias, entry) =>
      alias in s.nodes && IsDigits(entry.record) && entry.updatedAt > s.nodes[alias].clock
    case Stop(alias, _, _, _, _, now) => alias in s.nodes && now > s.nodes[alias].clock
    case Pull(alias, limit, page) =>
      s.phase == Idle && alias in s.nodes
      && IsPage(s.nodes[alias].index, None, Cursor(s.cursors, alias), EffectiveLimit(limit), page)
    case RowStored => s.phase.Syncing? && s.phase.todo != []
    case RowRefused => s.phase.Syncing? && s.phase.todo != []
    case NothingToAck => s.phase.Syncing? && s.phase.todo == [] && s.phase.acks == []
    case AckDelivered => s.phase.Syncing? && s.phase.todo == [] && s.phase.acks != [] && s.phase.alias in s.nodes
    case AckLost => s.phase.Syncing? && s.phase.todo == [] && s.phase.acks != []
    case AnswerOk => s.phase.Awaiting?
    case AnswerLost => s.phase.Awaiting?
    case ManagerRestart => true
  }

  ghost function Apply(s: Sys, a: Action): Sys
    requires Enabled(s, a)
  {
    match a
    case Start(alias, entry) =>
      s.(nodes := s.nodes[alias := Node(s.nodes[alias].index[EntryKey(entry) := entry], entry.updatedAt)],
         started := s.started + {(alias, KeyFor(entry), entry.mpdPath)})
    case Stop(alias, key, status, endTs, durationMs, now) =>
      s.(nodes := s.nodes[alias := Node(WithStatus(s.nodes[alias].index, key.stream, key.record, status, endTs, durationMs, now), now)])
    case Pull(alias, limit, page) =>
      if page == [] then s else s.(phase := Syncing(alias, page, [], LastStamp(page).value))
    case RowStored =>
      var e := s.phase.todo[0];
      s.(db := DbUpsert(s.db, RowFor(e)), phase := s.phase.(todo := s.phase.todo[1..], acks := s.phase.acks + [KeyFor(e)]))
    case RowRefused =>
      var e := s.phase.todo[0];
      s.(phase := s.phase.(todo := s.phase.todo[1..]),
         undelivered := s.undelivered + {(s.phase.alias, EntryKey(e), e.updatedAt)})
    case NothingToAck => s.(cursors := s.cursors[s.phase.alias := s.phase.lastTs], phase := Idle)
    case AckDelivered =>
      var n := s.nodes[s.phase.alias];
      s.(nodes := s.nodes[s.phase.alias := n.(index := Without(n.index, s.phase.acks))],
         phase := Awaiting(s.phase.alias, s.phase.lastTs))
    case AckLost => s.(phase := Idle)
    case AnswerOk => s.(cursors := s.cursors[s.phase.alias := s.phase.lastTs], phase := Idle)
    case AnswerLost => s.(phase := Idle)
    case ManagerRestart => s.(cursors := map[], phase := Idle)
  }

  // ---- The invariant ----

  ghost predicate NodeOk(n: Node) {
    && WellKeyed(n.index)
    && (forall k :: k in n.index ==> n.index[k].updatedAt <= n.clock && IsDigits(n.index[k].record))
    && (forall k, l :: k in n.index && l in n.index && n.index[k].updatedAt == n.index[l].updatedAt ==> k == l)
  }

  ghost predicate NodesOk(nodes: map<string, Node>) {
    forall a :: a in nodes ==> NodeOk(nodes[a])
  }

  /** A recording that was ever started is in its node's index or in the database. */
  ghost predicate NothingLost(nodes: map<string, Node>, db: seq<Row>, started: set<(string, RecordingKey, string)>) {
    forall a, key, path :: (a, key, path) in started ==>
      && a in nodes && IsDigits(key.record)
      && (KeyOf(key.stream, key.record) in nodes[a].index || InDb(db, key))
  }

  /** Entries at or below `upto` are ones whose row was refused. */
  ghost predicate OnlyRefusedUpTo(alias: string, index: Entries, upto: int, undelivered: set<(string, string, int)>) {
    forall k :: k in index && index[k].updatedAt <= upto ==> (alias, k, index[k].updatedAt) in undelivered
  }

  ghost predicate CursorsOk(nodes: map<string, Node>, cursors: map<string, int>, undelivered: set<(string, string, int)>) {
    forall a :: a in cursors ==>
      a in nodes && cursors[a] <= nodes[a].clock && OnlyRefusedUpTo(a, nodes[a].index, cursors[a], undelivered)
  }

  /** Each entry up to the page's last stamp is still to do, about to be acknowledged, or refused. */
  ghost predicate Covered(alias: string, index: Entries, todo: seq<Entry>, acks: seq<RecordingKey>, lastTs: int,
                          undelivered: set<(string, string, int)>)
  {
    forall k :: k in index && index[k].updatedAt <= lastTs ==>
      index[k] in todo || k in AckedKeys(acks) || (alias, k, index[k].updatedAt) in undelivered
  }

  ghost predicate AcksStored(db: seq<Row>, acks: seq<RecordingKey>) {
    forall i :: 0 <= i < |acks| ==> InDb(db, acks[i]) && IsDigits(acks[i].record)
  }

  ghost predicate PhaseOk(s: Sys) {
    match s.phase
    case Idle => true
    case Syncing(a, todo, acks, lastTs) =>
      && a in s.nodes && lastTs <= s.nodes[a].clock
      && (forall i :: 0 <= i < |todo| ==> IsDigits(todo[i].record))
      && AcksStored(s.db, acks)
      && Covered(a, s.nodes[a].index, todo, acks, lastTs, s.undelivered)
    case Awaiting(a, lastTs) =>
      a in s.nodes && lastTs <= s.nodes[a].clock && OnlyRefusedUpTo(a, s.nodes[a].index, lastTs, s.undelivered)
  }

  ghost predicate Inv(s: Sys) {
    && NodesOk(s.nodes) && OneRowEach(s.db) && NothingLost(s.nodes, s.db, s.started)
    && CursorsOk(s.nodes, s.cursors, s.undelivered) && PhaseOk(s)
  }

  // ---- Each action keeps it ----

  /** A node stamps one entry afresh and leaves the others: everything said about old stamps stays. */
  lemma RestampKeeps(s: Sys, alias: string, key: string, entry: Entry)
    requires Inv(s) && alias in s.nodes && entry.updatedAt > s.nodes[alias].clock
    requires IsDigits(entry.record) && EntryKey(entry) == key
    ensures Inv(s.(nodes := s.nodes[alias := Node(s.nodes[alias].index[key := entry], entry.updatedAt)]))
  {
    hide IsDigits, KeyOf, InDb, AckedKeys, OneRowEach;
    var n := s.nodes[alias];
    var n' := Node(n.index[key := entry], entry.updatedAt);
    assert NodeOk(n);
    assert NodeOk(n') by {
      hide CursorsOk, PhaseOk, NothingLost;
      assert forall k :: k in n'.index ==> n'.index[k] == if k == key then entry else n.index[k];
    }
    RestampCursors(s, alias, key, entry);
    RestampPhase(s, alias, key, entry);
    hide NodeOk, CursorsOk, PhaseOk;
  }

  lemma RestampCursors(s: Sys, alias: string, key: string, entry: Entry)
    requires CursorsOk(s.nodes, s.cursors, s.undelivered) && alias in s.nodes && entry.updatedAt > s.nodes[alias].clock
    ensures CursorsOk(s.nodes[alias := Node(s.nodes[alias].index[key := entry], entry.updatedAt)], s.cursors, s.undelivered)
  {
  }

  lemma RestampPhase(s: Sys, alias: string, key: string, entry: Entry)
    requires PhaseOk(s) && alias in s.nodes && entry.updatedAt > s.nodes[alias].clock
    ensures PhaseOk(s.(nodes := s.nodes[alias := Node(s.nodes[alias].index[key := entry], entry.updatedAt)]))
  {
    hide IsDigits, InDb, AckedKeys;
  }

  /** A tick of a node's clock without a change. */
  lemma TickKeeps(s: Sys, alias: string, now: int)
    requires Inv(s) && alias in s.nodes && now > s.nodes[alias].clock
    ensures Inv(s.(nodes := s.nodes[alias := s.nodes[alias].(clock := now)]))
  {
    hide IsDigits, KeyOf, InDb, AckedKeys, OneRowEach;
    var s' := s.(nodes := s.nodes[alias := s.nodes[alias].(clock := now)]);
    assert NodeOk(s.nodes[alias]);
    assert NodeOk(s'.nodes[alias]);
    assert PhaseOk(s');
  }

  lemma StartKeeps(s: Sys, a: Action)
    requires Inv(s) && a.Start? && Enabled(s, a)
    ensures Inv(Apply(s, a))
  {
    hide IsDigits, IsPage;
    RestampKeeps(s, a.alias, EntryKey(a.entry), a.entry);
    hide InDb, AckedKeys, OneRowEach, PhaseOk, CursorsOk, NodeOk;
    var s' := Apply(s, a);
    assert EntryKey(a.entry) in s'.nodes[a.alias].index;
  }

  lemma StopKeeps(s: Sys, a: Action)
    requires Inv(s) && a.Stop? && Enabled(s, a)
    ensures Inv(Apply(s, a))
  {
    hide IsDigits, IsPage;
    var key := KeyOf(a.key.stream, a.key.record);
    var index := s.nodes[a.alias].index;
    assert NodeOk(s.nodes[a.alias]);
    if key in index {
      var entry := index[key].(status := a.status, endTs := a.endTs, durationMs := a.durationMs, updatedAt := a.now);
      assert EntryKey(entry) == EntryKey(index[key]) == key;
      RestampKeeps(s, a.alias, key, entry);
    } else {
      TickKeeps(s, a.alias, a.now);
    }
  }

  lemma PullKeeps(s: Sys, a: Action)
    requires Inv(s) && a.Pull? && Enabled(s, a)
    ensures Inv(Apply(s, a))
  {
    hide IsDigits, KeyOf, InDb, AckedKeys, OneRowEach, NothingLost, IsPage, NodeOk;
    if a.page != [] {
      PageCovers(s, a);
    }
  }

  /** Every entry up to the page's last stamp is on the page or was refused earlier. */
  lemma PageCovers(s: Sys, a: Action)
    requires NodesOk(s.nodes) && CursorsOk(s.nodes, s.cursors, s.undelivered) && a.Pull? && Enabled(s, a) && a.page != []
    ensures var n, last := s.nodes[a.alias], LastStamp(a.page).value;
            && last <= n.clock && Covered(a.alias, n.index, a.page, [], last, s.undelivered)
            && forall i :: 0 <= i < |a.page| ==> IsDigits(a.page[i].record)
  {
    hide IsDigits, KeyOf, AckedKeys;
    var n := s.nodes[a.alias];
    var since := Cursor(s.cursors, a.alias);
    assert NodeOk(n);
    StampsAreDistinct(n, since);
    PageSkipsNothing(n.index, since, EffectiveLimit(a.limit), a.page);
    var last := a.page[|a.page| - 1];
    assert last in n.index.Values;
    forall k | k in n.index && n.index[k].updatedAt <= last.updatedAt
      ensures n.index[k] in a.page || (a.alias, k, n.index[k].updatedAt) in s.undelivered
    {
      assert n.index[k] in n.index.Values;
    }
    forall i | 0 <= i < |a.page|
      ensures IsDigits(a.page[i].record)
    {
      assert a.page[i] in n.index.Values;
    }
  }

  lemma StampsAreDistinct(n: Node, since: Option<int>)
    requires NodeOk(n)
    ensures DistinctStamps(n.index, since)
  {
  }

  lemma RowStoredKeeps(s: Sys)
    requires Inv(s) && Enabled(s, RowStored)
    ensures Inv(Apply(s, RowStored))
  {
    hide IsDigits, InDb, OneRowEach, NodeOk, DbUpsert, IsPage;
    var e := s.phase.todo[0];
    DbUpsertKeeps(s.db, RowFor(e));
    var s' := Apply(s, RowStored);
    var acks, acks' := s.phase.acks, s'.phase.acks;
    AckedSnoc(acks, KeyFor(e));
    assert s.phase.todo == [e] + s'.phase.todo;
    forall k | k in s.nodes[s.phase.alias].index && s.nodes[s.phase.alias].index[k].updatedAt <= s.phase.lastTs
      ensures var x := s.nodes[s.phase.alias].index[k];
              x in s'.phase.todo || k in AckedKeys(acks') || (s.phase.alias, k, x.updatedAt) in s.undelivered
    {
      WellKeyedEntry(s.nodes[s.phase.alias], k);
    }
  }

  lemma WellKeyedEntry(n: Node, k: string)
    requires k in n.index && NodeOk(n)
    ensures EntryKey(n.index[k]) == k
  {
  }

  lemma AckedSnoc(acks: seq<RecordingKey>, key: RecordingKey)
    ensures AckedKeys(acks + [key]) == AckedKeys(acks) + {KeyOf(key.stream, key.record)}
  {
    var after := acks + [key];
    forall x
      ensures x in AckedKeys(after) <==> x in AckedKeys(acks) || x == KeyOf(key.stream, key.record)
    {
      if x in AckedKeys(acks) {
        var i :| 0 <= i < |acks| && KeyOf(acks[i].stream, acks[i].record) == x;
        assert after[i] == acks[i];
      }
      assert after[|acks|] == key;
    }
  }

  lemma RowRefusedKeeps(s: Sys)
    requires Inv(s) && Enabled(s, RowRefused)
    ensures Inv(Apply(s, RowRefused))
  {
    hide IsDigits, InDb, OneRowEach, NodeOk, AckedKeys, IsPage, KeyOf;
    var e := s.phase.todo[0];
    var s' := Apply(s, RowRefused);
    assert s.phase.todo == [e] + s'.phase.todo;
    forall k | k in s.nodes[s.phase.alias].index && s.nodes[s.phase.alias].index[k].updatedAt <= s.phase.lastTs
      ensures var x := s.nodes[s.phase.alias].index[k];
              x in s'.phase.todo || k in AckedKeys(s.phase.acks) || (s.phase.alias, k, x.updatedAt) in s'.undelivered
    {
      WellKeyedEntry(s.nodes[s.phase.alias], k);
    }
  }

  /** Only recordings that the database holds leave the index. */
  lemma AckDeliveredKeeps(s: Sys)
    requires Inv(s) && Enabled(s, AckDelivered)
    ensures Inv(Apply(s, AckDelivered))
  {
    hide OneRowEach, InDb, IsDigits, IsPage, NothingLost, KeyOf, AckedKeys, NodeOk;
    var n := s.nodes[s.phase.alias];
    assert NodeOk(n);
    WithoutKeepsNode(n, s.phase.acks);
    AckLosesNothing(s);
  }

  lemma AckLosesNothing(s: Sys)
    requires NothingLost(s.nodes, s.db, s.started) && Enabled(s, AckDelivered) && AcksStored(s.db, s.phase.acks)
    ensures var s' := Apply(s, AckDelivered); NothingLost(s'.nodes, s'.db, s'.started)
  {
    hide InDb, IsDigits, AckedKeys, AcksStored;
    var s' := Apply(s, AckDelivered);
    forall b, key, path | (b, key, path) in s.started
      ensures b in s'.nodes && IsDigits(key.record) && (KeyOf(key.stream, key.record) in s'.nodes[b].index || InDb(s.db, key))
    {
      if b == s.phase.alias && KeyOf(key.stream, key.record) in AckedKeys(s.phase.acks) {
        AckedMeansStored(s.db, s.phase.acks, key);
      }
    }
  }

  lemma WithoutKeepsNode(n: Node, acks: seq<RecordingKey>)
    requires NodeOk(n)
    ensures NodeOk(n.(index := Without(n.index, acks)))
  {
    hide AckedKeys, IsDigits;
  }

  lemma AckedMeansStored(db: seq<Row>, acks: seq<RecordingKey>, key: RecordingKey)
    requires AcksStored(db, acks) && IsDigits(key.record) && KeyOf(key.stream, key.record) in AckedKeys(acks)
    ensures InDb(db, key)
  {
    hide InDb, IsDigits;
    var i :| 0 <= i < |acks| && KeyOf(acks[i].stream, acks[i].record) == KeyOf(key.stream, key.record);
    KeysAreInjective(acks[i].stream, acks[i].record, key.stream, key.record);
  }

  lemma CursorMoves(s: Sys, a: Action)
    requires Inv(s) && Enabled(s, a) && (a == NothingToAck || a == AnswerOk)
    ensures Inv(Apply(s, a))
  {
    hide OneRowEach, InDb, IsDigits, IsPage, NodeOk, KeyOf;
    if a == NothingToAck {
      assert AckedKeys(s.phase.acks) == {};
    }
  }

  lemma StepKeeps(s: Sys, a: Action)
    requires Inv(s) && Enabled(s, a)
    ensures Inv(Apply(s, a))
  {
    match a
    case Start(_, _) => StartKeeps(s, a);
    case Stop(_, _, _, _, _, _) => StopKeeps(s, a);
    case Pull(_, _, _) => PullKeeps(s, a);
    case RowStored => RowStoredKeeps(s);
    case RowRefused => RowRefusedKeeps(s);
    case NothingToAck => CursorMoves(s, a);
    case AckDelivered => AckDeliveredKeeps(s);
    case AnswerOk => CursorMoves(s, a);
    case AckLost => hide NothingLost, CursorsOk, NodesOk, OneRowEach;
    case AnswerLost => hide NothingLost, CursorsOk, NodesOk, OneRowEach;
    case ManagerRestart => hide NothingLost, NodesOk, OneRowEach;
  }

  // ---- Which path a row carries ----

  ghost predicate Announced(started: set<(string, RecordingKey, string)>, row: Row) {
    exists a :: (a, RecordingKey(row.stream, row.record), row.mpdPath) in started
  }

  predicate EntryStarted(started: set<(string, RecordingKey, string)>, alias: string, e: Entry) {
    (alias, KeyFor(e), e.mpdPath) in started
  }

  /** Rows, index entries and rows still to store all carry the path of a recording started under their key. */
  ghost predicate PathsOk(s: Sys) {
    && (forall r :: r in s.db ==> Announced(s.started, r))
    && (forall a, k :: a in s.nodes && k in s.nodes[a].index ==> EntryStarted(s.started, a, s.nodes[a].index[k]))
    && (s.phase.Syncing? ==> forall e :: e in s.phase.todo ==> EntryStarted(s.started, s.phase.alias, e))
  }

  lemma {:induction false} UpsertedRows(db: seq<Row>, row: Row)
    ensures forall r :: r in DbUpsert(db, row) ==> r == row || r in db
  {
    if db != [] && !SameRecording(db[0], row) {
      UpsertedRows(db[1..], row);
    }
  }

  lemma PathsKeep(s: Sys, a: Action)
    requires PathsOk(s) && Enabled(s, a)
    ensures PathsOk(Apply(s, a))
  {
    hide DbUpsert, IsDigits, KeyOf, EffectiveLimit, Without;
    match a
    case Start(alias, entry) => StartPaths(s, alias, entry);
    case Stop(_, _, _, _, _, _) => hide Announced;
    case Pull(alias, limit, page) =>
      hide Announced;
      forall e | e in page
        ensures EntryStarted(s.started, alias, e)
      {
        var i :| 0 <= i < |page| && page[i] == e;
        assert e in s.nodes[alias].index.Values;
      }
    case RowStored =>
      var e := s.phase.todo[0];
      UpsertedRows(s.db, RowFor(e));
      assert EntryStarted(s.started, s.phase.alias, e);
      assert s.phase.todo == [e] + s.phase.todo[1..];
    case AckDelivered =>
      hide Announced;
      WithoutIsLess(s.nodes[s.phase.alias].index, s.phase.acks);
    case _ => hide Announced;
  }

  lemma WithoutIsLess(m: Entries, acks: seq<RecordingKey>)
    ensures forall k :: k in Without(m, acks) ==> k in m && Without(m, acks)[k] == m[k]
  {
  }

  lemma StartPaths(s: Sys, alias: string, entry: Entry)
    requires PathsOk(s) && Enabled(s, Start(alias, entry))
    ensures PathsOk(Apply(s, Start(alias, entry)))
  {
    hide IsDigits, KeyOf;
    var s' := Apply(s, Start(alias, entry));
    forall r | r in s'.db
      ensures Announced(s'.started, r)
    {
      var a :| (a, RecordingKey(r.stream, r.record), r.mpdPath) in s.started;
      assert (a, RecordingKey(r.stream, r.record), r.mpdPath) in s'.started;
    }
  }

  // ---- Runs ----

  /** A fresh system: nothing recorded, nothing stored, no cursor. */
  ghost predicate Fresh(s: Sys) {
    && (forall a :: a in s.nodes ==> s.nodes[a].index == map[])
    && s.db == [] && s.cursors == map[] && s.phase == Idle && s.started == {} && s.undelivered == {}
  }

  ghost predicate CanRun(s: Sys, actions: seq<Action>)
    decreases |actions|
  {
    actions == [] || (Enabled(s, actions[0]) && CanRun(Apply(s, actions[0]), actions[1..]))
  }

  ghost function After(s: Sys, actions: seq<Action>): Sys
    requires CanRun(s, actions)
    decreases |actions|
  {
    if actions == [] then s else After(Apply(s, actions[0]), actions[1..])
  }

  lemma {:induction false} RunKeeps(s: Sys, actions: seq<Action>)
    requires Inv(s) && CanRun(s, actions)
    ensures Inv(After(s, actions))
    decreases |actions|
  {
    if actions != [] {
      StepKeeps(s, actions[0]);
      RunKeeps(Apply(s, actions[0]), actions[1..]);
    }
  }

  lemma {:induction false} RunPaths(s: Sys, actions: seq<Action>)
    requires PathsOk(s) && CanRun(s, actions)
    ensures PathsOk(After(s, actions))
    decreases |actions|
  {
    hide PathsOk, Enabled, Apply;
    if actions != [] {
      PathsKeep(s, actions[0]);
      RunPaths(Apply(s, actions[0]), actions[1..]);
    }
  }

  /** In every interleaving of recording, pulling, storing, acknowledging and failing, with restarts of
      the manager: every recording ever started is in its node's index or in the database, the database
      has one row for each recording, what a node still lists at or below the manager's cursor is only
      what the database refused, and every path stored or listed is one announced for its recording. */
  lemma HandOffIsSafe(s: Sys, actions: seq<Action>)
    requires Fresh(s) && CanRun(s, actions)
    ensures var end := After(s, actions);
            && NothingLost(end.nodes, end.db, end.started)
            && OneRowEach(end.db) && PathsOk(end)
            && (forall a :: a in end.cursors ==>
                  a in end.nodes && OnlyRefusedUpTo(a, end.nodes[a].index, end.cursors[a], end.undelivered))
  {
    assert Inv(s) && PathsOk(s);
    hide CanRun, After, PathsOk;
    RunKeeps(s, actions);
    RunPaths(s, actions);
  }

  /** And wherever the run stands, the next page leaves out nothing between the cursor and its end. */
  lemma NextPageSkipsNothing(s: Sys, actions: seq<Action>, alias: string, limit: nat, page: seq<Entry>)
    requires Fresh(s) && CanRun(s, actions) && alias in After(s, actions).nodes
    requires var end := After(s, actions);
             IsPage(end.nodes[alias].index, None, Cursor(end.cursors, alias), EffectiveLimit(limit), page)
    ensures var end := After(s, actions);
            SkipsNothing(end.nodes[alias].index, Cursor(end.cursors, alias), page)
  {
    assert Inv(s);
    RunKeeps(s, actions);
    var end := After(s, actions);
    StampsAreDistinct(end.nodes[alias], Cursor(end.cursors, alias));
    PageSkipsNothing(end.nodes[alias].index, Cursor(end.cursors, alias), EffectiveLimit(limit), page);
  }

  /** After every run, the path of each row is one that some node announced when it started a recording
      under the row's key; and if only one path was ever announced for that key, the row carries it. */
  lemma RowPathsAreReal(s: Sys, actions: seq<Action>, r: Row)
    requires Fresh(s) && CanRun(s, actions) && r in After(s, actions).db
    ensures var started := After(s, actions).started;
            var key := RecordingKey(r.stream, r.record);
            && Announced(started, r)
            && forall a, path :: (a, key, path) in started && (forall b, q :: (b, key, q) in started ==> q == path) ==>
                 r.mpdPath == path
  {
    hide CanRun, After;
    assert PathsOk(s);
    RunPaths(s, actions);
  }

  // ---- What stays behind the cursor ----

  /** The page being worked on ends beyond the cursor. */
  predicate Ahead(s: Sys) {
    match s.phase
    case Idle => true
    case Syncing(a, _, _, lastTs) => a in s.cursors ==> s.cursors[a] <= lastTs
    case Awaiting(a, lastTs) => a in s.cursors ==> s.cursors[a] <= lastTs
  }

  predicate CursorsGrow(before: map<string, int>, after: map<string, int>) {
    forall a :: a in before ==> a in after && before[a] <= after[a]
  }

  lemma CursorStep(s: Sys, a: Action)
    requires Ahead(s) && Enabled(s, a)
    ensures Ahead(Apply(s, a)) && (a != ManagerRestart ==> CursorsGrow(s.cursors, Apply(s, a).cursors))
  {
    hide DbUpsert, IsDigits, KeyOf, Without, WithStatus;
    if a.Pull? && a.page != [] {
      assert Wanted(a.page[|a.page| - 1], None, Cursor(s.cursors, a.alias));
    }
  }

  lemma {:induction false} RunAhead(s: Sys, actions: seq<Action>)
    requires Ahead(s) && CanRun(s, actions)
    ensures Ahead(After(s, actions))
    ensures ManagerRestart !in actions ==> CursorsGrow(s.cursors, After(s, actions).cursors)
    decreases |actions|
  {
    hide Ahead, Enabled, Apply;
    if actions != [] {
      CursorStep(s, actions[0]);
      RunAhead(Apply(s, actions[0]), actions[1..]);
      assert ManagerRestart !in actions ==> ManagerRestart !in actions[1..];
    }
  }

  /** An entry that the cursor has passed, refused by the database or not, is on no later page until it
      is restamped or the manager restarts. */
  lemma PassedStaysBehind(s: Sys, before: seq<Action>, actions: seq<Action>, alias: string, limit: nat, page: seq<Entry>)
    requires Fresh(s) && CanRun(s, before) && CanRun(After(s, before), actions) && ManagerRestart !in actions
    requires alias in After(s, before).cursors && Enabled(After(After(s, before), actions), Pull(alias, limit, page))
    ensures forall e :: e in page ==> e.updatedAt > After(s, before).cursors[alias]
  {
    hide CanRun, After;
    RunAhead(s, before);
    var mid := After(s, before);
    RunAhead(mid, actions);
    var end := After(mid, actions);
    forall e | e in page
      ensures e.updatedAt > mid.cursors[alias]
    {
      var i :| 0 <= i < |page| && page[i] == e;
      assert Wanted(page[i], None, Cursor(end.cursors, alias));
    }
  }
}
