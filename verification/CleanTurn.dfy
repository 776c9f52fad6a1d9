/** What one undisturbed turn of the hand-off achieves: the page is in the database and out of the
    index, and the cursor stands at its end. */
module CleanTurn {
  import opened Octets
  import opened RecordingsIndex
  import opened RecordSync
  import SyncLoop

  /** Pull a page, store its first `k` rows. */
  function Storing(pull: Action, k: nat): (r: seq<Action>)
    ensures |r| == k + 1
  {
    if k == 0 then [pull] else Storing(pull, k - 1) + [RowStored]
  }

  /** The whole turn: all rows, the acknowledgement and its answer. */
  function Turn(pull: Action, rows: nat): seq<Action> {
    Storing(pull, rows) + [AckDelivered] + [AnswerOk]
  }

  function KeysOf(page: seq<Entry>): (r: seq<RecordingKey>)
    ensures |r| == |page|
  {
    seq(|page|, i requires 0 <= i < |page| => RecordingKey(page[i].stream, page[i].record))
  }

  /** `db` holds the rows of these entries, with their paths, and of the rows before those of all other
      recordings. */
  ghost predicate Stored(before: seq<Row>, page: seq<Entry>, db: seq<Row>) {
    forall r :: r in db <==>
      || (exists i :: 0 <= i < |page| && r == Row(page[i].stream, page[i].record, page[i].mpdPath))
      || (r in before && forall i :: 0 <= i < |page| ==> r.stream != page[i].stream || r.record != page[i].record)
  }

  /** No two of the entries are of the same recording. */
  ghost predicate Apart(page: seq<Entry>) {
    forall i, j :: 0 <= i < j < |page| ==> page[i].stream != page[j].stream || page[i].record != page[j].record
  }

  lemma PageIsApart(m: Entries, since: Option<int>, limit: nat, page: seq<Entry>)
    requires WellKeyed(m) && IsPage(m, None, since, limit, page)
    ensures Apart(page)
  {
    forall i, j | 0 <= i < j < |page|
      ensures page[i].stream != page[j].stream || page[i].record != page[j].record
    {
      assert page[i] in m.Values && page[j] in m.Values && page[i] != page[j];
      AllKeyed(m);
      KeyedOnce(m, EntryKey(page[i]));
      assert EntryKey(page[i]) != EntryKey(page[j]);
    }
  }

  lemma StoredSnoc(before: seq<Row>, page: seq<Entry>, k: nat, db: seq<Row>)
    requires k < |page| && Apart(page) && OneRowEach(db) && Stored(before, page[..k], db)
    ensures Stored(before, page[..k + 1], DbUpsert(db, RowFor(page[k])))
  {
    var row, after := RowFor(page[k]), DbUpsert(db, RowFor(page[k]));
    DbUpsertRows(db, row);
    hide DbUpsert, OneRowEach;
    var now := page[..k + 1];
    forall r
      ensures r in after <==>
              || (exists i :: 0 <= i < |now| && r == Row(now[i].stream, now[i].record, now[i].mpdPath))
              || (r in before && forall i :: 0 <= i < |now| ==> r.stream != now[i].stream || r.record != now[i].record)
    {
      assert now[k] == page[k];
      assert forall i :: 0 <= i < k ==> now[i] == page[i] == page[..k][i];
      if r == row {
        assert r == Row(now[k].stream, now[k].record, now[k].mpdPath);
      }
    }
  }

  lemma StoredNone(before: seq<Row>)
    ensures Stored(before, [], before)
  {
  }

  /** After `k` rows. */
  ghost predicate Halfway(s: Sys, alias: string, page: seq<Entry>, k: nat, now: Sys)
    requires k <= |page| && page != []
  {
    && now.phase == Syncing(alias, page[k..], KeysOf(page[..k]), page[|page| - 1].updatedAt)
    && now.nodes == s.nodes && now.cursors == s.cursors && now.started == s.started && now.undelivered == s.undelivered
    && Stored(s.db, page[..k], now.db)
  }

  lemma {:induction false} RowsStored(s: Sys, alias: string, limit: nat, page: seq<Entry>, k: nat)
    requires Inv(s) && Enabled(s, Pull(alias, limit, page)) && page != [] && k <= |page|
    ensures var actions := Storing(Pull(alias, limit, page), k);
            CanRun(s, actions) && Halfway(s, alias, page, k, After(s, actions))
  {
    hide Inv, IsPage, Stored, DbUpsert, KeysOf;
    var pull := Pull(alias, limit, page);
    if k == 0 {
      StoredNone(s.db);
      PullOnly(s, alias, limit, page);
    } else {
      var actions := Storing(pull, k - 1);
      RowsStored(s, alias, limit, page, k - 1);
      var now := After(s, actions);
      assert page[k - 1..] != [];
      assert Enabled(now, RowStored);
      RunKeeps(s, actions);
      SyncLoop.RunSnoc(s, actions, RowStored);
      OneApart(s, alias, limit, page);
      OneRow(now);
      StoredSnoc(s.db, page, k - 1, now.db);
      KeysSnoc(page, k - 1);
      assert page[k - 1..][1..] == page[k..] && page[k - 1..][0] == page[k - 1];
    }
  }

  lemma PullOnly(s: Sys, alias: string, limit: nat, page: seq<Entry>)
    requires Enabled(s, Pull(alias, limit, page)) && page != []
    ensures var actions := [Pull(alias, limit, page)];
            && CanRun(s, actions)
            && After(s, actions) == s.(phase := Syncing(alias, page[0..], KeysOf(page[..0]), page[|page| - 1].updatedAt))
    ensures page[..0] == []
  {
    var actions := [Pull(alias, limit, page)];
    assert actions[1..] == [] && page[0..] == page && KeysOf(page[..0]) == [];
    assert CanRun(Apply(s, actions[0]), actions[1..]);
  }

  lemma OneApart(s: Sys, alias: string, limit: nat, page: seq<Entry>)
    requires Inv(s) && Enabled(s, Pull(alias, limit, page))
    ensures Apart(page)
  {
    hide IsPage, NothingLost, CursorsOk, PhaseOk, OneRowEach;
    assert NodeOk(s.nodes[alias]);
    PageIsApart(s.nodes[alias].index, Cursor(s.cursors, alias), EffectiveLimit(limit), page);
  }

  lemma OneRow(s: Sys)
    requires Inv(s)
    ensures OneRowEach(s.db)
  {
    hide NothingLost, CursorsOk, PhaseOk, OneRowEach, NodesOk;
  }

  lemma KeysSnoc(page: seq<Entry>, k: nat)
    requires k < |page|
    ensures KeysOf(page[..k]) + [KeyFor(page[k])] == KeysOf(page[..k + 1])
  {
  }

  /** The index without the page. */
  ghost predicate WithoutPage(before: Entries, page: seq<Entry>, after: Entries) {
    && (forall k :: k in after <==> k in before && before[k] !in page)
    && (forall k :: k in after ==> after[k] == before[k])
  }

  lemma AckRemovesPage(m: Entries, since: Option<int>, limit: nat, page: seq<Entry>)
    requires WellKeyed(m) && IsPage(m, None, since, limit, page)
    ensures WithoutPage(m, page, Without(m, KeysOf(page)))
  {
    var acks := KeysOf(page);
    WithoutMeans(m, acks);
    forall k | k in m
      ensures (forall i :: 0 <= i < |acks| ==> !Names(acks[i], k)) <==> m[k] !in page
    {
      forall i | 0 <= i < |page|
        ensures Names(acks[i], k) <==> page[i] == m[k]
      {
        assert page[i] in m.Values;
        KeyedOnce(m, k);
      }
      if m[k] in page {
        var i :| 0 <= i < |page| && page[i] == m[k];
        assert Names(acks[i], k);
      }
    }
  }

  /** The acknowledgement and its answer, once all rows are stored. */
  lemma AckAndAnswer(from: Sys, alias: string, limit: nat, page: seq<Entry>, now: Sys)
    requires Inv(from) && Enabled(from, Pull(alias, limit, page)) && page != [] && alias in from.nodes
    requires Halfway(from, alias, page, |page|, now)
    ensures Enabled(now, AckDelivered)
    ensures var acked := Apply(now, AckDelivered);
            Enabled(acked, AnswerOk) && Achieved(from, alias, page, Apply(acked, AnswerOk))
  {
    hide Inv, Enabled, Apply, Stored, KeysOf, WithoutPage, Without;
    PageGoes(from, alias, limit, page);
    assert page[..|page|] == page && page[|page|..] == [];
    AckThenAnswer(now, alias, KeysOf(page), page[|page| - 1].updatedAt);
  }

  lemma PageGoes(s: Sys, alias: string, limit: nat, page: seq<Entry>)
    requires Inv(s) && Enabled(s, Pull(alias, limit, page))
    ensures alias in s.nodes && WithoutPage(s.nodes[alias].index, page, Without(s.nodes[alias].index, KeysOf(page)))
  {
    KeyedNode(s, alias);
    hide Inv, IsPage, WithoutPage, Without, KeysOf;
    AckRemovesPage(s.nodes[alias].index, Cursor(s.cursors, alias), EffectiveLimit(limit), page);
  }

  lemma AckThenAnswer(now: Sys, alias: string, keys: seq<RecordingKey>, lastTs: int)
    requires now.phase == Syncing(alias, [], keys, lastTs) && |keys| > 0 && alias in now.nodes
    ensures Enabled(now, AckDelivered)
    ensures var acked := Apply(now, AckDelivered);
            && Enabled(acked, AnswerOk)
            && Apply(acked, AnswerOk)
               == now.(nodes := now.nodes[alias := now.nodes[alias].(index := Without(now.nodes[alias].index, keys))],
                       cursors := now.cursors[alias := lastTs], phase := Idle)
  {
    hide Without, IsPage, IsDigits;
  }

  /** Every entry of the page is in the database with its path, exactly those entries have left the
      node's index, all other rows, nodes and cursors are as they were, and the cursor stands at the
      page's last stamp. */
  ghost predicate Achieved(from: Sys, alias: string, page: seq<Entry>, end: Sys)
    requires page != [] && alias in from.nodes
  {
    && Stored(from.db, page, end.db)
    && end.nodes.Keys == from.nodes.Keys && (forall a :: a in from.nodes && a != alias ==> end.nodes[a] == from.nodes[a])
    && WithoutPage(from.nodes[alias].index, page, end.nodes[alias].index)
    && end.cursors == from.cursors[alias := page[|page| - 1].updatedAt] && end.phase == Idle
  }

  /** An undisturbed turn, from anywhere in any run, stores its page and takes it off the node. */
  lemma TurnAchieves(s: Sys, before: seq<Action>, alias: string, limit: nat, page: seq<Entry>)
    requires Fresh(s) && CanRun(s, before) && page != []
    requires Enabled(After(s, before), Pull(alias, limit, page))
    ensures var from, actions := After(s, before), Turn(Pull(alias, limit, page), |page|);
            CanRun(from, actions) && Achieved(from, alias, page, After(from, actions))
  {
    assert Inv(s);
    RunKeeps(s, before);
    assert alias in After(s, before).nodes;
    hide Inv, Fresh, CanRun, After, Enabled, Apply, Halfway, Achieved;
    var from := After(s, before);
    var storing := Storing(Pull(alias, limit, page), |page|);
    RowsStored(from, alias, limit, page, |page|);
    var now := After(from, storing);
    AckAndAnswer(from, alias, limit, page, now);
    SyncLoop.RunSnoc(from, storing, AckDelivered);
    SyncLoop.RunSnoc(from, storing + [AckDelivered], AnswerOk);
  }

  lemma KeyedNode(s: Sys, alias: string)
    requires Inv(s) && alias in s.nodes
    ensures WellKeyed(s.nodes[alias].index)
  {
    hide NothingLost, CursorsOk, PhaseOk, OneRowEach;
    assert NodeOk(s.nodes[alias]);
  }
}
