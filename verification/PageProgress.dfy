/** How far a manager with a fixed page size gets with a node that records nothing new: every turn that
    moves the cursor offers the next `limit` entries, and after enough of them every entry was offered. */
module PageProgress {
  import opened Octets
  import opened RecordingsIndex
  import opened RecordSync

  /** The entries above the cursor. */
  ghost function Waiting(s: Sys, alias: string): set<Entry>
    requires alias in s.nodes
  {
    WantedSet(s.nodes[alias].index, Cursor(s.cursors, alias))
  }

  /** The manager is busy with a page of this node. */
  predicate Working(s: Sys, alias: string) {
    !s.phase.Idle? && s.phase.alias == alias
  }

  /** What will be above the cursor once it has moved behind the page being worked on. */
  ghost function Behind(s: Sys, alias: string): set<Entry>
    requires alias in s.nodes && Working(s, alias)
  {
    WantedSet(s.nodes[alias].index, Some(s.phase.lastTs))
  }

  /** The node's index does not change, this node is asked for pages of this size, and the manager keeps
      running. Rows may be refused, messages lost, and other nodes do what they like. */
  predicate Still(alias: string, limit: nat, a: Action) {
    match a
    case Start(b, _) => b != alias
    case Stop(b, _, _, _, _, _) => b != alias
    case Pull(b, l, _) => b == alias ==> EffectiveLimit(l) == limit
    case ManagerRestart => false
    case _ => true
  }

  ghost predicate AllStill(alias: string, limit: nat, actions: seq<Action>) {
    forall a :: a in actions ==> Still(alias, limit, a)
  }

  /** The entries on this node's pages. */
  function Offered(alias: string, actions: seq<Action>): set<Entry> {
    if actions == [] then {}
    else
      (if actions[0].Pull? && actions[0].alias == alias then Elements(actions[0].page) else {}) + Offered(alias, actions[1..])
  }

  /** The cursor of this node moves behind the page. */
  predicate Passes(s: Sys, alias: string, a: Action) {
    Working(s, alias) && (a == NothingToAck || a == AnswerOk)
  }

  ghost function PassCount(s: Sys, alias: string, actions: seq<Action>): nat
    requires CanRun(s, actions)
    decreases |actions|
  {
    if actions == [] then 0
    else (if Passes(s, alias, actions[0]) then 1 else 0) + PassCount(Apply(s, actions[0]), alias, actions[1..])
  }

  function Less(n: nat, limit: nat): nat {
    if n < limit then 0 else n - limit
  }

  /** The rows still to store and the keys to acknowledge belong to entries of the page. */
  ghost predicate PageHeld(s: Sys, alias: string)
    requires alias in s.nodes
  {
    var index := s.nodes[alias].index;
    s.phase.Syncing? && s.phase.alias == alias ==>
      && (forall e :: e in s.phase.todo ==> EntryKey(e) in index && index[EntryKey(e)].updatedAt <= s.phase.lastTs)
      && (forall k :: k in AckedKeys(s.phase.acks) && k in index ==> index[k].updatedAt <= s.phase.lastTs)
  }

  /** Of `goal`, everything not offered yet is still to come, and that is at most `bound` entries. */
  ghost predicate OnTrack(s: Sys, alias: string, limit: nat, goal: set<Entry>, offered: set<Entry>, bound: nat) {
    && alias in s.nodes && Ahead(s) && PageHeld(s, alias) && |Waiting(s, alias)| <= bound
    && (if Working(s, alias) then goal <= offered + Behind(s, alias) && |Behind(s, alias)| <= Less(bound, limit)
        else goal <= offered + Waiting(s, alias))
  }

  // ---- Each action keeps it ----

  lemma PullTrack(s: Sys, a: Action, alias: string, limit: nat, goal: set<Entry>, offered: set<Entry>, bound: nat)
    requires Inv(s) && Enabled(s, a) && a.Pull? && a.alias == alias && EffectiveLimit(a.limit) == limit
    requires OnTrack(s, alias, limit, goal, offered, bound)
    ensures OnTrack(Apply(s, a), alias, limit, goal, offered + Elements(a.page), bound)
  {
    hide Inv, IsPage, WantedSet, Elements, AckedKeys, EntryKey, Ahead;
    CursorStep(s, a);
    if a.page == [] {
      assert offered + Elements([]) == offered by {
        NoElements();
      }
    } else {
      var s' := Apply(s, a);
      PageFacts(s, alias, a.limit, a.page);
      assert Behind(s', alias) == WantedSet(s.nodes[alias].index, LastStamp(a.page));
      ThroughUnion(goal, offered, Waiting(s, alias), Elements(a.page), Behind(s', alias));
      NoKeys();
    }
  }

  lemma NoElements()
    ensures Elements([]) == {}
  {
  }

  lemma NoKeys()
    ensures AckedKeys([]) == {}
  {
  }

  lemma ThroughUnion(goal: set<Entry>, offered: set<Entry>, waiting: set<Entry>, page: set<Entry>, behind: set<Entry>)
    requires goal <= offered + waiting && waiting <= page + behind
    ensures goal <= offered + page + behind
  {
  }

  lemma PageFacts(s: Sys, alias: string, l: nat, page: seq<Entry>)
    requires Inv(s) && Enabled(s, Pull(alias, l, page)) && page != []
    ensures var index, since, limit := s.nodes[alias].index, Cursor(s.cursors, alias), EffectiveLimit(l);
            && WantedSet(index, since) <= Elements(page) + WantedSet(index, LastStamp(page))
            && |WantedSet(index, LastStamp(page))| == Less(|WantedSet(index, since)|, limit)
            && forall e :: e in page ==> EntryKey(e) in index && index[EntryKey(e)].updatedAt <= LastStamp(page).value
  {
    hide IsPage, WantedSet, Elements, EntryKey, Less;
    var index, since := s.nodes[alias].index, Cursor(s.cursors, alias);
    assert NodeOk(s.nodes[alias]);
    StampsAreDistinct(s.nodes[alias], since);
    PageTakesOff(index, since, EffectiveLimit(l), page);
    PageIsListed(index, since, EffectiveLimit(l), page);
  }

  /** What is wanted behind the page is what was wanted without it. */
  lemma PageTakesOff(m: Entries, since: Option<int>, limit: nat, page: seq<Entry>)
    requires IsPage(m, None, since, limit, page) && DistinctStamps(m, since) && page != []
    ensures WantedSet(m, since) <= Elements(page) + WantedSet(m, LastStamp(page))
    ensures |WantedSet(m, LastStamp(page))| == Less(|WantedSet(m, since)|, limit)
  {
    var w, behind := WantedSet(m, since), WantedSet(m, LastStamp(page));
    PageElements(m, since, limit, page);
    PageSize(m, since, limit, page);
    PageSkipsNothing(m, since, limit, page);
    assert Wanted(page[|page| - 1], None, since);
    forall e
      ensures e in behind <==> e in w && e !in Elements(page)
    {
      if e in page {
        LastOnPage(page, e);
      }
    }
    assert behind == w - Elements(page);
    assert w == Elements(page) + behind;
  }

  lemma PageIsListed(m: Entries, since: Option<int>, limit: nat, page: seq<Entry>)
    requires IsPage(m, None, since, limit, page) && WellKeyed(m) && page != []
    ensures forall e :: e in page ==> EntryKey(e) in m && m[EntryKey(e)].updatedAt <= LastStamp(page).value
  {
    forall e | e in page
      ensures EntryKey(e) in m && m[EntryKey(e)].updatedAt <= LastStamp(page).value
    {
      var i :| 0 <= i < |page| && page[i] == e;
      LastOnPage(page, e);
      var k :| k in m && m[k] == e;
    }
  }

  lemma RowTrack(s: Sys, a: Action, alias: string, limit: nat, goal: set<Entry>, offered: set<Entry>, bound: nat)
    requires Enabled(s, a) && (a == RowStored || a == RowRefused)
    requires OnTrack(s, alias, limit, goal, offered, bound)
    ensures OnTrack(Apply(s, a), alias, limit, goal, offered, bound)
  {
    hide DbUpsert, WantedSet;
    var e := s.phase.todo[0];
    CursorStep(s, a);
    AckedSnoc(s.phase.acks, KeyFor(e));
    hide AckedKeys;
    assert e in s.phase.todo;
    assert s.phase.todo == [e] + s.phase.todo[1..];
  }

  lemma WantedWithout(m: Entries, since: Option<int>, acks: seq<RecordingKey>)
    requires WellKeyed(m)
    ensures WantedSet(Without(m, acks), since) <= WantedSet(m, since)
    ensures |WantedSet(Without(m, acks), since)| <= |WantedSet(m, since)|
  {
    WithoutIsLess(m, acks);
    hide Without;
    SmallerSet(WantedSet(Without(m, acks), since), WantedSet(m, since));
  }

  /** Acknowledging takes nothing away that lies behind the page. */
  lemma BehindStays(m: Entries, lastTs: int, acks: seq<RecordingKey>)
    requires WellKeyed(m) && forall k :: k in AckedKeys(acks) && k in m ==> m[k].updatedAt <= lastTs
    ensures WantedSet(Without(m, acks), Some(lastTs)) == WantedSet(m, Some(lastTs))
  {
    WithoutIsLess(m, acks);
    forall e | e in WantedSet(m, Some(lastTs))
      ensures e in Without(m, acks).Values
    {
      var k :| k in m && m[k] == e;
      assert k in Without(m, acks);
    }
  }

  lemma AckTrack(s: Sys, alias: string, limit: nat, goal: set<Entry>, offered: set<Entry>, bound: nat)
    requires Inv(s) && Enabled(s, AckDelivered) && OnTrack(s, alias, limit, goal, offered, bound)
    ensures OnTrack(Apply(s, AckDelivered), alias, limit, goal, offered, bound)
  {
    hide Inv, Without, WantedSet, AckedKeys, Ahead;
    CursorStep(s, AckDelivered);
    if Working(s, alias) {
      KeyedNode(s, alias);
      WantedWithout(s.nodes[alias].index, Cursor(s.cursors, alias), s.phase.acks);
      BehindStays(s.nodes[alias].index, s.phase.lastTs, s.phase.acks);
    }
  }

  lemma KeyedNode(s: Sys, alias: string)
    requires Inv(s) && alias in s.nodes
    ensures WellKeyed(s.nodes[alias].index)
  {
    assert NodeOk(s.nodes[alias]);
  }

  lemma PassTrack(s: Sys, a: Action, alias: string, limit: nat, goal: set<Entry>, offered: set<Entry>, bound: nat)
    requires Enabled(s, a) && (a == NothingToAck || a == AnswerOk) && OnTrack(s, alias, limit, goal, offered, bound)
    ensures OnTrack(Apply(s, a), alias, limit, goal, offered, if Passes(s, alias, a) then Less(bound, limit) else bound)
  {
    hide WantedSet, AckedKeys;
    CursorStep(s, a);
  }

  lemma LostTrack(s: Sys, a: Action, alias: string, limit: nat, goal: set<Entry>, offered: set<Entry>, bound: nat)
    requires Enabled(s, a) && (a == AckLost || a == AnswerLost) && OnTrack(s, alias, limit, goal, offered, bound)
    ensures OnTrack(Apply(s, a), alias, limit, goal, offered, bound)
  {
    hide AckedKeys;
    CursorStep(s, a);
    if Working(s, alias) {
      assert Behind(s, alias) <= Waiting(s, alias);
    }
  }

  lemma ElsewhereTrack(s: Sys, a: Action, alias: string, limit: nat, goal: set<Entry>, offered: set<Entry>, bound: nat)
    requires Enabled(s, a) && (a.Start? || a.Stop? || a.Pull?) && a.alias != alias
    requires OnTrack(s, alias, limit, goal, offered, bound)
    ensures OnTrack(Apply(s, a), alias, limit, goal, offered, bound)
  {
    hide WantedSet, AckedKeys, IsPage, WithStatus, EntryKey, IsDigits;
    CursorStep(s, a);
  }

  lemma StepTrack(s: Sys, a: Action, alias: string, limit: nat, goal: set<Entry>, offered: set<Entry>, bound: nat)
    requires Inv(s) && Enabled(s, a) && Still(alias, limit, a) && OnTrack(s, alias, limit, goal, offered, bound)
    ensures OnTrack(Apply(s, a), alias, limit, goal,
                    offered + (if a.Pull? && a.alias == alias then Elements(a.page) else {}),
                    if Passes(s, alias, a) then Less(bound, limit) else bound)
  {
    hide Inv, Enabled, Apply, OnTrack, Elements;
    assert offered + {} == offered;
    match a
    case Start(_, _) => ElsewhereTrack(s, a, alias, limit, goal, offered, bound);
    case Stop(_, _, _, _, _, _) => ElsewhereTrack(s, a, alias, limit, goal, offered, bound);
    case Pull(b, _, _) =>
      if b == alias {
        PullTrack(s, a, alias, limit, goal, offered, bound);
      } else {
        ElsewhereTrack(s, a, alias, limit, goal, offered, bound);
      }
    case AckDelivered => AckTrack(s, alias, limit, goal, offered, bound);
    case NothingToAck => PassTrack(s, a, alias, limit, goal, offered, bound);
    case AnswerOk => PassTrack(s, a, alias, limit, goal, offered, bound);
    case AckLost => LostTrack(s, a, alias, limit, goal, offered, bound);
    case AnswerLost => LostTrack(s, a, alias, limit, goal, offered, bound);
    case RowStored => RowTrack(s, a, alias, limit, goal, offered, bound);
    case RowRefused => RowTrack(s, a, alias, limit, goal, offered, bound);
  }

  // ---- Runs ----

  /** `Less` for a number of pages. */
  function LessPages(n: nat, limit: nat, pages: nat): nat {
    if pages == 0 then n else LessPages(Less(n, limit), limit, pages - 1)
  }

  lemma {:induction false} LessPagesIs(n: nat, limit: nat, pages: nat)
    ensures LessPages(n, limit, pages) == if n < limit * pages then 0 else n - limit * pages
  {
    if pages > 0 {
      LessPagesIs(Less(n, limit), limit, pages - 1);
      assert limit * pages == limit * (pages - 1) + limit;
      assert limit * (pages - 1) >= 0;
    }
  }

  lemma {:induction false} RunTrack(s: Sys, actions: seq<Action>, alias: string, limit: nat, goal: set<Entry>, offered: set<Entry>,
                                    bound: nat)
    requires Inv(s) && CanRun(s, actions) && AllStill(alias, limit, actions)
    requires OnTrack(s, alias, limit, goal, offered, bound)
    ensures OnTrack(After(s, actions), alias, limit, goal, offered + Offered(alias, actions),
                    LessPages(bound, limit, PassCount(s, alias, actions)))
    decreases |actions|
  {
    hide Inv, Enabled, Apply, OnTrack, Still, Elements, Passes;
    if actions == [] {
      assert offered + {} == offered;
    } else {
      var a, rest := actions[0], actions[1..];
      assert forall x :: x in rest ==> x in actions;
      StepKeeps(s, a);
      StepTrack(s, a, alias, limit, goal, offered, bound);
      var more := if a.Pull? && a.alias == alias then Elements(a.page) else {};
      var bound' := if Passes(s, alias, a) then Less(bound, limit) else bound;
      RunTrack(Apply(s, a), rest, alias, limit, goal, offered + more, bound');
      assert offered + more + Offered(alias, rest) == offered + Offered(alias, actions);
    }
  }

  /** Over every run that leaves the index alone, from a moment between two turns on: each turn that
      moves the cursor takes `limit` entries off what is waiting (all, if there are no more), and once
      the turns have taken off as many as were waiting, or nothing is waiting any more between two
      turns, every entry that was waiting has been on a page. */
  lemma EveryEntryOffered(s: Sys, actions: seq<Action>, alias: string, limit: nat)
    requires Inv(s) && !Working(s, alias) && Ahead(s) && alias in s.nodes
    requires CanRun(s, actions) && AllStill(alias, limit, actions)
    ensures var end, passed := After(s, actions), limit * PassCount(s, alias, actions);
            && alias in end.nodes
            && |Waiting(end, alias)| <= (if |Waiting(s, alias)| < passed then 0 else |Waiting(s, alias)| - passed)
            && (passed >= |Waiting(s, alias)| || (!Working(end, alias) && Waiting(end, alias) == {}) ==>
                  Waiting(s, alias) <= Offered(alias, actions))
  {
    hide Inv, CanRun, AllStill, WantedSet;
    var goal := Waiting(s, alias);
    RunTrack(s, actions, alias, limit, goal, {}, |goal|);
    LessPagesIs(|goal|, limit, PassCount(s, alias, actions));
    assert {} + Offered(alias, actions) == Offered(alias, actions);
  }

  /** After a restart of the manager: an index of `n` entries has been offered whole, refused rows
      included, after `n / limit` turns, rounded up, that move the cursor. */
  lemma RestartOffersAll(s: Sys, actions: seq<Action>, alias: string, limit: nat)
    requires Inv(s) && alias in s.nodes
    requires var s' := Apply(s, ManagerRestart); CanRun(s', actions) && AllStill(alias, limit, actions)
    requires limit * PassCount(Apply(s, ManagerRestart), alias, actions) >= |s.nodes[alias].index|
    ensures forall k :: k in s.nodes[alias].index ==> s.nodes[alias].index[k] in Offered(alias, actions)
  {
    var s' := Apply(s, ManagerRestart);
    StepKeeps(s, ManagerRestart);
    AllWanted(s.nodes[alias].index);
    hide Inv, CanRun, AllStill, PassCount, Offered;
    EveryEntryOffered(s', actions, alias, limit);
    var m := s.nodes[alias].index;
    forall k | k in m
      ensures m[k] in Offered(alias, actions)
    {
      assert m[k] in m.Values;
    }
  }

  lemma AllWanted(m: Entries)
    ensures WantedSet(m, None) == m.Values && |m.Values| <= |m|
  {
    ValuesAreFew(m);
  }

  lemma {:induction false} ValuesAreFew(m: Entries)
    ensures |m.Values| <= |m|
    decreases |m|
  {
    if m != map[] {
      var k :| k in m;
      var rest := m - {k};
      assert rest.Keys == m.Keys - {k};
      assert |rest| == |m| - 1;
      ValuesAreFew(rest);
      forall e | e in m.Values
        ensures e in rest.Values + {m[k]}
      {
        var j :| j in m && m[j] == e;
        if j != k {
          assert j in rest && rest[j] == e;
        }
      }
      SmallerSet(m.Values, rest.Values + {m[k]});
    }
  }

  // ---- A lost acknowledgement ----

  ghost predicate RowsOnly(actions: seq<Action>) {
    forall a :: a in actions ==> a == RowStored || a == RowRefused
  }

  /** Storing rows changes neither nodes nor cursors. */
  lemma {:induction false} RowsLeave(s: Sys, rows: seq<Action>)
    requires CanRun(s, rows) && RowsOnly(rows)
    ensures After(s, rows).nodes == s.nodes && After(s, rows).cursors == s.cursors
    decreases |rows|
  {
    hide DbUpsert;
    if rows != [] {
      assert rows[0] in rows && forall a :: a in rows[1..] ==> a in rows;
      RowsLeave(Apply(s, rows[0]), rows[1..]);
    }
  }

  lemma DistinctIn(s: Sys, alias: string)
    requires Inv(s) && alias in s.nodes
    ensures DistinctStamps(s.nodes[alias].index, Cursor(s.cursors, alias))
  {
    assert NodeOk(s.nodes[alias]);
    StampsAreDistinct(s.nodes[alias], Cursor(s.cursors, alias));
  }

  /** If the acknowledgement is lost, the next pull gets the very same page. */
  lemma LostAckRepeatsPage(s: Sys, alias: string, limit: nat, page: seq<Entry>, rows: seq<Action>, again: seq<Entry>)
    requires Inv(s) && Enabled(s, Pull(alias, limit, page)) && RowsOnly(rows)
    requires var busy := Apply(s, Pull(alias, limit, page));
             CanRun(busy, rows) && Enabled(After(busy, rows), AckLost)
             && Enabled(Apply(After(busy, rows), AckLost), Pull(alias, limit, again))
    ensures again == page
  {
    hide Inv, IsPage, CanRun, After, DbUpsert, EffectiveLimit, IsDigits;
    var busy := Apply(s, Pull(alias, limit, page));
    RowsLeave(busy, rows);
    DistinctIn(s, alias);
    PageIsUnique(s.nodes[alias].index, Cursor(s.cursors, alias), EffectiveLimit(limit), page, again);
  }
}
