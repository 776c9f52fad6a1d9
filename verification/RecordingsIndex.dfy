/** A node's index of recordings, and the pages a manager pulls from it. */
module RecordingsIndex {
  import opened Octets

  datatype Status = Active | Completed | Failed

  datatype Entry = Entry(stream: string, record: string, recordDir: string, mpdPath: string, startTs: int,
                         endTs: Option<int>, durationMs: Option<int>, status: Status, nodeAlias: Option<string>,
                         updatedAt: int)

  datatype RecordingKey = RecordingKey(stream: string, record: string)

  datatype Session = Session(id: Option<string>, stream: string, startTs: int, endTs: Option<int>,
                             durationMs: Option<int>, mpdPath: string, status: Status)

  /** The map key: `"{stream}/{record}"`. */
  function KeyOf(stream: string, record: string): string {
    stream + "/" + record
  }

  function EntryKey(e: Entry): string {
    KeyOf(e.stream, e.record)
  }

  // ---- Record ids ----

  function Digit(n: nat): char
    requires n < 10
  {
    ('0' as int + n) as char
  }

  /** `to_string` of a non-negative number. */
  function Decimal(n: nat): string {
    if n < 10 then [Digit(n)] else Decimal(n / 10) + [Digit(n % 10)]
  }

  predicate IsDigits(s: string) {
    s != "" && forall k :: 0 <= k < |s| ==> '0' <= s[k] <= '9'
  }

  lemma {:induction false} DecimalIsDigits(n: nat)
    ensures IsDigits(Decimal(n))
  {
    if n >= 10 {
      DecimalIsDigits(n / 10);
    }
  }

  /** `record_key`: the record id if positive, else the start time in whole seconds. `record_key`
      divides with truncation and then clamps at 0, which agrees with flooring and clamping. */
  function RecordKey(recordId: int, startTsMicros: int): string {
    if recordId > 0 then Decimal(recordId)
    else Decimal(if startTsMicros < 0 then 0 else startTsMicros / 1_000_000)
  }

  lemma RecordKeyIsDigits(recordId: int, startTsMicros: int)
    ensures IsDigits(RecordKey(recordId, startTsMicros))
  {
    DecimalIsDigits(if recordId > 0 then recordId else if startTsMicros < 0 then 0 else startTsMicros / 1_000_000);
  }

  /** The number that digits stand for. */
  function ValueOf(s: string): nat
    requires forall k :: 0 <= k < |s| ==> '0' <= s[k] <= '9'
  {
    if s == "" then 0 else 10 * ValueOf(s[..|s| - 1]) + (s[|s| - 1] as int - 48)
  }

  lemma {:induction false} DecimalValue(n: nat)
    ensures IsDigits(Decimal(n)) && ValueOf(Decimal(n)) == n && (Decimal(n)[0] == '0' ==> n == 0)
  {
    DecimalIsDigits(n);
    if n >= 10 {
      DecimalValue(n / 10);
      assert Decimal(n)[..|Decimal(n)| - 1] == Decimal(n / 10);
    } else {
      assert [Digit(n)][..0] == "";
    }
  }

  /** Which number: the record id if it is positive, else the whole seconds of the start time, or 0 before 1970. */
  lemma RecordKeyNames(recordId: int, startTsMicros: int)
    ensures IsDigits(RecordKey(recordId, startTsMicros))
    ensures var n := ValueOf(RecordKey(recordId, startTsMicros));
            && (recordId > 0 ==> n == recordId)
            && (recordId <= 0 && startTsMicros >= 0 ==> n * 1_000_000 <= startTsMicros < (n + 1) * 1_000_000)
            && (recordId <= 0 && startTsMicros < 0 ==> n == 0)
  {
    DecimalValue(if recordId > 0 then recordId else if startTsMicros < 0 then 0 else startTsMicros / 1_000_000);
  }

  lemma LastSlash(stream: string, record: string, k: nat)
    requires IsDigits(record) && k < |KeyOf(stream, record)|
    ensures k > |stream| ==> KeyOf(stream, record)[k] != '/'
    ensures k == |stream| ==> KeyOf(stream, record)[k] == '/'
  {
  }

  /** Keys are injective, because record ids have no slash; stream names may have any. */
  lemma KeysAreInjective(s1: string, r1: string, s2: string, r2: string)
    requires IsDigits(r1) && IsDigits(r2) && KeyOf(s1, r1) == KeyOf(s2, r2)
    ensures s1 == s2 && r1 == r2
  {
    var k := KeyOf(s1, r1);
    LastSlash(s1, r1, |s1|);
    LastSlash(s2, r2, |s2|);
    if |s1| < |s2| {
      LastSlash(s1, r1, |s2|);
    } else if |s2| < |s1| {
      LastSlash(s2, r2, |s1|);
    }
    assert s1 == k[..|s1|] && s2 == k[..|s2|];
    assert r1 == k[|s1| + 1..] && r2 == k[|s2| + 1..];
  }

  // ---- Pages ----

  type Entries = map<string, Entry>

  ghost predicate WellKeyed(m: Entries) {
    forall k :: k in m ==> EntryKey(m[k]) == k
  }

  predicate Wanted(e: Entry, stream: Option<string>, since: Option<int>) {
    (stream.Some? ==> e.stream == stream.value) && (since.Some? ==> e.updatedAt > since.value)
  }

  ghost predicate SortedByStamp(rows: seq<Entry>) {
    forall i, j :: 0 <= i < j < |rows| ==> rows[i].updatedAt <= rows[j].updatedAt
  }

  ghost predicate NoRepeats(rows: seq<Entry>) {
    forall i, j :: 0 <= i < j < |rows| ==> rows[i] != rows[j]
  }

  /** A page: wanted entries in stamp order, none twice, at most `limit`; entries left out only if the
      page is full, and then none of them is older than any on the page. */
  ghost predicate IsPage(m: Entries, stream: Option<string>, since: Option<int>, limit: nat, page: seq<Entry>) {
    && SortedByStamp(page) && NoRepeats(page) && |page| <= limit
    && (forall i :: 0 <= i < |page| ==> page[i] in m.Values && Wanted(page[i], stream, since))
    && (forall e :: e in m.Values && Wanted(e, stream, since) && e !in page ==>
          |page| == limit && forall i :: 0 <= i < |page| ==> page[i].updatedAt <= e.updatedAt)
  }

  /** What is on a page, by the entries' own fields: listed ones of the asked stream with stamps above
      the cursor; and what is not on it though it could be: nothing, unless the page is full of
      entries with no later stamps. */
  lemma PageMeans(m: Entries, stream: Option<string>, since: Option<int>, limit: nat, page: seq<Entry>, e: Entry)
    requires IsPage(m, stream, since, limit, page)
    ensures e in page ==> e in m.Values && (stream == None || stream == Some(e.stream)) && (since == None || e.updatedAt > since.value)
    ensures e in m.Values && (stream == None || stream == Some(e.stream)) && (since == None || e.updatedAt > since.value) && e !in page ==>
              |page| == limit && forall i :: 0 <= i < |page| ==> page[i].updatedAt <= e.updatedAt
  {
    if e in page {
      var i :| 0 <= i < |page| && page[i] == e;
      assert Wanted(page[i], stream, since);
    }
  }

  function LastStamp(page: seq<Entry>): Option<int> {
    if page == [] then None else Some(page[|page| - 1].updatedAt)
  }

  function EffectiveLimit(limit: nat): nat {
    if limit == 0 then 100 else limit
  }

  function ToSession(e: Entry): Session {
    Session(Some(e.record), e.stream, e.startTs, e.endTs, e.durationMs, e.mpdPath, e.status)
  }

  /** What a manager is told of an entry. */
  lemma SessionTells(page: seq<Entry>, k: nat)
    requires k < |page|
    ensures var s, e := ToSessions(page)[k], page[k];
            && s.id == Some(e.record) && s.stream == e.stream && s.startTs == e.startTs && s.endTs == e.endTs
            && s.durationMs == e.durationMs && s.mpdPath == e.mpdPath && s.status == e.status
  {
  }

  function ToSessions(page: seq<Entry>): (ss: seq<Session>)
    ensures |ss| == |page|
  {
    seq(|page|, k requires 0 <= k < |page| => ToSession(page[k]))
  }

  /** Nothing above the cursor and not above the page's last stamp is missing from the page. */
  ghost predicate SkipsNothing(m: Entries, since: Option<int>, page: seq<Entry>) {
    forall e :: e in m.Values && Wanted(e, None, since) && e !in page && LastStamp(page).Some? ==>
      e.updatedAt > LastStamp(page).value
  }

  ghost predicate DistinctStamps(m: Entries, since: Option<int>) {
    forall e, f ::
      e in m.Values && f in m.Values && Wanted(e, None, since) && Wanted(f, None, since) && e.updatedAt == f.updatedAt ==> e == f
  }

  lemma PageSkipsNothing(m: Entries, since: Option<int>, limit: nat, page: seq<Entry>)
    requires IsPage(m, None, since, limit, page) && DistinctStamps(m, since)
    ensures SkipsNothing(m, since, page)
  {
    forall e | e in m.Values && Wanted(e, None, since) && e !in page && LastStamp(page).Some?
      ensures e.updatedAt > LastStamp(page).value
    {
      var last := page[|page| - 1];
      assert last in page;
    }
  }

  /** Advancing the cursor over full pages is safe exactly when the stamps above it are distinct: with
      two entries of the same stamp, some page size cuts between them, and the strict comparison of
      the next pull leaves the second one out for good. */
  lemma SkipsNothingExactly(m: Entries, since: Option<int>)
    ensures (forall limit: nat, page :: limit > 0 && IsPage(m, None, since, limit, page) ==> SkipsNothing(m, since, page))
            <==> DistinctStamps(m, since)
  {
    if DistinctStamps(m, since) {
      forall limit: nat, page | limit > 0 && IsPage(m, None, since, limit, page)
        ensures SkipsNothing(m, since, page)
      {
        PageSkipsNothing(m, since, limit, page);
      }
    } else {
      var e, f :| e in m.Values && f in m.Values && Wanted(e, None, since) && Wanted(f, None, since)
                  && e.updatedAt == f.updatedAt && e != f;
      var limit, page := CuttingPage(m, since, e, f);
      assert IsPage(m, None, since, limit, page) && !SkipsNothing(m, since, page);
    }
  }

  /** All wanted entries in stamp order. */
  lemma {:induction false} Enumerate(s: set<Entry>) returns (rows: seq<Entry>)
    ensures SortedByStamp(rows) && NoRepeats(rows) && forall e :: e in rows <==> e in s
    decreases |s|
  {
    if s == {} {
      rows := [];
    } else {
      var e :| e in s;
      var rest := Enumerate(s - {e});
      rows := InsertRow(rest, e);
      InsertRowKeeps(rest, e);
    }
  }

  lemma CuttingPage(m: Entries, since: Option<int>, e: Entry, f: Entry) returns (limit: nat, page: seq<Entry>)
    requires e in m.Values && f in m.Values && Wanted(e, None, since) && Wanted(f, None, since)
    requires e.updatedAt == f.updatedAt && e != f
    ensures limit > 0 && IsPage(m, None, since, limit, page) && !SkipsNothing(m, since, page)
  {
    var wanted := set x | x in m.Values && Wanted(x, None, since);
    assert e in wanted && f in wanted;
    var rows := Enumerate(wanted);
    var i :| 0 <= i < |rows| && rows[i] == e;
    var j :| 0 <= j < |rows| && rows[j] == f;
    if i < j {
      limit := CutBetween(m, since, rows, i, j);
    } else {
      limit := CutBetween(m, since, rows, j, i);
    }
    page := rows[..limit];
  }

  /** A page that ends with row `i` leaves out the later row `j` of the same stamp. */
  lemma CutBetween(m: Entries, since: Option<int>, rows: seq<Entry>, i: nat, j: nat) returns (limit: nat)
    requires SortedByStamp(rows) && NoRepeats(rows)
    requires forall x :: x in rows <==> x in m.Values && Wanted(x, None, since)
    requires i < j < |rows| && rows[i].updatedAt == rows[j].updatedAt
    ensures 0 < limit <= |rows| && IsPage(m, None, since, limit, rows[..limit]) && !SkipsNothing(m, since, rows[..limit])
  {
    limit := i + 1;
    RowsToPage(m, None, since, limit, rows);
    var page := rows[..limit];
    var skipped := rows[j];
    assert skipped in rows;
    assert forall k :: 0 <= k < limit ==> page[k] == rows[k] != skipped;
    assert skipped !in page;
  }

  // ---- Pages of a fixed size ----

  function WantedSet(m: Entries, since: Option<int>): set<Entry> {
    set e | e in m.Values && Wanted(e, None, since)
  }

  function Elements(rows: seq<Entry>): set<Entry> {
    set e | e in rows
  }

  /** The entries of `w` with a stamp below `t`, and up to `t`. */
  function Below(w: set<Entry>, t: int): set<Entry> {
    set e | e in w && e.updatedAt < t
  }

  function UpTo(w: set<Entry>, t: int): set<Entry> {
    set e | e in w && e.updatedAt <= t
  }

  lemma {:induction false} ElementsCount(rows: seq<Entry>)
    requires NoRepeats(rows)
    ensures |Elements(rows)| == |rows|
  {
    if rows != [] {
      var before, last := rows[..|rows| - 1], rows[|rows| - 1];
      ElementsCount(before);
      assert rows == before + [last];
      assert Elements(rows) == Elements(before) + {last};
      assert last !in before;
    }
  }

  lemma SmallerSet(a: set<Entry>, b: set<Entry>)
    requires a <= b
    ensures |a| <= |b| && (a != b ==> |a| < |b|)
  {
    assert b == a + (b - a);
    if a != b {
      assert b - a != {};
    }
  }

  lemma PageElements(m: Entries, since: Option<int>, limit: nat, page: seq<Entry>)
    requires IsPage(m, None, since, limit, page)
    ensures Elements(page) <= WantedSet(m, since) && |Elements(page)| == |page|
  {
    ElementsCount(page);
    forall e | e in page
      ensures e in WantedSet(m, since)
    {
      var i :| 0 <= i < |page| && page[i] == e;
    }
  }

  /** A page is as full as it can be. */
  lemma PageSize(m: Entries, since: Option<int>, limit: nat, page: seq<Entry>)
    requires IsPage(m, None, since, limit, page)
    ensures var n := |WantedSet(m, since)|; |page| == if n < limit then n else limit
  {
    PageElements(m, since, limit, page);
    SmallerSet(Elements(page), WantedSet(m, since));
    if |page| < limit {
      assert forall e :: e in WantedSet(m, since) ==> e in page;
      assert Elements(page) == WantedSet(m, since);
    }
  }

  /** With distinct stamps, the page of size `limit` holds exactly the `limit` least wanted entries. */
  lemma OnPageExactly(m: Entries, since: Option<int>, limit: nat, page: seq<Entry>, e: Entry)
    requires IsPage(m, None, since, limit, page) && DistinctStamps(m, since) && e in WantedSet(m, since)
    ensures e in page <==> |Below(WantedSet(m, since), e.updatedAt)| < limit
  {
    PageElements(m, since, limit, page);
    var w := WantedSet(m, since);
    var below := Below(w, e.updatedAt);
    if e in page {
      forall x | x in below
        ensures x in page
      {
        if x !in page {
          EarlierThan(m, since, limit, page, x, e);
        }
      }
      SmallerSet(below, Elements(page) - {e});
    } else {
      forall x | x in page
        ensures x in below
      {
        EarlierThan(m, since, limit, page, e, x);
      }
      SmallerSet(Elements(page), below);
    }
  }

  /** What is on a page has no later stamp than what was left out. */
  lemma EarlierThan(m: Entries, since: Option<int>, limit: nat, page: seq<Entry>, out: Entry, on: Entry)
    requires IsPage(m, None, since, limit, page) && out in WantedSet(m, since) && out !in page && on in page
    ensures on.updatedAt <= out.updatedAt && |page| == limit
  {
    var i :| 0 <= i < |page| && page[i] == on;
  }

  /** A group of equal stamps that a page of this size cuts in two: it begins before the page is full
      and ends behind it. */
  predicate Cuts(m: Entries, since: Option<int>, limit: nat, t: int) {
    |Below(WantedSet(m, since), t)| < limit < |UpTo(WantedSet(m, since), t)|
  }

  lemma LastOnPage(page: seq<Entry>, e: Entry)
    requires SortedByStamp(page) && e in page
    ensures LastStamp(page).Some? && e.updatedAt <= LastStamp(page).value
  {
    var i :| 0 <= i < |page| && page[i] == e;
  }

  /** For the limit that is in use: a page leaves out an entry at or below its last stamp exactly if
      some group of equal stamps is cut. */
  lemma PageSkipsExactly(m: Entries, since: Option<int>, limit: nat, page: seq<Entry>)
    requires limit > 0 && IsPage(m, None, since, limit, page)
    ensures SkipsNothing(m, since, page) <==> !exists t :: Cuts(m, since, limit, t)
  {
    hide IsPage, DistinctStamps, Wanted, LastStamp;
    if t :| Cuts(m, since, limit, t) {
      CutSkips(m, since, limit, page, t);
    }
    if !SkipsNothing(m, since, page) {
      var t := SkipCuts(m, since, limit, page);
      assert Cuts(m, since, limit, t);
    }
  }

  lemma CutSkips(m: Entries, since: Option<int>, limit: nat, page: seq<Entry>, t: int)
    requires limit > 0 && IsPage(m, None, since, limit, page) && Cuts(m, since, limit, t)
    ensures !SkipsNothing(m, since, page)
  {
    var w := WantedSet(m, since);
    PageElements(m, since, limit, page);
    var out := LeftOut(UpTo(w, t), Elements(page));
    assert |page| == limit by {
      assert IsPage(m, None, since, limit, page);
    }
    var on := LeftOut(Elements(page), Below(w, t));
    EarlierThan(m, since, limit, page, out, on);
    var last := page[|page| - 1];
    EarlierThan(m, since, limit, page, out, last);
    LastOnPage(page, on);
  }

  lemma LeftOut(a: set<Entry>, b: set<Entry>) returns (e: Entry)
    requires |a| > |b|
    ensures e in a && e !in b
  {
    if a <= b {
      SmallerSet(a, b);
    }
    e :| e in a && e !in b;
  }

  lemma SkipCuts(m: Entries, since: Option<int>, limit: nat, page: seq<Entry>) returns (t: int)
    requires IsPage(m, None, since, limit, page) && !SkipsNothing(m, since, page)
    ensures Cuts(m, since, limit, t)
  {
    var w := WantedSet(m, since);
    PageElements(m, since, limit, page);
    var e :| e in m.Values && Wanted(e, None, since) && e !in page && LastStamp(page).Some? && e.updatedAt <= LastStamp(page).value;
    var last := page[|page| - 1];
    t := last.updatedAt;
    assert e in w && last in page;
    EarlierThan(m, since, limit, page, e, last);
    forall x | x in Below(w, t)
      ensures x in Elements(page) - {last}
    {
      if x !in page {
        EarlierThan(m, since, limit, page, x, last);
      }
    }
    SmallerSet(Below(w, t), Elements(page) - {last});
    forall x | x in Elements(page) + {e}
      ensures x in UpTo(w, t)
    {
      if x in page {
        LastOnPage(page, x);
      }
    }
    SmallerSet(Elements(page) + {e}, UpTo(w, t));
  }

  /** With distinct stamps there is only one page of each size: pulled again from the same index and
      cursor it is the same. */
  lemma PageIsUnique(m: Entries, since: Option<int>, limit: nat, page: seq<Entry>, again: seq<Entry>)
    requires IsPage(m, None, since, limit, page) && IsPage(m, None, since, limit, again) && DistinctStamps(m, since)
    ensures page == again
  {
    PageElements(m, since, limit, page);
    PageElements(m, since, limit, again);
    forall e
      ensures e in page <==> e in again
    {
      if e in WantedSet(m, since) {
        OnPageExactly(m, since, limit, page, e);
        OnPageExactly(m, since, limit, again, e);
      } else {
        assert e !in Elements(page) && e !in Elements(again);
      }
    }
    assert Elements(page) == Elements(again);
    StrictlySorted(m, since, page);
    StrictlySorted(m, since, again);
    SameRows(page, again);
  }

  ghost predicate Increasing(rows: seq<Entry>) {
    forall i, j :: 0 <= i < j < |rows| ==> rows[i].updatedAt < rows[j].updatedAt
  }

  lemma StrictlySorted(m: Entries, since: Option<int>, page: seq<Entry>)
    requires SortedByStamp(page) && NoRepeats(page) && DistinctStamps(m, since) && Elements(page) <= WantedSet(m, since)
    ensures Increasing(page)
  {
    forall i, j | 0 <= i < j < |page|
      ensures page[i].updatedAt < page[j].updatedAt
    {
      assert page[i] in Elements(page) && page[j] in Elements(page);
    }
  }

  lemma {:induction false} SameRows(a: seq<Entry>, b: seq<Entry>)
    requires |a| == |b| && Increasing(a) && Increasing(b) && Elements(a) == Elements(b)
    ensures a == b
  {
    if a != [] {
      hide Increasing, Elements;
      var n := |a| - 1;
      SameLast(a, b);
      IncreasingInit(a);
      IncreasingInit(b);
      SameRows(a[..n], b[..n]);
      assert a == a[..n] + [a[n]] && b == b[..n] + [b[n]];
    }
  }

  lemma SameLast(a: seq<Entry>, b: seq<Entry>)
    requires |a| == |b| > 0 && Increasing(a) && Increasing(b) && Elements(a) == Elements(b)
    ensures a[|a| - 1] == b[|b| - 1] && Elements(a[..|a| - 1]) == Elements(b[..|b| - 1])
  {
    LastOfRows(a);
    LastOfRows(b);
    var x, y := a[|a| - 1], b[|b| - 1];
    assert x in Elements(a) && y in Elements(b);
    hide Increasing, Elements;
    assert x == y;
  }

  lemma IncreasingInit(rows: seq<Entry>)
    requires Increasing(rows) && rows != []
    ensures Increasing(rows[..|rows| - 1])
  {
  }

  /** The last row is the only one of the largest stamp. */
  lemma LastOfRows(rows: seq<Entry>)
    requires Increasing(rows) && rows != []
    ensures var last := rows[|rows| - 1];
            && Elements(rows[..|rows| - 1]) == Elements(rows) - {last}
            && forall e :: e in Elements(rows) && e != last ==> e.updatedAt < last.updatedAt
  {
    var before, last := rows[..|rows| - 1], rows[|rows| - 1];
    assert rows == before + [last];
    forall e | e in Elements(rows) && e != last
      ensures e in before && e.updatedAt < last.updatedAt
    {
      var i :| 0 <= i < |rows| && rows[i] == e;
      assert before[i] == e;
    }
  }

  // ---- Sorting by stamp, as a stable insertion ----

  function InsertRow(rows: seq<Entry>, e: Entry): seq<Entry> {
    if rows == [] || rows[|rows| - 1].updatedAt <= e.updatedAt then rows + [e]
    else InsertRow(rows[..|rows| - 1], e) + [rows[|rows| - 1]]
  }

  lemma {:induction false} InsertRowKeeps(rows: seq<Entry>, e: Entry)
    requires SortedByStamp(rows) && NoRepeats(rows) && e !in rows
    ensures var r := InsertRow(rows, e);
            && SortedByStamp(r) && NoRepeats(r) && |r| == |rows| + 1
            && forall x :: x in r <==> x in rows || x == e
    decreases |rows|
  {
    hide SortedByStamp, NoRepeats;
    if rows != [] {
      InitKeeps(rows);
    }
    if rows == [] || rows[|rows| - 1].updatedAt <= e.updatedAt {
      SnocKeeps(rows, e);
    } else {
      InsertRowKeeps(rows[..|rows| - 1], e);
      SnocKeeps(InsertRow(rows[..|rows| - 1], e), rows[|rows| - 1]);
    }
  }

  lemma InitKeeps(rows: seq<Entry>)
    requires SortedByStamp(rows) && NoRepeats(rows) && rows != []
    ensures var front, last := rows[..|rows| - 1], rows[|rows| - 1];
            && SortedByStamp(front) && NoRepeats(front) && last !in front
            && (forall x :: x in front ==> x.updatedAt <= last.updatedAt)
            && forall x :: x in rows <==> x in front || x == last
  {
    assert rows == rows[..|rows| - 1] + [rows[|rows| - 1]];
  }

  lemma SnocKeeps(front: seq<Entry>, last: Entry)
    requires SortedByStamp(front) && NoRepeats(front) && last !in front
    requires forall x :: x in front ==> x.updatedAt <= last.updatedAt
    ensures SortedByStamp(front + [last]) && NoRepeats(front + [last])
    ensures forall x :: x in front + [last] <==> x in front || x == last
  {
  }

  // ---- The index object ----

  class RecordingsIndex {
    var entries: Entries

    ghost predicate Valid()
      reads this
    {
      WellKeyed(entries)
    }

    constructor ()
      ensures Valid() && entries == map[]
    {
      entries := map[];
    }

    method Upsert(entry: Entry)
      requires Valid()
      modifies this
      ensures Valid() && entries == old(entries)[EntryKey(entry) := entry]
      ensures EntryKey(entry) == entry.stream + "/" + entry.record
    {
      entries := entries[EntryKey(entry) := entry];
    }

    /** Does nothing for a recording that is no longer listed. */
    method UpdateStatus(stream: string, record: string, status: Status, endTs: Option<int>, durationMs: Option<int>, now: int)
      requires Valid()
      modifies this
      ensures Valid()
      ensures entries == WithStatus(old(entries), stream, record, status, endTs, durationMs, now)
    {
      var key := KeyOf(stream, record);
      if key in entries {
        var entry := entries[key];
        entry := entry.(status := status);
        entry := entry.(endTs := endTs);
        entry := entry.(durationMs := durationMs);
        entry := entry.(updatedAt := now);
        entries := entries[key := entry];
      }
    }

    /** Collects, filters, sorts and truncates. */
    method ListSessions(stream: Option<string>, since: Option<int>, limit: nat)
      returns (sessions: seq<Session>, lastTs: Option<int>, ghost page: seq<Entry>)
      requires Valid()
      ensures IsPage(entries, stream, since, EffectiveLimit(limit), page)
      ensures EffectiveLimit(limit) == if limit == 0 then 100 else limit
      ensures sessions == ToSessions(page) && lastTs == LastStamp(page)
    {
      hide InsertRow, EntryKey, IsPage, WellKeyed, ToSessions, Wanted;
      var cap := EffectiveLimit(limit);
      var rows: seq<Entry> := [];
      AllKeyed(entries);
      var keys := entries.Keys;
      while keys != {}
        invariant keys <= entries.Keys
        invariant SortedByStamp(rows) && NoRepeats(rows)
        invariant forall x :: x in rows <==> x in entries.Values && Wanted(x, stream, since) && EntryKey(x) !in keys
        decreases |keys|
      {
        var k :| k in keys;
        keys := keys - {k};
        var row := entries[k];
        KeyedOnce(entries, k);
        if Wanted(row, stream, since) {
          InsertRowKeeps(rows, row);
          rows := InsertRow(rows, row);
        }
      }
      page := rows[..if |rows| > cap then cap else |rows|];
      RowsToPage(entries, stream, since, cap, rows);
      if |rows| > cap {
        rows := rows[..cap];
      } else {
        assert rows[..|rows|] == rows;
      }
      lastTs := if rows == [] then None else Some(rows[|rows| - 1].updatedAt);
      sessions := ToSessions(rows);
    }

    /** Removes what is listed among these keys, and counts it. */
    method Ack(records: seq<RecordingKey>) returns (removed: nat)
      requires Valid()
      modifies this
      ensures Valid() && entries == Without(old(entries), records)
      ensures removed == |old(entries)| - |entries|
    {
      hide KeyOf, Without, AckedKeys, WellKeyed;
      removed := 0;
      var i := 0;
      WithoutNone(entries, records);
      WithoutKeepsKeys(entries, records);
      while i < |records|
        invariant 0 <= i <= |records|
        invariant entries == Without(old(entries), records[..i])
        invariant removed == |old(entries)| - |entries|
      {
        var key := KeyOf(records[i].stream, records[i].record);
        WithoutStep(old(entries), records, i);
        RemoveOne(entries, key);
        if key in entries {
          entries := entries - {key};
          removed := removed + 1;
        }
        i := i + 1;
      }
      assert records[..i] == records;
    }
  }

  /** A recording's new status, end, duration and stamp; everything else is as it was. */
  predicate Restamped(before: Entry, now: Entry, status: Status, endTs: Option<int>, durationMs: Option<int>, stamp: int) {
    && now.status == status && now.endTs == endTs && now.durationMs == durationMs && now.updatedAt == stamp
    && now.stream == before.stream && now.record == before.record && now.recordDir == before.recordDir
    && now.mpdPath == before.mpdPath && now.startTs == before.startTs && now.nodeAlias == before.nodeAlias
  }

  function WithStatus(m: Entries, stream: string, record: string, status: Status, endTs: Option<int>,
                      durationMs: Option<int>, now: int): Entries
  {
    var key := KeyOf(stream, record);
    if key in m then m[key := m[key].(status := status, endTs := endTs, durationMs := durationMs, updatedAt := now)] else m
  }

  /** A status update: only the entry listed under this stream and record changes, in these fields; for a
      recording that is not listed nothing does. */
  lemma StatusMeans(m: Entries, stream: string, record: string, status: Status, endTs: Option<int>, durationMs: Option<int>, now: int)
    ensures var key, after := stream + "/" + record, WithStatus(m, stream, record, status, endTs, durationMs, now);
            && after.Keys == m.Keys && (forall k :: k in m && k != key ==> after[k] == m[k])
            && (key in m ==> Restamped(m[key], after[key], status, endTs, durationMs, now))
  {
  }

  function AckedKeys(records: seq<RecordingKey>): set<string> {
    set k | 0 <= k < |records| :: KeyOf(records[k].stream, records[k].record)
  }

  function Without(m: Entries, records: seq<RecordingKey>): Entries {
    m - AckedKeys(records)
  }

  /** The acknowledged recording is the one listed under `key`. */
  predicate Names(r: RecordingKey, key: string) {
    key == r.stream + "/" + r.record
  }

  /** An acknowledgement: exactly the entries listed under a named recording go, and the others stay as they are. */
  lemma WithoutMeans(m: Entries, records: seq<RecordingKey>)
    ensures var rest := Without(m, records);
            && (forall k :: k in rest <==> k in m && forall i :: 0 <= i < |records| ==> !Names(records[i], k))
            && (forall k :: k in rest ==> rest[k] == m[k])
  {
    forall k | k in m
      ensures k in Without(m, records) <==> forall i :: 0 <= i < |records| ==> !Names(records[i], k)
    {
      if k in AckedKeys(records) {
        var i :| 0 <= i < |records| && KeyOf(records[i].stream, records[i].record) == k;
        assert Names(records[i], k);
      }
    }
  }

  lemma WithoutNone(m: Entries, records: seq<RecordingKey>)
    ensures Without(m, records[..0]) == m
  {
    assert AckedKeys(records[..0]) == {};
  }

  lemma WithoutStep(m: Entries, records: seq<RecordingKey>, i: nat)
    requires i < |records|
    ensures Without(m, records[..i + 1]) == Without(m, records[..i]) - {KeyOf(records[i].stream, records[i].record)}
  {
    var key := KeyOf(records[i].stream, records[i].record);
    var before, after := records[..i], records[..i + 1];
    forall x
      ensures x in AckedKeys(after) <==> x in AckedKeys(before) || x == key
    {
      if x in AckedKeys(after) {
        var k :| 0 <= k < |after| && KeyOf(after[k].stream, after[k].record) == x;
        if k < i {
          assert before[k] == after[k];
        }
      }
      if x in AckedKeys(before) {
        var k :| 0 <= k < |before| && KeyOf(before[k].stream, before[k].record) == x;
        assert after[k] == before[k];
      }
      if x == key {
        assert KeyOf(after[i].stream, after[i].record) == x;
      }
    }
  }

  lemma RemoveOne(m: Entries, key: string)
    ensures if key in m then |m - {key}| == |m| - 1 else m - {key} == m
  {
    if key in m {
      assert (m - {key}).Keys == m.Keys - {key};
      assert |(m - {key}).Keys| == |m.Keys| - 1;
    }
  }

  lemma WithoutKeepsKeys(m: Entries, records: seq<RecordingKey>)
    requires WellKeyed(m)
    ensures WellKeyed(Without(m, records))
  {
    hide AckedKeys, EntryKey;
  }

  lemma AllKeyed(m: Entries)
    requires WellKeyed(m)
    ensures forall x :: x in m.Values ==> EntryKey(x) in m
  {
    hide EntryKey;
  }

  lemma KeyedOnce(m: Entries, k: string)
    requires WellKeyed(m) && k in m
    ensures forall x :: x in m.Values ==> (EntryKey(x) == k <==> x == m[k])
  {
    hide EntryKey;
  }

  /** The first rows of a sorted enumeration of the wanted entries are a page. */
  lemma RowsToPage(m: Entries, stream: Option<string>, since: Option<int>, cap: nat, rows: seq<Entry>)
    requires SortedByStamp(rows) && NoRepeats(rows)
    requires forall x :: x in rows <==> x in m.Values && Wanted(x, stream, since)
    ensures IsPage(m, stream, since, cap, rows[..if |rows| > cap then cap else |rows|])
  {
    var n := if |rows| > cap then cap else |rows|;
    var page := rows[..n];
    assert forall j :: 0 <= j < n ==> rows[j] == page[j] && rows[j] in page;
    forall e | e in m.Values && Wanted(e, stream, since) && e !in page
      ensures |page| == cap && forall i :: 0 <= i < |page| ==> page[i].updatedAt <= e.updatedAt
    {
      assert e in rows;
      var j :| 0 <= j < |rows| && rows[j] == e;
    }
    forall i | 0 <= i < |page|
      ensures page[i] in m.Values && Wanted(page[i], stream, since)
    {
      assert page[i] in rows;
    }
  }
}
