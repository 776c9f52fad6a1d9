/** The Annex-B byte stream: start codes, and the scan for NAL units that the program writes three
    times (the iterator of `h265.rs`, the loop inlined in `repayload.rs` and the loop of `h264.rs`). */
module AnnexB {
  import opened Octets

  const START_CODE_4: seq<byte> := [0, 0, 0, 1]

  predicate Code3At(d: seq<byte>, i: nat) {
    i + 3 <= |d| && d[i] == 0 && d[i + 1] == 0 && d[i + 2] == 1
  }

  predicate Code4At(d: seq<byte>, i: nat) {
    i + 4 <= |d| && d[i] == 0 && d[i + 1] == 0 && d[i + 2] == 0 && d[i + 3] == 1
  }

  predicate CodeAt(d: seq<byte>, i: nat) {
    Code4At(d, i) || Code3At(d, i)
  }

  /** `data.starts_with(&START_CODE_4) || data.starts_with(&START_CODE_3)` */
  predicate StartsWithCode(d: seq<byte>) {
    CodeAt(d, 0)
  }

  /** No `00 00 01` anywhere: what emulation prevention guarantees of a NAL unit. */
  ghost predicate NoCode(u: seq<byte>) {
    forall p: nat :: !Code3At(u, p)
  }

  /** The Annex-B form with four-byte start codes. */
  function Stream(us: seq<seq<byte>>): seq<byte> {
    if us == [] then [] else START_CODE_4 + us[0] + Stream(us[1..])
  }

  lemma {:induction false} StreamConcat(a: seq<seq<byte>>, b: seq<seq<byte>>)
    ensures Stream(a + b) == Stream(a) + Stream(b)
  {
    if a == [] {
      assert a + b == b;
    } else {
      assert (a + b)[1..] == a[1..] + b;
      StreamConcat(a[1..], b);
    }
  }

  // ---- The scan ----

  /** Half-open range of a NAL unit in the buffer. */
  datatype Span = Span(start: nat, end: nat)

  /** Where a unit whose search starts at `i` ends: the first start code with at least four bytes
      from it to the end of the buffer, else the end of the buffer. */
  function UnitEnd(d: seq<byte>, i: nat): (e: nat)
    ensures e <= |d| && (i <= |d| ==> i <= e)
    ensures e < |d| ==> i <= e && e + 4 <= |d| && CodeAt(d, e)
    decreases |d| - i
  {
    if i + 3 >= |d| then |d|
    else if CodeAt(d, i) then i
    else UnitEnd(d, i + 1)
  }

  /** The first start code at or after `i` with at least four bytes left, and the unit behind it. */
  function FindUnit(d: seq<byte>, i: nat): (r: Option<Span>)
    ensures r.Some? ==> i + 3 <= r.value.start <= r.value.end <= |d|
    ensures r.Some? && r.value.start < |d| ==> r.value.start < r.value.end
    ensures r.Some? && r.value.end < |d| ==> r.value.end + 4 <= |d| && CodeAt(d, r.value.end)
    decreases |d| - i
  {
    if i + 4 > |d| then None
    else if Code4At(d, i) then Some(Span(i + 4, UnitEnd(d, i + 5)))
    else if Code3At(d, i) then Some(Span(i + 3, UnitEnd(d, i + 4)))
    else FindUnit(d, i + 1)
  }

  predicate InBuffer(d: seq<byte>, ss: seq<Span>) {
    forall k :: 0 <= k < |ss| ==> ss[k].start < ss[k].end <= |d|
  }

  function UnitAt(d: seq<byte>, s: Span): seq<byte>
    requires s.start <= s.end <= |d|
  {
    d[s.start..s.end]
  }

  /** All non-empty units from `i` on. Only a start code at the very end has an empty unit. */
  function SpansFrom(d: seq<byte>, i: nat): (ss: seq<Span>)
    ensures InBuffer(d, ss)
    decreases |d| - i
  {
    match FindUnit(d, i)
    case None => []
    case Some(s) => if s.start >= |d| then [] else [s] + SpansFrom(d, s.end)
  }

  /** The units' bytes, in order. */
  function UnitsFrom(d: seq<byte>, i: nat): (us: seq<seq<byte>>)
    ensures |us| == |SpansFrom(d, i)|
  {
    var ss := SpansFrom(d, i);
    seq(|ss|, k requires 0 <= k < |ss| => UnitAt(d, ss[k]))
  }

  lemma UnitsFromStep(d: seq<byte>, i: nat)
    requires SpansFrom(d, i) != []
    ensures var s := SpansFrom(d, i)[0];
            UnitsFrom(d, i) == [UnitAt(d, s)] + UnitsFrom(d, s.end)
  {
  }

  /** A start code of three or four bytes fills exactly `from..to`. */
  predicate CodeBetween(d: seq<byte>, from: nat, to: nat) {
    (from + 4 == to && Code4At(d, from)) || (from + 3 == to && Code3At(d, from))
  }

  /** The units and the start codes between them tile the buffer: each unit after the first begins
      right behind one start code that begins where the previous unit ended, no unit has a start
      code inside, nothing before the first unit was one, and behind the last unit there is
      nothing, or a bare four-byte code. */
  ghost predicate Tiled(d: seq<byte>, from: nat, ss: seq<Span>)
    requires InBuffer(d, ss)
  {
    && (forall k :: 0 <= k < |ss| ==> Undivided(d, ss[k]))
    && (forall k :: 0 < k < |ss| ==> CodeBetween(d, ss[k - 1].end, ss[k].start))
    && (if ss == [] then forall p: nat :: from <= p && p + 5 <= |d| ==> !CodeAt(d, p)
        else FirstCode(d, from, ss[0].start) && EndsAt(d, ss[|ss| - 1].end))
  }

  ghost predicate Undivided(d: seq<byte>, s: Span) {
    forall p: nat :: s.start < p < s.end && p + 4 <= |d| ==> !CodeAt(d, p)
  }

  ghost predicate FirstCode(d: seq<byte>, from: nat, start: nat) {
    exists c: nat :: from <= c && CodeBetween(d, c, start) && forall p: nat :: from <= p < c ==> !CodeAt(d, p)
  }

  predicate EndsAt(d: seq<byte>, end: nat) {
    end == |d| || CodeBetween(d, end, |d|)
  }

  lemma {:induction false} NothingInside(d: seq<byte>, i: nat)
    ensures forall p: nat :: i <= p < UnitEnd(d, i) && p + 4 <= |d| ==> !CodeAt(d, p)
    decreases |d| - i
  {
    if i + 3 < |d| && !CodeAt(d, i) {
      NothingInside(d, i + 1);
    }
  }

  lemma {:induction false} FoundUnit(d: seq<byte>, i: nat) returns (c: nat)
    ensures FindUnit(d, i).None? ==> forall p: nat :: i <= p && p + 4 <= |d| ==> !CodeAt(d, p)
    ensures FindUnit(d, i).Some? ==>
              var s := FindUnit(d, i).value;
              && i <= c && c + 4 <= |d| && CodeBetween(d, c, s.start)
              && (forall p: nat :: i <= p < c ==> !CodeAt(d, p))
              && Undivided(d, s)
              && (CodeAt(d, i) && i + 4 <= |d| ==> c == i)
    decreases |d| - i
  {
    c := i;
    if i + 4 <= |d| {
      if Code4At(d, i) {
        NothingInside(d, i + 5);
      } else if Code3At(d, i) {
        NothingInside(d, i + 4);
      } else {
        c := FoundUnit(d, i + 1);
      }
    }
  }

  /** On every byte string, from every offset. */
  lemma {:induction false} ScanTiles(d: seq<byte>, i: nat)
    ensures Tiled(d, i, SpansFrom(d, i))
    decreases |d| - i
  {
    var c := FoundUnit(d, i);
    var r := FindUnit(d, i);
    if r.Some? && r.value.start < |d| {
      var s := r.value;
      var c' := FoundUnit(d, s.end);
      ScanTiles(d, s.end);
      var rest := SpansFrom(d, s.end);
      assert SpansFrom(d, i) == [s] + rest;
      assert FirstCode(d, i, s.start);
      TiledCons(d, i, s, rest);
    }
  }

  lemma TiledCons(d: seq<byte>, from: nat, s: Span, rest: seq<Span>)
    requires InBuffer(d, rest) && Tiled(d, s.end, rest)
    requires s.start < s.end <= |d| && Undivided(d, s) && FirstCode(d, from, s.start)
    requires rest != [] ==> CodeBetween(d, s.end, rest[0].start)
    requires rest == [] ==> EndsAt(d, s.end)
    ensures InBuffer(d, [s] + rest) && Tiled(d, from, [s] + rest)
  {
    var ss := [s] + rest;
    assert forall k :: 0 < k < |ss| ==> ss[k] == rest[k - 1];
    forall k | 0 < k < |ss|
      ensures CodeBetween(d, ss[k - 1].end, ss[k].start)
    {
      if k > 1 {
        assert CodeBetween(d, rest[k - 2].end, rest[k - 1].start);
      }
    }
    assert ss[|ss| - 1] == if rest == [] then s else rest[|rest| - 1];
  }

  // ---- On well-formed units the scan is the inverse of the Annex-B form ----

  ghost predicate PlainUnits(us: seq<seq<byte>>) {
    forall k :: 0 <= k < |us| ==> us[k] != [] && NoCode(us[k])
  }

  lemma {:induction false} UnitEndIs(d: seq<byte>, i: nat, e: nat)
    requires i <= e <= |d|
    requires forall p: nat :: i <= p < e ==> !CodeAt(d, p)
    requires e == |d| || (e + 4 <= |d| && CodeAt(d, e))
    ensures UnitEnd(d, i) == e
    decreases |d| - i
  {
    if i + 3 < |d| && i < e {
      UnitEndIs(d, i + 1, e);
    }
  }

  lemma {:induction false} ScanAnnexB(pre: seq<byte>, us: seq<seq<byte>>)
    requires PlainUnits(us)
    ensures var d := pre + Stream(us);
            var ss := SpansFrom(d, |pre|);
            && |ss| == |us|
            && UnitsFrom(d, |pre|) == us
            && (forall k :: 0 <= k < |us| ==> (ss[k].end == |d| <==> k == |us| - 1))
    decreases |us|
  {
    hide UnitEnd, NoCode, UnitsFrom;
    var d := pre + Stream(us);
    if us == [] {
      NothingFound(d, |pre|);
    } else {
      hide FindUnit;
      var u := us[0];
      var next := pre + START_CODE_4 + u;
      assert d == next + Stream(us[1..]);
      FirstUnit(pre, us);
      ScanAnnexB(next, us[1..]);
      assert SpansFrom(d, |pre|) == [Span(|pre| + 4, |next|)] + SpansFrom(d, |next|);
      UnitsFromStep(d, |pre|);
    }
  }

  lemma FirstUnit(pre: seq<byte>, us: seq<seq<byte>>)
    requires PlainUnits(us) && us != []
    ensures var d := pre + Stream(us);
            var s := Span(|pre| + 4, |pre| + 4 + |us[0]|);
            && FindUnit(d, |pre|) == Some(s)
            && s.end <= |d| && UnitAt(d, s) == us[0]
            && (s.end == |d| <==> |us| == 1)
  {
    StreamLayout(pre, us);
    UnitBehindCode(pre + Stream(us), |pre|, us[0]);
  }

  lemma StreamLayout(pre: seq<byte>, us: seq<seq<byte>>)
    requires us != []
    ensures var d := pre + Stream(us);
            var end := |pre| + 4 + |us[0]|;
            && Code4At(d, |pre|) && end <= |d| && d[|pre| + 4..end] == us[0]
            && (end == |d| <==> |us| == 1)
            && (|us| > 1 ==> Code4At(d, end))
  {
    Layout(pre, us[0], Stream(us[1..]));
  }

  lemma Layout(pre: seq<byte>, u: seq<byte>, tail: seq<byte>)
    ensures var d := pre + (START_CODE_4 + u + tail);
            var end := |pre| + 4 + |u|;
            && Code4At(d, |pre|) && end <= |d| && d[|pre| + 4..end] == u && d[end..] == tail
            && (Code4At(tail, 0) ==> Code4At(d, end))
  {
    var d := pre + (START_CODE_4 + u + tail);
    var end := |pre| + 4 + |u|;
    assert forall k :: 0 <= k < |tail| ==> d[end + k] == tail[k];
    assert forall k :: 0 <= k < 4 ==> d[|pre| + k] == START_CODE_4[k];
  }

  lemma UnitBehindCode(d: seq<byte>, at: nat, u: seq<byte>)
    requires u != [] && NoCode(u)
    requires Code4At(d, at) && at + 4 + |u| <= |d| && d[at + 4..at + 4 + |u|] == u
    requires at + 4 + |u| == |d| || Code4At(d, at + 4 + |u|)
    ensures FindUnit(d, at) == Some(Span(at + 4, at + 4 + |u|))
  {
    forall p: nat | at + 4 < p < at + 4 + |u|
      ensures !CodeAt(d, p)
    {
      NoCodeAcross(d, u, at + 4, p);
    }
    UnitEndIs(d, at + 5, at + 4 + |u|);
  }

  /** No start code begins inside a unit that has none, even one that runs into the next start code. */
  lemma NoCodeAcross(d: seq<byte>, u: seq<byte>, start: nat, p: nat)
    requires NoCode(u)
    requires start + |u| <= |d| && d[start..start + |u|] == u
    requires start + |u| == |d| || (start + |u| + 4 <= |d| && Code4At(d, start + |u|))
    requires start <= p < start + |u|
    ensures !CodeAt(d, p)
  {
    var end := start + |u|;
    assert forall q: nat :: q + 3 <= |u| ==> !Code3At(u, q);
    assert forall q: nat :: q < |u| ==> d[start + q] == u[q];
    if Code3At(d, p) {
      assert p + 3 <= end ==> Code3At(u, p - start);
    }
    if Code4At(d, p) {
      assert p + 4 <= end ==> Code3At(u, p + 1 - start);
    }
  }

  // ---- The iterator ----

  lemma NothingFound(d: seq<byte>, i: nat)
    requires FindUnit(d, i) == None
    ensures UnitsFrom(d, i) == []
  {
    hide FindUnit;
  }

  /** A start code was found; the unit begins at `start`. */
  lemma Yielded(d: seq<byte>, i: nat, start: nat)
    requires start <= |d| && FindUnit(d, i) == Some(Span(start, UnitEnd(d, start + 1)))
    ensures start == |d| ==> UnitsFrom(d, i) == [] == UnitsFrom(d, |d|)
    ensures start < |d| ==> UnitsFrom(d, i) == [d[start..UnitEnd(d, start + 1)]] + UnitsFrom(d, UnitEnd(d, start + 1))
  {
    if start < |d| {
      hide FindUnit, UnitEnd;
      UnitsFromStep(d, i);
    } else {
      NothingFound(d, |d|);
    }
  }

  /** The pull iterator over NAL units: `data` and the moving `offset`. */
  class NalIterator {
    const data: seq<byte>
    var offset: nat

    constructor (data: seq<byte>)
      ensures this.data == data && offset == 0
    {
      this.data := data;
      offset := 0;
    }

    /** Yields the units of `SpansFrom` one by one, and `None` exactly when none is left. */
    method Next() returns (r: Option<seq<byte>>)
      modifies this`offset
      ensures match r
              case None => UnitsFrom(data, old(offset)) == [] == UnitsFrom(data, offset)
              case Some(u) => u != [] && UnitsFrom(data, old(offset)) == [u] + UnitsFrom(data, offset)
      ensures r.Some? ==> old(offset) < offset <= |data|
    {
      hide UnitEnd, UnitsFrom, SpansFrom;
      while offset + 4 <= |data|
        invariant FindUnit(data, offset) == old(FindUnit(data, offset))
        invariant old(offset) <= offset
        decreases |data| - offset
      {
        if Code4At(data, offset) || Code3At(data, offset) {
          offset := offset + if Code4At(data, offset) then 4 else 3;
          Yielded(data, old(offset), offset);
          r := ExtractNalUnit(offset);
          return;
        }
        offset := offset + 1;
      }
      NothingFound(data, offset);
      NothingFound(data, old(offset));
      return None;
    }

    method ExtractNalUnit(nalStart: nat) returns (r: Option<seq<byte>>)
      requires 4 <= |data| && offset == nalStart <= |data|
      modifies this`offset
      ensures nalStart >= |data| ==> r == None && offset == nalStart
      ensures nalStart < |data| ==>
                && offset == UnitEnd(data, nalStart + 1) > nalStart
                && r == Some(data[nalStart..offset])
    {
      if nalStart >= |data| {
        return None;
      }
      var nalEnd := nalStart + 1;
      while nalEnd + 3 < |data|
        invariant nalStart < nalEnd <= |data|
        invariant UnitEnd(data, nalEnd) == UnitEnd(data, nalStart + 1)
      {
        if Code4At(data, nalEnd) || Code3At(data, nalEnd) {
          break;
        }
        nalEnd := nalEnd + 1;
      }
      if nalEnd >= |data| - 3 {
        nalEnd := |data|;
      }
      offset := nalEnd;
      return Some(data[nalStart..nalEnd]);
    }
  }
}
