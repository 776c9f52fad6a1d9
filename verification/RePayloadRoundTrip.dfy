/** What the two halves of the re-payloader promise together: packetising and reassembling are
    inverse, packets respect the MTU, and fragments, markers and sequence numbers are right. */
module RePayloadRoundTrip {
  import opened Octets
  import opened AnnexB
  import opened H265Params
  import opened RePayload

  // ---- One unit ----

  lemma FuHeader(b: byte)
    ensures NalType(WithType(b, NAL_TYPE_FU)) == NAL_TYPE_FU
    ensures WithType(b, NAL_TYPE_FU) != 0
    ensures WithType(WithType(b, NAL_TYPE_FU), NalType(b)) == b
  {
    var f, t, l := b / 128, b / 2 % 64, b % 2;
    assert b == 128 * f + 2 * t + l;
    var w := WithType(b, NAL_TYPE_FU);
    assert w == 128 * f + 98 + l;
    assert w / 2 == 64 * f + 49;
    assert w / 128 == f && w % 2 == l;
  }

  lemma FuContribution(u: seq<byte>, from: nat, n: nat)
    requires n > 0 && 2 + from + n <= |u|
    ensures Contribution(FuPayload(u, from, n))
         == (if from == 0 then START_CODE_4 + u[..2] else []) + u[2 + from..2 + from + n]
  {
    var p, chunk := FuPayload(u, from, n), u[2 + from..2 + from + n];
    FuHeader(u[0]);
    FuFlags(u, from, n);
    ThreeThen(p[0], p[1], p[2], chunk);
    hide NalType, WithType;
    assert p[2] / 128 != 0 <==> from == 0;
    assert from == 0 ==> [u[0], u[1]] == u[..2];
  }

  lemma ThreeThen(a: byte, b: byte, c: byte, rest: seq<byte>)
    ensures ([a, b, c] + rest)[3..] == rest
  {
  }

  lemma {:induction false} FusReassemble(u: seq<byte>, from: nat)
    requires 2 + from < |u|
    ensures Contributions(FusFrom(u, from)) == (if from == 0 then START_CODE_4 + u[..2] else []) + u[2 + from..]
    decreases |u| - from
  {
    hide FuPayload, Contribution;
    var n := ChunkSize(u, from);
    FuContribution(u, from, n);
    var rest := FusFrom(u, from + n);
    assert FusFrom(u, from) == [FuPayload(u, from, n)] + rest;
    assert ([FuPayload(u, from, n)] + rest)[1..] == rest;
    if 2 + from + n < |u| {
      FusReassemble(u, from + n);
      assert u[2 + from..] == u[2 + from..2 + from + n] + u[2 + from + n..];
    }
  }

  /** A unit the stream can carry back: long enough to get a start code, and not itself of a type
      that the receiver would open as an aggregation packet or a fragment. */
  predicate Carried(u: seq<byte>) {
    |u| >= 3 && (|u| > 1188 || (u[0] / 2 % 64 != 48 && u[0] / 2 % 64 != 49))
  }

  lemma NoLeadingCode(u: seq<byte>)
    requires NoCode(u)
    ensures !StartsWithCode(u)
  {
    assert !Code3At(u, 0) && !Code3At(u, 1);
  }

  lemma UnitRoundTrip(u: seq<byte>)
    requires Carried(u) && NoCode(u)
    ensures Contributions(Payloads(u)) == START_CODE_4 + u
  {
    if |u| > MAX_PAYLOAD_SIZE {
      hide NoCode, Contribution;
      FusReassemble(u, 0);
      assert u[..2] + u[2..] == u;
    } else {
      NoLeadingCode(u);
      OnePayload(u);
    }
  }

  lemma OnePayload(u: seq<byte>)
    ensures Contributions([u]) == Contribution(u)
  {
    hide Contribution;
    assert [u][1..] == [];
  }

  lemma {:induction false} ApEndsWithin(body: seq<byte>, offset: nat)
    ensures ApToAnnexB(body, offset) == [] ||
            (Code4At(ApToAnnexB(body, offset), 0) && |ApToAnnexB(body, offset)| >= 5)
  {
  }

  /** Whether `x` stands at position `p` of `s`. */
  ghost predicate StandsAt(s: seq<byte>, p: nat, x: seq<byte>) {
    p + |x| <= |s| && forall k :: 0 <= k < |x| ==> s[p + k] == x[k]
  }

  lemma StandsAtStart(x: seq<byte>)
    ensures StandsAt(x, 0, x)
  {
  }

  /** Where a unit behind its start code runs into a second start code, the unit has a code inside. */
  lemma SecondCode(s: seq<byte>, p: nat, u: seq<byte>, r: nat)
    requires StandsAt(s, p, START_CODE_4 + u) && p < r && r + 4 <= p + 4 + |u| && Code4At(s, r)
    ensures r >= p + 4 && Code3At(u, r - p - 3)
  {
    var x := START_CODE_4 + u;
    var k := 3;
    assert s[p + k] == x[k] == 1;
    var j := r - p;
    assert j >= 4;
    var a, b, c := j + 1, j + 2, j + 3;
    assert u[j - 3] == x[a] == s[p + a] && u[j - 2] == x[b] == s[p + b] && u[j - 1] == x[c] == s[p + c];
  }

  /** The expansion of an aggregation body nowhere holds a start code and a unit at least two bytes
      longer than the body: its pieces are too short, and across two pieces there is a start code. */
  lemma {:induction false} ApHoldsNoLonger(body: seq<byte>, offset: nat, u: seq<byte>, p: nat)
    requires NoCode(u) && |u| >= |body| + 2
    ensures !StandsAt(ApToAnnexB(body, offset), p, START_CODE_4 + u)
    decreases |body| - offset
  {
    var all := ApToAnnexB(body, offset);
    if StandsAt(all, p, START_CODE_4 + u) {
      var size := U16At(body, offset);
      var piece, rest := body[offset + 2..offset + 2 + size], ApToAnnexB(body, offset + 2 + size);
      var r: nat := 4 + size as int;
      assert all == START_CODE_4 + piece + rest;
      if p >= r {
        ApHoldsNoLonger(body, offset + 2 + size, u, p - r);
        PastFront(START_CODE_4 + piece, rest, p, START_CODE_4 + u);
      } else {
        ApEndsWithin(body, offset + 2 + size);
        CodeBehind(START_CODE_4 + piece, rest);
        SecondCode(all, p, u, r);
      }
    }
  }

  lemma PastFront(a: seq<byte>, b: seq<byte>, p: nat, x: seq<byte>)
    requires p >= |a|
    ensures StandsAt(a + b, p, x) ==> StandsAt(b, p - |a|, x)
  {
    if StandsAt(a + b, p, x) {
      forall k | 0 <= k < |x|
        ensures b[p - |a| + k] == x[k]
      {
        assert (a + b)[p + k] == b[p - |a| + k];
      }
    }
  }

  lemma CodeBehind(a: seq<byte>, b: seq<byte>)
    requires Code4At(b, 0)
    ensures Code4At(a + b, |a|)
  {
  }

  /** So the expansion of a unit that looks like an aggregation packet never is that unit behind a start code. */
  lemma ApIsNotSingle(u: seq<byte>)
    requires NoCode(u) && |u| >= 3
    ensures ApToAnnexB(u[2..], 0) != START_CODE_4 + u
  {
    hide ApToAnnexB, NoCode;
    ApHoldsNoLonger(u[2..], 0, u, 0);
    StandsAtStart(START_CODE_4 + u);
  }

  /** What comes back of a unit that is not carried nowhere holds the unit behind a start code. */
  lemma UncarriedIsNowhere(u: seq<byte>, p: nat)
    requires NoCode(u) && !Carried(u)
    ensures !StandsAt(Contributions(Payloads(u)), p, START_CODE_4 + u)
  {
    if |u| >= 2 {
      OnePayload(u);
      NoLeadingCode(u);
      if |u| >= 3 {
        if NalType(u[0]) == NAL_TYPE_AP {
          ApHoldsNoLonger(u[2..], 0, u, p);
        } else {
          assert |Contribution(u)| <= 4 + 2 + (|u| - 3);
        }
      }
    }
  }

  /** For a single emulation-free unit the round trip works exactly when the unit is `Carried`:
      shorter units, and short units of type 48 or 49, come back as something else. */
  lemma UnitRoundTripExactly(u: seq<byte>)
    requires NoCode(u)
    ensures Contributions(Payloads(u)) == [0, 0, 0, 1] + u <==> Carried(u)
  {
    hide Payloads, Contributions, NoCode;
    if Carried(u) {
      UnitRoundTrip(u);
    } else {
      UncarriedIsNowhere(u, 0);
      StandsAtStart(START_CODE_4 + u);
    }
  }

  // ---- Lists of units ----

  function PayloadsOf(us: seq<seq<byte>>): seq<seq<byte>> {
    if us == [] then [] else Payloads(us[0]) + PayloadsOf(us[1..])
  }

  ghost predicate WellFormed(us: seq<seq<byte>>) {
    forall k :: 0 <= k < |us| ==> Carried(us[k]) && NoCode(us[k])
  }

  lemma {:induction false} UnitsRoundTrip(us: seq<seq<byte>>)
    requires WellFormed(us)
    ensures Contributions(PayloadsOf(us)) == Stream(us)
  {
    if us != [] {
      UnitRoundTrip(us[0]);
      UnitsRoundTrip(us[1..]);
      ContributionsConcat(Payloads(us[0]), PayloadsOf(us[1..]));
    }
  }

  lemma PayloadsSnoc(us: seq<seq<byte>>, i: nat)
    requires i < |us|
    ensures Contributions(PayloadsOf(us[..i + 1])) == Contributions(PayloadsOf(us[..i])) + Contributions(Payloads(us[i]))
    ensures Stream(us[..i + 1]) == Stream(us[..i]) + (START_CODE_4 + us[i])
  {
    hide Payloads, Contributions;
    assert us[..i + 1] == us[..i] + [us[i]];
    PayloadsConcat(us[..i], [us[i]]);
    assert PayloadsOf([us[i]]) == Payloads(us[i]) + [] == Payloads(us[i]);
    ContributionsConcat(PayloadsOf(us[..i]), Payloads(us[i]));
    StreamConcat(us[..i], [us[i]]);
    assert Stream([us[i]]) == START_CODE_4 + us[i] + [] == START_CODE_4 + us[i];
  }

  lemma {:induction false} PayloadsConcat(a: seq<seq<byte>>, b: seq<seq<byte>>)
    ensures PayloadsOf(a + b) == PayloadsOf(a) + PayloadsOf(b)
  {
    hide Payloads;
    if a == [] {
      assert a + b == b;
    } else {
      assert (a + b)[1..] == a[1..] + b;
      PayloadsConcat(a[1..], b);
    }
  }

  /** Both are prefixes of the same bytes. If the reassembled prefix is no longer than the original
      one and the next contribution `c` catches up, then it holds the unit behind its start code. */
  lemma CatchesUp(whole: seq<byte>, done: seq<byte>, c: seq<byte>, original: seq<byte>, x: seq<byte>)
    requires done + c <= whole && original + x <= whole
    requires |done| <= |original| && |done| + |c| >= |original| + |x|
    ensures StandsAt(c, |original| - |done|, x)
  {
    var p := |original| - |done|;
    assert c[p..p + |x|] == whole[|original|..|original| + |x|] == x;
    forall k | 0 <= k < |x|
      ensures c[p + k] == x[k]
    {
      assert c[p..p + |x|][k] == c[p + k];
    }
  }

  /** If a list comes back as its Annex-B form, then after each unit no more bytes have come back than
      were put in, and as many only if every unit so far is carried. */
  lemma {:induction false} NeverAhead(us: seq<seq<byte>>, i: nat)
    requires PlainUnits(us) && i <= |us| && Contributions(PayloadsOf(us)) == Stream(us)
    ensures |Contributions(PayloadsOf(us[..i]))| <= |Stream(us[..i])|
    ensures |Contributions(PayloadsOf(us[..i]))| == |Stream(us[..i])| ==> forall k :: 0 <= k < i ==> Carried(us[k])
    decreases i
  {
    hide Payloads, Contributions, PayloadsOf, Stream, Carried, StandsAt, NoCode;
    if i == 0 {
      NothingYet(us);
    } else {
      NeverAhead(us, i - 1);
      PayloadsSnoc(us, i - 1);
      PrefixesOfBoth(us, i);
      var u := us[i - 1];
      var done, c, original := Contributions(PayloadsOf(us[..i - 1])), Contributions(Payloads(u)), Stream(us[..i - 1]);
      if Carried(u) {
        UnitRoundTrip(u);
      } else if |done| + |c| >= |original| + |START_CODE_4 + u| {
        CatchesUp(Stream(us), done, c, original, START_CODE_4 + u);
        UncarriedIsNowhere(u, |original| - |done|);
      }
    }
  }

  lemma NothingYet(us: seq<seq<byte>>)
    ensures Contributions(PayloadsOf(us[..0])) == [] == Stream(us[..0])
  {
  }

  lemma PrefixesOfBoth(us: seq<seq<byte>>, i: nat)
    requires i <= |us|
    ensures Contributions(PayloadsOf(us[..i])) <= Contributions(PayloadsOf(us)) && Stream(us[..i]) <= Stream(us)
  {
    hide Contributions, PayloadsOf, Stream;
    assert us == us[..i] + us[i..];
    PayloadsConcat(us[..i], us[i..]);
    ContributionsConcat(PayloadsOf(us[..i]), PayloadsOf(us[i..]));
    StreamConcat(us[..i], us[i..]);
  }

  /** A list of emulation-free units comes back as its Annex-B form exactly if every unit in it is
      carried; the failures of several units never cancel out. */
  lemma UnitsRoundTripExactly(us: seq<seq<byte>>)
    requires PlainUnits(us)
    ensures Contributions(PayloadsOf(us)) == Stream(us) <==> WellFormed(us)
  {
    hide Contributions, PayloadsOf, Stream, Carried, NoCode;
    if Contributions(PayloadsOf(us)) == Stream(us) {
      NeverAhead(us, |us|);
      assert us[..|us|] == us;
    }
    if WellFormed(us) {
      UnitsRoundTrip(us);
    }
  }

  lemma SomePayload(u: seq<byte>)
    requires |u| >= 2
    ensures Payloads(u) != []
  {
  }

  /** The pieces cut from an Annex-B frame are the payloads of its units in order, and exactly the
      last one carries the marker. */
  lemma {:induction false} StreamPieces(pre: seq<byte>, us: seq<seq<byte>>)
    requires PlainUnits(us) && forall k :: 0 <= k < |us| ==> |us[k]| >= 2
    ensures PiecesFrom(pre + Stream(us), |pre|) == Marked(PayloadsOf(us), true)
    decreases |us|
  {
    hide Payloads, Marked, FindUnit, PiecesFrom, NoCode;
    var d := pre + Stream(us);
    if us == [] {
      NoPiecesLeft(d, |pre|, []);
      assert [] + PiecesFrom(d, |pre|) == PiecesFrom(d, |pre|);
      assert Marked([], true) == [];
    } else {
      var next := pre + START_CODE_4 + us[0];
      assert d == next + Stream(us[1..]);
      StreamPieces(next, us[1..]);
      FirstSpan(pre, us);
      SomePayload(us[0]);
      if us[1..] != [] {
        SomePayload(us[1]);
      }
      MarkedConcat(Payloads(us[0]), PayloadsOf(us[1..]));
    }
  }

  lemma FirstSpan(pre: seq<byte>, us: seq<seq<byte>>)
    requires PlainUnits(us) && us != []
    ensures var d := pre + Stream(us);
            PiecesFrom(d, |pre|) == Marked(Payloads(us[0]), |us| == 1) + PiecesFrom(d, |pre| + 4 + |us[0]|)
  {
    hide Payloads, Marked, FindUnit, PiecesFrom, NoCode;
    FirstUnit(pre, us);
    FoundPieces(pre + Stream(us), |pre|, us[0], |us| == 1);
  }

  lemma FoundPieces(d: seq<byte>, at: nat, u: seq<byte>, last: bool)
    requires FindUnit(d, at) == Some(Span(at + 4, at + 4 + |u|))
    requires UnitAt(d, Span(at + 4, at + 4 + |u|)) == u && (at + 4 + |u| == |d| <==> last)
    ensures PiecesFrom(d, at) == Marked(Payloads(u), last) + PiecesFrom(d, at + 4 + |u|)
  {
    hide Payloads, Marked, FindUnit, PiecesFrom;
    PiecesFromStep(d, at, []);
    assert PiecesOfUnit(d, Span(at + 4, at + 4 + |u|)) == Marked(Payloads(u), last);
    assert [] + PiecesFrom(d, at) == PiecesFrom(d, at);
    assert [] + Marked(Payloads(u), last) == Marked(Payloads(u), last);
  }

  lemma MarkedConcat(a: seq<seq<byte>>, b: seq<seq<byte>>)
    ensures Marked(a, b == []) + Marked(b, true) == Marked(a + b, true)
  {
  }

  // ---- The main theorem ----

  function PayloadsIn(packets: seq<Packet>): (ps: seq<seq<byte>>)
    ensures |ps| == |packets|
  {
    seq(|packets|, k requires 0 <= k < |packets| => packets[k].payload)
  }

  /** What `PayloadManually` emits for a frame. */
  function Packetised(frame: seq<byte>, header: Header, first: u16): seq<Packet> {
    Numbered(PiecesFrom(frame, 0), header, first)
  }

  /** Packetise, then reassemble: the identity on the Annex-B form of every list of well-formed
      units. On the way the payloads are those of the units in order and only the last packet is marked. */
  lemma PacketiseReassemble(us: seq<seq<byte>>, header: Header, first: u16)
    requires WellFormed(us)
    ensures var packets := Packetised(Stream(us), header, first);
            && PayloadsIn(packets) == PayloadsOf(us)
            && Contributions(PayloadsIn(packets)) == Stream(us)
            && (us != [] ==> packets != [])
            && forall k :: 0 <= k < |packets| ==> packets[k].header.marker == (k == |packets| - 1)
  {
    StreamPieces([], us);
    assert [] + Stream(us) == Stream(us);
    UnitsRoundTrip(us);
    assert PayloadsIn(Packetised(Stream(us), header, first)) == PayloadsOf(us);
    if us != [] {
      SomePayload(us[0]);
    }
  }

  /** Whatever the units, the payloads cut from a buffer are those of the units that the scan finds. */
  lemma {:induction false} PayloadsOfPieces(d: seq<byte>, ss: seq<Span>, us: seq<seq<byte>>, header: Header, first: u16)
    requires InBuffer(d, ss) && |us| == |ss| && forall k :: 0 <= k < |ss| ==> us[k] == UnitAt(d, ss[k])
    ensures |PiecesOf(d, ss)| == |PayloadsOf(us)|
    ensures forall k :: 0 <= k < |PiecesOf(d, ss)| ==> PiecesOf(d, ss)[k].payload == PayloadsOf(us)[k]
  {
    hide Payloads;
    if ss != [] {
      PayloadsOfPieces(d, ss[1..], us[1..], header, first);
    }
  }

  lemma PacketisedPayloads(us: seq<seq<byte>>, header: Header, first: u16)
    requires PlainUnits(us)
    ensures PayloadsIn(Packetised(Stream(us), header, first)) == PayloadsOf(us)
  {
    hide PayloadsOf, PiecesOf, NoCode, Stream, SpansFrom;
    var d := Stream(us);
    ScanAnnexB([], us);
    assert [] + d == d;
    var ss := SpansFrom(d, 0);
    UnitsAt(d, 0);
    PayloadsOfPieces(d, ss, us, header, first);
  }

  lemma UnitsAt(d: seq<byte>, i: nat)
    ensures forall k :: 0 <= k < |SpansFrom(d, i)| ==> UnitsFrom(d, i)[k] == UnitAt(d, SpansFrom(d, i)[k])
  {
  }

  /** The exact condition: for every list of emulation-free units, packetising and reassembling is the
      identity if and only if the list is well formed. */
  lemma PacketiseReassembleExactly(us: seq<seq<byte>>, header: Header, first: u16)
    requires PlainUnits(us)
    ensures Contributions(PayloadsIn(Packetised(Stream(us), header, first))) == Stream(us) <==> WellFormed(us)
  {
    hide Contributions, PayloadsOf, Packetised, PayloadsIn, Stream, WellFormed;
    PacketisedPayloads(us, header, first);
    UnitsRoundTripExactly(us);
  }

  // ---- Aggregation packets ----

  function Aggregated(us: seq<seq<byte>>): seq<byte> {
    if us == [] then [] else Be16(|us[0]|) + us[0] + Aggregated(us[1..])
  }

  lemma ApUnit(pre: seq<byte>, size: seq<byte>, u: seq<byte>, tail: seq<byte>)
    requires |size| == 2
    ensures var body := pre + (size + u + tail);
            && U16At(body, |pre|) == U16At(size, 0) && body[|pre| + 2..|pre| + 2 + |u|] == u
            && body == pre + size + u + tail
  {
  }

  lemma {:induction false} ApExpands(pre: seq<byte>, us: seq<seq<byte>>)
    requires forall k :: 0 <= k < |us| ==> 0 < |us[k]| < 0x1_0000
    ensures ApToAnnexB(pre + Aggregated(us), |pre|) == Stream(us)
    decreases |us|
  {
    hide Be16, U16At, ApToAnnexB;
    var body := pre + Aggregated(us);
    if us == [] {
      NoUnitsLeft(body);
    } else {
      var u := us[0];
      ApUnit(pre, Be16(|u|), u, Aggregated(us[1..]));
      Be16RoundTrip(|u|);
      ApToAnnexBStep(body, |pre|, u);
      ApExpands(pre + Be16(|u|) + u, us[1..]);
    }
  }

  lemma NoUnitsLeft(body: seq<byte>)
    ensures ApToAnnexB(body, |body|) == []
  {
  }

  lemma ApToAnnexBStep(body: seq<byte>, at: nat, u: seq<byte>)
    requires u != [] && at + 2 + |u| <= |body| && U16At(body, at) == |u| && body[at + 2..at + 2 + |u|] == u
    ensures ApToAnnexB(body, at) == START_CODE_4 + u + ApToAnnexB(body, at + 2 + |u|)
  {
    hide U16At;
  }

  lemma ApContribution(h0: byte, h1: byte, body: seq<byte>)
    requires NalType(h0) == NAL_TYPE_AP && body != []
    ensures Contribution([h0, h1] + body) == ApToAnnexB(body, 0)
  {
    var p := [h0, h1] + body;
    assert p[0] == h0 != 0;
    assert p[2..] == body;
  }

  ghost predicate Sized(us: seq<seq<byte>>) {
    forall k :: 0 <= k < |us| ==> 0 < |us[k]| < 65536
  }

  /** No further unit can be taken: no size field, size 0, or a size beyond the end. */
  predicate NoUnitAhead(tail: seq<byte>) {
    |tail| < 2 || U16At(tail, 0) == 0 || |tail| < 2 + U16At(tail, 0)
  }

  /** Whatever an aggregation packet holds: it is a run of sized units, and behind it something that
      is too short, of size 0 or larger than what is left. The units come out, and nothing of the rest. */
  lemma {:induction false} ApSplits(body: seq<byte>, offset: nat) returns (us: seq<seq<byte>>, tail: seq<byte>)
    requires offset <= |body|
    ensures body[offset..] == Aggregated(us) + tail && Sized(us) && NoUnitAhead(tail)
    ensures ApToAnnexB(body, offset) == Stream(us)
    decreases |body| - offset
  {
    hide ApToAnnexB, Aggregated, Stream, U16At, Be16, Sized;
    us, tail := [], body[offset..];
    NothingAggregated(tail);
    if offset + 2 > |body| {
      ApEnd(body, offset);
    } else {
      ApStep(body, offset);
      SameSize(body, offset);
      var size: nat := U16At(body, offset);
      if size != 0 && offset + 2 + size <= |body| {
        var u := body[offset + 2..offset + 2 + size];
        var rest;
        rest, tail := ApSplits(body, offset + 2 + size);
        us := [u] + rest;
        SizedFront(body, offset);
        OneMore(u, rest, tail);
      }
    }
  }

  lemma NothingAggregated(tail: seq<byte>)
    ensures Aggregated([]) + tail == tail && Stream([]) == [] && Sized([])
  {
    assert [] + tail == tail;
  }

  lemma SameSize(body: seq<byte>, offset: nat)
    requires offset + 2 <= |body|
    ensures U16At(body[offset..], 0) == U16At(body, offset)
  {
  }

  lemma OneMore(u: seq<byte>, rest: seq<seq<byte>>, tail: seq<byte>)
    ensures Aggregated([u] + rest) + tail == Be16(|u|) + u + (Aggregated(rest) + tail)
    ensures Stream([u] + rest) == START_CODE_4 + u + Stream(rest)
    ensures 0 < |u| < 65536 && Sized(rest) ==> Sized([u] + rest)
  {
    hide Be16;
    assert ([u] + rest)[1..] == rest;
    assert Be16(|u|) + u + Aggregated(rest) + tail == Be16(|u|) + u + (Aggregated(rest) + tail);
  }

  lemma SizedFront(body: seq<byte>, offset: nat)
    requires offset + 2 <= |body| && offset + 2 + U16At(body, offset) <= |body|
    ensures var size := U16At(body, offset);
            body[offset..] == Be16(size) + body[offset + 2..offset + 2 + size] + body[offset + 2 + size..]
  {
    var size := U16At(body, offset);
    assert Be16(size) == body[offset..offset + 2];
    hide Be16, U16At;
  }

  /** What the codec makes of one incoming payload, by its first bytes: what is short or already
      Annex B is kept, type 49 is a fragment, type 48 an aggregation, everything else one unit. */
  lemma ContributionByType(p: seq<byte>)
    ensures |p| < 3 || StartsWithCode(p) ==> Contribution(p) == p
    ensures |p| >= 3 && !StartsWithCode(p) ==>
              && (p[0] / 2 % 64 == 49 && p[2] / 128 == 0 ==> Contribution(p) == p[3..])
              && (p[0] / 2 % 64 == 49 && p[2] / 128 == 1 ==>
                    exists b: byte ::
                      && b / 128 == p[0] / 128 && b % 2 == p[0] % 2 && b / 2 % 64 == p[2] % 64
                      && Contribution(p) == [0, 0, 0, 1, b, p[1]] + p[3..])
              && (p[0] / 2 % 64 == 48 ==> Contribution(p) == ApToAnnexB(p[2..], 0))
              && (p[0] / 2 % 64 != 48 && p[0] / 2 % 64 != 49 ==> Contribution(p) == [0, 0, 0, 1] + p)
  {
    if |p| >= 3 && !StartsWithCode(p) && NalType(p[0]) == 49 && p[2] / 128 == 1 {
      var b := WithType(p[0], FuType(p[2]));
      OuterBits(p[0], FuType(p[2]));
      assert [0, 0, 0, 1, b, p[1]] + p[3..] == START_CODE_4 + [b, p[1]] + p[3..];
    }
  }

  lemma OuterBits(b: byte, t: byte)
    requires t < 64
    ensures var w := WithType(b, t); w / 128 == b / 128 && w % 2 == b % 2 && w / 2 % 64 == t
  {
    var f, l := b / 128, b % 2;
    var w := WithType(b, t);
    assert w == 128 * f + 2 * t + l;
    assert w / 2 == 64 * f + t;
  }

  /** An aggregation packet expands to the same bytes as its units sent singly. */
  lemma AggregationEqualsSingles(h0: byte, h1: byte, us: seq<seq<byte>>)
    requires h0 / 2 % 64 == 48
    requires us != [] && WellFormed(us) && forall k :: 0 <= k < |us| ==> |us[k]| <= 1188
    ensures Contribution([h0, h1] + Aggregated(us)) == Stream(us) == Contributions(us)
  {
    ApContribution(h0, h1, Aggregated(us));
    assert Aggregated(us) == [] + Aggregated(us);
    ApExpands([], us);
    UnitsRoundTrip(us);
    SmallPayloads(us);
  }

  lemma {:induction false} SmallPayloads(us: seq<seq<byte>>)
    requires forall k :: 0 <= k < |us| ==> 2 <= |us[k]| <= MAX_PAYLOAD_SIZE
    ensures PayloadsOf(us) == us
  {
    if us != [] {
      SmallPayloads(us[1..]);
    }
  }

  // ---- Limits, fragments and counters ----

  /** `p` is fragment `k` of `u`: the unit's two header bytes with type 49, the unit's own type with the
      start flag on the first fragment and the end flag on the last, and 1185 bytes of the unit's
      body, or what is left of it. */
  predicate IsFragment(p: seq<byte>, u: seq<byte>, k: nat) {
    && 2 + 1185 * k < |u|
    && var left := |u| - 2 - 1185 * k;
       var n := if left < 1185 then left else 1185;
       && |p| == 3 + n && p[3..] == u[2 + 1185 * k..2 + 1185 * k + n]
       && p[0] / 2 % 64 == 49 && p[0] / 128 == u[0] / 128 && p[0] % 2 == u[0] % 2 && p[1] == u[1]
       && p[2] % 64 == u[0] / 2 % 64
       && (p[2] / 128 == 1 <==> k == 0)
       && (p[2] / 64 % 2 == 1 <==> left <= 1185)
  }

  lemma FuFlags(u: seq<byte>, from: nat, n: nat)
    requires 0 < n && 2 + from + n <= |u|
    ensures var flags := FuPayload(u, from, n)[2];
            && flags % 64 == NalType(u[0])
            && (flags / 128 == 1 <==> from == 0)
            && (flags / 64 % 2 == 1 <==> 2 + from + n == |u|)
  {
  }

  lemma OneFragment(u: seq<byte>, k: nat)
    requires 2 + 1185 * k < |u|
    ensures var n := ChunkSize(u, 1185 * k);
            && IsFragment(FuPayload(u, 1185 * k, n), u, k)
            && n == if |u| - 2 - 1185 * k < 1185 then |u| - 2 - 1185 * k else 1185
  {
    var n := ChunkSize(u, 1185 * k);
    var p, chunk := FuPayload(u, 1185 * k, n), u[2 + 1185 * k..2 + 1185 * k + n];
    OuterBits(u[0], 49);
    FuFlags(u, 1185 * k, n);
    ThreeThen(p[0], p[1], p[2], chunk);
    hide WithType, FuHeaderByte;
  }

  /** From fragment `k` on. */
  lemma {:induction false} FragmentsFrom(u: seq<byte>, k: nat)
    requires 2 + 1185 * k < |u|
    ensures var ps := FusFrom(u, 1185 * k);
            && |ps| == (|u| - 2 - 1185 * k + 1184) / 1185
            && forall i :: 0 <= i < |ps| ==> IsFragment(ps[i], u, k + i)
    decreases |u| - k
  {
    hide IsFragment, FuPayload;
    var n := ChunkSize(u, 1185 * k);
    OneFragment(u, k);
    hide ChunkSize;
    var rest := FusFrom(u, 1185 * k + n);
    var ps := FusFrom(u, 1185 * k);
    assert ps == [FuPayload(u, 1185 * k, n)] + rest;
    if 2 + 1185 * k + n < |u| {
      FragmentsFrom(u, k + 1);
      assert forall i :: 0 < i < |ps| ==> ps[i] == rest[i - 1];
    }
  }

  /** What a unit is sent as, over all sizes: not at all below two bytes, alone up to 1188, and else in
      fragments, one for every 1185 bytes behind its header and one for the rest. */
  lemma PayloadsBySize(u: seq<byte>)
    ensures |u| < 2 ==> Payloads(u) == []
    ensures 2 <= |u| <= 1188 ==> Payloads(u) == [u]
    ensures |u| > 1188 ==>
              && |Payloads(u)| == (|u| - 2 + 1184) / 1185
              && forall k :: 0 <= k < |Payloads(u)| ==> IsFragment(Payloads(u)[k], u, k)
  {
    hide IsFragment;
    if |u| > 1188 {
      FragmentsFrom(u, 0);
      assert FusFrom(u, 1185 * 0) == FusFrom(u, 0);
    }
  }

  /** Every fragment but the last fills the packet. */
  lemma FragmentSizes(u: seq<byte>)
    requires |u| > 1188
    ensures |Payloads(u)| >= 2
    ensures forall k :: 0 <= k < |Payloads(u)| - 1 ==> |Payloads(u)[k]| == 1188
    ensures 4 <= |Payloads(u)[|Payloads(u)| - 1]| <= 1188
  {
    hide Payloads;
    PayloadsBySize(u);
    var ps := Payloads(u);
    FragmentCount(|u| - 2, |ps|);
    forall k | 0 <= k < |ps|
      ensures k < |ps| - 1 ==> |ps[k]| == 1188
      ensures 4 <= |ps[k]| <= 1188
    {
      assert IsFragment(ps[k], u, k);
    }
  }

  lemma FragmentCount(n: nat, m: nat)
    requires n > 1185 && m == (n + 1184) / 1185
    ensures m >= 2 && 1185 * (m - 1) < n <= 1185 * m
  {
  }

  /** No payload exceeds the MTU, and a unit is fragmented exactly when it does not fit. */
  lemma PayloadLimits(u: seq<byte>)
    ensures forall k :: 0 <= k < |Payloads(u)| ==> 2 <= |Payloads(u)[k]| <= 1188
    ensures |Payloads(u)| >= 2 <==> |u| > 1188
  {
    hide FusFrom;
    if |u| > 1188 {
      FragmentSizes(u);
      forall k | 0 <= k < |Payloads(u)|
        ensures 2 <= |Payloads(u)[k]| <= 1188
      {
      }
    }
  }

  /** On every buffer, well-formed or not, no packet exceeds the MTU. */
  lemma {:induction false} PacketLimits(d: seq<byte>, ss: seq<Span>)
    requires InBuffer(d, ss)
    ensures forall k :: 0 <= k < |PiecesOf(d, ss)| ==> 2 <= |PiecesOf(d, ss)[k].payload| <= 1188
  {
    if ss != [] {
      PacketLimits(d, ss[1..]);
      PayloadLimits(UnitAt(d, ss[0]));
    }
  }

  /** Each packet carries its piece under the header of the frame's last packet, and its own number. */
  lemma HeadersKept(ps: seq<Piece>, header: Header, first: u16, k: nat)
    requires k < |ps|
    ensures var p := Numbered(ps, header, first)[k];
            && p.payload == ps[k].payload && p.header.marker == ps[k].marker
            && p.header.timestamp == header.timestamp && p.header.ssrc == header.ssrc
            && p.header.sequenceNumber == (first + k) % 65536
  {
    AdvanceIsModular(first, k);
  }

  /** Packet `k` carries the number `first + k` modulo 2^16. */
  ghost predicate Consecutive(packets: seq<Packet>, first: u16) {
    forall k :: 0 <= k < |packets| ==> packets[k].header.sequenceNumber == (first + k) % 0x1_0000
  }

  /** The packets of one more frame continue the count. */
  lemma NumberedAcrossFrames(sent: seq<Packet>, ps: seq<Piece>, header: Header, first: u16)
    requires Consecutive(sent, first)
    ensures Consecutive(sent + Numbered(ps, header, Advance(first, |sent|)), first)
  {
    var packets := sent + Numbered(ps, header, Advance(first, |sent|));
    forall k | |sent| <= k < |packets|
      ensures packets[k].header.sequenceNumber == (first + k) % 0x1_0000
    {
      AdvanceIsModular(first, k);
      AdvanceTwice(first, |sent|, k - |sent|);
    }
  }

  /** Over any sequence of packets given to the codec, whatever they hold, whichever end a frame and
      whatever each frame's IDR answer: everything it sends is numbered without a gap, modulo 2^16. */
  method RelayAll(codec: RePayloadCodec, packets: seq<Packet>, isIdr: seq<bool>) returns (out: seq<Packet>)
    requires |isIdr| == |packets|
    modifies codec, codec.processor
    ensures Consecutive(out, old(codec.sequenceNumber))
    ensures codec.sequenceNumber == Advance(old(codec.sequenceNumber), |out|)
  {
    hide Consecutive, Numbered, Injected, Contribution, PiecesFrom;
    ghost var first := codec.sequenceNumber;
    out := [];
    NoneYet(first);
    var i := 0;
    while i < |packets|
      invariant 0 <= i <= |packets| && Consecutive(out, first) && codec.sequenceNumber == Advance(first, |out|)
    {
      var more := codec.Payload(packets[i], isIdr[i]);
      if packets[i].header.marker {
        ghost var ps :| more == Numbered(ps, packets[i].header, Advance(first, |out|));
        NumberedAcrossFrames(out, ps, packets[i].header, first);
        AdvanceTwice(first, |out|, |more|);
      } else {
        assert out + more == out;
      }
      out := out + more;
      i := i + 1;
    }
  }

  lemma NoneYet(first: u16)
    ensures Consecutive([], first)
  {
  }

  lemma {:induction false} AdvanceTwice(first: u16, m: nat, n: nat)
    ensures Advance(Advance(first, m), n) == Advance(first, m + n)
  {
    if n > 0 {
      AdvanceTwice(first, m, n - 1);
    }
  }

  // ---- Through the object: a relay that receives a packetised frame ----

  ghost predicate OneFrame(packets: seq<Packet>) {
    packets != [] && forall k :: 0 <= k < |packets| ==> packets[k].header.marker == (k == |packets| - 1)
  }

  lemma {:induction false} FlattenContributions(ps: seq<seq<byte>>)
    ensures Flatten(seq(|ps|, k requires 0 <= k < |ps| => Contribution(ps[k]))) == Contributions(ps)
  {
    hide Contribution;
    if ps != [] {
      FlattenContributions(ps[1..]);
      var all := seq(|ps|, k requires 0 <= k < |ps| => Contribution(ps[k]));
      assert all[1..] == seq(|ps[1..]|, k requires 0 <= k < |ps[1..]| => Contribution(ps[1..][k]));
    }
  }

  ghost predicate CacheOk(c: Option<seq<byte>>) {
    c.Some? ==> Carried(c.value) && NoCode(c.value)
  }

  lemma WellFormedIsPlain(us: seq<seq<byte>>)
    requires WellFormed(us)
    ensures PlainUnits(us)
  {
    forall k | 0 <= k < |us|
      ensures us[k] != [] && NoCode(us[k])
    {
      assert Carried(us[k]);
    }
  }

  lemma CaptureOk(cache: Option<seq<byte>>, us: seq<seq<byte>>, t: byte)
    requires CacheOk(cache) && WellFormed(us)
    ensures CacheOk(OrElse(cache, FirstOfType(us, t)))
  {
    FirstOfTypeIsFirst(us, t);
  }

  /** The sets sent in front of the frame, if injection fires. */
  function SetsSent(before: bool, out: Injection, isIdr: bool): seq<seq<byte>> {
    if (isIdr || !before) && out.vps.Some? && out.sps.Some? && out.pps.Some?
    then [out.vps.value, out.sps.value, out.pps.value] else []
  }

  /** End to end: a relay that is sent a packetised well-formed frame sends on the payloads of the
      same units in the same order, behind the parameter sets when they are due, and nothing else. */
  lemma RelayForwardsFrame(us: seq<seq<byte>>, vps: Option<seq<byte>>, sps: Option<seq<byte>>, pps: Option<seq<byte>>,
                           injected: bool, isIdr: bool, header: Header, first: u16)
    requires WellFormed(us) && us != [] && CacheOk(vps) && CacheOk(sps) && CacheOk(pps)
    ensures var out := Injected(vps, sps, pps, injected, Stream(us), isIdr);
            var sets := SetsSent(injected, out, isIdr);
            && WellFormed(sets + us) && out.frame == Stream(sets + us)
            && PayloadsIn(Packetised(out.frame, header, first)) == PayloadsOf(sets + us)
  {
    hide Numbered, PiecesFrom, Payloads, FindUnit, SpansFrom, NoCode, Carried, FirstOfType, PayloadsIn, StartsWithCode;
    WellFormedIsPlain(us);
    var out := Injected(vps, sps, pps, injected, Stream(us), isIdr);
    var sets := SetsSent(injected, out, isIdr);
    ScanAnnexB([], us);
    assert [] + Stream(us) == Stream(us);
    assert Stream(us) != [];
    CaptureOk(vps, us, NAL_VPS);
    CaptureOk(sps, us, NAL_SPS);
    CaptureOk(pps, us, NAL_PPS);
    assert WellFormed(sets);
    if sets == [] {
      assert sets + us == us;
    } else {
      WellFormedIsPlain(sets + us);
      InjectedUnits(sets, us);
    }
    PacketiseReassemble(sets + us, header, first);
  }

  /** Feeds the packets of one frame, in order, to a codec with an empty buffer: it stays silent
      until the last packet, and then sends the frame with the parameter sets that are due. */
  method RelayFrame(codec: RePayloadCodec, packets: seq<Packet>, isIdr: bool) returns (out: seq<Packet>)
    requires codec.buffer == [] && OneFrame(packets)
    modifies codec, codec.processor
    ensures var frame := Contributions(PayloadsIn(packets));
            var injected := Injected(old(codec.processor.vps), old(codec.processor.sps), old(codec.processor.pps),
                                     old(codec.processor.paramsInjected), frame, isIdr);
            && codec.buffer == []
            && out == Packetised(injected.frame, packets[|packets| - 1].header, old(codec.sequenceNumber))
            && codec.sequenceNumber == Advance(old(codec.sequenceNumber), |out|)
  {
    out := [];
    var i := 0;
    ghost var ps := PayloadsIn(packets);
    while i < |packets|
      invariant 0 <= i <= |packets|
      invariant i < |packets| ==>
                  && out == [] && codec.sequenceNumber == old(codec.sequenceNumber)
                  && unchanged(codec.processor)
                  && codec.buffer == seq(i, k requires 0 <= k < i => Contribution(ps[k]))
      invariant i == |packets| ==>
                  var frame := Contributions(ps);
                  var injected := Injected(old(codec.processor.vps), old(codec.processor.sps), old(codec.processor.pps),
                                           old(codec.processor.paramsInjected), frame, isIdr);
                  && codec.buffer == []
                  && out == Packetised(injected.frame, packets[|packets| - 1].header, old(codec.sequenceNumber))
                  && codec.sequenceNumber == Advance(old(codec.sequenceNumber), |out|)
    {
      ghost var before := codec.buffer;
      out := codec.Payload(packets[i], isIdr);
      assert before + [Contribution(ps[i])] == seq(i + 1, k requires 0 <= k < i + 1 => Contribution(ps[k]));
      if i == |packets| - 1 {
        FlattenContributions(ps);
      }
      i := i + 1;
    }
  }
}
