/** H.265 re-payloading: an Annex-B frame is cut into RTP payloads (single NAL unit packets and
    fragmentation units, sections 4.4.1 and 4.4.3 of RFC 7798), and RTP payloads (those two and
    aggregation packets, section 4.4.2) are put back together as Annex B. */
module RePayload {
  import opened Octets
  import opened AnnexB
  import opened H265Params

  const MAX_PAYLOAD_SIZE: nat := 1200 - 12
  const FU_CHUNK: nat := MAX_PAYLOAD_SIZE - 3
  const NAL_TYPE_AP := 48
  const NAL_TYPE_FU := 49

  /** The fields of an RTP header that matter here; the others are copied from the frame's last packet. */
  datatype Header = Header(sequenceNumber: u16, marker: bool, timestamp: u32, ssrc: u32)
  datatype Packet = Packet(header: Header, payload: seq<byte>)

  // ---- From a unit to payloads ----

  /** `(b & 0x81) | (t << 1)` */
  function WithType(b: byte, t: byte): byte
    requires t < 64
  {
    b / 128 * 128 + b % 2 + t * 2
  }

  lemma WithTypeIsMaskAndShift(b: bv8, t: bv8)
    requires t < 64
    ensures ((b & 0x81) | (t << 1)) as int == WithType(b as int, t as int)
  {
    OuterBitsWithType(b, t);
  }

  /** `t | 0x80 | 0x40`, each flag if it applies */
  function FuHeaderByte(t: byte, start: bool, end: bool): byte
    requires t < 64
  {
    t + (if start then 128 else 0) + (if end then 64 else 0)
  }

  lemma FuHeaderByteIsOr(t: bv8, start: bool, end: bool)
    requires t < 64
    ensures ((t | (if start then 0x80 else 0)) | (if end then 0x40 else 0)) as int == FuHeaderByte(t as int, start, end)
  {
  }

  /** `h & 0x80 != 0` and `h & 0x3F` */
  predicate StartBit(h: byte) {
    h / 128 != 0
  }

  function FuType(h: byte): byte {
    h % 64
  }

  lemma FuFieldsAreMasks(h: bv8)
    ensures (h & 0x80 != 0) == StartBit(h as int)
    ensures (h & 0x3F) as int == FuType(h as int)
  {
  }

  /** The fragment of `unit` carrying `n` bytes of its body (the unit without its two-byte header)
      from `from` on: the S bit on the first, the E bit on the last. */
  function FuPayload(unit: seq<byte>, from: nat, n: nat): seq<byte>
    requires 2 + from + n <= |unit|
  {
    [WithType(unit[0], NAL_TYPE_FU), unit[1],
     FuHeaderByte(NalType(unit[0]), from == 0, 2 + from + n == |unit|)]
    + unit[2 + from..2 + from + n]
  }

  lemma FuPacketIs(unit: seq<byte>, from: nat, n: nat)
    requires 2 + from + n <= |unit|
    ensures [WithType(unit[0], NAL_TYPE_FU), unit[1],
             NalType(unit[0]) + (if from == 0 then 128 else 0) + (if from + n >= |unit| - 2 then 64 else 0)]
            + unit[2..][from..from + n] == FuPayload(unit, from, n)
  {
    hide NalType, WithType;
    assert unit[2..][from..from + n] == unit[2 + from..2 + from + n];
    assert from + n >= |unit| - 2 <==> 2 + from + n == |unit|;
  }

  function ChunkSize(unit: seq<byte>, from: nat): (n: nat)
    requires 2 + from <= |unit|
    ensures 2 + from + n <= |unit|
  {
    if |unit| - 2 - from < FU_CHUNK then |unit| - 2 - from else FU_CHUNK
  }

  function FusFrom(unit: seq<byte>, from: nat): seq<seq<byte>>
    requires 2 + from <= |unit|
    decreases |unit| - from
  {
    if 2 + from == |unit| then []
    else [FuPayload(unit, from, ChunkSize(unit, from))] + FusFrom(unit, from + ChunkSize(unit, from))
  }

  function Payloads(unit: seq<byte>): seq<seq<byte>> {
    if |unit| < 2 then []
    else if |unit| <= MAX_PAYLOAD_SIZE then [unit]
    else FusFrom(unit, 0)
  }

  /** A payload and its marker bit. */
  datatype Piece = Piece(payload: seq<byte>, marker: bool)

  /** Only the last payload of a unit that ends the buffer is marked. */
  function Marked(payloads: seq<seq<byte>>, last: bool): (ps: seq<Piece>)
    ensures |ps| == |payloads|
  {
    seq(|payloads|, k requires 0 <= k < |payloads| => Piece(payloads[k], last && k == |payloads| - 1))
  }

  function PiecesOf(d: seq<byte>, ss: seq<Span>): seq<Piece>
    requires InBuffer(d, ss)
  {
    if ss == [] then []
    else Marked(Payloads(UnitAt(d, ss[0])), ss[0].end == |d|) + PiecesOf(d, ss[1..])
  }

  /** The counter after `n` packets. */
  function Advance(first: u16, n: nat): u16 {
    if n == 0 then first else WrappingNext(Advance(first, n - 1))
  }

  lemma NextIsModular(x: nat)
    ensures WrappingNext(x % 0x1_0000) == (x + 1) % 0x1_0000
  {
    var q, r := x / 0x1_0000, x % 0x1_0000;
    assert x + 1 == q * 0x1_0000 + (r + 1);
  }

  lemma {:induction false} AdvanceIsModular(first: u16, n: nat)
    ensures Advance(first, n) == (first + n) % 0x1_0000
  {
    hide WrappingNext;
    if n > 0 {
      AdvanceIsModular(first, n - 1);
      NextIsModular(first + n - 1);
    }
  }

  /** Consecutive sequence numbers modulo 2^16 from `first` on. */
  function Numbered(ps: seq<Piece>, header: Header, first: u16): (packets: seq<Packet>)
    ensures |packets| == |ps|
  {
    seq(|ps|, k requires 0 <= k < |ps| =>
      Packet(header.(sequenceNumber := Advance(first, k), marker := ps[k].marker), ps[k].payload))
  }

  lemma NumberedSnoc(ps: seq<Piece>, p: Piece, header: Header, first: u16)
    ensures Numbered(ps + [p], header, first) == Numbered(ps, header, first)
         + [Packet(header.(sequenceNumber := Advance(first, |ps|), marker := p.marker), p.payload)]
  {
  }

  /** The pieces of everything from `offset` on. */
  function PiecesFrom(d: seq<byte>, offset: nat): seq<Piece> {
    PiecesOf(d, SpansFrom(d, offset))
  }

  function PiecesOfUnit(d: seq<byte>, s: Span): seq<Piece>
    requires s.start <= s.end <= |d|
  {
    Marked(Payloads(UnitAt(d, s)), s.end == |d|)
  }

  lemma EmptyUnit(d: seq<byte>, s: Span)
    requires s.start == s.end == |d|
    ensures PiecesOfUnit(d, s) == []
  {
  }

  lemma NoUnitsBehind(d: seq<byte>, offset: nat)
    requires FindUnit(d, offset).Some? && FindUnit(d, offset).value.start >= |d|
    ensures SpansFrom(d, offset) == [] == SpansFrom(d, |d|)
  {
  }

  lemma PiecesFromStep(d: seq<byte>, offset: nat, done: seq<Piece>)
    requires FindUnit(d, offset).Some?
    ensures var s := FindUnit(d, offset).value;
            done + PiecesFrom(d, offset) == (done + PiecesOfUnit(d, s)) + PiecesFrom(d, s.end)
  {
    hide FindUnit, Payloads;
    var s := FindUnit(d, offset).value;
    if s.start < |d| {
      var rest := SpansFrom(d, s.end);
      assert SpansFrom(d, offset) == [s] + rest;
      assert ([s] + rest)[1..] == rest;
      assert done + (PiecesOfUnit(d, s) + PiecesOf(d, rest)) == (done + PiecesOfUnit(d, s)) + PiecesOf(d, rest);
    } else {
      EmptyUnit(d, s);
      assert SpansFrom(d, offset) == [] == SpansFrom(d, |d|) by {
        NoUnitsBehind(d, offset);
      }
      assert done + [] == done;
    }
  }

  lemma FragmentStep(unit: seq<byte>, from: nat, payloads: seq<seq<byte>>, n: nat, last: bool,
                     done: seq<Piece>, header: Header, first: u16)
    requires 2 + from < |unit| && n <= |payloads| && payloads[n..] == FusFrom(unit, from)
    ensures n < |payloads|
    ensures var chunk := ChunkSize(unit, from);
            var marker := 2 + from + chunk == |unit| && last;
            var before := Numbered(done + Marked(payloads, last)[..n], header, first);
            && payloads[n + 1..] == FusFrom(unit, from + chunk)
            && Numbered(done + Marked(payloads, last)[..n + 1], header, first)
               == before + [Packet(header.(sequenceNumber := Advance(first, |before|), marker := marker),
                                   FuPayload(unit, from, chunk))]
  {
    var chunk := ChunkSize(unit, from);
    var m := Marked(payloads, last);
    assert payloads[n..] == [FuPayload(unit, from, chunk)] + FusFrom(unit, from + chunk);
    assert payloads[n] == payloads[n..][0];
    assert payloads[n + 1..] == payloads[n..][1..];
    assert m[..n + 1] == m[..n] + [m[n]];
    assert |payloads| - (n + 1) == |FusFrom(unit, from + chunk)|;
    assert done + m[..n + 1] == (done + m[..n]) + [m[n]];
    NumberedSnoc(done + m[..n], m[n], header, first);
  }

  lemma NoPiecesLeft(d: seq<byte>, offset: nat, done: seq<Piece>)
    requires offset + 4 > |d|
    ensures done + PiecesFrom(d, offset) == done
  {
    assert PiecesFrom(d, offset) == [];
  }

  lemma SkipByte(d: seq<byte>, offset: nat)
    requires !Code4At(d, offset) && !Code3At(d, offset)
    ensures PiecesFrom(d, offset + 1) == PiecesFrom(d, offset)
  {
  }

  // ---- From payloads to Annex B ----

  /** The units of an aggregation packet's body, up to the first size that does not fit. */
  function ApToAnnexB(body: seq<byte>, offset: nat): seq<byte>
    decreases |body| - offset
  {
    if offset + 2 > |body| then []
    else
      var size := U16At(body, offset);
      if size == 0 || offset + 2 + size > |body| then []
      else START_CODE_4 + body[offset + 2..offset + 2 + size] + ApToAnnexB(body, offset + 2 + size)
  }

  lemma ApStep(body: seq<byte>, offset: nat)
    requires offset + 2 <= |body|
    ensures var size := U16At(body, offset);
            ApToAnnexB(body, offset) == if size == 0 || offset + 2 + size > |body| then []
                                        else START_CODE_4 + body[offset + 2..offset + 2 + size] + ApToAnnexB(body, offset + 2 + size)
  {
  }

  lemma Leftwards(a: seq<byte>, b: seq<byte>, c: seq<byte>, d: seq<byte>)
    ensures a + (b + c + d) == a + b + c + d
  {
  }

  lemma ApEnd(body: seq<byte>, offset: nat)
    requires offset + 2 > |body|
    ensures ApToAnnexB(body, offset) == []
  {
  }

  function ToAnnexB(data: seq<byte>): seq<byte> {
    if data == [] then []
    else if NalType(data[0]) == NAL_TYPE_AP && |data| > 2 then ApToAnnexB(data[2..], 0)
    else START_CODE_4 + data
  }

  /** What one depacketised payload adds to the frame buffer. */
  function Contribution(data: seq<byte>): seq<byte> {
    if |data| < 3 || StartsWithCode(data) then data
    else if NalType(data[0]) == NAL_TYPE_FU then
      if StartBit(data[2]) then START_CODE_4 + [WithType(data[0], FuType(data[2])), data[1]] + data[3..]
      else data[3..]
    else ToAnnexB(data)
  }

  function Contributions(payloads: seq<seq<byte>>): seq<byte> {
    if payloads == [] then [] else Contribution(payloads[0]) + Contributions(payloads[1..])
  }

  lemma {:induction false} ContributionsConcat(a: seq<seq<byte>>, b: seq<seq<byte>>)
    ensures Contributions(a + b) == Contributions(a) + Contributions(b)
  {
    if a == [] {
      assert a + b == b;
    } else {
      assert (a + b)[1..] == a[1..] + b;
      ContributionsConcat(a[1..], b);
    }
  }

  // ---- What the frame's end does to the parameter caches and to the frame ----

  /** The caches and the injected flag afterwards, and the frame that is sent. */
  datatype Injection = Injection(vps: Option<seq<byte>>, sps: Option<seq<byte>>, pps: Option<seq<byte>>,
                                 injected: bool, frame: seq<byte>)

  function Injected(vps: Option<seq<byte>>, sps: Option<seq<byte>>, pps: Option<seq<byte>>, injected: bool,
                    frame: seq<byte>, isIdr: bool): Injection
  {
    if frame == [] then Injection(vps, sps, pps, injected, frame)
    else
      var complete := vps.Some? && sps.Some? && pps.Some?;
      var us := UnitsFrom(frame, 0);
      var v := if complete then vps else OrElse(vps, FirstOfType(us, NAL_VPS));
      var s := if complete then sps else OrElse(sps, FirstOfType(us, NAL_SPS));
      var p := if complete then pps else OrElse(pps, FirstOfType(us, NAL_PPS));
      if (isIdr || !injected) && v.Some? && s.Some? && p.Some?
      then Injection(v, s, p, true, Prefixed([v.value, s.value, p.value], frame))
      else Injection(v, s, p, injected, frame)
  }

  /** The first unit of this type, if there is one. */
  ghost predicate IsFirstOf(us: seq<seq<byte>>, t: int, found: Option<seq<byte>>) {
    match found
    case None => forall k :: 0 <= k < |us| && us[k] != [] ==> us[k][0] / 2 % 64 != t
    case Some(u) => u != [] && u[0] / 2 % 64 == t
                    && exists k :: 0 <= k < |us| && us[k] == u
                                   && forall j :: 0 <= j < k && us[j] != [] ==> us[j][0] / 2 % 64 != t
  }

  lemma Captures(cache: Option<seq<byte>>, us: seq<seq<byte>>, t: byte)
    requires forall k :: 0 <= k < |us| ==> us[k] != []
    ensures cache.Some? ==> OrElse(cache, FirstOfType(us, t)) == cache
    ensures cache == None ==> IsFirstOf(us, t, OrElse(cache, FirstOfType(us, t)))
  {
    FirstOfTypeIsFirst(us, t);
  }

  /** What the end of a frame does to the caches: a filled one stays, an empty one takes the frame's
      first unit of type 32 (VPS), 33 (SPS) or 34 (PPS). */
  lemma InjectionCaptures(vps: Option<seq<byte>>, sps: Option<seq<byte>>, pps: Option<seq<byte>>, injected: bool,
                          frame: seq<byte>, isIdr: bool)
    ensures var out, us := Injected(vps, sps, pps, injected, frame, isIdr), UnitsFrom(frame, 0);
            && (frame == [] ==> out == Injection(vps, sps, pps, injected, []))
            && (vps.Some? ==> out.vps == vps) && (sps.Some? ==> out.sps == sps) && (pps.Some? ==> out.pps == pps)
            && (frame != [] ==>
                  && (vps == None ==> IsFirstOf(us, 32, out.vps)) && (sps == None ==> IsFirstOf(us, 33, out.sps))
                  && (pps == None ==> IsFirstOf(us, 34, out.pps)))
  {
    var us := UnitsFrom(frame, 0);
    UnitsAreNotEmpty(frame, 0);
    hide UnitsFrom, IsFirstOf, FirstOfType, OrElse, Prefixed;
    Captures(vps, us, 32);
    Captures(sps, us, 33);
    Captures(pps, us, 34);
  }

  /** And to the frame: the sets go in front, each behind its start code, if all three are known then
      and it is an IDR frame or nothing was injected yet; otherwise it is sent as it is. */
  lemma InjectionFires(vps: Option<seq<byte>>, sps: Option<seq<byte>>, pps: Option<seq<byte>>, injected: bool,
                       frame: seq<byte>, isIdr: bool)
    ensures var out := Injected(vps, sps, pps, injected, frame, isIdr);
            if frame != [] && (isIdr || !injected) && out.vps.Some? && out.sps.Some? && out.pps.Some?
            then out.injected && out.frame == SetsBefore(out.vps.value, out.sps.value, out.pps.value, frame)
            else out.frame == frame && out.injected == injected
  {
    hide UnitsFrom, FirstOfType, Prefixed, SetsBefore;
    var out := Injected(vps, sps, pps, injected, frame, isIdr);
    if frame != [] && out.vps.Some? && out.sps.Some? && out.pps.Some? {
      ThreeSets(out.vps.value, out.sps.value, out.pps.value, frame);
    }
  }

  /** The frame behind three sets; a frame without a leading start code gets one. */
  ghost function SetsBefore(v: seq<byte>, s: seq<byte>, p: seq<byte>, frame: seq<byte>): seq<byte> {
    ([0, 0, 0, 1] + v) + ([0, 0, 0, 1] + s) + ([0, 0, 0, 1] + p)
    + if [0, 0, 1] <= frame || [0, 0, 0, 1] <= frame then frame else [0, 0, 0, 1] + frame
  }

  lemma ThreeSets(v: seq<byte>, s: seq<byte>, p: seq<byte>, frame: seq<byte>)
    requires frame != []
    ensures Prefixed([v, s, p], frame) == SetsBefore(v, s, p, frame)
  {
    assert [v, s, p][1..] == [s, p] && [s, p][1..] == [p];
    var a, b, c: seq<byte> := [0, 0, 0, 1] + v, [0, 0, 0, 1] + s, [0, 0, 0, 1] + p;
    assert Stream([p]) == c;
    assert Stream([v, s, p]) == a + (b + c) == a + b + c;
    assert StartsWithCode(frame) <==> [0, 0, 1] <= frame || [0, 0, 0, 1] <= frame;
  }

  // ---- The codec object ----

  class RePayloadCodec {
    var buffer: seq<seq<byte>>
    var sequenceNumber: u16
    const processor: H265Processor

    constructor ()
      ensures buffer == [] && sequenceNumber == 0 && fresh(processor)
      ensures processor.vps == None && processor.sps == None && processor.pps == None && !processor.paramsInjected
    {
      buffer := [];
      sequenceNumber := 0;
      processor := new H265Processor();
    }

    method ConvertApToAnnexB(data: seq<byte>) returns (result: seq<byte>)
      ensures result == ApToAnnexB(data, 0)
    {
      hide ApToAnnexB, U16At;
      result := [];
      var offset: nat := 0;
      assert [] + ApToAnnexB(data, 0) == ApToAnnexB(data, 0);
      while offset + 2 <= |data|
        invariant offset <= |data|
        invariant result + ApToAnnexB(data, offset) == ApToAnnexB(data, 0)
        decreases |data| - offset
      {
        ApStep(data, offset);
        ghost var before := result;
        var nalSize: nat := U16At(data, offset);
        offset := offset + 2;
        if nalSize == 0 || offset + nalSize > |data| {
          assert result + [] == result;
          return;
        }
        ghost var unit, rest := data[offset..offset + nalSize], ApToAnnexB(data, offset + nalSize);
        Leftwards(before, START_CODE_4, unit, rest);
        result := result + START_CODE_4;
        result := result + data[offset..offset + nalSize];
        offset := offset + nalSize;
      }
      ApEnd(data, offset);
      assert result + [] == result;
    }

    method ConvertToAnnexB(data: seq<byte>) returns (result: seq<byte>)
      ensures result == ToAnnexB(data)
      ensures |data| <= 2 ==> result == if data == [] then [] else [0, 0, 0, 1] + data
    {
      if data == [] {
        return [];
      }
      var nalType := NalType(data[0]);
      if nalType <= 31 {
        return START_CODE_4 + data;
      }
      if nalType == NAL_TYPE_AP && |data| > 2 {
        result := ConvertApToAnnexB(data[2..]);
        return;
      }
      return START_CODE_4 + data;
    }

    /** Cuts an Annex-B buffer into numbered packets. */
    method PayloadManually(data: seq<byte>, originalHeader: Header) returns (packets: seq<Packet>)
      modifies this`sequenceNumber
      ensures packets == Numbered(PiecesFrom(data, 0), originalHeader, old(sequenceNumber))
      ensures sequenceNumber == Advance(old(sequenceNumber), |packets|)
    {
      packets := [];
      var offset: nat := 0;
      ghost var first := sequenceNumber;
      ghost var done: seq<Piece> := [];
      while offset < |data|
        invariant done + PiecesFrom(data, offset) == PiecesFrom(data, 0)
        invariant packets == Numbered(done, originalHeader, first)
        invariant sequenceNumber == Advance(first, |packets|)
        decreases |data| - offset
      {
        if offset + 4 > |data| {
          break;
        }
        var codeLength := if Code4At(data, offset) then 4 else if Code3At(data, offset) then 3 else 0;
        if codeLength == 0 {
          SkipByte(data, offset);
          offset := offset + 1;
          continue;
        }
        packets, offset, done := PayloadUnit(data, offset, codeLength, packets, originalHeader, done, first);
      }
      NoPiecesLeft(data, offset, done);
    }

    /** The unit behind the start code at `offset`: where it ends, and its packets if it has at least
        two bytes. */
    method PayloadUnit(data: seq<byte>, offset: nat, codeLength: nat, before: seq<Packet>, originalHeader: Header,
                       ghost done: seq<Piece>, ghost first: u16)
      returns (packets: seq<Packet>, nalEnd: nat, ghost done': seq<Piece>)
      requires offset + 4 <= |data|
      requires CodeAt(data, offset) && codeLength == if Code4At(data, offset) then 4 else 3
      requires before == Numbered(done, originalHeader, first) && sequenceNumber == Advance(first, |before|)
      modifies this`sequenceNumber
      ensures packets == Numbered(done', originalHeader, first) && sequenceNumber == Advance(first, |packets|)
      ensures done' + PiecesFrom(data, nalEnd) == done + PiecesFrom(data, offset)
      ensures offset < nalEnd <= |data|
    {
      hide PiecesFrom, Numbered, Advance, UnitEnd, FusFrom;
      packets := before;
      var nalStart: nat := offset + codeLength;
      nalEnd := FindNalEnd(data, nalStart);
      var nalUnit := data[nalStart..nalEnd];
      done' := done + PiecesOfUnit(data, Span(nalStart, nalEnd));
      PiecesFromStep(data, offset, done);
      if |nalUnit| >= 2 {
        packets := EmitUnit(packets, nalUnit, nalEnd >= |data|, originalHeader, done, first);
      } else {
        assert done' == done;
      }
    }

    /** Looks for the next start code behind the unit's first byte. */
    method FindNalEnd(data: seq<byte>, nalStart: nat) returns (nalEnd: nat)
      requires 4 <= |data|
      ensures nalEnd == UnitEnd(data, nalStart + 1)
    {
      nalEnd := nalStart + 1;
      while nalEnd + 3 < |data|
        invariant UnitEnd(data, nalEnd) == UnitEnd(data, nalStart + 1)
      {
        if Code4At(data, nalEnd) || Code3At(data, nalEnd) {
          break;
        }
        nalEnd := nalEnd + 1;
      }
      if nalEnd >= |data| - 3 {
        nalEnd := |data|;
      }
    }

    /** Appends one packet under the next sequence number. */
    method Emit(packets: seq<Packet>, payload: seq<byte>, marker: bool, originalHeader: Header) returns (r: seq<Packet>)
      modifies this`sequenceNumber
      ensures r == packets + [Packet(originalHeader.(sequenceNumber := old(sequenceNumber), marker := marker), payload)]
      ensures sequenceNumber == WrappingNext(old(sequenceNumber))
    {
      var header := originalHeader.(sequenceNumber := sequenceNumber);
      header := header.(marker := marker);
      sequenceNumber := WrappingNext(sequenceNumber);
      r := packets + [Packet(header, payload)];
    }

    /** The packets of one unit: itself if it fits, else its fragments. */
    method EmitUnit(before: seq<Packet>, nalUnit: seq<byte>, endsBuffer: bool, originalHeader: Header,
                    ghost done: seq<Piece>, ghost first: u16) returns (packets: seq<Packet>)
      requires |nalUnit| >= 2
      requires before == Numbered(done, originalHeader, first)
      requires sequenceNumber == Advance(first, |before|)
      modifies this`sequenceNumber
      ensures packets == Numbered(done + Marked(Payloads(nalUnit), endsBuffer), originalHeader, first)
      ensures sequenceNumber == Advance(first, |packets|)
    {
      if |nalUnit| <= MAX_PAYLOAD_SIZE {
        packets := Emit(before, nalUnit, endsBuffer, originalHeader);
        NumberedSnoc(done, Piece(nalUnit, endsBuffer), originalHeader, first);
        assert Marked(Payloads(nalUnit), endsBuffer) == [Piece(nalUnit, endsBuffer)];
      } else {
        packets := EmitFragments(before, nalUnit, endsBuffer, originalHeader, done, first);
      }
    }

    /** The fragments of a unit too large for one packet. */
    method EmitFragments(before: seq<Packet>, nalUnit: seq<byte>, endsBuffer: bool, originalHeader: Header,
                         ghost done: seq<Piece>, ghost first: u16) returns (packets: seq<Packet>)
      requires |nalUnit| > MAX_PAYLOAD_SIZE
      requires before == Numbered(done, originalHeader, first)
      requires sequenceNumber == Advance(first, |before|)
      modifies this`sequenceNumber
      ensures packets == Numbered(done + Marked(Payloads(nalUnit), endsBuffer), originalHeader, first)
      ensures sequenceNumber == Advance(first, |packets|)
    {
      hide Numbered, NalType, WithType, FuPayload;
      packets := before;
      var nalType := NalType(nalUnit[0]);
      var fuData := nalUnit[2..];
      var fuOffset: nat := 0;
      var isFirst := true;
      ghost var n := 0;
      ghost var payloads := Payloads(nalUnit);
      assert done + Marked(payloads, endsBuffer)[..0] == done;
      while fuOffset < |fuData|
        invariant fuOffset <= |fuData| && isFirst == (fuOffset == 0)
        invariant n <= |payloads| && payloads[n..] == FusFrom(nalUnit, fuOffset)
        invariant packets == Numbered(done + Marked(payloads, endsBuffer)[..n], originalHeader, first)
        invariant sequenceNumber == Advance(first, |packets|)
        decreases |fuData| - fuOffset
      {
        var chunkSize := ChunkSize(nalUnit, fuOffset);
        var isLast := fuOffset + chunkSize >= |fuData|;
        var fuHeader := nalType as int + (if isFirst then 128 else 0) + (if isLast then 64 else 0);
        var fuPacket := [WithType(nalUnit[0], NAL_TYPE_FU), nalUnit[1], fuHeader] + fuData[fuOffset..fuOffset + chunkSize];
        FuPacketIs(nalUnit, fuOffset, chunkSize);
        packets := Emit(packets, fuPacket, isLast && endsBuffer, originalHeader);
        FragmentStep(nalUnit, fuOffset, payloads, n, endsBuffer, done, originalHeader, first);
        n := n + 1;
        fuOffset := fuOffset + chunkSize;
        isFirst := false;
      }
      assert Marked(payloads, endsBuffer)[..n] == Marked(payloads, endsBuffer);
    }

    /** The buffering half of `payload`: what a packet adds to the frame buffer. */
    method BufferPayload(data: seq<byte>)
      modifies this`buffer
      ensures buffer == old(buffer) + [Contribution(data)]
    {
      if |data| >= 3 {
        if !StartsWithCode(data) {
          if NalType(data[0]) == NAL_TYPE_FU {
            var fuHeader := data[2];
            var startBit := fuHeader / 128 != 0;
            var fuType := fuHeader % 64;
            if startBit {
              var result: seq<byte> := START_CODE_4;
              result := result + [WithType(data[0], fuType)];
              result := result + [data[1]];
              result := result + data[3..];
              assert result == Contribution(data);
              buffer := buffer + [result];
            } else {
              buffer := buffer + [data[3..]];
            }
          } else {
            var converted := ConvertToAnnexB(data);
            buffer := buffer + [converted];
          }
        } else {
          buffer := buffer + [data];
        }
      } else {
        buffer := buffer + [data];
      }
    }

    /** One incoming packet. A marker closes the frame. */
    method Payload(packet: Packet, isIdr: bool) returns (packets: seq<Packet>)
      modifies this, processor
      ensures !packet.header.marker ==>
                && packets == [] && sequenceNumber == old(sequenceNumber)
                && buffer == old(buffer) + [Contribution(packet.payload)]
                && unchanged(processor)
      ensures packet.header.marker ==>
                var frame := Flatten(old(buffer) + [Contribution(packet.payload)]);
                && buffer == []
                && var out := Injected(old(processor.vps), old(processor.sps), old(processor.pps),
                                       old(processor.paramsInjected), frame, isIdr);
                && out == Injection(processor.vps, processor.sps, processor.pps, processor.paramsInjected, out.frame)
                && packets == Numbered(PiecesFrom(out.frame, 0), packet.header, old(sequenceNumber))
                && sequenceNumber == Advance(old(sequenceNumber), |packets|)
    {
      BufferPayload(packet.payload);
      if !packet.header.marker {
        return [];
      }
      packets := SendFrame(packet.header, isIdr);
    }

    /** Joins the buffered pieces, and packetises the frame with the sets that are due. */
    method SendFrame(header: Header, isIdr: bool) returns (packets: seq<Packet>)
      modifies this, processor
      ensures var out := Injected(old(processor.vps), old(processor.sps), old(processor.pps),
                                  old(processor.paramsInjected), Flatten(old(buffer)), isIdr);
              && out == Injection(processor.vps, processor.sps, processor.pps, processor.paramsInjected, out.frame)
              && packets == Numbered(PiecesFrom(out.frame, 0), header, old(sequenceNumber))
              && sequenceNumber == Advance(old(sequenceNumber), |packets|)
              && buffer == []
    {
      var combined := Flatten(buffer);
      if combined == [] {
        buffer := [];
        return [];
      }
      var final := WithParams(combined, isIdr);
      packets := PayloadManually(final, header);
      buffer := [];
    }

    /** Captures parameter sets while some are missing, then injects them. */
    method WithParams(combined: seq<byte>, isIdr: bool) returns (final: seq<byte>)
      requires combined != []
      modifies processor
      ensures Injected(old(processor.vps), old(processor.sps), old(processor.pps), old(processor.paramsInjected), combined, isIdr)
           == Injection(processor.vps, processor.sps, processor.pps, processor.paramsInjected, final)
    {
      if !processor.HasParams() {
        processor.ExtractParams(combined);
      }
      var withParams := processor.InjectParams(combined, isIdr);
      final := if |withParams| > |combined| then withParams else combined;
    }
  }
}
