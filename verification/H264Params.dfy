/** Capture and injection of the H.264 parameter sets (SPS, PPS). */
module H264Params {
  import opened Octets
  import opened AnnexB

  const NAL_SLICE_IDR := 5
  const NAL_SPS := 7
  const NAL_PPS := 8
  const WINDOW: nat := 1024

  /** `b & 0x1F` */
  function NalType(b: byte): byte {
    b % 32
  }

  lemma NalTypeIsMask(b: bv8)
    ensures (b & 0x1F) as int == NalType(b as int)
  {
  }

  /** Where the unit behind the start code at `i` begins. */
  function UnitStart(d: seq<byte>, i: nat): nat {
    if Code4At(d, i) then i + 4 else i + 3
  }

  /** A start code at `i`, more than four bytes before `limit`, with a unit of type `t` behind it. */
  predicate TypeAt(d: seq<byte>, limit: nat, i: nat, t: byte)
    requires limit <= |d|
  {
    i + 4 < limit && CodeAt(d, i) && NalType(d[UnitStart(d, i)]) == t
  }

  ghost predicate HasType(d: seq<byte>, limit: nat, t: byte)
    requires limit <= |d|
  {
    exists i: nat :: TypeAt(d, limit, i, t)
  }

  /** The part of the frame searched for parameter sets. */
  function Window(d: seq<byte>): (n: nat)
    ensures n <= |d|
  {
    if |d| < WINDOW then |d| else WINDOW
  }

  ghost predicate IsIdr(d: seq<byte>) {
    HasType(d, |d|, NAL_SLICE_IDR)
  }

  ghost predicate HasParamsInData(d: seq<byte>) {
    HasType(d, Window(d), NAL_SPS) && HasType(d, Window(d), NAL_PPS)
  }

  /** What `inject_params` returns. */
  ghost function Injected(sps: Option<seq<byte>>, pps: Option<seq<byte>>, d: seq<byte>): seq<byte> {
    if IsIdr(d) && !HasParamsInData(d) && sps.Some? && pps.Some?
    then Stream([sps.value, pps.value]) + d
    else d
  }

  /** Within the first `limit` bytes, a start code stands at `i` and a unit of type `t` begins behind it. */
  ghost predicate Begins(d: seq<byte>, limit: int, i: nat, t: int)
    requires limit <= |d|
  {
    && i + 4 < limit
    && ((d[i..i + 4] == [0, 0, 0, 1] && d[i + 4] % 32 == t) || (d[i..i + 3] == [0, 0, 1] && d[i + 3] % 32 == t))
  }

  lemma TypeAtBegins(d: seq<byte>, limit: nat, i: nat, t: byte)
    requires limit <= |d|
    ensures TypeAt(d, limit, i, t) <==> Begins(d, limit, i, t)
  {
    if i + 4 < limit {
      var four, three := d[i..i + 4], d[i..i + 3];
      assert four[0] == d[i] && four[1] == d[i + 1] && four[2] == d[i + 2] && four[3] == d[i + 3];
      assert three[0] == d[i] && three[1] == d[i + 1] && three[2] == d[i + 2];
      assert Code4At(d, i) <==> four == [0, 0, 0, 1];
      assert Code3At(d, i) <==> three == [0, 0, 1];
    }
  }

  lemma HasTypeBegins(d: seq<byte>, limit: nat, t: byte)
    requires limit <= |d|
    ensures HasType(d, limit, t) <==> exists i: nat :: Begins(d, limit, i, t)
  {
    hide TypeAt, Begins;
    if i: nat :| TypeAt(d, limit, i, t) {
      TypeAtBegins(d, limit, i, t);
    }
    if i: nat :| Begins(d, limit, i, t) {
      TypeAtBegins(d, limit, i, t);
    }
  }

  /** What injection does, on every frame: with both sets cached, a frame that holds a unit of type 5
      (IDR) and does not hold units of both types 7 (SPS) and 8 (PPS) in its first 1024 bytes gets the
      two sets in front, each behind a start code; every other frame is sent as it is. */
  lemma InjectionMeans(sps: Option<seq<byte>>, pps: Option<seq<byte>>, d: seq<byte>)
    ensures var window := if |d| < 1024 then |d| else 1024;
            var due := && sps.Some? && pps.Some? && (exists i: nat :: Begins(d, |d|, i, 5))
                       && !((exists i: nat :: Begins(d, window, i, 7)) && (exists i: nat :: Begins(d, window, i, 8)));
            Injected(sps, pps, d) == if due then ([0, 0, 0, 1] + sps.value) + ([0, 0, 0, 1] + pps.value) + d else d
  {
    hide Begins;
    HasTypeBegins(d, |d|, 5);
    HasTypeBegins(d, Window(d), 7);
    HasTypeBegins(d, Window(d), 8);
    hide HasType;
    if sps.Some? && pps.Some? {
      assert [sps.value, pps.value][1..] == [pps.value];
      assert Stream([pps.value]) == [0, 0, 0, 1] + pps.value;
    }
  }

  // ---- Capture: the scan of `extract_params` asks for one byte more than the H.265 one ----

  function FindParamUnit(d: seq<byte>, i: nat): (r: Option<Span>)
    ensures r.Some? ==> i + 3 <= r.value.start < r.value.end <= |d|
    decreases |d| - i
  {
    if i + 4 >= |d| then None
    else if CodeAt(d, i) then Some(Span(UnitStart(d, i), UnitEnd(d, UnitStart(d, i) + 1)))
    else FindParamUnit(d, i + 1)
  }

  function ParamUnits(d: seq<byte>, i: nat): seq<seq<byte>>
    decreases |d| - i
  {
    match FindParamUnit(d, i)
    case None => []
    case Some(s) => [UnitAt(d, s)] + ParamUnits(d, s.end)
  }

  /** The stricter bound loses only a one-byte unit behind a three-byte start code at the very end. */
  lemma {:induction false} ParamUnitsAreUnits(d: seq<byte>, i: nat)
    ensures || UnitsFrom(d, i) == ParamUnits(d, i)
            || (exists b: byte :: UnitsFrom(d, i) == ParamUnits(d, i) + [[b]] && |d| >= 4 && Code3At(d, |d| - 4))
    decreases |d| - i
  {
    FindBoth(d, i);
    match FindParamUnit(d, i)
    case None =>
      if FindUnit(d, i).Some? && FindUnit(d, i).value.start < |d| {
        UnitsFromStep(d, i);
        assert UnitsFrom(d, |d|) == [];
        var s := FindUnit(d, i).value;
        assert UnitAt(d, s) == [d[|d| - 1]];
        assert UnitsFrom(d, i) == ParamUnits(d, i) + [[d[|d| - 1]]];
      }
    case Some(s) =>
      UnitsFromStep(d, i);
      ParamUnitsAreUnits(d, s.end);
      if UnitsFrom(d, s.end) != ParamUnits(d, s.end) {
        var b: byte :| UnitsFrom(d, s.end) == ParamUnits(d, s.end) + [[b]];
        assert UnitsFrom(d, i) == ParamUnits(d, i) + [[b]];
      }
  }

  lemma {:induction false} FindBoth(d: seq<byte>, i: nat)
    ensures match FindParamUnit(d, i)
            case Some(s) => FindUnit(d, i) == Some(s)
            case None =>
              FindUnit(d, i).Some? && FindUnit(d, i).value.start < |d| ==>
                Code3At(d, |d| - 4) && FindUnit(d, i) == Some(Span(|d| - 1, |d|))
    decreases |d| - i
  {
    if i + 4 < |d| && !CodeAt(d, i) {
      FindBoth(d, i + 1);
    } else if i + 5 <= |d| {
    } else if i + 4 == |d| {
      assert FindUnit(d, i + 1) == None;
    }
  }

  function FirstOfType(us: seq<seq<byte>>, t: byte): Option<seq<byte>> {
    if us == [] then None
    else if us[0] != [] && NalType(us[0][0]) == t then Some(us[0])
    else FirstOfType(us[1..], t)
  }

  lemma {:induction false} FirstOfTypeIsFirst(us: seq<seq<byte>>, t: byte)
    ensures match FirstOfType(us, t)
            case None => forall k :: 0 <= k < |us| && us[k] != [] ==> NalType(us[k][0]) != t
            case Some(u) => u != [] && NalType(u[0]) == t &&
                            exists k :: 0 <= k < |us| && us[k] == u
                                        && forall j :: 0 <= j < k && us[j] != [] ==> NalType(us[j][0]) != t
  {
    if us != [] && !(us[0] != [] && NalType(us[0][0]) == t) {
      var rest := us[1..];
      FirstOfTypeIsFirst(rest, t);
      assert forall k :: 0 < k < |us| ==> us[k] == rest[k - 1];
      if FirstOfType(rest, t).Some? {
        var u := FirstOfType(rest, t).value;
        var k :| 0 <= k < |rest| && rest[k] == u
                 && forall j :: 0 <= j < k && rest[j] != [] ==> NalType(rest[j][0]) != t;
        assert us[k + 1] == u;
      }
    }
  }

  function Captured(cache: Option<seq<byte>>, us: seq<seq<byte>>, t: byte): Option<seq<byte>> {
    if cache.Some? then cache else FirstOfType(us, t)
  }

  /** A filled cache is kept, an empty one takes the first unit of the type. */
  lemma CaptureMeans(cache: Option<seq<byte>>, us: seq<seq<byte>>, t: byte)
    ensures cache.Some? ==> Captured(cache, us, t) == cache
    ensures cache == None ==>
              match Captured(cache, us, t)
              case None => forall k :: 0 <= k < |us| && us[k] != [] ==> us[k][0] % 32 != t
              case Some(u) => u != [] && u[0] % 32 == t
                              && exists k :: 0 <= k < |us| && us[k] == u
                                             && forall j :: 0 <= j < k && us[j] != [] ==> us[j][0] % 32 != t
  {
    FirstOfTypeIsFirst(us, t);
  }

  lemma CapturedStep(cache: Option<seq<byte>>, u: seq<byte>, rest: seq<seq<byte>>, t: byte)
    requires u != []
    ensures Captured(cache, [u] + rest, t)
         == Captured(if cache == None && NalType(u[0]) == t then Some(u) else cache, rest, t)
  {
    assert ([u] + rest)[1..] == rest;
  }

  class H264Processor {
    var sps: Option<seq<byte>>
    var pps: Option<seq<byte>>

    constructor ()
      ensures sps == None && pps == None
    {
      sps, pps := None, None;
    }

    method SetParams(sps: seq<byte>, pps: seq<byte>)
      modifies this
      ensures this.sps == Some(sps) && this.pps == Some(pps)
    {
      this.sps, this.pps := Some(sps), Some(pps);
    }

    method IsIdrFrame(data: seq<byte>) returns (r: bool)
      ensures r == IsIdr(data)
    {
      var i := 0;
      while i + 4 < |data|
        invariant forall j: nat :: j < i ==> !TypeAt(data, |data|, j, NAL_SLICE_IDR)
      {
        if CodeAt(data, i) {
          if NalType(data[UnitStart(data, i)]) == NAL_SLICE_IDR {
            assert TypeAt(data, |data|, i, NAL_SLICE_IDR);
            return true;
          }
        }
        i := i + 1;
      }
      return false;
    }

    method HasParams(data: seq<byte>) returns (r: bool)
      ensures r == HasParamsInData(data)
    {
      var hasSps, hasPps := false, false;
      var checkLen := Window(data);
      var i := 0;
      while i + 4 < checkLen
        invariant hasSps <==> exists j: nat :: j < i && TypeAt(data, checkLen, j, NAL_SPS)
        invariant hasPps <==> exists j: nat :: j < i && TypeAt(data, checkLen, j, NAL_PPS)
      {
        if CodeAt(data, i) {
          var nalType := NalType(data[UnitStart(data, i)]);
          if nalType == NAL_SPS {
            assert TypeAt(data, checkLen, i, NAL_SPS);
            hasSps := true;
          } else if nalType == NAL_PPS {
            assert TypeAt(data, checkLen, i, NAL_PPS);
            hasPps := true;
          }
          if hasSps && hasPps {
            return true;
          }
        }
        i := i + 1;
      }
      return hasSps && hasPps;
    }

    /** Puts the cached sets in front of an IDR frame that does not bring its own. */
    method InjectParams(data: seq<byte>) returns (result: seq<byte>)
      ensures result == Injected(sps, pps, data)
    {
      var idr := IsIdrFrame(data);
      if !idr {
        return data;
      }
      var has := HasParams(data);
      if has {
        return data;
      }
      if sps == None || pps == None {
        return data;
      }
      result := START_CODE_4;
      result := result + sps.value;
      result := result + START_CODE_4;
      result := result + pps.value;
      assert result == Stream([sps.value, pps.value]) by {
        assert [sps.value, pps.value][1..] == [pps.value];
        assert Stream([pps.value]) == START_CODE_4 + pps.value;
      }
      result := result + data;
    }

    /** Each empty cache takes the first unit of its type. */
    method ExtractParams(data: seq<byte>)
      modifies this
      ensures sps == Captured(old(sps), ParamUnits(data, 0), 7)
      ensures pps == Captured(old(pps), ParamUnits(data, 0), 8)
    {
      var i: nat := 0;
      while i + 4 < |data|
        invariant Captured(sps, ParamUnits(data, i), NAL_SPS) == Captured(old(sps), ParamUnits(data, 0), NAL_SPS)
        invariant Captured(pps, ParamUnits(data, i), NAL_PPS) == Captured(old(pps), ParamUnits(data, 0), NAL_PPS)
        decreases |data| - i
      {
        if CodeAt(data, i) {
          var nalStart := UnitStart(data, i);
          var nalType := NalType(data[nalStart]);
          var nalEnd := FindNalEnd(data, nalStart);
          assert ParamUnits(data, i) == [data[nalStart..nalEnd]] + ParamUnits(data, nalEnd);
          CapturedStep(sps, data[nalStart..nalEnd], ParamUnits(data, nalEnd), NAL_SPS);
          CapturedStep(pps, data[nalStart..nalEnd], ParamUnits(data, nalEnd), NAL_PPS);
          if nalType == NAL_SPS {
            if sps == None {
              sps := Some(data[nalStart..nalEnd]);
            }
          } else if nalType == NAL_PPS {
            if pps == None {
              pps := Some(data[nalStart..nalEnd]);
            }
          }
          i := nalEnd;
        } else {
          i := i + 1;
        }
      }
    }

    method FindNalEnd(data: seq<byte>, nalStart: nat) returns (nalEnd: nat)
      requires nalStart < |data| && 4 <= |data|
      ensures nalEnd == UnitEnd(data, nalStart + 1) > nalStart
    {
      nalEnd := nalStart + 1;
      while nalEnd + 3 < |data|
        invariant nalStart < nalEnd <= |data|
        invariant UnitEnd(data, nalEnd) == UnitEnd(data, nalStart + 1)
      {
        if Code3At(data, nalEnd) || Code4At(data, nalEnd) {
          break;
        }
        nalEnd := nalEnd + 1;
      }
      if nalEnd >= |data| - 3 {
        nalEnd := |data|;
      }
    }
  }

  // ---- Injection is idempotent exactly when the PPS header lands in the window ----

  lemma TypeShifts(pre: seq<byte>, d: seq<byte>, i: nat, t: byte)
    requires TypeAt(d, |d|, i, t)
    ensures TypeAt(pre + d, |pre + d|, |pre| + i, t)
  {
    var e := pre + d;
    assert forall k :: 0 <= k < |d| ==> e[|pre| + k] == d[k];
    if !Code4At(d, i) {
      assert d[i + 2] == 1;
    }
  }

  lemma IdrStays(pre: seq<byte>, d: seq<byte>)
    requires IsIdr(d)
    ensures IsIdr(pre + d)
  {
    var i: nat :| TypeAt(d, |d|, i, NAL_SLICE_IDR);
    TypeShifts(pre, d, i, NAL_SLICE_IDR);
  }

  lemma SetsLayout(sps: seq<byte>, pps: seq<byte>, d: seq<byte>)
    requires sps != [] && pps != []
    ensures var e := Stream([sps, pps]) + d;
            && |e| == 8 + |sps| + |pps| + |d|
            && Code4At(e, 0) && e[4] == sps[0] && e[4..4 + |sps|] == sps
            && Code4At(e, 4 + |sps|) && e[8 + |sps|] == pps[0]
  {
    assert Stream([pps]) == START_CODE_4 + pps;
    assert Stream([sps, pps]) == START_CODE_4 + sps + (START_CODE_4 + pps);
    var e := Stream([sps, pps]) + d;
    assert e == [] + (START_CODE_4 + sps + (START_CODE_4 + pps + d));
    Layout([], sps, START_CODE_4 + pps + d);
    assert (START_CODE_4 + pps + d)[4] == pps[0];
  }

  /** With sets of the right types and an emulation-free SPS, injecting twice is injecting once on
      every frame, exactly when the SPS has at most 1015 bytes: a longer one pushes the PPS out of
      the window that `has_params_in_data` searches, and the sets are put in front again. */
  lemma InjectTwice(sps: seq<byte>, pps: seq<byte>, d: seq<byte>)
    requires sps != [] && pps != [] && NoCode(sps)
    requires sps[0] % 32 == 7 && pps[0] % 32 == 8
    requires IsIdr(d) && !HasParamsInData(d)
    ensures var once := Injected(Some(sps), Some(pps), d);
            Injected(Some(sps), Some(pps), once) == once <==> |sps| <= 1015
  {
    var e := Injected(Some(sps), Some(pps), d);
    assert e == Stream([sps, pps]) + d;
    IdrStays(Stream([sps, pps]), d);
    SetsLayout(sps, pps, d);
    assert |d| >= 5;
    if |sps| + 8 < WINDOW {
      assert TypeAt(e, Window(e), 0, NAL_SPS);
      assert TypeAt(e, Window(e), 4 + |sps|, NAL_PPS);
    } else {
      assert Window(e) == WINDOW;
      NoPpsInWindow(e, sps);
      assert |Stream([sps, pps]) + e| > |e|;
    }
  }

  lemma NoPpsInWindow(e: seq<byte>, sps: seq<byte>)
    requires |sps| + 8 >= WINDOW && |e| >= WINDOW
    requires sps != [] && NoCode(sps) && NalType(sps[0]) == NAL_SPS
    requires Code4At(e, 0) && 8 + |sps| <= |e| && e[4..4 + |sps|] == sps && Code4At(e, 4 + |sps|)
    ensures !HasType(e, WINDOW, NAL_PPS)
  {
    forall i: nat
      ensures !TypeAt(e, WINDOW, i, NAL_PPS)
    {
      if 4 <= i < 4 + |sps| {
        NoCodeAcross(e, sps, 4, i);
      } else if i == 0 {
        assert e[4] == sps[0];
      }
    }
  }
}
