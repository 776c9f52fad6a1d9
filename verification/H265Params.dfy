/** Capture and injection of the H.265 parameter sets (VPS, SPS, PPS). */
module H265Params {
  import opened Octets
  import opened AnnexB

  const NAL_VPS := 32
  const NAL_SPS := 33
  const NAL_PPS := 34

  /** `(b >> 1) & 0x3F` */
  function NalType(b: byte): byte {
    b / 2 % 64
  }

  lemma NalTypeIsShiftAndMask(b: bv8)
    ensures ((b >> 1) & 0x3F) as int == NalType(b as int)
  {
    ShiftAndMask(b);
  }

  /** The first unit of type `t`. */
  function FirstOfType(us: seq<seq<byte>>, t: byte): (r: Option<seq<byte>>)
    requires forall k :: 0 <= k < |us| ==> us[k] != []
  {
    if us == [] then None
    else if NalType(us[0][0]) == t then Some(us[0])
    else FirstOfType(us[1..], t)
  }

  /** `FirstOfType` means what its name says. */
  lemma {:induction false} FirstOfTypeIsFirst(us: seq<seq<byte>>, t: byte)
    requires forall k :: 0 <= k < |us| ==> us[k] != []
    ensures match FirstOfType(us, t)
            case None => forall k :: 0 <= k < |us| ==> NalType(us[k][0]) != t
            case Some(u) => exists k :: 0 <= k < |us| && us[k] == u && NalType(u[0]) == t
                                        && forall j :: 0 <= j < k ==> NalType(us[j][0]) != t
  {
    if us != [] && NalType(us[0][0]) != t {
      var rest := us[1..];
      FirstOfTypeIsFirst(rest, t);
      assert forall k :: 0 < k < |us| ==> us[k] == rest[k - 1];
      if FirstOfType(rest, t).Some? {
        var u := FirstOfType(rest, t).value;
        var k :| 0 <= k < |rest| && rest[k] == u && NalType(u[0]) == t
                 && forall j :: 0 <= j < k ==> NalType(rest[j][0]) != t;
        assert us[k + 1] == u;
        assert forall j :: 0 <= j < k + 1 ==> NalType(us[j][0]) != t;
      }
    }
  }

  function OrElse<T>(a: Option<T>, b: Option<T>): Option<T> {
    if a.Some? then a else b
  }

  lemma OrElseStep(cache: Option<seq<byte>>, us: seq<seq<byte>>, t: byte)
    requires us != [] && forall k :: 0 <= k < |us| ==> us[k] != []
    ensures OrElse(cache, FirstOfType(us, t))
         == OrElse(if cache == None && NalType(us[0][0]) == t then Some(us[0]) else cache, FirstOfType(us[1..], t))
  {
  }

  /** The bytes put in front of a frame: each set behind its own start code. */
  function Prefixed(sets: seq<seq<byte>>, data: seq<byte>): seq<byte> {
    Stream(sets) + if !StartsWithCode(data) && data != [] then START_CODE_4 + data else data
  }

  lemma UnitsAreNotEmpty(d: seq<byte>, i: nat)
    ensures forall k :: 0 <= k < |UnitsFrom(d, i)| ==> UnitsFrom(d, i)[k] != []
  {
  }

  class H265Processor {
    var vps: Option<seq<byte>>
    var sps: Option<seq<byte>>
    var pps: Option<seq<byte>>
    var paramsInjected: bool

    constructor ()
      ensures vps == None && sps == None && pps == None && !paramsInjected
    {
      vps, sps, pps := None, None, None;
      paramsInjected := false;
    }

    predicate HasParams()
      reads this
    {
      vps.Some? && sps.Some? && pps.Some?
    }

    method SetParams(vps: seq<byte>, sps: seq<byte>, pps: seq<byte>)
      modifies this
      ensures this.vps == Some(vps) && this.sps == Some(sps) && this.pps == Some(pps)
      ensures paramsInjected == old(paramsInjected)
    {
      this.vps, this.sps, this.pps := Some(vps), Some(sps), Some(pps);
    }

    /** Each empty cache takes the first unit of its type; a filled one is kept. Stopping as soon as
        all three are filled loses nothing. */
    method ExtractParams(data: seq<byte>)
      modifies this
      ensures vps == OrElse(old(vps), FirstOfType(UnitsFrom(data, 0), 32))
      ensures sps == OrElse(old(sps), FirstOfType(UnitsFrom(data, 0), 33))
      ensures pps == OrElse(old(pps), FirstOfType(UnitsFrom(data, 0), 34))
      ensures paramsInjected == old(paramsInjected)
    {
      hide UnitsFrom, SpansFrom, NalType;
      UnitsAreNotEmpty(data, 0);
      var it := new NalIterator(data);
      ghost var units := UnitsFrom(data, 0);
      var nal := it.Next();
      ghost var rest := units;
      while nal.Some?
        modifies this, it
        invariant it.data == data
        invariant nal.Some? ==> nal.value != []
        invariant paramsInjected == old(paramsInjected)
        invariant rest == if nal.Some? then [nal.value] + UnitsFrom(data, it.offset) else []
        invariant forall k :: 0 <= k < |rest| ==> rest[k] != []
        invariant OrElse(vps, FirstOfType(rest, NAL_VPS)) == OrElse(old(vps), FirstOfType(units, NAL_VPS))
        invariant OrElse(sps, FirstOfType(rest, NAL_SPS)) == OrElse(old(sps), FirstOfType(units, NAL_SPS))
        invariant OrElse(pps, FirstOfType(rest, NAL_PPS)) == OrElse(old(pps), FirstOfType(units, NAL_PPS))
        decreases |rest|
      {
        OrElseStep(vps, rest, NAL_VPS);
        OrElseStep(sps, rest, NAL_SPS);
        OrElseStep(pps, rest, NAL_PPS);
        var nalType := NalType(nal.value[0]);
        if nalType == NAL_VPS && vps.None? {
          vps := Some(nal.value);
        } else if nalType == NAL_SPS && sps.None? {
          sps := Some(nal.value);
        } else if nalType == NAL_PPS && pps.None? {
          pps := Some(nal.value);
        }
        if HasParams() {
          break;
        }
        nal := it.Next();
        rest := rest[1..];
      }
    }

    /** Injection fires on an IDR frame, and once on the first frame, when all three sets are known. */
    method InjectParams(data: seq<byte>, isIdr: bool) returns (result: seq<byte>)
      modifies this`paramsInjected
      ensures var fires := (isIdr || !old(paramsInjected)) && HasParams();
              && result == (if fires then Prefixed([vps.value, sps.value, pps.value], data) else data)
              && paramsInjected == (old(paramsInjected) || fires)
    {
      if !isIdr && paramsInjected {
        return data;
      }
      if !HasParams() {
        return data;
      }
      result := [];
      if vps.Some? {
        result := result + START_CODE_4;
        result := result + vps.value;
      }
      if sps.Some? {
        result := result + START_CODE_4;
        result := result + sps.value;
      }
      if pps.Some? {
        result := result + START_CODE_4;
        result := result + pps.value;
      }
      assert result == Stream([vps.value, sps.value, pps.value]) by {
        assert [vps.value, sps.value, pps.value][1..] == [sps.value, pps.value];
        assert [sps.value, pps.value][1..] == [pps.value];
        assert Stream([pps.value]) == START_CODE_4 + pps.value;
      }
      if !StartsWithCode(data) && data != [] {
        result := result + START_CODE_4;
      }
      result := result + data;
      paramsInjected := true;
    }
  }

  /** What injection emits is the Annex-B form of the three sets followed by the frame's own units,
      so a scan of the result yields exactly those. */
  lemma InjectedUnits(sets: seq<seq<byte>>, us: seq<seq<byte>>)
    requires PlainUnits(sets + us) && us != []
    ensures Prefixed(sets, Stream(us)) == Stream(sets + us)
    ensures UnitsFrom(Prefixed(sets, Stream(us)), 0) == sets + us
  {
    assert Code4At(Stream(us), 0);
    StreamConcat(sets, us);
    ScanAnnexB([], sets + us);
    assert [] + Stream(sets + us) == Stream(sets + us);
  }

  /** A frame given as one bare unit, without a start code, gets one. */
  lemma InjectedBareUnit(sets: seq<seq<byte>>, u: seq<byte>)
    requires PlainUnits(sets + [u])
    ensures UnitsFrom(Prefixed(sets, u), 0) == sets + [u]
  {
    assert (sets + [u])[|sets|] == u;
    assert !StartsWithCode(u) by {
      assert !Code3At(u, 0) && !Code3At(u, 1);
    }
    InjectedUnits(sets, [u]);
    assert Stream([u]) == START_CODE_4 + u;
    assert Code4At(Stream([u]), 0);
  }
}
