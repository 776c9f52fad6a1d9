/** Media fragments of the fMP4 writer (styp, moof, mdat): the builder, which appends and then patches
    sizes at saved positions, and an independent reader of such files (section 4.2 and clauses 8.8.4
    to 8.8.12 of ISO/IEC 14496-12). */
module Fragment {
  import opened Octets

  type FourCC = s: seq<byte> | |s| == 4 witness [0, 0, 0, 0]

  const STYP: FourCC := [115, 116, 121, 112]
  const MOOF: FourCC := [109, 111, 111, 102]
  const MFHD: FourCC := [109, 102, 104, 100]
  const TRAF: FourCC := [116, 114, 97, 102]
  const TFHD: FourCC := [116, 102, 104, 100]
  const TFDT: FourCC := [116, 102, 100, 116]
  const TRUN: FourCC := [116, 114, 117, 110]
  const MDAT: FourCC := [109, 100, 97, 116]
  const MSDH: FourCC := [109, 115, 100, 104]
  const DASH: FourCC := [100, 97, 115, 104]

  const TFHD_FLAGS: u32 := 0x000200
  const TFDT_VERSION_1: u32 := 0x0100_0000
  const TRUN_FLAGS: u32 := 0x000701
  const SYNC_FLAGS: u32 := 0x0200_0000
  const NON_SYNC_FLAGS: u32 := 0x0101_0000

  datatype Sample = Sample(duration: u32, isSync: bool, bytes: seq<byte>)

  function TotalBytes(samples: seq<Sample>): nat {
    if samples == [] then 0 else |samples[0].bytes| + TotalBytes(samples[1..])
  }

  function TotalDuration(samples: seq<Sample>): (r: nat)
    ensures samples == [] ==> r == 0
  {
    if samples == [] then 0 else samples[0].duration as int + TotalDuration(samples[1..])
  }

  // ---- Boxes ----

  /** `make_box`: the size field is the length truncated to 32 bits. */
  function BoxBytes(typ: FourCC, payload: seq<byte>): (r: seq<byte>)
    ensures |r| == 8 + |payload|
  {
    Be32(8 + |payload|) + typ + payload
  }

  datatype Box = Box(typ: seq<byte>, payload: seq<byte>)

  /** Reads a buffer as boxes that tile it; `None` if they do not. */
  function ParseBoxes(s: seq<byte>): Option<seq<Box>> {
    if s == [] then Some([])
    else if |s| < 8 || U32At(s, 0) < 8 || U32At(s, 0) > |s| then None
    else
      var size := U32At(s, 0);
      match ParseBoxes(s[size..])
      case None => None
      case Some(rest) => Some([Box(s[4..8], s[8..size])] + rest)
  }

  /** `b` is a box of this type and payload whose size field is its length. */
  predicate IsBox(b: seq<byte>, typ: FourCC, payload: seq<byte>) {
    |b| == 8 + |payload| && U32At(b, 0) == |b| && b[4..8] == typ && b[8..] == payload
  }

  lemma BoxSizeField(typ: FourCC, payload: seq<byte>)
    ensures U32At(BoxBytes(typ, payload), 0) == (8 + |payload|) % 0x1_0000_0000
  {
    Be32RoundTrip(8 + |payload|);
    FieldsAt(Be32(8 + |payload|), typ + payload);
    assert BoxBytes(typ, payload) == Be32(8 + |payload|) + (typ + payload);
  }

  lemma BoxFits(typ: FourCC, payload: seq<byte>)
    requires 8 + |payload| < 0x1_0000_0000
    ensures IsBox(BoxBytes(typ, payload), typ, payload)
  {
    BoxSizeField(typ, payload);
    HeadTail(Be32(8 + |payload|), typ, payload);
  }

  lemma HeadTail(a: seq<byte>, b: seq<byte>, c: seq<byte>)
    requires |a| == 4 && |b| == 4
    ensures (a + b + c)[4..8] == b && (a + b + c)[8..] == c
  {
  }

  /** A four-byte field in front leaves the others where they are. */
  lemma FieldsAt(a: seq<byte>, rest: seq<byte>)
    requires |a| == 4
    ensures U32At(a + rest, 0) == U32At(a, 0)
    ensures |rest| >= 4 ==> U32At(a + rest, 4) == U32At(rest, 0)
    ensures |rest| >= 8 ==> U32At(a + rest, 8) == U32At(rest, 4)
    ensures (a + rest)[4..] == rest
  {
  }

  /** A box reads back, whatever follows. */
  lemma ParseCons(b: seq<byte>, typ: FourCC, payload: seq<byte>, rest: seq<byte>)
    requires IsBox(b, typ, payload)
    ensures ParseBoxes(b + rest)
         == match ParseBoxes(rest) case None => None case Some(bs) => Some([Box(typ, payload)] + bs)
  {
    var s := b + rest;
    assert s[..|b|] == b && s[|b|..] == rest;
    assert s[4..8] == b[4..8] && s[8..|b|] == b[8..];
    assert U32At(s, 0) == U32At(b, 0);
  }

  lemma Parse1(b: seq<byte>, typ: FourCC, payload: seq<byte>)
    requires IsBox(b, typ, payload)
    ensures ParseBoxes(b) == Some([Box(typ, payload)])
  {
    ParseCons(b, typ, payload, []);
    assert b + [] == b;
    assert [Box(typ, payload)] + [] == [Box(typ, payload)];
  }

  lemma Parse2(b: seq<byte>, t: FourCC, p: seq<byte>, b': seq<byte>, t': FourCC, p': seq<byte>)
    requires IsBox(b, t, p) && IsBox(b', t', p')
    ensures ParseBoxes(b + b') == Some([Box(t, p), Box(t', p')])
  {
    ParseCons(b, t, p, b');
    Parse1(b', t', p');
    assert [Box(t, p)] + [Box(t', p')] == [Box(t, p), Box(t', p')];
  }

  // ---- The fragment as a value ----

  function Styp(): seq<byte> {
    BoxBytes(STYP, MSDH + Be32(0) + MSDH + DASH)
  }

  function SampleFlags(isSync: bool): u32 {
    if isSync then SYNC_FLAGS else NON_SYNC_FLAGS
  }

  function Row(s: Sample): (r: seq<byte>)
    ensures |r| == 12
  {
    Be32(s.duration) + Be32(|s.bytes|) + Be32(SampleFlags(s.isSync))
  }

  function Rows(samples: seq<Sample>): (r: seq<byte>)
    ensures |r| == 12 * |samples|
  {
    if samples == [] then [] else Row(samples[0]) + Rows(samples[1..])
  }

  function Data(samples: seq<Sample>): (r: seq<byte>)
    ensures |r| == TotalBytes(samples)
  {
    if samples == [] then [] else samples[0].bytes + Data(samples[1..])
  }

  function Mfhd(seqNumber: nat): (r: seq<byte>)
    ensures |r| == 16
  {
    BoxBytes(MFHD, Be32(0) + Be32(seqNumber))
  }

  function Tfhd(trackId: u32): (r: seq<byte>)
    ensures |r| == 16
  {
    BoxBytes(TFHD, Be32(TFHD_FLAGS) + Be32(trackId))
  }

  function Tfdt(baseTime: nat): (r: seq<byte>)
    ensures |r| == 20
  {
    BoxBytes(TFDT, Be32(TFDT_VERSION_1) + Be64(baseTime))
  }

  function Trun(dataOffset: nat, samples: seq<Sample>): seq<byte> {
    BoxBytes(TRUN, Be32(TRUN_FLAGS) + Be32(|samples|) + Be32(dataOffset) + Rows(samples))
  }

  function MoofSize(n: nat): nat {
    88 + 12 * n
  }

  function Moof(trackId: u32, seqNumber: nat, baseTime: nat, samples: seq<Sample>): (r: seq<byte>)
    ensures |r| == MoofSize(|samples|)
  {
    BoxBytes(MOOF, Mfhd(seqNumber)
                   + BoxBytes(TRAF, Tfhd(trackId) + Tfdt(baseTime) + Trun(MoofSize(|samples|) + 8, samples)))
  }

  function FragmentBytes(trackId: u32, seqNumber: nat, baseTime: nat, samples: seq<Sample>): seq<byte> {
    Styp() + Moof(trackId, seqNumber, baseTime, samples) + BoxBytes(MDAT, Data(samples))
  }

  // ---- The reader ----

  datatype Media = Media(trackId: u32, seqNumber: u32, baseTime: u64, samples: seq<Sample>)

  /** Bit 16 of the sample flags (`sample_is_non_sync_sample`) is clear. */
  predicate SyncBit(flags: u32) {
    flags / 65536 % 2 == 0
  }

  /** Rows of a trun against the bytes they describe, which they must use up. */
  function ParseRows(rows: seq<byte>, data: seq<byte>): Option<seq<Sample>> {
    if rows == [] then (if data == [] then Some([]) else None)
    else if |rows| < 12 || U32At(rows, 4) > |data| then None
    else
      var size := U32At(rows, 4);
      match ParseRows(rows[12..], data[size..])
      case None => None
      case Some(rest) => Some([Sample(U32At(rows, 0), SyncBit(U32At(rows, 8)), data[..size])] + rest)
  }

  /** The layout that is read: a tfdt of version 1, with a 64-bit time, and a trun that has a data offset
      (flag 0x1) and of each sample the duration (0x100), the size (0x200) and the flags (0x400). */
  datatype Run = Run(trackId: u32, baseTime: u64, count: u32, dataOffset: u32, rows: seq<byte>)

  function ParseTraf(payload: seq<byte>): Option<Run> {
    match ParseBoxes(payload)
    case None => None
    case Some(bs) =>
      if |bs| != 3 || !Spells(bs[0].typ, "tfhd") || !Spells(bs[1].typ, "tfdt") || !Spells(bs[2].typ, "trun") then None
      else
        var tfhd, tfdt, trun := bs[0].payload, bs[1].payload, bs[2].payload;
        if |tfhd| != 8 || |tfdt| != 12 || tfdt[0] != 1 || |trun| < 12 || U32At(trun, 0) != 0x701 then None
        else Some(Run(U32At(tfhd, 4), U64At(tfdt, 4), U32At(trun, 4), U32At(trun, 8), trun[12..]))
  }

  /** A top-level box: its type, the length of its header, and its payload. */
  datatype FileBox = FileBox(typ: seq<byte>, header: nat, payload: seq<byte>)

  /** Reads a file as boxes that tile it, with the two size forms that a top-level box may also take:
      size 0 extends the last box to the end of the file, size 1 announces a 64-bit size. */
  function ParseFile(s: seq<byte>): Option<seq<FileBox>> {
    if s == [] then Some([])
    else if |s| < 8 then None
    else if U32At(s, 0) == 0 then Some([FileBox(s[4..8], 8, s[8..])])
    else if U32At(s, 0) == 1 && |s| < 16 then None
    else
      var header := if U32At(s, 0) == 1 then 16 else 8;
      var size := if U32At(s, 0) == 1 then U64At(s, 8) else U32At(s, 0);
      if size < header || size > |s| then None
      else
        match ParseFile(s[size..])
        case None => None
        case Some(rest) => Some([FileBox(s[4..8], header, s[header..size])] + rest)
  }

  /** Reads a file of exactly styp, moof and mdat. The data offset, measured from the start of moof,
      must be the first payload byte of mdat, and the sample sizes must partition that payload. */
  function ParseFragment(s: seq<byte>): Option<Media> {
    match ParseFile(s)
    case None => None
    case Some(bs) =>
      if |bs| != 3 || !Spells(bs[0].typ, "styp") || !Spells(bs[1].typ, "moof") || !Spells(bs[2].typ, "mdat") then None
      else
        match ParseBoxes(bs[1].payload)
        case None => None
        case Some(inner) =>
          if |inner| != 2 || !Spells(inner[0].typ, "mfhd") || !Spells(inner[1].typ, "traf") || |inner[0].payload| != 8 then None
          else
            match ParseTraf(inner[1].payload)
            case None => None
            case Some(run) =>
              var moofStart := bs[0].header + |bs[0].payload|;
              var mdatData := moofStart + bs[1].header + |bs[1].payload| + bs[2].header;
              if moofStart + run.dataOffset != mdatData || |run.rows| != 12 * run.count then None
              else
                match ParseRows(run.rows, bs[2].payload)
                case None => None
                case Some(samples) => Some(Media(run.trackId, U32At(inner[0].payload, 4), run.baseTime, samples))
  }

  // ---- Reading back what was built ----

  /** Each sample's length fits its field. */
  predicate ShortSamples(samples: seq<Sample>) {
    forall k :: 0 <= k < |samples| ==> |samples[k].bytes| < 0x1_0000_0000
  }

  lemma {:induction false} TotalBoundsEach(samples: seq<Sample>)
    ensures TotalBytes(samples) < 0x1_0000_0000 ==> ShortSamples(samples)
  {
    if samples != [] {
      TotalBoundsEach(samples[1..]);
      assert samples == [samples[0]] + samples[1..];
    }
  }

  lemma {:induction false} RowsReadBack(samples: seq<Sample>)
    requires ShortSamples(samples)
    ensures ParseRows(Rows(samples), Data(samples)) == Some(samples)
  {
    hide SampleFlags, SyncBit;
    if samples != [] {
      var s := samples[0];
      FlagsMean(s.isSync);
      var rows, data := Rows(samples), Data(samples);
      RowFields(s, Rows(samples[1..]));
      assert data[..|s.bytes|] == s.bytes && data[|s.bytes|..] == Data(samples[1..]);
      RowsReadBack(samples[1..]);
      assert samples == [s] + samples[1..];
    }
  }

  lemma {:induction false} RowsAreShort(rows: seq<byte>, data: seq<byte>)
    ensures ParseRows(rows, data).Some? ==> ShortSamples(ParseRows(rows, data).value)
    decreases |rows|
  {
    if ParseRows(rows, data).Some? && rows != [] {
      RowsAreShort(rows[12..], data[U32At(rows, 4)..]);
    }
  }

  /** The sample table partitions the media data into the samples exactly if each length fits its field. */
  lemma RowsReadBackExactly(samples: seq<Sample>)
    ensures ParseRows(Rows(samples), Data(samples)) == Some(samples) <==> ShortSamples(samples)
  {
    RowsAreShort(Rows(samples), Data(samples));
    if ShortSamples(samples) {
      RowsReadBack(samples);
    }
  }

  /** The sample flags: `sample_depends_on` is 2 (no other sample) for a sync sample and 1 for another
      one, and only the latter has `sample_is_non_sync_sample` set; all other bits are 0. */
  lemma FlagsMean(isSync: bool)
    ensures var flags := SampleFlags(isSync);
            && SyncBit(flags) == isSync && flags / 0x100_0000 == (if isSync then 2 else 1)
            && flags % 0x100_0000 == if isSync then 0 else 0x1_0000
  {
  }

  lemma RowFields(s: Sample, rest: seq<byte>)
    requires |s.bytes| < 0x1_0000_0000
    ensures var r := Row(s) + rest;
            && U32At(r, 0) == s.duration && U32At(r, 4) == |s.bytes| && U32At(r, 8) == SampleFlags(s.isSync)
            && r[12..] == rest
  {
    Be32Exact(s.duration);
    Be32Exact(|s.bytes|);
    Be32Exact(SampleFlags(s.isSync));
    ThreeFields(Be32(s.duration), Be32(|s.bytes|), Be32(SampleFlags(s.isSync)), rest);
  }

  lemma ThreeFields(a: seq<byte>, b: seq<byte>, c: seq<byte>, rest: seq<byte>)
    requires |a| == |b| == |c| == 4
    ensures var r := a + b + c + rest;
            && U32At(r, 0) == U32At(a, 0) && U32At(r, 4) == U32At(b, 0) && U32At(r, 8) == U32At(c, 0)
            && r[12..] == rest
  {
    var r := a + b + c + rest;
    assert r[..4] == a && r[4..8] == b && r[8..12] == c;
    assert U32At(r, 0) == U32At(r[..4], 0) && U32At(r, 4) == U32At(r[4..8], 0) && U32At(r, 8) == U32At(r[8..12], 0);
  }

  lemma TwoFields(a: seq<byte>, b: seq<byte>)
    requires |a| == |b| == 4
    ensures U32At(a + b, 0) == U32At(a, 0) && U32At(a + b, 4) == U32At(b, 0)
  {
  }

  lemma WideField(a: seq<byte>, b: seq<byte>)
    requires |a| == 4 && |b| == 8
    ensures U32At(a + b, 0) == U32At(a, 0) && U64At(a + b, 4) == U64At(b, 0)
  {
  }

  lemma TfhdIs(trackId: u32)
    ensures var p := Be32(TFHD_FLAGS) + Be32(trackId);
            IsBox(Tfhd(trackId), TFHD, p) && |p| == 8 && U32At(p, 4) == trackId
  {
    Be32Exact(trackId);
    TwoFields(Be32(TFHD_FLAGS), Be32(trackId));
    BoxFits(TFHD, Be32(TFHD_FLAGS) + Be32(trackId));
  }

  lemma MfhdIs(seqNumber: u32)
    ensures var p := Be32(0) + Be32(seqNumber);
            IsBox(Mfhd(seqNumber), MFHD, p) && |p| == 8 && U32At(p, 4) == seqNumber
  {
    Be32Exact(seqNumber);
    TwoFields(Be32(0), Be32(seqNumber));
    BoxFits(MFHD, Be32(0) + Be32(seqNumber));
  }

  lemma TfdtIs(baseTime: u64)
    ensures var p := Be32(TFDT_VERSION_1) + Be64(baseTime);
            && IsBox(Tfdt(baseTime), TFDT, p) && |p| == 12
            && p[0] == 1 && U64At(p, 4) == baseTime
  {
    Be32Exact(TFDT_VERSION_1);
    Be64RoundTrip(baseTime);
    WideField(Be32(TFDT_VERSION_1), Be64(baseTime));
    BoxFits(TFDT, Be32(TFDT_VERSION_1) + Be64(baseTime));
  }

  lemma TrunIs(offset: u32, samples: seq<Sample>)
    requires MoofSize(|samples|) < 0x1_0000_0000
    ensures var p := Be32(TRUN_FLAGS) + Be32(|samples|) + Be32(offset) + Rows(samples);
            && IsBox(Trun(offset, samples), TRUN, p) && |p| >= 12
            && U32At(p, 0) == TRUN_FLAGS && U32At(p, 4) == |samples| && U32At(p, 8) == offset
            && p[12..] == Rows(samples)
  {
    Be32Exact(TRUN_FLAGS);
    Be32Exact(|samples|);
    Be32Exact(offset);
    TrunFields(Be32(TRUN_FLAGS), Be32(|samples|), Be32(offset), Rows(samples));
  }

  lemma TrunFields(flags: seq<byte>, count: seq<byte>, offset: seq<byte>, rows: seq<byte>)
    requires |flags| == |count| == |offset| == 4 && 20 + |rows| < 0x1_0000_0000
    ensures var p := flags + count + offset + rows;
            && IsBox(BoxBytes(TRUN, p), TRUN, p) && |p| >= 12
            && U32At(p, 0) == U32At(flags, 0) && U32At(p, 4) == U32At(count, 0) && U32At(p, 8) == U32At(offset, 0)
            && p[12..] == rows
  {
    ThreeFields(flags, count, offset, rows);
    BoxFits(TRUN, flags + count + offset + rows);
  }

  /** The three boxes of a traf, from what their payloads hold. */
  lemma ParseTrafBoxes(h: seq<byte>, hp: seq<byte>, t: seq<byte>, tp: seq<byte>, r: seq<byte>, rp: seq<byte>)
    requires IsBox(h, TFHD, hp) && IsBox(t, TFDT, tp) && IsBox(r, TRUN, rp)
    requires |hp| == 8 && |tp| == 12 && |rp| >= 12 && tp[0] == 1 && U32At(rp, 0) == 0x701
    ensures ParseTraf(h + t + r) == Some(Run(U32At(hp, 4), U64At(tp, 4), U32At(rp, 4), U32At(rp, 8), rp[12..]))
  {
    TrafNames();
    hide Spells;
    Parse2(t, TFDT, tp, r, TRUN, rp);
    ParseCons(h, TFHD, hp, t + r);
    assert h + t + r == h + (t + r);
  }

  lemma TrafReadsBack(trackId: u32, baseTime: u64, offset: u32, samples: seq<Sample>)
    requires MoofSize(|samples|) < 0x1_0000_0000
    ensures ParseTraf(Tfhd(trackId) + Tfdt(baseTime) + Trun(offset, samples))
         == Some(Run(trackId, baseTime, |samples|, offset, Rows(samples)))
  {
    TfhdIs(trackId);
    TfdtIs(baseTime);
    TrunIs(offset, samples);
    ParseTrafBoxes(Tfhd(trackId), Be32(TFHD_FLAGS) + Be32(trackId),
                   Tfdt(baseTime), Be32(TFDT_VERSION_1) + Be64(baseTime),
                   Trun(offset, samples), Be32(TRUN_FLAGS) + Be32(|samples|) + Be32(offset) + Rows(samples));
  }

  lemma FileCons(b: seq<byte>, typ: FourCC, payload: seq<byte>, rest: seq<byte>)
    requires IsBox(b, typ, payload)
    ensures ParseFile(b + rest)
         == match ParseFile(rest) case None => None case Some(bs) => Some([FileBox(typ, 8, payload)] + bs)
  {
    var s := b + rest;
    assert s[..|b|] == b && s[|b|..] == rest;
    assert s[4..8] == b[4..8] && s[8..|b|] == b[8..];
    assert U32At(s, 0) == U32At(b, 0);
  }

  /** The last box of a file: it is read as itself if its size field is its length or 0, and otherwise
      not as one box with an eight-byte header. */
  lemma LastBox(c: seq<byte>, payload: seq<byte>)
    requires |c| == 8 + |payload| && c[4..8] == MDAT && c[8..] == payload
    ensures U32At(c, 0) == |c| || U32At(c, 0) == 0 ==> ParseFile(c) == Some([FileBox(MDAT, 8, payload)])
    ensures U32At(c, 0) != |c| && U32At(c, 0) != 0 && ParseFile(c).Some? ==>
              |ParseFile(c).value| != 1 || ParseFile(c).value[0].header != 8
  {
    if U32At(c, 0) == |c| {
      FileCons(c, MDAT, payload, []);
      assert c + [] == c;
      assert [FileBox(MDAT, 8, payload)] + [] == [FileBox(MDAT, 8, payload)];
    } else if 8 <= U32At(c, 0) < |c| {
      assert c[U32At(c, 0)..] != [];
    }
  }

  lemma ParseThree(a: seq<byte>, ap: seq<byte>, b: seq<byte>, bp: seq<byte>, c: seq<byte>)
    requires IsBox(a, STYP, ap) && IsBox(b, MOOF, bp)
    ensures ParseFile(a + b + c) == match ParseFile(c)
                                    case None => None
                                    case Some(bs) => Some([FileBox(STYP, 8, ap), FileBox(MOOF, 8, bp)] + bs)
  {
    hide ParseFile, IsBox;
    FileCons(b, MOOF, bp, c);
    FileCons(a, STYP, ap, b + c);
    assert a + b + c == a + (b + c);
    if ParseFile(c).Some? {
      var bs := ParseFile(c).value;
      assert [FileBox(STYP, 8, ap)] + ([FileBox(MOOF, 8, bp)] + bs) == [FileBox(STYP, 8, ap), FileBox(MOOF, 8, bp)] + bs;
    }
  }

  lemma TopNames()
    ensures Spells(STYP, "styp") && Spells(MOOF, "moof") && Spells(MFHD, "mfhd") && Spells(TRAF, "traf")
  {
  }

  lemma TrafNames()
    ensures Spells(TFHD, "tfhd") && Spells(TFDT, "tfdt") && Spells(TRUN, "trun")
  {
  }

  lemma MdatName(bs: seq<FileBox>)
    ensures |bs| == 1 ==> (Spells(bs[0].typ, "mdat") <==> bs[0].typ == MDAT)
  {
  }

  /** From the parsed layers to the media. */
  lemma ParseLayers(s: seq<byte>, styp: seq<byte>, moof: seq<byte>, last: seq<FileBox>, mfhd: seq<byte>, traf: seq<byte>, run: Run)
    requires ParseFile(s) == Some([FileBox(STYP, 8, styp), FileBox(MOOF, 8, moof)] + last)
    requires ParseBoxes(moof) == Some([Box(MFHD, mfhd), Box(TRAF, traf)]) && |mfhd| == 8
    requires ParseTraf(traf) == Some(run) && run.dataOffset == 8 + |moof| + 8 && |run.rows| == 12 * run.count
    ensures |last| != 1 || last[0].header != 8 || last[0].typ != MDAT ==> ParseFragment(s) == None
    ensures |last| == 1 && last[0].header == 8 && last[0].typ == MDAT ==>
              ParseFragment(s) == match ParseRows(run.rows, last[0].payload)
                                  case None => None
                                  case Some(samples) => Some(Media(run.trackId, U32At(mfhd, 4), run.baseTime, samples))
  {
    TopNames();
    MdatName(last);
    hide ParseFile, ParseBoxes, ParseTraf, ParseRows, Spells;
    var bs := [FileBox(STYP, 8, styp), FileBox(MOOF, 8, moof)] + last;
    assert |last| == 1 ==> bs == [FileBox(STYP, 8, styp), FileBox(MOOF, 8, moof), last[0]];
  }

  /** The 32-bit size field of mdat holds its length, or happens to be 0, the last box's licence to
      extend to the end of the file; in the latter case each sample must still fit its own field. */
  predicate ReadableSize(samples: seq<Sample>) {
    var size := 8 + TotalBytes(samples);
    size < 0x1_0000_0000 || (size % 0x1_0000_0000 == 0 && ShortSamples(samples))
  }

  lemma MdatIsRead(payload: seq<byte>)
    ensures var read := ParseFile(BoxBytes(MDAT, payload));
            var size := 8 + |payload|;
            if size < 0x1_0000_0000 || size % 0x1_0000_0000 == 0 then read == Some([FileBox(MDAT, 8, payload)])
            else read == None || |read.value| != 1 || read.value[0].header != 8
  {
    hide ParseFile, BoxBytes, U32At;
    var c := BoxBytes(MDAT, payload);
    BoxSizeField(MDAT, payload);
    MdatHeader(payload);
    LastBox(c, payload);
  }

  /** Reading a built fragment recovers track, sequence number, base time and every sample's duration,
      sync flag and bytes, exactly when the size of its media data is readable (given that the sample
      table fits the size of moof). All sizes that were patched in equal real lengths. */
  lemma FragmentReadsBack(trackId: u32, seqNumber: u32, baseTime: u64, samples: seq<Sample>)
    requires MoofSize(|samples|) + 8 < 0x1_0000_0000
    ensures ParseFragment(FragmentBytes(trackId, seqNumber, baseTime, samples))
            == Some(Media(trackId, seqNumber, baseTime, samples))
            <==> ReadableSize(samples)
  {
    hide ParseFile, ParseFragment, ParseRows, BoxBytes, FragmentBytes, ShortSamples, Rows;
    FragmentLayers(trackId, seqNumber, baseTime, samples);
    MdatIsRead(Data(samples));
    RowsReadBackExactly(samples);
    TotalBoundsEach(samples);
    hide Data, TotalBytes;
  }

  lemma MdatHeader(payload: seq<byte>)
    ensures var c := BoxBytes(MDAT, payload); c[4..8] == MDAT && c[8..] == payload
  {
    HeadTail(Be32(8 + |payload|), MDAT, payload);
  }

  /** Everything but mdat reads back; what is read of mdat decides. */
  lemma FragmentLayers(trackId: u32, seqNumber: u32, baseTime: u64, samples: seq<Sample>)
    requires MoofSize(|samples|) + 8 < 0x1_0000_0000
    ensures var last := ParseFile(BoxBytes(MDAT, Data(samples)));
            var media := ParseFragment(FragmentBytes(trackId, seqNumber, baseTime, samples));
            && (last == None || |last.value| != 1 || last.value[0].header != 8 || last.value[0].typ != MDAT ==> media == None)
            && (last.Some? && |last.value| == 1 && last.value[0].header == 8 && last.value[0].typ == MDAT ==>
                  media == match ParseRows(Rows(samples), last.value[0].payload)
                           case None => None
                           case Some(read) => Some(Media(trackId, seqNumber, baseTime, read)))
  {
    var traf := Tfhd(trackId) + Tfdt(baseTime) + Trun(MoofSize(|samples|) + 8, samples);
    var moof := Mfhd(seqNumber) + BoxBytes(TRAF, traf);
    var styp := MSDH + Be32(0) + MSDH + DASH;
    var mfhd := Be32(0) + Be32(seqNumber);
    var run := Run(trackId, baseTime, |samples|, MoofSize(|samples|) + 8, Rows(samples));
    var whole := FragmentBytes(trackId, seqNumber, baseTime, samples);
    var mdat := BoxBytes(MDAT, Data(samples));
    MfhdIs(seqNumber);
    BoxFits(TRAF, traf);
    Parse2(Mfhd(seqNumber), MFHD, mfhd, BoxBytes(TRAF, traf), TRAF, traf);
    TrafReadsBack(trackId, baseTime, MoofSize(|samples|) + 8, samples);
    BoxFits(STYP, styp);
    BoxFits(MOOF, moof);
    ParseThree(Styp(), styp, BoxBytes(MOOF, moof), moof, mdat);
    hide ParseFile, ParseBoxes, ParseTraf, ParseRows, BoxBytes;
    assert whole == Styp() + BoxBytes(MOOF, moof) + mdat;
    if ParseFile(mdat).Some? {
      ParseLayers(whole, styp, moof, ParseFile(mdat).value, mfhd, traf, run);
    }
  }

  /** What no reader above looks at: the brands of the segment, and the flags of tfhd, which are 0x200. */
  lemma FragmentFront(trackId: u32, seqNumber: nat, baseTime: nat, samples: seq<Sample>)
    ensures var f := FragmentBytes(trackId, seqNumber, baseTime, samples);
            && |f| >= 72 && U32At(f, 0) == 24 && Spells(f[4..8], "styp")
            && Spells(f[8..12], "msdh") && U32At(f, 12) == 0 && Spells(f[16..20], "msdh") && Spells(f[20..24], "dash")
            && U32At(f, 64) == 0x200
  {
    var rest := Moof(trackId, seqNumber, baseTime, samples) + BoxBytes(MDAT, Data(samples));
    StypBytes();
    Be32Exact(24);
    Be32Exact(0);
    FlagsAt64(trackId, seqNumber, baseTime, samples);
    SixWords(Be32(24), STYP, MSDH, Be32(0), MSDH, DASH, rest);
    hide Spells, U32At, Be32, Moof, BoxBytes, Data;
    assert Be32(24) + STYP + (MSDH + Be32(0) + MSDH + DASH) + rest == Styp() + rest
           == FragmentBytes(trackId, seqNumber, baseTime, samples);
  }

  lemma SixWords(a: seq<byte>, b: seq<byte>, c: seq<byte>, d: seq<byte>, e: seq<byte>, f: seq<byte>, rest: seq<byte>)
    requires |a| == |b| == |c| == |d| == |e| == |f| == 4
    ensures var s := a + b + (c + d + e + f) + rest;
            && U32At(s, 0) == U32At(a, 0) && s[4..8] == b && s[8..12] == c && U32At(s, 12) == U32At(d, 0)
            && s[16..20] == e && s[20..24] == f
  {
    var s := a + b + (c + d + e + f) + rest;
    assert s == [] + a + (b + c + d + e + f + rest);
    assert s == a + b + (c + d + e + f + rest);
    assert s == (a + b) + c + (d + e + f + rest);
    assert s == (a + b + c) + d + (e + f + rest);
    assert s == (a + b + c + d) + e + (f + rest);
    assert s == (a + b + c + d + e) + f + rest;
    hide U32At;
    WordIn([], a, b + c + d + e + f + rest);
    WordIn(a, b, c + d + e + f + rest);
    WordIn(a + b, c, d + e + f + rest);
    WordIn(a + b + c, d, e + f + rest);
    WordIn(a + b + c + d, e, f + rest);
    WordIn(a + b + c + d + e, f, rest);
  }

  lemma WordIn(before: seq<byte>, x: seq<byte>, behind: seq<byte>)
    requires |x| == 4
    ensures var s := before + x + behind; s[|before|..|before| + 4] == x && U32At(s, |before|) == U32At(x, 0)
  {
    var s := before + x + behind;
    assert s[|before|] == x[0] && s[|before| + 1] == x[1] && s[|before| + 2] == x[2] && s[|before| + 3] == x[3];
  }

  lemma StypBytes()
    ensures Styp() == Be32(24) + STYP + (MSDH + Be32(0) + MSDH + DASH)
    ensures Spells(STYP, "styp") && Spells(MSDH, "msdh") && Spells(DASH, "dash")
  {
  }

  lemma FlagsAt64(trackId: u32, seqNumber: nat, baseTime: nat, samples: seq<Sample>)
    ensures var f := FragmentBytes(trackId, seqNumber, baseTime, samples);
            |f| >= 72 && U32At(f, 64) == 0x200
  {
    hide Be32, Be64, Rows, Data;
    var f := FragmentBytes(trackId, seqNumber, baseTime, samples);
    assert f[64..68] == Be32(0x200);
    Be32Exact(0x200);
    assert U32At(f, 64) == U32At(f[64..68], 0);
  }

  // ---- The builder ----

  /** `BigEndian::write_u32(&mut buf[at..at + 4], v)` and `copy_from_slice`, on a value. */
  function Patch(buf: seq<byte>, at: nat, v: seq<byte>): (r: seq<byte>)
    requires at + |v| <= |buf|
    ensures |r| == |buf|
  {
    buf[..at] + v + buf[at + |v|..]
  }

  lemma PatchMiddle(a: seq<byte>, x: seq<byte>, b: seq<byte>, v: seq<byte>)
    requires |x| == |v|
    ensures Patch(a + x + b, |a|, v) == a + v + b
  {
  }

  const ZEROES_4: seq<byte> := [0, 0, 0, 0]
  const ZEROES_8: seq<byte> := [0, 0, 0, 0, 0, 0, 0, 0]

  /** Appends everything up to the end of the sample table with placeholders, then patches the three
      sizes and the data offset, then appends the media data. */
  method BuildFragment(trackId: u32, seqNumber: nat, baseTime: nat, samples: seq<Sample>) returns (fragment: seq<byte>)
    ensures fragment == FragmentBytes(trackId, seqNumber, baseTime, samples)
  {
    var totalData := SumOfLengths(samples);
    fragment := BuildStyp();
    fragment := AppendMoof(fragment, trackId, seqNumber, baseTime, samples);
    ghost var head := fragment;
    var mdatSize := 8 + totalData;
    fragment := fragment + Be32(mdatSize);
    fragment := fragment + MDAT;
    fragment := AppendData(fragment, samples);
    Regroup(head, Be32(mdatSize), MDAT, Data(samples));
  }

  lemma Regroup(a: seq<byte>, b: seq<byte>, c: seq<byte>, d: seq<byte>)
    ensures a + b + c + d == a + (b + c + d)
  {
  }

  method BuildStyp() returns (fragment: seq<byte>)
    ensures fragment == Styp()
  {
    fragment := Be32(24);
    fragment := fragment + STYP;
    fragment := fragment + MSDH;
    fragment := fragment + Be32(0);
    fragment := fragment + MSDH;
    fragment := fragment + DASH;
  }

  method AppendMoof(before: seq<byte>, trackId: u32, seqNumber: nat, baseTime: nat, samples: seq<Sample>)
    returns (fragment: seq<byte>)
    ensures fragment == before + Moof(trackId, seqNumber, baseTime, samples)
  {
    hide Be32, Be64, BoxBytes, Rows;
    fragment := before;
    var moofStart := |fragment|;
    fragment := fragment + ZEROES_8;
    var mfhd := BuildBox(16, MFHD, Be32(0), Be32(seqNumber));
    fragment := fragment + mfhd;
    var trafStart := |fragment|;
    fragment := fragment + ZEROES_8;
    var tfhd := BuildBox(16, TFHD, Be32(TFHD_FLAGS), Be32(trackId));
    fragment := fragment + tfhd;
    var tfdt := BuildBox(20, TFDT, Be32(TFDT_VERSION_1), Be64(baseTime));
    fragment := fragment + tfdt;
    var trunStart := |fragment|;
    fragment := fragment + ZEROES_4;
    var trunHead := TRUN + Be32(TRUN_FLAGS) + Be32(|samples|);
    fragment := fragment + trunHead;
    var dataOffsetPos := |fragment|;
    fragment := fragment + ZEROES_4;
    fragment := AppendRows(fragment, samples);
    fragment := FinishMoof(fragment, moofStart, trafStart, trunStart, dataOffsetPos, before, mfhd, tfhd + tfdt,
                           Be32(TRUN_FLAGS), Be32(|samples|), Rows(samples));
  }

  /** Patches, and sees the result as nested boxes. */
  method FinishMoof(initial: seq<byte>, moofStart: nat, trafStart: nat, trunStart: nat, dataOffsetPos: nat,
                    ghost before: seq<byte>, ghost mfhd: seq<byte>, ghost heads: seq<byte>,
                    ghost flags: seq<byte>, ghost count: seq<byte>, ghost rows: seq<byte>)
    returns (fragment: seq<byte>)
    requires |flags| == |count| == 4
    requires initial == Assembled(Pieces(before, mfhd, heads, TRUN + flags + count, rows), ZEROES_8, ZEROES_8, ZEROES_4, ZEROES_4)
    requires moofStart == |before| && trafStart == moofStart + 8 + |mfhd|
    requires trunStart == trafStart + 8 + |heads| && dataOffsetPos == trunStart + 16
    ensures var moofSize := 36 + |mfhd| + |heads| + |rows|;
            var trun := BoxBytes(TRUN, flags + count + Be32(moofSize + 8) + rows);
            fragment == before + BoxBytes(MOOF, mfhd + BoxBytes(TRAF, heads + trun))
  {
    hide Assembled, BoxBytes, Be32;
    fragment := PatchSizes(initial, moofStart, trafStart, trunStart, dataOffsetPos,
                           Pieces(before, mfhd, heads, TRUN + flags + count, rows));
    ghost var trunSize := 20 + |rows|;
    ghost var trafSize := 8 + |heads| + trunSize;
    ghost var moofSize := 8 + |mfhd| + trafSize;
    NestBoxes(before, mfhd, heads, flags, count, Be32(moofSize + 8), rows, moofSize, trafSize, trunSize);
  }

  /** The small boxes are written with a constant size in front. */
  method BuildBox(size: nat, typ: FourCC, a: seq<byte>, b: seq<byte>) returns (r: seq<byte>)
    requires size == 8 + |a| + |b|
    ensures r == BoxBytes(typ, a + b)
  {
    r := Be32(size);
    r := r + typ;
    r := r + a;
    r := r + b;
  }

  method SumOfLengths(samples: seq<Sample>) returns (total: nat)
    ensures total == TotalBytes(samples)
  {
    total := 0;
    for i := 0 to |samples|
      invariant total + TotalBytes(samples[i..]) == TotalBytes(samples)
    {
      assert samples[i..][0] == samples[i] && samples[i..][1..] == samples[i + 1..];
      total := total + |samples[i].bytes|;
    }
  }

  method AppendRows(before: seq<byte>, samples: seq<Sample>) returns (fragment: seq<byte>)
    ensures fragment == before + Rows(samples)
  {
    fragment := before;
    for i := 0 to |samples|
      invariant fragment + Rows(samples[i..]) == before + Rows(samples)
    {
      var s := samples[i];
      assert samples[i..][0] == s && samples[i..][1..] == samples[i + 1..];
      ghost var rest := Rows(samples[i + 1..]);
      assert fragment + (Row(s) + rest) == (fragment + Row(s)) + rest;
      fragment := fragment + Row(s);
    }
    assert fragment + [] == fragment;
  }

  method AppendData(before: seq<byte>, samples: seq<Sample>) returns (fragment: seq<byte>)
    ensures fragment == before + Data(samples)
  {
    fragment := before;
    for i := 0 to |samples|
      invariant fragment + Data(samples[i..]) == before + Data(samples)
    {
      var s := samples[i];
      assert samples[i..][0] == s && samples[i..][1..] == samples[i + 1..];
      ghost var rest := Data(samples[i + 1..]);
      assert fragment + (s.bytes + rest) == (fragment + s.bytes) + rest;
      fragment := fragment + s.bytes;
    }
    assert fragment + [] == fragment;
  }

  /** The parts of the buffer between the placeholders. */
  datatype Pieces = Pieces(before: seq<byte>, mfhd: seq<byte>, heads: seq<byte>, trunHead: seq<byte>, rows: seq<byte>)

  function Assembled(p: Pieces, moof: seq<byte>, traf: seq<byte>, trun: seq<byte>, offset: seq<byte>): (r: seq<byte>)
    ensures |r| == |p.before| + |moof| + |p.mfhd| + |traf| + |p.heads| + |trun| + |p.trunHead| + |offset| + |p.rows|
  {
    p.before + moof + p.mfhd + traf + p.heads + trun + p.trunHead + offset + p.rows
  }

  /** Writes the sizes of trun, traf and moof, and the data offset, at the saved positions. */
  method PatchSizes(initial: seq<byte>, moofStart: nat, trafStart: nat, trunStart: nat, dataOffsetPos: nat, ghost p: Pieces)
    returns (fragment: seq<byte>)
    requires initial == Assembled(p, ZEROES_8, ZEROES_8, ZEROES_4, ZEROES_4)
    requires moofStart == |p.before| && trafStart == moofStart + 8 + |p.mfhd|
    requires trunStart == trafStart + 8 + |p.heads| && dataOffsetPos == trunStart + 4 + |p.trunHead|
    ensures var trun := 8 + |p.trunHead| + |p.rows|;
            var traf := 8 + |p.heads| + trun;
            var moof := 8 + |p.mfhd| + traf;
            fragment == Assembled(p, Be32(moof) + MOOF, Be32(traf) + TRAF, Be32(trun), Be32(moof + 8))
  {
    hide Be32, Patch, Assembled;
    fragment := initial;
    var trunSize := |fragment| - trunStart;
    PatchTrun(p, ZEROES_8, ZEROES_8, ZEROES_4, Be32(trunSize), ZEROES_4);
    fragment := Patch(fragment, trunStart, Be32(trunSize));
    var trafSize := |fragment| - trafStart;
    PatchTraf(p, ZEROES_8, Be32(trafSize), TRAF, Be32(trunSize), ZEROES_4);
    fragment := Patch(fragment, trafStart, Be32(trafSize));
    fragment := Patch(fragment, trafStart + 4, TRAF);
    var moofSize := |fragment| - moofStart;
    PatchMoof(p, Be32(moofSize), MOOF, Be32(trafSize) + TRAF, Be32(trunSize), ZEROES_4);
    fragment := Patch(fragment, moofStart, Be32(moofSize));
    fragment := Patch(fragment, moofStart + 4, MOOF);
    var dataOffsetVal := moofSize + 8;
    PatchOffset(p, Be32(moofSize) + MOOF, Be32(trafSize) + TRAF, Be32(trunSize), ZEROES_4, Be32(dataOffsetVal));
    fragment := Patch(fragment, dataOffsetPos, Be32(dataOffsetVal));
  }

  lemma PatchTrun(p: Pieces, moof: seq<byte>, traf: seq<byte>, x: seq<byte>, v: seq<byte>, offset: seq<byte>)
    requires |x| == |v|
    ensures Patch(Assembled(p, moof, traf, x, offset), |p.before| + |moof| + |p.mfhd| + |traf| + |p.heads|, v)
         == Assembled(p, moof, traf, v, offset)
  {
    var a, b := p.before + moof + p.mfhd + traf + p.heads, p.trunHead + offset + p.rows;
    assert Assembled(p, moof, traf, x, offset) == a + x + b;
    PatchMiddle(a, x, b, v);
    assert Assembled(p, moof, traf, v, offset) == a + v + b;
  }

  lemma PatchTwice(a: seq<byte>, b: seq<byte>, v: seq<byte>, w: seq<byte>)
    requires |v| == |w| == 4
    ensures Patch(Patch(a + ZEROES_8 + b, |a|, v), |a| + 4, w) == a + (v + w) + b
  {
  }

  lemma PatchTraf(p: Pieces, moof: seq<byte>, v: seq<byte>, w: seq<byte>, trun: seq<byte>, offset: seq<byte>)
    requires |v| == |w| == 4
    ensures Patch(Patch(Assembled(p, moof, ZEROES_8, trun, offset), |p.before| + |moof| + |p.mfhd|, v),
                  |p.before| + |moof| + |p.mfhd| + 4, w)
         == Assembled(p, moof, v + w, trun, offset)
  {
    hide Patch;
    var a, b := p.before + moof + p.mfhd, p.heads + trun + p.trunHead + offset + p.rows;
    assert Assembled(p, moof, ZEROES_8, trun, offset) == a + ZEROES_8 + b;
    PatchTwice(a, b, v, w);
    assert Assembled(p, moof, v + w, trun, offset) == a + (v + w) + b;
  }

  lemma PatchMoof(p: Pieces, v: seq<byte>, w: seq<byte>, traf: seq<byte>, trun: seq<byte>, offset: seq<byte>)
    requires |v| == |w| == 4
    ensures Patch(Patch(Assembled(p, ZEROES_8, traf, trun, offset), |p.before|, v), |p.before| + 4, w)
         == Assembled(p, v + w, traf, trun, offset)
  {
    var b := p.mfhd + traf + p.heads + trun + p.trunHead + offset + p.rows;
    assert Assembled(p, ZEROES_8, traf, trun, offset) == p.before + ZEROES_8 + b;
    PatchTwice(p.before, b, v, w);
    assert Assembled(p, v + w, traf, trun, offset) == p.before + (v + w) + b;
  }

  lemma PatchOffset(p: Pieces, moof: seq<byte>, traf: seq<byte>, trun: seq<byte>, x: seq<byte>, v: seq<byte>)
    requires |x| == |v|
    ensures Patch(Assembled(p, moof, traf, trun, x),
                  |p.before| + |moof| + |p.mfhd| + |traf| + |p.heads| + |trun| + |p.trunHead|, v)
         == Assembled(p, moof, traf, trun, v)
  {
    PatchMiddle(p.before + moof + p.mfhd + traf + p.heads + trun + p.trunHead, x, p.rows, v);
  }

  /** With the right sizes patched in, the buffer is the nested boxes. */
  lemma NestBoxes(before: seq<byte>, mfhd: seq<byte>, heads: seq<byte>, flags: seq<byte>, count: seq<byte>,
                  offset: seq<byte>, rows: seq<byte>, moofSize: nat, trafSize: nat, trunSize: nat)
    requires |flags| == |count| == |offset| == 4
    requires trunSize == 20 + |rows| && trafSize == 8 + |heads| + trunSize && moofSize == 8 + |mfhd| + trafSize
    ensures var trun := BoxBytes(TRUN, flags + count + offset + rows);
            var traf := BoxBytes(TRAF, heads + trun);
            Assembled(Pieces(before, mfhd, heads, TRUN + flags + count, rows),
                      Be32(moofSize) + MOOF, Be32(trafSize) + TRAF, Be32(trunSize), offset)
            == before + BoxBytes(MOOF, mfhd + traf)
  {
    var size := Be32(trunSize);
    var trun := size + (TRUN + flags + count) + offset + rows;
    assert trun == BoxBytes(TRUN, flags + count + offset + rows);
    var t := Be32(trafSize) + TRAF;
    var traf := t + (heads + trun);
    var m := Be32(moofSize) + MOOF;
    Regroup9(before, m, mfhd, t, heads, size, TRUN + flags + count, offset, rows);
  }

  lemma Regroup9(a: seq<byte>, b: seq<byte>, c: seq<byte>, d: seq<byte>, e: seq<byte>,
                 f: seq<byte>, g: seq<byte>, h: seq<byte>, i: seq<byte>)
    ensures a + b + c + d + e + f + g + h + i == a + (b + (c + (d + (e + (f + g + h + i)))))
  {
  }
}
