/** The initialisation segment of the fMP4 writer (ftyp, and moov with mvex): the builders at byte
    level, and a reader that takes such a file apart into a tree of boxes (section 4.2 and clauses 8.2
    to 8.8.3 of ISO/IEC 14496-12; section 5.3.3.1 of ISO/IEC 14496-15 for avcC). */
module InitSegment {
  import opened Octets
  import opened Fragment

  // Box types and brands, as the big-endian number of their four characters.
  const FTYP: u32 := 0x6674_7970
  const MOOV: u32 := 0x6D6F_6F76
  const MVHD: u32 := 0x6D76_6864
  const TRAK: u32 := 0x7472_616B
  const TKHD: u32 := 0x746B_6864
  const MDIA: u32 := 0x6D64_6961
  const MDHD: u32 := 0x6D64_6864
  const HDLR: u32 := 0x6864_6C72
  const MINF: u32 := 0x6D69_6E66
  const VMHD: u32 := 0x766D_6864
  const SMHD: u32 := 0x736D_6864
  const DINF: u32 := 0x6469_6E66
  const DREF: u32 := 0x6472_6566
  const URL: u32 := 0x7572_6C20
  const STBL: u32 := 0x7374_626C
  const STSD: u32 := 0x7374_7364
  const STTS: u32 := 0x7374_7473
  const STSC: u32 := 0x7374_7363
  const STSZ: u32 := 0x7374_737A
  const STCO: u32 := 0x7374_636F
  const MVEX: u32 := 0x6D76_6578
  const TREX: u32 := 0x7472_6578
  const AVC1: u32 := 0x6176_6331
  const AVCC: u32 := 0x6176_6343
  const HEV1: u32 := 0x6865_7631
  const HVC1: u32 := 0x6876_6331
  const HVCC: u32 := 0x6876_6343
  const AV01: u32 := 0x6176_3031
  const AV1C: u32 := 0x6176_3143
  const VP09: u32 := 0x7670_3039
  const VP08: u32 := 0x7670_3038
  const VPCC: u32 := 0x7670_6343
  const OPUS: u32 := 0x4F70_7573
  const DOPS: u32 := 0x644F_7073
  const ISOM: u32 := 0x6973_6F6D
  const ISO2: u32 := 0x6973_6F32
  const MP41: u32 := 0x6D70_3431
  const VIDE: u32 := 0x7669_6465
  const SOUN: u32 := 0x736F_756E

  // ---- The reader ----

  datatype Node = Leaf(typ: u32, payload: seq<byte>)
                | Container(typ: u32, head: seq<byte>, children: seq<Node>)

  /** The box types with boxes inside, and how many bytes come before those. */
  function HeadLength(typ: u32): Option<nat> {
    if typ == MOOV || typ == TRAK || typ == MDIA || typ == MINF || typ == STBL || typ == DINF || typ == MVEX then Some(0)
    else if typ == STSD || typ == DREF then Some(8)
    else if typ == AVC1 || typ == HEV1 || typ == AV01 || typ == VP09 || typ == VP08 then Some(78)
    else if typ == OPUS then Some(28)
    else None
  }

  /** Reads a buffer as boxes that tile it, and the contents of each container likewise. */
  function ParseNodes(s: seq<byte>): Option<seq<Node>>
    decreases |s|, 0
  {
    if s == [] then Some([])
    else if |s| < 8 || U32At(s, 0) < 8 || U32At(s, 0) > |s| then None
    else
      var size := U32At(s, 0);
      match (ParseBody(U32At(s, 4), s[8..size]), ParseNodes(s[size..]))
      case (Some(node), Some(rest)) => Some([node] + rest)
      case (_, _) => None
  }

  function ParseBody(typ: u32, body: seq<byte>): Option<Node>
    decreases |body|, 1
  {
    match HeadLength(typ)
    case None => Some(Leaf(typ, body))
    case Some(h) =>
      if |body| < h then None
      else
        match ParseNodes(body[h..])
        case None => None
        case Some(children) => Some(Container(typ, body[..h], children))
  }

  // ---- The builders ----

  function MakeBox(typ: u32, payload: seq<byte>): (r: seq<byte>)
    ensures |r| == 8 + |payload|
  {
    BoxBytes(Be32(typ), payload)
  }

  function Zeroes(n: nat): (r: seq<byte>)
    ensures |r| == n
  {
    seq(n, i => 0)
  }

  datatype TrackKind = Video | Audio

  /** The fields that `build_vpcc` parses out of a VP8 or VP9 codec string, already packed. */
  datatype VpFields = VpFields(profile: byte, level: byte, packed: byte, primaries: byte, transfer: byte, matrix: byte)

  datatype Writer = Writer(timescale: u32, trackId: u32, width: u32, height: u32, channels: u16, sampleRate: u32,
                           kind: TrackKind, codecString: string, codecConfig: seq<seq<byte>>, vp: VpFields)

  function ToLower(s: string): (r: string)
    ensures |r| == |s|
  {
    seq(|s|, k requires 0 <= k < |s| => if 'A' <= s[k] <= 'Z' then ((s[k] as int + 32) as char) else s[k])
  }

  /** The same character, capital or not. */
  ghost predicate SameLetter(c: char, p: char) {
    c == p || (65 <= c as int <= 90 && p as int == c as int + 32)
  }

  /** The codec string starts with these characters, in whatever case. */
  ghost predicate StartsWith(codec: string, prefix: string) {
    |codec| >= |prefix| && forall i :: 0 <= i < |prefix| ==> SameLetter(codec[i], prefix[i])
  }

  lemma StartIsPrefix(codec: string, prefix: string)
    requires forall i :: 0 <= i < |prefix| ==> !('A' <= prefix[i] <= 'Z')
    ensures StartsWith(codec, prefix) <==> prefix <= ToLower(codec)
  {
    var lower := ToLower(codec);
    if StartsWith(codec, prefix) {
      forall i | 0 <= i < |prefix|
        ensures lower[i] == prefix[i]
      {
        assert SameLetter(codec[i], prefix[i]);
      }
    }
  }

  /** Which sample entry a codec string selects. */
  function EntryType(w: Writer): u32 {
    var cs := ToLower(w.codecString);
    if w.kind == Audio then OPUS
    else if "hev1" <= cs || "hvc1" <= cs then HEV1
    else if "av01" <= cs then AV01
    else if "vp09" <= cs then VP09
    else if "vp08" <= cs then VP08
    else AVC1
  }

  /** The codec brand appended to the compatible brands, if any. */
  function Brand(w: Writer): Option<u32> {
    var cs := ToLower(w.codecString);
    if w.kind == Video then
      if "avc" <= cs then Some(AVC1)
      else if "av01" <= cs then Some(AV01)
      else if "hev1" <= cs then Some(HEV1)
      else if "hvc1" <= cs then Some(HVC1)
      else if "vp09" <= cs then Some(VP09)
      else if "vp08" <= cs then Some(VP08)
      else None
    else if cs == "opus" then Some(OPUS)
    else None
  }

  function FtypPayload(w: Writer): seq<byte> {
    Be32(ISOM) + Be32(512) + Be32(ISOM) + Be32(ISO2) + Be32(MP41)
    + match Brand(w) case None => [] case Some(b) => Be32(b)
  }

  function Matrix(): (r: seq<byte>)
    ensures |r| == 36
  {
    Be32(0x0001_0000) + Zeroes(12) + Be32(0x0001_0000) + Zeroes(12) + Be32(0x4000_0000)
  }

  function MvhdPayload(timescale: u32, nextTrackId: nat): (r: seq<byte>)
    ensures |r| == 100
  {
    Be32(0) + Zeroes(8) + Be32(timescale) + Be32(0) + Be32(0x0001_0000) + Be16(0x0100) + Be16(0) + Zeroes(8)
    + Matrix() + Zeroes(24) + Be32(nextTrackId)
  }

  /** Width and height as 16.16 fixed point: `<< 16` on a `u32` drops the high bits. */
  function TkhdPayload(trackId: u32, width: u32, height: u32): (r: seq<byte>)
    ensures |r| == 84
  {
    Be32(7) + Zeroes(8) + Be32(trackId) + Be32(0) + Be32(0) + Zeroes(8) + Zeroes(8)
    + Matrix() + Be32(width * 0x1_0000) + Be32(height * 0x1_0000)
  }

  function MdhdPayload(timescale: u32): (r: seq<byte>)
    ensures |r| == 24
  {
    Be32(0) + Zeroes(8) + Be32(timescale) + Be32(0) + Be16(0) + Be16(0)
  }

  const VIDEO_HANDLER: seq<byte> := [86, 105, 100, 101, 111, 72, 97, 110, 100, 108, 101, 114, 0]
  const SOUND_HANDLER: seq<byte> := [83, 111, 117, 110, 100, 72, 97, 110, 100, 108, 101, 114, 0]

  function HdlrPayload(kind: TrackKind): (r: seq<byte>)
    ensures |r| == 37
  {
    Be32(0) + Be32(0) + Be32(if kind == Video then VIDE else SOUN) + Zeroes(12)
    + if kind == Video then VIDEO_HANDLER else SOUND_HANDLER
  }

  function MediaHeaderPayload(): seq<byte> {
    Be32(1) + Zeroes(8)
  }

  function DrefHead(): (r: seq<byte>)
    ensures |r| == 8
  {
    Be32(0) + Be32(1)
  }

  function VisualHead(w: Writer): (r: seq<byte>)
    ensures |r| == 78
  {
    Zeroes(6) + Be16(1) + Zeroes(16) + Be16(w.width) + Be16(w.height) + Be32(0x0048_0000) + Be32(0x0048_0000)
    + Be32(0) + Be16(1) + Zeroes(32) + Be16(0x18) + Be16(0xFFFF)
  }

  function OpusHead(w: Writer): (r: seq<byte>)
    ensures |r| == 28
  {
    Zeroes(6) + Be16(1) + Zeroes(8) + Be16(w.channels) + Be16(16) + Zeroes(4) + Be32(w.sampleRate * 0x1_0000)
  }

  function DopsPayload(w: Writer): seq<byte> {
    [0, w.channels % 0x100] + Be16(0) + Be32(w.sampleRate) + Be16(0) + [0]
  }

  function VpccPayload(w: Writer): seq<byte> {
    var init := Flatten(w.codecConfig);
    var n := if |init| < 0xFFFF then |init| else 0xFFFF;
    [1, 0, 0, 0, w.vp.profile, w.vp.level, w.vp.packed, w.vp.primaries, w.vp.transfer, w.vp.matrix]
    + Be16(n) + init[..n]
  }

  function FirstBlob(w: Writer): seq<byte> {
    if w.codecConfig == [] then [] else w.codecConfig[0]
  }

  // avcC: one SPS, then the PPS list.

  function PpsEntries(ppss: seq<seq<byte>>): seq<byte> {
    if ppss == [] then [] else Be16(|ppss[0]|) + ppss[0] + PpsEntries(ppss[1..])
  }

  function AvccPayload(blobs: seq<seq<byte>>): seq<byte> {
    if blobs == [] then []
    else
      var sps := blobs[0];
      [1, if |sps| > 1 then sps[1] else 0, if |sps| > 2 then sps[2] else 0, if |sps| > 3 then sps[3] else 0, 0xFF, 0xE1]
      + Be16(|sps|) + sps + [(|blobs| - 1) % 0x100] + PpsEntries(blobs[1..])
  }

  /** Type and payload of the codec configuration box. */
  function ConfigType(entry: u32): u32 {
    if entry == AVC1 then AVCC else if entry == HEV1 then HVCC else if entry == AV01 then AV1C
    else if entry == OPUS then DOPS else VPCC
  }

  function ConfigPayload(w: Writer): seq<byte> {
    var entry := EntryType(w);
    if entry == AVC1 then AvccPayload(w.codecConfig)
    else if entry == HEV1 || entry == AV01 then FirstBlob(w)
    else if entry == OPUS then DopsPayload(w)
    else VpccPayload(w)
  }

  function EntryHead(w: Writer): seq<byte> {
    if w.kind == Video then VisualHead(w) else OpusHead(w)
  }

  function SampleEntry(w: Writer): seq<byte> {
    MakeBox(EntryType(w), EntryHead(w) + MakeBox(ConfigType(EntryType(w)), ConfigPayload(w)))
  }

  function Stbl(w: Writer): (r: seq<byte>)
    ensures |r| == 92 + |SampleEntry(w)|
  {
    MakeBox(STBL, MakeBox(STSD, Be32(0) + Be32(1) + SampleEntry(w))
                  + MakeBox(STTS, Be32(0) + Be32(0)) + MakeBox(STSC, Be32(0) + Be32(0))
                  + MakeBox(STSZ, Be32(0) + Be32(0) + Be32(0)) + MakeBox(STCO, Be32(0) + Be32(0)))
  }

  function Dinf(): (r: seq<byte>)
    ensures |r| == 36
  {
    MakeBox(DINF, MakeBox(DREF, DrefHead() + MakeBox(URL, Be32(1))))
  }

  function Minf(w: Writer): (r: seq<byte>)
    ensures |r| == 64 + |Stbl(w)|
  {
    MakeBox(MINF, MakeBox(if w.kind == Video then VMHD else SMHD, MediaHeaderPayload()) + Dinf() + Stbl(w))
  }

  function Mdia(w: Writer): (r: seq<byte>)
    ensures |r| == 85 + |Minf(w)|
  {
    MakeBox(MDIA, MakeBox(MDHD, MdhdPayload(w.timescale)) + MakeBox(HDLR, HdlrPayload(w.kind)) + Minf(w))
  }

  function Trak(w: Writer): (r: seq<byte>)
    ensures |r| == 100 + |Mdia(w)|
  {
    MakeBox(TRAK, MakeBox(TKHD, TkhdPayload(w.trackId, w.width, w.height)) + Mdia(w))
  }

  /** mvex writes its two sizes as constants. */
  function Mvex(trackId: u32): (r: seq<byte>)
    ensures |r| == 40
  {
    Be32(40) + Be32(MVEX) + (Be32(32) + Be32(TREX) + TrexPayload(trackId))
  }

  function TrexPayload(trackId: u32): (r: seq<byte>)
    ensures |r| == 24
  {
    Be32(0) + Be32(trackId) + Be32(1) + Be32(0) + Be32(0) + Be32(0x0101_0000)
  }

  function Moov(w: Writer): (r: seq<byte>)
    ensures |r| == 156 + |Trak(w)|
  {
    MakeBox(MOOV, MakeBox(MVHD, MvhdPayload(w.timescale, w.trackId + 1)) + Trak(w) + Mvex(w.trackId))
  }

  function InitBytes(w: Writer): seq<byte> {
    MakeBox(FTYP, FtypPayload(w)) + Moov(w)
  }

  // ---- Reading back ----

  lemma BoxFields(typ: u32, payload: seq<byte>, rest: seq<byte>)
    requires 8 + |payload| < 0x1_0000_0000
    ensures var s := MakeBox(typ, payload) + rest;
            && U32At(s, 0) == 8 + |payload| && U32At(s, 4) == typ
            && s[8..8 + |payload|] == payload && s[8 + |payload|..] == rest
  {
    Be32Exact(8 + |payload|);
    Be32Exact(typ);
    TypeAndSize(Be32(8 + |payload|), Be32(typ), payload, rest);
  }

  lemma TypeAndSize(size: seq<byte>, typ: seq<byte>, payload: seq<byte>, rest: seq<byte>)
    requires |size| == |typ| == 4
    ensures var s := size + typ + payload + rest;
            && U32At(s, 0) == U32At(size, 0) && U32At(s, 4) == U32At(typ, 0)
            && s[8..8 + |payload|] == payload && s[8 + |payload|..] == rest
  {
    var s := size + typ + payload + rest;
    assert s[..4] == size && s[4..8] == typ;
    assert U32At(s, 0) == U32At(s[..4], 0) && U32At(s, 4) == U32At(s[4..8], 0);
  }

  /** One box in front of others. */
  lemma ConsParses(typ: u32, payload: seq<byte>, rest: seq<byte>)
    requires 8 + |payload| < 0x1_0000_0000
    ensures ParseNodes(MakeBox(typ, payload) + rest)
         == match (ParseBody(typ, payload), ParseNodes(rest))
            case (Some(node), Some(nodes)) => Some([node] + nodes)
            case (_, _) => None
  {
    BoxFields(typ, payload, rest);
  }

  /** `s` holds exactly this one node. */
  ghost predicate Holds(s: seq<byte>, node: Node) {
    ParseNodes(s) == Some([node])
  }

  lemma LeafParses(typ: u32, payload: seq<byte>)
    requires HeadLength(typ) == None && 8 + |payload| < 0x1_0000_0000
    ensures Holds(MakeBox(typ, payload), Leaf(typ, payload))
  {
    ConsParses(typ, payload, []);
    AloneParses(MakeBox(typ, payload), Leaf(typ, payload));
  }

  lemma AloneParses(b: seq<byte>, node: Node)
    requires ParseNodes(b + []) == Some([node] + [])
    ensures Holds(b, node)
  {
    assert b + [] == b && [node] + [] == [node];
  }

  lemma ContainerParses(typ: u32, head: seq<byte>, body: seq<byte>, children: seq<Node>)
    requires HeadLength(typ) == Some(|head|) && ParseNodes(body) == Some(children)
    requires 8 + |head| + |body| < 0x1_0000_0000
    ensures Holds(MakeBox(typ, head + body), Container(typ, head, children))
  {
    ContainerBody(typ, head, body, children);
    ConsParses(typ, head + body, []);
    AloneParses(MakeBox(typ, head + body), Container(typ, head, children));
  }

  lemma ContainerBody(typ: u32, head: seq<byte>, body: seq<byte>, children: seq<Node>)
    requires HeadLength(typ) == Some(|head|) && ParseNodes(body) == Some(children)
    ensures ParseBody(typ, head + body) == Some(Container(typ, head, children))
  {
    var payload := head + body;
    assert payload[..|head|] == head && payload[|head|..] == body;
  }

  lemma NoNodes()
    ensures ParseNodes([]) == Some([])
  {
  }

  lemma {:induction false} Join(a: seq<byte>, xs: seq<Node>, b: seq<byte>, ys: seq<Node>)
    requires ParseNodes(a) == Some(xs) && ParseNodes(b) == Some(ys)
    ensures ParseNodes(a + b) == Some(xs + ys)
    decreases |a|
  {
    hide ParseNodes, ParseBody, U32At;
    if a == [] {
      NoNodes();
      assert a + b == b && xs + ys == ys;
    } else {
      FirstNode(a, xs);
      var size := U32At(a, 0);
      Join(a[size..], xs[1..], b, ys);
      SameFront(a, b, size);
      Reparse(a + b, size, xs[0], xs[1..] + ys);
      assert [xs[0]] + (xs[1..] + ys) == xs + ys;
    }
  }

  lemma FirstNode(a: seq<byte>, xs: seq<Node>)
    requires a != [] && ParseNodes(a) == Some(xs)
    ensures xs != [] && 8 <= U32At(a, 0) <= |a|
    ensures ParseBody(U32At(a, 4), a[8..U32At(a, 0)]) == Some(xs[0])
    ensures ParseNodes(a[U32At(a, 0)..]) == Some(xs[1..])
  {
  }

  lemma SameFront(a: seq<byte>, b: seq<byte>, size: nat)
    requires 8 <= size <= |a|
    ensures U32At(a + b, 0) == U32At(a, 0) && U32At(a + b, 4) == U32At(a, 4)
    ensures (a + b)[8..size] == a[8..size] && (a + b)[size..] == a[size..] + b
  {
  }

  lemma Reparse(s: seq<byte>, size: nat, node: Node, rest: seq<Node>)
    requires 8 <= size <= |s| && U32At(s, 0) == size
    requires ParseBody(U32At(s, 4), s[8..size]) == Some(node) && ParseNodes(s[size..]) == Some(rest)
    ensures ParseNodes(s) == Some([node] + rest)
  {
  }

  lemma Join3(a: seq<byte>, x: Node, b: seq<byte>, y: Node, c: seq<byte>, z: Node)
    requires Holds(a, x) && Holds(b, y) && Holds(c, z)
    ensures ParseNodes(a + b + c) == Some([x, y, z])
  {
    Join(a, [x], b, [y]);
    Join(a + b, [x] + [y], c, [z]);
    assert [x] + [y] + [z] == [x, y, z];
  }

  lemma Join2(a: seq<byte>, x: Node, b: seq<byte>, y: Node)
    requires Holds(a, x) && Holds(b, y)
    ensures ParseNodes(a + b) == Some([x, y])
  {
    Join(a, [x], b, [y]);
    assert [x] + [y] == [x, y];
  }

  // ---- The expected tree ----

  function EntryNode(w: Writer): Node {
    Container(EntryType(w), EntryHead(w), [Leaf(ConfigType(EntryType(w)), ConfigPayload(w))])
  }

  function StblNode(w: Writer): Node {
    Container(STBL, [], [Container(STSD, DrefHead(), [EntryNode(w)]),
                         Leaf(STTS, Be32(0) + Be32(0)), Leaf(STSC, Be32(0) + Be32(0)),
                         Leaf(STSZ, Be32(0) + Be32(0) + Be32(0)), Leaf(STCO, Be32(0) + Be32(0))])
  }

  function DinfNode(): Node {
    Container(DINF, [], [Container(DREF, DrefHead(), [Leaf(URL, Be32(1))])])
  }

  function MinfNode(w: Writer): Node {
    Container(MINF, [], [Leaf(if w.kind == Video then VMHD else SMHD, MediaHeaderPayload()), DinfNode(), StblNode(w)])
  }

  function MdiaNode(w: Writer): Node {
    Container(MDIA, [], [Leaf(MDHD, MdhdPayload(w.timescale)), Leaf(HDLR, HdlrPayload(w.kind)), MinfNode(w)])
  }

  function TrakNode(w: Writer): Node {
    Container(TRAK, [], [Leaf(TKHD, TkhdPayload(w.trackId, w.width, w.height)), MdiaNode(w)])
  }

  function MvexNode(trackId: u32): Node {
    Container(MVEX, [], [Leaf(TREX, TrexPayload(trackId))])
  }

  function MoovNode(w: Writer): Node {
    Container(MOOV, [], [Leaf(MVHD, MvhdPayload(w.timescale, w.trackId + 1)), TrakNode(w), MvexNode(w.trackId)])
  }

  // ---- Level by level ----

  lemma EntryParses(w: Writer)
    requires |SampleEntry(w)| < 0x1_0000_0000
    ensures Holds(SampleEntry(w), EntryNode(w))
  {
    var ct, cp := ConfigType(EntryType(w)), ConfigPayload(w);
    LeafParses(ct, cp);
    ContainerParses(EntryType(w), EntryHead(w), MakeBox(ct, cp), [Leaf(ct, cp)]);
  }

  lemma StblLayout(entry: seq<byte>, node: Node, flags: seq<byte>, e: seq<byte>, z: seq<byte>)
    requires Holds(entry, node) && |flags| == 8 && |e| == 8 && |z| == 12 && |entry| + 92 < 0x1_0000_0000
    ensures Holds(MakeBox(STBL, MakeBox(STSD, flags + entry) + MakeBox(STTS, e) + MakeBox(STSC, e) + MakeBox(STSZ, z) + MakeBox(STCO, e)),
                  Container(STBL, [], [Container(STSD, flags, [node]), Leaf(STTS, e), Leaf(STSC, e), Leaf(STSZ, z), Leaf(STCO, e)]))
  {
    hide MakeBox, ParseNodes;
    ContainerParses(STSD, flags, entry, [node]);
    LeafParses(STTS, e);
    LeafParses(STSC, e);
    LeafParses(STSZ, z);
    LeafParses(STCO, e);
    var stsd, n := MakeBox(STSD, flags + entry), Container(STSD, flags, [node]);
    var first := stsd + MakeBox(STTS, e) + MakeBox(STSC, e);
    Join3(stsd, n, MakeBox(STTS, e), Leaf(STTS, e), MakeBox(STSC, e), Leaf(STSC, e));
    var four := [n, Leaf(STTS, e), Leaf(STSC, e)] + [Leaf(STSZ, z)];
    Join(first, [n, Leaf(STTS, e), Leaf(STSC, e)], MakeBox(STSZ, z), [Leaf(STSZ, z)]);
    Join(first + MakeBox(STSZ, z), four, MakeBox(STCO, e), [Leaf(STCO, e)]);
    assert four + [Leaf(STCO, e)] == [n, Leaf(STTS, e), Leaf(STSC, e), Leaf(STSZ, z), Leaf(STCO, e)];
    var body := first + MakeBox(STSZ, z) + MakeBox(STCO, e);
    assert [] + body == body;
    ContainerParses(STBL, [], body, four + [Leaf(STCO, e)]);
  }

  /** A plain container of two or three boxes. */
  lemma Plain2(typ: u32, a: seq<byte>, x: Node, b: seq<byte>, y: Node)
    requires HeadLength(typ) == Some(0) && Holds(a, x) && Holds(b, y) && 8 + |a| + |b| < 0x1_0000_0000
    ensures Holds(MakeBox(typ, a + b), Container(typ, [], [x, y]))
  {
    Join2(a, x, b, y);
    assert [] + (a + b) == a + b;
    ContainerParses(typ, [], a + b, [x, y]);
  }

  lemma Plain3(typ: u32, a: seq<byte>, x: Node, b: seq<byte>, y: Node, c: seq<byte>, z: Node)
    requires HeadLength(typ) == Some(0) && Holds(a, x) && Holds(b, y) && Holds(c, z)
    requires 8 + |a| + |b| + |c| < 0x1_0000_0000
    ensures Holds(MakeBox(typ, a + b + c), Container(typ, [], [x, y, z]))
  {
    Join3(a, x, b, y, c, z);
    assert [] + (a + b + c) == a + b + c;
    ContainerParses(typ, [], a + b + c, [x, y, z]);
  }

  lemma DinfParses()
    ensures Holds(Dinf(), DinfNode())
  {
    LeafParses(URL, Be32(1));
    ContainerParses(DREF, DrefHead(), MakeBox(URL, Be32(1)), [Leaf(URL, Be32(1))]);
    var dref := MakeBox(DREF, DrefHead() + MakeBox(URL, Be32(1)));
    assert [] + dref == dref;
    ContainerParses(DINF, [], dref, [Container(DREF, DrefHead(), [Leaf(URL, Be32(1))])]);
  }

  lemma StblParses(w: Writer)
    requires |Stbl(w)| < 0x1_0000_0000
    ensures Holds(Stbl(w), StblNode(w))
  {
    EntryParses(w);
    StblLayout(SampleEntry(w), EntryNode(w), Be32(0) + Be32(1), Be32(0) + Be32(0), Be32(0) + Be32(0) + Be32(0));
  }

  lemma MinfParses(w: Writer)
    requires |Minf(w)| < 0x1_0000_0000
    ensures Holds(Minf(w), MinfNode(w))
  {
    var header := if w.kind == Video then VMHD else SMHD;
    LeafParses(header, MediaHeaderPayload());
    DinfParses();
    StblParses(w);
    Plain3(MINF, MakeBox(header, MediaHeaderPayload()), Leaf(header, MediaHeaderPayload()), Dinf(), DinfNode(), Stbl(w), StblNode(w));
  }

  lemma MdiaParses(w: Writer)
    requires |Mdia(w)| < 0x1_0000_0000
    ensures Holds(Mdia(w), MdiaNode(w))
  {
    var mdhd, hdlr := MdhdPayload(w.timescale), HdlrPayload(w.kind);
    LeafParses(MDHD, mdhd);
    LeafParses(HDLR, hdlr);
    MinfParses(w);
    Plain3(MDIA, MakeBox(MDHD, mdhd), Leaf(MDHD, mdhd), MakeBox(HDLR, hdlr), Leaf(HDLR, hdlr), Minf(w), MinfNode(w));
  }

  lemma TrakParses(w: Writer)
    requires |Trak(w)| < 0x1_0000_0000
    ensures Holds(Trak(w), TrakNode(w))
  {
    var tkhd := TkhdPayload(w.trackId, w.width, w.height);
    LeafParses(TKHD, tkhd);
    MdiaParses(w);
    Plain2(TRAK, MakeBox(TKHD, tkhd), Leaf(TKHD, tkhd), Mdia(w), MdiaNode(w));
  }

  lemma MvexParses(trackId: u32)
    ensures Holds(Mvex(trackId), MvexNode(trackId))
  {
    var p := TrexPayload(trackId);
    var trex := MakeBox(TREX, p);
    assert Mvex(trackId) == MakeBox(MVEX, [] + trex);
    LeafParses(TREX, p);
    ContainerParses(MVEX, [], trex, [Leaf(TREX, p)]);
  }

  lemma MoovParses(w: Writer)
    requires |Moov(w)| < 0x1_0000_0000
    ensures Holds(Moov(w), MoovNode(w))
  {
    hide MakeBox, MvhdPayload, TrexPayload, TkhdPayload, MdhdPayload, HdlrPayload, EntryHead, ConfigPayload;
    var mvhd := MvhdPayload(w.timescale, w.trackId + 1);
    LeafParses(MVHD, mvhd);
    TrakParses(w);
    MvexParses(w.trackId);
    Plain3(MOOV, MakeBox(MVHD, mvhd), Leaf(MVHD, mvhd), Trak(w), TrakNode(w), Mvex(w.trackId), MvexNode(w.trackId));
  }

  /** For every track kind and every codec branch, the initialisation segment is a well-formed box
      tree: every size field is the box's length, children tile each container, and reading the file
      gives the expected tree, as long as the file fits a 32-bit size. */
  lemma InitSegmentReadsBack(w: Writer)
    requires |InitBytes(w)| < 0x1_0000_0000
    ensures ParseNodes(InitBytes(w)) == Some([Leaf(FTYP, FtypPayload(w)), MoovNode(w)])
  {
    LeafParses(FTYP, FtypPayload(w));
    MoovParses(w);
    Join2(MakeBox(FTYP, FtypPayload(w)), Leaf(FTYP, FtypPayload(w)), Moov(w), MoovNode(w));
  }

  // ---- avcC ----

  function ParsePps(s: seq<byte>, count: nat): Option<seq<seq<byte>>>
  {
    if count == 0 then (if s == [] then Some([]) else None)
    else if |s| < 2 || |s| < 2 + U16At(s, 0) then None
    else
      var n := U16At(s, 0);
      match ParsePps(s[2 + n..], count - 1)
      case None => None
      case Some(rest) => Some([s[2..2 + n]] + rest)
  }

  /** The SPS and the PPS list of an avcC with four-byte lengths and one SPS. */
  function ParseAvcc(s: seq<byte>): Option<seq<seq<byte>>> {
    if |s| < 8 || s[0] != 1 || s[4] != 0xFF || s[5] != 0xE1 || |s| < 9 + U16At(s, 6) then None
    else
      var n := U16At(s, 6);
      match ParsePps(s[9 + n..], s[8 + n])
      case None => None
      case Some(ppss) => Some([s[8..8 + n]] + ppss)
  }

  ghost predicate Short(bs: seq<seq<byte>>) {
    forall k :: 0 <= k < |bs| ==> |bs[k]| < 0x1_0000
  }

  lemma {:induction false} PpsReadBack(ppss: seq<seq<byte>>)
    requires Short(ppss)
    ensures ParsePps(PpsEntries(ppss), |ppss|) == Some(ppss)
  {
    if ppss != [] {
      PpsReadBack(ppss[1..]);
      LengthPrefixed(ppss[0], PpsEntries(ppss[1..]));
      assert ppss == [ppss[0]] + ppss[1..];
    }
  }

  lemma LengthPrefixed(x: seq<byte>, rest: seq<byte>)
    requires |x| < 0x1_0000
    ensures var s := Be16(|x|) + x + rest;
            U16At(s, 0) == |x| && s[2..2 + |x|] == x && s[2 + |x|..] == rest
  {
    Be16RoundTrip(|x|);
    var s := Be16(|x|) + x + rest;
    assert s[0] == Be16(|x|)[0] && s[1] == Be16(|x|)[1];
  }

  /** Whatever is read has lengths of 16 bits and fewer than 256 PPSs. */
  lemma {:induction false} PpsAreShort(s: seq<byte>, count: nat)
    ensures ParsePps(s, count).Some? ==> Short(ParsePps(s, count).value) && |ParsePps(s, count).value| == count
  {
    if count > 0 && |s| >= 2 && |s| >= 2 + U16At(s, 0) {
      PpsAreShort(s[2 + U16At(s, 0)..], count - 1);
    }
  }

  lemma LengthBehind(head: seq<byte>, t: seq<byte>)
    requires |t| >= 2
    ensures U16At(head + t, |head|) == U16At(t, 0)
  {
  }

  lemma AvccFields(head: seq<byte>, sps: seq<byte>, count: byte, entries: seq<byte>)
    requires |head| == 6 && head[0] == 1 && head[4] == 0xFF && head[5] == 0xE1 && |sps| < 0x1_0000
    ensures ParseAvcc(head + Be16(|sps|) + sps + [count] + entries)
         == match ParsePps(entries, count) case None => None case Some(ppss) => Some([sps] + ppss)
  {
    var s := head + Be16(|sps|) + sps + [count] + entries;
    hide ParsePps, Be16, U16At;
    LengthPrefixed(sps, [count] + entries);
    var t := Be16(|sps|) + sps + ([count] + entries);
    assert s == head + t;
    assert s[6..] == t;
    assert U16At(s, 6) == U16At(t, 0) by {
      LengthBehind(head, t);
    }
    assert s[8..8 + |sps|] == sps && s[8 + |sps|] == count && s[9 + |sps|..] == entries;
  }

  /** The configuration record returns the SPS and the PPS list exactly when their lengths fit 16 bits
      and the PPS count fits 8; otherwise a field was truncated and something else is read. */
  lemma AvccReadsBack(blobs: seq<seq<byte>>)
    requires blobs != []
    ensures ParseAvcc(AvccPayload(blobs)) == Some(blobs) <==> Short(blobs) && |blobs| <= 256
  {
    var sps, ppss := blobs[0], blobs[1..];
    assert blobs == [sps] + ppss;
    if Short(blobs) && |blobs| <= 256 {
      var head: seq<byte> := AvccPayload(blobs)[..6];
      assert AvccPayload(blobs) == head + Be16(|sps|) + sps + [|ppss|] + PpsEntries(ppss);
      AvccFields(head, sps, |ppss|, PpsEntries(ppss));
      PpsReadBack(ppss);
    } else {
      AvccIsShort(AvccPayload(blobs));
    }
  }

  lemma AvccIsShort(s: seq<byte>)
    ensures ParseAvcc(s).Some? ==> Short(ParseAvcc(s).value) && |ParseAvcc(s).value| <= 256
  {
    if ParseAvcc(s).Some? {
      var n := U16At(s, 6);
      PpsAreShort(s[9 + n..], s[8 + n]);
    }
  }

  /** What a player reads from the fixed positions of the leaves: time scale, track id, picture size
      (the low 16 bits of each) and the default track of mvex. */
  lemma HeaderFieldsReadBack(w: Writer)
    ensures U32At(MvhdPayload(w.timescale, w.trackId + 1), 12) == U32At(MdhdPayload(w.timescale), 12) == w.timescale
    ensures U32At(MvhdPayload(w.timescale, w.trackId + 1), 96) == (w.trackId + 1) % 0x1_0000_0000
    ensures U32At(TkhdPayload(w.trackId, w.width, w.height), 12) == U32At(TrexPayload(w.trackId), 4) == w.trackId
    ensures U32At(TkhdPayload(w.trackId, w.width, w.height), 76) == w.width % 0x1_0000 * 0x1_0000
    ensures U32At(TkhdPayload(w.trackId, w.width, w.height), 80) == w.height % 0x1_0000 * 0x1_0000
  {
    Be32Exact(w.timescale);
    Be32Exact(w.trackId);
    Be32RoundTrip(w.trackId + 1);
    ShiftedSize(w.width);
    ShiftedSize(w.height);
    hide Be32, U32At;
    var mvhd, mdhd := MvhdPayload(w.timescale, w.trackId + 1), MdhdPayload(w.timescale);
    var tkhd, trex := TkhdPayload(w.trackId, w.width, w.height), TrexPayload(w.trackId);
    assert mvhd[12..16] == Be32(w.timescale) && mvhd[96..100] == Be32(w.trackId + 1);
    assert mdhd[12..16] == Be32(w.timescale);
    assert tkhd[12..16] == Be32(w.trackId) && trex[4..8] == Be32(w.trackId);
    assert tkhd[76..80] == Be32(w.width * 0x1_0000) && tkhd[80..84] == Be32(w.height * 0x1_0000);
    FieldSlice(mvhd, 12);
    FieldSlice(mvhd, 96);
    FieldSlice(mdhd, 12);
    FieldSlice(tkhd, 12);
    FieldSlice(trex, 4);
    FieldSlice(tkhd, 76);
    FieldSlice(tkhd, 80);
  }

  lemma FieldSlice(s: seq<byte>, at: nat)
    requires at + 4 <= |s|
    ensures U32At(s, at) == U32At(s[at..at + 4], 0)
  {
  }

  lemma HighHalf(n: nat)
    ensures n * 0x1_0000 % 0x1_0000_0000 == n % 0x1_0000 * 0x1_0000
  {
    var q, r := n / 0x1_0000, n % 0x1_0000;
    Rem32(n * 0x1_0000, q, r * 0x1_0000);
  }

  lemma ShiftedSize(n: u32)
    ensures U32At(Be32(n * 0x1_0000), 0) == n % 0x1_0000 * 0x1_0000
  {
    hide Be32, U32At;
    Be32RoundTrip(n * 0x1_0000);
    HighHalf(n);
  }
}
