/** The initialisation segment as a player meets it: box names and fields at their positions in the
    file, said in characters and numbers and without the functions that build it. */
module InitSegmentBytes {
  import opened Octets
  import opened InitSegment

  // ---- Positions ----

  /** `b` stands in `s` at `o`. */
  ghost predicate At(s: seq<byte>, o: nat, b: seq<byte>) {
    o + |b| <= |s| && s[o..o + |b|] == b
  }

  /** A box of this size and name starts at `o`. */
  ghost predicate HasBox(s: seq<byte>, o: nat, name: string, size: nat) {
    8 <= size && o + size <= |s| && U32At(s, o) == size && Spells(s[o + 4..o + 8], name)
  }

  lemma AtStart(s: seq<byte>)
    ensures At(s, 0, s)
  {
    assert s[..|s|] == s;
  }

  lemma AtIn(s: seq<byte>, o: nat, b: seq<byte>, i: nat, c: seq<byte>)
    requires At(s, o, b) && At(b, i, c)
    ensures At(s, o + i, c)
  {
    forall k | 0 <= k < |c|
      ensures s[o + i + k] == c[k]
    {
      assert b[i..i + |c|][k] == b[i + k] && s[o..o + |b|][i + k] == s[o + i + k];
    }
  }

  lemma Parts(s: seq<byte>, o: nat, a: seq<byte>, b: seq<byte>)
    requires At(s, o, a + b)
    ensures At(s, o, a) && At(s, o + |a|, b)
  {
    assert (a + b)[..|a|] == a && (a + b)[|a|..] == b;
    AtIn(s, o, a + b, 0, a);
    AtIn(s, o, a + b, |a|, b);
  }

  lemma Parts3(s: seq<byte>, o: nat, a: seq<byte>, b: seq<byte>, c: seq<byte>)
    requires At(s, o, a + b + c)
    ensures At(s, o, a) && At(s, o + |a|, b) && At(s, o + |a| + |b|, c)
  {
    hide At;
    Parts(s, o, a + b, c);
    Parts(s, o, a, b);
  }

  lemma Parts5(s: seq<byte>, o: nat, a: seq<byte>, b: seq<byte>, c: seq<byte>, d: seq<byte>, e: seq<byte>)
    requires At(s, o, a + b + c + d + e)
    ensures At(s, o, a) && At(s, o + |a|, b) && At(s, o + |a| + |b|, c)
    ensures At(s, o + |a| + |b| + |c|, d) && At(s, o + |a| + |b| + |c| + |d|, e)
  {
    hide At;
    Parts3(s, o, a + b + c, d, e);
    Parts3(s, o, a, b, c);
  }

  lemma WordAt(s: seq<byte>, o: nat, b: seq<byte>, i: nat)
    requires At(s, o, b) && i + 4 <= |b|
    ensures U32At(s, o + i) == U32At(b, i)
  {
    assert s[o..o + |b|][i] == s[o + i] && s[o..o + |b|][i + 1] == s[o + i + 1];
    assert s[o..o + |b|][i + 2] == s[o + i + 2] && s[o..o + |b|][i + 3] == s[o + i + 3];
  }

  lemma HalfWordAt(s: seq<byte>, o: nat, n: nat)
    requires At(s, o, Be16(n))
    ensures U16At(s, o) == n % 0x1_0000
  {
    Be16RoundTrip(n);
    assert s[o..o + 2][0] == s[o] && s[o..o + 2][1] == s[o + 1];
  }

  lemma WholeWordAt(s: seq<byte>, o: nat, n: nat)
    requires At(s, o, Be32(n))
    ensures U32At(s, o) == n % 0x1_0000_0000
  {
    Be32RoundTrip(n);
    WordAt(s, o, Be32(n), 0);
  }

  lemma BoxAt(s: seq<byte>, o: nat, typ: u32, payload: seq<byte>, name: string)
    requires At(s, o, MakeBox(typ, payload)) && Spells(Be32(typ), name) && |s| < 0x1_0000_0000
    ensures HasBox(s, o, name, 8 + |payload|) && At(s, o + 8, payload)
  {
    hide At, U32At, Be32, Spells;
    Parts3(s, o, Be32(8 + |payload|), Be32(typ), payload);
    Slice(s, o, MakeBox(typ, payload));
    WholeWordAt(s, o, 8 + |payload|);
    Slice(s, o + 4, Be32(typ));
  }

  lemma Slice(s: seq<byte>, o: nat, b: seq<byte>)
    requires At(s, o, b)
    ensures o + |b| <= |s| && s[o..o + |b|] == b
  {
  }

  // ---- Names ----

  lemma Spelled(n: u32, name: string)
    requires |name| == 4 && forall i :: 0 <= i < 4 ==> name[i] as int < 256
    requires n == name[0] as int * 0x100_0000 + name[1] as int * 0x1_0000 + name[2] as int * 0x100 + name[3] as int
    ensures Spells(Be32(n), name)
  {
    FourDigits(n, name[0] as int, name[1] as int, name[2] as int, name[3] as int);
  }

  lemma FourDigits(n: nat, a: byte, b: byte, c: byte, d: byte)
    requires n == a as int * 0x100_0000 + b as int * 0x1_0000 + c as int * 0x100 + d
    ensures n / 0x100_0000 % 0x100 == a && n / 0x1_0000 % 0x100 == b && n / 0x100 % 0x100 == c && n % 0x100 == d
  {
    var high := a as int * 0x100 + b;
    var three := high * 0x100 + c;
    assert n / 0x100 == three && n % 0x100 == d;
    assert n / 0x1_0000 == high && three % 0x100 == c;
    assert n / 0x100_0000 == a && high % 0x100 == b;
  }

  lemma TopNames()
    ensures Spells(Be32(FTYP), "ftyp") && Spells(Be32(MOOV), "moov") && Spells(Be32(MVHD), "mvhd")
    ensures Spells(Be32(TRAK), "trak") && Spells(Be32(TKHD), "tkhd") && Spells(Be32(MDIA), "mdia")
    ensures Spells(Be32(MVEX), "mvex") && Spells(Be32(TREX), "trex")
  {
    hide Spells, Be32;
    Spelled(FTYP, "ftyp");
    Spelled(MOOV, "moov");
    Spelled(MVHD, "mvhd");
    Spelled(TRAK, "trak");
    Spelled(TKHD, "tkhd");
    Spelled(MDIA, "mdia");
    Spelled(MVEX, "mvex");
    Spelled(TREX, "trex");
  }

  lemma MediaNames()
    ensures Spells(Be32(MDHD), "mdhd") && Spells(Be32(HDLR), "hdlr") && Spells(Be32(MINF), "minf")
    ensures Spells(Be32(VMHD), "vmhd") && Spells(Be32(SMHD), "smhd") && Spells(Be32(STBL), "stbl")
  {
    hide Spells, Be32;
    Spelled(MDHD, "mdhd");
    Spelled(HDLR, "hdlr");
    Spelled(MINF, "minf");
    Spelled(VMHD, "vmhd");
    Spelled(SMHD, "smhd");
    Spelled(STBL, "stbl");
  }

  lemma ReferenceNames()
    ensures Spells(Be32(DINF), "dinf") && Spells(Be32(DREF), "dref") && Spells(Be32(URL), "url ")
    ensures Spells(Be32(VIDE), "vide") && Spells(Be32(SOUN), "soun")
  {
    hide Spells, Be32;
    Spelled(DINF, "dinf");
    Spelled(DREF, "dref");
    Spelled(URL, "url ");
    Spelled(VIDE, "vide");
    Spelled(SOUN, "soun");
  }

  lemma TableNames()
    ensures Spells(Be32(STSD), "stsd") && Spells(Be32(STTS), "stts") && Spells(Be32(STSC), "stsc")
    ensures Spells(Be32(STSZ), "stsz") && Spells(Be32(STCO), "stco")
  {
    hide Spells, Be32;
    Spelled(STSD, "stsd");
    Spelled(STTS, "stts");
    Spelled(STSC, "stsc");
    Spelled(STSZ, "stsz");
    Spelled(STCO, "stco");
  }

  lemma EntryNames()
    ensures Spells(Be32(AVC1), "avc1") && Spells(Be32(HEV1), "hev1") && Spells(Be32(HVC1), "hvc1") && Spells(Be32(AV01), "av01")
    ensures Spells(Be32(VP09), "vp09") && Spells(Be32(VP08), "vp08") && Spells(Be32(OPUS), "Opus")
  {
    hide Spells, Be32;
    Spelled(AVC1, "avc1");
    Spelled(HEV1, "hev1");
    Spelled(HVC1, "hvc1");
    Spelled(AV01, "av01");
    Spelled(VP09, "vp09");
    Spelled(VP08, "vp08");
    Spelled(OPUS, "Opus");
  }

  lemma ConfigNames()
    ensures Spells(Be32(AVCC), "avcC") && Spells(Be32(HVCC), "hvcC") && Spells(Be32(AV1C), "av1C")
    ensures Spells(Be32(VPCC), "vpcC") && Spells(Be32(DOPS), "dOps")
  {
    hide Spells, Be32;
    Spelled(AVCC, "avcC");
    Spelled(HVCC, "hvcC");
    Spelled(AV1C, "av1C");
    Spelled(VPCC, "vpcC");
    Spelled(DOPS, "dOps");
  }

  lemma BrandNames()
    ensures Spells(Be32(ISOM), "isom") && Spells(Be32(ISO2), "iso2") && Spells(Be32(MP41), "mp41")
  {
    hide Spells, Be32;
    Spelled(ISOM, "isom");
    Spelled(ISO2, "iso2");
    Spelled(MP41, "mp41");
  }

  // ---- The parts of moov ----

  lemma MoovParts(w: Writer)
    requires |Moov(w)| < 0x1_0000_0000
    ensures var m := Moov(w);
            && HasBox(m, 0, "moov", |m|) && HasBox(m, 8, "mvhd", 108)
            && At(m, 16, MvhdPayload(w.timescale, w.trackId + 1))
            && At(m, 116, Trak(w)) && At(m, 116 + |Trak(w)|, Mvex(w.trackId))
  {
    hide Trak, Mvex, MvhdPayload, Spells, HasBox, Be32;
    var m := Moov(w);
    TopNames();
    var payload := MvhdPayload(w.timescale, w.trackId + 1);
    var mvhd := MakeBox(MVHD, payload);
    hide At, MakeBox;
    AtStart(m);
    BoxAt(m, 0, MOOV, mvhd + Trak(w) + Mvex(w.trackId), "moov");
    Parts3(m, 8, mvhd, Trak(w), Mvex(w.trackId));
    BoxAt(m, 8, MVHD, payload, "mvhd");
  }

  lemma TrakParts(m: seq<byte>, w: Writer)
    requires At(m, 116, Trak(w)) && |m| < 0x1_0000_0000
    ensures HasBox(m, 116, "trak", |Trak(w)|) && HasBox(m, 124, "tkhd", 92)
    ensures At(m, 132, TkhdPayload(w.trackId, w.width, w.height)) && At(m, 216, Mdia(w))
  {
    hide At, Mdia, TkhdPayload, Spells, HasBox, Be32, MakeBox;
    TopNames();
    var payload := TkhdPayload(w.trackId, w.width, w.height);
    BoxAt(m, 116, TRAK, MakeBox(TKHD, payload) + Mdia(w), "trak");
    Parts(m, 124, MakeBox(TKHD, payload), Mdia(w));
    BoxAt(m, 124, TKHD, payload, "tkhd");
  }

  lemma MdiaParts(m: seq<byte>, w: Writer)
    requires At(m, 216, Mdia(w)) && |m| < 0x1_0000_0000
    ensures HasBox(m, 216, "mdia", |Mdia(w)|) && HasBox(m, 224, "mdhd", 32) && HasBox(m, 256, "hdlr", 45)
    ensures At(m, 232, MdhdPayload(w.timescale)) && At(m, 264, HdlrPayload(w.kind)) && At(m, 301, Minf(w))
  {
    hide At, Minf, MdhdPayload, HdlrPayload, Spells, HasBox, Be32, MakeBox;
    TopNames();
    MediaNames();
    var mdhd, hdlr := MdhdPayload(w.timescale), HdlrPayload(w.kind);
    BoxAt(m, 216, MDIA, MakeBox(MDHD, mdhd) + MakeBox(HDLR, hdlr) + Minf(w), "mdia");
    Parts3(m, 224, MakeBox(MDHD, mdhd), MakeBox(HDLR, hdlr), Minf(w));
    BoxAt(m, 224, MDHD, mdhd, "mdhd");
    BoxAt(m, 256, HDLR, hdlr, "hdlr");
  }

  lemma MinfParts(m: seq<byte>, w: Writer)
    requires At(m, 301, Minf(w)) && |m| < 0x1_0000_0000
    ensures HasBox(m, 301, "minf", |Minf(w)|) && HasBox(m, 309, if w.kind == Video then "vmhd" else "smhd", 20)
    ensures At(m, 317, MediaHeaderPayload()) && At(m, 329, Dinf()) && At(m, 365, Stbl(w))
  {
    hide At, Stbl, Spells, HasBox, Be32, MakeBox;
    MediaNames();
    var header := if w.kind == Video then VMHD else SMHD;
    var payload := MediaHeaderPayload();
    BoxAt(m, 301, MINF, MakeBox(header, payload) + Dinf() + Stbl(w), "minf");
    Parts3(m, 309, MakeBox(header, payload), Dinf(), Stbl(w));
    BoxAt(m, 309, header, payload, if w.kind == Video then "vmhd" else "smhd");
  }

  lemma DinfParts(m: seq<byte>)
    requires At(m, 329, Dinf()) && |m| < 0x1_0000_0000
    ensures HasBox(m, 329, "dinf", 36) && HasBox(m, 337, "dref", 28) && HasBox(m, 353, "url ", 12)
    ensures At(m, 345, DrefHead()) && At(m, 361, Be32(1))
  {
    hide At, DrefHead, Spells, HasBox, Be32, MakeBox;
    ReferenceNames();
    var url := MakeBox(URL, Be32(1));
    BoxAt(m, 329, DINF, MakeBox(DREF, DrefHead() + url), "dinf");
    BoxAt(m, 337, DREF, DrefHead() + url, "dref");
    Parts(m, 345, DrefHead(), url);
    BoxAt(m, 353, URL, Be32(1), "url ");
  }

  lemma StblParts(m: seq<byte>, w: Writer)
    requires At(m, 365, Stbl(w)) && |m| < 0x1_0000_0000
    ensures var e := 389 + |SampleEntry(w)|;
            && HasBox(m, 365, "stbl", |Stbl(w)|) && HasBox(m, 373, "stsd", 16 + |SampleEntry(w)|)
            && At(m, 381, Be32(0)) && At(m, 385, Be32(1)) && At(m, 389, SampleEntry(w))
            && HasBox(m, e, "stts", 16) && HasBox(m, e + 16, "stsc", 16) && HasBox(m, e + 32, "stsz", 20) && HasBox(m, e + 52, "stco", 16)
  {
    hide At, SampleEntry, Spells, HasBox, Be32, MakeBox;
    MediaNames();
    TableNames();
    var entry, empty, stsz := SampleEntry(w), Be32(0) + Be32(0), Be32(0) + Be32(0) + Be32(0);
    var stsd := Be32(0) + Be32(1) + entry;
    var e := 389 + |entry|;
    BoxAt(m, 365, STBL, MakeBox(STSD, stsd) + MakeBox(STTS, empty) + MakeBox(STSC, empty) + MakeBox(STSZ, stsz) + MakeBox(STCO, empty), "stbl");
    Parts5(m, 373, MakeBox(STSD, stsd), MakeBox(STTS, empty), MakeBox(STSC, empty), MakeBox(STSZ, stsz), MakeBox(STCO, empty));
    BoxAt(m, 373, STSD, stsd, "stsd");
    Parts3(m, 381, Be32(0), Be32(1), entry);
    BoxAt(m, e, STTS, empty, "stts");
    BoxAt(m, e + 16, STSC, empty, "stsc");
    BoxAt(m, e + 32, STSZ, stsz, "stsz");
    BoxAt(m, e + 52, STCO, empty, "stco");
  }

  lemma MvexParts(m: seq<byte>, o: nat, trackId: u32)
    requires At(m, o, Mvex(trackId)) && |m| < 0x1_0000_0000
    ensures HasBox(m, o, "mvex", 40) && HasBox(m, o + 8, "trex", 32) && At(m, o + 16, TrexPayload(trackId))
  {
    var trex := MakeBox(TREX, TrexPayload(trackId));
    assert Mvex(trackId) == MakeBox(MVEX, trex);
    hide At, TrexPayload, Mvex, Spells, HasBox, Be32, MakeBox;
    TopNames();
    BoxAt(m, o, MVEX, trex, "mvex");
    BoxAt(m, o + 8, TREX, TrexPayload(trackId), "trex");
  }

  // ---- The file ----

  /** The file is ftyp, of 28 or 32 bytes, and moov behind it. */
  lemma FileParts(w: Writer)
    requires |InitBytes(w)| < 0x1_0000_0000
    ensures var file := InitBytes(w);
            && HasBox(file, 0, "ftyp", 8 + |FtypPayload(w)|) && At(file, 8, FtypPayload(w))
            && file[U32At(file, 0)..] == Moov(w)
  {
    var file, ftyp := InitBytes(w), MakeBox(FTYP, FtypPayload(w));
    TopNames();
    assert file == ftyp + Moov(w);
    assert At(file, 0, ftyp) by {
      assert file[..|ftyp|] == ftyp;
    }
    BoxAt(file, 0, FTYP, FtypPayload(w), "ftyp");
    assert file[|ftyp|..] == Moov(w);
  }

  /** The boxes before the sample entry of a moov box, which are where they are whatever the track. */
  ghost predicate FixedBoxes(m: seq<byte>, kind: TrackKind)
    requires |m| >= 481
  {
    && HasBox(m, 0, "moov", |m|)
    && HasBox(m, 8, "mvhd", 108)
    && HasBox(m, 116, "trak", |m| - 156)
    && HasBox(m, 124, "tkhd", 92)
    && HasBox(m, 216, "mdia", |m| - 256)
    && HasBox(m, 224, "mdhd", 32)
    && HasBox(m, 256, "hdlr", 45)
    && HasBox(m, 301, "minf", |m| - 341)
    && HasBox(m, 309, if kind == Video then "vmhd" else "smhd", 20)
    && HasBox(m, 329, "dinf", 36)
    && HasBox(m, 337, "dref", 28)
    && HasBox(m, 353, "url ", 12)
    && HasBox(m, 365, "stbl", |m| - 405)
    && HasBox(m, 373, "stsd", |m| - 481)
  }

  /** Those behind it: the empty sample tables and the defaults for fragments. */
  ghost predicate TrailingBoxes(m: seq<byte>)
    requires |m| >= 481
  {
    && HasBox(m, |m| - 108, "stts", 16)
    && HasBox(m, |m| - 92, "stsc", 16)
    && HasBox(m, |m| - 76, "stsz", 20)
    && HasBox(m, |m| - 56, "stco", 16)
    && HasBox(m, |m| - 40, "mvex", 40)
    && HasBox(m, |m| - 32, "trex", 32)
  }

  /** The file is an ftyp box and, behind it, the moov box `m`. */
  ghost predicate Behind(file: seq<byte>, m: seq<byte>) {
    && |file| >= 4 && U32At(file, 0) <= |file| && HasBox(file, 0, "ftyp", U32At(file, 0))
    && m == file[U32At(file, 0)..]
  }

  /** Every box of the file stands at its position, by name and size. */
  lemma BoxesInPlace(w: Writer)
    requires |InitBytes(w)| < 0x1_0000_0000
    ensures Behind(InitBytes(w), Moov(w)) && |Moov(w)| >= 481
    ensures FixedBoxes(Moov(w), w.kind) && TrailingBoxes(Moov(w))
  {
    FileParts(w);
    var m := Moov(w);
    BoxFits(InitBytes(w), 0, "ftyp", 8 + |FtypPayload(w)|);
    hide At, HasBox, MakeBox, Spells, U32At, MvhdPayload, TkhdPayload, MdhdPayload, HdlrPayload, TrexPayload, FtypPayload, SampleEntry, Be32;
    MoovParts(w);
    TrakParts(m, w);
    MdiaParts(m, w);
    MinfParts(m, w);
    DinfParts(m);
    StblParts(m, w);
    MvexParts(m, |m| - 40, w.trackId);
  }

  lemma BoxFits(s: seq<byte>, o: nat, name: string, size: nat)
    requires HasBox(s, o, name, size)
    ensures o + size <= |s| && U32At(s, o) == size
  {
  }

  // ---- The sample entry ----

  /** The stsd box holds one entry of this name: `head` bytes of its own and a configuration box. */
  ghost predicate EntryIs(m: seq<byte>, head: nat, entry: string, config: string) {
    && |m| >= 513 + head
    && HasBox(m, 389, entry, |m| - 497) && HasBox(m, 397 + head, config, |m| - 505 - head)
  }

  /** What the configuration box holds. */
  ghost function ConfigIn(m: seq<byte>, head: nat): seq<byte>
    requires |m| >= 513 + head
  {
    m[405 + head..|m| - 108]
  }

  lemma EntryParts(w: Writer, entry: string, config: string)
    requires |InitBytes(w)| < 0x1_0000_0000
    requires Spells(Be32(EntryType(w)), entry) && Spells(Be32(ConfigType(EntryType(w))), config)
    ensures var m, head := Moov(w), |EntryHead(w)|;
            && EntryIs(m, head, entry, config) && ConfigIn(m, head) == ConfigPayload(w) && At(m, 397, EntryHead(w))
  {
    hide At, HasBox, MakeBox, Spells, MvhdPayload, TkhdPayload, TrexPayload, FtypPayload, EntryHead, ConfigPayload, EntryType,
         ConfigType, Be32;
    var m, head, box := Moov(w), EntryHead(w), MakeBox(ConfigType(EntryType(w)), ConfigPayload(w));
    MoovParts(w);
    TrakParts(m, w);
    MdiaParts(m, w);
    MinfParts(m, w);
    StblParts(m, w);
    BoxAt(m, 389, EntryType(w), head + box, entry);
    Parts(m, 397, head, box);
    BoxAt(m, 397 + |head|, ConfigType(EntryType(w)), ConfigPayload(w), config);
    Slice(m, 405 + |head|, ConfigPayload(w));
  }

  lemma TypeByCodec(w: Writer)
    ensures var cs, t := w.codecString, EntryType(w);
            && (w.kind == Audio ==> t == OPUS)
            && (w.kind == Video ==>
                  && (StartsWith(cs, "hev1") || StartsWith(cs, "hvc1") ==> t == HEV1)
                  && (StartsWith(cs, "av01") ==> t == AV01) && (StartsWith(cs, "vp09") ==> t == VP09)
                  && (StartsWith(cs, "vp08") ==> t == VP08)
                  && (NoneOf(cs) ==> t == AVC1))
  {
    StartIsPrefix(w.codecString, "hev1");
    StartIsPrefix(w.codecString, "hvc1");
    StartIsPrefix(w.codecString, "av01");
    StartIsPrefix(w.codecString, "vp09");
    StartIsPrefix(w.codecString, "vp08");
    var lower := ToLower(w.codecString);
    PrefixLetters(lower, "hev1");
    PrefixLetters(lower, "hvc1");
    PrefixLetters(lower, "av01");
    PrefixLetters(lower, "vp09");
    PrefixLetters(lower, "vp08");
    hide StartsWith, ToLower;
  }

  lemma PrefixLetters(s: string, prefix: string)
    requires |prefix| == 4
    ensures prefix <= s ==> |s| >= 4 && s[0] == prefix[0] && s[3] == prefix[3]
  {
  }

  /** The codec string names none of HEVC, AV1, VP9 and VP8. */
  ghost predicate NoneOf(cs: string) {
    && !StartsWith(cs, "hev1") && !StartsWith(cs, "hvc1") && !StartsWith(cs, "av01")
    && !StartsWith(cs, "vp09") && !StartsWith(cs, "vp08")
  }

  lemma NamesOfType(t: u32) returns (entry: string, config: string)
    requires t == AVC1 || t == HEV1 || t == AV01 || t == VP09 || t == VP08 || t == OPUS
    ensures Spells(Be32(t), entry) && Spells(Be32(ConfigType(t)), config)
    ensures t == HEV1 ==> entry == "hev1" && config == "hvcC"
    ensures t == AV01 ==> entry == "av01" && config == "av1C"
    ensures t == VP09 ==> entry == "vp09" && config == "vpcC"
    ensures t == VP08 ==> entry == "vp08" && config == "vpcC"
    ensures t == AVC1 ==> entry == "avc1" && config == "avcC"
    ensures t == OPUS ==> entry == "Opus" && config == "dOps"
  {
    hide Spells, Be32;
    EntryNames();
    ConfigNames();
    if t == HEV1 {
      entry, config := "hev1", "hvcC";
    } else if t == AV01 {
      entry, config := "av01", "av1C";
    } else if t == VP09 {
      entry, config := "vp09", "vpcC";
    } else if t == VP08 {
      entry, config := "vp08", "vpcC";
    } else if t == AVC1 {
      entry, config := "avc1", "avcC";
    } else {
      entry, config := "Opus", "dOps";
    }
  }

  lemma TypesAreKnown(w: Writer)
    ensures var t := EntryType(w); t == AVC1 || t == HEV1 || t == AV01 || t == VP09 || t == VP08 || t == OPUS
    ensures |EntryHead(w)| == if w.kind == Video then 78 else 28
  {
  }

  /** Which entry and which configuration box a track gets: by the codec string for video, always
      those of Opus for audio. */
  lemma EntryByCodec(w: Writer)
    requires |InitBytes(w)| < 0x1_0000_0000
    ensures w.kind == Video ==>
              && (StartsWith(w.codecString, "hev1") || StartsWith(w.codecString, "hvc1") ==> EntryIs(Moov(w), 78, "hev1", "hvcC"))
              && (StartsWith(w.codecString, "av01") ==> EntryIs(Moov(w), 78, "av01", "av1C"))
              && (StartsWith(w.codecString, "vp09") ==> EntryIs(Moov(w), 78, "vp09", "vpcC"))
              && (StartsWith(w.codecString, "vp08") ==> EntryIs(Moov(w), 78, "vp08", "vpcC"))
              && (NoneOf(w.codecString) ==> EntryIs(Moov(w), 78, "avc1", "avcC"))
    ensures w.kind == Audio ==> EntryIs(Moov(w), 28, "Opus", "dOps")
  {
    hide EntryIs, InitBytes, StartsWith, NoneOf, Spells, Be32, Moov, At, ConfigIn, ConfigPayload, EntryType, ConfigType, EntryHead;
    TypeByCodec(w);
    TypesAreKnown(w);
    var entry, config := NamesOfType(EntryType(w));
    EntryParts(w, entry, config);
  }

  // ---- What the configuration box holds ----

  /** The configuration box of a video track. */
  lemma ConfigurationByCodec(w: Writer)
    requires w.kind == Video && |InitBytes(w)| < 0x1_0000_0000
    ensures |Moov(w)| >= 591
    ensures var cs, c, first := w.codecString, ConfigIn(Moov(w), 78), if w.codecConfig == [] then [] else w.codecConfig[0];
            && (StartsWith(cs, "hev1") || StartsWith(cs, "hvc1") || StartsWith(cs, "av01") ==> c == first)
            && (StartsWith(cs, "vp09") || StartsWith(cs, "vp08") ==> VpccHolds(c, w))
            && (NoneOf(cs) && w.codecConfig == [] ==> c == [])
            && (NoneOf(cs) && w.codecConfig != [] ==>
                  && AvccStarts(c, first)
                  && (ParseAvcc(c) == Some(w.codecConfig) <==> Short(w.codecConfig) && |w.codecConfig| <= 256))
  {
    hide InitBytes, StartsWith, Spells, Be32, Moov, At, ConfigIn, ParseAvcc, AvccPayload, VpccPayload, Short, VpccHolds, AvccStarts,
         HasBox, EntryType, EntryHead;
    TypeByCodec(w);
    TypesAreKnown(w);
    var entry, config := NamesOfType(EntryType(w));
    EntryParts(w, entry, config);
    VpccFields(w);
    if w.codecConfig != [] {
      AvccReadsBack(w.codecConfig);
      AvccFixedPart(w.codecConfig);
    } else {
      NoAvcc();
    }
    hide NoneOf;
  }

  lemma NoAvcc()
    ensures AvccPayload([]) == []
  {
  }

  /** Version 1, profile, compatibility and level from the SPS, four-byte lengths, and one SPS with its length. */
  ghost predicate AvccStarts(c: seq<byte>, sps: seq<byte>) {
    && |c| >= 9 + |sps|
    && c[0] == 1 && c[4] == 255 && c[5] == 225
    && (forall i :: 1 <= i <= 3 ==> c[i] == if i < |sps| then sps[i] else 0)
    && U16At(c, 6) == |sps| % 65536 && c[8..8 + |sps|] == sps
  }

  lemma AvccFixedPart(blobs: seq<seq<byte>>)
    requires blobs != []
    ensures AvccStarts(AvccPayload(blobs), blobs[0])
  {
    var sps := blobs[0];
    var b1, b2, b3 := if |sps| > 1 then sps[1] else 0, if |sps| > 2 then sps[2] else 0, if |sps| > 3 then sps[3] else 0;
    Be16RoundTrip(|sps|);
    AvccLayout(b1, b2, b3, Be16(|sps|), sps, [(|blobs| - 1) % 0x100], PpsEntries(blobs[1..]));
  }

  lemma AvccLayout(b1: byte, b2: byte, b3: byte, size: seq<byte>, sps: seq<byte>, count: seq<byte>, entries: seq<byte>)
    requires |size| == 2 && |count| == 1
    ensures var c := [1, b1, b2, b3, 0xFF, 0xE1] + size + sps + count + entries;
            && c[0] == 1 && c[1] == b1 && c[2] == b2 && c[3] == b3 && c[4] == 255 && c[5] == 225
            && c[8..8 + |sps|] == sps && U16At(c, 6) == U16At(size, 0)
  {
    var c := [1, b1, b2, b3, 0xFF, 0xE1] + size + sps + count + entries;
    assert c[6] == size[0] && c[7] == size[1];
  }

  /** Version 1, the six fields of the codec string, and the initialisation data behind its length. */
  ghost predicate VpccHolds(c: seq<byte>, w: Writer) {
    var data := Flatten(w.codecConfig);
    var n := if |data| < 65535 then |data| else 65535;
    && |c| == 12 + n
    && c[0] == 1 && c[1] == c[2] == c[3] == 0
    && c[4] == w.vp.profile && c[5] == w.vp.level && c[6] == w.vp.packed
    && c[7] == w.vp.primaries && c[8] == w.vp.transfer && c[9] == w.vp.matrix
    && U16At(c, 10) == n && c[12..] == data[..n]
  }

  lemma VpccFields(w: Writer)
    ensures VpccHolds(VpccPayload(w), w)
  {
    hide Flatten, Be16;
    var data := Flatten(w.codecConfig);
    var n := if |data| < 65535 then |data| else 65535;
    Be16RoundTrip(n);
    VpccLayout([1, 0, 0, 0, w.vp.profile, w.vp.level, w.vp.packed, w.vp.primaries, w.vp.transfer, w.vp.matrix], Be16(n), data[..n]);
  }

  lemma VpccLayout(head: seq<byte>, size: seq<byte>, data: seq<byte>)
    requires |head| == 10 && |size| == 2
    ensures var c := head + size + data;
            c[..10] == head && (forall i :: 0 <= i < 10 ==> c[i] == head[i]) && U16At(c, 10) == U16At(size, 0) && c[12..] == data
  {
    var c := head + size + data;
    assert c[10] == size[0] && c[11] == size[1];
  }

  // ---- Fields ----

  /** Version 0, the channels, no pre-skip, the sample rate, no gain and mapping family 0. */
  ghost predicate DopsHolds(c: seq<byte>, channels: u16, sampleRate: u32) {
    && |c| == 11
    && c[0] == 0 && c[1] == channels % 256 && U16At(c, 2) == 0 && U32At(c, 4) == sampleRate && U16At(c, 8) == 0 && c[10] == 0
  }

  lemma DopsFields(w: Writer)
    ensures DopsHolds(DopsPayload(w), w.channels, w.sampleRate)
  {
    var c := DopsPayload(w);
    Be32Exact(w.sampleRate);
    assert c[4..8] == Be32(w.sampleRate);
    FieldSlice(c, 4);
  }

  /** The entry of an audio track: channels, sixteen-bit samples, the rate as 16.16 fixed point, of
      which the shift keeps the low sixteen bits, and the Opus header. */
  lemma OpusFields(w: Writer)
    requires w.kind == Audio && |InitBytes(w)| < 0x1_0000_0000
    ensures var m := Moov(w);
            && |m| >= 541 && U16At(m, 413) == w.channels && U16At(m, 415) == 16
            && U32At(m, 421) == w.sampleRate % 65536 * 65536
            && DopsHolds(ConfigIn(m, 28), w.channels, w.sampleRate)
  {
    hide Moov, InitBytes, DopsPayload, DopsHolds, U32At, U16At, At, ConfigIn, OpusHead;
    EntryIsOpus(w);
    DopsFields(w);
    OpusWords(Moov(w), w);
  }

  lemma OpusWords(m: seq<byte>, w: Writer)
    requires |m| >= 541 && At(m, 397, OpusHead(w))
    ensures U16At(m, 413) == w.channels && U16At(m, 415) == 16 && U32At(m, 421) == w.sampleRate % 65536 * 65536
  {
    hide Be32, Be16, U32At, U16At, At, OpusHead;
    OpusParts(m, w);
    HalfWordAt(m, 413, w.channels);
    HalfWordAt(m, 415, 16);
    ShiftedSize(w.sampleRate);
    WordAt(m, 421, Be32(w.sampleRate * 0x1_0000), 0);
  }

  lemma OpusParts(m: seq<byte>, w: Writer)
    requires At(m, 397, OpusHead(w))
    ensures At(m, 413, Be16(w.channels)) && At(m, 415, Be16(16)) && At(m, 421, Be32(w.sampleRate * 0x1_0000))
  {
    hide Be16, Be32, Zeroes, At;
    var front := Zeroes(6) + Be16(1) + Zeroes(8);
    Parts5(m, 397, front, Be16(w.channels), Be16(16), Zeroes(4), Be32(w.sampleRate * 0x1_0000));
  }

  lemma EntryIsOpus(w: Writer)
    requires w.kind == Audio && |InitBytes(w)| < 0x1_0000_0000
    ensures |Moov(w)| >= 541 && At(Moov(w), 397, OpusHead(w)) && ConfigIn(Moov(w), 28) == DopsPayload(w)
  {
    EntryNames();
    ConfigNames();
    hide InitBytes, Spells, Be32, Moov, At, ConfigIn, OpusHead, DopsPayload, HasBox;
    EntryParts(w, "Opus", "dOps");
  }

  /** The entry of a video track: width and height in sixteen bits, 72 dpi, one frame, 24 bits deep. */
  lemma VisualFields(w: Writer)
    requires w.kind == Video && |InitBytes(w)| < 0x1_0000_0000
    ensures var m := Moov(w);
            && |m| >= 591 && U16At(m, 421) == w.width % 65536 && U16At(m, 423) == w.height % 65536
            && U32At(m, 425) == U32At(m, 429) == 0x48_0000 && U16At(m, 437) == 1 && U16At(m, 471) == 24 && U16At(m, 473) == 65535
  {
    hide Moov, InitBytes, U32At, U16At, At, VisualHead;
    EntryIsVisual(w);
    VisualWords(Moov(w), w);
  }

  lemma VisualWords(m: seq<byte>, w: Writer)
    requires |m| >= 591 && At(m, 397, VisualHead(w))
    ensures U16At(m, 421) == w.width % 65536 && U16At(m, 423) == w.height % 65536
    ensures U32At(m, 425) == U32At(m, 429) == 0x48_0000 && U16At(m, 437) == 1 && U16At(m, 471) == 24 && U16At(m, 473) == 65535
  {
    hide Be32, Be16, U32At, U16At, At, VisualHead;
    FrontParts(m, w);
    BackParts(m, w);
    HalfWordAt(m, 421, w.width);
    HalfWordAt(m, 423, w.height);
    WholeWordAt(m, 425, 0x48_0000);
    WholeWordAt(m, 429, 0x48_0000);
    HalfWordAt(m, 437, 1);
    HalfWordAt(m, 471, 24);
    HalfWordAt(m, 473, 65535);
  }

  lemma FrontParts(m: seq<byte>, w: Writer)
    requires At(m, 397, VisualHead(w))
    ensures At(m, 421, Be16(w.width)) && At(m, 423, Be16(w.height))
    ensures At(m, 425, Be32(0x48_0000)) && At(m, 429, Be32(0x48_0000))
  {
    hide Be16, Be32, Zeroes, At;
    VisualSplits(w);
    Parts(m, 397, VisualFront(w), VisualBack());
    Parts5(m, 397, Zeroes(6) + Be16(1) + Zeroes(16), Be16(w.width), Be16(w.height), Be32(0x48_0000), Be32(0x48_0000));
  }

  lemma BackParts(m: seq<byte>, w: Writer)
    requires At(m, 397, VisualHead(w))
    ensures At(m, 437, Be16(1)) && At(m, 471, Be16(24)) && At(m, 473, Be16(65535))
  {
    hide Be16, Be32, Zeroes, At;
    VisualSplits(w);
    Parts(m, 397, VisualFront(w), VisualBack());
    Parts5(m, 433, Be32(0), Be16(1), Zeroes(32), Be16(24), Be16(65535));
  }

  function VisualFront(w: Writer): (r: seq<byte>)
    ensures |r| == 36
  {
    Zeroes(6) + Be16(1) + Zeroes(16) + Be16(w.width) + Be16(w.height) + Be32(0x48_0000) + Be32(0x48_0000)
  }

  function VisualBack(): (r: seq<byte>)
    ensures |r| == 42
  {
    Be32(0) + Be16(1) + Zeroes(32) + Be16(24) + Be16(65535)
  }

  lemma VisualSplits(w: Writer)
    ensures VisualHead(w) == VisualFront(w) + VisualBack()
  {
    hide Be16, Be32, Zeroes;
  }

  lemma EntryIsVisual(w: Writer)
    requires w.kind == Video && |InitBytes(w)| < 0x1_0000_0000
    ensures |Moov(w)| >= 591 && At(Moov(w), 397, VisualHead(w))
  {
    hide InitBytes, Spells, Be32, Moov, At, ConfigIn, VisualHead, HasBox, EntryType, ConfigType, ConfigPayload;
    VideoType(w);
    var entry, config := NamesOfType(EntryType(w));
    EntryParts(w, entry, config);
  }

  lemma VideoType(w: Writer)
    requires w.kind == Video
    ensures var t := EntryType(w); t == AVC1 || t == HEV1 || t == AV01 || t == VP09 || t == VP08
    ensures EntryHead(w) == VisualHead(w)
  {
  }

  /** The handler of the track, by its kind: four letters, and a name that ends in 0. */
  lemma HandlerByKind(w: Writer)
    requires |InitBytes(w)| < 0x1_0000_0000
    ensures var m := Moov(w);
            && |m| >= 481 && m[300] == 0
            && Spells(m[272..276], if w.kind == Video then "vide" else "soun")
            && Spells(m[288..300], if w.kind == Video then "VideoHandler" else "SoundHandler")
  {
    var m, kind := Moov(w), w.kind;
    var name := if kind == Video then VIDEO_HANDLER else SOUND_HANDLER;
    ReferenceNames();
    HandlerNames();
    hide InitBytes, Spells, Be32, HdlrPayload, MvhdPayload, TkhdPayload, MdhdPayload, Moov, HasBox, At;
    FileIsLong(w);
    MoovParts(w);
    TrakParts(m, w);
    MdiaParts(m, w);
    HdlrParts(m, kind);
    Slice(m, 272, Be32(if kind == Video then VIDE else SOUN));
    Slice(m, 288, name);
    assert m[288..301][..12] == m[288..300] && m[288..301][12] == m[300];
  }

  lemma HdlrParts(m: seq<byte>, kind: TrackKind)
    requires At(m, 264, HdlrPayload(kind))
    ensures At(m, 272, Be32(if kind == Video then VIDE else SOUN))
    ensures At(m, 288, if kind == Video then VIDEO_HANDLER else SOUND_HANDLER)
  {
    hide At, Be32, Zeroes;
    Parts5(m, 264, Be32(0), Be32(0), Be32(if kind == Video then VIDE else SOUN), Zeroes(12),
           if kind == Video then VIDEO_HANDLER else SOUND_HANDLER);
  }

  lemma HandlerNames()
    ensures |VIDEO_HANDLER| == |SOUND_HANDLER| == 13 && VIDEO_HANDLER[12] == SOUND_HANDLER[12] == 0
    ensures Spells(VIDEO_HANDLER[..12], "VideoHandler") && Spells(SOUND_HANDLER[..12], "SoundHandler")
  {
  }

  /** The numbers a player reads from the headers of moov: time scale, track id and the next free
      one, rate and volume, picture size (the low sixteen bits of each, as 16.16), and the flags and
      counts that are the same in every file. */
  lemma HeadersInPlace(w: Writer)
    requires |InitBytes(w)| < 0x1_0000_0000
    ensures var m := Moov(w);
            && |m| >= 481
            && U32At(m, 28) == U32At(m, 244) == w.timescale && U32At(m, 144) == w.trackId
            && U32At(m, 112) == (w.trackId + 1) % 0x1_0000_0000
            && U32At(m, 208) == w.width % 65536 * 65536 && U32At(m, 212) == w.height % 65536 * 65536
            && U32At(m, 36) == 65536 && U16At(m, 40) == 256
            && U32At(m, 132) == 7 && U32At(m, 317) == 1 && U32At(m, 349) == 1 && U32At(m, 361) == 1 && U32At(m, 385) == 1
  {
    hide InitBytes, Be32, HdlrPayload, MvhdPayload, TkhdPayload, MdhdPayload, MediaHeaderPayload, DrefHead, Moov, HasBox, At, U32At, U16At;
    var m := Moov(w);
    FileIsLong(w);
    MoovParts(w);
    TrakParts(m, w);
    MdiaParts(m, w);
    MinfParts(m, w);
    DinfParts(m);
    StblParts(m, w);
    MvhdWords(m, w);
    TkhdWords(m, w);
    OtherWords(m, w);
  }

  lemma HalfWordIn(s: seq<byte>, o: nat, b: seq<byte>, i: nat)
    requires At(s, o, b) && i + 2 <= |b|
    ensures U16At(s, o + i) == U16At(b, i)
  {
    assert s[o..o + |b|][i] == s[o + i] && s[o..o + |b|][i + 1] == s[o + i + 1];
  }

  lemma MvhdWords(m: seq<byte>, w: Writer)
    requires At(m, 16, MvhdPayload(w.timescale, w.trackId + 1)) && |m| >= 481
    ensures U32At(m, 28) == w.timescale && U32At(m, 112) == (w.trackId + 1) % 0x1_0000_0000
    ensures U32At(m, 36) == 65536 && U16At(m, 40) == 256
  {
    HeaderFieldsReadBack(w);
    MvhdConstants(w.timescale, w.trackId + 1);
    var payload := MvhdPayload(w.timescale, w.trackId + 1);
    hide At, U32At, U16At, MvhdPayload, TkhdPayload, MdhdPayload, TrexPayload;
    WordAt(m, 16, payload, 12);
    WordAt(m, 16, payload, 96);
    WordAt(m, 16, payload, 20);
    HalfWordIn(m, 16, payload, 24);
  }

  lemma MvhdConstants(timescale: u32, next: nat)
    ensures U32At(MvhdPayload(timescale, next), 20) == 65536 && U16At(MvhdPayload(timescale, next), 24) == 256
  {
    Be32Exact(65536);
    Be16RoundTrip(256);
    hide Be32, Be16, Zeroes, Matrix, U32At;
    var mvhd := MvhdPayload(timescale, next);
    assert mvhd[20..24] == Be32(65536) && mvhd[24..26] == Be16(256);
    FieldSlice(mvhd, 20);
    assert mvhd[24..26][0] == mvhd[24] && mvhd[24..26][1] == mvhd[25];
  }

  lemma TkhdWords(m: seq<byte>, w: Writer)
    requires At(m, 132, TkhdPayload(w.trackId, w.width, w.height)) && |m| >= 481
    ensures U32At(m, 132) == 7 && U32At(m, 144) == w.trackId
    ensures U32At(m, 208) == w.width % 65536 * 65536 && U32At(m, 212) == w.height % 65536 * 65536
  {
    HeaderFieldsReadBack(w);
    var payload := TkhdPayload(w.trackId, w.width, w.height);
    assert U32At(payload, 0) == 7 by {
      Be32Exact(7);
      assert payload[..4] == Be32(7);
      FieldSlice(payload, 0);
    }
    hide At, U32At, U16At, MvhdPayload, TkhdPayload, MdhdPayload, TrexPayload;
    WordAt(m, 132, payload, 0);
    WordAt(m, 132, payload, 12);
    WordAt(m, 132, payload, 76);
    WordAt(m, 132, payload, 80);
  }

  lemma OtherWords(m: seq<byte>, w: Writer)
    requires At(m, 232, MdhdPayload(w.timescale)) && At(m, 317, MediaHeaderPayload()) && At(m, 345, DrefHead())
    requires At(m, 361, Be32(1)) && At(m, 385, Be32(1)) && |m| >= 481
    ensures U32At(m, 244) == w.timescale
    ensures U32At(m, 317) == 1 && U32At(m, 349) == 1 && U32At(m, 361) == 1 && U32At(m, 385) == 1
  {
    HeaderFieldsReadBack(w);
    hide At, U32At, MvhdPayload, TkhdPayload, MdhdPayload, TrexPayload, Be32, Zeroes;
    WordAt(m, 232, MdhdPayload(w.timescale), 12);
    Parts(m, 317, Be32(1), Zeroes(8));
    Parts(m, 345, Be32(0), Be32(1));
    WholeWordAt(m, 317, 1);
    WholeWordAt(m, 349, 1);
    WholeWordAt(m, 361, 1);
    WholeWordAt(m, 385, 1);
  }

  /** The defaults for fragments end the file: the track, its first sample description, no default
      duration or size, and the flags of a sample that depends on others and is no sync sample. */
  lemma TrexInPlace(w: Writer)
    requires |InitBytes(w)| < 0x1_0000_0000
    ensures var m := Moov(w);
            && |m| >= 481 && U32At(m, |m| - 24) == 0 && U32At(m, |m| - 20) == w.trackId && U32At(m, |m| - 16) == 1
            && U32At(m, |m| - 12) == U32At(m, |m| - 8) == 0 && U32At(m, |m| - 4) == 0x0101_0000
  {
    hide InitBytes, Be32, TrexPayload, MvhdPayload, Moov, HasBox, At, U32At;
    var m := Moov(w);
    FileIsLong(w);
    MoovParts(w);
    MvexParts(m, |m| - 40, w.trackId);
    TrexWords(m, |m| - 24, w.trackId);
  }

  lemma TrexWords(m: seq<byte>, o: nat, trackId: u32)
    requires At(m, o, TrexPayload(trackId)) && o + 24 <= |m|
    ensures U32At(m, o) == 0 && U32At(m, o + 4) == trackId && U32At(m, o + 8) == 1
    ensures U32At(m, o + 12) == U32At(m, o + 16) == 0 && U32At(m, o + 20) == 0x0101_0000
  {
    hide At, U32At, Be32;
    var front := Be32(0) + Be32(trackId) + Be32(1);
    Parts3(m, o, front + Be32(0), Be32(0), Be32(0x0101_0000));
    Parts(m, o, front, Be32(0));
    Parts3(m, o, Be32(0), Be32(trackId), Be32(1));
    WholeWordAt(m, o, 0);
    WholeWordAt(m, o + 4, trackId);
    WholeWordAt(m, o + 8, 1);
    WholeWordAt(m, o + 12, 0);
    WholeWordAt(m, o + 16, 0);
    WholeWordAt(m, o + 20, 0x0101_0000);
  }

  /** The words of the unity matrix. */
  ghost predicate UnityAt(m: seq<byte>, o: nat) {
    && o + 36 <= |m|
    && U32At(m, o) == U32At(m, o + 16) == 0x1_0000 && U32At(m, o + 32) == 0x4000_0000
    && U32At(m, o + 4) == U32At(m, o + 8) == U32At(m, o + 12) == 0
    && U32At(m, o + 20) == U32At(m, o + 24) == U32At(m, o + 28) == 0
  }

  /** Movie and track are shown as they are: both matrices are the unity matrix. */
  lemma MatricesInPlace(w: Writer)
    requires |InitBytes(w)| < 0x1_0000_0000
    ensures UnityAt(Moov(w), 52) && UnityAt(Moov(w), 172)
  {
    hide InitBytes, MvhdPayload, TkhdPayload, Moov, HasBox, At, UnityAt, Matrix;
    var m := Moov(w);
    FileIsLong(w);
    MoovParts(w);
    TrakParts(m, w);
    MvhdMatrix(m, w.timescale, w.trackId + 1);
    TkhdMatrix(m, w);
    MatrixWords(m, 52);
    MatrixWords(m, 172);
  }

  lemma MvhdMatrix(m: seq<byte>, timescale: u32, next: nat)
    requires At(m, 16, MvhdPayload(timescale, next))
    ensures At(m, 52, Matrix())
  {
    hide At, Be32, Be16, Zeroes, Matrix;
    var front := Be32(0) + Zeroes(8) + Be32(timescale) + Be32(0) + Be32(0x0001_0000) + Be16(0x0100) + Be16(0) + Zeroes(8);
    Parts3(m, 16, front + Matrix(), Zeroes(24), Be32(next));
    Parts(m, 16, front, Matrix());
  }

  lemma TkhdMatrix(m: seq<byte>, w: Writer)
    requires At(m, 132, TkhdPayload(w.trackId, w.width, w.height))
    ensures At(m, 172, Matrix())
  {
    hide At, Be32, Zeroes, Matrix;
    var front := Be32(7) + Zeroes(8) + Be32(w.trackId) + Be32(0) + Be32(0) + Zeroes(8) + Zeroes(8);
    Parts3(m, 132, front + Matrix(), Be32(w.width * 0x1_0000), Be32(w.height * 0x1_0000));
    Parts(m, 132, front, Matrix());
  }

  lemma MatrixWords(m: seq<byte>, o: nat)
    requires At(m, o, Matrix())
    ensures UnityAt(m, o)
  {
    Slice(m, o, Matrix());
    Parts5(m, o, Be32(0x0001_0000), Zeroes(12), Be32(0x0001_0000), Zeroes(12), Be32(0x4000_0000));
    WholeWordAt(m, o, 0x1_0000);
    WholeWordAt(m, o + 16, 0x1_0000);
    WholeWordAt(m, o + 32, 0x4000_0000);
    ZeroWords(m, o + 4);
    ZeroWords(m, o + 20);
  }

  lemma ZeroWords(m: seq<byte>, o: nat)
    requires At(m, o, Zeroes(12))
    ensures o + 12 <= |m| && U32At(m, o) == U32At(m, o + 4) == U32At(m, o + 8) == 0
  {
    Slice(m, o, Zeroes(12));
    WordAt(m, o, Zeroes(12), 0);
    WordAt(m, o, Zeroes(12), 4);
    WordAt(m, o, Zeroes(12), 8);
  }

  // ---- Brands ----

  /** ftyp: the major brand, its version, three compatible brands, and a fourth one that follows the
      codec string. */
  lemma BrandsByCodec(w: Writer)
    requires |InitBytes(w)| < 0x1_0000_0000
    ensures var file, cs := InitBytes(w), w.codecString;
            && |file| >= 32 && Spells(file[8..12], "isom") && U32At(file, 12) == 512
            && Spells(file[16..20], "isom") && Spells(file[20..24], "iso2") && Spells(file[24..28], "mp41")
            && (w.kind == Video ==>
                  && (StartsWith(cs, "avc") ==> ExtraBrand(file, "avc1"))
                  && (StartsWith(cs, "av01") ==> ExtraBrand(file, "av01"))
                  && (StartsWith(cs, "hev1") ==> ExtraBrand(file, "hev1"))
                  && (StartsWith(cs, "hvc1") ==> ExtraBrand(file, "hvc1"))
                  && (StartsWith(cs, "vp09") ==> ExtraBrand(file, "vp09"))
                  && (StartsWith(cs, "vp08") ==> ExtraBrand(file, "vp08"))
                  && (NoneOf(cs) && !StartsWith(cs, "avc") ==> U32At(file, 0) == 28))
            && (w.kind == Audio && |cs| == 4 && StartsWith(cs, "opus") ==> ExtraBrand(file, "Opus"))
            && (w.kind == Audio && !(|cs| == 4 && StartsWith(cs, "opus")) ==> U32At(file, 0) == 28)
  {
    hide InitBytes, Spells, StartsWith, NoneOf, HasBox, At, FtypPayload, Moov, U32At, Brand, Be32;
    var file, brand := InitBytes(w), Brand(w);
    BrandNames();
    EntryNames();
    BrandByCodec(w);
    FileParts(w);
    FtypParts(file, w);
    BoxFits(file, 0, "ftyp", if brand.Some? then 32 else 28);
    WholeWordAt(file, 12, 512);
    Slice(file, 8, Be32(ISOM));
    Slice(file, 16, Be32(ISOM));
    Slice(file, 20, Be32(ISO2));
    Slice(file, 24, Be32(MP41));
    if brand.Some? {
      Slice(file, 28, Be32(brand.value));
    }
    FileIsLong(w);
  }

  /** ftyp has 32 bytes and ends in this brand. */
  ghost predicate ExtraBrand(file: seq<byte>, name: string) {
    |file| >= 32 && U32At(file, 0) == 32 && Spells(file[28..32], name)
  }

  lemma FileIsLong(w: Writer)
    ensures |InitBytes(w)| >= 32 && |InitBytes(w)| > |Moov(w)| >= 481
  {
  }

  lemma FtypParts(file: seq<byte>, w: Writer)
    requires At(file, 8, FtypPayload(w))
    ensures |FtypPayload(w)| == if Brand(w).Some? then 24 else 20
    ensures At(file, 8, Be32(ISOM)) && At(file, 12, Be32(512)) && At(file, 16, Be32(ISOM)) && At(file, 20, Be32(ISO2)) && At(file, 24, Be32(MP41))
    ensures Brand(w).Some? ==> At(file, 28, Be32(Brand(w).value))
  {
    hide At, Be32, Brand;
    var last := match Brand(w) case None => [] case Some(b) => Be32(b);
    var five := Be32(ISOM) + Be32(512) + Be32(ISOM) + Be32(ISO2) + Be32(MP41);
    assert FtypPayload(w) == five + last;
    Parts(file, 8, five, last);
    Parts5(file, 8, Be32(ISOM), Be32(512), Be32(ISOM), Be32(ISO2), Be32(MP41));
  }

  lemma BrandByCodec(w: Writer)
    ensures var cs := w.codecString;
            && (w.kind == Video ==>
                  && (StartsWith(cs, "avc") ==> Brand(w) == Some(AVC1)) && (StartsWith(cs, "av01") ==> Brand(w) == Some(AV01))
                  && (StartsWith(cs, "hev1") ==> Brand(w) == Some(HEV1)) && (StartsWith(cs, "hvc1") ==> Brand(w) == Some(HVC1))
                  && (StartsWith(cs, "vp09") ==> Brand(w) == Some(VP09)) && (StartsWith(cs, "vp08") ==> Brand(w) == Some(VP08))
                  && (NoneOf(cs) && !StartsWith(cs, "avc") ==> Brand(w) == None))
            && (w.kind == Audio ==> Brand(w) == if |cs| == 4 && StartsWith(cs, "opus") then Some(OPUS) else None)
  {
    var cs, lower := w.codecString, ToLower(w.codecString);
    StartIsPrefix(cs, "avc");
    StartIsPrefix(cs, "hev1");
    StartIsPrefix(cs, "hvc1");
    StartIsPrefix(cs, "av01");
    StartIsPrefix(cs, "vp09");
    StartIsPrefix(cs, "vp08");
    StartIsPrefix(cs, "opus");
    PrefixLetters(lower, "hev1");
    PrefixLetters(lower, "hvc1");
    PrefixLetters(lower, "av01");
    PrefixLetters(lower, "vp09");
    PrefixLetters(lower, "vp08");
    assert "avc" <= lower ==> lower[0] == 'a' && lower[2] == 'c';
    assert "av01" <= lower ==> lower[2] == '0';
    assert |cs| == 4 && "opus" <= lower ==> lower == "opus";
    hide StartsWith, ToLower;
  }
}
