# A Dafny model of live777's media and session logic

live777 is a WebRTC media server (`liveion`), with a manager for several servers (`liveman`) and command-line relays
between RTP, RTSP and WHIP/WHEP (`livetwo`). This project models the parts of it that are hand-written byte, state or
protocol logic, and proves what those parts are for:

* **Re-packetising** (`AnnexB`, `H264Params`, `H265Params`, `RePayload`, `RePayloadRoundTrip`). The relay joins
  incoming H.265 RTP payloads (single NAL units, aggregation packets and fragmentation units, sections 4.4.1 to 4.4.3
  of RFC 7798) into one Annex-B frame, puts parameter sets in front of it when they are due, and cuts the frame into
  packets again. Packetising and reassembling are inverse, for a list of emulation-free units exactly if each of them
  can be carried.
* **RTSP interleaved framing** (`Interleaved`, section 10.12 of RFC 2326). The reader recovers the frames of a stream
  however the network cuts it, accounts for every other byte too, and writer and reader are inverse.
* **The recorder** (`Fragment`, `InitSegment`, `InitSegmentBytes`, `Segmenter`, `RecordingClock`, `PliBackoff`).
  Fragmented MP4 is written with sizes patched in afterwards; a reader of the boxes (section 4.2 of ISO/IEC 14496-12)
  recovers what was recorded, and every box and field of the initialisation segment stands where the codec string and
  the track kind call for it. Within one codec epoch the segmenter loses no sample, every DASH manifest it writes
  agrees with the files written before it, and the current one lists every closed segment of each track that is ready.
  A change of codec drops the open buffer and reuses the segment numbers; which samples are still in a file
  afterwards, and which a player can still find through the manifest, is proved exactly. Timestamps survive their
  32-bit wrap, and key frame requests are made exactly when they are due.
* **The recording hand-off** (`RecordingsIndex`, `RecordSync`, `SyncLoop`, `CleanTurn`, `PageProgress`, `LatestPath`).
  Nodes report recordings to the manager by pull and acknowledgement, and any message may fail. In every interleaving
  each recording is listed by its node or stored by the manager. A row that the database refused stays listed, but
  once the cursor has passed it, it is not offered again until it is restamped or the manager restarts; from a restart
  on, a manager with a page size of L has been offered all n entries of an unchanging index after n / L turns, rounded
  up, that move its cursor.
* **Forwarding** (`LayerSwitch`, `LayerSelection`, `ForwardLifecycle`). A subscriber's sender task switches layers,
  mutes and unmutes, and a live video subscriber is always on the last layer whose selection could be honoured; a
  stream's publisher and subscribers, their gauges and the leave times stay in step over every run, and the stream
  gauge, which a time-out decrements twice, is off by exactly the number of time-outs.

`Octets` holds the fixed-width integers and big-endian fields. Bytes are the integers 0 to 255; bit masks and shifts
are written as arithmetic, and a lemma beside each such function proves it equal to the bit-vector expression.

Code that updates fields is a class here, and its methods are proved against functions on plain values; the theorems
are about those functions and about whole runs of them. What each function comes to is said a second time without it,
in numbers, letters and least positions, by the lemmas named `...Means`, `...Exactly`, `...ByCodec` and the like.
`dafny verify dfyconfig.toml` checks everything.

Where the code does not do what its purpose suggests, the model follows the code and the exact condition is proved:
`RePayloadRoundTrip.PacketiseReassembleExactly`, `H264Params.InjectTwice`, `InitSegment.AvccReadsBack`,
`Fragment.FragmentReadsBack`, `Interleaved.WriterThenReader`, `RecordingsIndex.PageSkipsExactly`,
`LatestPath.HeldExactly`, `RecordingClock.VideoPositionExact`, `Segmenter.NothingLostExactly`,
`Segmenter.Segmenter.ListedExactly`, `LayerSwitch.MuteUnmute`, `LayerSwitch.AudioUnmuteExactly`,
`LayerSwitch.AudioReadsVideoExactly`, `ForwardLifecycle.SubscriberTimeoutExactly` and
`ForwardLifecycle.StreamGaugeExactly`.

Where the code and its comments differ, the model follows the code: the tfhd flags are 0x200, while the comment beside
them names default-base-is-moof (0x020000 in ISO/IEC 14496-12); and a byte that the RTSP parser rejects is announced
as skipped, but ends the reader like a message (`Interleaved.ReadBranches`).

## Model

| member | source | states |
|---|---|---|
| H265Params.NalTypeIsShiftAndMask | livetwo/src/payload/repayload.rs:160 | The NAL type expression `(b >> 1) & 0x3F` is the function used here, for every byte. |
| H264Params.NalTypeIsMask | livetwo/src/payload/h264.rs:43 | The H.264 NAL type expression `b & 0x1F` is the function used here, for every byte. |
| RePayload.WithTypeIsMaskAndShift | livetwo/src/payload/repayload.rs:312 | Putting a type into a unit header by `&`, `<<` and or is the function used here, for every byte and type; the receiver's rebuilt header (line 381) is the same function. |
| RePayload.FuHeaderByteIsOr | livetwo/src/payload/repayload.rs:303-309 | Or-ing the start and end flags onto the type is the function used here. |
| RePayload.FuFieldsAreMasks | livetwo/src/payload/repayload.rs:370-373 | Masking the start flag and the type out of an FU header is what the two functions used here read. |
| AnnexB.ScanTiles | livetwo/src/payload/h265.rs:321-373 | On every byte string the scan's units and the start codes between them tile the buffer: units are non-empty, increasing and disjoint, each later one begins right behind the one code where the last ended, none has a start code inside behind its first byte, and none was missed before the first. |
| AnnexB.ScanAnnexB | livetwo/src/payload/h265.rs:321-373 | Scanning the Annex-B form of a list of emulation-free units gives back that list, and only the last unit ends the buffer. |
| AnnexB.NalIterator.Next | livetwo/src/payload/h265.rs:348-373 | The iterator yields the units of the scan one by one, always advances, and ends exactly when none is left. |
| AnnexB.NalIterator.ExtractNalUnit | livetwo/src/payload/h265.rs:321-345 | A unit reaches from behind its start code to the next start code or the end; at the end of the buffer there is none. |
| H265Params.H265Processor.SetParams | livetwo/src/payload/h265.rs:43-47 | All three caches are replaced and nothing else changes. |
| H265Params.H265Processor.ExtractParams | livetwo/src/payload/h265.rs:239-272 | Each empty cache takes the first unit of its type in the whole buffer and a filled cache is kept, although the loop stops early. |
| H265Params.FirstOfTypeIsFirst | livetwo/src/payload/h265.rs:245-266 | What is captured is a unit of the wanted type with none of that type before it; nothing is captured exactly if there is none. |
| H265Params.H265Processor.InjectParams | livetwo/src/payload/h265.rs:183-237 | Injection fires on IDR frames and once at the start, only when all three sets are known; otherwise the frame is untouched. |
| H265Params.InjectedUnits | livetwo/src/payload/h265.rs:205-236 | An injected Annex-B frame is the Annex-B form of the three sets followed by the original units, so a scan finds exactly those. |
| H265Params.InjectedBareUnit | livetwo/src/payload/h265.rs:225-234 | A frame given as one unit without start code gets one, and a scan finds the sets and that unit. |
| H264Params.H264Processor.IsIdrFrame | livetwo/src/payload/h264.rs:31-51 | True exactly if a start code is followed by an IDR unit somewhere in the buffer. |
| H264Params.H264Processor.HasParams | livetwo/src/payload/h264.rs:79-112 | True exactly if an SPS and a PPS start within the first 1024 bytes. |
| H264Params.H264Processor.InjectParams | livetwo/src/payload/h264.rs:53-77 | The cached sets go in front of an IDR frame that does not bring its own, and of nothing else. |
| H264Params.InjectionMeans | livetwo/src/payload/h264.rs:31-112 | On every frame: with both sets cached, one that holds a unit of type 5 and does not hold units of both types 7 and 8 in its first 1024 bytes gets `00 00 00 01`, SPS, `00 00 00 01`, PPS in front; every other frame, IDR or not, is sent as it is. |
| H264Params.H264Processor.ExtractParams | livetwo/src/payload/h264.rs:114-170 | Each empty cache takes the first unit of its type. |
| H264Params.CaptureMeans | livetwo/src/payload/h264.rs:145-160 | A filled cache is kept whatever the frame holds; an empty one takes the first unit of the type, and stays empty exactly if there is none. |
| H264Params.ParamUnitsAreUnits | livetwo/src/payload/h264.rs:120-168 | This third copy of the scan sees the same units as the other two, up to a one-byte unit behind a three-byte start code at the very end. |
| H264Params.FirstOfTypeIsFirst | livetwo/src/payload/h264.rs:114-170 | What is captured is of the wanted type with no earlier one; nothing is captured exactly if there is none. |
| H264Params.InjectTwice | livetwo/src/payload/h264.rs:53-112 | Injecting twice is injecting once exactly when the SPS has at most 1015 bytes; a longer one pushes the PPS out of the search window. |
| RePayload.RePayloadCodec.ConvertApToAnnexB | livetwo/src/payload/repayload.rs:188-216 | The loop computes the expansion function of aggregation packets, stopping at a zero or overlong size. |
| RePayloadRoundTrip.ApSplits | livetwo/src/payload/repayload.rs:188-216 | Every aggregation body is a run of sized units and a rest that is too short, of size 0 or larger than what is left; the expansion is those units behind start codes, and nothing of the rest. |
| RePayload.RePayloadCodec.ConvertToAnnexB | livetwo/src/payload/repayload.rs:154-186 | Single units and unknown types get a start code, aggregation packets longer than two bytes are expanded, an empty payload stays empty. |
| RePayload.RePayloadCodec.PayloadManually | livetwo/src/payload/repayload.rs:218-345 | The nested loops emit the pieces of the units that the iterator's scan finds, apart from those under two bytes, numbered on from the codec's counter. |
| RePayload.RePayloadCodec.PayloadUnit | livetwo/src/payload/repayload.rs:242-340 | One turn of the outer loop emits exactly the pieces of one unit and moves on to its end. |
| RePayload.RePayloadCodec.FindNalEnd | livetwo/src/payload/repayload.rs:244-255 | The inlined search ends a unit where the iterator's does. |
| RePayload.RePayloadCodec.EmitFragments | livetwo/src/payload/repayload.rs:295-337 | The fragment loop emits the fragments of the unit in order under consecutive numbers, marking only the last one of the buffer's last unit; what fragment k is, `RePayloadRoundTrip.FragmentsFrom` says. |
| RePayload.RePayloadCodec.BufferPayload | livetwo/src/payload/repayload.rs:352-409 | What one payload adds to the frame buffer: FU starts get a rebuilt unit header, FU continuations only their data, the rest its Annex-B form, payloads under three bytes themselves. |
| RePayloadRoundTrip.ContributionByType | livetwo/src/payload/repayload.rs:154-413 | Which branch a payload takes, by its own bytes: under three bytes or already Annex B, it is kept; type 49 with start flag gives a start code, the header with the fragment's type and the data, without it the data; type 48 is expanded; every other type gets a start code. |
| RePayload.RePayloadCodec.Payload | livetwo/src/payload/repayload.rs:349-481 | A packet without marker only grows the buffer; one with marker empties it and sends the joined frame with the sets that are due, numbered on. |
| RePayload.RePayloadCodec.SendFrame | livetwo/src/payload/repayload.rs:411-477 | The buffered frame is joined, given its sets and packetised; an empty frame sends nothing. |
| RePayload.RePayloadCodec.WithParams | livetwo/src/payload/repayload.rs:425-446 | Missing sets are captured before injection, and the longer of frame and injected frame is sent. |
| RePayload.InjectionCaptures | livetwo/src/payload/repayload.rs:425-446 | At the end of a frame a filled cache stays, and an empty one takes the first unit of type 32, 33 or 34 of the whole frame, if there is one; an empty frame changes nothing. |
| RePayload.InjectionFires | livetwo/src/payload/h265.rs:183-237 | The three sets go in front, each behind `00 00 00 01`, exactly if all are known then and the frame is an IDR frame or nothing was injected yet; a frame without leading start code gets one, and otherwise it is sent as it is. |
| RePayload.AdvanceIsModular | livetwo/src/payload/repayload.rs:278 | n wrapping increments are addition modulo 2^16. |
| RePayloadRoundTrip.FusReassemble | livetwo/src/payload/repayload.rs:295-337 | The fragments of a unit, fed to the buffering half, give back the unit behind one start code. |
| RePayloadRoundTrip.UnitRoundTripExactly | livetwo/src/payload/repayload.rs:188-413 | An emulation-free unit survives packetising and reassembling exactly if it has at least three bytes and is not a short unit of type 48 or 49. |
| RePayloadRoundTrip.ApIsNotSingle | livetwo/src/payload/repayload.rs:172-174 | A unit of type 48 sent whole is never reassembled to itself. |
| RePayloadRoundTrip.StreamPieces | livetwo/src/payload/repayload.rs:218-345 | The pieces cut from an Annex-B frame are the payloads of its units in order, with the marker on exactly the last. |
| RePayloadRoundTrip.PacketiseReassemble | livetwo/src/payload/repayload.rs:218-409 | For every list of well-formed units, packetising its Annex-B form and buffering the packets gives back exactly that form; the marker is on exactly the last packet. |
| RePayloadRoundTrip.PacketiseReassembleExactly | livetwo/src/payload/repayload.rs:218-409 | For every list of emulation-free units, packetising its Annex-B form and buffering the packets is the identity if and only if every unit has at least three bytes and is not a short unit of type 48 or 49. |
| RePayloadRoundTrip.UnitsRoundTripExactly | livetwo/src/payload/repayload.rs:218-409 | The same of the payloads alone: the failures of several units never cancel out. |
| RePayloadRoundTrip.NeverAhead | livetwo/src/payload/repayload.rs:352-409 | If a list comes back whole, then after each unit no more bytes have come back than were put in, and as many only if all units so far are carried. |
| RePayloadRoundTrip.ApHoldsNoLonger | livetwo/src/payload/repayload.rs:188-216 | The expansion of an aggregation body nowhere holds a start code followed by an emulation-free unit two bytes longer than the body. |
| RePayloadRoundTrip.AggregationEqualsSingles | livetwo/src/payload/repayload.rs:188-216 | An aggregation packet (section 4.4.2 of RFC 7798) expands to the same bytes as its units sent singly. |
| RePayloadRoundTrip.PayloadLimits | livetwo/src/payload/repayload.rs:273-338 | No payload of any unit exceeds 1188 bytes, and a unit goes out in two or more exactly if it is larger. |
| RePayloadRoundTrip.PayloadsBySize | livetwo/src/payload/repayload.rs:262-338 | What a unit is sent as: nothing below two bytes, itself up to 1188, and else (n - 2 + 1184) / 1185 fragments. |
| RePayloadRoundTrip.FragmentSizes | livetwo/src/payload/repayload.rs:300 | Every fragment but the last has exactly 1188 bytes, the last 4 to 1188. |
| RePayloadRoundTrip.FragmentsFrom | livetwo/src/payload/repayload.rs:295-337 | Fragment k carries the unit's bytes from 2 + 1185 k on, up to its length, under the unit's header with type 49; its third byte is the unit's type with the start flag on the first fragment only and the end flag on the last only (section 4.4.3 of RFC 7798). |
| RePayloadRoundTrip.PacketLimits | livetwo/src/payload/repayload.rs:218-345 | The size limit holds on every buffer, well formed or not. |
| RePayloadRoundTrip.NumberedAcrossFrames | livetwo/src/payload/repayload.rs:276-321 | The packets of one more frame continue consecutive sequence numbers modulo 2^16. |
| RePayloadRoundTrip.HeadersKept | livetwo/src/payload/repayload.rs:275-321 | Each packet has timestamp and source of the frame's last packet, its piece and marker, and the first number plus its position modulo 2^16. |
| RePayloadRoundTrip.RelayAll | livetwo/src/payload/repayload.rs:349-481 | Over any sequence of packets given to the codec, the k-th packet it sends carries its first number plus k modulo 2^16. |
| RePayloadRoundTrip.RelayForwardsFrame | livetwo/src/payload/repayload.rs:349-481 | A well-formed frame leaves the relay as the payloads of its own units behind the parameter sets that are due, and nothing else. |
| RePayloadRoundTrip.RelayFrame | livetwo/src/payload/repayload.rs:349-481 | Fed the packets of one frame, the codec is silent until the last one and then sends that frame. |
| Interleaved.ParsesFrame | libs/rtsp/src/tcp_stream.rs:126-161 | A built frame parses to its channel and data and consumes exactly its length, whatever follows. |
| Interleaved.PrefixDoesNotParse | libs/rtsp/src/tcp_stream.rs:126-161 | A proper prefix of a frame is reported incomplete. |
| Interleaved.NeverOversize | libs/rtsp/src/tcp_stream.rs:142-150 | The oversize branch of the parser is dead on every input. |
| Interleaved.FramesInjective | libs/rtsp/src/tcp_stream.rs:236-253 | A byte stream is the concatenation of frames in at most one way. |
| Interleaved.DrainFrames | libs/rtsp/src/tcp_stream.rs:78-94 | The inner loop computes the drain function; what that is, the next row says. |
| Interleaved.DrainExactly | libs/rtsp/src/tcp_stream.rs:78-94 | On every buffer: it is the frames taken off followed by what is left, and no frame is ahead there (under four bytes, no 36, or fewer bytes than the length announces). |
| Interleaved.HandleReadStream | libs/rtsp/src/tcp_stream.rs:42-124 | The read loop computes the reader function; what its branches do, the next rows say. |
| Interleaved.ReadBranches | libs/rtsp/src/tcp_stream.rs:52-111 | One read, on every state: an empty one ends the run; one that would take the buffer over 2097152 bytes empties it and is dropped, with what was sent kept; any other is appended and drained, and if what is left does not start with 36 and the RTSP parser consumes something of it, a message or a byte it rejects, that goes and the run ends. |
| Interleaved.ReadAccounts | libs/rtsp/src/tcp_stream.rs:42-124 | Over all bytes, framed or not, and however they are cut: unless the buffer was emptied, what was read is the frames sent, then what the RTSP parser consumed if it ended the run, then the buffer. |
| Interleaved.ClearedIsNoFrame | libs/rtsp/src/tcp_stream.rs:63-73 | Only a buffer that does not start a frame can be emptied that way. |
| Interleaved.ReaderIsChunkingIndependent | libs/rtsp/src/tcp_stream.rs:42-124 | However a prefix of a frame stream is cut into reads of 1 to 65536 bytes, the reader sends exactly the complete frames in order, keeps a proper prefix of the next, and takes no exceptional branch. |
| Interleaved.BuildFrame | libs/rtsp/src/tcp_stream.rs:236-253 | A frame is built exactly for lengths up to 65535, else an error. |
| Interleaved.FrameBytes | libs/rtsp/src/tcp_stream.rs:236-253 | A frame is 36, the channel, the length in two bytes, high one first, and the data (section 10.12 of RFC 2326). |
| Interleaved.HandleWriteStream | libs/rtsp/src/tcp_stream.rs:183-234 | The writer's loop computes the writer function; what that is, the next row says. |
| Interleaved.WrittenExactly | libs/rtsp/src/tcp_stream.rs:183-234 | The wire carries the messages of at most 65535 bytes in front of the first one of 65536 to 1048576 bytes, at which the task ends with an error; larger ones are dropped, and it ends without error exactly if there is no such message. |
| Interleaved.WireIsFrames | libs/rtsp/src/tcp_stream.rs:183-234 | The wire carries the frames of the written messages, which are all of them exactly if each fits 16 bits. |
| Interleaved.WriterThenReader | libs/rtsp/src/tcp_stream.rs:42-253 | Writer then reader, whatever the chunking, delivers what was written; it is the identity if and only if every message has at most 65535 bytes. |
| Fragment.BuildFragment | liveion/src/recorder/fmp4.rs:712-811 | Appending placeholders and patching three sizes and the data offset afterwards yields properly nested boxes. |
| Fragment.AppendMoof | liveion/src/recorder/fmp4.rs:725-800 | The movie fragment box appended to any buffer, with positions saved on the way. |
| Fragment.PatchSizes | liveion/src/recorder/fmp4.rs:783-800 | The four in-place patches hit exactly the four placeholders and nothing else. |
| Fragment.ParseCons | liveion/src/recorder/fmp4.rs:695-702 | A box whose size field is its length parses, and parsing goes on right behind it. |
| Fragment.RowsReadBackExactly | liveion/src/recorder/fmp4.rs:766-781 | The sample table partitions the media data into the samples exactly if each sample's length fits its 32-bit field. |
| Fragment.FlagsMean | liveion/src/recorder/fmp4.rs:769-779 | The sample flags: `sample_depends_on` is 2 for a sync sample and 1 for another, bit 16 (`sample_is_non_sync_sample`) is set for the latter alone, and nothing else is; the reader decodes bit 16. |
| Fragment.MdatIsRead | liveion/src/recorder/fmp4.rs:802-808 | A reader that knows sizes 0 and 1 of section 4.2 reads the trailing mdat as it was written exactly if its size field holds its length or has wrapped to 0. |
| Fragment.FragmentReadsBack | liveion/src/recorder/fmp4.rs:712-811 | Reading a fragment (section 4.2 and clauses 8.8.4 to 8.8.12 of ISO/IEC 14496-12) by box names, versions and flags of the standard and through its data offset recovers track, sequence number, base time and every sample's duration, sync flag and bytes, exactly when the size of mdat fits 32 bits, or has wrapped to 0 with every sample below 4 GiB. |
| Fragment.FragmentFront | liveion/src/recorder/fmp4.rs:720-753 | What the reader does not look at: a styp of 24 bytes with brands msdh, msdh, dash, and tfhd flags 0x200. |
| InitSegment.Join | liveion/src/recorder/fmp4.rs:139-209 | Box lists that tile their buffers tile the concatenation. |
| InitSegment.EntryParses | liveion/src/recorder/fmp4.rs:211-507 | The sample entry is one well-formed box with its configuration box inside; which boxes these are, `InitSegmentBytes.EntryByCodec` says. |
| InitSegment.MvexParses | liveion/src/recorder/fmp4.rs:675-692 | The movie extends box holds exactly one trex box. |
| InitSegment.MoovParses | liveion/src/recorder/fmp4.rs:139-209 | The movie box is the expected tree: every size is the box's length and children tile each container. |
| InitSegment.InitSegmentReadsBack | liveion/src/recorder/fmp4.rs:88-98 | For every track kind and codec the whole initialisation segment reads back as file type and movie box, as long as it fits a 32-bit size; the rows below say which names, fields and codec boxes stand where. |
| InitSegment.HeaderFieldsReadBack | liveion/src/recorder/fmp4.rs:509-576 | Time scale, track id, next track id and picture size are found at the positions where a player reads them, sizes modulo 2^16. |
| InitSegment.AvccReadsBack | liveion/src/recorder/fmp4.rs:643-673 | Parsing the AVC configuration (section 5.3.3.1 of ISO/IEC 14496-15) returns the SPS and PPS list exactly when lengths fit 16 bits and the count fits 8. |
| InitSegmentBytes.BoxesInPlace | liveion/src/recorder/fmp4.rs:88-235 | Every box of the file stands at its position by its four letters and its size: those before the sample entry at fixed offsets behind ftyp, the empty tables, mvex and trex at fixed distances from the end; the media header is vmhd for video and smhd for audio. |
| InitSegmentBytes.EntryByCodec | liveion/src/recorder/fmp4.rs:211-235 | The letters of the sample entry and of its configuration box, by the start of the codec string in whatever case: hev1 or hvc1 give hev1 with hvcC, av01 av01 with av1C, vp09 and vp08 themselves with vpcC, every other video string avc1 with avcC; audio gets Opus with dOps. |
| InitSegmentBytes.ConfigurationByCodec | liveion/src/recorder/fmp4.rs:237-413 | What a video track's configuration box holds, by the codec string: for HEVC and AV1 the first blob, for VP8 and VP9 version 1, six fields and at most 65535 bytes of initialisation data behind their length, else an avcC with profile, compatibility and level of the SPS that returns SPS and PPS list exactly if lengths and count fit; nothing without blobs. |
| InitSegmentBytes.VisualFields | liveion/src/recorder/fmp4.rs:237-267 | Width, height, resolution, frame count and depth at their positions in a video entry. |
| InitSegmentBytes.OpusFields | liveion/src/recorder/fmp4.rs:461-494 | Channel count, sample size and rate at their positions in an audio entry, and the Opus header with channels and rate. |
| InitSegmentBytes.HandlerByKind | liveion/src/recorder/fmp4.rs:162-176 | The handler is vide with the name VideoHandler for video, and soun with SoundHandler for audio. |
| InitSegmentBytes.HeadersInPlace | liveion/src/recorder/fmp4.rs:509-624 | Time scale, track id, next track id, picture size, rate, volume and the constant flags and counts at their positions in the file. |
| InitSegmentBytes.MatricesInPlace | liveion/src/recorder/fmp4.rs:519-528 | The matrices of movie and track are the unity matrix. |
| InitSegmentBytes.TrexInPlace | liveion/src/recorder/fmp4.rs:675-692 | The defaults for fragments end the file: the track, sample description 1, no duration or size, flags 0x01010000. |
| InitSegmentBytes.BrandsByCodec | liveion/src/recorder/fmp4.rs:100-137 | ftyp has major brand isom, version 512, brands isom, iso2 and mp41, and a fourth one by the codec string: avc1 for avc, av01, hev1, hvc1, vp09 or vp08 for themselves, Opus for an audio string that is opus in whatever case, none for others. |
| InitSegment.StartIsPrefix | liveion/src/recorder/fmp4.rs:214-226 | Looking for a prefix in the lower-cased string is looking for it with A to Z equal to a to z and every other character equal to itself alone. |
| Segmenter.DescribedFileReads | liveion/src/recorder/segmenter.rs:534-579 | A stored segment file reads back with the timeline entry's time as decode time and its duration as the sum of sample durations. |
| Segmenter.PublishedEntryReads | liveion/src/recorder/segmenter.rs:803-821 | At every manifest write, the file numbered k+1 has been written for the k-th timeline entry and, as last written, reads back with exactly the time and duration announced. |
| Segmenter.TimelineIsContiguous | liveion/src/recorder/segmenter.rs:555-566 | Timelines start at 0 without gap or overlap. |
| Segmenter.FilesSnoc | liveion/src/recorder/segmenter.rs:534-579 | Storing the next fragment keeps every earlier file and adds the next number. |
| Segmenter.FilesMatch | liveion/src/recorder/segmenter.rs:803-821 | The timeline of the closed segments matches the files, entry by entry. |
| Segmenter.ManifestsSnoc | liveion/src/recorder/segmenter.rs:632-821 | A further write keeps all earlier manifests in agreement with the files of their moment. |
| Segmenter.ManifestPublished | liveion/src/recorder/segmenter.rs:632-821 | After a manifest write the current manifest lists every closed segment of each ready track, and the initialisation files are those of the writers. |
| Segmenter.Segmenter.RefreshVideoMetadata | liveion/src/recorder/segmenter.rs:352-369 | What the adapter knows replaces what was known; a zero size or a missing codec string does not. |
| Segmenter.VideoBoundsPush | liveion/src/recorder/segmenter.rs:275-298 | Every segment closed by a push lasts at least the target and the next one starts on a sync sample. |
| Segmenter.Segmenter.VideoSegmentLength | liveion/src/recorder/segmenter.rs:275-298 | At every moment: a closed video segment that no flush closed has lasted at least 10 times the time scale, that is ten seconds, and the next one starts on a sync sample. |
| Segmenter.Segmenter.VideoClosedInTime | liveion/src/recorder/segmenter.rs:275-277 | At every moment: in no video segment, closed or open, has a sync sample behind the first come once the segment had lasted 10 times the time scale; so segments are closed as soon as they can be. |
| Segmenter.AudioBoundsPush | liveion/src/recorder/segmenter.rs:172-196 | Every audio segment closed by a push lasts at least the target and less than the target plus its last sample. |
| Segmenter.Segmenter.AudioSegmentLength | liveion/src/recorder/segmenter.rs:581-598 | At every moment: a closed audio segment that no flush closed lasts at least 10 times the writer's time scale and less than that plus its last sample, and the buffer holds less than that. |
| Segmenter.DurationsAddUp | liveion/src/recorder/segmenter.rs:287-298 | The clock position equals the end of the last segment plus the buffered durations. |
| Segmenter.Segmenter.StoreFile | liveion/src/recorder/segmenter.rs:823-861 | Storing appends exactly this write to the log, and reports no failure. |
| Segmenter.Segmenter.WriteManifest | liveion/src/recorder/segmenter.rs:632-821 | The manifest written lists exactly the closed segments of both tracks, agrees with the files, and is the current one. |
| Segmenter.Segmenter.StoreSegment | liveion/src/recorder/segmenter.rs:534-630 | The next fragment is stored under the next number; the other track's files and the initialisation files stay. |
| Segmenter.Segmenter.ResetVideoState | liveion/src/recorder/segmenter.rs:335-350 | The finished epoch is recorded with its closed segments and the buffered samples it drops; the new one starts with nothing. |
| Segmenter.Segmenter.EnsureVideoAdapter | liveion/src/recorder/segmenter.rs:313-333 | A change of codec ends the epoch, dropping its buffer, and takes the adapter's time scale if it is positive, with a target of 10 times that; the same codec changes nothing, and a time scale of 0 keeps time scale and target; what was accepted over all epochs stays recorded. |
| Segmenter.Segmenter.LossesExactly | liveion/src/recorder/segmenter.rs:243-350 | At every moment, over all codec changes, each accepted video sample is still in a file or buffered, or it is gone, and none is gone exactly if every epoch ended cleanly. |
| Segmenter.Segmenter.ListedExactly | liveion/src/recorder/segmenter.rs:335-474 | Once the current epoch's track is ready, the current manifest lists its segments and no others, the files of those numbers are theirs and the initialisation file is its writer's; what is listed or buffered is everything ever accepted if and only if every finished epoch accepted nothing. |
| Segmenter.Segmenter.AudioListed | liveion/src/recorder/segmenter.rs:476-630 | Once there is an audio writer, the current manifest lists every closed audio segment under its time scale, the files hold them, the initialisation file is the writer's, and segments and buffer are everything accepted. |
| Segmenter.KeptOrLost | liveion/src/recorder/segmenter.rs:335-350 | Conservation over epochs: the accepted samples are those still in a file or buffered and those gone, and if none is gone they are the former in order. |
| Segmenter.NothingLostExactly | liveion/src/recorder/segmenter.rs:335-350 | No accepted sample has left the files and the buffer if and only if every codec change found an empty buffer, and no epoch closed a segment after an earlier one had. |
| Segmenter.EpochSplits | liveion/src/recorder/segmenter.rs:335-350 | Which samples a finished epoch lost: the segments whose numbers were reused, which come first, and the buffer it ended with, which comes last. |
| Segmenter.StoredUntilReused | liveion/src/recorder/segmenter.rs:534-579 | A segment of a finished epoch is in its file exactly until a later epoch closes a segment of that number; then the file is that epoch's. |
| Segmenter.Segmenter.NormalizeCodec | liveion/src/recorder/segmenter.rs:221-228 | The codec is the part behind the last slash, in lower case. |
| Segmenter.Segmenter.InitWriter | liveion/src/recorder/segmenter.rs:399-474 | The first writer has track 1, the time scale, the codec and the size of the picture, 1280 x 720 if unknown; exactly its initialisation segment is stored, the manifest is brought up to date and segment 1 is opened. |
| Segmenter.ConfigIsTaken | liveion/src/recorder/segmenter.rs:427-441 | The adapter's configuration goes into the initialisation segment exactly for codec strings that start with avc1, av01, hev1 or hvc1 in whatever case; without one it is empty. |
| Segmenter.SizesKnown | liveion/src/recorder/segmenter.rs:399-424 | The size of the picture is the adapter's if positive, else the one known before, else the fallback. |
| Segmenter.Segmenter.OpenNewSegment | liveion/src/recorder/segmenter.rs:527-532 | The next segment starts at the current position with an empty buffer and the next number. |
| Segmenter.Segmenter.RollSegment | liveion/src/recorder/segmenter.rs:534-579 | The buffered samples become the next closed segment, in a file of the next number and in the current manifest; without samples or track nothing changes. |
| Segmenter.Segmenter.PushVideoFrame | liveion/src/recorder/segmenter.rs:243-311 | The samples accepted over all epochs grow by exactly this frame, or stay while there is no track; only another codec starts a new epoch, with the adapter's time scale. The open segment is closed exactly before a sync sample once it has lasted 10 times the time scale; a track that becomes ready gets a writer for its time scale, size and codec and one that was ready keeps it; within the epoch stored fragments plus buffer equal the accepted samples, and the current manifest and initialisation file stay up to date. |
| Segmenter.Segmenter.ConfigureAudioTrack | liveion/src/recorder/segmenter.rs:198-229 | Only given parameters replace the defaults, the channels of the fmtp line win, the codec is normalised, and nothing recorded changes. |
| Segmenter.Segmenter.InitAudioWriter | liveion/src/recorder/segmenter.rs:476-525 | The audio writer has the configured rate and channels, 48000 and 2 if unknown; its initialisation segment is stored and the manifest is up to date. |
| Segmenter.Segmenter.RollAudioSegment | liveion/src/recorder/segmenter.rs:581-630 | The buffer is closed, stored and listed exactly when it is non-empty and has lasted 10 times the time scale or is forced. |
| Segmenter.Segmenter.PushOpus | liveion/src/recorder/segmenter.rs:172-196 | Every packet is accepted, in order; the buffer is closed with this packet exactly if it then lasts 10 times the time scale. The first packet creates the writer, with 48000 Hz and 2 channels for unknown ones. |
| Segmenter.Segmenter.Flush | liveion/src/recorder/segmenter.rs:393-397 | Afterwards both buffers are empty, each that was not is one more closed segment, and the stored fragments hold exactly the accepted samples. |
| RecordingClock.GapIsExact | liveion/src/recorder/task.rs:329-335 | The wrapping difference of two 32-bit stamps is the true gap below 2^32. |
| RecordingClock.RecordAudio | liveion/src/recorder/task.rs:318-345 | After n packets the audio position is 960 + T_n - T_1, whatever wraps happened. |
| RecordingClock.RecordVideo | liveion/src/recorder/task.rs:252-309 | After n frames of one codec, from the first frame at which the adapter was ready on, the video position has followed the true clock, with 3000 ticks for the first frame of all and for every frame without progress: 3000 + T_n - T_1 if that is the first frame. |
| RecordingClock.VideoPositionExact | liveion/src/recorder/segmenter.rs:269-298 | It is 3000 + T_n - T_1 exactly when no two consecutive frames carry the same timestamp. |
| RecordingClock.PositionIsAccepted | liveion/src/recorder/segmenter.rs:287-298 | The position is the total duration of the accepted samples. |
| PliBackoff.PliBackoff.Check | liveion/src/recorder/pli_backoff.rs:93-111 | The method computes whether a request is due; when that is, over whole runs, `PliBackoff.RequestedExactly` says. |
| PliBackoff.PliBackoff.RecordRequest | liveion/src/recorder/pli_backoff.rs:116-128 | A request grows the time-out by the multiplier up to the cap if backing off exponentially, and is stamped and counted. |
| PliBackoff.PliBackoff.RecordKeyframe | liveion/src/recorder/pli_backoff.rs:133-139 | A key frame restarts time-out and request count, forgets the last request and is stamped and counted. |
| PliBackoff.PliBackoff.HardReset | liveion/src/recorder/pli_backoff.rs:168-173 | A hard reset also forgets the last key frame; only the totals survive. |
| PliBackoff.PliBackoff.Tick | liveion/src/recorder/task.rs:227-239 | A request is recorded only if it was due and could be sent. |
| PliBackoff.TimeoutStep | liveion/src/recorder/pli_backoff.rs:119-124 | Capping the time-out at every step is capping the power once. |
| PliBackoff.RunState | liveion/src/recorder/pli_backoff.rs:93-173 | Over every run the time-out after k requests is min(initial * m^k, max), k being the requests since the last restart, or always the initial one without exponential back-off. |
| PliBackoff.RequestBudget | liveion/src/recorder/pli_backoff.rs:93-173 | Requests of a run never exceed the limit times key frames plus hard resets plus one. |
| PliBackoff.RequestedExactly | liveion/src/recorder/pli_backoff.rs:93-173 | Over every run a sendable tick makes a request, one, if and only if the limit is 0 or above the number k of requests since the last restart, and the k-th time-out has passed since the last key frame, or without one since the last request, or there was neither; a tick without request changes nothing, and key frames and resets make none. |
| PliBackoff.FirstTickIsDue | liveion/src/recorder/pli_backoff.rs:93-104 | A new recorder, whatever its settings, makes a request at its first sendable tick, and a tick right behind any reset is due. |
| PliBackoff.KeyframesCounted | liveion/src/recorder/pli_backoff.rs:133-173 | Over every run the key frame total is the number of key frames, resets or not. |
| PliBackoff.DefaultSchedule | liveion/src/recorder/pli_backoff.rs:44-54 | With the settings of the recorder the time-outs are 5, 10, 20 and from then on 30 seconds. |
| RecordingsIndex.RecordKeyIsDigits | liveion/src/recorder/mod.rs:278-285 | Record ids are made of digits. |
| RecordingsIndex.RecordKeyNames | liveion/src/recorder/mod.rs:278-285 | The digits are the record id if it is positive, else the whole seconds of the start time, or 0 before 1970. |
| RecordingsIndex.KeysAreInjective | liveion/src/recorder/index.rs:24-28 | Two recordings with the same key are the same recording, whatever slashes the stream names have. |
| RecordingsIndex.RecordingsIndex.Upsert | liveion/src/recorder/index.rs:56-62 | The entry is stored under its own key. |
| RecordingsIndex.RecordingsIndex.UpdateStatus | liveion/src/recorder/index.rs:64-83 | Exactly the entry of this recording is updated and restamped, if there is one. |
| RecordingsIndex.StatusMeans | liveion/src/recorder/index.rs:72-80 | Only the entry under "stream/record" changes, and of it the status, the end, the duration and the stamp, each to the value given; a recording that is not listed changes nothing. |
| RecordingsIndex.RecordingsIndex.ListSessions | liveion/src/recorder/index.rs:111-151 | The answer is a page: the least wanted entries above the cursor in stamp order, none twice, at most the limit, which is 100 for 0, with the last stamp. |
| RecordingsIndex.SessionTells | liveion/src/recorder/index.rs:138-148 | Each session carries the record as its id and stream, start, end, duration, path and status of its entry. |
| RecordingsIndex.RecordingsIndex.Ack | liveion/src/recorder/index.rs:153-170 | Exactly the entries of the named recordings go, and their number is returned. |
| RecordingsIndex.WithoutMeans | liveion/src/recorder/index.rs:153-162 | An entry stays exactly if no acknowledged recording has its key "stream/record", and stays as it was. |
| RecordingsIndex.RowsToPage | liveion/src/recorder/index.rs:117-140 | Filtering, sorting by stamp and truncating yields a page. |
| RecordingsIndex.PageMeans | liveion/src/recorder/index.rs:117-132 | By the entries' own fields: what is on a page is listed, of the asked stream and above the cursor; what could be on it and is not has no earlier stamp than any on it, and the page is full. |
| RecordingsIndex.PageSkipsNothing | liveion/src/recorder/index.rs:111-151 | With distinct stamps a page leaves out nothing between the cursor and its last stamp. |
| RecordingsIndex.SkipsNothingExactly | liveion/src/recorder/index.rs:111-151 | Pages of every size at once skip nothing if and only if the stamps above the cursor are distinct; the next row has the condition for one size. |
| RecordingsIndex.PageSkipsExactly | liveion/src/recorder/index.rs:111-151 | A page of the limit in use leaves out an entry at or below its last stamp if and only if, for some stamp, fewer entries than the limit lie below it and more than the limit at or below it. |
| RecordingsIndex.OnPageExactly | liveion/src/recorder/index.rs:111-151 | With distinct stamps an entry above the cursor is on the page of the given limit if and only if fewer than that many such entries have smaller stamps. |
| RecordingsIndex.PageSize | liveion/src/recorder/index.rs:128-140 | A page holds as many entries as there are above the cursor, or the limit if there are more. |
| RecordingsIndex.PageIsUnique | liveion/src/recorder/index.rs:111-151 | With distinct stamps the same index, cursor and limit give the same page. |
| RecordSync.DbUpsertKeeps | liveman/src/service/recordings_index.rs:12-40 | The database step adds exactly this recording and keeps one row for each. |
| RecordSync.DbUpsertRows | liveman/src/service/recordings_index.rs:18-37 | The rows afterwards are this one, path included, and those of all other recordings unchanged. |
| RecordSync.PullKeeps | liveman/src/tick.rs:293-345 | A pulled page covers every entry up to its last stamp. |
| RecordSync.AckDeliveredKeeps | liveion/src/recorder/index.rs:153-170 | An acknowledgement removes from the index only what the database holds. |
| RecordSync.StepKeeps | liveman/src/tick.rs:287-421 | Every step of recording, pulling, storing, acknowledging, failing or restarting keeps the whole invariant. |
| RecordSync.HandOffIsSafe | liveman/src/tick.rs:346-417 | In every interleaving each recording ever started is in its node's index or in the database, the database has one row each, entries at or below the cursor are ones the database refused, and every path stored, listed or still to store was announced for its recording. |
| RecordSync.RowPathsAreReal | liveman/src/tick.rs:362-373 | The path of each row was announced by a node that started the recording; if only one was ever announced for the key, the row carries it. |
| RecordSync.PassedStaysBehind | liveman/src/tick.rs:294-303 | An entry that the cursor has passed, refused or not, is on no later page until it is restamped or the manager restarts. |
| PageProgress.EveryEntryOffered | liveman/src/tick.rs:293-418 | With a fixed page size, over every run that leaves a node's index alone, rows refused and messages lost included: each turn that moves the cursor takes that many entries off what is waiting, and once it has taken all, every entry that was waiting has been on a page. |
| PageProgress.RestartOffersAll | liveman/src/tick.rs:293-418 | From a restart of the manager on, an unchanging index of n entries has been offered whole once turns that move the cursor, times the page size, reach n. |
| PageProgress.LostAckRepeatsPage | liveman/src/tick.rs:384-411 | If the acknowledgement is lost, the next pull gets the very same page. |
| PageProgress.StepTrack | liveman/src/tick.rs:287-421 | Each action keeps what makes this true: everything not offered yet is still to come, and its number has shrunk by the page size for each turn passed. |
| LatestPath.StepHolds | liveman/src/tick.rs:362-396 | A path that is listed or stored stays so through a step unless an acknowledgement takes the listing away while the database has another path, or a row with another path replaces it while it is not listed; then it does not. |
| LatestPath.HeldExactly | liveman/src/tick.rs:287-421 | Over every run after an announcement, up to the same node's next one for that recording, the announced path is listed or stored throughout if and only if no step drops it. |
| LatestPath.OnlyPathIsHeld | liveman/src/tick.rs:346-417 | After every run, if only one path was ever announced for a recording, it is stored or listed by each node that announced it. |
| LatestPath.PathOvertaken | liveman/src/tick.rs:346-396 | A run that drops one: the recording is announced on another path between storing its row and acknowledging it. |
| RecordSync.NextPageSkipsNothing | liveion/src/recorder/index.rs:111-151 | After every run the next page skips nothing above the cursor. |
| SyncLoop.Manager.Upsert | liveman/src/service/recordings_index.rs:12-40 | The search for an existing row computes the database step. |
| SyncLoop.Manager.StoreRows | liveman/src/tick.rs:346-379 | Storing the page row by row, with the node's own changes before each row, is a run of the step relation, and exactly the accepted rows are to be acknowledged. |
| SyncLoop.Manager.AckPage | liveman/src/tick.rs:381-417 | The cursor moves to the page's last stamp exactly if nothing was stored or the node confirmed, and stays otherwise, whatever the node does between acknowledgement and answer. |
| CleanTurn.TurnAchieves | liveman/src/tick.rs:293-418 | From anywhere in any run, a turn in which every row is stored and both messages arrive leaves each entry of the page in the database with its path, exactly those entries out of the node's index, all other rows, nodes and cursors as they were, and the cursor at the page's last stamp. |
| SyncLoop.Manager.SyncServer | liveman/src/tick.rs:293-418 | One server's turn, with the node's own changes between any two of its steps, is a run of the step relation, so everything proved about runs holds of it. |
| SyncLoop.Manager.SyncPage | liveman/src/tick.rs:346-418 | What follows a pulled page: its rows, and the acknowledgement of those stored. |
| LayerSwitch.SenderForward.TrackChange | liveion/src/forward/subscribe.rs:124-169 | Without tracks the task detaches and forgets the previous rid, keeping only a mute; otherwise an idle, unmuted task attaches to the first track of its kind; the other kind's binding stays. |
| LayerSwitch.SenderForward.Packet | liveion/src/forward/subscribe.rs:170-193 | A packet is written under the next sequence number only with a live track; a write error ends the task. |
| LayerSwitch.SenderForward.SelectLayer | liveion/src/forward/subscribe.rs:194-266 | Muting remembers the current rid, unmuting goes back to it or to the first track of the kind, any other rid is looked up. An unmuted task that selects another rid receives from the first video track with it, is live and bound to it, if there is one and the replacement succeeds; otherwise nothing changes. The other kind's binding stays. |
| LayerSwitch.SenderForward.AttachSelected | liveion/src/forward/subscribe.rs:241-262 | Attaches to the first video track of that rid, if the replacement succeeds. |
| LayerSwitch.FirstSelectedFinds | liveion/src/forward/subscribe.rs:241-242 | The selection finds a track exactly if some published video track answers to the rid. |
| LayerSelection.SelectionSwitches | liveion/src/forward/subscribe.rs:194-262 | Selecting a rid that is no marker and not the binding, unmuted: the task goes to the least index of a video track with that rid, live and bound to it, with numbers and remembered rid kept, exactly if there is one and the replacement succeeds; else nothing changes. |
| LayerSelection.EnableSwitches | liveion/src/forward/subscribe.rs:241-262 | Enabling while unmuted and not bound to the marker: the first video track, under the marker. |
| LayerSelection.MuteMeans | liveion/src/forward/subscribe.rs:230-238 | Disabling: a bound task drops source and track and remembers its rid; an unbound one is bound to the marker and nothing else. |
| LayerSelection.UnmuteMeans | liveion/src/forward/subscribe.rs:206-262 | Enabling while muted goes back to the remembered rid, or to that of the first track of the kind: the first video track that answers to it is attached, and without one, or if the replacement fails, the task is left unbound. |
| LayerSelection.TrackChangeMeans | liveion/src/forward/subscribe.rs:124-169 | A change of tracks, case by case: none left, live or muted, and idle, which attaches the first track of the kind. |
| LayerSelection.PacketMeans | liveion/src/forward/subscribe.rs:170-193 | A live task writes the packet under its own number and moves on by one modulo 65536, or ends if the write fails; an idle one does nothing. |
| LayerSelection.ReceivingStep | liveion/src/forward/subscribe.rs:116-269 | One event of a receiving video task: it goes on receiving exactly if the event is no mute of its kind, empties no tracks, fails no write and does not end the task, and is then on the selected rid if the selection could be honoured and on its own otherwise. |
| LayerSelection.AlwaysOnLastHonoured | liveion/src/forward/subscribe.rs:116-269 | After every list of events, a live video subscriber is on the last rid whose selection could be honoured since it was attached or unmuted, on what it was attached to if there was none. |
| LayerSelection.OnLastHonoured | liveion/src/forward/subscribe.rs:194-262 | The same from any receiving state on, over every run that does not disturb it. |
| LayerSwitch.TrackChangeKeeps | liveion/src/forward/subscribe.rs:124-169 | A change of tracks keeps the invariant. |
| LayerSwitch.SelectKeeps | liveion/src/forward/subscribe.rs:194-266 | A selection keeps the invariant. |
| LayerSwitch.AlwaysConsistent | liveion/src/forward/subscribe.rs:116-269 | Over every event sequence a live track, an enabled binding and a real source are the same thing, the source is the one the binding names, and the n-th packet written carries n modulo 2^16. |
| LayerSwitch.VideoReadsVideo | liveion/src/forward/subscribe.rs:116-269 | Over every event sequence a video subscriber reads from video tracks only. |
| LayerSwitch.AudioReadsVideoExactly | liveion/src/forward/subscribe.rs:116-269 | Over every event sequence an audio subscriber comes to read a video track if and only if some selection for audio, of a rid other than its binding, finds a video track and the replacement succeeds. |
| LayerSwitch.StrayRun | liveion/src/forward/subscribe.rs:242 | A run that does: audio is enabled while it is on already. |
| LayerSwitch.MuteUnmute | liveion/src/forward/subscribe.rs:194-266 | Disable, any events that leave the mute in place, enable: nothing is written meanwhile, and the subscriber is live on the same rid exactly if the replacement succeeds and a published video track answers to the rid; or, if the publisher went away in between, the first video track then published carries that rid. |
| LayerSwitch.MuteStands | liveion/src/forward/subscribe.rs:124-229 | Through any such events the muted state is unchanged, but for the remembered rid, which is forgotten exactly if the tracks were emptied. |
| LayerSwitch.MuteStandsExactly | liveion/src/forward/subscribe.rs:116-269 | A mute holds throughout a run exactly if no event ends the task, enables the kind, or selects for it a track that is found and attached. |
| LayerSwitch.RidForgotten | liveion/src/forward/subscribe.rs:131 | A run that comes back on another layer although the muted one is published again. |
| LayerSwitch.AudioReadAgain | liveion/src/forward/subscribe.rs:141-165 | An audio subscriber that reads no audio reads it at some later point exactly if a track change with an audio track and a successful replacement arrives while it is idle and unmuted. |
| LayerSwitch.AudioUnmuteExactly | liveion/src/forward/subscribe.rs:116-269 | Enabling does not bring a muted audio subscriber back to audio; from then on it reads audio again exactly if such a track change arrives. |
| LayerSwitch.AudioComesBack | liveion/src/forward/subscribe.rs:141-165 | With only audio published, enabling leaves the subscriber idle and unmuted, and the next non-empty track change attaches it to the first audio track. |
| LayerSwitch.AudioRun | liveion/src/forward/subscribe.rs:242 | A run that is silent after the unmute and back on audio after the next track change. |
| ForwardLifecycle.PeerForwardInternal.SetPublish | liveion/src/forward/internal.rs:247-277 | Fails if there is a publisher; otherwise sets it, clears the leave time and counts it. |
| ForwardLifecycle.PeerForwardInternal.RemovePublish | liveion/src/forward/internal.rs:279-304 | Only the current publisher can be removed; the leave time is set and the gauge drops. |
| ForwardLifecycle.PeerForwardInternal.AddSubscribe | liveion/src/forward/internal.rs:574-617 | The subscriber is appended, the leave time cleared, and the gauges count it. |
| ForwardLifecycle.PeerForwardInternal.RemoveSubscribe | liveion/src/forward/internal.rs:619-661 | The first subscriber with this id goes, with its gauges; an empty group sets the leave time, found or not. |
| ForwardLifecycle.PublishMeans | liveion/src/forward/internal.rs:247-277 | The whole forward and the gauges after a publisher comes: accepted exactly if there was none and the connection could be set up, the leave time is then 0, one event, one more on the gauge; else nothing changes. |
| ForwardLifecycle.UnpublishMeans | liveion/src/forward/internal.rs:279-304 | After the current publisher goes: none, and the leave time is the time of the removal; for any other session nothing changes. |
| ForwardLifecycle.SubscribeMeans | liveion/src/forward/internal.rs:574-617 | After a subscriber comes: it is last in the group, the leave time is 0, and its events and gauges follow its cascade. |
| ForwardLifecycle.UnsubscribeMeans | liveion/src/forward/internal.rs:619-661 | After a subscriber goes: the least index with its id leaves the group and no other, and the leave time is the time of the removal exactly if the group is empty then. |
| ForwardLifecycle.UnsubscribeMisses | liveion/src/forward/internal.rs:645-660 | For an id that nobody has: an error, and only an empty group's leave time changes, to the time of the attempt. |
| ForwardLifecycle.LeaveTimes | liveion/src/forward/internal.rs:247-661 | Over every run of a forward: without subscribers the leave time is that of the last removal asked for, or the creation, and 0 with some; without publisher it is that of the last publisher's removal, or 0 if there never was one, and 0 with one. |
| ForwardLifecycle.OpKeeps | liveion/src/forward/internal.rs:247-661 | Every operation keeps: publish events alternate and name the current publisher, leave times are set exactly when somebody published and nobody does or when the group is empty, and for every session id the group holds what came minus what left. |
| ForwardLifecycle.OpCounts | liveion/src/forward/internal.rs:247-661 | Every operation moves the publish, subscribe and reforward gauges by what really changed on the forward. |
| ForwardLifecycle.Manager.StreamCreate | liveion/src/stream/manager.rs:199-233 | A new stream gets a new forward and the gauge counts it; an existing one is an error. |
| ForwardLifecycle.Manager.StreamDelete | liveion/src/stream/manager.rs:235-262 | An existing stream goes and the gauge drops by one; a missing one is an error. |
| ForwardLifecycle.Manager.CollectCandidates | liveion/src/stream/manager.rs:77-87 | The first pass of either tick collects exactly the candidates (the other tick: lines 137-147). |
| ForwardLifecycle.Manager.RemoveExpired | liveion/src/stream/manager.rs:92-126 | The second pass removes exactly the given streams that are still there and still expired, and the gauge drops by two for each (the other tick: lines 152-186). |
| ForwardLifecycle.TickRemoves | liveion/src/stream/manager.rs:70-188 | What a whole tick removes, in terms of publisher, subscribers and leave times. |
| ForwardLifecycle.SubscriberTimeoutExactly | liveion/src/stream/manager.rs:141-143 | A stream without subscribers for longer than the timeout is removed exactly if its publisher did not leave within the timeout, because the first pass looks at the publisher's leave time. |
| ForwardLifecycle.SubscriberTimeoutDelayed | liveion/src/stream/manager.rs:141-143 | A stream for which that delays the removal. |
| ForwardLifecycle.AlwaysHealthy | liveion/src/stream/manager.rs:70-262 | Over every interleaving of operations and ticks: every forward is in order, no two streams share one, the gauges equal the real counts, and the stream gauge plus the timeout removals equals the number of streams. |
| ForwardLifecycle.StreamGaugeExactly | liveion/src/stream/manager.rs:102-113 | After a run the stream gauge is the number of streams if and only if the second pass of every tick in it found no stream to remove. |
| ForwardLifecycle.StreamGaugeBelowZero | liveion/src/stream/manager.rs:162-173 | One stream that times out leaves the gauge at -1. |
| ForwardLifecycle.TickSpares | liveion/src/stream/manager.rs:92-126 | Whatever happens between its passes, a tick never removes a stream that has the publisher, or the subscribers, it waits for. |
| ForwardLifecycle.Perform | liveion/src/stream/manager.rs:199-262 | Every action on the manager, forward and gauge objects is a step of the system, also on forwards that have left the map. |
| ForwardLifecycle.Play | liveion/src/stream/manager.rs:70-262 | Any sequence of actions on a new manager is a run of the system, so everything proved about runs holds of the objects. |

## Left out

- The IDR test of H.265 (`is_idr_frame`, its cache and hash): its answer is an input to injection.
- The depacketisers and payloaders of the WebRTC library: an H.265 payload reaches the codec unchanged, and the branch of `payload` that packetises H.264, VP8, VP9 and AV1 with the library is not part of this model.
- The sequence-number check of `payload` only logs and is not part of this model.
- Segmenter: positions, durations and segment numbers are unbounded; fragment fields truncate to their width as in the code. Its fields are grouped into a video and an audio record, and the calls it makes into the key frame back-off are not wired to `PliBackoff`.
- Segmenter: writes are detached tasks that may complete in any order; the model has them in the order in which they are issued, so "at that moment" means among the writes issued so far, and a failed upload is not part of this model.
- Segmenter: the manifest's XML text, bit rate, frame rate and the parsing of fmtp lines; a manifest is its two timelines.
- Segmenter: the codec adapters are an arbitrary source of payload, sync flag, readiness and parameters.
- InitSegment: the box builders only append to local buffers and are modelled as functions; the six fields that vpcC takes from the codec string, and the blobs of all codecs, are parameters.
- `nalu_to_avcc`, `derive_next_base_dir` and rotation would only add easy members.
- PliBackoff: durations are real numbers, so rounding of `mul_f64` is not part of this model.
- Interleaved: the parser of RTSP messages is an arbitrary function; sockets and channels do not fail.
- RecordingsIndex: loading and writing `index.json`, and failures of that.
- RecordSync: stamps are assumed to increase strictly at each change of an index; `RecordingsIndex.PageSkipsExactly` says what happens otherwise.
- SyncLoop.Manager.SyncServer: one server's turn; the loop over servers repeats it, and a restart of the manager in the middle of a turn is a step of `RecordSync` only.
- HTTP and SQL are steps that may fail.
- LayerSwitch: the picture-loss message sent on attaching, and the panic if nobody can receive it.
- ForwardLifecycle: each method is one atomic step, and each pass of a tick reads the clock once. In the code `add_subscribe` takes the group lock and the leave-time lock one after the other.
- ForwardLifecycle: the published tracks, closing peer connections (they report back later as removals), cascade clients, and web hooks.
- The web interface, authentication, configuration, camera control, KCP, MQTT and SOCKS.
