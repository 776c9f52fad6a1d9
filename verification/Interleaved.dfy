/** RTSP interleaved framing (section 10.12 of RFC 2326): the reader that cuts a TCP byte stream,
    read in arbitrary chunks, into frames, and the writer that builds it. */
module Interleaved {
  import opened Octets

  const DOLLAR: byte := 36
  const HEADER_SIZE: nat := 4
  const TCP_READ_BUFFER_SIZE: nat := 64 * 1024
  const MAX_BUFFER_SIZE: nat := 2 * 1024 * 1024
  const MAX_FRAME_SIZE: nat := 1024 * 1024

  datatype Message = Message(channel: byte, data: seq<byte>)

  // ---- The two pure parsers ----

  datatype Parsed = Parsed(message: Message, consumed: nat, oversize: bool)

  /** `parse_interleaved_frame` */
  function ParseFrame(buffer: seq<byte>): (r: Option<Parsed>)
    ensures r.Some? ==> HEADER_SIZE <= r.value.consumed <= |buffer|
  {
    if |buffer| < HEADER_SIZE || buffer[0] != DOLLAR then None
    else
      var channel := buffer[1];
      var length: nat := U16At(buffer, 2);
      if length > MAX_FRAME_SIZE then Some(Parsed(Message(channel, []), HEADER_SIZE, true))
      else if |buffer| < HEADER_SIZE + length then None
      else Some(Parsed(Message(channel, buffer[HEADER_SIZE..HEADER_SIZE + length]), HEADER_SIZE + length, false))
  }

  /** The RTSP message parser is a library: any answer, as long as it consumes bytes that are there. */
  type RtspOracle = f: seq<byte> -> Option<nat> | forall b :: f(b).Some? ==> f(b).value <= |b| witness (b => None)

  // ---- Frames ----

  function Frame(m: Message): seq<byte> {
    [DOLLAR, m.channel] + Be16(|m.data|) + m.data
  }

  function Frames(ms: seq<Message>): seq<byte> {
    if ms == [] then [] else Frame(ms[0]) + Frames(ms[1..])
  }

  predicate Sendable(m: Message) {
    |m.data| <= 0xFFFF
  }

  ghost predicate AllSendable(ms: seq<Message>) {
    forall k :: 0 <= k < |ms| ==> Sendable(ms[k])
  }

  lemma {:induction false} FramesConcat(a: seq<Message>, b: seq<Message>)
    ensures Frames(a + b) == Frames(a) + Frames(b)
  {
    if a == [] {
      assert a + b == b;
    } else {
      assert (a + b)[1..] == a[1..] + b;
      FramesConcat(a[1..], b);
    }
  }

  lemma FrameHeader(m: Message, rest: seq<byte>)
    requires Sendable(m)
    ensures var b := Frame(m) + rest;
            && |Frame(m)| == HEADER_SIZE + |m.data|
            && b[0] == DOLLAR && b[1] == m.channel && U16At(b, 2) == |m.data|
            && b[HEADER_SIZE..|Frame(m)|] == m.data && b[|Frame(m)|..] == rest
  {
    Be16RoundTrip(|m.data|);
    var b := Frame(m) + rest;
    assert b[2] == Be16(|m.data|)[0] && b[3] == Be16(|m.data|)[1];
  }

  lemma FrameLength(m: Message)
    ensures |Frame(m)| == HEADER_SIZE + |m.data|
  {
  }

  lemma ParsesFrame(m: Message, rest: seq<byte>)
    requires Sendable(m)
    ensures ParseFrame(Frame(m) + rest) == Some(Parsed(m, |Frame(m)|, false))
  {
    FrameHeader(m, rest);
  }

  /** A proper prefix of a frame does not parse; if it is not empty it starts with the dollar sign. */
  lemma PrefixDoesNotParse(m: Message, buffer: seq<byte>)
    requires Sendable(m) && buffer < Frame(m)
    ensures ParseFrame(buffer) == None && (buffer != [] ==> buffer[0] == DOLLAR)
  {
    FrameHeader(m, []);
    var f := Frame(m) + [];
    assert f == Frame(m);
    assert forall k :: 0 <= k < |buffer| ==> buffer[k] == f[k];
    if |buffer| >= HEADER_SIZE {
      assert U16At(buffer, 2) == U16At(f, 2);
    }
  }

  /** The oversize branch is dead on every input: a 16-bit length never exceeds the frame limit. */
  lemma NeverOversize(buffer: seq<byte>)
    ensures ParseFrame(buffer).Some? ==> !ParseFrame(buffer).value.oversize
  {
  }

  /** Splitting is unique: any two ways to see the same bytes as whole frames agree. */
  lemma {:induction false} FramesInjective(a: seq<Message>, b: seq<Message>)
    requires AllSendable(a) && AllSendable(b) && Frames(a) == Frames(b)
    ensures a == b
    decreases |a|
  {
    if a != [] && b != [] {
      ParsesFrame(a[0], Frames(a[1..]));
      ParsesFrame(b[0], Frames(b[1..]));
      FrameHeader(a[0], Frames(a[1..]));
      FrameHeader(b[0], Frames(b[1..]));
      FramesInjective(a[1..], b[1..]);
      assert a == [a[0]] + a[1..] && b == [b[0]] + b[1..];
    }
  }

  // ---- The reader ----

  /** How a reader run ended, and which exceptional branches it took. */
  datatype ReadOutcome = ReadOutcome(sent: seq<Message>, buffer: seq<byte>, cleared: bool, rtsp: bool, oversize: bool)

  /** The drain loop: every complete frame at the front of the buffer. */
  function Drain(buffer: seq<byte>): (r: (seq<Message>, seq<byte>, bool))
    decreases |buffer|
  {
    match ParseFrame(buffer)
    case None => ([], buffer, false)
    case Some(p) =>
      var (ms, rest, over) := Drain(buffer[p.consumed..]);
      ([p.message] + ms, rest, over || p.oversize)
  }

  method DrainFrames(initial: seq<byte>) returns (sent: seq<Message>, buffer: seq<byte>, oversize: bool)
    ensures (sent, buffer, oversize) == Drain(initial)
  {
    sent, buffer, oversize := [], initial, false;
    var next := ParseFrame(buffer);
    while next.Some?
      invariant next == ParseFrame(buffer)
      invariant sent + Drain(buffer).0 == Drain(initial).0
      invariant Drain(buffer).1 == Drain(initial).1
      invariant (oversize || Drain(buffer).2) == Drain(initial).2
      decreases |buffer|
    {
      assert Drain(buffer).0 == [next.value.message] + Drain(buffer[next.value.consumed..]).0;
      sent := sent + [next.value.message];
      oversize := oversize || next.value.oversize;
      buffer := buffer[next.value.consumed..];
      next := ParseFrame(buffer);
    }
    assert sent + [] == sent;
  }

  /** `handle_read_stream` over the successive results of `read`; an empty read is the end of the stream. */
  method HandleReadStream(chunks: seq<seq<byte>>, oracle: RtspOracle) returns (out: ReadOutcome)
    requires forall k :: 0 <= k < |chunks| ==> |chunks[k]| <= TCP_READ_BUFFER_SIZE
    ensures out == Read(chunks, oracle, ReadOutcome([], [], false, false, false))
  {
    var buffer: seq<byte> := [];
    var sent: seq<Message> := [];
    var cleared, rtsp, oversize := false, false, false;
    var i := 0;
    while i < |chunks|
      invariant 0 <= i <= |chunks|
      invariant !rtsp
      invariant Read(chunks[i..], oracle, ReadOutcome(sent, buffer, cleared, rtsp, oversize))
             == Read(chunks, oracle, ReadOutcome([], [], false, false, false))
    {
      var chunk := chunks[i];
      assert chunks[i..][0] == chunk && chunks[i..][1..] == chunks[i + 1..];
      i := i + 1;
      if |chunk| == 0 {
        break;
      }
      if |buffer| + |chunk| > MAX_BUFFER_SIZE {
        buffer := [];
        cleared := true;
        continue;
      }
      buffer := buffer + chunk;
      var ms, rest, over := DrainFrames(buffer);
      sent, buffer, oversize := sent + ms, rest, oversize || over;
      if buffer != [] && buffer[0] != DOLLAR {
        var message := oracle(buffer);
        if message.Some? {
          buffer := buffer[message.value..];
          rtsp := true;
          break;
        }
      }
    }
    return ReadOutcome(sent, buffer, cleared, rtsp, oversize);
  }

  /** The reader as a function: one non-empty read after another. */
  function Read(chunks: seq<seq<byte>>, oracle: RtspOracle, s: ReadOutcome): ReadOutcome {
    if chunks == [] || chunks[0] == [] then s
    else if |s.buffer| + |chunks[0]| > MAX_BUFFER_SIZE then
      Read(chunks[1..], oracle, s.(buffer := [], cleared := true))
    else
      var (ms, rest, over) := Drain(s.buffer + chunks[0]);
      var s' := s.(sent := s.sent + ms, buffer := rest, oversize := s.oversize || over);
      if rest != [] && rest[0] != DOLLAR && oracle(rest).Some? then
        s'.(buffer := rest[oracle(rest).value..], rtsp := true)
      else Read(chunks[1..], oracle, s')
  }

  // ---- Reading anything ----

  /** No complete frame at the front: under four bytes, no dollar sign (36), or fewer than the length
      field of the header announces. */
  predicate NoFrameAhead(buffer: seq<byte>) {
    |buffer| < 4 || buffer[0] != 36 || |buffer| < 4 + (256 * buffer[2] as int + buffer[3])
  }

  /** The bytes of a frame: the dollar sign, the channel, the length in two bytes, and the data. */
  lemma FrameBytes(m: Message)
    requires |m.data| <= 65535
    ensures Frame(m) == [36, m.channel, |m.data| / 256, |m.data| % 256] + m.data
  {
  }

  /** Draining any buffer takes the frames at its front off, and stops where no frame is ahead. */
  lemma {:induction false} DrainExactly(buffer: seq<byte>)
    ensures var (ms, rest, over) := Drain(buffer);
            && AllSendable(ms) && buffer == Frames(ms) + rest && NoFrameAhead(rest) && !over
    decreases |buffer|
  {
    hide ParseFrame, NoFrameAhead, Frame, Frames, Sendable;
    if ParseFrame(buffer).Some? {
      var p := ParseFrame(buffer).value;
      var tail := buffer[p.consumed..];
      DrainExactly(tail);
      FrontFrame(buffer);
      FramesCons(p.message, Drain(tail).0, Drain(tail).1);
    } else {
      NothingAhead(buffer);
      NoFrames(buffer);
    }
  }

  lemma FramesCons(m: Message, ms: seq<Message>, rest: seq<byte>)
    ensures Frames([m] + ms) + rest == Frame(m) + (Frames(ms) + rest)
  {
    hide Frame;
    assert ([m] + ms)[1..] == ms;
    assert Frame(m) + Frames(ms) + rest == Frame(m) + (Frames(ms) + rest);
  }

  lemma NoFrames(rest: seq<byte>)
    ensures Frames([]) + rest == rest
  {
  }

  lemma NothingAhead(buffer: seq<byte>)
    requires ParseFrame(buffer) == None
    ensures NoFrameAhead(buffer)
  {
  }

  lemma FrontFrame(buffer: seq<byte>)
    requires ParseFrame(buffer).Some?
    ensures var p := ParseFrame(buffer).value;
            Sendable(p.message) && !p.oversize && buffer == Frame(p.message) + buffer[p.consumed..]
  {
    var p := ParseFrame(buffer).value;
    var n := |p.message.data|;
    assert Be16(n) == buffer[2..4];
    assert buffer[..4] == [DOLLAR, p.message.channel] + Be16(n);
  }

  /** One read. An empty one ends the stream. One that would take the buffer over 2 MiB (2097152
      bytes) empties it and is dropped itself, with what was sent kept. Any other is appended and the
      frames at the front are sent; if what is left starts otherwise and the parser finds an RTSP
      message there, it is consumed and the run ends; else reading goes on. */
  lemma ReadBranches(chunks: seq<seq<byte>>, oracle: RtspOracle, s: ReadOutcome) returns (ms: seq<Message>, rest: seq<byte>)
    requires chunks != []
    ensures chunks[0] == [] ==> Read(chunks, oracle, s) == s
    ensures chunks[0] != [] && |s.buffer| + |chunks[0]| > 2097152 ==>
              Read(chunks, oracle, s) == Read(chunks[1..], oracle, ReadOutcome(s.sent, [], true, s.rtsp, s.oversize))
    ensures chunks[0] != [] && |s.buffer| + |chunks[0]| <= 2097152 ==>
              && AllSendable(ms) && s.buffer + chunks[0] == Frames(ms) + rest && NoFrameAhead(rest)
              && Read(chunks, oracle, s)
                 == if rest != [] && rest[0] != 36 && oracle(rest).Some?
                    then ReadOutcome(s.sent + ms, rest[oracle(rest).value..], s.cleared, true, s.oversize)
                    else Read(chunks[1..], oracle, ReadOutcome(s.sent + ms, rest, s.cleared, s.rtsp, s.oversize))
  {
    DrainExactly(s.buffer + chunks[0]);
    hide Drain, AllSendable, Frames, NoFrameAhead;
    var (sent, left, over) := Drain(s.buffer + chunks[0]);
    ms, rest := sent, left;
  }

  /** Only bytes that are no frame can fill the buffer that far. */
  lemma ClearedIsNoFrame(buffer: seq<byte>, chunk: seq<byte>)
    requires NoFrameAhead(buffer) && |chunk| <= 65536 && |buffer| + |chunk| > 2097152
    ensures buffer != [] && buffer[0] != 36
  {
  }

  /** Over any bytes whatsoever, however they are cut: unless the buffer was emptied, what was read is the
      frames that were sent, then the RTSP message that ended the run if one did, then the buffer. */
  lemma {:induction false} ReadAccounts(chunks: seq<seq<byte>>, oracle: RtspOracle, s: ReadOutcome) returns (n: nat, rtsp: seq<byte>)
    requires (forall k :: 0 <= k < |chunks| ==> chunks[k] != []) && !s.rtsp
    ensures var out := Read(chunks, oracle, s);
            && n <= |chunks| && s.sent <= out.sent && (s.cleared ==> out.cleared)
            && (!out.cleared ==> s.buffer + Flatten(chunks[..n]) == Frames(out.sent[|s.sent|..]) + rtsp + out.buffer)
            && (!out.rtsp ==> n == |chunks| && rtsp == [])
            && (out.rtsp ==> NoFrameAhead(rtsp + out.buffer) && oracle(rtsp + out.buffer) == Some(|rtsp|))
    decreases |chunks|
  {
    hide Drain, AllSendable, Frames, NoFrameAhead, Flatten;
    if chunks == [] {
      n, rtsp := 0, [];
      NothingRead(chunks, s);
    } else {
      var ms, rest := ReadBranches(chunks, oracle, s);
      hide Read;
      if |s.buffer| + |chunks[0]| > 2097152 {
        n, rtsp := ReadAccounts(chunks[1..], oracle, ReadOutcome(s.sent, [], true, s.rtsp, s.oversize));
        n := n + 1;
      } else if rest != [] && rest[0] != 36 && oracle(rest).Some? {
        n, rtsp := 1, rest[..oracle(rest).value];
        EndsHere(chunks, s.sent, ms, rest, oracle(rest).value);
      } else {
        var s' := ReadOutcome(s.sent + ms, rest, s.cleared, s.rtsp, s.oversize);
        n, rtsp := ReadAccounts(chunks[1..], oracle, s');
        var out := Read(chunks[1..], oracle, s');
        MoreRead(chunks, n, s.buffer, s.sent, ms, rest, out.sent, rtsp, out.buffer);
        n := n + 1;
      }
    }
  }

  lemma NothingRead(chunks: seq<seq<byte>>, s: ReadOutcome)
    ensures Flatten(chunks[..0]) == [] && Frames(s.sent[|s.sent|..]) == []
    ensures s.buffer + [] == [] + [] + s.buffer
  {
  }

  lemma EndsHere(chunks: seq<seq<byte>>, sent: seq<Message>, ms: seq<Message>, rest: seq<byte>, consumed: nat)
    requires chunks != [] && consumed <= |rest|
    ensures Flatten(chunks[..1]) == chunks[0] && (sent + ms)[|sent|..] == ms && rest[..consumed] + rest[consumed..] == rest
    ensures Frames(ms) + rest == Frames(ms) + rest[..consumed] + rest[consumed..]
  {
    hide Frames;
    assert chunks[..1] == [chunks[0]];
    assert Flatten([chunks[0]]) == chunks[0] + [];
    assert rest == rest[..consumed] + rest[consumed..];
  }

  /** One chunk more in front. */
  lemma MoreRead(chunks: seq<seq<byte>>, n: nat, buffer: seq<byte>, sent: seq<Message>, ms: seq<Message>, rest: seq<byte>,
                 all: seq<Message>, rtsp: seq<byte>, left: seq<byte>)
    requires chunks != [] && n < |chunks| && buffer + chunks[0] == Frames(ms) + rest && sent + ms <= all
    ensures sent <= all
    ensures rest + Flatten(chunks[1..][..n]) == Frames(all[|sent + ms|..]) + rtsp + left ==>
              buffer + Flatten(chunks[..n + 1]) == Frames(all[|sent|..]) + rtsp + left
  {
    hide Frames;
    var later := all[|sent + ms|..];
    assert all[|sent|..] == ms + later;
    FramesConcat(ms, later);
    var more := Flatten(chunks[1..][..n]);
    assert Flatten(chunks[..n + 1]) == chunks[0] + more by {
      assert chunks[..n + 1][1..] == chunks[1..][..n];
    }
    Shift(buffer, chunks[0], more, Frames(ms), rest, Frames(later), rtsp, left);
  }

  lemma Shift(buffer: seq<byte>, chunk: seq<byte>, more: seq<byte>, first: seq<byte>, rest: seq<byte>, later: seq<byte>,
              rtsp: seq<byte>, left: seq<byte>)
    requires buffer + chunk == first + rest
    ensures rest + more == later + rtsp + left ==> buffer + (chunk + more) == first + later + rtsp + left
  {
    assert buffer + (chunk + more) == (buffer + chunk) + more == first + (rest + more);
    assert first + (later + rtsp + left) == first + later + rtsp + left;
  }

  // ---- Reading a stream of frames, however it is cut ----

  /** `got` is what has arrived of the frames `ms`: the complete ones are `ms[..k]`, and `rest` is a
      proper prefix of the next. */
  ghost predicate Received(ms: seq<Message>, got: seq<byte>, k: nat, rest: seq<byte>) {
    && k <= |ms| && got == Frames(ms[..k]) + rest
    && (if k == |ms| then rest == [] else rest < Frame(ms[k]))
  }

  /** Draining bytes that begin where frame `k` begins takes exactly the frames that are complete. */
  lemma {:induction false} DrainTakesComplete(ms: seq<Message>, buffer: seq<byte>) returns (k: nat)
    requires AllSendable(ms) && buffer <= Frames(ms)
    ensures Received(ms, buffer, k, Drain(buffer).1)
    ensures Drain(buffer).0 == ms[..k] && !Drain(buffer).2
    decreases |ms|
  {
    k := 0;
    if ms == [] {
    } else if |buffer| >= |Frame(ms[0])| {
      var rest := buffer[|Frame(ms[0])|..];
      PrefixSplit(Frame(ms[0]), Frames(ms[1..]), buffer);
      DrainOne(ms[0], rest);
      var j := DrainTakesComplete(ms[1..], rest);
      k := j + 1;
      ReceivedCons(ms, rest, j, Drain(rest).1);
    } else {
      PrefixOfFirst(Frame(ms[0]), Frames(ms[1..]), buffer);
      PrefixDoesNotParse(ms[0], buffer);
      assert ms[..0] == [];
    }
  }

  lemma DrainOne(m: Message, rest: seq<byte>)
    requires Sendable(m)
    ensures Drain(Frame(m) + rest) == ([m] + Drain(rest).0, Drain(rest).1, Drain(rest).2)
  {
    ParsesFrame(m, rest);
    assert (Frame(m) + rest)[|Frame(m)|..] == rest;
  }

  lemma ReceivedCons(ms: seq<Message>, got: seq<byte>, j: nat, rest: seq<byte>)
    requires ms != [] && Received(ms[1..], got, j, rest)
    ensures Received(ms, Frame(ms[0]) + got, j + 1, rest)
    ensures [ms[0]] + ms[1..][..j] == ms[..j + 1]
  {
    assert ms[..j + 1][1..] == ms[1..][..j];
    assert Frame(ms[0]) + (Frames(ms[1..][..j]) + rest) == (Frame(ms[0]) + Frames(ms[1..][..j])) + rest;
  }

  lemma PrefixOfFirst(f: seq<byte>, tail: seq<byte>, buffer: seq<byte>)
    requires buffer <= f + tail && |buffer| < |f|
    ensures buffer < f
  {
    assert forall i :: 0 <= i < |buffer| ==> buffer[i] == (f + tail)[i];
  }

  lemma PrefixSplit(f: seq<byte>, tail: seq<byte>, buffer: seq<byte>)
    requires buffer <= f + tail && |buffer| >= |f|
    ensures buffer == f + buffer[|f|..] && buffer[|f|..] <= tail
  {
    assert forall i :: 0 <= i < |buffer| ==> buffer[i] == (f + tail)[i];
  }

  ghost predicate Chunks(chunks: seq<seq<byte>>) {
    forall k :: 0 <= k < |chunks| ==> 1 <= |chunks[k]| <= TCP_READ_BUFFER_SIZE
  }

  /** Whatever way a prefix of a stream of frames is cut into chunks: the reader has sent exactly the
      complete frames, in order, keeps a proper prefix of the next one, and has taken none of the
      exceptional branches. */
  lemma {:induction false} ReaderIsChunkingIndependent(ms: seq<Message>, chunks: seq<seq<byte>>, oracle: RtspOracle)
    returns (k: nat)
    requires AllSendable(ms) && Chunks(chunks) && Flatten(chunks) <= Frames(ms)
    ensures var out := Read(chunks, oracle, ReadOutcome([], [], false, false, false));
            && Received(ms, Flatten(chunks), k, out.buffer)
            && out == ReadOutcome(ms[..k], out.buffer, false, false, false)
  {
    assert ms[..0] == [];
    if ms != [] {
      FrameLength(ms[0]);
    }
    k := ReadsFrom(ms, [], 0, [], chunks, oracle);
    assert [] + Flatten(chunks) == Flatten(chunks);
  }

  lemma {:induction false} ReadsFrom(ms: seq<Message>, got: seq<byte>, done: nat, buffer: seq<byte>,
                                     chunks: seq<seq<byte>>, oracle: RtspOracle) returns (k: nat)
    requires AllSendable(ms) && Chunks(chunks)
    requires Received(ms, got, done, buffer) && got + Flatten(chunks) <= Frames(ms)
    ensures var out := Read(chunks, oracle, ReadOutcome(ms[..done], buffer, false, false, false));
            && Received(ms, got + Flatten(chunks), k, out.buffer)
            && out == ReadOutcome(ms[..k], out.buffer, false, false, false)
    decreases |chunks|
  {
    hide Received, Drain, Frames, AllSendable;
    if chunks == [] {
      k := done;
      assert got + Flatten(chunks) == got;
    } else {
      var now, more := got + chunks[0], Flatten(chunks[1..]);
      assert got + Flatten(chunks) == now + more;
      PrefixOfPrefix(now, more, Frames(ms));
      var d := OneRead(ms, got, done, buffer, chunks[0]);
      var rest := Drain(buffer + chunks[0]).1;
      assert ms[..done] + ms[done..d] == ms[..d];
      ReadStep(chunks, oracle, ReadOutcome(ms[..done], buffer, false, false, false), ms[done..d], rest);
      k := ReadsFrom(ms, now, d, rest, chunks[1..], oracle);
    }
  }

  /** A read that cannot overflow the buffer and whose drain leaves the start of a frame just extends the run. */
  lemma ReadStep(chunks: seq<seq<byte>>, oracle: RtspOracle, s: ReadOutcome, ms: seq<Message>, rest: seq<byte>)
    requires chunks != [] && chunks[0] != [] && |s.buffer| + |chunks[0]| <= MAX_BUFFER_SIZE && !s.oversize
    requires Drain(s.buffer + chunks[0]) == (ms, rest, false) && (rest != [] ==> rest[0] == DOLLAR)
    ensures Read(chunks, oracle, s) == Read(chunks[1..], oracle, s.(sent := s.sent + ms, buffer := rest))
  {
  }

  /** One read onto a proper prefix of frame `done`: the buffer stays far below its limit, and the
      drain takes the frames that are now complete. */
  lemma OneRead(ms: seq<Message>, got: seq<byte>, done: nat, buffer: seq<byte>, chunk: seq<byte>) returns (d: nat)
    requires AllSendable(ms) && |chunk| <= TCP_READ_BUFFER_SIZE
    requires Received(ms, got, done, buffer) && got + chunk <= Frames(ms)
    ensures |buffer| + |chunk| <= MAX_BUFFER_SIZE
    ensures done <= d <= |ms|
    ensures var rest := Drain(buffer + chunk).1;
            && Drain(buffer + chunk) == (ms[done..d], rest, false)
            && Received(ms, got + chunk, d, rest)
            && (rest != [] ==> rest[0] == DOLLAR)
  {
    hide Drain, Frames;
    if done < |ms| {
      FrameLength(ms[done]);
    }
    var now := buffer + chunk;
    RemainingBytes(ms, got, done, buffer, chunk);
    var j := DrainTakesComplete(ms[done..], now);
    d := done + j;
    ReceivedLater(ms, done, now, j, Drain(now).1);
    if d < |ms| {
      PrefixDoesNotParse(ms[d], Drain(now).1);
    }
  }

  lemma RemainingBytes(ms: seq<Message>, got: seq<byte>, done: nat, buffer: seq<byte>, chunk: seq<byte>)
    requires Received(ms, got, done, buffer) && got + chunk <= Frames(ms)
    ensures got + chunk == Frames(ms[..done]) + (buffer + chunk)
    ensures buffer + chunk <= Frames(ms[done..])
  {
    hide Frames, Frame;
    FramesSplit(ms, done);
    assert got + chunk == Frames(ms[..done]) + (buffer + chunk);
    PrefixCancel(Frames(ms[..done]), buffer + chunk, Frames(ms[done..]), got + chunk);
  }

  lemma FramesSplit(ms: seq<Message>, k: nat)
    requires k <= |ms|
    ensures Frames(ms) == Frames(ms[..k]) + Frames(ms[k..])
  {
    assert ms == ms[..k] + ms[k..];
    FramesConcat(ms[..k], ms[k..]);
  }

  lemma ReceivedLater(ms: seq<Message>, done: nat, now: seq<byte>, j: nat, rest: seq<byte>)
    requires done <= |ms| && Received(ms[done..], now, j, rest)
    ensures Received(ms, Frames(ms[..done]) + now, done + j, rest)
    ensures ms[done..][..j] == ms[done..done + j]
  {
    FramesSplit(ms[..done + j], done);
    assert ms[..done + j][..done] == ms[..done];
    assert ms[..done + j][done..] == ms[done..][..j];
    assert Frames(ms[..done]) + (Frames(ms[done..][..j]) + rest) == Frames(ms[..done + j]) + rest;
  }

  lemma PrefixOfPrefix(a: seq<byte>, b: seq<byte>, c: seq<byte>)
    requires a + b <= c
    ensures a <= c
  {
    assert a == (a + b)[..|a|];
  }

  lemma PrefixCancel(a: seq<byte>, b: seq<byte>, c: seq<byte>, whole: seq<byte>)
    requires whole == a + b && whole <= a + c
    ensures b <= c
  {
    assert forall i :: 0 <= i < |b| ==> b[i] == whole[|a| + i] == (a + c)[|a| + i];
  }

  // ---- The writer ----

  datatype WriteOutcome = WriteOutcome(wire: seq<byte>, failed: bool)

  /** `build_interleaved_frame`: an error when the length does not fit its field. */
  method BuildFrame(m: Message) returns (r: Option<seq<byte>>)
    ensures r == if Sendable(m) then Some(Frame(m)) else None
  {
    var length := |m.data|;
    if length > 0xFFFF {
      return None;
    }
    var frame: seq<byte> := [DOLLAR];
    frame := frame + [m.channel];
    frame := frame + Be16(length);
    frame := frame + m.data;
    assert frame == Frame(m);
    return Some(frame);
  }

  /** `handle_write_stream`: a message above the frame limit is dropped, one that only exceeds the
      16-bit length ends the task with an error. */
  method HandleWriteStream(ms: seq<Message>) returns (out: WriteOutcome)
    ensures out == Write(ms)
  {
    var wire: seq<byte> := [];
    var i := 0;
    while i < |ms|
      invariant 0 <= i <= |ms|
      invariant wire + Write(ms[i..]).wire == Write(ms).wire && Write(ms[i..]).failed == Write(ms).failed
    {
      var m := ms[i];
      assert ms[i..][0] == m && ms[i..][1..] == ms[i + 1..];
      i := i + 1;
      if |m.data| > MAX_FRAME_SIZE {
        continue;
      }
      var frame := BuildFrame(m);
      if frame == None {
        return WriteOutcome(wire, true);
      }
      wire := wire + frame.value;
    }
    return WriteOutcome(wire, false);
  }

  function Write(ms: seq<Message>): WriteOutcome {
    if ms == [] then WriteOutcome([], false)
    else if |ms[0].data| > MAX_FRAME_SIZE then Write(ms[1..])
    else if !Sendable(ms[0]) then WriteOutcome([], true)
    else
      var w := Write(ms[1..]);
      WriteOutcome(Frame(ms[0]) + w.wire, w.failed)
  }

  /** The messages that reach the wire. */
  function Written(ms: seq<Message>): seq<Message> {
    if ms == [] then []
    else if |ms[0].data| > MAX_FRAME_SIZE then Written(ms[1..])
    else if !Sendable(ms[0]) then []
    else [ms[0]] + Written(ms[1..])
  }

  /** The messages of at most 65535 bytes, in order. */
  function Small(ms: seq<Message>): seq<Message> {
    if ms == [] then [] else (if |ms[0].data| <= 65535 then [ms[0]] else []) + Small(ms[1..])
  }

  /** The task fails at this message: it is within the frame limit of 1 MiB (1048576 bytes), but its
      length does not fit sixteen bits. */
  predicate FailsAt(ms: seq<Message>, k: nat) {
    k < |ms| && 65535 < |ms[k].data| <= 1048576
  }

  /** What reaches the wire, for every list: the small messages in front of the first one at which the
      task fails, all of them if there is none; those above the limit are dropped. */
  lemma {:induction false} WrittenExactly(ms: seq<Message>, stop: nat)
    requires stop <= |ms| && (stop < |ms| ==> FailsAt(ms, stop)) && forall k :: 0 <= k < stop ==> !FailsAt(ms, k)
    ensures Written(ms) == Small(ms[..stop]) && (Write(ms).failed <==> stop < |ms|)
  {
    if stop == 0 {
      assert ms[..0] == [];
    } else {
      assert !FailsAt(ms, 0);
      var rest := ms[1..];
      assert forall k :: 0 <= k < stop - 1 ==> FailsAt(rest, k) == FailsAt(ms, k + 1);
      assert FailsAt(rest, stop - 1) == FailsAt(ms, stop);
      WrittenExactly(rest, stop - 1);
      assert ms[..stop][1..] == rest[..stop - 1];
    }
  }

  lemma {:induction false} WireIsFrames(ms: seq<Message>)
    ensures AllSendable(Written(ms)) && Write(ms).wire == Frames(Written(ms))
    ensures |Written(ms)| <= |ms|
    ensures Written(ms) == ms <==> AllSendable(ms)
  {
    if ms != [] {
      WireIsFrames(ms[1..]);
      assert ms == [ms[0]] + ms[1..];
      if |ms[0].data| > MAX_FRAME_SIZE {
        assert !Sendable(ms[0]);
      } else if Sendable(ms[0]) {
        assert Written(ms)[1..] == Written(ms[1..]);
      } else {
        assert !AllSendable(ms);
      }
    }
  }

  /** Writer then reader, whatever the chunking: everything that was written arrives, in order, and
      nothing else. That is the whole input exactly when every message fits the 16-bit length. */
  lemma WriterThenReader(ms: seq<Message>, chunks: seq<seq<byte>>, oracle: RtspOracle)
    requires Chunks(chunks) && Flatten(chunks) == Write(ms).wire
    ensures var out := Read(chunks, oracle, ReadOutcome([], [], false, false, false));
            && out == ReadOutcome(Written(ms), [], false, false, false)
            && (out.sent == ms <==> AllSendable(ms))
  {
    WireIsFrames(ms);
    var ws := Written(ms);
    var k := ReaderIsChunkingIndependent(ws, chunks, oracle);
    var out := Read(chunks, oracle, ReadOutcome([], [], false, false, false));
    AllArrived(ws, Flatten(chunks), k, out.buffer);
    assert ws[..k] == ws;
  }

  /** Once all bytes have arrived, all frames are complete. */
  lemma AllArrived(ms: seq<Message>, got: seq<byte>, k: nat, rest: seq<byte>)
    requires Received(ms, got, k, rest) && |got| == |Frames(ms)|
    ensures k == |ms| && rest == []
  {
    if k < |ms| {
      FrameFits(ms, k);
      assert false;
    }
  }

  lemma FrameFits(ms: seq<Message>, k: nat)
    requires k < |ms|
    ensures |Frames(ms)| >= |Frames(ms[..k])| + |Frame(ms[k])|
  {
    FramesSplit(ms, k);
    var tail := ms[k..];
    assert Frames(tail) == Frame(tail[0]) + Frames(tail[1..]);
  }
}
