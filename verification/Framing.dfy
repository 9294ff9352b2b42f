/** Length-prefixed frames on a byte stream: what `Package::SetMsg` puts on the wire and what
    repeated `Package::ReadPdu` makes of the bytes on the other side. */
module Framing {
  import opened ByteStream

  const HEADER_LEN: nat := 8

  /** `READ_BUF_SIZE`, `WRITE_BUF_SIZE` and `MAX_BUF_SIZE`. */
  const READ_BUF_SIZE: nat := 1024
  const WRITE_BUF_SIZE: nat := 1024
  const MAX_BUF_SIZE: nat := 4096

  /** The longest frame whose unfinished part always leaves room for another read. */
  const MAX_FRAME: nat := MAX_BUF_SIZE - READ_BUF_SIZE + 1

  // ----- sending -----

  datatype Message = Message(commandId: nat, subId: nat, body: seq<byte>) {
    function TotalLength(): nat {
      HEADER_LEN + |body|
    }
  }

  ghost predicate NulFree(body: seq<byte>) {
    forall i | 0 <= i < |body| :: body[i] != 0
  }

  /** Two `uint16_t` and a C string. */
  ghost predicate Sendable(m: Message) {
    m.commandId < 0x1_0000 && m.subId < 0x1_0000 && NulFree(m.body) && m.TotalLength() < 0x1_0000_0000
  }

  ghost predicate AllSendable(ms: seq<Message>) {
    forall i | 0 <= i < |ms| :: Sendable(ms[i])
  }

  ghost function Header(m: Message): (h: seq<byte>)
    requires Sendable(m)
    ensures |h| == HEADER_LEN
  {
    WriteUint32(m.TotalLength()) + WriteUint16(m.commandId) + WriteUint16(m.subId)
  }

  /** The bytes of one message on the wire. */
  ghost function Frame(m: Message): (f: seq<byte>)
    requires Sendable(m)
    ensures |f| == m.TotalLength()
  {
    Header(m) + m.body
  }

  ghost function Stream(ms: seq<Message>): seq<byte>
    requires AllSendable(ms)
  {
    if ms == [] then [] else Frame(ms[0]) + Stream(ms[1..])
  }

  // ----- receiving -----

  /** A received package: the header as it was decoded and all bytes of the frame. */
  datatype Pdu = Pdu(length: nat, commandId: nat, subId: nat, bytes: seq<byte>)

  /** The bytes before the first 0. */
  function Text(b: seq<byte>): seq<byte> {
    if b == [] || b[0] == 0 then [] else [b[0]] + Text(b[1..])
  }

  /** `IsPduAvailable`: the length is not 0 and that many bytes are there. */
  predicate Available(b: seq<byte>) {
    |b| >= HEADER_LEN && 0 < ReadUint32(b) <= |b|
  }

  /** The package `ReadPdu` cuts off. The header is read from the buffer, even if the frame claims
      to be shorter than a header. */
  function First(b: seq<byte>): (p: Pdu)
    requires Available(b)
  {
    Pdu(ReadUint32(b), ReadUint16(b[4..]), ReadUint16(b[6..]), b[..ReadUint32(b)])
  }

  /** All packages that can be cut off, in order. */
  function Cut(b: seq<byte>): seq<Pdu>
    decreases |b|
  {
    if Available(b) then [First(b)] + Cut(b[ReadUint32(b)..]) else []
  }

  /** What is left then. */
  function Rest(b: seq<byte>): (r: seq<byte>)
    ensures |r| <= |b|
    decreases |b|
  {
    if Available(b) then Rest(b[ReadUint32(b)..]) else b
  }

  /** What a receiver makes of a package. A package shorter than its header has no body. */
  function AsMessage(p: Pdu): Message {
    Message(p.commandId, p.subId, if |p.bytes| < HEADER_LEN then [] else Text(p.bytes[HEADER_LEN..]))
  }

  function AsMessages(ps: seq<Pdu>): (ms: seq<Message>)
    ensures |ms| == |ps| && forall i | 0 <= i < |ps| :: ms[i] == AsMessage(ps[i])
  {
    seq(|ps|, i requires 0 <= i < |ps| => AsMessage(ps[i]))
  }

  // ----- the layout -----

  /** A frame in bytes: length and both ids in network byte order, and the body behind them. */
  lemma FrameLayout(m: Message)
    requires Sendable(m)
    ensures BigEndian(Frame(m)[..4]) == 8 + |m.body| && Frame(m)[8..] == m.body
    ensures BigEndian(Frame(m)[4..6]) == m.commandId && BigEndian(Frame(m)[6..8]) == m.subId
  {
    hide BigEndian, WriteUint16, WriteUint32;
    WrittenBigEndian(m.TotalLength());
    WrittenBigEndian(m.commandId);
    WrittenBigEndian(m.subId);
    assert Frame(m)[..4] == WriteUint32(m.TotalLength());
    assert Frame(m)[4..6] == WriteUint16(m.commandId) && Frame(m)[6..8] == WriteUint16(m.subId);
  }

  /** What is cut off at the front of a buffer, by the length and the ids that its first bytes spell:
      as many bytes as the length says, even if these are fewer than a header has; nothing if the
      length is 0 or more than there is. */
  lemma CutByLength(b: seq<byte>)
    requires |b| < 8 || (b[1] < 0x80 && b[2] < 0x80 && b[3] < 0x80 && b[5] < 0x80 && b[7] < 0x80)
    ensures if |b| >= 8 && 0 < BigEndian(b[..4]) <= |b| then
        var n := BigEndian(b[..4]);
        && Cut(b) == [Pdu(n, BigEndian(b[4..6]), BigEndian(b[6..8]), b[..n])] + Cut(b[n..])
        && Rest(b) == Rest(b[n..])
      else Cut(b) == [] && Rest(b) == b
  {
    hide BigEndian, ReadUint16, ReadUint32;
    if |b| >= 8 {
      ReadBigEndian(b[..4]);
      ReadBigEndian(b[4..6]);
      ReadBigEndian(b[6..8]);
      ReadFrontOnly(b);
    }
  }

  lemma ReadFrontOnly(b: seq<byte>)
    requires |b| >= 8
    ensures ReadUint32(b) == ReadUint32(b[..4])
    ensures ReadUint16(b[4..]) == ReadUint16(b[4..6]) && ReadUint16(b[6..]) == ReadUint16(b[6..8])
  {
  }

  // ----- arrival in pieces -----

  lemma ReadPrefix(b: seq<byte>, c: seq<byte>)
    requires |b| >= HEADER_LEN
    ensures ReadUint32(b + c) == ReadUint32(b)
    ensures ReadUint16((b + c)[4..]) == ReadUint16(b[4..]) && ReadUint16((b + c)[6..]) == ReadUint16(b[6..])
  {
  }

  lemma FirstOfMore(b: seq<byte>, c: seq<byte>)
    requires Available(b)
    ensures Available(b + c) && First(b + c) == First(b)
    ensures ReadUint32(b + c) == ReadUint32(b) && (b + c)[ReadUint32(b)..] == b[ReadUint32(b)..] + c
  {
    hide ReadUint32, ReadUint16;
    ReadPrefix(b, c);
  }

  /** More bytes never change what was already cut off: cutting can go on from what was left. */
  lemma {:induction false} CutAppend(b: seq<byte>, c: seq<byte>)
    ensures Cut(b + c) == Cut(b) + Cut(Rest(b) + c)
    ensures Rest(b + c) == Rest(Rest(b) + c)
    decreases |b|
  {
    hide ReadUint32, First;
    if Available(b) {
      var d := b[ReadUint32(b)..];
      FirstOfMore(b, c);
      CutAppend(d, c);
      CutOnce(b);
      CutOnce(b + c);
    } else {
      assert Cut(b) == [] && Rest(b) == b;
    }
  }

  lemma CutOnce(b: seq<byte>)
    requires Available(b)
    ensures 0 < ReadUint32(b) <= |b|
    ensures Cut(b) == [First(b)] + Cut(b[ReadUint32(b)..]) && Rest(b) == Rest(b[ReadUint32(b)..])
  {
  }

  lemma {:induction false} RestIsCut(b: seq<byte>)
    ensures Cut(Rest(b)) == [] && Rest(Rest(b)) == Rest(b)
    decreases |b|
  {
    if Available(b) {
      RestIsCut(b[ReadUint32(b)..]);
    }
  }

  function Concat(chunks: seq<seq<byte>>): seq<byte> {
    if chunks == [] then [] else chunks[0] + Concat(chunks[1..])
  }

  lemma {:induction false} ConcatSplits(chunks: seq<seq<byte>>, i: nat)
    requires i <= |chunks|
    ensures Concat(chunks) == Concat(chunks[..i]) + Concat(chunks[i..])
  {
    if i == 0 {
      assert chunks[0..] == chunks;
    } else {
      ConcatSplits(chunks[1..], i - 1);
      assert chunks[..i][1..] == chunks[1..][..i - 1] && chunks[1..][i - 1..] == chunks[i..];
    }
  }

  /** The packages cut off while the chunks arrive one by one behind `b`, ... */
  function Delivered(b: seq<byte>, chunks: seq<seq<byte>>): seq<Pdu>
    decreases |chunks|
  {
    if chunks == [] then [] else Cut(b + chunks[0]) + Delivered(Rest(b + chunks[0]), chunks[1..])
  }

  /** ... and what is left in the end. */
  function Remaining(b: seq<byte>, chunks: seq<seq<byte>>): seq<byte>
    decreases |chunks|
  {
    if chunks == [] then b else Remaining(Rest(b + chunks[0]), chunks[1..])
  }

  /** Chunking independence: however a byte stream is split into reads, the packages are those of
      the whole stream. It holds for every stream, well-formed or not. */
  lemma {:induction false} ChunkingIndependence(b: seq<byte>, chunks: seq<seq<byte>>)
    requires !Available(b)
    ensures Delivered(b, chunks) == Cut(b + Concat(chunks))
    ensures Remaining(b, chunks) == Rest(b + Concat(chunks))
    decreases |chunks|
  {
    if chunks == [] {
      assert b + [] == b;
    } else {
      var c, tail := chunks[0], Concat(chunks[1..]);
      assert b + (c + tail) == (b + c) + tail;
      CutAppend(b + c, tail);
      RestIsCut(b + c);
      ChunkingIndependence(Rest(b + c), chunks[1..]);
    }
  }

  // ----- frames -----

  ghost predicate LengthDecodes(m: Message) {
    SelfDecoding32(m.TotalLength())
  }

  ghost predicate HeaderDecodes(m: Message) {
    LengthDecodes(m) && SelfDecoding16(m.commandId) && SelfDecoding16(m.subId)
  }

  /** What `ReadPdu` makes of a whole frame. */
  ghost function Decoded(m: Message): Pdu
    requires Sendable(m)
  {
    Pdu(m.TotalLength(), ReadUint16(WriteUint16(m.commandId)), ReadUint16(WriteUint16(m.subId)), Frame(m))
  }

  lemma FrameHeader(m: Message, b: seq<byte>)
    requires Sendable(m) && |b| >= HEADER_LEN && b[..HEADER_LEN] == Header(m)
    ensures ReadUint32(b) == ReadUint32(WriteUint32(m.TotalLength()))
    ensures ReadUint16(b[4..]) == ReadUint16(WriteUint16(m.commandId))
    ensures ReadUint16(b[6..]) == ReadUint16(WriteUint16(m.subId))
  {
    hide WriteUint16, WriteUint32;
    var h := b[..HEADER_LEN];
    assert h == Header(m);
    var l, c, s := WriteUint32(m.TotalLength()), WriteUint16(m.commandId), WriteUint16(m.subId);
    assert b[0] == h[0] == l[0] && b[1] == h[1] == l[1] && b[2] == h[2] == l[2] && b[3] == h[3] == l[3];
    assert b[4..][0] == h[4] == c[0] && b[4..][1] == h[5] == c[1];
    assert b[6..][0] == h[6] == s[0] && b[6..][1] == h[7] == s[1];
  }

  /** A frame at the front of the buffer is cut off as soon as its last byte is there, if its
      length decodes to itself ... */
  lemma FrameIsFirst(m: Message, rest: seq<byte>)
    requires Sendable(m) && LengthDecodes(m)
    ensures Available(Frame(m) + rest) && First(Frame(m) + rest) == Decoded(m)
    ensures Cut(Frame(m) + rest) == [Decoded(m)] + Cut(rest) && Rest(Frame(m) + rest) == Rest(rest)
  {
    hide ReadUint32, ReadUint16, WriteUint32, WriteUint16, SelfDecoding32;
    var b := Frame(m) + rest;
    assert b[..HEADER_LEN] == Header(m);
    FrameHeader(m, b);
    Uint32RoundTrip(m.TotalLength());
    assert b[..m.TotalLength()] == Frame(m) && b[m.TotalLength()..] == rest;
  }

  /** ... and otherwise it blocks the channel: whatever follows it, nothing is cut off. */
  lemma FrameBlocks(m: Message, rest: seq<byte>)
    requires Sendable(m) && !LengthDecodes(m)
    requires |Frame(m) + rest| < 0xFF00_0000
    ensures Cut(Frame(m) + rest) == [] && Rest(Frame(m) + rest) == Frame(m) + rest
  {
    hide ReadUint32, ReadUint16, WriteUint32, WriteUint16, SelfDecoding32;
    var b := Frame(m) + rest;
    assert b[..HEADER_LEN] == Header(m);
    FrameHeader(m, b);
    Uint32RoundTrip(m.TotalLength());
  }

  /** An unfinished frame is kept. */
  lemma FrameUnfinished(m: Message, k: nat)
    requires Sendable(m) && LengthDecodes(m) && k < m.TotalLength()
    ensures Cut(Frame(m)[..k]) == [] && Rest(Frame(m)[..k]) == Frame(m)[..k]
  {
    hide ReadUint32, ReadUint16, WriteUint32, WriteUint16, SelfDecoding32;
    var b := Frame(m)[..k];
    if k >= HEADER_LEN {
      assert b[..HEADER_LEN] == Header(m);
      FrameHeader(m, b);
      Uint32RoundTrip(m.TotalLength());
    }
  }

  lemma {:induction false} TextOfNulFree(b: seq<byte>)
    requires NulFree(b)
    ensures Text(b) == b
  {
    if b != [] {
      TextOfNulFree(b[1..]);
    }
  }

  /** A cut-off frame is the message that was sent exactly if the two ids decode to themselves. */
  lemma DecodedMessage(m: Message)
    requires Sendable(m)
    ensures AsMessage(Decoded(m)) == m <==> SelfDecoding16(m.commandId) && SelfDecoding16(m.subId)
  {
    hide ReadUint16, WriteUint16, WriteUint32, SelfDecoding16;
    Uint16RoundTrip(m.commandId);
    Uint16RoundTrip(m.subId);
    TextOfNulFree(m.body);
    assert Frame(m)[HEADER_LEN..] == m.body;
  }

  lemma MessagesOfMore(p: Pdu, ps: seq<Pdu>)
    ensures AsMessages([p] + ps) == [AsMessage(p)] + AsMessages(ps)
  {
  }

  ghost predicate AllHeadersDecode(ms: seq<Message>) {
    forall i | 0 <= i < |ms| :: HeaderDecodes(ms[i])
  }

  ghost predicate AllLengthsDecode(ms: seq<Message>) {
    forall i | 0 <= i < |ms| :: LengthDecodes(ms[i])
  }

  lemma {:induction false} MessagesArrive(ms: seq<Message>)
    requires AllSendable(ms) && AllHeadersDecode(ms)
    ensures AsMessages(Cut(Stream(ms))) == ms && Rest(Stream(ms)) == []
  {
    if ms != [] {
      hide Frame, SelfDecoding16, SelfDecoding32, Cut, Rest;
      var m, tail := ms[0], Stream(ms[1..]);
      assert HeaderDecodes(m);
      MessagesArrive(ms[1..]);
      FrameIsFirst(m, tail);
      DecodedMessage(m);
      MessagesOfMore(Decoded(m), Cut(tail));
      assert ms == [m] + ms[1..];
    }
  }

  lemma {:induction false} OnlyDecodingArrives(ms: seq<Message>)
    requires AllSendable(ms) && |Stream(ms)| < 0xFF00_0000
    requires AsMessages(Cut(Stream(ms))) == ms
    ensures AllHeadersDecode(ms)
  {
    if ms != [] {
      hide Frame, SelfDecoding16, SelfDecoding32, Cut, Rest;
      var m, tail := ms[0], Stream(ms[1..]);
      if LengthDecodes(m) {
        FrameIsFirst(m, tail);
        var ps := Cut(tail);
        MessagesOfMore(Decoded(m), ps);
        DecodedMessage(m);
        assert AsMessages(ps) == ms[1..];
        OnlyDecodingArrives(ms[1..]);
        assert HeaderDecodes(m);
        assert ms == [m] + ms[1..];
      } else {
        FrameBlocks(m, tail);
        assert false;
      }
    }
  }

  /** Exactly the lists of messages whose header fields decode to themselves arrive as they were
      sent: all of them, in order, and nothing else. */
  lemma MessagesRoundTrip(ms: seq<Message>)
    requires AllSendable(ms) && |Stream(ms)| < 0xFF00_0000
    ensures AsMessages(Cut(Stream(ms))) == ms <==> AllHeadersDecode(ms)
  {
    hide Stream, Cut;
    if AllHeadersDecode(ms) {
      MessagesArrive(ms);
    }
    if AsMessages(Cut(Stream(ms))) == ms {
      OnlyDecodingArrives(ms);
    }
  }

  // ----- the room a stream needs -----

  /** However the stream is split, there is room for a whole read before every read. */
  ghost predicate Fits(s: seq<byte>) {
    forall k: nat | k <= |s| :: |Rest(s[..k])| + READ_BUF_SIZE <= MAX_BUF_SIZE
  }

  lemma RestOfLongPrefix(m: Message, tail: seq<byte>, k: nat)
    requires Sendable(m) && LengthDecodes(m) && m.TotalLength() <= k <= m.TotalLength() + |tail|
    ensures Rest((Frame(m) + tail)[..k]) == Rest(tail[..k - m.TotalLength()])
  {
    hide Frame, Rest, Cut, SelfDecoding32;
    var j := k - m.TotalLength();
    assert (Frame(m) + tail)[..k] == Frame(m) + tail[..j];
    FrameIsFirst(m, tail[..j]);
  }

  lemma RestOfShortPrefix(m: Message, tail: seq<byte>, k: nat)
    requires Sendable(m) && LengthDecodes(m) && k < m.TotalLength()
    ensures |Rest((Frame(m) + tail)[..k])| == k
  {
    hide Frame, Rest, Cut, SelfDecoding32;
    assert (Frame(m) + tail)[..k] == Frame(m)[..k];
    FrameUnfinished(m, k);
  }

  lemma {:induction false} ShortFramesFit(ms: seq<Message>)
    requires AllSendable(ms) && AllLengthsDecode(ms)
    requires forall i | 0 <= i < |ms| :: ms[i].TotalLength() <= MAX_FRAME
    ensures Fits(Stream(ms))
  {
    hide Frame, Cut, SelfDecoding32;
    if ms != [] {
      var m, tail := ms[0], Stream(ms[1..]);
      assert LengthDecodes(m);
      ShortFramesFit(ms[1..]);
      forall k: nat | k <= |Stream(ms)|
        ensures |Rest(Stream(ms)[..k])| + READ_BUF_SIZE <= MAX_BUF_SIZE
      {
        hide Rest;
        if k < m.TotalLength() {
          RestOfShortPrefix(m, tail, k);
        } else {
          RestOfLongPrefix(m, tail, k);
        }
      }
    }
  }

  lemma {:induction false} FittingFramesAreShort(ms: seq<Message>)
    requires AllSendable(ms) && AllLengthsDecode(ms) && Fits(Stream(ms))
    ensures forall i | 0 <= i < |ms| :: ms[i].TotalLength() <= MAX_FRAME
  {
    hide Frame, Cut, Rest, SelfDecoding32;
    if ms != [] {
      var m, tail := ms[0], Stream(ms[1..]);
      assert LengthDecodes(m);
      RestOfShortPrefix(m, tail, m.TotalLength() - 1);
      assert m.TotalLength() - 1 <= |Stream(ms)|;
      forall k: nat | k <= |tail|
        ensures |Rest(tail[..k])| + READ_BUF_SIZE <= MAX_BUF_SIZE
      {
        RestOfLongPrefix(m, tail, m.TotalLength() + k);
      }
      FittingFramesAreShort(ms[1..]);
      assert ms == [m] + ms[1..];
    }
  }

  /** The traffic that never needs more than the 4096 bytes of the in-buffer, however it is split:
      frames of at most 3073 bytes. */
  lemma FitsIffShort(ms: seq<Message>)
    requires AllSendable(ms) && AllLengthsDecode(ms)
    ensures Fits(Stream(ms)) <==> forall i | 0 <= i < |ms| :: ms[i].TotalLength() <= 3073
  {
    hide Fits, Stream;
    if Fits(Stream(ms)) {
      FittingFramesAreShort(ms);
    }
    if forall i | 0 <= i < |ms| :: ms[i].TotalLength() <= MAX_FRAME {
      ShortFramesFit(ms);
    }
  }
}
