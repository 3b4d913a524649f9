/**
 What a WebSocket byte stream means (sections 5.2 and 5.3 of RFC 6455), as far as the server
 reads it: one header, one frame, and the messages of a whole stream.
 */
module WebSocketFrames {
  import opened Bytes
  import opened Wrappers

  /** Longest payload the server accepts (maxWebSocketPacketLength). */
  const MAX_PACKET_LENGTH: nat := 0x100_0000

  const PING: nat := 9

  datatype LengthField = LengthField(length: nat, size: nat)

  /** The payload length and where the mask starts; None while length bytes are missing. */
  function ParseLength(s: seq<Byte>): Option<LengthField>
    requires 2 <= |s|
  {
    var short := s[1] % 128;
    if short == 126 then
      if |s| < 4 then None else Some(LengthField(BigEndian(s[2..4]), 4))
    else if short == 127 then
      if |s| < 10 then None else Some(LengthField(BigEndian(s[2..10]), 10))
    else
      Some(LengthField(short, 2))
  }

  datatype Header =
    | Incomplete
    | Refused
    | Header(fin: bool, opcode: nat, length: nat, key: seq<Byte>, size: nat)

  function ParseHeader(s: seq<Byte>): (h: Header)
    ensures h.Header? ==> |h.key| == 4 && 6 <= h.size <= |s| && h.length <= MAX_PACKET_LENGTH
  {
    if |s| < 2 then Incomplete else
    match ParseLength(s)
    case None => Incomplete
    case Some(LengthField(length, at)) =>
      if s[1] < 128 || MAX_PACKET_LENGTH < length then Refused
      else if |s| < at + 4 then Incomplete
      else Header(128 <= s[0], s[0] % 16, length, s[at..at + 4], at + 4)
  }

  /** Octet i of the payload is octet i of the masked data xor octet i mod 4 of the key. */
  function Unmask(key: seq<Byte>, data: seq<Byte>): (plain: seq<Byte>)
    requires |key| == 4
    ensures |plain| == |data|
  {
    seq(|data|, i requires 0 <= i < |data| => Xor(data[i], key[i % 4]))
  }

  datatype Parsed = NeedMore | Unsupported | Frame(message: seq<Byte>, size: nat)

  /** Headers the stream theorem speaks of: a final frame that is not a ping. */
  predicate Plain(h: Header) {
    h.Header? && h.fin && h.opcode != PING
  }

  function ParseFrame(s: seq<Byte>): (p: Parsed)
    ensures p.Frame? ==> 6 <= p.size <= |s|
  {
    var h := ParseHeader(s);
    if h.Incomplete? then NeedMore
    else if !Plain(h) then Unsupported
    else if |s| < h.size + h.length then NeedMore
    else Frame(Unmask(h.key, s[h.size..h.size + h.length]), h.size + h.length)
  }

  /** The messages of every complete frame at the front of s. */
  function Decode(s: seq<Byte>): seq<seq<Byte>> {
    match ParseFrame(s)
    case Frame(message, size) => [message] + Decode(s[size..])
    case _ => []
  }

  /** Every frame header in s is one the stream theorem speaks of. */
  predicate Supported(s: seq<Byte>) {
    match ParseFrame(s)
    case NeedMore => true
    case Unsupported => false
    case Frame(_, size) => Supported(s[size..])
  }

  /** Octet i of a message differs from the octet that was received in exactly those bits that are set in
      octet i mod 4 of the key, which are the four octets in front of the payload. */
  lemma MessageIsUnmasked(s: seq<Byte>, i: nat, k: nat)
    requires ParseFrame(s).Frame? && i < |ParseFrame(s).message| && k < 8
    ensures var at := ParseFrame(s).size - |ParseFrame(s).message|;
            && 4 <= at && at + i < |s|
            && (Bit(ParseFrame(s).message[i], k) != Bit(s[at + i], k) <==> Bit(s[at - 4 + i % 4], k) == 1)
  {
    hide Xor, Bit, BigEndian;
    var h := ParseHeader(s);
    var at := h.size;
    KeyBeforePayload(s);
    assert |ParseFrame(s).message| == h.length && ParseFrame(s).size == at + h.length;
    assert s[at..at + h.length][i] == s[at + i] && h.key[i % 4] == s[at - 4 + i % 4];
    XorIsDifference(s[at + i], h.key[i % 4], k);
  }

  lemma KeyBeforePayload(s: seq<Byte>)
    requires ParseHeader(s).Header?
    ensures var h := ParseHeader(s);
            |h.key| == 4 && 4 <= h.size <= |s| && h.key == s[h.size - 4..h.size]
  {
  }

  // ---- Reading more bytes never changes what was already decided ----

  lemma HeaderStable(s: seq<Byte>, t: seq<Byte>)
    requires !ParseHeader(s).Incomplete?
    ensures ParseHeader(s + t) == ParseHeader(s)
  {
    var u := s + t;
    if 4 <= |s| {
      assert u[2..4] == s[2..4];
    }
    if 10 <= |s| {
      assert u[2..10] == s[2..10];
    }
    var at := ParseLength(s).value.size;
    if at + 4 <= |s| {
      assert u[at..at + 4] == s[at..at + 4];
    }
  }

  lemma FrameStable(s: seq<Byte>, t: seq<Byte>)
    requires !ParseFrame(s).NeedMore?
    ensures ParseFrame(s + t) == ParseFrame(s)
  {
    HeaderStable(s, t);
    var h := ParseHeader(s);
    if Plain(h) {
      assert (s + t)[h.size..h.size + h.length] == s[h.size..h.size + h.length];
    }
  }

  lemma {:induction false} SupportedPrefix(s: seq<Byte>, t: seq<Byte>)
    requires Supported(s + t)
    ensures Supported(s)
    decreases |s|
  {
    if ParseFrame(s) != NeedMore {
      FrameStable(s, t);
      if ParseFrame(s).Frame? {
        var n := ParseFrame(s).size;
        assert (s + t)[n..] == s[n..] + t;
        SupportedPrefix(s[n..], t);
      }
    }
  }

  /** Decoding is a homomorphism over whole frames: what follows them is decoded on its own. */
  lemma {:induction false} DecodeConcat(s: seq<Byte>, t: seq<Byte>)
    requires Whole(s)
    ensures Decode(s + t) == Decode(s) + Decode(t)
    ensures Supported(s + t) <==> Supported(t)
    decreases |s|
  {
    hide ParseFrame;
    NoBytes();
    if s == [] {
      assert s + t == t;
    } else {
      var rest := s[ParseFrame(s).size..];
      FrameThen(s, t);
      DecodeConcat(rest, t);
      assert [ParseFrame(s).message] + (Decode(rest) + Decode(t)) == Decode(s) + Decode(t);
    }
  }

  lemma NoBytes()
    ensures ParseFrame([]) == NeedMore && Decode([]) == [] && Supported([])
  {
  }

  lemma FrameThen(s: seq<Byte>, t: seq<Byte>)
    requires ParseFrame(s).Frame?
    ensures Decode(s) == [ParseFrame(s).message] + Decode(s[ParseFrame(s).size..])
    ensures Decode(s + t) == [ParseFrame(s).message] + Decode(s[ParseFrame(s).size..] + t)
    ensures Supported(s + t) <==> Supported(s[ParseFrame(s).size..] + t)
  {
    FrameStable(s, t);
    assert (s + t)[ParseFrame(s).size..] == s[ParseFrame(s).size..] + t;
  }

  /** s is a sequence of complete supported frames. */
  predicate Whole(s: seq<Byte>)
  {
    s == [] || (ParseFrame(s).Frame? && Whole(s[ParseFrame(s).size..]))
  }

  // ---- The frames a conforming client sends ----

  /** The length bytes of a frame header in the shortest of the three forms; `high` is the bit
      that the first of them shares its byte with. */
  function LengthBytes(n: nat, high: Byte): (s: seq<Byte>)
    requires n < 0x1_0000_0000_0000_0000 && high in {0, 128}
  {
    if n <= 125 then [high + n]
    else if n < 0x1_0000 then [high + 126] + Digits(n, 2)
    else [high + 127] + Digits(n, 8)
  }

  /** The count lowest base-256 digits of n, most significant first. */
  function Digits(n: nat, count: nat): (s: seq<Byte>)
    ensures |s| == count
  {
    if count == 0 then [] else Digits(n / 256, count - 1) + [n % 256]
  }

  lemma {:induction false} DigitsReadBack(n: nat, count: nat)
    requires n < Pow256(count)
    ensures BigEndian(Digits(n, count)) == n
  {
    if count != 0 {
      DigitsReadBack(n / 256, count - 1);
      assert Digits(n, count)[..count - 1] == Digits(n / 256, count - 1);
    }
  }

  /** Section 5.2 of RFC 6455: the length that was written is the length that is read. */
  lemma LengthRoundTrip(first: Byte, n: nat, high: Byte, rest: seq<Byte>)
    requires n < 0x1_0000_0000_0000_0000 && high in {0, 128}
    ensures ParseLength([first] + LengthBytes(n, high) + rest)
         == Some(LengthField(n, 1 + |LengthBytes(n, high)|))
  {
    Pow256Values();
    var s := [first] + LengthBytes(n, high) + rest;
    if 125 < n < 0x1_0000 {
      assert s[2..4] == Digits(n, 2);
      DigitsReadBack(n, 2);
    } else if 0x1_0000 <= n {
      assert s[2..10] == Digits(n, 8);
      DigitsReadBack(n, 8);
    }
  }

  /** No header that announces the length n is shorter than the one that is written. */
  lemma LengthShortest(s: seq<Byte>, n: nat, high: Byte)
    requires n < 0x1_0000_0000_0000_0000 && high in {0, 128}
    requires 2 <= |s| && ParseLength(s).Some? && ParseLength(s).value.length == n
    ensures 1 + |LengthBytes(n, high)| <= ParseLength(s).value.size
  {
    Pow256Values();
    if 4 <= |s| {
      BigEndianBound(s[2..4]);
    }
  }

  /** With its mask key there, a header is refused exactly when the mask bit is missing or the announced
      length is above 2^24. */
  lemma RefusedExactly(first: Byte, n: nat, high: Byte, rest: seq<Byte>)
    requires n < 0x1_0000_0000_0000_0000 && high in {0, 128} && 4 <= |rest|
    ensures ParseHeader([first] + LengthBytes(n, high) + rest)
         == if high == 0 || 0x100_0000 < n then Refused
            else Header(128 <= first, first % 16, n, rest[..4], 5 + |LengthBytes(n, high)|)
  {
    hide BigEndian, Digits;
    var s := [first] + LengthBytes(n, high) + rest;
    LengthRoundTrip(first, n, high, rest);
    var at := 1 + |LengthBytes(n, high)|;
    assert s[at..at + 4] == rest[..4];
  }

  datatype Outgoing = Outgoing(first: Byte, key: seq<Byte>, payload: seq<Byte>)

  /** What a client may send: FIN set, not a ping, four mask octets, an acceptable length. */
  predicate Sendable(f: Outgoing) {
    && 128 <= f.first && f.first % 16 != PING
    && |f.key| == 4
    && |f.payload| <= MAX_PACKET_LENGTH
  }

  function MaskedFrame(f: Outgoing): seq<Byte>
    requires Sendable(f)
  {
    [f.first] + LengthBytes(|f.payload|, 128) + f.key + Unmask(f.key, f.payload)
  }

  function Stream(frames: seq<Outgoing>): seq<Byte>
    requires forall f :: f in frames ==> Sendable(f)
  {
    if frames == [] then [] else MaskedFrame(frames[0]) + Stream(frames[1..])
  }

  function Payloads(frames: seq<Outgoing>): seq<seq<Byte>> {
    seq(|frames|, i requires 0 <= i < |frames| => frames[i].payload)
  }

  lemma UnmaskUndone(key: seq<Byte>, data: seq<Byte>)
    requires |key| == 4
    ensures Unmask(key, Unmask(key, data)) == data
  {
    var twice := Unmask(key, Unmask(key, data));
    forall i | 0 <= i < |data|
      ensures twice[i] == data[i]
    {
      XorUndone(data[i], key[i % 4]);
    }
  }

  lemma MaskedFrameParses(f: Outgoing, rest: seq<Byte>)
    requires Sendable(f)
    ensures ParseFrame(MaskedFrame(f) + rest) == Frame(f.payload, |MaskedFrame(f)|)
  {
    var n := |f.payload|;
    var lengthBytes := LengthBytes(n, 128);
    var masked := Unmask(f.key, f.payload);
    var s := MaskedFrame(f) + rest;
    assert s == [f.first] + lengthBytes + (f.key + masked + rest);
    LengthRoundTrip(f.first, n, 128, f.key + masked + rest);
    var at := 1 + |lengthBytes|;
    assert s[at..at + 4] == f.key;
    assert s[at + 4..at + 4 + n] == masked;
    UnmaskUndone(f.key, f.payload);
  }

  /** A stream of a client's frames decodes to the payloads it was made of. */
  lemma {:induction false} StreamDecodes(frames: seq<Outgoing>)
    requires forall f :: f in frames ==> Sendable(f)
    ensures Whole(Stream(frames)) && Supported(Stream(frames))
    ensures Decode(Stream(frames)) == Payloads(frames)
  {
    hide ParseFrame, MaskedFrame;
    if frames == [] {
      NoBytes();
    } else {
      var head, rest := MaskedFrame(frames[0]), Stream(frames[1..]);
      MaskedFrameParses(frames[0], rest);
      StreamDecodes(frames[1..]);
      assert (head + rest)[|head|..] == rest;
      assert Payloads(frames) == [frames[0].payload] + Payloads(frames[1..]);
    }
  }
}
