/** The resumable frame decoder and the frame header encoder of an upgraded HTTP client. */
module WebSocketClient {
  import opened Bytes
  import opened Wrappers
  import opened WebSocketFrames

  /** The calls the decoder makes on the rest of the server, in order. */
  datatype Event =
    | Message(payload: seq<Byte>)
    | Pong(payload: seq<Byte>)
    | BadRequest
    | CloseSocket

  /** Position in the four-octet mask. */
  type Offset = n: nat | n < 4

  datatype State = State(
    awaitingHeader: bool, lastFin: bool, mask: nat, maskOffset: Offset, remaining: nat,
    packet: seq<Byte>, leftover: seq<Byte>)

  const INITIAL := State(true, false, 0, 0, 0, [], [])

  /** The octet of the 32-bit mask that is applied at this offset. */
  function MaskByte(mask: nat, offset: Offset): Byte {
    if offset == 0 then mask / 0x100_0000 % 256
    else if offset == 1 then mask / 0x1_0000 % 256
    else if offset == 2 then mask / 0x100 % 256
    else mask % 256
  }

  function Masked(mask: nat, offset: Offset, data: seq<Byte>): (plain: seq<Byte>)
    ensures |plain| == |data|
  {
    seq(|data|, i requires 0 <= i < |data| => Xor(data[i], MaskByte(mask, (offset + i) % 4)))
  }

  // ---- One call of handleInput, as a function of the fields and the input ----

  function Step(st: State, input: seq<Byte>): (State, seq<Event>) {
    var joined := if st.leftover == [] then st else st.(leftover := st.leftover + input);
    var message := if st.leftover == [] then input else joined.leftover;
    if st.awaitingHeader then HeaderStep(joined, message) else BodyStep(joined, message)
  }

  function HeaderStep(st: State, message: seq<Byte>): (State, seq<Event>) {
    var kept := if st.leftover == [] then st.(leftover := message) else st;
    if |message| < 2 then (kept, []) else
    var seen := st.(lastFin := 128 <= message[0]);
    var keptSeen := kept.(lastFin := 128 <= message[0]);
    match ParseLength(message)
    case None => (keptSeen, [])
    case Some(LengthField(length, at)) =>
      if message[1] < 128 || MAX_PACKET_LENGTH < length then (seen, [BadRequest])
      else if |message| < at + 4 then (keptSeen, [])
      else PayloadStep(seen, message, length, at)
  }

  function PayloadStep(st: State, message: seq<Byte>, length: nat, at: nat): (State, seq<Event>)
    requires 2 <= |message| && at + 4 <= |message|
  {
    var mask := BigEndian(message[at..at + 4]);
    var here := Min(length, |message| - at - 4);
    var end := at + 4 + here;
    var read := st.(
      mask := mask, maskOffset := here % 4, remaining := length - here,
      packet := st.packet + Masked(mask, 0, message[at + 4..end]));
    if message[0] % 16 == PING then
      (read, if length <= 125 then [Pong(read.packet)] else [CloseSocket])
    else
      var outcome := if read.lastFin then [Message(read.packet)] else [CloseSocket];
      if end < |message| then
        (read.(awaitingHeader := true, leftover := message[end..], packet := [],
               remaining := if read.lastFin then 0 else read.remaining), outcome)
      else if read.remaining == 0 then
        (read.(awaitingHeader := true, leftover := [], packet := []), outcome)
      else
        (read.(awaitingHeader := false, leftover := []), [])
  }

  function BodyStep(st: State, message: seq<Byte>): (State, seq<Event>) {
    var here := Min(st.remaining, |message|);
    var read := st.(
      maskOffset := (st.maskOffset + here) % 4, remaining := st.remaining - here,
      packet := st.packet + Masked(st.mask, st.maskOffset, message[..here]),
      leftover := if st.remaining < |message| then message[here..] else st.leftover);
    if read.remaining != 0 then (read, [])
    else if read.lastFin then (read.(awaitingHeader := true, packet := []), [Message(read.packet)])
    else (read.(awaitingHeader := true), [])
  }

  // ---- The client object ----

  class Client {
    var awaitingWebSocketHeader: bool
    var lastFin: bool
    var webSocketMask: nat
    var maskOffset: Offset
    var remainingBytesInPacket: nat
    var packet: seq<Byte>
    var leftoverMessage: seq<Byte>

    ghost function Fields(): State
      reads this
    {
      State(awaitingWebSocketHeader, lastFin, webSocketMask, maskOffset, remainingBytesInPacket,
            packet, leftoverMessage)
    }

    constructor ()
      ensures Fields() == INITIAL
    {
      awaitingWebSocketHeader := true;
      lastFin := false;
      webSocketMask, maskOffset, remainingBytesInPacket := 0, 0, 0;
      packet, leftoverMessage := [], [];
    }

    method HandleInput(messageIn: seq<Byte>) returns (events: seq<Event>)
      modifies this
      ensures (Fields(), events) == Step(old(Fields()), messageIn)
    {
      var hasLeftover := leftoverMessage != [];
      if hasLeftover {
        leftoverMessage := leftoverMessage + messageIn;
      }
      var message := if hasLeftover then leftoverMessage else messageIn;
      if awaitingWebSocketHeader {
        events := ReadHeader(message);
      } else {
        events := ReadBody(message);
      }
    }

    method ReadHeader(message: seq<Byte>) returns (events: seq<Event>)
      requires leftoverMessage == [] || leftoverMessage == message
      modifies this
      ensures (Fields(), events) == HeaderStep(old(Fields()), message)
    {
      events := [];
      if |message| < 2 {
        leftoverMessage := message;
        return;
      }
      lastFin := 128 <= message[0];
      var opcode := message[0] % 16;
      var useMask := 128 <= message[1];
      var payloadLength := message[1] % 128;
      var maskIndex := 2;
      if payloadLength == 126 {
        if |message| < 4 {
          leftoverMessage := message;
          return;
        }
        payloadLength := BigEndian(message[2..4]);
        maskIndex := 4;
      } else if payloadLength == 127 {
        if |message| < 10 {
          leftoverMessage := message;
          return;
        }
        payloadLength := BigEndian(message[2..10]);
        maskIndex := 10;
      }
      if !useMask || MAX_PACKET_LENGTH < payloadLength {
        return [BadRequest];
      }
      if |message| < maskIndex + 4 {
        leftoverMessage := message;
        return;
      }
      events := ReadPayload(message, opcode, payloadLength, maskIndex);
    }

    /** The part of handleInput that follows a complete, acceptable header. */
    method ReadPayload(message: seq<Byte>, opcode: nat, payloadLength: nat, maskIndex: nat)
      returns (events: seq<Event>)
      requires 2 <= |message| && maskIndex + 4 <= |message| && opcode == message[0] % 16
      modifies this
      ensures (Fields(), events) == PayloadStep(old(Fields()), message, payloadLength, maskIndex)
    {
      events := [];
      webSocketMask := BigEndian(message[maskIndex..maskIndex + 4]);
      var here := Min(payloadLength, |message| - maskIndex - 4);
      remainingBytesInPacket := payloadLength - here;
      maskOffset := 0;
      var end := maskIndex + 4 + here;
      AppendUnmasked(message[maskIndex + 4..end]);
      if opcode == PING {
        if payloadLength <= 125 {
          return [Pong(packet)];
        } else {
          return [CloseSocket];
        }
      }
      if end < |message| {
        awaitingWebSocketHeader := true;
        leftoverMessage := message[end..];
        if lastFin {
          remainingBytesInPacket := 0;
          events := [Message(packet)];
        } else {
          events := [CloseSocket];
        }
        packet := [];
      } else {
        if remainingBytesInPacket == 0 {
          awaitingWebSocketHeader := true;
          events := if lastFin then [Message(packet)] else [CloseSocket];
          packet := [];
        } else {
          awaitingWebSocketHeader := false;
        }
        leftoverMessage := [];
      }
    }

    method ReadBody(message: seq<Byte>) returns (events: seq<Event>)
      modifies this
      ensures (Fields(), events) == BodyStep(old(Fields()), message)
    {
      var here := Min(remainingBytesInPacket, |message|);
      AppendUnmasked(message[..here]);
      if remainingBytesInPacket < |message| {
        leftoverMessage := message[here..];
        remainingBytesInPacket := 0;
      } else {
        remainingBytesInPacket := remainingBytesInPacket - here;
      }
      events := [];
      if remainingBytesInPacket == 0 {
        awaitingWebSocketHeader := true;
        if lastFin {
          events := [Message(packet)];
          packet := [];
        }
      }
    }

    /** The byte-by-byte unmasking loop that both parts of handleInput contain. */
    method AppendUnmasked(data: seq<Byte>)
      modifies this`packet, this`maskOffset
      ensures packet == old(packet) + Masked(webSocketMask, old(maskOffset), data)
      ensures maskOffset == (old(maskOffset) + |data|) % 4
    {
      ghost var start := maskOffset;
      ghost var whole := Masked(webSocketMask, start, data);
      for i := 0 to |data|
        invariant maskOffset == (start + i) % 4
        invariant packet == old(packet) + whole[..i]
      {
        assert whole[..i + 1] == whole[..i] + [whole[i]];
        packet := packet + [Xor(data[i], MaskByte(webSocketMask, maskOffset))];
        maskOffset := (maskOffset + 1) % 4;
      }
      assert whole[..|data|] == whole;
    }

    /** The header that sendWebSocket puts before a payload of the given size. */
    method SendHeader(messageSize: nat, isBinary: bool, opcodeOverride: Byte) returns (header: seq<Byte>)
      requires messageSize < 0x1_0000_0000_0000_0000
      ensures var opcode := if opcodeOverride != 255 then opcodeOverride else if isBinary then 2 else 1;
              header == [128 + opcode % 128] + LengthBytes(messageSize, 0)
    {
      var opcode: Byte := if opcodeOverride != 255 then opcodeOverride else if isBinary then 2 else 1;
      header := [128 + opcode % 128];
      if messageSize <= 125 {
        header := header + [messageSize];
      } else if messageSize < 65536 {
        header := header + [126] + [messageSize / 0x100 % 256, messageSize % 256];
        Digits2(messageSize);
      } else {
        header := header + [127]
                + [messageSize / 0x100_0000_0000_0000 % 256, messageSize / 0x1_0000_0000_0000 % 256,
                   messageSize / 0x100_0000_0000 % 256, messageSize / 0x1_0000_0000 % 256,
                   messageSize / 0x100_0000 % 256, messageSize / 0x1_0000 % 256,
                   messageSize / 0x100 % 256, messageSize % 256];
        Digits8(messageSize);
      }
    }
  }

  lemma Digits2(n: nat)
    ensures Digits(n, 2) == [n / 0x100 % 256, n % 256]
  {
    assert Digits(n / 256, 1) == Digits(n / 256 / 256, 0) + [n / 256 % 256];
  }

  /** Two more digits at the low end. */
  lemma DigitsTwoMore(n: nat, count: nat)
    ensures Digits(n, count + 2) == Digits(n / 0x1_0000, count) + [n / 0x100 % 256, n % 256]
  {
    DivisionTwice(n, 0x100);
    assert Digits(n / 256, count + 1) == Digits(n / 256 / 256, count) + [n / 256 % 256];
  }

  lemma Digits8(n: nat)
    ensures Digits(n, 8)
         == [n / 0x100_0000_0000_0000 % 256, n / 0x1_0000_0000_0000 % 256,
             n / 0x100_0000_0000 % 256, n / 0x1_0000_0000 % 256,
             n / 0x100_0000 % 256, n / 0x1_0000 % 256, n / 0x100 % 256, n % 256]
  {
    var m, l, k := n / 0x1_0000, n / 0x1_0000_0000, n / 0x1_0000_0000_0000;
    DivisionTwice(n, 0x1_0000);
    DivisionTwice(n, 0x100_0000);
    DivisionTwice(n, 0x1_0000_0000);
    DivisionTwice(n, 0x100_0000_0000);
    DivisionTwice(n, 0x1_0000_0000_0000);
    DivisionTwice(m, 0x100);
    DivisionTwice(l, 0x100);
    DigitsTwoMore(n, 6);
    DigitsTwoMore(m, 4);
    DigitsTwoMore(l, 2);
    Digits2(k);
  }
}
