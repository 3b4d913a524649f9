/**
 What handleInput delivers over a whole connection: however the stream is cut into chunks, the
 messages are those of the stream.
 */
module WebSocketStream {
  import opened Bytes
  import opened Wrappers
  import opened WebSocketFrames
  import opened WebSocketClient

  function Flatten(chunks: seq<seq<Byte>>): seq<Byte> {
    if chunks == [] then [] else Flatten(chunks[..|chunks| - 1]) + chunks[|chunks| - 1]
  }

  /** The state after a run of calls, and everything the calls did. */
  function Run(st: State, chunks: seq<seq<Byte>>): (State, seq<Event>) {
    if chunks == [] then (st, []) else
    var (before, done) := Run(st, chunks[..|chunks| - 1]);
    var (after, more) := Step(before, chunks[|chunks| - 1]);
    (after, done + more)
  }

  function Delivered(messages: seq<seq<Byte>>): seq<Event> {
    seq(|messages|, i requires 0 <= i < |messages| => Message(messages[i]))
  }

  /** The bytes a state still has to be decoded from; a half-read packet holds none. */
  function Undecoded(st: State): seq<Byte> {
    if st.awaitingHeader then st.leftover else []
  }

  /** st is a state in which exactly the bytes of `held` have been received since the last
      complete frame. */
  predicate Holds(st: State, held: seq<Byte>) {
    if st.awaitingHeader then
      st.leftover == held && st.packet == []
    else
      var h := ParseHeader(held);
      && Plain(h) && st.lastFin && st.leftover == []
      && h.size <= |held| < h.size + h.length
      && st.mask == BigEndian(h.key)
      && st.packet == Unmask(h.key, held[h.size..])
      && st.maskOffset == (|held| - h.size) % 4
      && st.remaining == h.size + h.length - |held|
  }

  // ---- The mask as a 32-bit number is the mask as four octets ----

  lemma FourDigits(a: Byte, b: Byte, c: Byte, d: Byte)
    ensures var m := ((a as int * 256 + b) * 256 + c) * 256 + d;
            m / 0x100_0000 % 256 == a && m / 0x1_0000 % 256 == b && m / 0x100 % 256 == c && m % 256 == d
  {
  }

  lemma BigEndianOfFour(key: seq<Byte>)
    requires |key| == 4
    ensures BigEndian(key) == ((key[0] as int * 256 + key[1]) * 256 + key[2]) * 256 + key[3]
  {
    assert key[..3][..2] == key[..2] && key[..2][..1] == key[..1] && key[..1][..0] == [];
    assert BigEndian(key[..1]) == key[0];
    assert BigEndian(key[..2]) == key[0] as int * 256 + key[1];
    assert BigEndian(key[..3]) == (key[0] as int * 256 + key[1]) * 256 + key[2];
  }

  lemma MaskByteIsKeyOctet(key: seq<Byte>, offset: Offset)
    requires |key| == 4
    ensures MaskByte(BigEndian(key), offset) == key[offset]
  {
    BigEndianOfFour(key);
    FourDigits(key[0], key[1], key[2], key[3]);
  }

  lemma AddMod4(x: nat, y: nat)
    ensures (x % 4 + y) % 4 == (x + y) % 4
  {
  }

  lemma MaskedAt(key: seq<Byte>, done: nat, data: seq<Byte>, i: nat)
    requires |key| == 4 && i < |data|
    ensures Masked(BigEndian(key), done % 4, data)[i] == Xor(data[i], key[(done + i) % 4])
  {
    hide BigEndian, Xor, MaskByte;
    AddMod4(done, i);
    MaskByteIsKeyOctet(key, (done + i) % 4);
  }

  lemma UnmaskAt(key: seq<Byte>, data: seq<Byte>, i: nat)
    requires |key| == 4 && i < |data|
    ensures Unmask(key, data)[i] == Xor(data[i], key[i % 4])
  {
  }

  lemma MaskedIsUnmask(key: seq<Byte>, done: seq<Byte>, data: seq<Byte>)
    requires |key| == 4
    ensures Unmask(key, done + data) == Unmask(key, done) + Masked(BigEndian(key), |done| % 4, data)
  {
    hide BigEndian, Xor, Masked, Unmask;
    var whole := Unmask(key, done + data);
    var first, more := Unmask(key, done), Masked(BigEndian(key), |done| % 4, data);
    forall j | 0 <= j < |whole|
      ensures whole[j] == (first + more)[j]
    {
      UnmaskAt(key, done + data, j);
      if j < |done| {
        UnmaskAt(key, done, j);
      } else {
        MaskedAt(key, |done|, data, j - |done|);
      }
    }
  }

  // ---- One call ----

  /** A call delivers the frame that its bytes complete, if any, and holds the rest. */
  ghost predicate Advances(st: State, held: seq<Byte>, input: seq<Byte>) {
    var (after, events) := Step(st, input);
    var all := held + input;
    match ParseFrame(all)
    case NeedMore => events == [] && Holds(after, all)
    case Frame(message, size) => events == [Message(message)] && Holds(after, all[size..])
    case Unsupported => true
  }

  /** The call that reads a whole header, and as much of the payload as has arrived. */
  lemma PayloadAdvances(st: State, all: seq<Byte>)
    requires Plain(ParseHeader(all)) && st.awaitingHeader && st.packet == [] && st.lastFin
    ensures var h := ParseHeader(all);
            var (after, events) := PayloadStep(st, all, h.length, h.size - 4);
            match ParseFrame(all)
            case NeedMore => events == [] && Holds(after, all)
            case Frame(message, size) => events == [Message(message)] && Holds(after, all[size..])
            case Unsupported => true
  {
    hide Masked, Unmask, BigEndian;
    var h := ParseHeader(all);
    var end := if |all| < h.size + h.length then |all| else h.size + h.length;
    assert [] + all[h.size..end] == all[h.size..end];
    MaskedIsUnmask(h.key, [], all[h.size..end]);
    assert Unmask(h.key, []) == [];
    assert all[h.size..|all|] == all[h.size..];
  }

  lemma HeaderAdvances(st: State, input: seq<Byte>)
    requires st.awaitingHeader && st.packet == []
    ensures Advances(st, st.leftover, input)
  {
    hide PayloadStep, BigEndian, Unmask;
    var all := st.leftover + input;
    assert st.leftover == [] ==> all == input;
    if Plain(ParseHeader(all)) {
      var joined := if st.leftover == [] then st else st.(leftover := all);
      PayloadAdvances(joined.(lastFin := true), all);
    }
  }

  lemma BodyAdvances(st: State, held: seq<Byte>, input: seq<Byte>)
    requires !st.awaitingHeader && Holds(st, held)
    ensures Advances(st, held, input)
  {
    hide Masked, Unmask, BigEndian, ParseHeader;
    HeaderStable(held, input);
    var h := ParseHeader(held);
    var all := held + input;
    var here := Min(st.remaining, |input|);
    assert all[h.size..|held| + here] == held[h.size..] + input[..here];
    MaskedIsUnmask(h.key, held[h.size..], input[..here]);
    AddMod4(|held| - h.size, here);
    if |input| < st.remaining {
      assert all[h.size..] == all[h.size..|held| + here];
    } else if st.remaining < |input| {
      assert all[h.size + h.length..] == input[here..];
    } else {
      assert all[h.size + h.length..] == [];
    }
  }

  lemma StepAdvances(st: State, held: seq<Byte>, input: seq<Byte>)
    requires Holds(st, held)
    ensures Advances(st, held, input)
  {
    if st.awaitingHeader {
      HeaderAdvances(st, input);
    } else {
      BodyAdvances(st, held, input);
    }
  }

  // ---- A run of calls ----

  /** The received bytes are whole frames, all of them delivered, followed by the held bytes. */
  ghost predicate Accounted(st: State, events: seq<Event>, received: seq<Byte>, whole: seq<Byte>, held: seq<Byte>) {
    && received == whole + held
    && Whole(whole)
    && events == Delivered(Decode(whole))
    && Holds(st, held)
  }

  lemma DeliveredConcat(a: seq<seq<Byte>>, b: seq<seq<Byte>>)
    ensures Delivered(a + b) == Delivered(a) + Delivered(b)
  {
  }

  /** Appending a complete frame to whole frames. */
  lemma WholeThenFrame(whole: seq<Byte>, rest: seq<Byte>)
    requires Whole(whole) && ParseFrame(rest).Frame?
    ensures var p := ParseFrame(rest);
            && Whole(whole + rest[..p.size])
            && Decode(whole + rest[..p.size]) == Decode(whole) + [p.message]
  {
    var p := ParseFrame(rest);
    var one := rest[..p.size];
    OneFrame(rest);
    DecodeConcat(whole, one);
    WholeConcat(whole, one);
  }

  lemma OneFrame(rest: seq<Byte>)
    requires ParseFrame(rest).Frame?
    ensures var one := rest[..ParseFrame(rest).size];
            Whole(one) && Decode(one) == [ParseFrame(rest).message]
  {
    var p := ParseFrame(rest);
    var one := rest[..p.size];
    assert one + rest[p.size..] == rest;
    FramePrefix(one, rest[p.size..]);
    assert one[p.size..] == [];
    NoBytes();
  }

  lemma HeaderPrefix(one: seq<Byte>, t: seq<Byte>)
    requires ParseHeader(one + t).Header? && ParseHeader(one + t).size <= |one|
    ensures ParseHeader(one) == ParseHeader(one + t)
  {
    var at := ParseLength(one + t).value.size;
    assert (one + t)[at..at + 4] == one[at..at + 4];
    assert (one + t)[2..4] == one[2..4];
    if 10 <= |one| {
      assert (one + t)[2..10] == one[2..10];
    }
  }

  /** A frame is decided by its own bytes. */
  lemma FramePrefix(one: seq<Byte>, t: seq<Byte>)
    requires ParseFrame(one + t).Frame? && ParseFrame(one + t).size == |one|
    ensures ParseFrame(one) == ParseFrame(one + t)
  {
    HeaderPrefix(one, t);
    var h := ParseHeader(one + t);
    assert (one + t)[h.size..h.size + h.length] == one[h.size..h.size + h.length];
  }

  lemma {:induction false} WholeConcat(a: seq<Byte>, b: seq<Byte>)
    requires Whole(a) && Whole(b)
    ensures Whole(a + b)
    decreases |a|
  {
    if a == [] {
      assert a + b == b;
    } else {
      FrameStable(a, b);
      var n := ParseFrame(a).size;
      assert (a + b)[n..] == a[n..] + b;
      WholeConcat(a[n..], b);
    }
  }

  /** One more call keeps the account. */
  lemma AccountStep(st: State, events: seq<Event>, received: seq<Byte>, whole: seq<Byte>, held: seq<Byte>,
                    input: seq<Byte>)
    returns (whole': seq<Byte>, held': seq<Byte>)
    requires Accounted(st, events, received, whole, held)
    requires Supported(received + input)
    ensures Accounted(Step(st, input).0, events + Step(st, input).1, received + input, whole', held')
    ensures |Step(st, input).1| <= 1
  {
    hide Step, ParseFrame, Holds;
    var all := held + input;
    assert received + input == whole + all;
    DecodeConcat(whole, all);
    StepAdvances(st, held, input);
    match ParseFrame(all)
    case NeedMore =>
      whole', held' := whole, all;
      assert events + [] == events;
    case Frame(message, size) =>
      whole', held' := whole + all[..size], all[size..];
      assert whole' + held' == whole + all;
      WholeThenFrame(whole, all);
      DeliveredConcat(Decode(whole), [message]);
      assert Delivered([message]) == [Message(message)];
  }

  lemma {:induction false} RunAccounted(chunks: seq<seq<Byte>>)
    returns (whole: seq<Byte>, held: seq<Byte>)
    requires Supported(Flatten(chunks))
    ensures Accounted(Run(INITIAL, chunks).0, Run(INITIAL, chunks).1, Flatten(chunks), whole, held)
    ensures |Run(INITIAL, chunks).1| <= |chunks|
    decreases |chunks|
  {
    if chunks == [] {
      whole, held := [], [];
      NoBytes();
    } else {
      var before, last := chunks[..|chunks| - 1], chunks[|chunks| - 1];
      SupportedPrefix(Flatten(before), last);
      var w, h := RunAccounted(before);
      whole, held := AccountStep(Run(INITIAL, before).0, Run(INITIAL, before).1, Flatten(before), w, h, last);
    }
  }

  lemma HeldDecodesAsUndecoded(st: State, held: seq<Byte>)
    requires Holds(st, held)
    ensures Decode(held) == Decode(Undecoded(st))
  {
    if !st.awaitingHeader {
      NoBytes();
      assert ParseFrame(held) == NeedMore;
    }
  }

  /** Chunking invariance: after every call, what was delivered followed by what the state still
      holds is the decoding of everything received, however it was cut. */
  lemma ChunkingInvariance(chunks: seq<seq<Byte>>)
    requires Supported(Flatten(chunks))
    ensures var (st, events) := Run(INITIAL, chunks);
            && events + Delivered(Decode(Undecoded(st))) == Delivered(Decode(Flatten(chunks)))
            && |events| <= |chunks|
  {
    var whole, held := RunAccounted(chunks);
    DecodeConcat(whole, held);
    DeliveredConcat(Decode(whole), Decode(held));
    HeldDecodesAsUndecoded(Run(INITIAL, chunks).0, held);
  }

  // ---- Calls without input drain what is left ----

  function Empty(count: nat): (chunks: seq<seq<Byte>>) {
    seq(count, _ => [])
  }

  /** An empty call delivers one more frame and makes the leftover shorter, or changes nothing
      that could be delivered. */
  lemma EmptyCall(st: State, held: seq<Byte>)
    requires Holds(st, held) && ParseFrame(held) != Unsupported
    ensures var (after, events) := Step(st, []);
            if ParseFrame(held).Frame? then
              && events == [Message(ParseFrame(held).message)]
              && |Undecoded(after)| < |Undecoded(st)|
            else events == []
  {
    StepAdvances(st, held, []);
    assert held + [] == held;
    if ParseFrame(held).Frame? {
      assert st.awaitingHeader;
    }
  }

  lemma RunConcat(st: State, a: seq<seq<Byte>>, b: seq<seq<Byte>>)
    ensures Run(st, a + b) == (Run(Run(st, a).0, b).0, Run(st, a).1 + Run(Run(st, a).0, b).1)
    decreases |b|
  {
    hide Step;
    if b == [] {
      assert a + b == a && Run(st, a).1 + [] == Run(st, a).1;
    } else {
      var before, last := b[..|b| - 1], b[|b| - 1];
      assert (a + b)[..|a + b| - 1] == a + before && (a + b)[|a + b| - 1] == last;
      RunConcat(st, a, before);
      var (mid, first) := Run(st, a);
      var (end, second) := Run(mid, before);
      var third := Step(end, last).1;
      assert first + second + third == first + (second + third);
    }
  }

  lemma FlattenEmpty(chunks: seq<seq<Byte>>, count: nat)
    ensures Flatten(chunks + Empty(count)) == Flatten(chunks)
  {
    if count == 0 {
      assert chunks + Empty(0) == chunks;
    } else {
      var longer := chunks + Empty(count);
      assert longer[..|longer| - 1] == chunks + Empty(count - 1);
      FlattenEmpty(chunks, count - 1);
    }
  }

  /** As many empty calls as messages are held back deliver all of them. */
  lemma {:induction false} Drains(st: State, held: seq<Byte>, count: nat)
    requires Holds(st, held) && Supported(held)
    requires |Decode(held)| <= count
    ensures Run(st, Empty(count)).1 == Delivered(Decode(held))
    ensures Decode(Undecoded(Run(st, Empty(count)).0)) == []
    decreases count
  {
    hide Step, ParseFrame, Holds;
    if count == 0 {
      HeldDecodesAsUndecoded(st, held);
    } else {
      StepAdvances(st, held, []);
      assert held + [] == held;
      var (after, events) := Step(st, []);
      var rest := if ParseFrame(held).Frame? then held[ParseFrame(held).size..] else held;
      Drains(after, rest, count - 1);
      assert Empty(count) == Empty(1) + Empty(count - 1);
      RunConcat(st, Empty(1), Empty(count - 1));
      assert Empty(1)[..0] == Empty(0);
      assert Run(st, Empty(1)) == (after, [] + events);
      if ParseFrame(held).Frame? {
        DeliveredConcat([ParseFrame(held).message], Decode(rest));
      }
    }
  }

  /** Any cutting of the stream, followed by enough empty calls, delivers exactly its messages. */
  lemma CutAndDrained(chunks: seq<seq<Byte>>, count: nat)
    requires Supported(Flatten(chunks))
    requires |Decode(Flatten(chunks))| <= count
    ensures Run(INITIAL, chunks + Empty(count)).1 == Delivered(Decode(Flatten(chunks)))
  {
    var whole, held := RunAccounted(chunks);
    DecodeConcat(whole, held);
    var (st, events) := Run(INITIAL, chunks);
    Drains(st, held, count);
    RunConcat(INITIAL, chunks, Empty(count));
    DeliveredConcat(Decode(whole), Decode(held));
  }

  /** What a client sends as masked frames is what the server's handlers get, in order. */
  lemma SentIsReceived(frames: seq<Outgoing>, chunks: seq<seq<Byte>>)
    requires forall f :: f in frames ==> Sendable(f)
    requires Flatten(chunks) == Stream(frames)
    ensures Run(INITIAL, chunks + Empty(|frames|)).1 == Delivered(Payloads(frames))
  {
    StreamDecodes(frames);
    CutAndDrained(chunks, |frames|);
  }

  // ---- Pings ----

  predicate PingHeader(s: seq<Byte>) {
    ParseHeader(s).Header? && ParseHeader(s).opcode == PING
  }

  function PingSize(s: seq<Byte>): nat
    requires PingHeader(s)
  {
    ParseHeader(s).size + ParseHeader(s).length
  }

  /** As much of the ping's payload as has arrived. */
  function PingPayload(s: seq<Byte>): seq<Byte>
    requires PingHeader(s)
  {
    var h := ParseHeader(s);
    Unmask(h.key, s[h.size..Min(|s|, PingSize(s))])
  }

  /** A call that treats a ping like other frames: an incomplete one is held, a complete one is
      answered once and consumed, and the bytes behind it are held. */
  ghost predicate PingServed(st: State, held: seq<Byte>, input: seq<Byte>)
    requires PingHeader(held + input)
  {
    var (after, events) := Step(st, input);
    var all := held + input;
    if |all| < PingSize(all) then events == [] && Holds(after, all)
    else
      && events == [if ParseHeader(all).length <= 125 then Pong(PingPayload(all)) else CloseSocket]
      && Holds(after, all[PingSize(all)..])
  }

  /** What a call does that meets a ping header while it waits for one: it answers at once with the
      packet as it is, keeps the packet, and consumes nothing. */
  lemma PingStep(st: State, input: seq<Byte>)
    requires st.awaitingHeader && PingHeader(st.leftover + input)
    ensures var all := st.leftover + input;
            var (after, events) := Step(st, input);
            && after.awaitingHeader
            && after.leftover == (if st.leftover == [] then [] else all)
            && after.packet == st.packet + PingPayload(all)
            && events == [if ParseHeader(all).length <= 125 then Pong(after.packet) else CloseSocket]
  {
    hide Masked, Unmask, BigEndian;
    var all := st.leftover + input;
    assert st.leftover == [] ==> all == input;
    var h := ParseHeader(all);
    var data := all[h.size..Min(|all|, PingSize(all))];
    assert [] + data == data && Unmask(h.key, []) == [];
    MaskedIsUnmask(h.key, [], data);
  }

  /** In the middle of a packet the header that was read stays the one of that packet. */
  lemma PingFoundAwaiting(st: State, held: seq<Byte>, input: seq<Byte>)
    requires Holds(st, held) && PingHeader(held + input)
    ensures st.awaitingHeader
  {
    if Plain(ParseHeader(held)) {
      HeaderStable(held, input);
    }
  }

  /** A ping is served exactly when nothing is held, it comes alone in its call, and it is empty. */
  lemma PingServedExactly(st: State, held: seq<Byte>, input: seq<Byte>)
    requires Holds(st, held) && PingHeader(held + input)
    ensures var all := held + input;
            PingServed(st, held, input) <==>
              held == [] && |all| == PingSize(all) && ParseHeader(all).length == 0
  {
    var all := held + input;
    PingFoundAwaiting(st, held, input);
    PingStep(st, input);
    hide Step, ParseHeader;
    assert held == [] ==> all == input;
    assert st.packet + PingPayload(all) == PingPayload(all);
    if |all| >= PingSize(all) && Holds(Step(st, input).0, all[PingSize(all)..]) {
      assert held != [] ==> |Step(st, input).0.leftover| == |all|;
      assert |PingPayload(all)| == ParseHeader(all).length;
    }
  }

  /** A call as the sender sees it: bytes of other frames, or a ping. */
  datatype Call = Data(bytes: seq<Byte>) | Ping(bytes: seq<Byte>)

  function Inputs(calls: seq<Call>): (chunks: seq<seq<Byte>>)
    ensures |chunks| == |calls|
  {
    if calls == [] then [] else Inputs(calls[..|calls| - 1]) + [calls[|calls| - 1].bytes]
  }

  /** The stream without its pings. */
  function DataOf(calls: seq<Call>): seq<Byte> {
    if calls == [] then []
    else DataOf(calls[..|calls| - 1]) + if calls[|calls| - 1].Data? then calls[|calls| - 1].bytes else []
  }

  function PingsOf(calls: seq<Call>): seq<Event> {
    if calls == [] then []
    else PingsOf(calls[..|calls| - 1]) + if calls[|calls| - 1].Ping? then [Pong([])] else []
  }

  /** Nothing is held back: no part of a frame and no complete one. */
  predicate HoldsNothing(st: State) {
    st.awaitingHeader && st.leftover == []
  }

  /** Every ping is empty, alone in its call, and comes when nothing is held back. */
  predicate Orderly(calls: seq<Call>) {
    calls == []
    || (var before, last := calls[..|calls| - 1], calls[|calls| - 1];
        && Orderly(before)
        && (last.Ping? ==>
              && PingHeader(last.bytes) && |last.bytes| == PingSize(last.bytes) && ParseHeader(last.bytes).length == 0
              && HoldsNothing(Run(INITIAL, Inputs(before)).0)))
  }

  function MessagesIn(events: seq<Event>): seq<Event> {
    if events == [] then []
    else MessagesIn(events[..|events| - 1]) + if events[|events| - 1].Message? then [events[|events| - 1]] else []
  }

  /** Everything that is not a message. */
  function OthersIn(events: seq<Event>): seq<Event> {
    if events == [] then []
    else OthersIn(events[..|events| - 1]) + if events[|events| - 1].Message? then [] else [events[|events| - 1]]
  }

  /** Appending at most one event. */
  lemma EventAdded(events: seq<Event>, more: seq<Event>)
    requires |more| <= 1
    ensures MessagesIn(events + more) == MessagesIn(events) + (if more != [] && more[0].Message? then more else [])
    ensures OthersIn(events + more) == OthersIn(events) + (if more != [] && !more[0].Message? then more else [])
  {
    if more == [] {
      assert events + more == events;
    } else {
      assert (events + more)[..|events + more| - 1] == events && (events + more)[|events + more| - 1] == more[0];
      assert more == [more[0]];
    }
  }

  lemma LastCall(calls: seq<Call>)
    requires calls != []
    ensures var before, last := calls[..|calls| - 1], calls[|calls| - 1];
            var (st, events) := Run(INITIAL, Inputs(before));
            Run(INITIAL, Inputs(calls)) == (Step(st, last.bytes).0, events + Step(st, last.bytes).1)
  {
    hide Step;
    var chunks := Inputs(calls);
    assert chunks[..|chunks| - 1] == Inputs(calls[..|calls| - 1]);
    assert chunks[|chunks| - 1] == calls[|calls| - 1].bytes;
  }

  lemma EmptyPingCall(st: State, held: seq<Byte>, ping: seq<Byte>)
    requires Holds(st, held) && HoldsNothing(st)
    requires PingHeader(ping) && |ping| == PingSize(ping) && ParseHeader(ping).length == 0
    ensures Step(st, ping).1 == [Pong([])] && Holds(Step(st, ping).0, held)
  {
    assert held == [] && held + ping == ping && ping[PingSize(ping)..] == [];
    PingServedExactly(st, held, ping);
    hide Step;
    assert PingPayload(ping) == [];
  }

  lemma {:induction false} CallsAccounted(calls: seq<Call>) returns (whole: seq<Byte>, held: seq<Byte>)
    requires Orderly(calls) && Supported(DataOf(calls))
    ensures var (st, events) := Run(INITIAL, Inputs(calls));
            Accounted(st, MessagesIn(events), DataOf(calls), whole, held) && OthersIn(events) == PingsOf(calls)
    decreases |calls|
  {
    if calls == [] {
      whole, held := [], [];
      NoBytes();
    } else {
      var before, last := calls[..|calls| - 1], calls[|calls| - 1];
      SupportedPrefix(DataOf(before), if last.Data? then last.bytes else []);
      assert DataOf(calls) == DataOf(before) + if last.Data? then last.bytes else [];
      whole, held := CallsAccounted(before);
      LastCall(calls);
      var (st, events) := Run(INITIAL, Inputs(before));
      hide Run, Step, Supported, Accounted;
      var more := Step(st, last.bytes).1;
      if last.Data? {
        whole, held := DataCall(st, events, DataOf(before), whole, held, last.bytes);
      } else {
        assert Holds(st, held) by { HoldsFrom(st, MessagesIn(events), DataOf(before), whole, held); }
        EmptyPingCall(st, held, last.bytes);
        EventAdded(events, more);
        assert DataOf(calls) == DataOf(before) && MessagesIn(events + more) == MessagesIn(events);
        AccountMoves(st, Step(st, last.bytes).0, MessagesIn(events), DataOf(before), whole, held);
      }
    }
  }

  lemma HoldsFrom(st: State, events: seq<Event>, received: seq<Byte>, whole: seq<Byte>, held: seq<Byte>)
    requires Accounted(st, events, received, whole, held)
    ensures Holds(st, held)
  {
  }

  lemma AccountMoves(st: State, after: State, events: seq<Event>, received: seq<Byte>, whole: seq<Byte>, held: seq<Byte>)
    requires Accounted(st, events, received, whole, held) && Holds(after, held)
    ensures Accounted(after, events, received, whole, held)
  {
  }

  lemma DataCall(st: State, events: seq<Event>, received: seq<Byte>, whole: seq<Byte>, held: seq<Byte>, input: seq<Byte>)
    returns (whole': seq<Byte>, held': seq<Byte>)
    requires Accounted(st, MessagesIn(events), received, whole, held) && Supported(received + input)
    ensures var more := Step(st, input).1;
            && Accounted(Step(st, input).0, MessagesIn(events + more), received + input, whole', held')
            && OthersIn(events + more) == OthersIn(events)
  {
    hide Step, Holds, Supported, Accounted, MessagesIn, OthersIn;
    whole', held' := AccountStep(st, MessagesIn(events), received, whole, held, input);
    var more := Step(st, input).1;
    LastDelivered(Step(st, input).0, MessagesIn(events) + more, received + input, whole', held');
    EventAdded(events, more);
    if more == [] {
      assert MessagesIn(events) + more == MessagesIn(events);
    } else {
      var all := MessagesIn(events) + more;
      assert all[|all| - 1] == more[0];
    }
    assert MessagesIn(events + more) == MessagesIn(events) + more;
  }

  lemma LastDelivered(st: State, events: seq<Event>, received: seq<Byte>, whole: seq<Byte>, held: seq<Byte>)
    requires Accounted(st, events, received, whole, held)
    ensures events != [] ==> events[|events| - 1].Message?
  {
    hide Whole, Holds, Decode;
  }

  /** A stream with orderly pings: its other frames are delivered as if the pings were not there, and each
      ping is answered once, in whatever chunks the rest of the stream comes. */
  lemma OrderlyPings(calls: seq<Call>)
    requires Orderly(calls) && Supported(DataOf(calls))
    ensures var (st, events) := Run(INITIAL, Inputs(calls));
            && MessagesIn(events) + Delivered(Decode(Undecoded(st))) == Delivered(Decode(DataOf(calls)))
            && OthersIn(events) == PingsOf(calls)
  {
    var whole, held := CallsAccounted(calls);
    var (st, events) := Run(INITIAL, Inputs(calls));
    DecodeConcat(whole, held);
    DeliveredConcat(Decode(whole), Decode(held));
    HeldDecodesAsUndecoded(st, held);
  }

  /** A ping with a payload spoils the next message: the payload is delivered in front of it. */
  lemma PingSpoilsMessage(st: State, ping: seq<Byte>, frame: seq<Byte>)
    requires st.awaitingHeader && st.leftover == [] && st.packet == []
    requires PingHeader(ping) && ParseFrame(frame).Frame? && |frame| == ParseFrame(frame).size
    ensures Step(Step(st, ping).0, frame).1 == [Message(PingPayload(ping) + ParseFrame(frame).message)]
  {
    hide Masked, Unmask, BigEndian;
    assert [] + ping == ping && [] + PingPayload(ping) == PingPayload(ping);
    PingStep(st, ping);
    var after := Step(st, ping).0;
    hide Step;
    FrameBehindPacket(after, frame);
  }

  /** A whole frame in one call is appended to whatever the packet holds. */
  lemma FrameBehindPacket(st: State, frame: seq<Byte>)
    requires st.awaitingHeader && st.leftover == []
    requires ParseFrame(frame).Frame? && |frame| == ParseFrame(frame).size
    ensures Step(st, frame).1 == [Message(st.packet + ParseFrame(frame).message)]
  {
    hide Masked, Unmask, BigEndian;
    var h := ParseHeader(frame);
    var data := frame[h.size..h.size + h.length];
    assert [] + data == data && Unmask(h.key, []) == [];
    MaskedIsUnmask(h.key, [], data);
    assert Masked(BigEndian(h.key), 0, data) == ParseFrame(frame).message;
    var at := h.size - 4;
    assert frame[at..at + 4] == h.key && Min(h.length, |frame| - at - 4) == h.length;
    assert Step(st, frame) == PayloadStep(st.(lastFin := true), frame, h.length, at);
  }

  /** The leftover begins with a ping header. */
  predicate Wedged(st: State) {
    st.awaitingHeader && st.leftover != [] && PingHeader(st.leftover)
  }

  predicate NoMessages(events: seq<Event>) {
    forall e :: e in events ==> e.Pong? || e.CloseSocket?
  }

  lemma WedgedStep(st: State, input: seq<Byte>)
    requires st.awaitingHeader && st.leftover != [] && PingHeader(st.leftover + input)
    ensures var (after, events) := Step(st, input);
            Wedged(after) && after.leftover == st.leftover + input && |events| == 1 && NoMessages(events)
  {
    PingStep(st, input);
    hide Step;
  }

  lemma StaysWedged(st: State, input: seq<Byte>)
    requires Wedged(st)
    ensures var (after, events) := Step(st, input);
            Wedged(after) && after.leftover == st.leftover + input && |events| == 1 && NoMessages(events)
  {
    HeaderStable(st.leftover, input);
    hide Step, ParseHeader;
    WedgedStep(st, input);
  }

  lemma MoreWithoutMessages(a: seq<Event>, b: seq<Event>)
    requires NoMessages(a) && NoMessages(b)
    ensures NoMessages(a + b)
  {
  }

  /** A ping that is completed by a second call is never consumed: from then on every call answers it
      again, and no message is ever delivered. */
  lemma {:induction false} WedgedForever(st: State, chunks: seq<seq<Byte>>)
    requires Wedged(st)
    ensures var (after, events) := Run(st, chunks);
            Wedged(after) && after.leftover == st.leftover + Flatten(chunks)
            && |events| == |chunks| && NoMessages(events)
    decreases |chunks|
  {
    hide Step;
    if chunks == [] {
      assert st.leftover + Flatten(chunks) == st.leftover;
    } else {
      var before, last := chunks[..|chunks| - 1], chunks[|chunks| - 1];
      WedgedForever(st, before);
      var mid := Run(st, before).0;
      StaysWedged(mid, last);
      hide Wedged, NoMessages;
      assert mid.leftover + last == st.leftover + Flatten(chunks);
      MoreWithoutMessages(Run(st, before).1, Step(mid, last).1);
    }
  }

  /** Bytes that follow a ping in a call that held nothing are lost: the call does the same whatever
      they are. */
  lemma PingLosesRest(st: State, ping: seq<Byte>, rest: seq<Byte>)
    requires st.awaitingHeader && st.leftover == []
    requires PingHeader(ping) && |ping| == PingSize(ping)
    ensures Step(st, ping + rest) == Step(st, ping)
    ensures Undecoded(Step(st, ping + rest).0) == []
  {
    hide Masked, BigEndian, Unmask;
    HeaderStable(ping, rest);
    var h := ParseHeader(ping);
    assert (ping + rest)[h.size..|ping|] == ping[h.size..|ping|];
  }

  // ---- Refused and non-final frames ----

  /** A refused header is answered with an error, and nothing of it is consumed. */
  lemma RefusedStep(st: State, input: seq<Byte>)
    requires st.awaitingHeader && ParseHeader(st.leftover + input).Refused?
    ensures 2 <= |st.leftover + input|
    ensures var (after, events) := Step(st, input);
            && events == [BadRequest]
            && after == st.(lastFin := 128 <= (st.leftover + input)[0], leftover := if st.leftover == [] then [] else st.leftover + input)
  {
    assert st.leftover == [] ==> st.leftover + input == input;
  }

  /** An incomplete header is kept whole. */
  lemma IncompleteStep(st: State, input: seq<Byte>)
    requires st.awaitingHeader && ParseHeader(st.leftover + input).Incomplete?
    ensures var all := st.leftover + input;
            Step(st, input) == (st.(leftover := all, lastFin := if |all| < 2 then st.lastFin else 128 <= all[0]), [])
  {
    assert st.leftover == [] ==> st.leftover + input == input;
  }

  /** A final bit that is missing. */
  predicate Fragment(h: Header) {
    h.Header? && !h.fin && h.opcode != PING
  }

  /** The part of FragmentStep behind the header. */
  lemma FragmentPayload(st: State, all: seq<Byte>)
    requires st.awaitingHeader && st.packet == [] && !st.lastFin && Fragment(ParseHeader(all))
    ensures var h := ParseHeader(all);
            var (after, events) := PayloadStep(st, all, h.length, h.size - 4);
            if h.size + h.length <= |all| then
              && events == [CloseSocket] && after.awaitingHeader && after.packet == []
              && after.leftover == all[h.size + h.length..]
            else
              && events == [] && !after.awaitingHeader && !after.lastFin && after.leftover == []
              && after.packet == Unmask(h.key, all[h.size..]) && after.mask == BigEndian(h.key)
              && after.maskOffset == (|all| - h.size) % 4 && after.remaining == h.size + h.length - |all|
  {
    var h := ParseHeader(all);
    HeaderParts(all);
    hide PayloadStep, Masked, Unmask, BigEndian, ParseHeader;
    if h.size + h.length <= |all| {
      WholeFragment(st, all, h.length, h.size - 4);
    } else {
      CutFragment(st, all, h.length, h.size - 4);
      Unmasked(h.key, all[h.size..]);
    }
  }

  lemma Unmasked(key: seq<Byte>, data: seq<Byte>)
    requires |key| == 4
    ensures Masked(BigEndian(key), 0, data) == Unmask(key, data)
  {
    MaskedIsUnmask(key, [], data);
    assert [] + data == data && Unmask(key, []) == [];
  }

  lemma WholeFragment(st: State, all: seq<Byte>, length: nat, at: nat)
    requires 2 <= |all| && at + 4 + length <= |all| && !st.lastFin && all[0] % 16 != PING && st.awaitingHeader
    ensures var (after, events) := PayloadStep(st, all, length, at);
            && events == [CloseSocket] && after.awaitingHeader && after.packet == [] && after.leftover == all[at + 4 + length..]
  {
    hide Masked, BigEndian;
    if |all| == at + 4 + length {
      assert all[at + 4 + length..] == [];
    }
  }

  lemma CutFragment(st: State, all: seq<Byte>, length: nat, at: nat)
    requires 2 <= |all| && at + 4 <= |all| < at + 4 + length && !st.lastFin && all[0] % 16 != PING && st.packet == []
    ensures var key := all[at..at + 4];
            PayloadStep(st, all, length, at)
            == (st.(awaitingHeader := false, leftover := [], mask := BigEndian(key), maskOffset := (|all| - at - 4) % 4,
                    remaining := at + 4 + length - |all|, packet := Masked(BigEndian(key), 0, all[at + 4..])), [])
  {
    hide Masked, BigEndian;
    var data := Masked(BigEndian(all[at..at + 4]), 0, all[at + 4..]);
    assert all[at + 4..|all|] == all[at + 4..] && st.packet + data == data;
  }

  lemma HeaderParts(all: seq<Byte>)
    requires ParseHeader(all).Header?
    ensures var h := ParseHeader(all);
            6 <= h.size <= |all| && h.key == all[h.size - 4..h.size] && (h.fin <==> 128 <= all[0]) && h.opcode == all[0] % 16
  {
  }

  lemma HeaderLeads(st: State, input: seq<Byte>)
    requires st.awaitingHeader && Fragment(ParseHeader(st.leftover + input))
    ensures var all := st.leftover + input;
            var h := ParseHeader(all);
            exists left :: Step(st, input) == PayloadStep(st.(lastFin := false, leftover := left), all, h.length, h.size - 4)
  {
    hide PayloadStep;
    var all := st.leftover + input;
    assert st.leftover == [] ==> all == input;
    var left := if st.leftover == [] then [] else all;
    var h := ParseHeader(all);
    assert Step(st, input) == PayloadStep(st.(lastFin := false, leftover := left), all, h.length, h.size - 4);
  }

  /** The call that reads the header of a non-final frame: if the whole frame is there the socket is closed
      and the frame dropped, otherwise its payload goes on in the packet like that of a final one. */
  lemma FragmentStep(st: State, input: seq<Byte>)
    requires st.awaitingHeader && st.packet == [] && Fragment(ParseHeader(st.leftover + input))
    ensures var all := st.leftover + input;
            var h := ParseHeader(all);
            var (after, events) := Step(st, input);
            if h.size + h.length <= |all| then
              && events == [CloseSocket] && after.awaitingHeader && after.packet == []
              && after.leftover == all[h.size + h.length..]
            else
              && events == [] && !after.awaitingHeader && !after.lastFin && after.leftover == []
              && after.packet == Unmask(h.key, all[h.size..]) && after.mask == BigEndian(h.key)
              && after.maskOffset == (|all| - h.size) % 4 && after.remaining == h.size + h.length - |all|
  {
    hide Step, PayloadStep, Unmask, BigEndian, ParseHeader;
    var all := st.leftover + input;
    var h := ParseHeader(all);
    HeaderLeads(st, input);
    var left :| Step(st, input) == PayloadStep(st.(lastFin := false, leftover := left), all, h.length, h.size - 4);
    FragmentPayload(st.(lastFin := false, leftover := left), all);
  }

  /** A non-final frame cut inside its payload is joined with the next final frame; one that arrives whole
      closes the socket instead. */
  lemma FragmentExactly(st: State, first: seq<Byte>, second: seq<Byte>, frame: seq<Byte>)
    requires HoldsNothing(st) && st.packet == []
    requires Fragment(ParseHeader(first)) && ParseFrame(frame).Frame? && |frame| == ParseFrame(frame).size
    requires var h := ParseHeader(first); |first| + |second| == h.size + h.length
    ensures var h, all := ParseHeader(first), first + second;
            var (mid, opening) := Step(st, first);
            if second == [] then opening == [CloseSocket] && Step(mid, frame).1 == [Message(ParseFrame(frame).message)]
            else
              && opening == [] && Step(mid, second).1 == []
              && Step(Step(mid, second).0, frame).1
                 == [Message(Unmask(h.key, all[h.size..]) + ParseFrame(frame).message)]
  {
    assert st.leftover + first == first;
    FragmentStep(st, first);
    var h, mid := ParseHeader(first), Step(st, first).0;
    hide Step, ParseHeader;
    if second == [] {
      assert first[h.size + h.length..] == [];
      FrameBehindPacket(mid, frame);
      assert [] + ParseFrame(frame).message == ParseFrame(frame).message;
    } else {
      FragmentEnds(mid, h, first, second);
      FrameBehindPacket(Step(mid, second).0, frame);
    }
  }

  lemma FragmentEnds(mid: State, h: Header, first: seq<Byte>, second: seq<Byte>)
    requires h.Header? && |h.key| == 4 && h.size <= |first| && second != []
    requires |first| + |second| == h.size + h.length
    requires !mid.awaitingHeader && !mid.lastFin && mid.leftover == [] && mid.mask == BigEndian(h.key)
    requires mid.packet == Unmask(h.key, first[h.size..]) && mid.maskOffset == (|first| - h.size) % 4
    requires mid.remaining == |second|
    ensures var (after, events) := Step(mid, second);
            && events == [] && after.awaitingHeader && after.leftover == []
            && after.packet == Unmask(h.key, (first + second)[h.size..])
  {
    hide Masked, Unmask, BigEndian;
    assert (first + second)[h.size..] == first[h.size..] + second && second[..|second|] == second;
    MaskedIsUnmask(h.key, first[h.size..], second);
  }
}
