/** Serial packets: a start character, a length, the payload and its CRC-8. */
module SerialParser {
  import opened Bits
  import opened Convert
  import opened Crc8

  const START: byte := 0x7E

  datatype State = IDLE | LENGTH | PAYLOAD | CHECKSUM | DONE | ERROR_CHECKSUM | ERROR_LENGTH

  /** The parser as a value: its state, the length of the message, and the payload bytes read so far. */
  datatype Parsing = Parsing(state: State, length: nat, bytes: seq<byte>)

  predicate Finished(s: State) {
    s == DONE || s == ERROR_CHECKSUM || s == ERROR_LENGTH
  }

  /** One byte, in a state that is not final. */
  function Feed(p: Parsing, limit: nat, b: byte): Parsing {
    match p.state
    case IDLE => if b == START then p.(state := LENGTH) else p
    case LENGTH =>
      var n := b as nat + 1;
      if n <= limit then Parsing(PAYLOAD, n, []) else Parsing(ERROR_LENGTH, n, p.bytes)
    case PAYLOAD =>
      var bytes := p.bytes + [b];
      Parsing(if |bytes| >= p.length then CHECKSUM else PAYLOAD, p.length, bytes)
    case CHECKSUM => p.(state := if Crc8.Add(0, p.bytes) != b then ERROR_CHECKSUM else DONE)
    case _ => p
  }

  /** A final state is left for the idle one before the next byte. */
  function Fresh(p: Parsing): Parsing {
    if Finished(p.state) then p.(state := IDLE) else p
  }

  function FeedNext(p: Parsing, limit: nat, b: byte): Parsing { Feed(Fresh(p), limit, b) }

  /** The parser after a stream of bytes, and the messages completed on the way. */
  function Consume(p: Parsing, limit: nat, stream: seq<byte>): (Parsing, seq<seq<byte>>)
    decreases |stream|
  {
    if stream == [] then (p, [])
    else
      var next := FeedNext(p, limit, stream[0]);
      var (last, messages) := Consume(next, limit, stream[1..]);
      (last, (if next.state == DONE then [next.bytes] else []) + messages)
  }

  /** Messages and final state do not depend on how the stream is cut into chunks. */
  lemma {:induction false} ConsumeConcat(p: Parsing, limit: nat, a: seq<byte>, b: seq<byte>)
    ensures var (mid, first) := Consume(p, limit, a); var (last, second) := Consume(mid, limit, b);
            Consume(p, limit, a + b) == (last, first + second)
    decreases |a|
  {
    if a == [] {
      assert a + b == b;
      assert [] + Consume(p, limit, b).1 == Consume(p, limit, b).1;
    } else {
      assert (a + b)[1..] == a[1..] + b;
      var next := FeedNext(p, limit, a[0]);
      ConsumeConcat(next, limit, a[1..], b);
      var (mid, first) := Consume(next, limit, a[1..]);
      var now := if next.state == DONE then [next.bytes] else [];
      assert now + (first + Consume(mid, limit, b).1) == (now + first) + Consume(mid, limit, b).1;
    }
  }

  lemma {:induction false} ConsumeOne(p: Parsing, limit: nat, b: byte)
    ensures var next := FeedNext(p, limit, b);
            Consume(p, limit, [b]) == (next, if next.state == DONE then [next.bytes] else [])
  {
    var next := FeedNext(p, limit, b);
    assert [b][1..] == [];
    var now := if next.state == DONE then [next.bytes] else [];
    assert Consume(next, limit, []) == (next, []);
    assert now + [] == now;
  }

  // ---- Packets ----

  /** The length, less one, in one byte. */
  function LengthByte(n: nat): byte
    requires 1 <= n
  {
    ((n - 1) % 256) as bv8
  }

  /** Start byte, length, payload, and any last byte. */
  function Sealed(payload: seq<byte>, last: byte): seq<byte>
    requires 1 <= |payload|
  {
    [START, LengthByte(|payload|)] + payload + [last]
  }

  function Packet(payload: seq<byte>): seq<byte>
    requires 1 <= |payload|
  {
    Sealed(payload, Crc8.Add(0, payload))
  }

  /** What is on the line: 0x7E, the length less one, the payload, and its checksum. */
  lemma PacketLayout(payload: seq<byte>)
    requires 1 <= |payload| <= 256
    ensures var p := Packet(payload);
            && |p| == |payload| + 3 && p[0] == 0x7E && p[1] as nat == |payload| - 1 && p[2..|p| - 1] == payload
            && p[|p| - 1] == Crc8.Add(0, payload)
  {
    LengthByteRead(|payload|);
  }

  lemma LengthByteRead(n: nat)
    requires 1 <= n <= 256
    ensures LengthByte(n) as nat + 1 == n
  {
    ByteOfNat(n - 1);
  }

  /** Where the parser can be between packets. */
  predicate Ready(p: Parsing) { p.state == IDLE || Finished(p.state) }

  lemma {:induction false} NoiseIsSkipped(p: Parsing, limit: nat, noise: seq<byte>)
    requires Ready(p) && START !in noise
    ensures var (last, messages) := Consume(p, limit, noise); Ready(last) && messages == []
    decreases |noise|
  {
    if noise != [] {
      NoiseIsSkipped(FeedNext(p, limit, noise[0]), limit, noise[1..]);
    }
  }

  lemma {:induction false} PayloadIsRead(p: Parsing, limit: nat, rest: seq<byte>)
    requires p.state == PAYLOAD && rest != [] && |p.bytes| + |rest| == p.length
    ensures Consume(p, limit, rest) == (Parsing(CHECKSUM, p.length, p.bytes + rest), [])
    decreases |rest|
  {
    var next := FeedNext(p, limit, rest[0]);
    assert p.bytes + rest == next.bytes + rest[1..];
    if |rest| > 1 {
      PayloadIsRead(next, limit, rest[1..]);
    } else {
      assert rest == [rest[0]];
      ConsumeOne(p, limit, rest[0]);
    }
  }

  lemma {:induction false} HeaderIsRead(p: Parsing, limit: nat, n: nat)
    requires Ready(p) && 1 <= n <= 256 && n <= limit
    ensures Consume(p, limit, [START, LengthByte(n)]) == (Parsing(PAYLOAD, n, []), [])
  {
    LengthByteRead(n);
    ConsumeOne(p, limit, START);
    ConsumeOne(p.(state := LENGTH), limit, LengthByte(n));
    ConsumeConcat(p, limit, [START], [LengthByte(n)]);
    assert [START] + [LengthByte(n)] == [START, LengthByte(n)];
  }

  lemma {:induction false} ChecksumIsRead(p: Parsing, limit: nat, last: byte)
    requires p.state == CHECKSUM
    ensures Consume(p, limit, [last]) ==
            if last == Crc8.Add(0, p.bytes) then (p.(state := DONE), [p.bytes]) else (p.(state := ERROR_CHECKSUM), [])
  {
    ConsumeOne(p, limit, last);
  }

  /** Payload and last byte give the payload if the last byte is its checksum, and an error and nothing otherwise. */
  lemma {:induction false} SealedIsRead(p: Parsing, limit: nat, payload: seq<byte>, last: byte)
    requires Ready(p) && 1 <= |payload| <= 256 && |payload| <= limit
    ensures Consume(p, limit, Sealed(payload, last)) ==
            if last == Crc8.Add(0, payload) then (Parsing(DONE, |payload|, payload), [payload])
            else (Parsing(ERROR_CHECKSUM, |payload|, payload), [])
  {
    var n := |payload|;
    var header, mid := [START, LengthByte(n)], Parsing(CHECKSUM, n, payload);
    HeaderIsRead(p, limit, n);
    PayloadIsRead(Parsing(PAYLOAD, n, []), limit, payload);
    assert [] + payload == payload;
    ChecksumIsRead(mid, limit, last);
    ConsumeConcat(p, limit, header, payload);
    ConsumeConcat(p, limit, header + payload, [last]);
    assert [] + [payload] == [payload];
  }

  /** A packet is read as its payload. */
  lemma {:induction false} PacketIsRead(p: Parsing, limit: nat, payload: seq<byte>)
    requires Ready(p) && 1 <= |payload| <= 256 && |payload| <= limit
    ensures Consume(p, limit, Packet(payload)) == (Parsing(DONE, |payload|, payload), [payload])
  {
    SealedIsRead(p, limit, payload, Crc8.Add(0, payload));
  }

  /** A packet with one wrong byte in its payload or its checksum gives no message. */
  lemma {:induction false} DamageIsRefused(p: Parsing, limit: nat, payload: seq<byte>, i: nat, b: byte)
    requires Ready(p) && 1 <= |payload| <= 256 && |payload| <= limit
    requires 2 <= i < |payload| + 3 && b != Packet(payload)[i]
    ensures var (last, messages) := Consume(p, limit, Packet(payload)[i := b]); last.state == ERROR_CHECKSUM && messages == []
  {
    var sum := Crc8.Add(0, payload);
    if i < |payload| + 2 {
      var wrong := payload[i - 2 := b];
      OneByteIsDetected(0, payload, i - 2, b);
      assert Packet(payload)[i := b] == Sealed(wrong, sum);
      SealedIsRead(p, limit, wrong, sum);
    } else {
      assert Packet(payload)[i := b] == Sealed(payload, b);
      SealedIsRead(p, limit, payload, b);
    }
  }

  /** A length above the limit is an error, and gives no message. */
  lemma {:induction false} LengthIsRefused(p: Parsing, limit: nat, b: byte)
    requires Ready(p) && b as nat + 1 > limit
    ensures var (last, messages) := Consume(p, limit, [START, b]); last.state == ERROR_LENGTH && messages == []
  {
    ConsumeOne(p, limit, START);
    ConsumeOne(p.(state := LENGTH), limit, b);
    ConsumeConcat(p, limit, [START], [b]);
    assert [START] + [b] == [START, b];
  }

  /** Noise, a payload with some checksum, noise, a payload, ... and noise at the end. */
  datatype Piece = Piece(noise: seq<byte>, payload: seq<byte>, checksum: byte)

  ghost predicate Sendable(pieces: seq<Piece>, limit: nat) {
    forall i | 0 <= i < |pieces| ::
      START !in pieces[i].noise && 1 <= |pieces[i].payload| <= 256 && |pieces[i].payload| <= limit
  }

  function Line(pieces: seq<Piece>, tail: seq<byte>): seq<byte>
    requires forall i | 0 <= i < |pieces| :: 1 <= |pieces[i].payload| <= 256
  {
    if pieces == [] then tail
    else
      assert 1 <= |pieces[0].payload| <= 256;
      pieces[0].noise + Sealed(pieces[0].payload, pieces[0].checksum) + Line(pieces[1..], tail)
  }

  /** The payloads that came with their checksum. */
  function Payloads(pieces: seq<Piece>): seq<seq<byte>> {
    if pieces == [] then []
    else (if pieces[0].checksum == Crc8.Add(0, pieces[0].payload) then [pieces[0].payload] else []) + Payloads(pieces[1..])
  }

  /** Any payloads with any checksums and any noise between them are read as exactly the payloads whose checksum is right,
      in order: a damaged packet costs no other. */
  lemma {:induction false} FramingRoundTrip(p: Parsing, limit: nat, pieces: seq<Piece>, tail: seq<byte>)
    requires Ready(p) && Sendable(pieces, limit) && START !in tail
    ensures var (last, messages) := Consume(p, limit, Line(pieces, tail)); Ready(last) && messages == Payloads(pieces)
    decreases |pieces|
  {
    if pieces == [] {
      NoiseIsSkipped(p, limit, tail);
    } else {
      var noise, packet := pieces[0].noise, Sealed(pieces[0].payload, pieces[0].checksum);
      assert Sendable(pieces[1..], limit) by {
        assert forall i | 0 <= i < |pieces[1..]| :: pieces[1..][i] == pieces[i + 1];
      }
      NoiseIsSkipped(p, limit, noise);
      var quiet := Consume(p, limit, noise).0;
      SealedIsRead(quiet, limit, pieces[0].payload, pieces[0].checksum);
      var (done, message) := Consume(quiet, limit, packet);
      FramingRoundTrip(done, limit, pieces[1..], tail);
      ConsumeConcat(p, limit, noise, packet);
      ConsumeConcat(p, limit, noise + packet, Line(pieces[1..], tail));
      assert [] + message == message;
    }
  }

  // ---- In place ----

  class Parser {
    const limit: nat
    const buffer: array<byte>
    var messageLength: nat
    var messagePosition: nat
    var parserState: State

    ghost predicate Valid()
      reads this
    {
      && buffer.Length == limit + 3
      && (parserState == PAYLOAD ==> messagePosition < messageLength <= limit)
      && (parserState == CHECKSUM || parserState == DONE || parserState == ERROR_CHECKSUM ==> messagePosition == messageLength <= limit)
      && messagePosition <= buffer.Length
    }

    ghost function View(): Parsing
      requires Valid()
      reads this, buffer
    {
      Parsing(parserState, messageLength, buffer[..messagePosition])
    }

    constructor (limit: nat)
      ensures Valid() && fresh(buffer) && this.limit == limit && View() == Parsing(IDLE, 0, [])
    {
      this.limit := limit;
      buffer := new byte[limit + 3];
      messageLength, messagePosition, parserState := 0, 0, IDLE;
    }

    /** create: fills a caller's buffer with a packet; 0 when the arguments are refused. */
    static method Create(output: array<byte>, payload: seq<byte>) returns (length: nat)
      requires 1 <= |payload| <= output.Length ==> |payload| + 3 <= output.Length
      modifies output
      ensures length == if output.Length == 0 || |payload| == 0 || |payload| > output.Length then 0 else |payload| + 3
      ensures length > 0 ==> output[..length] == Packet(payload) && output[length..] == old(output[length..])
      ensures length == 0 ==> output[..] == old(output[..])
    {
      if output.Length == 0 || |payload| == 0 || |payload| > output.Length {
        return 0;
      }
      output[0] := START;
      output[1] := LengthByte(|payload|);
      var checksum := Crc8.Update(0, payload);
      output[2 + |payload|] := checksum;
      ghost var before := output[..];
      CopyPayload(output, payload);
      length := |payload| + 3;
      Assembled(before, output[..], payload);
    }

    static lemma Assembled(before: seq<byte>, after: seq<byte>, payload: seq<byte>)
      requires 1 <= |payload| && |payload| + 3 <= |before| == |after|
      requires before[0] == START && before[1] == LengthByte(|payload|) && before[2 + |payload|] == Crc8.Add(0, payload)
      requires after == before[..2] + payload + before[2 + |payload|..]
      ensures after[..|payload| + 3] == Packet(payload) && after[|payload| + 3..] == before[|payload| + 3..]
    {
      assert after[..|payload| + 3] == before[..2] + payload + [before[2 + |payload|]];
      assert before[..2] == [START, LengthByte(|payload|)];
    }

    /** memcpy behind the two header bytes. */
    static method CopyPayload(output: array<byte>, payload: seq<byte>)
      requires |payload| + 2 <= output.Length
      modifies output
      ensures output[..] == old(output[..2]) + payload + old(output[2 + |payload|..])
    {
      ghost var before := output[..];
      var i := 0;
      while i < |payload|
        invariant i <= |payload| && forall j | 0 <= j < i :: output[2 + j] == payload[j]
        invariant forall j | 0 <= j < output.Length && !(2 <= j < 2 + i) :: output[j] == before[j]
      {
        output[2 + i] := payload[i];
        i := i + 1;
      }
      assert output[2..2 + i] == payload;
      assert output[..] == output[..2] + output[2..2 + i] + output[2 + i..];
    }

    /** One round of the byte loop. */
    method Step(value: byte)
      requires Valid() && !Finished(parserState)
      modifies this, buffer
      ensures Valid() && View() == Feed(old(View()), limit, value)
    {
      match parserState {
        case IDLE =>
          if value == START {
            parserState := LENGTH;
          }
        case LENGTH =>
          messageLength := value as nat + 1;
          if messageLength <= limit {
            messagePosition := 0;
            parserState := PAYLOAD;
          } else {
            parserState := ERROR_LENGTH;
          }
        case PAYLOAD =>
          ghost var read := buffer[..messagePosition];
          buffer[messagePosition] := value;
          messagePosition := messagePosition + 1;
          assert buffer[..messagePosition] == read + [value];
          if messagePosition >= messageLength {
            parserState := CHECKSUM;
          }
        case CHECKSUM =>
          var checksum := Crc8.Update(0, buffer[..messageLength]);
          if checksum != value {
            parserState := ERROR_CHECKSUM;
          } else {
            parserState := DONE;
          }
        case _ =>
      }
    }

    /** update: reads until a message is finished or the data ends; how many bytes were used. */
    method Update(input: seq<byte>) returns (used: nat)
      requires Valid()
      modifies this, buffer
      ensures Valid() && used <= |input| && (input != [] ==> used > 0)
      ensures input != [] ==> View() == Consume(old(View()), limit, input[..used]).0
      ensures input != [] ==> Consume(old(View()), limit, input[..used]).1 == if parserState == DONE then [View().bytes] else []
      ensures used < |input| ==> Finished(parserState)
    {
      if Finished(parserState) {
        parserState := IDLE;
      }
      ghost var start := old(View());
      var i := 0;
      while i < |input|
        invariant 0 <= i <= |input| && Valid()
        invariant i == 0 ==> View() == Fresh(start) && !Finished(parserState)
        invariant i > 0 ==> Consume(start, limit, input[..i]) == (View(), if parserState == DONE then [View().bytes] else [])
      {
        if Finished(parserState) {
          return i;
        }
        ghost var before := View();
        Step(input[i]);
        FeedExtends(start, input, i, before);
        i := i + 1;
      }
      assert input[..i] == input;
      used := |input|;
    }

    /** Feeding byte i after the first i ones. */
    lemma {:induction false} FeedExtends(start: Parsing, input: seq<byte>, i: nat, before: Parsing)
      requires i < |input| && !Finished(before.state)
      requires if i == 0 then before == Fresh(start) else Consume(start, limit, input[..i]) == (before, [])
      ensures var next := Feed(before, limit, input[i]);
              Consume(start, limit, input[..i + 1]) == (next, if next.state == DONE then [next.bytes] else [])
    {
      var one := [input[i]];
      assert input[..i + 1] == input[..i] + one;
      ConsumeOne(if i == 0 then start else before, limit, input[i]);
      if i > 0 {
        ConsumeConcat(start, limit, input[..i], one);
        assert forall s: seq<seq<byte>> :: [] + s == s;
      } else {
        assert input[..1] == one;
      }
    }
  }

  /** SerialHandler::update: feeds the parser until the data is used up; the messages in order. */
  method HandleData(parser: Parser, data: seq<byte>) returns (messages: seq<seq<byte>>)
    requires parser.Valid()
    modifies parser, parser.buffer
    ensures parser.Valid() && (parser.View(), messages) == Consume(old(parser.View()), parser.limit, data)
  {
    messages := [];
    var left := |data|;
    ghost var start := parser.View();
    assert data[..0] == [];
    while left > 0
      invariant 0 <= left <= |data| && parser.Valid()
      invariant (parser.View(), messages) == Consume(start, parser.limit, data[..|data| - left])
    {
      left, messages := HandleChunk(parser, data, left, messages, start);
    }
    assert data[..|data|] == data;
  }

  lemma {:induction false} ChunkConsumed(start: Parsing, limit: nat, data: seq<byte>, at: nat, used: nat)
    requires at + used <= |data|
    ensures var (p, before) := Consume(start, limit, data[..at]);
            var (q, more) := Consume(p, limit, data[at..][..used]);
            Consume(start, limit, data[..at + used]) == (q, before + more)
  {
    assert data[..at + used] == data[..at] + data[at..][..used];
    ConsumeConcat(start, limit, data[..at], data[at..][..used]);
  }

  /** One turn of the loop. */
  method HandleChunk(parser: Parser, data: seq<byte>, left: nat, messages: seq<seq<byte>>, ghost start: Parsing)
    returns (rest: nat, more: seq<seq<byte>>)
    requires parser.Valid() && 0 < left <= |data|
    requires (parser.View(), messages) == Consume(start, parser.limit, data[..|data| - left])
    modifies parser, parser.buffer
    ensures parser.Valid() && rest < left && (parser.View(), more) == Consume(start, parser.limit, data[..|data| - rest])
  {
    ghost var at := |data| - left;
    var used := parser.Update(data[|data| - left..]);
    rest := left - used;
    ChunkConsumed(start, parser.limit, data, at, used);
    if parser.parserState == DONE {
      more := messages + [parser.buffer[..parser.messageLength]];
    } else {
      more := messages;
      assert messages + [] == messages;
    }
  }
}
