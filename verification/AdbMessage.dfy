/** ADB's messages: a header of six words, the last the complement of the first, then the payload. */
module AdbMessage {
  import opened Bytes
  import opened Words

  const MAX_PAYLOAD := 256 * 1024
  const HEADER_BYTES := 24

  datatype Message = Message(command: u32, arg0: u32, arg1: u32, payload: seq<byte>)

  datatype Error = TooLarge

  /** Every bit turned over, as an exclusive or with thirty-two ones does. */
  function Complement(n: u32): u32 { 0xffff_ffff - n }

  function Checksum(payload: seq<byte>): u32 {
    if payload == [] then 0 else (Checksum(payload[..|payload| - 1]) + payload[|payload| - 1]) % TWO_32
  }

  /** Each byte with its bits turned over. */
  function Turned(bytes: seq<byte>): (turned: seq<byte>)
    ensures |turned| == |bytes|
  {
    seq(|bytes|, i requires 0 <= i < |bytes| => 0xff - bytes[i])
  }

  /** The complement turns every byte of a word over, and the two add up to all ones. */
  lemma EveryByteIsTurned(n: u32)
    ensures n as int + Complement(n) as int == 0xffff_ffff
    ensures Le32(Complement(n)) == Turned(Le32(n))
  {
    var b, t := Le32(n), Turned(Le32(n));
    WordRoundTrip(n);
    hide Le32;
    TurnedValue(b[0], b[1], b[2], b[3]);
    assert FromLe32(t) == Complement(n);
    BytesRoundTrip(t);
  }

  lemma TurnedValue(b0: int, b1: int, b2: int, b3: int)
    ensures Combine(255 - b0, 255 - b1, 255 - b2, 255 - b3) == 0xffff_ffff - Combine(b0, b1, b2, b3)
  {
  }

  /** The checksum is the sum of the bytes, wrapping. */
  function Plus(x: u32, y: u32): u32 { (x + y) % TWO_32 }

  lemma {:induction false} ChecksumOfParts(a: seq<byte>, b: seq<byte>)
    ensures Checksum(a + b) == Plus(Checksum(a), Checksum(b))
    decreases |b|
  {
    hide Checksum, Plus;
    if b == [] {
      assert a + b == a;
      NothingSums(Checksum(a));
    } else {
      var before, last := b[..|b| - 1], b[|b| - 1];
      assert a + b == (a + before) + [last] && b == before + [last];
      ChecksumOfParts(a, before);
      OneByteMore(a + before, last);
      OneByteMore(before, last);
      PlusAssociates(Checksum(a), Checksum(before), last);
    }
  }

  lemma NothingSums(x: u32)
    ensures Checksum([]) == 0 && Plus(x, 0) == x
  {
  }

  lemma OneByteMore(payload: seq<byte>, b: byte)
    ensures Checksum(payload + [b]) == Plus(Checksum(payload), b)
  {
    assert (payload + [b])[..|payload|] == payload;
  }

  lemma PlusAssociates(x: u32, y: u32, z: u32)
    ensures Plus(Plus(x, y), z) == Plus(x, Plus(y, z))
  {
  }

  /** A payload of one byte is its own checksum, and a byte changed changes the checksum. */
  lemma OneWrongByteShows(payload: seq<byte>, i: nat, b: byte)
    requires i < |payload| && b != payload[i]
    ensures Checksum([b]) == b && Checksum(payload[i := b]) != Checksum(payload)
  {
    var before, after := payload[..i], payload[i + 1..];
    assert payload == before + ([payload[i]] + after) && payload[i := b] == before + ([b] + after);
    hide Checksum, Plus;
    ChecksumAround(before, payload[i], after);
    ChecksumAround(before, b, after);
    PlusTellsApart(Checksum(after), payload[i], b);
    PlusTellsApart(Checksum(before), Plus(payload[i], Checksum(after)), Plus(b, Checksum(after)));
  }

  lemma ChecksumAround(before: seq<byte>, b: byte, after: seq<byte>)
    ensures Checksum([b]) == b
    ensures Checksum(before + ([b] + after)) == Plus(Checksum(before), Plus(b, Checksum(after)))
  {
    assert [b][..0] == [];
    ChecksumOfParts(before, [b] + after);
    ChecksumOfParts([b], after);
  }

  lemma PlusTellsApart(p: u32, x: u32, y: u32)
    requires x != y
    ensures Plus(p, x) != Plus(p, y) && Plus(x, p) != Plus(y, p)
  {
  }

  /** A message on the wire, with some word where the checksum goes. */
  function Packet(m: Message, checksum: u32): (bytes: seq<byte>)
    requires |m.payload| <= MAX_PAYLOAD
  {
    Le32(m.command) + Le32(m.arg0) + Le32(m.arg1) + Le32(|m.payload|) + Le32(checksum)
        + Le32(Complement(m.command)) + m.payload
  }

  /** A length as the wire carries it: refused past the payload both ends agreed on. */
  function WireLength(length: nat): Result<u32, Error> {
    if length <= MAX_PAYLOAD then Ok(length) else Err(TooLarge)
  }

  method Encode(m: Message) returns (r: Result<seq<byte>, Error>)
    ensures r == if |m.payload| <= MAX_PAYLOAD then Ok(Packet(m, Checksum(m.payload))) else Err(TooLarge)
  {
    var length := WireLength(|m.payload|);
    if length.Err? {
      return Err(TooLarge);
    }
    var checksum: u32 := 0;
    for i := 0 to |m.payload|
      invariant checksum == Checksum(m.payload[..i])
    {
      assert m.payload[..i + 1][..i] == m.payload[..i];
      checksum := (checksum + m.payload[i]) % TWO_32;
    }
    assert m.payload[..|m.payload|] == m.payload;
    var out := Le32(m.command);
    out := out + Le32(m.arg0);
    out := out + Le32(m.arg1);
    out := out + Le32(length.value);
    out := out + Le32(checksum);
    out := out + Le32(Complement(m.command));
    r := Ok(out + m.payload);
  }

  /** The word at a byte offset. */
  function Word(bytes: seq<byte>, index: nat): u32
    requires index + 4 <= |bytes|
  {
    FromLe32(bytes[index..index + 4])
  }

  /** `Waiting` is a connection that has not said enough yet. */
  datatype MessageRead = Read(message: Message, rest: seq<byte>) | Waiting | BadMagic | Oversized

  function ReadMessage(bytes: seq<byte>): MessageRead {
    if |bytes| < HEADER_BYTES then Waiting
    else
      var command, length := Word(bytes, 0), Word(bytes, 12);
      if Complement(command) != Word(bytes, 20) then BadMagic
      else if length > MAX_PAYLOAD then Oversized
      else if |bytes| - HEADER_BYTES < length then Waiting
      else Read(Message(command, Word(bytes, 4), Word(bytes, 8), bytes[HEADER_BYTES..HEADER_BYTES + length]),
                bytes[HEADER_BYTES + length..])
  }

  /** Six words in a row, read back. */
  lemma HeaderWords(a: u32, b: u32, c: u32, d: u32, e: u32, f: u32, rest: seq<byte>)
    ensures var bytes := Le32(a) + Le32(b) + Le32(c) + Le32(d) + Le32(e) + Le32(f) + rest;
            && |bytes| == HEADER_BYTES + |rest| && bytes[HEADER_BYTES..] == rest
            && Word(bytes, 0) == a && Word(bytes, 4) == b && Word(bytes, 8) == c
            && Word(bytes, 12) == d && Word(bytes, 16) == e && Word(bytes, 20) == f
  {
    hide Le32, FromLe32;
    var bytes := Le32(a) + Le32(b) + Le32(c) + Le32(d) + Le32(e) + Le32(f) + rest;
    assert bytes[0..4] == Le32(a) && bytes[4..8] == Le32(b) && bytes[8..12] == Le32(c);
    assert bytes[12..16] == Le32(d) && bytes[16..20] == Le32(e) && bytes[20..24] == Le32(f);
    WordRoundTrip(a);
    WordRoundTrip(b);
    WordRoundTrip(c);
    WordRoundTrip(d);
    WordRoundTrip(e);
    WordRoundTrip(f);
  }

  /** Bytes are the words read from them. */
  lemma WordsOfHeader(bytes: seq<byte>)
    requires |bytes| >= HEADER_BYTES
    ensures bytes == Le32(Word(bytes, 0)) + Le32(Word(bytes, 4)) + Le32(Word(bytes, 8)) + Le32(Word(bytes, 12))
                   + Le32(Word(bytes, 16)) + Le32(Word(bytes, 20)) + bytes[HEADER_BYTES..]
  {
    hide Le32, FromLe32;
    BytesRoundTrip(bytes[0..4]);
    BytesRoundTrip(bytes[4..8]);
    BytesRoundTrip(bytes[8..12]);
    BytesRoundTrip(bytes[12..16]);
    BytesRoundTrip(bytes[16..20]);
    BytesRoundTrip(bytes[20..24]);
    assert bytes == bytes[0..4] + bytes[4..8] + bytes[8..12] + bytes[12..16] + bytes[16..20] + bytes[20..24]
        + bytes[24..];
  }

  /** A message is read back from its packet, whatever the checksum says, and what follows is
      left alone. */
  lemma PacketIsRead(m: Message, checksum: u32, rest: seq<byte>)
    requires |m.payload| <= MAX_PAYLOAD
    ensures ReadMessage(Packet(m, checksum) + rest) == Read(m, rest)
  {
    hide Le32, Word;
    HeaderWords(m.command, m.arg0, m.arg1, |m.payload|, checksum, Complement(m.command), m.payload + rest);
    assert Packet(m, checksum) + rest
        == Le32(m.command) + Le32(m.arg0) + Le32(m.arg1) + Le32(|m.payload|) + Le32(checksum)
            + Le32(Complement(m.command))
         + (m.payload + rest);
    assert (m.payload + rest)[..|m.payload|] == m.payload && (m.payload + rest)[|m.payload|..] == rest;
  }

  /** The reader accepts exactly the packets: a message comes out when, and only when, the bytes
      are its packet with some checksum, followed by the rest. */
  lemma AcceptedIff(bytes: seq<byte>, m: Message, rest: seq<byte>)
    ensures ReadMessage(bytes) == Read(m, rest)
       <==> |m.payload| <= 262_144 && |bytes| >= HEADER_BYTES && bytes == Packet(m, Word(bytes, 16)) + rest
  {
    hide Le32, Word;
    var r := ReadMessage(bytes);
    if r.Read? {
      WordsOfHeader(bytes);
      var length := |r.message.payload|;
      assert bytes[HEADER_BYTES..] == r.message.payload + r.rest;
      assert bytes == Packet(r.message, Word(bytes, 16)) + r.rest;
    }
    if |m.payload| <= MAX_PAYLOAD && |bytes| >= HEADER_BYTES && bytes == Packet(m, Word(bytes, 16)) + rest {
      PacketIsRead(m, Word(bytes, 16), rest);
    }
  }

  /** Messages one after the other. */
  function Stream(messages: seq<Message>): seq<byte>
    requires forall i :: 0 <= i < |messages| ==> |messages[i].payload| <= MAX_PAYLOAD
  {
    if messages == [] then [] else Packet(messages[0], Checksum(messages[0].payload)) + Stream(messages[1..])
  }

  function ReadAll(bytes: seq<byte>): seq<Message>
    decreases |bytes|
  {
    var r := ReadMessage(bytes);
    if r.Read? then [r.message] + ReadAll(r.rest) else []
  }

  /** Messages written one after the other come back, all of them and nothing else. */
  lemma {:induction false} MessagesRoundTrip(messages: seq<Message>)
    requires forall i :: 0 <= i < |messages| ==> |messages[i].payload| <= MAX_PAYLOAD
    ensures ReadAll(Stream(messages)) == messages
  {
    hide ReadMessage, Packet;
    if messages == [] {
      NothingToRead();
    } else {
      PacketIsRead(messages[0], Checksum(messages[0].payload), Stream(messages[1..]));
      ReadSomething(Stream(messages), messages[0], Stream(messages[1..]));
      MessagesRoundTrip(messages[1..]);
    }
  }

  lemma NothingToRead()
    ensures ReadAll([]) == []
  {
  }

  lemma ReadSomething(bytes: seq<byte>, m: Message, rest: seq<byte>)
    requires ReadMessage(bytes) == Read(m, rest)
    ensures ReadAll(bytes) == [m] + ReadAll(rest)
  {
  }
}
