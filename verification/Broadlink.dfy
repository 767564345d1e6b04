/** The Broadlink infrared packet: durations as ticks of 821/25 µs, one byte each or an escape
    and two, closed by a terminator that starts with the escape byte. */
module Broadlink {
  import opened Bytes

  const IR_TOKEN: byte := 0x26
  const HEADER_LEN := 4
  const ESCAPE: byte := 0
  const TERMINATOR: seq<byte> := [0x00, 0x0D]

  datatype Error = TooShort | UnsupportedToken(token: byte) | TruncatedDuration

  // ---------- ticks ----------

  /** The nearest tick, half a tick rounded up, at most what 16 bits hold. */
  function Ticks(micros: u32): u16 {
    var t := (50 * micros + 821) / 1642;
    if t > 0xFFFF then 0xFFFF else t
  }

  /** A number of ticks, to the nearest microsecond. */
  function Micros(ticks: u16): u32 {
    (1642 * ticks + 25) / 50
  }

  function AllTicks(durations: seq<u32>): (ticks: seq<u16>)
    ensures |ticks| == |durations|
  {
    seq(|durations|, i requires 0 <= i < |durations| => Ticks(durations[i]))
  }

  function AllMicros(ticks: seq<u16>): (durations: seq<u32>)
    ensures |durations| == |ticks|
  {
    seq(|ticks|, i requires 0 <= i < |ticks| => Micros(ticks[i]))
  }

  // ---------- the format ----------

  function EncodeTick(t: u16): (bytes: seq<byte>) {
    if t >= 256 then [ESCAPE, t / 256, t % 256] else [t]
  }

  function EncodeTicks(ticks: seq<u16>): (bytes: seq<byte>)
    decreases |ticks|
  {
    if ticks == [] then []
    else EncodeTicks(ticks[..|ticks| - 1]) + EncodeTick(ticks[|ticks| - 1])
  }

  /** Header, ticks and terminator; the header declares one more byte than follows it, in 16 bits. */
  function PacketOf(ticks: seq<u16>): (packet: seq<byte>) {
    var body := EncodeTicks(ticks) + TERMINATOR;
    var declared := (|body| + 1) % 0x1_0000;
    [IR_TOKEN, 0, declared % 256, declared / 256] + body
  }

  /** The ticks of a packet's body, up to a terminator that ends it. */
  function DecodeTicks(bytes: seq<byte>): (r: Result<seq<u16>, Error>)
    decreases |bytes|
  {
    if bytes == [] then Ok([])
    else if bytes[0] != ESCAPE then Cons(bytes[0], DecodeTicks(bytes[1..]))
    else if bytes == TERMINATOR then Ok([])
    else if |bytes| < 3 then Err(TruncatedDuration)
    else Cons(Word(bytes[1], bytes[2]), DecodeTicks(bytes[3..]))
  }

  /** Two bytes, the high one first. */
  function Word(high: int, low: int): (w: u16)
    requires 0 <= high < 256 && 0 <= low < 256
  {
    high * 256 + low
  }

  function Cons(t: u16, rest: Result<seq<u16>, Error>): Result<seq<u16>, Error> {
    match rest
    case Ok(ts) => Ok([t] + ts)
    case Err(e) => Err(e)
  }

  function DecodePacket(packet: seq<byte>): (r: Result<seq<u32>, Error>) {
    if |packet| <= HEADER_LEN then Err(TooShort)
    else if packet[0] != IR_TOKEN then Err(UnsupportedToken(packet[0]))
    else match DecodeTicks(packet[HEADER_LEN..])
      case Ok(ticks) => Ok(AllMicros(ticks))
      case Err(e) => Err(e)
  }

  // ---------- the loops ----------

  /** The header before its length is known. */
  function Header(): (h: seq<byte>)
    ensures |h| == HEADER_LEN
  {
    [IR_TOKEN, 0, 0, 0]
  }

  method Encode(durations: seq<u32>) returns (packet: seq<byte>)
    ensures packet == PacketOf(AllTicks(durations))
  {
    hide Ticks, EncodeTicks;
    ghost var all := AllTicks(durations);
    NoTicks();
    packet := Header();
    for i := 0 to |durations|
      invariant packet == Header() + EncodeTicks(all[..i])
    {
      var ticks := Ticks(durations[i]);
      OneTickMore(all, i);
      ghost var before := packet;
      if ticks >= 256 {
        packet := packet + [ESCAPE];
        packet := packet + [ticks / 256, ticks % 256];
      } else {
        packet := packet + [ticks];
      }
      assert packet == before + EncodeTick(ticks);
    }
    assert all[..|durations|] == all;
    packet := packet + TERMINATOR;
    var encodedLen := (|packet| - HEADER_LEN + 1) % 0x1_0000;
    LengthPatched(EncodeTicks(all) + TERMINATOR, encodedLen % 256, encodedLen / 256);
    packet := packet[2 := encodedLen % 256][3 := encodedLen / 256];
  }

  lemma LengthPatched(body: seq<byte>, low: byte, high: byte)
    ensures (Header() + body)[2 := low][3 := high] == [IR_TOKEN, 0, low, high] + body
  {
  }

  lemma NoTicks()
    ensures EncodeTicks([]) == []
  {
  }

  lemma OneTickMore(ticks: seq<u16>, i: nat)
    requires i < |ticks|
    ensures EncodeTicks(ticks[..i + 1]) == EncodeTicks(ticks[..i]) + EncodeTick(ticks[i])
  {
    assert ticks[..i + 1][..i] == ticks[..i];
  }

  method Decode(packet: seq<byte>) returns (r: Result<seq<u32>, Error>)
    ensures r == DecodePacket(packet)
  {
    if |packet| <= HEADER_LEN {
      return Err(TooShort);
    }
    if packet[0] != IR_TOKEN {
      return Err(UnsupportedToken(packet[0]));
    }
    var encoded := packet[HEADER_LEN..];
    var durations: seq<u32> := [];
    ghost var ticks: seq<u16> := [];
    var index := 0;
    assert encoded[0..] == encoded;
    PrependNone(DecodeTicks(encoded));
    while index < |encoded|
      invariant 0 <= index <= |encoded|
      invariant durations == AllMicros(ticks)
      invariant DecodeTicks(encoded) == Prepend(ticks, DecodeTicks(encoded[index..]))
      decreases |encoded| - index
    {
      if encoded[index] == ESCAPE {
        if encoded[index..] == TERMINATOR {
          assert ticks + [] == ticks;
          return Ok(durations);
        }
        if index + 3 > |encoded| {
          return Err(TruncatedDuration);
        }
        var t := Word(encoded[index + 1], encoded[index + 2]);
        PrependOne(ticks, t, DecodeTicks(encoded[index + 3..]));
        assert encoded[index..][3..] == encoded[index + 3..];
        durations, ticks := durations + [Micros(t)], ticks + [t];
        index := index + 3;
      } else {
        PrependOne(ticks, encoded[index], DecodeTicks(encoded[index + 1..]));
        assert encoded[index..][1..] == encoded[index + 1..];
        durations, ticks := durations + [Micros(encoded[index])], ticks + [encoded[index]];
        index := index + 1;
      }
    }
    assert ticks + [] == ticks;
    return Ok(durations);
  }

  function Prepend(ts: seq<u16>, rest: Result<seq<u16>, Error>): Result<seq<u16>, Error> {
    match rest
    case Ok(more) => Ok(ts + more)
    case Err(e) => Err(e)
  }

  lemma PrependNone(rest: Result<seq<u16>, Error>)
    ensures Prepend([], rest) == rest
  {
    if rest.Ok? {
      assert [] + rest.value == rest.value;
    }
  }

  lemma PrependOne(ts: seq<u16>, t: u16, rest: Result<seq<u16>, Error>)
    ensures Prepend(ts, Cons(t, rest)) == Prepend(ts + [t], rest)
  {
    if rest.Ok? {
      assert ts + ([t] + rest.value) == ts + [t] + rest.value;
    }
  }

  // ---------- the escape byte and the terminator ----------

  lemma {:induction false} EncodeFromTheFront(ticks: seq<u16>)
    requires ticks != []
    ensures EncodeTicks(ticks) == EncodeTick(ticks[0]) + EncodeTicks(ticks[1..])
    decreases |ticks|
  {
    if |ticks| > 1 {
      var init := ticks[..|ticks| - 1];
      EncodeFromTheFront(init);
      assert init[1..] == ticks[1..][..|ticks| - 2];
    } else {
      assert ticks[..0] == [] && ticks[1..] == [];
    }
  }

  /** One non-zero tick is read back and the rest left as it is, whatever follows it. */
  lemma ReadOne(t: u16, rest: seq<byte>)
    requires t != 0
    ensures DecodeTicks(EncodeTick(t) + rest) == Cons(t, DecodeTicks(rest))
  {
    var bytes := EncodeTick(t) + rest;
    if t >= 256 {
      assert bytes[3..] == rest;
    } else {
      assert bytes[1..] == rest;
    }
  }

  lemma NonZeroTicksRoundTrip(ticks: seq<u16>)
    requires 0 !in ticks
    ensures DecodeTicks(EncodeTicks(ticks) + TERMINATOR) == Ok(ticks)
  {
    TailsDecide(ticks, TERMINATOR);
  }

  /** After some durations, what is left of a body decides: nothing or the terminator ends it well,
      an escape cut short is refused. */
  lemma {:induction false} TailsDecide(ticks: seq<u16>, tail: seq<byte>)
    requires 0 !in ticks && (tail == [] || (tail[0] == 0 && |tail| <= 2))
    ensures DecodeTicks(EncodeTicks(ticks) + tail)
         == if tail == [] || tail == [0, 0x0D] then Ok(ticks) else Err(TruncatedDuration)
    decreases |ticks|
  {
    hide DecodeTicks, EncodeTick, EncodeTicks;
    if ticks != [] {
      EncodeFromTheFront(ticks);
      TailsDecide(ticks[1..], tail);
      assert ticks == [ticks[0]] + ticks[1..];
      ReadOne(ticks[0], EncodeTicks(ticks[1..]) + tail);
      assert EncodeTicks(ticks) + tail == EncodeTick(ticks[0]) + (EncodeTicks(ticks[1..]) + tail);
    } else {
      NoTicks();
      TailAlone(tail);
      assert EncodeTicks(ticks) + tail == tail;
    }
  }

  lemma TailAlone(tail: seq<byte>)
    requires tail == [] || (tail[0] == 0 && |tail| <= 2)
    ensures DecodeTicks(tail) == if tail == [] || tail == [0, 0x0D] then Ok([]) else Err(TruncatedDuration)
  {
  }

  /** A packet of four bytes or less is too short, whatever it holds, and a longer one is of another
      kind exactly when it does not open with the infrared token. */
  lemma HeaderIsChecked(packet: seq<byte>)
    ensures DecodePacket(packet) == Err(TooShort) <==> |packet| <= 4
    ensures |packet| > 4 ==> (packet[0] != 0x26 <==> DecodePacket(packet) == Err(UnsupportedToken(packet[0])))
  {
    if |packet| > 4 {
      OnlyTruncations(packet[4..]);
    }
  }

  lemma {:induction false} OnlyTruncations(bytes: seq<byte>)
    ensures DecodeTicks(bytes).Err? ==> DecodeTicks(bytes).error == TruncatedDuration
    decreases |bytes|
  {
    if bytes != [] && bytes[0] != ESCAPE {
      OnlyTruncations(bytes[1..]);
    } else if |bytes| >= 3 {
      OnlyTruncations(bytes[3..]);
    }
  }

  /** The fewest bytes a list of ticks can be read from: a zero takes an escape and two. */
  function FewestBytes(ticks: seq<u16>): nat {
    if ticks == [] then 0
    else (if ticks[0] == 0 || ticks[0] >= 256 then 3 else 1) + FewestBytes(ticks[1..])
  }

  lemma {:induction false} ReadingTakesItsBytes(bytes: seq<byte>)
    ensures DecodeTicks(bytes).Ok? ==> FewestBytes(DecodeTicks(bytes).value) <= |bytes|
    decreases |bytes|
  {
    if bytes != [] && DecodeTicks(bytes).Ok? {
      var ts := DecodeTicks(bytes).value;
      if bytes[0] != ESCAPE {
        ReadingTakesItsBytes(bytes[1..]);
        assert ts[1..] == DecodeTicks(bytes[1..]).value;
      } else if bytes != TERMINATOR {
        ReadingTakesItsBytes(bytes[3..]);
        assert ts[1..] == DecodeTicks(bytes[3..]).value;
      }
    }
  }

  function Zeros(ticks: seq<u16>): nat {
    if ticks == [] then 0 else (if ticks[0] == 0 then 1 else 0) + Zeros(ticks[1..])
  }

  lemma {:induction false} ZerosAreWrittenShort(ticks: seq<u16>)
    ensures |EncodeTicks(ticks)| + 2 * Zeros(ticks) == FewestBytes(ticks)
    ensures Zeros(ticks) == 0 <==> 0 !in ticks
    decreases |ticks|
  {
    if ticks != [] {
      EncodeFromTheFront(ticks);
      ZerosAreWrittenShort(ticks[1..]);
      assert ticks == [ticks[0]] + ticks[1..];
    }
  }

  /** A list with a single zero is not read back: the two bytes after it are never both zero. */
  lemma {:induction false} OneZeroIsMisread(ticks: seq<u16>)
    requires Zeros(ticks) == 1
    ensures DecodeTicks(EncodeTicks(ticks) + TERMINATOR) != Ok(ticks)
    decreases |ticks|
  {
    EncodeFromTheFront(ticks);
    var rest := EncodeTicks(ticks[1..]) + TERMINATOR;
    assert EncodeTicks(ticks) + TERMINATOR == EncodeTick(ticks[0]) + rest;
    if ticks[0] != 0 {
      OneZeroIsMisread(ticks[1..]);
      ReadOne(ticks[0], rest);
    } else if |ticks| == 1 {
      assert rest == TERMINATOR;
    } else {
      ZerosAreWrittenShort(ticks[1..]);
      EncodeFromTheFront(ticks[1..]);
      assert ticks[1] in ticks[1..];
      assert rest[0] == EncodeTick(ticks[1])[0];
      assert rest[0] != 0 || rest[1] == EncodeTick(ticks[1])[1] != 0;
    }
  }

  /** The escape byte is never confused with the terminator, or with a duration, exactly when
      no duration rounds to zero ticks. */
  lemma TicksRoundTripIff(ticks: seq<u16>)
    ensures DecodeTicks(EncodeTicks(ticks) + TERMINATOR) == Ok(ticks) <==> 0 !in ticks
  {
    ZerosAreWrittenShort(ticks);
    if 0 !in ticks {
      NonZeroTicksRoundTrip(ticks);
    } else if Zeros(ticks) == 1 {
      OneZeroIsMisread(ticks);
    } else {
      ReadingTakesItsBytes(EncodeTicks(ticks) + TERMINATOR);
    }
  }

  // ---------- microseconds ----------

  /** Seventeen microseconds is the shortest duration with a tick. */
  lemma ShortestDuration(micros: u32)
    ensures Ticks(micros) == 0 <==> micros < 17
  {
  }

  /** The longest duration 16 bits of ticks hold. */
  const MAX_MICROS := 2_152_185

  /** A duration comes back within half a tick exactly when its ticks fit. */
  lemma WithinHalfATickIff(micros: u32)
    ensures -16 <= Micros(Ticks(micros)) - micros <= 16 <==> micros <= MAX_MICROS
  {
  }

  lemma TicksOfMicros(ticks: u16)
    ensures Ticks(Micros(ticks)) == ticks
  {
  }

  /** Sending then reading gives the ticks sent, in microseconds, exactly when every duration
      lasts seventeen microseconds or more. */
  lemma PacketsRoundTripIff(durations: seq<u32>)
    ensures DecodePacket(PacketOf(AllTicks(durations))) == Ok(AllMicros(AllTicks(durations)))
            <==> forall i :: 0 <= i < |durations| ==> durations[i] >= 17
  {
    var ticks := AllTicks(durations);
    var packet := PacketOf(ticks);
    assert packet[HEADER_LEN..] == EncodeTicks(ticks) + TERMINATOR;
    TicksRoundTripIff(ticks);
    forall i | 0 <= i < |durations|
      ensures ticks[i] == 0 <==> durations[i] < 17
    {
      ShortestDuration(durations[i]);
    }
    if DecodePacket(packet) == Ok(AllMicros(ticks)) {
      MicrosAreInjective(DecodeTicks(packet[HEADER_LEN..]).value, ticks);
    }
  }

  lemma MicrosAreInjective(a: seq<u16>, b: seq<u16>)
    requires AllMicros(a) == AllMicros(b)
    ensures a == b
  {
    assert |a| == |AllMicros(a)| == |b|;
    forall i | 0 <= i < |a|
      ensures a[i] == b[i]
    {
      assert AllMicros(a)[i] == AllMicros(b)[i];
      TicksOfMicros(a[i]);
      TicksOfMicros(b[i]);
    }
  }

  /** A packet decoded and encoded again is the same packet, byte for byte. */
  lemma ReencodingIsIdentity(durations: seq<u32>)
    requires forall i :: 0 <= i < |durations| ==> durations[i] >= 17
    ensures var back := DecodePacket(PacketOf(AllTicks(durations)));
            back.Ok? && PacketOf(AllTicks(back.value)) == PacketOf(AllTicks(durations))
  {
    PacketsRoundTripIff(durations);
    var ticks := AllTicks(durations);
    forall i | 0 <= i < |ticks|
      ensures AllTicks(AllMicros(ticks))[i] == ticks[i]
    {
      TicksOfMicros(ticks[i]);
    }
    assert AllTicks(AllMicros(ticks)) == ticks;
  }

  /** A packet opens with the infrared token and no repeat, closes with the terminator, and declares its
      body's length, plus one, low byte first, exactly when that fits 16 bits. */
  lemma DeclaredLengthIff(ticks: seq<u16>)
    ensures var p := PacketOf(ticks);
            && |p| >= 6 && p[0] == 0x26 && p[1] == 0 && p[|p| - 2] == 0 && p[|p| - 1] == 0x0D
            && (p[2] as int + 256 * p[3] as int == |p| - 4 + 1 <==> |p| - 4 + 1 < 0x1_0000)
  {
  }

  /** A short and a long duration, as they go out: 17 µs is one tick, and 9 ms is 274, after an escape
      and high byte first. */
  lemma TwoDurations()
    ensures PacketOf(AllTicks([17, 9000])) == [0x26, 0, 7, 0, 1, 0, 1, 18, 0, 0x0D]
  {
    var ticks: seq<u16> := [1, 274];
    assert Ticks(17) == 1 && Ticks(9000) == 274;
    assert AllTicks([17, 9000]) == ticks;
    NoTicks();
    assert ticks[..0] == [] && ticks[..2] == ticks;
    OneTickMore(ticks, 0);
    OneTickMore(ticks, 1);
    assert EncodeTick(1) == [1] && EncodeTick(274) == [0, 1, 18];
    hide EncodeTicks, Ticks, AllTicks;
    assert EncodeTicks(ticks) == [1, 0, 1, 18];
  }
}
