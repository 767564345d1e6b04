/** Frames as marks and spaces: eighteen bytes, low bit first, a long space for a one; sent
    twice with a gap, and recognised again in the durations a packet gives back. */
module MitsubishiFrames {
  import opened Arithmetic
  import opened Bytes
  import opened Broadlink
  import opened Mitsubishi

  /** Bit `n` of a byte. */
  predicate IsOne(b: byte, n: nat) {
    b / Pow2(n) % 2 == 1
  }

  // ---------- writing ----------

  function Space(b: byte, bit: nat): u32 {
    if IsOne(b, bit) then ONE_SPACE else ZERO_SPACE
  }

  /** The marks and spaces of the first `n` bits. */
  function BitPulses(b: byte, n: nat): (ps: seq<u32>)
    ensures |ps| == 2 * n
  {
    if n == 0 then [] else BitPulses(b, n - 1) + [BIT_MARK, Space(b, n - 1)]
  }

  function BytePulses(bytes: seq<byte>): (ps: seq<u32>)
    ensures |ps| == 16 * |bytes|
    decreases |bytes|
  {
    if bytes == [] then [] else BytePulses(bytes[..|bytes| - 1]) + BitPulses(bytes[|bytes| - 1], 8)
  }

  function FramePulses(bytes: seq<byte>): (ps: seq<u32>)
    ensures |ps| == 16 * |bytes| + 3
  {
    [HDR_MARK, HDR_SPACE] + BytePulses(bytes) + [REPEAT_MARK]
  }

  function Transmission(bytes: seq<byte>): (ps: seq<u32>) {
    FramePulses(bytes) + [REPEAT_GAP] + FramePulses(bytes)
  }

  method AppendFrame(pulses: seq<u32>, state: seq<byte>) returns (more: seq<u32>)
    ensures more == pulses + FramePulses(state)
  {
    more := pulses + [HDR_MARK];
    more := more + [HDR_SPACE];
    ghost var start := more;
    for i := 0 to |state|
      invariant more == start + BytePulses(state[..i])
    {
      assert state[..i + 1][..i] == state[..i];
      ghost var before := more;
      for bit := 0 to 8
        invariant more == before + BitPulses(state[i], bit)
      {
        more := more + [BIT_MARK];
        more := more + [if IsOne(state[i], bit) then ONE_SPACE else ZERO_SPACE];
      }
    }
    assert state[..|state|] == state;
    more := more + [REPEAT_MARK];
  }

  method EncodeBroadlinkPacket(state: seq<byte>) returns (packet: seq<byte>)
    ensures packet == PacketOf(AllTicks(Transmission(state)))
  {
    var pulses := AppendFrame([], state);
    pulses := pulses + [REPEAT_GAP];
    pulses := AppendFrame(pulses, state);
    assert pulses == Transmission(state);
    packet := Encode(pulses);
  }

  // ---------- reading ----------

  datatype Frame = Frame(headerMark: u32, headerSpace: u32, footerMark: u32, bytes: seq<byte>)

  /** Whether the `p`-th space of a frame is a long one. */
  predicate LongSpace(durations: seq<u32>, p: nat)
    requires 2 * p + 3 < |durations|
  {
    durations[2 * p + 3] > (ONE_SPACE + ZERO_SPACE) / 2
  }

  /** The first `n` bits of byte `k`. */
  function BitsRead(durations: seq<u32>, k: nat, n: nat): (b: nat)
    requires |durations| == FRAME_DURATIONS && k < STATE_LEN && n <= 8
    ensures b < Pow2(n)
  {
    if n == 0 then 0 else BitsRead(durations, k, n - 1) + if LongSpace(durations, 8 * k + n - 1) then Pow2(n - 1) else 0
  }

  function BytesRead(durations: seq<u32>): (bytes: seq<byte>)
    requires |durations| == FRAME_DURATIONS
    ensures |bytes| == STATE_LEN
  {
    seq(STATE_LEN, k requires 0 <= k < STATE_LEN => ByteRead(durations, k))
  }

  function ByteRead(durations: seq<u32>, k: nat): (b: byte)
    requires |durations| == FRAME_DURATIONS && k < STATE_LEN
    ensures b == BitsRead(durations, k, 8)
  {
    assert Pow2(8) == 256;
    BitsRead(durations, k, 8)
  }

  function FrameRead(durations: seq<u32>): Frame
    requires |durations| == FRAME_DURATIONS
  {
    Frame(durations[0], durations[1], durations[FRAME_DURATIONS - 1], BytesRead(durations))
  }

  /** All the frames from the front, each after a gap longer than any space of a frame. */
  function FramesRead(durations: seq<u32>): (r: (seq<Frame>, seq<u32>))
    decreases |durations|
  {
    if |durations| < FRAME_DURATIONS then ([], [])
    else
      var frame, rest := FrameRead(durations[..FRAME_DURATIONS]), durations[FRAME_DURATIONS..];
      if rest == [] || rest[0] <= LONGEST_SPACE then ([frame], [])
      else
        var more := FramesRead(rest[1..]);
        ([frame] + more.0, [rest[0]] + more.1)
  }

  datatype NoFrame = NoFrame

  function FramesFound(durations: seq<u32>): Result<(seq<Frame>, seq<u32>), NoFrame> {
    var found := FramesRead(durations);
    if found.0 == [] then Err(NoFrame) else Ok(found)
  }

  /** The bit after `bit` bits: the next of its byte, which is then read whole or started. */
  lemma OneBitMore(durations: seq<u32>, bit: nat)
    requires |durations| == FRAME_DURATIONS && bit < 8 * STATE_LEN
    ensures 2 * bit + 3 < |durations|
    ensures BitsRead(durations, bit / 8, bit % 8 + 1)
         == BitsRead(durations, bit / 8, bit % 8)
            + if durations[2 * bit + 3] > (ONE_SPACE + ZERO_SPACE) / 2 then Pow2(bit % 8) else 0
    ensures if bit % 8 == 7 then (bit + 1) / 8 == bit / 8 + 1 && (bit + 1) % 8 == 0
            else (bit + 1) / 8 == bit / 8 && (bit + 1) % 8 == bit % 8 + 1
    ensures bit / 8 + 1 < STATE_LEN ==> BitsRead(durations, bit / 8 + 1, 0) == 0
    ensures BitsRead(durations, 0, 0) == 0
  {
    assert bit == 8 * (bit / 8) + bit % 8;
  }

  method DecodeFrame(durations: seq<u32>) returns (frame: Frame)
    requires |durations| == FRAME_DURATIONS
    ensures frame == FrameRead(durations)
  {
    hide BitsRead, Pow2, LongSpace;
    OneBitMore(durations, 0);
    var bytes := new nat[STATE_LEN](i => 0);
    for bit := 0 to 8 * STATE_LEN
      invariant forall k :: 0 <= k < bit / 8 ==> bytes[k] == BitsRead(durations, k, 8)
      invariant bit < 8 * STATE_LEN ==> bytes[bit / 8] == BitsRead(durations, bit / 8, bit % 8)
      invariant forall k :: bit / 8 < k < STATE_LEN ==> bytes[k] == 0
    {
      OneBitMore(durations, bit);
      var one := durations[2 * bit + 3] > (ONE_SPACE + ZERO_SPACE) / 2;
      bytes[bit / 8] := bytes[bit / 8] + if one then Pow2(bit % 8) else 0;
    }
    assert forall k :: 0 <= k < STATE_LEN ==> bytes[k] == ByteRead(durations, k);
    assert bytes[..] == BytesRead(durations);
    frame := Frame(durations[0], durations[1], durations[FRAME_DURATIONS - 1], bytes[..]);
  }

  function Joined(frames: seq<Frame>, gaps: seq<u32>, more: (seq<Frame>, seq<u32>)): (seq<Frame>, seq<u32>) {
    (frames + more.0, gaps + more.1)
  }

  lemma JoinedEnds(frames: seq<Frame>, gaps: seq<u32>)
    ensures Joined(frames, gaps, ([], [])) == (frames, gaps)
    ensures Joined([], [], (frames, gaps)) == (frames, gaps)
  {
    assert frames + [] == frames && gaps + [] == gaps && [] + frames == frames && [] + gaps == gaps;
  }

  lemma JoinedOneMore(frames: seq<Frame>, gaps: seq<u32>, frame: Frame, gap: u32, more: (seq<Frame>, seq<u32>))
    ensures Joined(frames, gaps, ([frame] + more.0, [gap] + more.1)) == Joined(frames + [frame], gaps + [gap], more)
  {
    assert frames + ([frame] + more.0) == frames + [frame] + more.0;
    assert gaps + ([gap] + more.1) == gaps + [gap] + more.1;
  }

  lemma JoinedLast(frames: seq<Frame>, gaps: seq<u32>, frame: Frame)
    ensures Joined(frames, gaps, ([frame], [])) == (frames + [frame], gaps)
  {
    assert gaps + [] == gaps;
  }

  /** A frame at the front, then either a gap and the frames behind it, or nothing more. */
  lemma FirstFrame(durations: seq<u32>)
    requires |durations| >= FRAME_DURATIONS
    ensures var frame, rest := FrameRead(durations[..FRAME_DURATIONS]), durations[FRAME_DURATIONS..];
            FramesRead(durations) == if rest == [] || rest[0] <= LONGEST_SPACE then ([frame], [])
                                     else ([frame] + FramesRead(rest[1..]).0, [rest[0]] + FramesRead(rest[1..]).1)
  {
    hide FrameRead;
  }

  method DecodeFrames(durations: seq<u32>) returns (r: Result<(seq<Frame>, seq<u32>), NoFrame>)
    ensures r == FramesFound(durations)
  {
    var frames: seq<Frame>, gaps: seq<u32> := [], [];
    var index := 0;
    assert durations[0..] == durations;
    JoinedEnds(FramesRead(durations).0, FramesRead(durations).1);
    while index + FRAME_DURATIONS <= |durations|
      invariant 0 <= index <= |durations|
      invariant Joined(frames, gaps, FramesRead(durations[index..])) == FramesRead(durations)
      decreases |durations| - index
    {
      hide FrameRead, FramesRead, Joined;
      ghost var tail := durations[index..];
      FirstFrame(tail);
      assert tail[..FRAME_DURATIONS] == durations[index..index + FRAME_DURATIONS];
      assert tail[FRAME_DURATIONS..] == durations[index + FRAME_DURATIONS..];
      var frame := DecodeFrame(durations[index..index + FRAME_DURATIONS]);
      index := index + FRAME_DURATIONS;
      if index < |durations| && durations[index] > LONGEST_SPACE {
        assert durations[index..][1..] == durations[index + 1..];
        JoinedOneMore(frames, gaps, frame, durations[index], FramesRead(durations[index + 1..]));
        frames, gaps := frames + [frame], gaps + [durations[index]];
        index := index + 1;
      } else {
        JoinedLast(frames, gaps, frame);
        return Ok((frames + [frame], gaps));
      }
    }
    JoinedEnds(frames, gaps);
    return if frames == [] then Err(NoFrame) else Ok((frames, gaps));
  }

  // ---------- any durations at all ----------

  /** Frames of 291 durations each, with room for one more between two of them. */
  predicate FramesLie(durations: seq<u32>, frames: seq<Frame>) {
    forall i :: 0 <= i < |frames| ==>
      292 * i + 291 <= |durations| && frames[i] == FrameRead(durations[292 * i..292 * i + 291])
  }

  /** The durations behind the frames, each longer than 5 ms. */
  predicate GapsLie(durations: seq<u32>, gaps: seq<u32>) {
    forall i :: 0 <= i < |gaps| ==>
      292 * i + 291 < |durations| && gaps[i] == durations[292 * i + 291] && gaps[i] > 5000
  }

  /** Behind the last gap there is no room for a frame, or behind the last frame no gap. */
  predicate NoMore(durations: seq<u32>, frames: nat, gaps: nat) {
    if gaps == frames then |durations| < 292 * frames + 291
    else gaps == frames - 1
         && (292 * gaps + 291 == |durations| || (292 * gaps + 291 < |durations| && durations[292 * gaps + 291] <= 5000))
  }

  /** As many frames as there are, a gap between two of them. */
  predicate Apart(durations: seq<u32>, frames: seq<Frame>, gaps: seq<u32>) {
    FramesLie(durations, frames) && GapsLie(durations, gaps) && NoMore(durations, |frames|, |gaps|)
  }

  /** Any durations at all are read as the frames that lie apart in them. */
  lemma {:induction false} FramesAreApart(durations: seq<u32>)
    ensures Apart(durations, FramesRead(durations).0, FramesRead(durations).1)
    decreases |durations|
  {
    hide FrameRead, FramesRead, Apart;
    if |durations| < 291 {
      TooShort(durations);
    } else {
      FirstFrame(durations);
      var rest := durations[291..];
      if rest == [] || rest[0] <= 5000 {
        OnlyFrame(durations);
      } else {
        assert rest[1..] == durations[292..];
        FramesAreApart(durations[292..]);
        var more := FramesRead(durations[292..]);
        OneFrameMore(durations, more.0, more.1);
      }
    }
  }

  /** Durations are refused exactly when there are too few for one frame. */
  lemma NoFrameIff(durations: seq<u32>)
    ensures FramesFound(durations).Err? <==> |durations| < 291
  {
    hide FrameRead;
    if |durations| >= 291 {
      FirstFrame(durations);
    }
  }

  lemma TooShort(durations: seq<u32>)
    requires |durations| < 291
    ensures FramesRead(durations) == ([], []) && Apart(durations, [], [])
  {
  }

  lemma OnlyFrame(durations: seq<u32>)
    requires |durations| == 291 || (|durations| > 291 && durations[291] <= 5000)
    ensures Apart(durations, [FrameRead(durations[..291])], [])
  {
    hide FrameRead;
  }

  lemma OneFrameMore(durations: seq<u32>, frames: seq<Frame>, gaps: seq<u32>)
    requires |durations| >= 292 && durations[291] > 5000 && Apart(durations[292..], frames, gaps)
    ensures Apart(durations, [FrameRead(durations[..291])] + frames, [durations[291]] + gaps)
  {
    hide FrameRead, FramesLie, GapsLie;
    FramesShift(durations, frames);
    GapsShift(durations, gaps);
  }

  lemma GapsShift(durations: seq<u32>, gaps: seq<u32>)
    requires |durations| >= 292 && durations[291] > 5000 && GapsLie(durations[292..], gaps)
    ensures GapsLie(durations, [durations[291]] + gaps)
  {
    var tail, more := durations[292..], [durations[291]] + gaps;
    forall i | 0 <= i < |more|
      ensures 292 * i + 291 < |durations| && more[i] == durations[292 * i + 291] && more[i] > 5000
    {
      if i > 0 {
        assert gaps[i - 1] == tail[292 * (i - 1) + 291];
      }
    }
  }

  lemma FramesShift(durations: seq<u32>, frames: seq<Frame>)
    requires |durations| >= 292 && FramesLie(durations[292..], frames)
    ensures FramesLie(durations, [FrameRead(durations[..291])] + frames)
  {
    hide FrameRead;
    var tail, more := durations[292..], [FrameRead(durations[..291])] + frames;
    forall i | 0 <= i < |more|
      ensures 292 * i + 291 <= |durations| && more[i] == FrameRead(durations[292 * i..292 * i + 291])
    {
      if i > 0 {
        var k := i - 1;
        assert frames[k] == FrameRead(tail[292 * k..292 * k + 291]);
        assert tail[292 * k..292 * k + 291] == durations[292 * i..292 * i + 291];
      }
    }
  }

  lemma {:induction false} LowBitsRead(durations: seq<u32>, k: nat, n: nat, m: nat)
    requires |durations| == 291 && k < 18 && n < m <= 8
    ensures BitsRead(durations, k, m) / Pow2(n) % 2 == 1 <==> durations[16 * k + 2 * n + 3] > 860
    decreases m
  {
    hide Pow2;
    var before := BitsRead(durations, k, m - 1);
    if n == m - 1 {
      TopBit(before, Pow2(n), LongSpace(durations, 8 * k + n));
    } else {
      LowBitsRead(durations, k, n, m - 1);
      HigherBit(before, n, m - 1);
    }
  }

  lemma TopBit(b: nat, p: nat, on: bool)
    requires b < p
    ensures (b + if on then p else 0) / p % 2 == 1 <==> on
  {
    Quotient(b + (if on then p else 0), p, if on then 1 else 0, b);
  }

  /** A bit added above leaves the one below. */
  lemma HigherBit(b: nat, n: nat, m: nat)
    requires n < m
    ensures (b + Pow2(m)) / Pow2(n) % 2 == b / Pow2(n) % 2
  {
    var c := Doubled(n, m);
    hide Pow2;
    EvenMultipleAbove(b, Pow2(n), c);
  }

  lemma EvenMultipleAbove(b: nat, p: nat, c: nat)
    requires p > 0
    ensures (b + p * (2 * c)) / p % 2 == b / p % 2
  {
    var q, r := b / p, b % p;
    assert b == p * q + r;
    Gathered(p, q, c);
    Quotient(b + p * (2 * c), p, q + 2 * c, r);
    TwiceMore(q, c);
  }

  lemma Gathered(p: int, q: int, c: int)
    ensures p * q + p * (2 * c) == p * (q + 2 * c)
  {
  }

  lemma TwiceMore(q: int, c: int)
    ensures (q + 2 * c) % 2 == q % 2
  {
  }

  lemma {:induction false} Doubled(n: nat, m: nat) returns (c: nat)
    requires n < m
    ensures Pow2(m) == Pow2(n) * (2 * c)
    decreases m
  {
    if n == m - 1 {
      c := 1;
    } else {
      var d := Doubled(n, m - 1);
      c := 2 * d;
      Twice(Pow2(n), d);
    }
  }

  lemma Twice(p: int, d: int)
    ensures 2 * (p * (2 * d)) == p * (2 * (2 * d))
  {
  }

  /** Bit `n` of byte `k` of any frame read is one exactly when its space is longer than 860 µs,
      halfway between a short one and a long one. */
  lemma AnySpaceIsRead(durations: seq<u32>, k: nat, n: nat)
    requires |durations| == 291 && k < 18 && n < 8
    ensures var frame := FrameRead(durations);
            && |frame.bytes| == 18 && (IsOne(frame.bytes[k], n) <==> durations[16 * k + 2 * n + 3] > 860)
            && frame.headerMark == durations[0] && frame.headerSpace == durations[1]
            && frame.footerMark == durations[290]
  {
    hide BitsRead;
    LowBitsRead(durations, k, n, 8);
  }

  // ---------- from the bytes and back ----------

  /** A duration as it comes back from a packet. */
  function Heard(d: u32): u32 { Micros(Ticks(d)) }

  /** The spaces keep their side of the threshold, and the gap stays longer than any of them. */
  lemma HeardConstants()
    ensures Heard(ONE_SPACE) == 1314 && Heard(ZERO_SPACE) == 427 && Heard(REPEAT_GAP) == 15500
    ensures Heard(HDR_MARK) == 3415 && Heard(HDR_SPACE) == 1741 && Heard(REPEAT_MARK) == 427
  {
  }

  lemma {:induction false} BitPulsesAt(b: byte, n: nat, j: nat)
    requires j < n
    ensures BitPulses(b, n)[2 * j] == BIT_MARK && BitPulses(b, n)[2 * j + 1] == Space(b, j)
  {
    if j < n - 1 {
      BitPulsesAt(b, n - 1, j);
    }
  }

  lemma LastByte(bytes: seq<byte>)
    requires bytes != []
    ensures BytePulses(bytes) == BytePulses(bytes[..|bytes| - 1]) + BitPulses(bytes[|bytes| - 1], 8)
  {
    hide BitPulses;
  }

  lemma {:induction false} BytePulsesAt(bytes: seq<byte>, k: nat, j: nat)
    requires k < |bytes| && j < 8
    ensures BytePulses(bytes)[16 * k + 2 * j] == BIT_MARK && BytePulses(bytes)[16 * k + 2 * j + 1] == Space(bytes[k], j)
    decreases |bytes|
  {
    hide BitPulses, BytePulses, Space;
    var last := |bytes| - 1;
    LastByte(bytes);
    if k < last {
      BytePulsesAt(bytes[..last], k, j);
    } else {
      BitPulsesAt(bytes[last], 8, j);
    }
  }

  /** The marks and spaces of a transmission, in microseconds: twice the opening pair, each bit from
      the lowest as a mark and a long or short space, and the closing mark, with a gap between. */
  lemma TransmissionPulses(bytes: seq<byte>, copy: nat, k: nat, j: nat)
    requires |bytes| == STATE_LEN && copy < 2 && k < STATE_LEN && j < 8
    ensures var ps, at := Transmission(bytes), 292 * copy;
            && |ps| == 583 && ps[291] == 15500
            && ps[at] == 3400 && ps[at + 1] == 1750 && ps[at + 290] == 440
            && ps[at + 2 + 16 * k + 2 * j] == 450
            && ps[at + 3 + 16 * k + 2 * j] == if bytes[k] / Pow2(j) % 2 == 1 then 1300 else 420
  {
    hide BytePulses;
    BytePulsesAt(bytes, k, j);
    var frame, i := FramePulses(bytes), 2 + 16 * k + 2 * j;
    assert frame[i] == BytePulses(bytes)[i - 2] && frame[i + 1] == BytePulses(bytes)[i - 1];
  }

  /** What comes back from the pulses of a frame. */
  ghost predicate HeardAs(durations: seq<u32>, pulses: seq<u32>) {
    |durations| == |pulses| && forall i :: 0 <= i < |pulses| ==> durations[i] == Heard(pulses[i])
  }

  lemma BitIsHeard(bytes: seq<byte>, durations: seq<u32>, k: nat, j: nat)
    requires |bytes| == STATE_LEN && HeardAs(durations, FramePulses(bytes)) && k < STATE_LEN && j < 8
    ensures LongSpace(durations, 8 * k + j) <==> IsOne(bytes[k], j)
  {
    hide Heard, BytePulses, IsOne;
    HeardConstants();
    BytePulsesAt(bytes, k, j);
    assert FramePulses(bytes)[2 * (8 * k + j) + 3] == BytePulses(bytes)[16 * k + 2 * j + 1];
  }

  lemma {:induction false} BitsAreRead(bytes: seq<byte>, durations: seq<u32>, k: nat, n: nat)
    requires |bytes| == STATE_LEN && HeardAs(durations, FramePulses(bytes)) && k < STATE_LEN && n <= 8
    ensures BitsRead(durations, k, n) == bytes[k] % Pow2(n)
  {
    hide HeardAs, LongSpace;
    if n > 0 {
      BitsAreRead(bytes, durations, k, n - 1);
      BitIsHeard(bytes, durations, k, n - 1);
      RemainderBit(bytes[k], Pow2(n - 1));
    }
  }

  lemma EndsAreHeard(bytes: seq<byte>, durations: seq<u32>)
    requires |bytes| == STATE_LEN && HeardAs(durations, FramePulses(bytes))
    ensures |durations| == FRAME_DURATIONS
    ensures durations[0] == 3415 && durations[1] == 1741 && durations[FRAME_DURATIONS - 1] == 427
  {
    hide Heard, BytePulses;
    HeardConstants();
    assert FramePulses(bytes)[0] == HDR_MARK && FramePulses(bytes)[1] == HDR_SPACE;
    assert FramePulses(bytes)[FRAME_DURATIONS - 1] == REPEAT_MARK;
  }

  /** A heard frame reads back its eighteen bytes. */
  lemma FrameIsRead(bytes: seq<byte>, durations: seq<u32>)
    requires |bytes| == STATE_LEN && HeardAs(durations, FramePulses(bytes))
    ensures FrameRead(durations) == Frame(3415, 1741, 427, bytes)
  {
    hide Heard, HeardAs, FramePulses, BitsRead;
    EndsAreHeard(bytes, durations);
    forall k | 0 <= k < STATE_LEN
      ensures BytesRead(durations)[k] == bytes[k]
    {
      BitsAreRead(bytes, durations, k, 8);
      assert Pow2(8) == 256;
    }
    assert BytesRead(durations) == bytes;
  }

  lemma {:induction false} PulsesAreLong(bytes: seq<byte>, i: nat)
    requires i < |BytePulses(bytes)|
    ensures BytePulses(bytes)[i] >= 420
    decreases |bytes|
  {
    var last := |bytes| - 1;
    if i < 16 * last {
      PulsesAreLong(bytes[..last], i);
    } else {
      SpacesAreLong(bytes[last], 8, i - 16 * last);
    }
  }

  lemma {:induction false} SpacesAreLong(b: byte, n: nat, i: nat)
    requires i < 2 * n
    ensures BitPulses(b, n)[i] >= 420
  {
    if i < 2 * (n - 1) {
      SpacesAreLong(b, n - 1, i);
    }
  }

  lemma TransmissionIsLong(bytes: seq<byte>, i: nat)
    requires i < |Transmission(bytes)|
    ensures Transmission(bytes)[i] >= 420
  {
    var n := |FramePulses(bytes)|;
    var at := if i < n then i else if i == n then 0 else i - n - 1;
    assert i != n ==> Transmission(bytes)[i] == FramePulses(bytes)[at];
    if 2 <= at < n - 1 {
      PulsesAreLong(bytes, at - 2);
      assert FramePulses(bytes)[at] == BytePulses(bytes)[at - 2];
    }
  }

  /** Two frames and a gap are found again, with the bytes that were sent. */
  lemma TransmissionIsFound(bytes: seq<byte>, durations: seq<u32>)
    requires |bytes| == STATE_LEN && HeardAs(durations, Transmission(bytes))
    ensures var frame := Frame(3415, 1741, 427, bytes);
            FramesFound(durations) == Ok(([frame, frame], [15500]))
  {
    hide Heard, FrameRead;
    HeardConstants();
    var pulses := Transmission(bytes);
    var first, rest := durations[..FRAME_DURATIONS], durations[FRAME_DURATIONS..];
    forall i | 0 <= i < FRAME_DURATIONS
      ensures first[i] == Heard(FramePulses(bytes)[i])
      ensures rest[1..][i] == Heard(FramePulses(bytes)[i])
    {
      assert pulses[i] == FramePulses(bytes)[i];
      assert pulses[FRAME_DURATIONS + 1 + i] == FramePulses(bytes)[i];
    }
    assert pulses[FRAME_DURATIONS] == REPEAT_GAP;
    assert rest[0] == Heard(REPEAT_GAP);
    FrameIsRead(bytes, first);
    FrameIsRead(bytes, rest[1..]);
    assert rest[1..][..FRAME_DURATIONS] == rest[1..];
    assert rest[1..][FRAME_DURATIONS..] == [];
    var frame := Frame(3415, 1741, 427, bytes);
    assert FramesRead(rest[1..]) == ([frame], []);
    var gap: u32 := 15500;
    assert [frame] + [frame] == [frame, frame] && [gap] + [] == [gap];
    assert FramesRead(durations) == ([frame] + [frame], [gap] + []);
  }

  /** A packet of a state's bytes, decoded, holds two frames of exactly those bytes. */
  lemma PacketRoundTrip(bytes: seq<byte>)
    requires |bytes| == STATE_LEN
    ensures var heard := DecodePacket(PacketOf(AllTicks(Transmission(bytes))));
            && heard.Ok?
            && FramesFound(heard.value) == Ok(([Frame(3415, 1741, 427, bytes), Frame(3415, 1741, 427, bytes)], [15500]))
  {
    hide FramesFound, Transmission, Heard, Ticks, Micros;
    var pulses := Transmission(bytes);
    forall i | 0 <= i < |pulses|
      ensures pulses[i] >= 17
    {
      TransmissionIsLong(bytes, i);
    }
    PacketsRoundTripIff(pulses);
    HeardOfPacket(pulses);
    TransmissionIsFound(bytes, AllMicros(AllTicks(pulses)));
  }

  lemma HeardOfPacket(pulses: seq<u32>)
    ensures HeardAs(AllMicros(AllTicks(pulses)), pulses)
  {
  }
}
