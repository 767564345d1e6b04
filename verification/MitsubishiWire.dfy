/** The frame as the unit knows it: what its checksum catches, where each setting lies in the
    eighteen bytes, and the numbers that stand for them. */
module MitsubishiWire {
  import opened Arithmetic
  import opened Bytes
  import opened Mitsubishi

  // ---------- the checksum ----------

  /** Sums add up, modulo 256: the last byte depends on all the others and on their order in nothing. */
  lemma {:induction false} SumOfParts(a: seq<byte>, b: seq<byte>)
    ensures Sum(a + b) == Plus(Sum(a), Sum(b))
    decreases |b|
  {
    hide Sum, Plus;
    if b == [] {
      assert a + b == a;
      NothingSums();
      PlusZero(Sum(a));
    } else {
      var before, last := b[..|b| - 1], b[|b| - 1];
      assert a + b == (a + before) + [last] && b == before + [last];
      SumOfParts(a, before);
      OneMore(a + before, last);
      OneMore(before, last);
      PlusAssociates(Sum(a), Sum(before), last);
    }
  }

  /** The addition of bytes, wrapping. */
  function Plus(x: byte, y: byte): byte { (x + y) % 256 }

  lemma NothingSums()
    ensures Sum([]) == 0
  {
  }

  lemma PlusZero(x: byte)
    ensures Plus(x, 0) == Plus(0, x) == x
  {
  }

  lemma PlusAssociates(x: byte, y: byte, z: byte)
    ensures Plus(Plus(x, y), z) == Plus(x, Plus(y, z))
  {
  }

  /** Adding a byte on either side tells bytes apart. */
  lemma PlusTellsApart(p: byte, x: byte, y: byte)
    requires x != y
    ensures Plus(p, x) != Plus(p, y) && Plus(x, p) != Plus(y, p)
  {
  }

  lemma OneMore(bytes: seq<byte>, b: byte)
    ensures Sum(bytes + [b]) == Plus(Sum(bytes), b)
  {
    assert (bytes + [b])[..|bytes|] == bytes;
  }

  lemma SumOfOne(b: byte)
    ensures Sum([b]) == b
  {
    OneMore([], b);
    assert [] + [b] == [b];
  }

  /** A byte changed changes the sum. */
  lemma SumOfChanged(bytes: seq<byte>, i: nat, b: byte)
    requires i < |bytes| && b != bytes[i]
    ensures Sum(bytes[i := b]) != Sum(bytes)
  {
    hide Sum, Plus;
    var before, after := bytes[..i], bytes[i + 1..];
    assert bytes == before + ([bytes[i]] + after) && bytes[i := b] == before + ([b] + after);
    SumAround(before, bytes[i], after);
    SumAround(before, b, after);
    PlusTellsApart(Sum(after), bytes[i], b);
    PlusTellsApart(Sum(before), Plus(bytes[i], Sum(after)), Plus(b, Sum(after)));
  }

  lemma SumAround(before: seq<byte>, b: byte, after: seq<byte>)
    ensures Sum(before + ([b] + after)) == Plus(Sum(before), Plus(b, Sum(after)))
  {
    SumOfParts(before, [b] + after);
    SumOfParts([b], after);
    SumOfOne(b);
  }

  /** What the checksum is for: a valid frame with any one byte changed, the checksum's own
      included, is no longer valid. */
  lemma OneWrongByteIsCaught(bytes: seq<byte>, i: nat, b: byte)
    requires |bytes| == STATE_LEN && ChecksumValid(bytes) && i < STATE_LEN && b != bytes[i]
    ensures !ChecksumValid(bytes[i := b])
  {
    hide Sum;
    var changed := bytes[i := b];
    if i < STATE_LEN - 1 {
      assert changed[..STATE_LEN - 1] == bytes[..STATE_LEN - 1][i := b];
      SumOfChanged(bytes[..STATE_LEN - 1], i, b);
    } else {
      assert changed[..STATE_LEN - 1] == bytes[..STATE_LEN - 1];
    }
  }

  // ---------- the layout ----------

  /** The numbers and words of each setting. */
  lemma ModeNumber(m: Mode)
    ensures ModeCode(m) == match m case Heat => 1 case Dry => 2 case Cool => 3 case AutoMode => 4 case FanOnly => 7
    ensures ModeToken(m) == match m
                            case Heat => "heat" case Dry => "dry" case Cool => "cool"
                            case AutoMode => "auto" case FanOnly => "fan"
  {
    ModesAreSound();
    TokenOfEntry(MODES, match m case Heat => 0 case Dry => 1 case Cool => 2 case AutoMode => 3 case FanOnly => 4);
  }

  lemma FanNumber(f: Fan)
    ensures FanCode(f) == match f
                          case AutoFan => 0x80 case Level1 => 1 case Level2 => 2 case Level3 => 3
                          case Level4 => 4 case Silent => 5
    ensures FanToken(f) == match f
                           case AutoFan => "auto" case Level1 => "1" case Level2 => "2" case Level3 => "3"
                           case Level4 => "4" case Silent => "silent"
  {
    FansAreSound();
    TokenOfEntry(FANS, match f
                       case AutoFan => 0 case Level1 => 1 case Level2 => 2 case Level3 => 3
                       case Level4 => 4 case Silent => 5);
  }

  lemma VaneNumber(v: Vane)
    ensures VaneCode(v) == match v
                           case AutoVane => 0 case Highest => 1 case High => 2 case Middle => 3
                           case Low => 4 case Lowest => 5 case Swing => 7
    ensures VaneToken(v) == match v
                            case AutoVane => "auto" case Highest => "highest" case High => "high"
                            case Middle => "middle" case Low => "low" case Lowest => "lowest" case Swing => "swing"
  {
    VanesAreSound();
    TokenOfEntry(VANES, match v
                        case AutoVane => 0 case Highest => 1 case High => 2 case Middle => 3
                        case Low => 4 case Lowest => 5 case Swing => 6);
  }

  lemma WideVaneNumber(v: WideVane)
    ensures WideVaneCode(v) == match v
                               case LeftMax => 1 case Left => 2 case Center => 3 case Right => 4
                               case RightMax => 5 case Wide => 6 case AutoWide => 8
    ensures WideVaneToken(v) == match v
                                case LeftMax => "left-max" case Left => "left" case Center => "center"
                                case Right => "right" case RightMax => "right-max" case Wide => "wide"
                                case AutoWide => "auto"
  {
    WideVanesAreSound();
    TokenOfEntry(WIDE_VANES, match v
                             case LeftMax => 0 case Left => 1 case Center => 2 case Right => 3
                             case RightMax => 4 case Wide => 5 case AutoWide => 6);
  }

  lemma TimerNumber(t: TimerMode)
    ensures TimerModeCode(t) == match t case NoTimer => 0 case Stop => 3 case Start => 5 case StartStop => 7
  {
    TimersAreSound();
    TokenOfEntry(TIMERS, match t case NoTimer => 0 case Stop => 1 case Start => 2 case StartStop => 3);
  }

  /** Where each setting lies: the preamble, the bit fields (bit 6 of the ninth byte says that the
      vane is set, and the low half of the eighth is the mode again in another code), the clocks in
      ticks of ten minutes, and the sum. */
  lemma FrameLayout(state: State)
    ensures var b := StateBytes(state);
            && b[..5] == [0x23, 0xCB, 0x26, 0x01, 0x00]
            && b[5] == (if state.power then 0x20 else 0)
            && b[6] == 8 * ModeCode(state.mode) + (if state.iSee then 0x40 else 0)
            && (state.temperature >= 16 ==> b[7] == state.temperature - 16)
            && b[8] == 16 * WideVaneCode(state.wideVane)
                       + (match state.mode case Cool => 6 case Dry => 2 case FanOnly => 7 case _ => 0)
            && b[9] == FanCode(state.fan) + 0x40 + 8 * VaneCode(state.vane)
            && b[10] == state.clock
            && b[11] == (match state.stopClock case Some(c) => c case None => 0)
            && b[12] == (match state.startClock case Some(c) => c case None => 0)
            && b[13] == TimerModeCode(state.timerMode)
            && b[14] == (if state.ecocool then 0x20 else 0)
            && b[15] == b[16] == 0
            && b[17] == Sum(b[..17])
  {
    hide ModeCode, FanCode, VaneCode, WideVaneCode, TimerModeCode, Sum;
    var b, f := StateBytes(state), Fields(state);
    assert b[..17] == f;
    assert b[..5] == [Field(state, 0), Field(state, 1), Field(state, 2), Field(state, 3), Field(state, 4)];
  }

  /** A bit between those above and those below it. */
  lemma BitIsRead(above: nat, on: bool, below: nat, weight: nat)
    requires below < weight
    ensures var b := 2 * weight * above + (if on then weight else 0) + below;
            b < 256 ==> (Bit(b, weight) <==> on)
  {
    var b := 2 * weight * above + (if on then weight else 0) + below;
    Quotient(b, weight, 2 * above + if on then 1 else 0, below);
  }

  /** What the reader makes of any eighteen bytes, a learnt remote's included: bits it has no name for
      change nothing, a half degree is read, and an automatic fan hides the speed. */
  lemma AnyFrameIsRead(bytes: seq<byte>, above: seq<nat>, below: seq<nat>, power: bool, iSee: bool, half: bool,
                       auto: bool, econo: bool)
    requires |bytes| == STATE_LEN && |above| == |below| == 7
    requires below[0] < 32 && bytes[5] == 64 * above[0] + (if power then 32 else 0) + below[0]
    requires below[1] < 64 && bytes[6] == 128 * above[1] + (if iSee then 64 else 0) + below[1]
    requires below[2] < 16 && bytes[7] == 32 * above[2] + (if half then 16 else 0) + below[2]
    requires below[3] < 16 && bytes[8] == 16 * above[3] + below[3]
    requires above[4] < 16 && below[4] < 8
    requires bytes[9] == (if auto then 128 else 0) + 8 * above[4] + below[4]
    requires below[5] < 8 && bytes[13] == 8 * above[5] + below[5]
    requires below[6] < 32 && bytes[14] == 64 * above[6] + (if econo then 32 else 0) + below[6]
    ensures var said := ReadState(bytes);
            && said.power == power && said.iSee == iSee && said.econo == econo
            && said.mode == ModeOfCode(below[1] / 8)
            && said.halfDegrees == 2 * below[2] + (if half then 1 else 0)
            && said.wideVane == WideVaneOfCode(above[3])
            && said.fan == FanOfCode(if auto then 128 else below[4]) && said.vane == VaneOfCode(above[4] % 8)
            && said.timer == TimerModeOfCode(below[5])
            && (said.clock, said.stopClock, said.startClock) == (bytes[10], bytes[11], bytes[12])
  {
    hide ModeOfCode, WideVaneOfCode, FanOfCode, VaneOfCode, TimerModeOfCode, Bit;
    BitIsRead(above[0], power, below[0], 32);
    BitIsRead(above[1], iSee, below[1], 64);
    BitIsRead(above[2], half, below[2], 16);
    BitIsRead(0, auto, 8 * above[4] + below[4], 128);
    BitIsRead(above[6], econo, below[6], 32);
    LowBits(bytes[6], 2 * above[1] + (if iSee then 1 else 0), below[1] / 8, below[1] % 8);
    LowPart(bytes[7], 2 * above[2] + (if half then 1 else 0), below[2], 16);
    LowPart(bytes[8], above[3], below[3], 16);
    LowPart(bytes[9], above[4] + (if auto then 16 else 0), below[4], 8);
    LowBits(bytes[9], (if auto then 2 else 0) + above[4] / 8, above[4] % 8, below[4]);
    LowPart(bytes[13], above[5], below[5], 8);
  }

  lemma LowPart(b: byte, above: nat, below: nat, weight: nat)
    requires below < weight && b == weight * above + below
    ensures b / weight == above && b % weight == below
  {
    Quotient(b, weight, above, below);
  }

  /** Bits 3 to 5. */
  lemma LowBits(b: byte, above: nat, middle: nat, below: nat)
    requires middle < 8 && below < 8 && b == 64 * above + 8 * middle + below
    ensures b / 8 % 8 == middle
  {
    Quotient(b, 8, 8 * above + middle, below);
  }
}
