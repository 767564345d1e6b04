/** The Mitsubishi heat-pump frame: 18 state bytes with bit fields and a checksum, sent twice as
    marks and spaces, and read back from what a Broadlink packet gives. Bit fields are written
    as sums of disjoint bits and read by division. */
module Mitsubishi {
  import opened Bytes

  const HDR_MARK: u32 := 3400
  const HDR_SPACE: u32 := 1750
  const BIT_MARK: u32 := 450
  const ONE_SPACE: u32 := 1300
  const ZERO_SPACE: u32 := 420
  const REPEAT_MARK: u32 := 440
  const REPEAT_GAP: u32 := 15500
  const STATE_LEN := 18
  const FRAME_DURATIONS := 2 + STATE_LEN * 8 * 2 + 1
  const TICKS_PER_DAY := 144
  const LONGEST_SPACE: u32 := 5000

  // ---------- the settings' tables ----------

  /** A setting's value, its command token and its code in the frame. */
  datatype Entry<T> = Entry(value: T, token: string, code: byte)

  function Token<T(==)>(table: seq<Entry<T>>, value: T): string {
    if table == [] then "" else if table[0].value == value then table[0].token else Token(table[1..], value)
  }

  function Code<T(==)>(table: seq<Entry<T>>, value: T): byte {
    if table == [] then 0 else if table[0].value == value then table[0].code else Code(table[1..], value)
  }

  function FromToken<T>(table: seq<Entry<T>>, token: string): Option<T> {
    if table == [] then None else if table[0].token == token then Some(table[0].value) else FromToken(table[1..], token)
  }

  function FromCode<T>(table: seq<Entry<T>>, code: byte): Option<T> {
    if table == [] then None else if table[0].code == code then Some(table[0].value) else FromCode(table[1..], code)
  }

  datatype Mode = AutoMode | Cool | Dry | Heat | FanOnly

  const MODES: seq<Entry<Mode>> := [
    Entry(Heat, "heat", 1), Entry(Dry, "dry", 2), Entry(Cool, "cool", 3),
    Entry(AutoMode, "auto", 4), Entry(FanOnly, "fan", 7)]

  datatype Fan = AutoFan | Level1 | Level2 | Level3 | Level4 | Silent

  const FANS: seq<Entry<Fan>> := [
    Entry(AutoFan, "auto", 0x80), Entry(Level1, "1", 1), Entry(Level2, "2", 2),
    Entry(Level3, "3", 3), Entry(Level4, "4", 4), Entry(Silent, "silent", 5)]

  datatype Vane = AutoVane | Highest | High | Middle | Low | Lowest | Swing

  const VANES: seq<Entry<Vane>> := [
    Entry(AutoVane, "auto", 0), Entry(Highest, "highest", 1), Entry(High, "high", 2), Entry(Middle, "middle", 3),
    Entry(Low, "low", 4), Entry(Lowest, "lowest", 5), Entry(Swing, "swing", 7)]

  datatype WideVane = LeftMax | Left | Center | Right | RightMax | Wide | AutoWide

  const WIDE_VANES: seq<Entry<WideVane>> := [
    Entry(LeftMax, "left-max", 1), Entry(Left, "left", 2), Entry(Center, "center", 3), Entry(Right, "right", 4),
    Entry(RightMax, "right-max", 5), Entry(Wide, "wide", 6), Entry(AutoWide, "auto", 8)]

  datatype TimerMode = NoTimer | Stop | Start | StartStop

  const TIMERS: seq<Entry<TimerMode>> := [
    Entry(NoTimer, "none", 0), Entry(Stop, "stop", 3), Entry(Start, "start", 5), Entry(StartStop, "start-stop", 7)]

  // ---------- the tables hold each value, token and code once ----------

  ghost predicate NoDuplicate<T(!new)>(table: seq<Entry<T>>) {
    forall i, j :: 0 <= i < j < |table| ==>
      table[i].value != table[j].value && table[i].token != table[j].token && table[i].code != table[j].code
  }

  ghost predicate Complete<T(!new)>(table: seq<Entry<T>>) {
    forall value: T :: Listed(table, value)
  }

  ghost predicate Listed<T(!new)>(table: seq<Entry<T>>, value: T) {
    exists i :: 0 <= i < |table| && table[i].value == value
  }

  /** In a complete table without duplicates, tokens and codes read back the value written. */
  lemma {:induction false} TableRoundTrip<T(!new)>(table: seq<Entry<T>>, value: T)
    requires NoDuplicate(table) && Listed(table, value)
    ensures FromToken(table, Token(table, value)) == Some(value)
    ensures FromCode(table, Code(table, value)) == Some(value)
  {
    if table[0].value != value {
      var rest := table[1..];
      var i :| 0 <= i < |table| && table[i].value == value;
      assert rest[i - 1].value == value;
      TableRoundTrip(rest, value);
      TokenIsListed(rest, value);
      var k :| 0 <= k < |rest| && rest[k].token == Token(rest, value) && rest[k].code == Code(rest, value);
      assert table[k + 1] == rest[k];
    }
  }

  lemma {:induction false} TokenIsListed<T(!new)>(table: seq<Entry<T>>, value: T)
    requires Listed(table, value)
    ensures exists k :: (&& 0 <= k < |table| && table[k].value == value
                         && table[k].token == Token(table, value) && table[k].code == Code(table, value))
  {
    if table[0].value == value {
      assert table[0].token == Token(table, value);
    } else {
      var rest := table[1..];
      var i :| 0 <= i < |table| && table[i].value == value;
      assert rest[i - 1].value == value;
      TokenIsListed(rest, value);
      var k :| 0 <= k < |rest| && rest[k].value == value && rest[k].token == Token(rest, value)
          && rest[k].code == Code(rest, value);
      assert table[k + 1] == rest[k];
    }
  }

  /** In a table without duplicates each entry's token and code are its value's. */
  lemma {:induction false} TokenOfEntry<T(!new)>(table: seq<Entry<T>>, i: nat)
    requires NoDuplicate(table) && i < |table|
    ensures Token(table, table[i].value) == table[i].token && Code(table, table[i].value) == table[i].code
  {
    if i > 0 {
      TokenOfEntry(table[1..], i - 1);
    }
  }

  lemma ModesAreSound()
    ensures NoDuplicate(MODES) && Complete(MODES)
  {
    forall v: Mode ensures Listed(MODES, v) {
      assert MODES[0].value == Heat && MODES[1].value == Dry && MODES[2].value == Cool
          && MODES[3].value == AutoMode && MODES[4].value == FanOnly;
    }
  }

  lemma FansAreSound()
    ensures NoDuplicate(FANS) && Complete(FANS)
  {
    forall v: Fan ensures Listed(FANS, v) {
      assert FANS[0].value == AutoFan && FANS[1].value == Level1 && FANS[2].value == Level2
          && FANS[3].value == Level3 && FANS[4].value == Level4 && FANS[5].value == Silent;
    }
  }

  lemma VanesAreSound()
    ensures NoDuplicate(VANES) && Complete(VANES)
  {
    forall v: Vane ensures Listed(VANES, v) {
      assert VANES[0].value == AutoVane && VANES[1].value == Highest && VANES[2].value == High
          && VANES[3].value == Middle && VANES[4].value == Low && VANES[5].value == Lowest && VANES[6].value == Swing;
    }
  }

  lemma WideVanesAreSound()
    ensures NoDuplicate(WIDE_VANES) && Complete(WIDE_VANES)
  {
    forall v: WideVane ensures Listed(WIDE_VANES, v) {
      assert WIDE_VANES[0].value == LeftMax && WIDE_VANES[1].value == Left && WIDE_VANES[2].value == Center
          && WIDE_VANES[3].value == Right && WIDE_VANES[4].value == RightMax && WIDE_VANES[5].value == Wide
          && WIDE_VANES[6].value == AutoWide;
    }
  }

  lemma TimersAreSound()
    ensures NoDuplicate(TIMERS) && Complete(TIMERS)
  {
    forall v: TimerMode ensures Listed(TIMERS, v) {
      assert TIMERS[0].value == NoTimer && TIMERS[1].value == Stop && TIMERS[2].value == Start
          && TIMERS[3].value == StartStop;
    }
  }

  /** The mode table both ways: a token and a code read back the value they were written for. */
  function ModeToken(value: Mode): (token: string)
    ensures ModeOfToken(token) == Some(value)
  {
    ModesAreSound();
    TableRoundTrip(MODES, value);
    Token(MODES, value)
  }

  function ModeOfToken(token: string): Option<Mode> { FromToken(MODES, token) }

  function ModeCode(value: Mode): (code: byte)
    ensures ModeOfCode(code) == Some(value)
    ensures code < 8
  {
    ModesAreSound();
    TableRoundTrip(MODES, value);
    TokenIsListed(MODES, value);
    Code(MODES, value)
  }

  function ModeOfCode(code: byte): Option<Mode> { FromCode(MODES, code) }

  /** The fan table both ways: a token and a code read back the value they were written for. */
  function FanToken(value: Fan): (token: string)
    ensures FanOfToken(token) == Some(value)
  {
    FansAreSound();
    TableRoundTrip(FANS, value);
    Token(FANS, value)
  }

  function FanOfToken(token: string): Option<Fan> { FromToken(FANS, token) }

  function FanCode(value: Fan): (code: byte)
    ensures FanOfCode(code) == Some(value)
    ensures code < 8 || code == 0x80
  {
    FansAreSound();
    TableRoundTrip(FANS, value);
    TokenIsListed(FANS, value);
    Code(FANS, value)
  }

  function FanOfCode(code: byte): Option<Fan> { FromCode(FANS, code) }

  /** The vane table both ways: a token and a code read back the value they were written for. */
  function VaneToken(value: Vane): (token: string)
    ensures VaneOfToken(token) == Some(value)
  {
    VanesAreSound();
    TableRoundTrip(VANES, value);
    Token(VANES, value)
  }

  function VaneOfToken(token: string): Option<Vane> { FromToken(VANES, token) }

  function VaneCode(value: Vane): (code: byte)
    ensures VaneOfCode(code) == Some(value)
    ensures code < 8
  {
    VanesAreSound();
    TableRoundTrip(VANES, value);
    TokenIsListed(VANES, value);
    Code(VANES, value)
  }

  function VaneOfCode(code: byte): Option<Vane> { FromCode(VANES, code) }

  /** The wide vane table both ways: a token and a code read back the value they were written for. */
  function WideVaneToken(value: WideVane): (token: string)
    ensures WideVaneOfToken(token) == Some(value)
  {
    WideVanesAreSound();
    TableRoundTrip(WIDE_VANES, value);
    Token(WIDE_VANES, value)
  }

  function WideVaneOfToken(token: string): Option<WideVane> { FromToken(WIDE_VANES, token) }

  function WideVaneCode(value: WideVane): (code: byte)
    ensures WideVaneOfCode(code) == Some(value)
    ensures code < 16
  {
    WideVanesAreSound();
    TableRoundTrip(WIDE_VANES, value);
    TokenIsListed(WIDE_VANES, value);
    Code(WIDE_VANES, value)
  }

  function WideVaneOfCode(code: byte): Option<WideVane> { FromCode(WIDE_VANES, code) }

  /** The timer table both ways: a token and a code read back the value they were written for. */
  function TimerModeToken(value: TimerMode): (token: string)
    ensures TimerModeOfToken(token) == Some(value)
  {
    TimersAreSound();
    TableRoundTrip(TIMERS, value);
    Token(TIMERS, value)
  }

  function TimerModeOfToken(token: string): Option<TimerMode> { FromToken(TIMERS, token) }

  function TimerModeCode(value: TimerMode): (code: byte)
    ensures TimerModeOfCode(code) == Some(value)
    ensures code < 8
  {
    TimersAreSound();
    TableRoundTrip(TIMERS, value);
    TokenIsListed(TIMERS, value);
    Code(TIMERS, value)
  }

  function TimerModeOfCode(code: byte): Option<TimerMode> { FromCode(TIMERS, code) }

  // ---------- the state and its bytes ----------

  datatype State = State(
    power: bool, mode: Mode, temperature: byte, fan: Fan, vane: Vane, wideVane: WideVane, iSee: bool, ecocool: bool,
    clock: byte, startClock: Option<byte>, stopClock: Option<byte>, stopInTicks: Option<byte>, timerMode: TimerMode)

  const DEFAULT := State(true, Cool, 20, AutoFan, AutoVane, Center, false, false, 0, None, None, None, NoTimer)

  const OFF := DEFAULT.(power := false, temperature := 16, fan := Level4, vane := Swing)

  function ModeNibble(mode: Mode): (n: byte)
    ensures n < 8
  {
    match mode
    case AutoMode | Heat => 0
    case Cool => 6
    case Dry => 2
    case FanOnly => 7
  }

  /** Above 16 °C; below, nothing (a saturating subtraction). */
  function Degrees(temperature: byte): byte {
    if temperature < 16 then 0 else temperature - 16
  }

  function OrZero(clock: Option<byte>): byte {
    match clock case Some(c) => c case None => 0
  }

  /** The sum of the bytes, modulo 256. */
  function Sum(bytes: seq<byte>): (sum: byte) {
    if bytes == [] then 0 else (Sum(bytes[..|bytes| - 1]) + bytes[|bytes| - 1]) % 256
  }

  function Flag(on: bool, weight: byte): byte { if on then weight else 0 }

  /** The mode in bits 3 to 5, and « i see » in bit 6. */
  function ModeByte(state: State): byte {
    ModeCode(state.mode) * 8 + Flag(state.iSee, 0x40)
  }

  /** The wide vane in the high nibble, the mode's own in the low one. */
  function WideByte(state: State): byte {
    WideVaneCode(state.wideVane) * 16 + ModeNibble(state.mode)
  }

  /** The fan's bits, bit 6 for « the vane is set », and the vane in bits 3 to 5. */
  function FanByte(state: State): byte {
    FanCode(state.fan) + 0x40 + VaneCode(state.vane) * 8
  }

  /** Byte `k` of the state, the checksum apart. */
  function Field(state: State, k: nat): byte {
    if k == 0 then 0x23
    else if k == 1 then 0xCB
    else if k == 2 then 0x26
    else if k == 3 then 0x01
    else if k == 5 then Flag(state.power, 0x20)
    else if k == 6 then ModeByte(state)
    else if k == 7 then Degrees(state.temperature)
    else if k == 8 then WideByte(state)
    else if k == 9 then FanByte(state)
    else if k == 10 then state.clock
    else if k == 11 then OrZero(state.stopClock)
    else if k == 12 then OrZero(state.startClock)
    else if k == 13 then TimerModeCode(state.timerMode)
    else if k == 14 then Flag(state.ecocool, 0x20)
    else 0
  }

  function Fields(state: State): (bytes: seq<byte>)
    ensures |bytes| == STATE_LEN - 1
  {
    seq(STATE_LEN - 1, k requires 0 <= k < STATE_LEN - 1 => Field(state, k))
  }

  function StateBytes(state: State): (bytes: seq<byte>)
    ensures |bytes| == STATE_LEN
  {
    Fields(state) + [Sum(Fields(state))]
  }

  predicate ChecksumValid(bytes: seq<byte>)
    requires |bytes| == STATE_LEN
  {
    Sum(bytes[..STATE_LEN - 1]) == bytes[STATE_LEN - 1]
  }

  /** What a frame's bytes say; `None` for a code no table knows. */
  datatype ReadBack = ReadBack(
    power: bool, mode: Option<Mode>, iSee: bool, halfDegrees: int, fan: Option<Fan>, vane: Option<Vane>,
    wideVane: Option<WideVane>, clock: byte, stopClock: byte, startClock: byte, timer: Option<TimerMode>, econo: bool)

  /** The bit of weight `weight`. */
  predicate Bit(b: byte, weight: int)
    requires weight > 0
  {
    b / weight % 2 == 1
  }

  function ReadState(bytes: seq<byte>): ReadBack
    requires |bytes| == STATE_LEN
  {
    ReadBack(
      Bit(bytes[5], 0x20),
      ModeOfCode(bytes[6] / 8 % 8),
      Bit(bytes[6], 0x40),
      bytes[7] % 16 * 2 + (if Bit(bytes[7], 0x10) then 1 else 0),
      FanOfCode(if Bit(bytes[9], 0x80) then 0x80 else bytes[9] % 8),
      VaneOfCode(bytes[9] / 8 % 8),
      WideVaneOfCode(bytes[8] / 16),
      bytes[10], bytes[11], bytes[12],
      TimerModeOfCode(bytes[13] % 8),
      Bit(bytes[14], 0x20))
  }

  /** The constant bytes and the settings'. */
  method WriteSettings(bytes: array<byte>, state: State)
    requires bytes.Length == STATE_LEN && forall k :: 0 <= k < STATE_LEN ==> bytes[k] == 0
    modifies bytes
    ensures forall k :: 0 <= k < 10 ==> bytes[k] == Field(state, k)
    ensures forall k :: 10 <= k < STATE_LEN ==> bytes[k] == 0
  {
    hide Flag, ModeByte, Degrees, WideByte, FanByte;
    bytes[0], bytes[1], bytes[2], bytes[3], bytes[4] := 0x23, 0xCB, 0x26, 0x01, 0x00;
    bytes[5] := Flag(state.power, 0x20);
    bytes[6] := ModeByte(state);
    bytes[7] := Degrees(state.temperature);
    bytes[8] := WideByte(state);
    bytes[9] := FanByte(state);
  }

  /** The clocks', the timer's and the economy mode's. */
  method WriteTimers(bytes: array<byte>, state: State)
    requires bytes.Length == STATE_LEN
    requires forall k :: 0 <= k < 10 ==> bytes[k] == Field(state, k)
    requires forall k :: 10 <= k < STATE_LEN ==> bytes[k] == 0
    modifies bytes
    ensures forall k :: 0 <= k < STATE_LEN - 1 ==> bytes[k] == Field(state, k)
  {
    hide Flag, OrZero, TimerModeCode, ModeByte, Degrees, WideByte, FanByte;
    ghost var before := bytes[..];
    bytes[10] := state.clock;
    bytes[11] := OrZero(state.stopClock);
    bytes[12] := OrZero(state.startClock);
    bytes[13] := TimerModeCode(state.timerMode);
    bytes[14] := Flag(state.ecocool, 0x20);
    forall k | 0 <= k < STATE_LEN - 1
      ensures bytes[k] == Field(state, k)
    {
      assert k < 10 ==> bytes[k] == before[k];
    }
  }

  /** The 18 bytes, written into a zeroed array, the checksum last. */
  method BuildStateBytes(state: State) returns (bytes: array<byte>)
    ensures fresh(bytes) && bytes[..] == StateBytes(state)
  {
    bytes := new byte[STATE_LEN](i => 0);
    WriteSettings(bytes, state);
    WriteTimers(bytes, state);
    hide Field;
    assert bytes[..STATE_LEN - 1] == Fields(state);
    bytes[17] := Sum(bytes[..STATE_LEN - 1]);
    assert bytes[..] == bytes[..STATE_LEN - 1] + [bytes[17]];
  }

  /** Reading a state's bytes gives the state back: every field, in every mode. */
  lemma StateRoundTrip(state: State)
    requires 16 <= state.temperature <= 47
    ensures ChecksumValid(StateBytes(state))
    ensures ReadState(StateBytes(state)) == ReadBack(
              state.power, Some(state.mode), state.iSee,
              if state.temperature < 32 then 2 * (state.temperature - 16) else 2 * (state.temperature - 32) + 1,
              Some(state.fan), Some(state.vane), Some(state.wideVane),
              state.clock, OrZero(state.stopClock), OrZero(state.startClock), Some(state.timerMode), state.ecocool)
  {
    hide ModeCode, ModeOfCode, FanCode, FanOfCode, VaneCode, VaneOfCode, WideVaneCode, WideVaneOfCode,
         TimerModeCode, TimerModeOfCode, Sum;
    FieldsAreRead(state);
    hide Field;
    assert StateBytes(state)[..STATE_LEN - 1] == Fields(state);
  }

  /** The bytes the reader looks at. */
  lemma FieldsAreRead(state: State)
    ensures var b := StateBytes(state);
            && b[5] == Flag(state.power, 0x20) && b[6] == ModeByte(state) && b[7] == Degrees(state.temperature)
            && b[8] == WideByte(state) && b[9] == FanByte(state) && b[10] == state.clock
            && b[11] == OrZero(state.stopClock) && b[12] == OrZero(state.startClock)
            && b[13] == TimerModeCode(state.timerMode) && b[14] == Flag(state.ecocool, 0x20)
  {
    hide Flag, ModeByte, Degrees, WideByte, FanByte, OrZero, TimerModeCode, Sum;
  }
}
