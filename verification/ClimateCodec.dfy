/** A command to a packet and back: whatever command is accepted, the packet sent for it decodes
    to two identical frames that say what the command said. */
module ClimateCodec {
  import opened Bytes
  import opened Broadlink
  import opened Mitsubishi
  import opened MitsubishiFrames
  import opened ClimateCommand
  import opened Text

  /** The parsed state with the unit's clock, a relative stop timer resolved against it. */
  function Resolve(state: State, clock: byte): State {
    var timed := state.(clock := clock);
    match state.stopInTicks
    case None => timed
    case Some(delta) =>
      timed.(stopClock := Some((clock + delta) % TICKS_PER_DAY),
             timerMode := if state.timerMode == Start || state.timerMode == StartStop then StartStop else Stop)
  }

  /** The packet of a `state-…` command; `None` for any other command. */
  function EncodedCommand(command: string, clock: byte): Result<Option<seq<byte>>, Refusal> {
    if !(PREFIX <= command) then Ok(None)
    else
      match ParseState(command)
      case Err(e) => Err(e)
      case Ok(state) => Ok(Some(PacketOf(AllTicks(Transmission(StateBytes(Resolve(state, clock)))))))
  }

  method EncodeCommand(command: string, clock: byte) returns (r: Result<Option<seq<byte>>, Refusal>)
    ensures r == EncodedCommand(command, clock)
  {
    hide ParseState, StateBytes, Transmission, PacketOf, AllTicks;
    if !(PREFIX <= command) {
      return Ok(None);
    }
    var parsed := ParseStateCommand(command);
    if parsed.Err? {
      return Err(parsed.error);
    }
    var state := parsed.value.(clock := clock);
    if state.stopInTicks.Some? {
      state := state.(stopClock := Some((state.clock + state.stopInTicks.value) % TICKS_PER_DAY));
      state := state.(timerMode := match state.timerMode case Start | StartStop => StartStop case _ => Stop);
    }
    var raw := BuildStateBytes(state);
    var packet := EncodeBroadlinkPacket(raw[..]);
    r := Ok(Some(packet));
  }

  /** A packet decodes to two identical frames with a valid checksum and one gap, and the
      frames' bytes say `said`. */
  ghost predicate HeardTwice(packet: seq<byte>, said: ReadBack) {
    var durations := DecodePacket(packet);
    durations.Ok? &&
    var found := FramesFound(durations.value);
    && found.Ok?
    && |found.value.0| == 2 && |found.value.1| == 1
    && found.value.0[0] == found.value.0[1]
    && |found.value.0[0].bytes| == STATE_LEN
    && ChecksumValid(found.value.0[0].bytes)
    && ReadState(found.value.0[0].bytes) == said
  }

  /** What a resolved state reads as, its temperature in whole degrees. */
  function Said(state: State): ReadBack {
    ReadBack(
      state.power, Some(state.mode), state.iSee, 2 * (state.temperature - 16), Some(state.fan), Some(state.vane),
      Some(state.wideVane), state.clock, OrZero(state.stopClock), OrZero(state.startClock), Some(state.timerMode),
      state.ecocool)
  }

  /** Every command that is accepted is heard as it was said. */
  lemma CommandIsHeard(command: string, clock: byte)
    requires PREFIX <= command && ParseState(command).Ok?
    ensures var r := EncodedCommand(command, clock);
            r.Ok? && r.value.Some? && HeardTwice(r.value.value, Said(Resolve(ParseState(command).value, clock)))
  {
    var state := Resolve(ParseState(command).value, clock);
    ParsedStateIsSane(command);
    StateIsHeard(state);
    hide ParseState, StateBytes, Transmission, PacketOf, AllTicks, HeardTwice;
  }

  lemma StateIsHeard(state: State)
    requires 16 <= state.temperature <= 31
    ensures HeardTwice(PacketOf(AllTicks(Transmission(StateBytes(state)))), Said(state))
  {
    hide FramesFound, StateBytes, Transmission, PacketOf, AllTicks, DecodePacket, ReadState, ChecksumValid;
    PacketRoundTrip(StateBytes(state));
    StateRoundTrip(state);
  }

  /** The settings through the whole path: command text, parsed state, bytes, pulses, packet,
      and back. The stop clock is the delay after the unit's clock, around midnight. */
  lemma SettingsAreHeard(s: Settings, clock: byte)
    requires Acceptable(s) && clock < TICKS_PER_DAY
    ensures Command(s).Ok?
    ensures var r := EncodedCommand(Command(s).value, clock);
            && r.Ok? && r.value.Some?
            && HeardTwice(r.value.value,
                 ReadBack(true, Some(s.mode), false, 2 * (s.temperature - 16), Some(s.fan), Some(s.vane),
                          Some(WideOrCenter(s.wide)), clock,
                          match s.stopInMinutes case Some(m) => (clock + m / 10) % TICKS_PER_DAY case None => 0,
                          0,
                          Some(if s.stopInMinutes.Some? then Stop else NoTimer),
                          s.mode == Cool && s.econo))
  {
    hide ParseState, Join, Parts, HeardTwice, EncodedCommand;
    CommandAcceptedIff(s);
    WrittenIsParsed(s);
    WrittenIsACommand(s);
    CommandIsHeard(Command(s).value, clock);
  }
}
