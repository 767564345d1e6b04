/** The `state-…` command: written from the climate settings, parsed token by token, and
    encoded with the unit's clock. */
module ClimateCommand {
  import opened Bytes
  import opened Text
  import opened Mitsubishi

  const OFF_COMMAND := "state-off"
  const PREFIX := "state-"

  datatype Refusal =
    | UnsupportedCommand
    | Missing(what: string)
    | Unsupported(what: string, token: string)
    | Invalid(what: string, token: string)
    | OutOfRange(what: string, token: string)

  datatype Settings = Settings(
    mode: Mode, temperature: byte, fan: Fan, vane: Vane, wide: Option<WideVane>, econo: bool,
    stopInMinutes: Option<u16>)

  // ---------- parsing ----------

  function Get(tokens: seq<string>, i: nat): Option<string> {
    if i < |tokens| then Some(tokens[i]) else None
  }

  /** A setting's value from its token, or why not. */
  function Setting<T>(what: string, token: Option<string>, of: string -> Option<T>): Result<T, Refusal> {
    match token
    case None => Err(Missing(what))
    case Some(t) => match of(t) case Some(v) => Ok(v) case None => Err(Unsupported(what, t))
  }

  function ParseTemperature(token: Option<string>): Result<byte, Refusal> {
    match token
    case None => Err(Missing("temperature"))
    case Some(t) =>
      match ParseUnsigned(t, 255)
      case None => Err(Invalid("temperature", t))
      case Some(v) => if 16 <= v <= 31 then Ok(v) else Err(OutOfRange("temperature", t))
  }

  function ParseToggle(token: Option<string>, what: string): Result<bool, Refusal> {
    match token
    case None => Err(Missing(what))
    case Some(t) => if t == "on" then Ok(true) else if t == "off" then Ok(false) else Err(Unsupported(what, t))
  }

  function ParseClock(hour: Option<string>, minute: Option<string>): Result<byte, Refusal> {
    if hour == None then Err(Missing("clock hour"))
    else
      match ParseUnsigned(hour.value, 255)
      case None => Err(Invalid("clock hour", hour.value))
      case Some(h) =>
        if minute == None then Err(Missing("clock minute"))
        else
          match ParseUnsigned(minute.value, 255)
          case None => Err(Invalid("clock minute", minute.value))
          case Some(m) =>
            if h > 23 || m > 59 || m % 10 != 0 then Err(OutOfRange("clock", hour.value)) else Ok(h * 6 + m / 10)
  }

  function ParseStopInMinutes(token: Option<string>): Result<byte, Refusal> {
    match token
    case None => Err(Missing("stopin minutes"))
    case Some(t) =>
      match ParseUnsigned(t, 65535)
      case None => Err(Invalid("stopin minutes", t))
      case Some(m) => if m == 0 || m % 10 != 0 || m >= 24 * 60 then Err(OutOfRange("stopin minutes", t)) else Ok(m / 10)
  }

  function Map<T, U>(r: Result<T, Refusal>, f: T -> U): Result<U, Refusal> {
    match r case Ok(v) => Ok(f(v)) case Err(e) => Err(e)
  }

  /** The wide vane's value and how many tokens name it: `left-max` and `right-max` hold a dash
      themselves, so they are two tokens once split. */
  function ParseWide(tokens: seq<string>): Result<(WideVane, nat), Refusal>
    requires tokens != []
  {
    var side := Get(tokens, 1);
    if (side == Some("left") || side == Some("right")) && Get(tokens, 2) == Some("max") then
      var token := if side == Some("left") then "left-max" else "right-max";
      Map(Setting("wide vane", Some(token), WideVaneOfToken), w => (w, 3))
    else Map(Setting("wide vane", side, WideVaneOfToken), w => (w, 2))
  }

  function WithoutTimers(state: State): State {
    state.(timerMode := NoTimer, startClock := None, stopClock := None, stopInTicks := None)
  }

  /** One option at the front of the tokens: the new state and the tokens it took. */
  function ParseOption(tokens: seq<string>, state: State): (r: Result<(State, nat), Refusal>)
    requires tokens != []
    ensures r.Ok? ==> 2 <= r.value.1 <= |tokens|
  {
    var name := tokens[0];
    if name == "wide" then
      Map(ParseWide(tokens), (w: (WideVane, nat)) => (state.(wideVane := w.0), w.1))
    else if name == "econo" then
      Map(ParseToggle(Get(tokens, 1), "econo"), on => (state.(ecocool := on), 2))
    else if name == "isee" then
      Map(ParseToggle(Get(tokens, 1), "isee"), on => (state.(iSee := on), 2))
    else if name == "timer" then
      Map(ParseToggle(Get(tokens, 1), "timer"), on => (if on then state else WithoutTimers(state), 2))
    else if name == "start" then
      Map(ParseClock(Get(tokens, 1), Get(tokens, 2)), (c: byte) => (state.(startClock := Some(c)), 3))
    else if name == "stop" then
      Map(ParseClock(Get(tokens, 1), Get(tokens, 2)), (c: byte) => (state.(stopClock := Some(c)), 3))
    else if name == "stopin" then
      Map(ParseStopInMinutes(Get(tokens, 1)), (t: byte) => (state.(stopInTicks := Some(t)), 2))
    else Err(Unsupported("state token", name))
  }

  function ParseOptions(tokens: seq<string>, state: State): Result<State, Refusal>
    decreases |tokens|
  {
    if tokens == [] then Ok(state)
    else match ParseOption(tokens, state)
      case Err(e) => Err(e)
      case Ok(taken) => ParseOptions(tokens[taken.1..], taken.0)
  }

  /** The seven tokens every command starts with. */
  function ParseHead(tokens: seq<string>): Result<State, Refusal>
    requires |tokens| >= 7
  {
    match Setting("mode", Some(tokens[1]), ModeOfToken)
    case Err(e) => Err(e)
    case Ok(mode) =>
      match ParseTemperature(Some(tokens[2]))
      case Err(e) => Err(e)
      case Ok(temperature) =>
        if tokens[3] != "fan" then Err(Unsupported("fan", tokens[3]))
        else
          match Setting("fan", Some(tokens[4]), FanOfToken)
          case Err(e) => Err(e)
          case Ok(fan) =>
            if tokens[5] != "vane" then Err(Unsupported("vane", tokens[5]))
            else
              match Setting("vane", Some(tokens[6]), VaneOfToken)
              case Err(e) => Err(e)
              case Ok(vane) => Ok(DEFAULT.(mode := mode, temperature := temperature, fan := fan, vane := vane))
  }

  /** What the absolute clocks and the mode make of the state once every option is read. */
  function Finish(state: State): State {
    state.(
      timerMode :=
        match (state.startClock, state.stopClock)
        case (None, None) => state.timerMode
        case (Some(_), None) => Start
        case (None, Some(_)) => Stop
        case (Some(_), Some(_)) => StartStop,
      ecocool := state.mode == Cool && state.ecocool)
  }

  function ParseState(command: string): Result<State, Refusal> {
    if command == OFF_COMMAND then Ok(OFF)
    else
      var tokens := Split(command);
      if |tokens| < 7 || tokens[0] != "state" then Err(UnsupportedCommand)
      else match ParseHead(tokens)
        case Err(e) => Err(e)
        case Ok(state) => Map(ParseOptions(tokens[7..], state), Finish)
  }

  method ParseStateCommand(command: string) returns (r: Result<State, Refusal>)
    ensures r == ParseState(command)
  {
    hide ParseHead, Split, Finish, ParseOption;
    if command == OFF_COMMAND {
      return Ok(OFF);
    }
    var tokens := Split(command);
    if |tokens| < 7 || tokens[0] != "state" {
      return Err(UnsupportedCommand);
    }
    var head := ParseHead(tokens);
    if head.Err? {
      return Err(head.error);
    }
    var state, index := head.value, 7;
    while index < |tokens|
      invariant 7 <= index <= |tokens|
      invariant ParseOptions(tokens[index..], state) == ParseOptions(tokens[7..], head.value)
      decreases |tokens| - index
    {
      var option := ParseOption(tokens[index..], state);
      if option.Err? {
        return Err(option.error);
      }
      assert tokens[index..][option.value.1..] == tokens[index + option.value.1..];
      state, index := option.value.0, index + option.value.1;
    }
    return Ok(Finish(state));
  }

  // ---------- writing ----------

  function WideParts(wide: Option<WideVane>): seq<string> {
    match wide case Some(w) => ["wide", WideVaneToken(w)] case None => []
  }

  function EconoParts(econo: bool): seq<string> {
    if econo then ["econo", "on"] else []
  }

  function StopParts(minutes: Option<u16>): seq<string> {
    match minutes case Some(m) => ["stopin", Decimal(m)] case None => []
  }

  function HeadParts(s: Settings): (parts: seq<string>)
    ensures |parts| == 7
  {
    ["state", ModeToken(s.mode), Decimal(s.temperature), "fan", FanToken(s.fan), "vane", VaneToken(s.vane)]
  }

  function Parts(s: Settings): (parts: seq<string>)
    ensures parts != []
  {
    HeadParts(s) + WideParts(s.wide) + EconoParts(s.econo) + StopParts(s.stopInMinutes)
  }

  /** The command for the settings, refused as a hand-written one would be. */
  function Command(s: Settings): Result<string, Refusal> {
    var command := Join(Parts(s));
    match ParseState(command)
    case Ok(_) => Ok(command)
    case Err(e) => Err(e)
  }

  method WriteCommand(s: Settings) returns (r: Result<string, Refusal>)
    ensures r == Command(s)
  {
    hide ModeToken, FanToken, VaneToken, WideVaneToken;
    var parts := ["state", ModeToken(s.mode), Decimal(s.temperature), "fan", FanToken(s.fan),
                  "vane", VaneToken(s.vane)];
    if s.wide.Some? {
      parts := parts + ["wide", WideVaneToken(s.wide.value)];
    }
    if s.econo {
      parts := parts + ["econo", "on"];
    }
    if s.stopInMinutes.Some? {
      parts := parts + ["stopin", Decimal(s.stopInMinutes.value)];
    }
    assert parts == Parts(s);
    var command := Join(parts);
    var parsed := ParseStateCommand(command);
    r := if parsed.Ok? then Ok(command) else Err(parsed.error);
  }

  /** The settings of a command; `None` for `state-off`, other commands and unparseable ones. */
  function ParseSettings(command: string): Option<Settings> {
    if command == OFF_COMMAND || !(PREFIX <= command) then None
    else match ParseState(command)
      case Err(_) => None
      case Ok(state) => Some(SettingsOf(state))
  }

  function SettingsOf(state: State): Settings {
    Settings(state.mode, state.temperature, state.fan, state.vane, Some(state.wideVane), state.ecocool,
             match state.stopInTicks case Some(ticks) => Some(Minutes(ticks)) case None => None)
  }

  function Minutes(ticks: int): u16
    requires 0 <= ticks < 256
  {
    ticks * 10
  }

  // ---------- the printed tokens, split again ----------

  lemma ModeTokensArePlain(value: Mode)
    ensures DASH !in ModeToken(value)
  {
    ModesAreSound();
    hide Token, FromToken, NoDuplicate;
    match value
    case Heat => TokenOfEntry(MODES, 0); assert ModeToken(Heat) == "heat";
    case Dry => TokenOfEntry(MODES, 1); assert ModeToken(Dry) == "dry";
    case Cool => TokenOfEntry(MODES, 2); assert ModeToken(Cool) == "cool";
    case AutoMode => TokenOfEntry(MODES, 3); assert ModeToken(AutoMode) == "auto";
    case FanOnly => TokenOfEntry(MODES, 4); assert ModeToken(FanOnly) == "fan";
  }

  lemma FanTokensArePlain(value: Fan)
    ensures DASH !in FanToken(value)
  {
    FansAreSound();
    hide Token, FromToken, NoDuplicate;
    match value
    case AutoFan => TokenOfEntry(FANS, 0); assert FanToken(AutoFan) == "auto";
    case Level1 => TokenOfEntry(FANS, 1); assert FanToken(Level1) == "1";
    case Level2 => TokenOfEntry(FANS, 2); assert FanToken(Level2) == "2";
    case Level3 => TokenOfEntry(FANS, 3); assert FanToken(Level3) == "3";
    case Level4 => TokenOfEntry(FANS, 4); assert FanToken(Level4) == "4";
    case Silent => TokenOfEntry(FANS, 5); assert FanToken(Silent) == "silent";
  }

  lemma VaneTokensArePlain(value: Vane)
    ensures DASH !in VaneToken(value)
  {
    VanesAreSound();
    hide Token, FromToken, NoDuplicate;
    match value
    case AutoVane => TokenOfEntry(VANES, 0); assert VaneToken(AutoVane) == "auto";
    case Highest => TokenOfEntry(VANES, 1); assert VaneToken(Highest) == "highest";
    case High => TokenOfEntry(VANES, 2); assert VaneToken(High) == "high";
    case Middle => TokenOfEntry(VANES, 3); assert VaneToken(Middle) == "middle";
    case Low => TokenOfEntry(VANES, 4); assert VaneToken(Low) == "low";
    case Lowest => TokenOfEntry(VANES, 5); assert VaneToken(Lowest) == "lowest";
    case Swing => TokenOfEntry(VANES, 6); assert VaneToken(Swing) == "swing";
  }

  lemma WideTokensAre(value: WideVane)
    ensures WideVaneToken(value) == match value
              case LeftMax => "left-max" case Left => "left" case Center => "center" case Right => "right"
              case RightMax => "right-max" case Wide => "wide" case AutoWide => "auto"
  {
    WideVanesAreSound();
    hide Token, FromToken, NoDuplicate;
    match value
    case LeftMax => TokenOfEntry(WIDE_VANES, 0);
    case Left => TokenOfEntry(WIDE_VANES, 1);
    case Center => TokenOfEntry(WIDE_VANES, 2);
    case Right => TokenOfEntry(WIDE_VANES, 3);
    case RightMax => TokenOfEntry(WIDE_VANES, 4);
    case Wide => TokenOfEntry(WIDE_VANES, 5);
    case AutoWide => TokenOfEntry(WIDE_VANES, 6);
  }

  /** The wide vane's tokens, the two dashed ones coming apart. */
  function WidePieces(wide: WideVane): (pieces: seq<string>) {
    if wide == LeftMax then ["left", "max"] else if wide == RightMax then ["right", "max"] else [WideVaneToken(wide)]
  }

  lemma DashedPair(a: string, b: string)
    requires DASH !in a && DASH !in b
    ensures Split(a + [DASH] + b) == [a, b]
  {
    hide Split;
    SplitAtADash(a, b);
    SplitWithoutDash(a);
    SplitWithoutDash(b);
  }

  lemma MaxTokensSplit()
    ensures Split("left-max") == ["left", "max"] && Split("right-max") == ["right", "max"]
  {
    hide Split;
    assert "left-max" == "left" + [DASH] + "max" && "right-max" == "right" + [DASH] + "max";
    DashedPair("left", "max");
    DashedPair("right", "max");
  }

  lemma WideTokensSplit(wide: WideVane)
    ensures Split(WideVaneToken(wide)) == WidePieces(wide)
  {
    WideTokensAre(wide);
    if wide == LeftMax || wide == RightMax {
      MaxTokensSplit();
    } else {
      hide WideVaneToken, Split;
      SplitWithoutDash(WideVaneToken(wide));
    }
  }

  // ---------- printing then parsing ----------

  /** The option tokens a command ends with. */
  function WideTokens(wide: Option<WideVane>): seq<string> {
    match wide case Some(w) => ["wide"] + WidePieces(w) case None => []
  }

  function Tokens(s: Settings): (tokens: seq<string>)
    ensures |tokens| >= 7
  {
    HeadParts(s) + (WideTokens(s.wide) + (EconoParts(s.econo) + StopParts(s.stopInMinutes)))
  }

  /** Splitting the written command gives its tokens. */
  lemma CommandSplits(s: Settings)
    ensures Split(Join(Parts(s))) == Tokens(s)
  {
    hide Split, Join, Pieces, ModeToken, FanToken, VaneToken, WideVaneToken, Decimal;
    SplitOfJoin(Parts(s));
    ModeTokensArePlain(s.mode);
    FanTokensArePlain(s.fan);
    VaneTokensArePlain(s.vane);
    DecimalRoundTrip(s.temperature, 255);
    PiecesWithoutDash(HeadParts(s));
    PiecesWithoutDash(EconoParts(s.econo));
    StopPartsSplit(s.stopInMinutes);
    WidePartsSplit(s.wide);
    PiecesOfSum(HeadParts(s) + WideParts(s.wide) + EconoParts(s.econo), StopParts(s.stopInMinutes));
    PiecesOfSum(HeadParts(s) + WideParts(s.wide), EconoParts(s.econo));
    PiecesOfSum(HeadParts(s), WideParts(s.wide));
  }

  lemma StopPartsSplit(minutes: Option<u16>)
    ensures Pieces(StopParts(minutes)) == StopParts(minutes)
  {
    hide Pieces, Decimal;
    if minutes.Some? {
      DecimalRoundTrip(minutes.value, 65535);
    }
    PiecesWithoutDash(StopParts(minutes));
  }

  lemma TwoPieces(a: string, b: string)
    ensures Pieces([a, b]) == Split(a) + Split(b)
  {
    hide Split;
    var parts := [a, b];
    assert parts[1..] == [b] && [b][1..] == [];
    assert Pieces([b]) == Split(b);
    assert Pieces(parts) == Split(parts[0]) + Pieces(parts[1..]);
  }

  lemma NoPieces()
    ensures Pieces([]) == []
  {
  }

  lemma WidePartsSplit(wide: Option<WideVane>)
    ensures Pieces(WideParts(wide)) == WideTokens(wide)
  {
    if wide.Some? {
      WideTokensSplit(wide.value);
      SplitWithoutDash("wide");
      hide Split, WideVaneToken, WidePieces, Pieces;
      TwoPieces("wide", WideVaneToken(wide.value));
    } else {
      NoPieces();
    }
  }

  /** A written wide vane is read back, whatever option follows it. */
  lemma WideIsParsed(wide: WideVane, rest: seq<string>, state: State)
    requires rest == [] || rest[0] != "max"
    ensures ParseOptions(["wide"] + WidePieces(wide) + rest, state) == ParseOptions(rest, state.(wideVane := wide))
  {
    var tokens := ["wide"] + WidePieces(wide) + rest;
    WideTokensAre(LeftMax);
    WideTokensAre(RightMax);
    WideTokensAre(wide);
    hide WideVaneToken, WideVaneOfToken;
    assert tokens[0] == "wide";
    assert ParseWide(tokens) == Ok((wide, 1 + |WidePieces(wide)|));
    assert tokens[1 + |WidePieces(wide)|..] == rest;
  }

  lemma EconoIsParsed(rest: seq<string>, state: State)
    ensures ParseOptions(["econo", "on"] + rest, state) == ParseOptions(rest, state.(ecocool := true))
  {
    var tokens := ["econo", "on"] + rest;
    assert tokens[0] == "econo" && tokens[1] == "on" && tokens[2..] == rest;
  }

  /** The stop delays the unit counts in ticks of ten minutes. */
  predicate StopFits(minutes: Option<u16>) {
    minutes.Some? ==> 10 <= minutes.value <= 1430 && minutes.value % 10 == 0
  }

  function StopTicks(minutes: Option<u16>): Option<byte>
    requires StopFits(minutes)
  {
    match minutes case Some(m) => Some(m / 10) case None => None
  }

  lemma StopIsParsed(minutes: Option<u16>, state: State)
    requires state.stopInTicks == None
    ensures ParseOptions(StopParts(minutes), state).Ok? <==> StopFits(minutes)
    ensures StopFits(minutes) ==>
              ParseOptions(StopParts(minutes), state) == Ok(state.(stopInTicks := StopTicks(minutes)))
  {
    hide Decimal;
    if minutes.Some? {
      var m := minutes.value;
      var tokens := StopParts(minutes);
      DecimalRoundTrip(m, 65535);
      assert tokens[0] == "stopin" && tokens[1] == Decimal(m) && tokens[2..] == [];
      assert ParseStopInMinutes(Some(tokens[1])).Ok? <==> StopFits(minutes);
    }
  }

  lemma HeadIsParsed(s: Settings, tokens: seq<string>)
    requires |tokens| >= 7 && tokens[..7] == HeadParts(s)
    ensures ParseHead(tokens).Ok? <==> 16 <= s.temperature <= 31
    ensures 16 <= s.temperature <= 31 ==>
              ParseHead(tokens) == Ok(DEFAULT.(mode := s.mode, temperature := s.temperature, fan := s.fan,
                                               vane := s.vane))
  {
    hide ModeToken, ModeOfToken, FanToken, FanOfToken, VaneToken, VaneOfToken, Decimal;
    DecimalRoundTrip(s.temperature, 255);
    var head := tokens[..7];
    assert tokens[1] == head[1] && tokens[2] == head[2] && tokens[3] == head[3];
    assert tokens[4] == head[4] && tokens[5] == head[5] && tokens[6] == head[6];
  }

  /** The settings a command can carry. */
  predicate Acceptable(s: Settings) {
    16 <= s.temperature <= 31 && StopFits(s.stopInMinutes)
  }

  /** The parsed state of written settings. */
  function StateOf(s: Settings): State
    requires Acceptable(s)
  {
    DEFAULT.(
      mode := s.mode, temperature := s.temperature, fan := s.fan, vane := s.vane,
      wideVane := WideOrCenter(s.wide), ecocool := s.mode == Cool && s.econo, stopInTicks := StopTicks(s.stopInMinutes))
  }

  function WideOrCenter(wide: Option<WideVane>): WideVane {
    match wide case Some(w) => w case None => Center
  }

  lemma OptionsAreParsed(s: Settings, state: State)
    requires state.stopInTicks == None && state.wideVane == Center && !state.ecocool
    ensures var r := ParseOptions(WideTokens(s.wide) + (EconoParts(s.econo) + StopParts(s.stopInMinutes)), state);
            && (r.Ok? <==> StopFits(s.stopInMinutes))
            && (r.Ok? ==> r == Ok(state.(wideVane := WideOrCenter(s.wide), ecocool := s.econo,
                                         stopInTicks := StopTicks(s.stopInMinutes))))
  {
    hide ParseOptions, WidePieces, Decimal;
    var stop := StopParts(s.stopInMinutes);
    var rest := EconoParts(s.econo) + stop;
    var wide := state.(wideVane := WideOrCenter(s.wide));
    if s.wide.Some? {
      WideIsParsed(s.wide.value, rest, state);
    } else {
      assert [] + rest == rest;
    }
    if s.econo {
      EconoIsParsed(stop, wide);
    } else {
      assert [] + stop == stop;
    }
    StopIsParsed(s.stopInMinutes, wide.(ecocool := s.econo));
  }

  /** Parsing the written settings succeeds exactly when they are acceptable, and gives them. */
  lemma WrittenIsParsed(s: Settings)
    ensures ParseState(Join(Parts(s))).Ok? <==> Acceptable(s)
    ensures Acceptable(s) ==> ParseState(Join(Parts(s))) == Ok(StateOf(s))
  {
    hide Join, Split, HeadParts, WideTokens, EconoParts, StopParts, ParseHead, ParseOptions, Parts;
    var command, tokens := Join(Parts(s)), Tokens(s);
    CommandSplits(s);
    NotTheOffCommand(command);
    StartsWithState(s);
    assert tokens[..7] == HeadParts(s);
    assert tokens[7..] == WideTokens(s.wide) + (EconoParts(s.econo) + StopParts(s.stopInMinutes));
    HeadIsParsed(s, tokens);
    if 16 <= s.temperature <= 31 {
      OptionsAreParsed(s, DEFAULT.(mode := s.mode, temperature := s.temperature, fan := s.fan, vane := s.vane));
    }
  }

  lemma StartsWithState(s: Settings)
    ensures Tokens(s)[0] == "state" && PREFIX <= Join(Parts(s))
  {
    hide ModeToken, FanToken, VaneToken, Decimal;
    var parts := Parts(s);
    assert parts[0] == "state" && |parts| > 1;
    assert PREFIX == "state" + [DASH];
  }

  lemma NotTheOffCommand(command: string)
    ensures |Split(command)| > 2 ==> command != OFF_COMMAND
  {
    assert OFF_COMMAND == "state" + [DASH] + "off";
    DashedPair("state", "off");
    hide Split;
  }

  /** `command()` succeeds exactly on 16 to 31 °C and stop delays that are multiples of ten
      from 10 to 1430 minutes. */
  lemma CommandAcceptedIff(s: Settings)
    ensures Command(s).Ok? <==> Acceptable(s)
  {
    hide Join, Parts, ParseState;
    WrittenIsParsed(s);
  }

  /** The settings as they come back: the wide vane said, the economy mode only in cooling. */
  function Normal(s: Settings): Settings {
    s.(wide := Some(WideOrCenter(s.wide)), econo := s.mode == Cool && s.econo)
  }

  /** Parsing a written command gives the settings back in normal form. */
  lemma SettingsRoundTrip(s: Settings)
    requires Acceptable(s)
    ensures Command(s).Ok? && ParseSettings(Command(s).value) == Some(Normal(s))
  {
    hide Join, Parts, ParseState, SettingsOf, StateOf, Normal;
    WrittenIsParsed(s);
    WrittenIsACommand(s);
    SettingsOfState(s);
  }

  lemma WrittenIsACommand(s: Settings)
    ensures Join(Parts(s)) != OFF_COMMAND && PREFIX <= Join(Parts(s))
  {
    hide Join, Parts, Split;
    StartsWithState(s);
    CommandSplits(s);
    NotTheOffCommand(Join(Parts(s)));
  }

  lemma SettingsOfState(s: Settings)
    requires Acceptable(s)
    ensures SettingsOf(StateOf(s)) == Normal(s)
  {
  }

  // ---------- parsing then printing ----------

  /** What every parsed state keeps. */
  predicate Sane(state: State) {
    16 <= state.temperature <= 31 && (state.stopInTicks.Some? ==> 1 <= state.stopInTicks.value <= 143)
  }

  lemma {:induction false} ParsedOptionsAreSane(tokens: seq<string>, state: State)
    requires Sane(state)
    ensures ParseOptions(tokens, state).Ok? ==> Sane(ParseOptions(tokens, state).value)
    decreases |tokens|
  {
    if tokens != [] && ParseOption(tokens, state).Ok? {
      var taken := ParseOption(tokens, state).value;
      OptionIsSane(tokens, state);
      hide ParseOption;
      ParsedOptionsAreSane(tokens[taken.1..], taken.0);
    }
  }

  lemma OptionIsSane(tokens: seq<string>, state: State)
    requires tokens != [] && Sane(state)
    ensures ParseOption(tokens, state).Ok? ==> Sane(ParseOption(tokens, state).value.0)
  {
    hide ParseWide, ParseClock, ParseUnsigned;
  }

  lemma ParsedStateIsSane(command: string)
    ensures ParseState(command).Ok? ==> Sane(ParseState(command).value)
    ensures ParseState(command).Ok? && ParseState(command).value.ecocool ==> ParseState(command).value.mode == Cool
  {
    hide ParseOptions, Split, ModeOfToken, FanOfToken, VaneOfToken, ParseUnsigned;
    var tokens := Split(command);
    if |tokens| >= 7 && ParseHead(tokens).Ok? {
      ParsedOptionsAreSane(tokens[7..], ParseHead(tokens).value);
    }
  }

  /** Settings read from any command can be written again, and that command reads the same. */
  lemma ReadSettingsAreWritten(command: string)
    requires ParseSettings(command).Some?
    ensures var s := ParseSettings(command).value;
            Command(s).Ok? && ParseSettings(Command(s).value) == Some(s)
  {
    hide ParseState, Command;
    ParsedStateIsSane(command);
    SettingsRoundTrip(ParseSettings(command).value);
  }
}
