/** Commands written with any options in any order, and what the unit hears of them: the last word
    on each setting, and clocks that `timer-off` clears. */
module ClimateOptions {
  import opened Bytes
  import opened Text
  import opened Mitsubishi
  import opened ClimateCommand
  import opened ClimateCodec

  datatype Choice =
    | WideTo(wide: WideVane) | Econo(on: bool) | ISee(on: bool) | Timer(on: bool)
    | StartAt(hour: nat, minute: nat) | StopAt(hour: nat, minute: nat) | StopIn(minutes: nat)

  predicate ValidClock(hour: nat, minute: nat) {
    hour <= 23 && minute <= 59 && minute % 10 == 0
  }

  predicate Valid(c: Choice) {
    match c
    case StartAt(h, m) => ValidClock(h, m)
    case StopAt(h, m) => ValidClock(h, m)
    case StopIn(m) => 10 <= m <= 1430 && m % 10 == 0
    case _ => true
  }

  predicate AllValid(cs: seq<Choice>) {
    forall i :: 0 <= i < |cs| ==> Valid(cs[i])
  }

  function OnOff(on: bool): string { if on then "on" else "off" }

  /** The words of a choice. */
  function Words(c: Choice): (words: seq<string>)
    ensures words != []
  {
    match c
    case WideTo(w) => ["wide", WideVaneToken(w)]
    case Econo(on) => ["econo", OnOff(on)]
    case ISee(on) => ["isee", OnOff(on)]
    case Timer(on) => ["timer", OnOff(on)]
    case StartAt(h, m) => ["start", Decimal(h), Decimal(m)]
    case StopAt(h, m) => ["stop", Decimal(h), Decimal(m)]
    case StopIn(m) => ["stopin", Decimal(m)]
  }

  function AllWords(cs: seq<Choice>): seq<string> {
    if cs == [] then [] else Words(cs[0]) + AllWords(cs[1..])
  }

  /** The words as they come apart on their dashes. */
  function Apart(c: Choice): (words: seq<string>)
    ensures words != [] && words[0] != "max"
  {
    match c
    case WideTo(w) => ["wide"] + WidePieces(w)
    case _ => Words(c)
  }

  function AllApart(cs: seq<Choice>): (words: seq<string>)
    ensures words != [] ==> words[0] != "max"
  {
    if cs == [] then [] else Apart(cs[0]) + AllApart(cs[1..])
  }

  /** What a choice changes. */
  function Chosen(c: Choice, state: State): State
    requires Valid(c)
  {
    match c
    case WideTo(w) => state.(wideVane := w)
    case Econo(on) => state.(ecocool := on)
    case ISee(on) => state.(iSee := on)
    case Timer(on) =>
      if on then state
      else state.(timerMode := NoTimer, startClock := None, stopClock := None, stopInTicks := None)
    case StartAt(h, m) => state.(startClock := Some(6 * h + m / 10))
    case StopAt(h, m) => state.(stopClock := Some(6 * h + m / 10))
    case StopIn(m) => state.(stopInTicks := Some(m / 10))
  }

  function AllChosen(cs: seq<Choice>, state: State): State
    requires AllValid(cs)
  {
    if cs == [] then state else AllChosen(cs[1..], Chosen(cs[0], state))
  }

  // ---------- the parser reads the words ----------

  /** How many words a choice takes once split. */
  function Size(c: Choice): (n: nat)
    ensures n >= 2
  {
    match c
    case WideTo(w) => if w == LeftMax || w == RightMax then 3 else 2
    case StartAt(_, _) => 3
    case StopAt(_, _) => 3
    case _ => 2
  }

  /** Split words that say a choice: numbers in any way of writing them. */
  predicate Says(words: seq<string>, c: Choice) {
    |words| == Size(c) &&
    match c
    case WideTo(w) => words == ["wide"] + WidePieces(w)
    case Econo(on) => words == ["econo", OnOff(on)]
    case ISee(on) => words == ["isee", OnOff(on)]
    case Timer(on) => words == ["timer", OnOff(on)]
    case StartAt(h, m) =>
      words[0] == "start" && ParseUnsigned(words[1], 255) == Some(h) && ParseUnsigned(words[2], 255) == Some(m)
    case StopAt(h, m) =>
      words[0] == "stop" && ParseUnsigned(words[1], 255) == Some(h) && ParseUnsigned(words[2], 255) == Some(m)
    case StopIn(m) => words[0] == "stopin" && ParseUnsigned(words[1], 65535) == Some(m)
  }

  /** Words that say choices one after the other. */
  predicate AllSay(words: seq<string>, cs: seq<Choice>)
    decreases |cs|
  {
    if cs == [] then words == []
    else |words| >= Size(cs[0]) && Says(words[..Size(cs[0])], cs[0]) && AllSay(words[Size(cs[0])..], cs[1..])
  }

  lemma ApartSays(c: Choice)
    requires Valid(c)
    ensures |Apart(c)| == Size(c) && Says(Apart(c), c)
  {
    hide Decimal, WideVaneToken, ParseUnsigned;
    match c
    case StartAt(h, m) => DecimalRoundTrip(h, 255); DecimalRoundTrip(m, 255);
    case StopAt(h, m) => DecimalRoundTrip(h, 255); DecimalRoundTrip(m, 255);
    case StopIn(m) => DecimalRoundTrip(m, 65535);
    case _ =>
  }

  lemma {:induction false} AllApartSay(cs: seq<Choice>)
    requires AllValid(cs)
    ensures AllSay(AllApart(cs), cs)
    decreases |cs|
  {
    hide Apart, Says, Size, Valid;
    if cs != [] {
      ApartSays(cs[0]);
      AllApartSay(cs[1..]);
      var words := Apart(cs[0]) + AllApart(cs[1..]);
      assert words[..Size(cs[0])] == Apart(cs[0]) && words[Size(cs[0])..] == AllApart(cs[1..]);
    }
  }

  lemma SwitchIsParsed(c: Choice, tokens: seq<string>, state: State)
    requires (c.Econo? || c.ISee? || c.Timer?) && |tokens| >= 2 && Says(tokens[..2], c)
    ensures Valid(c) && ParseOption(tokens, state) == Ok((Chosen(c, state), 2))
  {
    assert tokens[0] == tokens[..2][0] && tokens[1] == tokens[..2][1] == OnOff(c.on);
    assert "on" != "off";
  }

  lemma TimeIsParsed(c: Choice, tokens: seq<string>, state: State)
    requires Valid(c) && (c.StartAt? || c.StopAt?) && |tokens| >= 3 && Says(tokens[..3], c)
    ensures ParseOption(tokens, state) == Ok((Chosen(c, state), 3))
  {
    hide ParseUnsigned;
    assert tokens[0] == tokens[..3][0] && tokens[1] == tokens[..3][1] && tokens[2] == tokens[..3][2];
  }

  lemma DelayIsParsed(c: Choice, tokens: seq<string>, state: State)
    requires Valid(c) && c.StopIn? && |tokens| >= 2 && Says(tokens[..2], c)
    ensures ParseOption(tokens, state) == Ok((Chosen(c, state), 2))
  {
    hide ParseUnsigned;
    assert tokens[0] == tokens[..2][0] && tokens[1] == tokens[..2][1];
  }

  lemma OneOption(tokens: seq<string>, state: State)
    requires tokens != [] && ParseOption(tokens, state).Ok?
    ensures var taken := ParseOption(tokens, state).value;
            ParseOptions(tokens, state) == ParseOptions(tokens[taken.1..], taken.0)
  {
    hide ParseOption;
  }

  /** Words that say a choice are read as that choice, whatever follows. */
  lemma SaidIsParsed(c: Choice, tokens: seq<string>, state: State)
    requires Valid(c) && |tokens| >= Size(c) && Says(tokens[..Size(c)], c)
    requires |tokens| == Size(c) || tokens[Size(c)] != "max"
    ensures ParseOptions(tokens, state) == ParseOptions(tokens[Size(c)..], Chosen(c, state))
  {
    var rest := tokens[Size(c)..];
    assert tokens == tokens[..Size(c)] + rest;
    if c.WideTo? {
      WideIsParsed(c.wide, rest, state);
    } else {
      hide ParseOption, ParseOptions, Chosen, Says;
      match c {
        case StartAt(_, _) => TimeIsParsed(c, tokens, state);
        case StopAt(_, _) => TimeIsParsed(c, tokens, state);
        case StopIn(_) => DelayIsParsed(c, tokens, state);
        case _ => SwitchIsParsed(c, tokens, state);
      }
      OneOption(tokens, state);
    }
  }

  /** No choice is said by words that start with `max`. */
  lemma NeverMax(words: seq<string>, cs: seq<Choice>)
    requires AllSay(words, cs)
    ensures words == [] || words[0] != "max"
  {
    if cs != [] {
      assert words[..Size(cs[0])][0] == words[0];
    }
  }

  lemma {:induction false} AllSaidIsParsed(tokens: seq<string>, cs: seq<Choice>, state: State)
    requires AllValid(cs) && AllSay(tokens, cs)
    ensures ParseOptions(tokens, state) == Ok(AllChosen(cs, state))
    decreases |cs|
  {
    hide ParseOption, Chosen, Says, Size, Valid;
    if cs != [] {
      var n := Size(cs[0]);
      NeverMax(tokens[n..], cs[1..]);
      SaidIsParsed(cs[0], tokens, state);
      AllSaidIsParsed(tokens[n..], cs[1..], Chosen(cs[0], state));
    }
  }

  /** An option that is accepted is a valid choice, and its words say it. */
  lemma OptionSays(tokens: seq<string>, state: State) returns (c: Choice)
    requires Plain(tokens) && tokens != [] && ParseOption(tokens, state).Ok?
    ensures Valid(c) && |tokens| >= Size(c) && Says(tokens[..Size(c)], c)
    ensures ParseOption(tokens, state) == Ok((Chosen(c, state), Size(c)))
  {
    hide ParseUnsigned, WideVaneOfToken;
    var name := tokens[0];
    if name == "wide" {
      c := WideSays(tokens, state);
    } else if name == "start" || name == "stop" {
      var h, m := ParseUnsigned(tokens[1], 255).value, ParseUnsigned(tokens[2], 255).value;
      c := if name == "start" then StartAt(h, m) else StopAt(h, m);
    } else if name == "stopin" {
      c := StopIn(ParseUnsigned(tokens[1], 65535).value);
    } else {
      var on := tokens[1] == "on";
      c := if name == "econo" then Econo(on) else if name == "isee" then ISee(on) else Timer(on);
    }
  }

  /** A wide vane's word is its own. */
  lemma WideWord(token: string)
    requires WideVaneOfToken(token).Some?
    ensures WideVaneToken(WideVaneOfToken(token).value) == token
  {
    WideTokensAre(LeftMax);
    WideTokensAre(Left);
    WideTokensAre(Center);
    WideTokensAre(Right);
    WideTokensAre(RightMax);
    WideTokensAre(Wide);
    WideTokensAre(AutoWide);
    hide WideVaneToken;
    OneOfTheSeven(token);
  }

  lemma OneOfTheSeven(token: string)
    requires WideVaneOfToken(token).Some?
    ensures token == match WideVaneOfToken(token).value
                     case LeftMax => "left-max" case Left => "left" case Center => "center" case Right => "right"
                     case RightMax => "right-max" case Wide => "wide" case AutoWide => "auto"
  {
    WordOfEntry(WIDE_VANES, token);
  }

  lemma {:induction false} WordOfEntry<T(!new)>(table: seq<Entry<T>>, token: string)
    requires FromToken(table, token).Some?
    ensures exists e :: e in table && e.token == token && e.value == FromToken(table, token).value
  {
    if table[0].token == token {
      assert table[0] in table;
    } else {
      WordOfEntry(table[1..], token);
      var e :| e in table[1..] && e.token == token && e.value == FromToken(table[1..], token).value;
      assert e in table;
    }
  }

  lemma WideSays(tokens: seq<string>, state: State) returns (c: Choice)
    requires Plain(tokens) && tokens != [] && tokens[0] == "wide" && ParseOption(tokens, state).Ok?
    ensures Valid(c) && |tokens| >= Size(c) && Says(tokens[..Size(c)], c)
    ensures ParseOption(tokens, state) == Ok((Chosen(c, state), Size(c)))
  {
    hide WideVaneOfToken, WideVaneToken;
    var r := ParseWide(tokens).value;
    c := WideTo(r.0);
    if r.1 == 3 {
      WideWord(if tokens[1] == "left" then "left-max" else "right-max");
      WideTokensAre(r.0);
    } else {
      WideWord(tokens[1]);
      WideTokensAre(r.0);
      assert DASH !in tokens[1] && DASH in "left-max" && DASH in "right-max";
    }
  }

  lemma {:induction false} OptionsSay(tokens: seq<string>, state: State) returns (cs: seq<Choice>)
    requires Plain(tokens) && ParseOptions(tokens, state).Ok?
    ensures AllValid(cs) && AllSay(tokens, cs) && ParseOptions(tokens, state) == Ok(AllChosen(cs, state))
    decreases |tokens|
  {
    hide ParseOption, Chosen, Says, Valid;
    if tokens == [] {
      cs := [];
    } else {
      var c := OptionSays(tokens, state);
      OneOption(tokens, state);
      var n := Size(c);
      hide Size;
      var rest := OptionsSay(tokens[n..], Chosen(c, state));
      cs := [c] + rest;
      assert cs[1..] == rest;
    }
  }

  /** No piece of a split holds a dash. */
  predicate Plain(tokens: seq<string>) {
    forall i :: 0 <= i < |tokens| ==> DASH !in tokens[i]
  }

  lemma {:induction false} PiecesArePlain(s: string)
    ensures Plain(Split(s))
  {
    if s != "" {
      PiecesArePlain(s[1..]);
    }
  }

  lemma ChoiceSplits(c: Choice)
    ensures Pieces(Words(c)) == Apart(c)
  {
    hide Split, Pieces, Decimal, WideVaneToken;
    if c.WideTo? {
      WidePartsSplit(Some(c.wide));
    } else {
      PlainWords(c);
      PiecesWithoutDash(Words(c));
    }
  }

  lemma PlainWords(c: Choice)
    requires !c.WideTo?
    ensures forall i :: 0 <= i < |Words(c)| ==> DASH !in Words(c)[i]
  {
    hide Decimal;
    match c
    case StartAt(h, m) => DecimalRoundTrip(h, 255); DecimalRoundTrip(m, 255);
    case StopAt(h, m) => DecimalRoundTrip(h, 255); DecimalRoundTrip(m, 255);
    case StopIn(m) => DecimalRoundTrip(m, 255);
    case _ =>
  }

  lemma {:induction false} ChoicesSplit(cs: seq<Choice>)
    ensures Pieces(AllWords(cs)) == AllApart(cs)
  {
    hide Words, Apart, Pieces;
    if cs == [] {
      NoPieces();
    } else {
      ChoicesSplit(cs[1..]);
      ChoiceSplits(cs[0]);
      PiecesOfSum(Words(cs[0]), AllWords(cs[1..]));
    }
  }

  // ---------- a command with options ----------

  /** The mode, temperature, fan and vane of `s`, then the choices. */
  function Spoken(s: Settings, cs: seq<Choice>): string {
    Join(HeadParts(s) + AllWords(cs))
  }

  function HeadOf(s: Settings): State {
    DEFAULT.(mode := s.mode, temperature := s.temperature, fan := s.fan, vane := s.vane)
  }

  lemma SpokenSplits(s: Settings, cs: seq<Choice>)
    ensures Split(Spoken(s, cs)) == HeadParts(s) + AllApart(cs)
  {
    hide Split, Join, Pieces, ModeToken, FanToken, VaneToken, Decimal, AllWords, AllApart;
    SplitOfJoin(HeadParts(s) + AllWords(cs));
    PiecesOfSum(HeadParts(s), AllWords(cs));
    ChoicesSplit(cs);
    ModeTokensArePlain(s.mode);
    FanTokensArePlain(s.fan);
    VaneTokensArePlain(s.vane);
    DecimalRoundTrip(s.temperature, 255);
    PiecesWithoutDash(HeadParts(s));
  }

  lemma SpokenIsACommand(s: Settings, cs: seq<Choice>)
    ensures PREFIX <= Spoken(s, cs) && Spoken(s, cs) != OFF_COMMAND
  {
    hide Split, Join, AllWords, AllApart, ModeToken, FanToken, VaneToken, Decimal;
    SpokenSplits(s, cs);
    NotTheOffCommand(Spoken(s, cs));
    FirstWord(HeadParts(s) + AllWords(cs));
    assert PREFIX == "state" + [DASH];
  }

  lemma FirstWord(parts: seq<string>)
    requires |parts| > 1
    ensures parts[0] + [DASH] <= Join(parts)
  {
  }

  /** A spoken command is parsed to the head's settings, every choice applied in order. */
  lemma SpokenIsParsed(s: Settings, cs: seq<Choice>)
    requires 16 <= s.temperature <= 31 && AllValid(cs)
    ensures ParseState(Spoken(s, cs)) == Ok(Finish(AllChosen(cs, HeadOf(s))))
  {
    hide Split, Spoken, HeadParts, AllApart, ParseHead, ParseOptions, AllChosen, Finish;
    SpokenIsACommand(s, cs);
    SpokenSplits(s, cs);
    FirstIsState(s);
    var tokens := HeadParts(s) + AllApart(cs);
    assert tokens[..7] == HeadParts(s) && tokens[7..] == AllApart(cs) && tokens[0] == HeadParts(s)[0];
    HeadIsParsed(s, tokens);
    AllApartSay(cs);
    AllSaidIsParsed(AllApart(cs), cs, HeadOf(s));
  }

  lemma FirstIsState(s: Settings)
    ensures HeadParts(s)[0] == "state"
  {
    hide ModeToken, FanToken, VaneToken, Decimal;
  }

  /** Whatever text is accepted, `state-off` apart, says a mode, a temperature, a fan and a vane, and then
      valid choices and nothing else: it means what the command spoken with them means. */
  lemma AcceptedIsSpoken(command: string) returns (s: Settings, cs: seq<Choice>)
    requires ParseState(command).Ok? && command != "state-off"
    ensures 16 <= s.temperature <= 31 && AllValid(cs)
    ensures |Split(command)| >= 7 && HeadSays(Split(command)[..7], s) && AllSay(Split(command)[7..], cs)
    ensures ParseState(command) == ParseState(Spoken(s, cs))
  {
    hide ParseOptions, Finish, Spoken, AllChosen, AllSay, AllValid, Split;
    var tokens := Split(command);
    PiecesArePlain(command);
    s := HeadIsSaid(tokens);
    cs := OptionsSay(tokens[7..], ParseHead(tokens).value);
    SpokenIsParsed(s, cs);
  }

  /** Seven words that say the head of a command. */
  predicate HeadSays(words: seq<string>, s: Settings) {
    |words| == 7 && words[0] == "state" && ModeOfToken(words[1]) == Some(s.mode)
    && ParseUnsigned(words[2], 255) == Some(s.temperature) && words[3] == "fan" && FanOfToken(words[4]) == Some(s.fan)
    && words[5] == "vane" && VaneOfToken(words[6]) == Some(s.vane)
  }

  lemma HeadIsSaid(tokens: seq<string>) returns (s: Settings)
    requires |tokens| >= 7 && tokens[0] == "state" && ParseHead(tokens).Ok?
    ensures 16 <= s.temperature <= 31 && HeadSays(tokens[..7], s) && ParseHead(tokens).value == HeadOf(s)
  {
    hide ModeOfToken, FanOfToken, VaneOfToken, ParseUnsigned;
    var state := ParseHead(tokens).value;
    s := Settings(state.mode, state.temperature, state.fan, state.vane, None, false, None);
  }

  /** The words of a command are accepted exactly when they say a head within 16 to 31 °C and then
      valid choices. */
  lemma AcceptedIff(command: string)
    requires command != "state-off"
    ensures ParseState(command).Ok?
            <==> (&& |Split(command)| >= 7
                  && exists s: Settings, cs: seq<Choice> ::
                       (&& 16 <= s.temperature <= 31 && AllValid(cs)
                        && HeadSays(Split(command)[..7], s) && AllSay(Split(command)[7..], cs)))
  {
    hide Split, AllValid, AllSay, HeadSays, ParseHead, ParseOptions;
    var tokens := Split(command);
    if ParseState(command).Ok? {
      var s, cs := AcceptedIsSpoken(command);
    }
    if |tokens| >= 7 {
      if s: Settings, cs: seq<Choice> :| (&& 16 <= s.temperature <= 31 && AllValid(cs)
                                          && HeadSays(tokens[..7], s) && AllSay(tokens[7..], cs)) {
        SaidHeadIsParsed(tokens, s);
        AllSaidIsParsed(tokens[7..], cs, HeadOf(s));
      }
    }
  }

  lemma SaidHeadIsParsed(tokens: seq<string>, s: Settings)
    requires |tokens| >= 7 && 16 <= s.temperature <= 31 && HeadSays(tokens[..7], s)
    ensures tokens[0] == "state" && ParseHead(tokens) == Ok(HeadOf(s))
  {
    hide ModeOfToken, FanOfToken, VaneOfToken, ParseUnsigned;
    var head := tokens[..7];
    assert tokens[0] == head[0] && tokens[1] == head[1] && tokens[2] == head[2] && tokens[3] == head[3];
    assert tokens[4] == head[4] && tokens[5] == head[5] && tokens[6] == head[6];
  }

  // ---------- the last word on each setting ----------

  function LastWide(cs: seq<Choice>): WideVane {
    if cs == [] then Center
    else
      var last := cs[|cs| - 1];
      if last.WideTo? then last.wide else LastWide(cs[..|cs| - 1])
  }

  function LastEcono(cs: seq<Choice>): bool {
    if cs == [] then false
    else
      var last := cs[|cs| - 1];
      if last.Econo? then last.on else LastEcono(cs[..|cs| - 1])
  }

  function LastISee(cs: seq<Choice>): bool {
    if cs == [] then false
    else
      var last := cs[|cs| - 1];
      if last.ISee? then last.on else LastISee(cs[..|cs| - 1])
  }

  /** The last start said, unless the timer was switched off since. */
  function LastStart(cs: seq<Choice>): Option<byte>
    requires AllValid(cs)
  {
    if cs == [] then None
    else match cs[|cs| - 1]
      case StartAt(h, m) => Some(6 * h + m / 10)
      case Timer(false) => None
      case _ => LastStart(cs[..|cs| - 1])
  }

  function LastStop(cs: seq<Choice>): Option<byte>
    requires AllValid(cs)
  {
    if cs == [] then None
    else match cs[|cs| - 1]
      case StopAt(h, m) => Some(6 * h + m / 10)
      case Timer(false) => None
      case _ => LastStop(cs[..|cs| - 1])
  }

  function LastDelay(cs: seq<Choice>): Option<byte>
    requires AllValid(cs)
  {
    if cs == [] then None
    else match cs[|cs| - 1]
      case StopIn(m) => Some(m / 10)
      case Timer(false) => None
      case _ => LastDelay(cs[..|cs| - 1])
  }

  lemma {:induction false} ChosenLast(cs: seq<Choice>, c: Choice, state: State)
    requires AllValid(cs) && Valid(c)
    ensures AllValid(cs + [c]) && AllChosen(cs + [c], state) == Chosen(c, AllChosen(cs, state))
    decreases |cs|
  {
    hide Chosen, Valid;
    var more := cs + [c];
    if cs == [] {
      assert more[1..] == [];
    } else {
      assert more[1..] == cs[1..] + [c] && more[0] == cs[0];
      ChosenLast(cs[1..], c, Chosen(cs[0], state));
    }
  }

  /** Each setting holds its last word, and nothing else moved from the head. */
  predicate HoldsLastWords(cs: seq<Choice>, head: State, t: State)
    requires AllValid(cs)
  {
    && t.wideVane == LastWide(cs) && t.ecocool == LastEcono(cs) && t.iSee == LastISee(cs)
    && t.startClock == LastStart(cs) && t.stopClock == LastStop(cs) && t.stopInTicks == LastDelay(cs)
    && t.timerMode == NoTimer && t.power == head.power && t.mode == head.mode
    && t.temperature == head.temperature && t.fan == head.fan && t.vane == head.vane
  }

  lemma OneMoreWord(cs: seq<Choice>, c: Choice, head: State, t: State)
    requires AllValid(cs) && Valid(c) && HoldsLastWords(cs, head, t)
    ensures AllValid(cs + [c]) && HoldsLastWords(cs + [c], head, Chosen(c, t))
  {
    hide Valid, LastWide, LastEcono, LastISee, LastStart, LastStop, LastDelay;
    LastSettings(cs, c);
    LastClocks(cs, c);
  }

  lemma LastSettings(cs: seq<Choice>, c: Choice)
    ensures LastWide(cs + [c]) == (if c.WideTo? then c.wide else LastWide(cs))
    ensures LastEcono(cs + [c]) == (if c.Econo? then c.on else LastEcono(cs))
    ensures LastISee(cs + [c]) == (if c.ISee? then c.on else LastISee(cs))
  {
    var more := cs + [c];
    assert more[..|more| - 1] == cs && more[|more| - 1] == c;
  }

  lemma LastClocks(cs: seq<Choice>, c: Choice)
    requires AllValid(cs) && Valid(c)
    ensures AllValid(cs + [c])
    ensures LastStart(cs + [c])
         == (match c case StartAt(h, m) => Some(6 * h + m / 10) case Timer(false) => None case _ => LastStart(cs))
    ensures LastStop(cs + [c])
         == (match c case StopAt(h, m) => Some(6 * h + m / 10) case Timer(false) => None case _ => LastStop(cs))
    ensures LastDelay(cs + [c])
         == (match c case StopIn(m) => Some(m / 10) case Timer(false) => None case _ => LastDelay(cs))
  {
    hide Valid;
    var more := cs + [c];
    assert more[..|more| - 1] == cs && more[|more| - 1] == c;
  }

  lemma {:induction false} LastWords(cs: seq<Choice>, s: Settings)
    requires AllValid(cs)
    ensures HoldsLastWords(cs, HeadOf(s), AllChosen(cs, HeadOf(s)))
    decreases |cs|
  {
    hide HoldsLastWords, Valid, Chosen;
    if cs == [] {
      NoWords(s);
    } else {
      var before, last := cs[..|cs| - 1], cs[|cs| - 1];
      assert before + [last] == cs;
      LastWords(before, s);
      ChosenLast(before, last, HeadOf(s));
      OneMoreWord(before, last, HeadOf(s), AllChosen(before, HeadOf(s)));
    }
  }

  lemma NoWords(s: Settings)
    ensures HoldsLastWords([], HeadOf(s), HeadOf(s))
  {
  }

  // ---------- what the unit hears ----------

  /** Which clocks count: the timer the unit is told says exactly whether a start and a stop are set. */
  function TimerOf(start: bool, stop: bool): TimerMode {
    if start && stop then StartStop else if start then Start else if stop then Stop else NoTimer
  }

  /** The last word on each setting, powered on. A stop delay, when one is left, counts from the
      unit's clock around midnight and hides the stop clock. */
  function LastHeard(s: Settings, cs: seq<Choice>, clock: byte): ReadBack
    requires AllValid(cs)
  {
    ReadBack(
      true, Some(s.mode), LastISee(cs), 2 * (s.temperature - 16), Some(s.fan), Some(s.vane), Some(LastWide(cs)), clock,
      match LastDelay(cs) case Some(ticks) => (clock + ticks) % 144 case None => OrZero(LastStop(cs)),
      OrZero(LastStart(cs)),
      Some(TimerOf(LastStart(cs).Some?, LastStop(cs).Some? || LastDelay(cs).Some?)),
      s.mode == Cool && LastEcono(cs))
  }

  /** A command with any valid choices in any order: the unit hears it powered on, with the last word
      on each setting, and the timer says exactly which of start and stop is set. */
  lemma SpokenIsHeard(s: Settings, cs: seq<Choice>, clock: byte)
    requires 16 <= s.temperature <= 31 && AllValid(cs)
    ensures var r := EncodedCommand(Spoken(s, cs), clock);
            r.Ok? && r.value.Some? && HeardTwice(r.value.value, LastHeard(s, cs, clock))
  {
    hide ParseState, Spoken, HeardTwice, EncodedCommand, AllChosen, LastHeard;
    SpokenIsParsed(s, cs);
    SpokenIsACommand(s, cs);
    LastWords(cs, s);
    CommandIsHeard(Spoken(s, cs), clock);
    SaidIsLastHeard(s, cs, AllChosen(cs, HeadOf(s)), clock);
  }

  lemma SaidIsLastHeard(s: Settings, cs: seq<Choice>, t: State, clock: byte)
    requires AllValid(cs) && HoldsLastWords(cs, HeadOf(s), t)
    ensures Said(Resolve(Finish(t), clock)) == LastHeard(s, cs, clock)
  {
    hide LastWide, LastEcono, LastISee, LastStart, LastStop, LastDelay;
  }

  /** A text that does not start with `state-` is none of this unit's and gives nothing; the others give
      a packet or a refusal, as they are accepted or not. */
  lemma OnlyStateCommands(command: string, clock: byte)
    ensures EncodedCommand(command, clock) == Ok(None) <==> !("state-" <= command)
    ensures EncodedCommand(command, clock).Err? <==> "state-" <= command && ParseState(command).Err?
  {
    hide ParseState, StateBytes;
  }

  /** There are settings to read in every command accepted but `state-off`, which carries none. */
  lemma SettingsIff(command: string)
    ensures ParseSettings(command).Some?
            <==> command != "state-off" && "state-" <= command && ParseState(command).Ok?
  {
    hide ParseState, SettingsOf;
  }

  /** Switching off: the one command heard with the power off. */
  lemma OffIsHeard(clock: byte)
    ensures var r := EncodedCommand("state-off", clock);
            && r.Ok? && r.value.Some?
            && HeardTwice(r.value.value,
                 ReadBack(false, Some(Cool), false, 0, Some(Level4), Some(Swing), Some(Center), clock, 0, 0,
                          Some(NoTimer), false))
  {
    hide HeardTwice, EncodedCommand, Split;
    CommandIsHeard("state-off", clock);
  }

  lemma {:induction false} OptionsKeepThePower(tokens: seq<string>, state: State)
    ensures ParseOptions(tokens, state).Ok? ==> ParseOptions(tokens, state).value.power == state.power
    decreases |tokens|
  {
    if tokens != [] && ParseOption(tokens, state).Ok? {
      var taken := ParseOption(tokens, state).value;
      OptionKeepsThePower(tokens, state);
      hide ParseOption;
      OptionsKeepThePower(tokens[taken.1..], taken.0);
    }
  }

  lemma OptionKeepsThePower(tokens: seq<string>, state: State)
    requires tokens != []
    ensures ParseOption(tokens, state).Ok? ==> ParseOption(tokens, state).value.0.power == state.power
  {
    hide ParseWide, ParseClock, ParseUnsigned;
  }

  /** Whatever command is accepted, it switches the unit off exactly when it is `state-off`. */
  lemma OnlyOffSwitchesOff(command: string)
    requires ParseState(command).Ok?
    ensures !ParseState(command).value.power <==> command == "state-off"
  {
    hide ParseOptions, Split, ModeOfToken, FanOfToken, VaneOfToken, ParseUnsigned;
    var tokens := Split(command);
    if command != "state-off" {
      OptionsKeepThePower(tokens[7..], ParseHead(tokens).value);
    }
  }
}
