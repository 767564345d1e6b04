# Maison, modelled

Dafny models of the logic of a home server, with proofs of what it promises: the Tempo season
engine and its forecast, the regression that fits it, the infrared codecs of an air conditioner and
a television, the wire protocols of an Android TV remote and of ADB, and the state machines of
refresh tokens, rate limits and accounts. `dafny verify dfyconfig.toml` checks everything.

| files | what they model |
|---|---|
| `Calendar`, `Easter`, `Tempo*` | the Gregorian calendar and the computus; the day rules; whole seasons, freezing and mild ones; the running stock against the recomputed one; the Monte Carlo draws and counts; the week shown |
| `Vectors`, `LinearSolve`, `LeastSquares` | Gaussian elimination with partial pivoting, in place, and the ridge regression on it |
| `Broadlink`, `Mitsubishi`, `MitsubishiFrames`, `MitsubishiWire`, `Text`, `ClimateCommand`, `ClimateCodec`, `ClimateOptions`, `Rc5` | command text, settings and options, state bytes and their checksum, pulses, packet, and back; the bi-phase code of the television |
| `Protobuf`, `RemoteAnswers`, `RemoteReplies`, `RemoteSession`, `RemoteProgress`, `RemoteOrder` | varints, fields and frames; the answers to the television and what it reads in them; the session's tasks as steps, and what they come to |
| `Words`, `AdbMessage`, `AdbPush`, `AdbBox`, `AdbKey` | ADB headers, the re-chunking of an upload and what the box makes of it, the numbers of the public key |
| `Tokens`, `LiveTokens`, `Limiter`, `Book`, `BookEdits`, `Invitations` | rotating refresh tokens, attempts per address, people with their passkeys and invitations, edit by edit and over time |
| `Arithmetic`, `Bytes` | division, powers of two, machine integers, options and results |

Code that changes things step by step is a method or a class here, each proved against a function;
the theorems are about those functions. Seasons, sessions, tokens, attempts and edits are followed
over whole runs.

## Where the code does less than it says

- A simulation that crosses 31 August carries the old season's stock into the new one. It agrees with
  the recomputed stock only if nothing was spent before and the day is a Sunday, or there is no white
  to force.
- A duration under 17 µs rounds to no tick, and its byte reads as the escape. Packets read back exactly
  when no duration is that short. No duration sent is. Past 2 152 185 µs the ticks saturate.
- The comment on the varint decoder refuses "more than 64 bits". It also refuses short values padded
  past ten bytes.
- `Limiter::hit` asks and counts under two locks, and `check` and `fail` are further apart. Callers
  that overlap pass the limit, by their number less one. A limit of zero lets one attempt through.
- The seconds the limiter answers are rounded down, so waiting them is not always enough.
- `add_passkey` does not look for the person: added for someone removed meanwhile, a passkey is left with
  no person. `redeem_invite` trusts its caller to pass the invited person's passkey.
- A replayed token ends the tokens of its family that are live then. A rotation begun before it and not
  yet finished (`backend/src/routes/auth.rs:114-126` awaits between the two) inserts a live one after it.
- A refresh token is forgotten at its expiry, so a clock that steps back can turn a good token unknown.

The holidays are modelled for years from 0 on; the truncating remainders of `easter` may name no day
in an earlier one, as they do in year -2.

## Model

| member | source | states |
|---|---|---|
| TempoYear.EverySeasonPlacesItsDays | backend/src/tempo/rules.rs:287-304 | every season from year 0 on, whatever the net consumption of its days: exactly 22 reds, 43 whites and the blue days `blue_days` counts, each colour on a day the calendar allows, never more than five reds in a row |
| TempoYear.QuotasPlacedIffRoom | backend/src/tempo/rules.rs:287-304 | for any quotas: every weather keeps the season's rules if and only if the winter has that many red-allowed days and the days after the last of them that many white-allowed ones |
| TempoYear.SeasonKeepsTheRules | backend/src/tempo/rules.rs:261-304 | the same season rules for any quotas the calendar has room for |
| TempoYear.RoomInEverySeason | backend/src/tempo/rules.rs:183-192 | every winter has at least 55 red-allowed days, and every summer at least 131 white-allowed ones, whatever the weekday of 1 September, leap days and Easter |
| TempoYear.ListEndsTheSeason | backend/src/tempo/rules.rs:261-274 | the rules computed day by day count what is left: `red_left` and `white_left` of a day are the allowed days from it to the end of their period, and a red-allowed day is a working day |
| TempoYear.MidWinterIsMostlyRedAllowed | backend/src/tempo/rules.rs:168-187 | from any day of mid-winter, seven times the red-allowed days left lag five times the days by the weekday's slack at most |
| TempoYear.HolidaysOfAYear | backend/src/tempo/rules.rs:168-175 | a date is a holiday if and only if it is one of the eight fixed ones or 1, 39 or 50 days after Easter Sunday |
| TempoYear.MovingHolidaysAreWeekdays | backend/src/tempo/rules.rs:168-175 | the moving holidays are a Monday or a Thursday, and none falls before 23 March |
| TempoSeason.ColderIsNeverCheaper | backend/src/tempo/rules.rs:287-304 | a higher net consumption never gives a cheaper colour, forced days included |
| TempoSeason.RedsPlaced | backend/src/tempo/rules.rs:232-304 | from any weekday with a run that fits it, the reds placed by the end are the stock, or every red-allowed day when those are fewer |
| TempoYear.CapDecidesNoSeason | backend/src/tempo/rules.rs:287-298 | every season, for any quotas and weather, has the colours of a rule without the cap of five: it never blocks a red |
| TempoSeason.CapDecidesNothing | backend/src/tempo/rules.rs:287-298 | the same from any weekday with a run that fits it, to the end of the season |
| TempoYear.ColderSeasonIsRedNoLater | backend/src/tempo/rules.rs:276-304 | a season colder on every day has, by any of its days, had at least as many reds |
| TempoSeason.ColderLeavesFewerReds | backend/src/tempo/rules.rs:276-304 | from two stocks in the middle of a season: with no more reds left and days at least as cold, no more are left after any of them |
| TempoWeather.ADateFollowsTheCold | backend/src/tempo/rules.rs:276-304 | a date with stock under its days left is red if and only if it may be, no run of five blocks it and 1000·x is above 3150 − 10·place − 31·reds, and otherwise white if and only if it may be and 1000·x is above 4000 − 15·place − 26·(reds + whites), its place counted from 1 on 1 September |
| TempoWeather.AClosedDateIsForced | backend/src/tempo/rules.rs:287-294 | a date whose days left are no more than the stock takes that colour in any weather |
| TempoWeather.RedAllowedIff | backend/src/tempo/rules.rs:178-193 | red is allowed exactly on the weekdays from 1 November to 31 March that are no holiday |
| TempoWeather.FreezingSeasonTakesTheFirstDays | backend/src/tempo/rules.rs:287-304 | every season whose readings are all above 4, for any quotas: red on exactly the first red-allowed days, white on exactly the first white-allowed days red does not take |
| TempoWeather.MildSeasonTakesTheLastDays | backend/src/tempo/rules.rs:287-304 | every season never above the lines of its full stock: red on exactly the last red-allowed days, and with room white on exactly the last white-allowed ones |
| TempoSeason.FreezingSeason | backend/src/tempo/rules.rs:287-304 | the same from any weekday, run and stock in the middle of a season |
| TempoSeason.MildSeason | backend/src/tempo/rules.rs:287-304 | the reds of a mild season from any weekday, run and stock |
| TempoSeason.MildWhites | backend/src/tempo/rules.rs:287-304 | its whites |
| TempoSeason.WhitesPlacedIffRoom | backend/src/tempo/rules.rs:287-304 | a white stock is placed whole in every weather if and only if it fits the white-allowed days after the last red-allowed one |
| TempoSeason.WhitesLost | backend/src/tempo/rules.rs:294-303 | without that room, a mild season leaves white days unplaced |
| TempoSeason.ColoursAreLegal | backend/src/tempo/rules.rs:287-304 | each colour of a run lies on a day that allows it |
| TempoSeason.NeverMoreThanTheStock | backend/src/tempo/rules.rs:232-244 | no run spends more reds or whites than its stock |
| TempoSeason.RunsAreCapped | backend/src/tempo/rules.rs:287-298 | no run of reds exceeds five, for any list of days |
| TempoSeason.NeverSixReds | backend/src/tempo/rules.rs:287-298 | of six days in a row one at least is not red, for any list of days and any weather |
| TempoRules.Stock.Take | backend/src/tempo/rules.rs:232-244 | the stock after a day: one fewer of its colour but never below zero, and the run of reds longer or over |
| TempoRules.Stock.Before | backend/src/tempo/rules.rs:218-229 | the fold over the season's known days before a day, and the reds counted back from it without a gap, five at most |
| TempoHistory.RunningStockIsRecomputed | backend/src/tempo/rules.rs:218-244 | deciding a day and taking its colour gives the stock recomputed from the history that has it, run included, within a season |
| TempoHistory.RunRefinesHistory | backend/src/tempo/forecast.rs:258-271 | from any day to the end of its season, carrying the stock gives the colours of recomputing it each morning |
| TempoHistory.StocksPartAtTheSeasonsEnd | backend/src/tempo/forecast.rs:258-271 | across 31 August the carried stock is the recomputed one if and only if nothing was spent before that day and it is a Sunday or the season has no white days |
| TempoHistory.OneRedPartsTheStocks | backend/src/tempo/forecast.rs:258-271 | one red day in December is enough for the stocks of September 2026 to differ, whatever the weather of 31 August |
| TempoHistory.NewSeasonStartsFull | backend/src/tempo/rules.rs:218-229 | a history with no day of the season yet leaves the full quotas and no run |
| Easter.EasterIsTheSundayAfterTheFullMoon | backend/src/tempo/rules.rs:153-165 | from year 0 on the date is a Sunday, the first after the paschal full moon |
| Easter.EasterWindow | backend/src/tempo/rules.rs:153-165 | it falls from 22 March to 25 April |
| Easter.MoonTermIsTheEpact | backend/src/tempo/rules.rs:153-165 | the term the computus takes from its centuries is the epact's, lunar and solar corrections included: the full moon is not defined by the code's own formula |
| Easter.NoEasterInYearMinusTwo | backend/src/tempo/rules.rs:153-165 | outside its domain, in year -2, the computus names 31 February |
| Calendar.NextIsOneDayLater | backend/src/tempo/rules.rs:264-266 | the next calendar day is one day number and one weekday later, over every month and year end |
| TempoForecast.Simulate | backend/src/tempo/forecast.rs:258-275 | each day's probabilities are the shares of the runs that gave it each colour, each run decided with its own stock and correlated errors |
| TempoForecast.SharesOfADay | backend/src/tempo/forecast.rs:258-275 | they add up to one when anything was drawn, and are zero for a colour the calendar forbids |
| TempoForecast.CountsSumToTheRuns | backend/src/tempo/forecast.rs:258-275 | each day's three counts add up to the runs |
| TempoForecast.ForbiddenColoursAreNeverCounted | backend/src/tempo/forecast.rs:258-275 | a colour the calendar forbids is never counted, so every Sunday is blue in all the runs |
| TempoForecast.CountsRespectTheStock | backend/src/tempo/forecast.rs:258-275 | over all the days the red counts are at most the runs times the red stock, and the white counts likewise |
| TempoDraws.DrawnInClosedForm | backend/src/tempo/forecast.rs:258-270 | day i of a run is its expectation plus its error times ρ^i of the first draw and the new weight of each later one faded since |
| TempoDraws.ADrawDecides | backend/src/tempo/forecast.rs:258-275 | whatever the other draws, on a day open to red whose error counts one draw makes it red and another does not |
| TempoForecast.Likeliest | backend/src/tempo/forecast.rs:278-286 | no colour is likelier, and on a tie the dearer one is taken |
| TempoOutlook.Outlook | backend/src/tempo/mod.rs:264-324 | consecutive days from J+1: the published ones without a gap, for sure; then as many as the weather covers, with the shares of the simulated runs, the likeliest colour and the backtest score of the forecast's age; no note exactly when J+7 is reached, and otherwise the right one |
| TempoOutlook.Published | backend/src/tempo/mod.rs:272-290 | the published days, as far as they reach without a gap |
| TempoOutlook.DaysAhead | backend/src/tempo/mod.rs:295-304 | the days to simulate stop at the first without weather, and each error is that of the forecast's age |
| TempoOutlook.AheadIsOfItsDay | backend/src/tempo/mod.rs:295-304 | each day simulated has the net consumption its own weather says and the error of the forecast's age on that date |
| TempoOutlook.ErrorHorizonAges | backend/src/tempo/mod.rs:295-304 | a day's horizon is how far it is from the day the forecast was made |
| TempoOutlook.SigmaByHorizon | backend/src/tempo/forecast.rs:99-107 | the measured error of the horizon; past the measured ones, in proportion to the horizon; 0.5 when none was measured |
| LinearSolve.Solve | backend/src/bin/fit_tempo.rs:171-192 | a solution is returned if and only if the system is non-singular, it satisfies every equation of the system given, and it is the only one that does |
| LinearSolve.EliminateColumn | backend/src/bin/fit_tempo.rs:173-185 | one column of elimination keeps the solution set of the system; it finds no pivot only when the system is singular |
| LinearSolve.Pivot | backend/src/bin/fit_tempo.rs:174-174 | the row of largest magnitude in the column, the last one on a tie |
| LinearSolve.SubstituteBack | backend/src/bin/fit_tempo.rs:186-191 | back substitution solves a triangular system with a non-zero diagonal |
| LinearSolve.EliminationKeepsSolutions | backend/src/bin/fit_tempo.rs:177-184 | taking a multiple of one equation from another keeps the solution set |
| LinearSolve.TriangularIsNonSingular | backend/src/bin/fit_tempo.rs:186-191 | a triangular system with a non-zero diagonal is non-singular |
| LinearSolve.NoPivotNoInverse | backend/src/bin/fit_tempo.rs:174-178 | a column that is zero from the diagonal down makes the system singular |
| LeastSquares.Fit | backend/src/bin/fit_tempo.rs:195-213 | the coefficients are the one minimiser, over the paired rows and targets, of the squared residuals plus the ridge times their squares; the variance is the mean of the squared residuals |
| LeastSquares.Accumulate | backend/src/bin/fit_tempo.rs:196-209 | the loops build the normal matrix and right-hand side, the ridge on the diagonal |
| LeastSquares.NormalIsNonSingular | backend/src/bin/fit_tempo.rs:207-210 | the ridge makes the normal matrix non-singular for any rows, even dependent ones |
| LeastSquares.SolutionIsTheMinimiser | backend/src/bin/fit_tempo.rs:195-213 | a solution of the normal equations costs no more than any other coefficients, and equals any that cost the same |
| LeastSquares.CostAround | backend/src/bin/fit_tempo.rs:195-213 | moving away from it by `d` costs exactly the squares of the fitted change plus the ridge times those of `d` |
| Broadlink.PacketsRoundTripIff | backend/src/broadlink_ir.rs:17-64 | sending then reading gives back every duration as its ticks say, if and only if each lasts 17 µs or more |
| Broadlink.TicksRoundTripIff | backend/src/broadlink_ir.rs:17-64 | the escape byte is confused with neither the terminator nor a duration if and only if no duration has zero ticks |
| Broadlink.WithinHalfATickIff | backend/src/broadlink_ir.rs:17-68 | a duration comes back within 16 µs if and only if it is at most 2 152 185 µs, the longest 16 bits of ticks hold |
| Broadlink.ReencodingIsIdentity | backend/src/broadlink_ir.rs:17-68 | encoding what was read of a packet gives that packet again, byte for byte |
| Broadlink.DeclaredLengthIff | backend/src/broadlink_ir.rs:29-32 | a packet opens with 0x26 and no repeat and closes with the terminator, and the declared length is the body's plus one if and only if that fits 16 bits |
| Broadlink.TailsDecide | backend/src/broadlink_ir.rs:44-62 | after any durations, nothing or the terminator ends a body well and an escape cut short is refused |
| Broadlink.HeaderIsChecked | backend/src/broadlink_ir.rs:37-43 | four bytes or less are too short, and a longer packet is of another kind exactly when it does not open with 0x26 |
| Broadlink.TwoDurations | backend/src/broadlink_ir.rs:17-34 | the bytes sent for 17 µs and 9 ms |
| Broadlink.Encode | backend/src/broadlink_ir.rs:17-34 | the loop and the patched header build the packet of the durations' ticks |
| Broadlink.Decode | backend/src/broadlink_ir.rs:37-64 | the loop reads what the recursive definition of the format reads, with the same three refusals |
| ClimateCodec.SettingsAreHeard | backend/src/mitsubishi_ir.rs:234-255 | for every accepted settings value and clock below 144, the packet of its command decodes to two identical frames with valid checksums and one gap that say the same mode, temperature, fan, vane, wide vane and econo, the stop clock being (clock + delay) mod 144 |
| ClimateCodec.CommandIsHeard | backend/src/mitsubishi_ir.rs:234-255 | the same for every `state-` command that parses, timers included |
| ClimateOptions.SpokenIsHeard | backend/src/mitsubishi_ir.rs:339-455 | a command with any valid options, in any order and any number: the unit hears the last word on each setting, a start or stop only if no `timer-off` came since, the timer that says exactly which of the two is set, and a stop delay counted from its clock around midnight over any stop clock |
| ClimateOptions.SpokenIsParsed | backend/src/mitsubishi_ir.rs:339-455 | the parser applies any valid options in the order they are said |
| ClimateOptions.AcceptedIff | backend/src/mitsubishi_ir.rs:339-455 | a text is accepted if and only if its words say a mode, a temperature of 16 to 31, a fan and a vane, and then valid options and nothing else, numbers written any way that parses |
| ClimateOptions.AcceptedIsSpoken | backend/src/mitsubishi_ir.rs:339-455 | every text accepted means what the command spoken with those options means |
| ClimateOptions.OnlyStateCommands | backend/src/mitsubishi_ir.rs:234-255 | nothing for a text that does not start with `state-`, and otherwise a refusal exactly when it is not accepted |
| ClimateOptions.OffIsHeard | backend/src/mitsubishi_ir.rs:339-349 | `state-off` is heard powered off, as 16 °C, fan 4, vane swing, whatever the clock |
| ClimateOptions.OnlyOffSwitchesOff | backend/src/mitsubishi_ir.rs:339-455 | of all commands accepted, `state-off` alone switches the unit off |
| ClimateCodec.EncodeCommand | backend/src/mitsubishi_ir.rs:234-255 | a packet for a `state-` command that parses, nothing for another, and the parser's refusal otherwise |
| ClimateCommand.CommandAcceptedIff | backend/src/mitsubishi_ir.rs:292-314 | `command()` succeeds if and only if the temperature is 16 to 31 °C and the stop delay a multiple of 10 from 10 to 1430 |
| ClimateCommand.SettingsRoundTrip | backend/src/mitsubishi_ir.rs:322-337 | parsing a written command gives the settings back: the wide vane said, econo only in cool mode |
| ClimateCommand.ReadSettingsAreWritten | backend/src/mitsubishi_ir.rs:322-337 | settings read from any command can be written again, and that command reads the same |
| ClimateCommand.ParsedStateIsSane | backend/src/mitsubishi_ir.rs:339-455 | whatever the text, an accepted state is 16 to 31 °C, its delay 1 to 143 ticks, and economy only in cool mode |
| ClimateCommand.ParseStateCommand | backend/src/mitsubishi_ir.rs:339-455 | the token loop parses what the recursive grammar parses, with the same refusals |
| ClimateCommand.WriteCommand | backend/src/mitsubishi_ir.rs:292-314 | the command is the dash-joined parts, or the parser's refusal of them |
| ClimateCommand.CommandSplits | backend/src/mitsubishi_ir.rs:311-312 | splitting a written command at its dashes gives its tokens, `left-max` and `right-max` giving two |
| Text.SplitOfJoin | backend/src/mitsubishi_ir.rs:311-311 | splitting joined texts gives each of their own pieces in order |
| Text.ParsedIff | backend/src/mitsubishi_ir.rs:457-460 | an unsigned number is parsed from digits within its range, a plus sign allowed, and from nothing else |
| Text.DecimalRoundTrip | backend/src/mitsubishi_ir.rs:457-460 | a number written in decimal parses back, up to the type's largest |
| Mitsubishi.StateRoundTrip | backend/src/mitsubishi_ir.rs:521-537 | reading the bytes built for a state says that state, with a valid checksum |
| Mitsubishi.BuildStateBytes | backend/src/mitsubishi_ir.rs:521-537 | the array is filled with the eighteen bytes of the state |
| Mitsubishi.TableRoundTrip | backend/src/mitsubishi_ir.rs:27-52 | in a table without duplicates, tokens and codes both read back the value they were written for |
| MitsubishiWire.OneWrongByteIsCaught | backend/src/mitsubishi_ir.rs:550-554 | a valid frame with any one byte changed, to any value, is no longer valid |
| MitsubishiWire.SumOfParts | backend/src/mitsubishi_ir.rs:550-554 | the sum of two parts is the sum of their sums modulo 256, and a byte's is itself |
| MitsubishiWire.FrameLayout | backend/src/mitsubishi_ir.rs:521-548 | where each setting lies in the eighteen bytes, the mode's own nibble included, and the last byte is the sum of the others |
| MitsubishiWire.ModeNumber | backend/src/mitsubishi_ir.rs:85-91 | the codes and words of the modes |
| MitsubishiWire.FanNumber | backend/src/mitsubishi_ir.rs:107-114 | those of the fan |
| MitsubishiWire.VaneNumber | backend/src/mitsubishi_ir.rs:131-139 | those of the vane |
| MitsubishiWire.WideVaneNumber | backend/src/mitsubishi_ir.rs:156-164 | those of the wide vane |
| MitsubishiWire.TimerNumber | backend/src/mitsubishi_ir.rs:179-184 | the timer's codes |
| MitsubishiFrames.PacketRoundTrip | backend/src/mitsubishi_ir.rs:556-608 | the packet of any eighteen bytes decodes to two frames of exactly those bytes and one gap |
| MitsubishiFrames.FramesAreApart | backend/src/mitsubishi_ir.rs:574-593 | of any durations at all, a learnt remote's included: the frames are the runs of 291 with one longer than 5 ms between them, as many as there are |
| MitsubishiFrames.NoFrameIff | backend/src/mitsubishi_ir.rs:588-592 | durations are refused exactly when there are fewer than 291 |
| MitsubishiFrames.AnySpaceIsRead | backend/src/mitsubishi_ir.rs:595-608 | in any 291 durations, bit n of byte k is one exactly when its space is longer than 860 µs |
| MitsubishiWire.AnyFrameIsRead | backend/src/mitsubishi_ir.rs:630-645 | what is read of any eighteen bytes, whatever the bits it has no name for: half degrees, and an automatic fan over its speed |
| MitsubishiFrames.TransmissionPulses | backend/src/mitsubishi_ir.rs:652-667 | the mark and space of every bit of both copies, in microseconds, with the header and the gap between them |
| MitsubishiFrames.DecodeFrames | backend/src/mitsubishi_ir.rs:574-593 | the loop finds the frames and gaps that the recursive definition finds, and refuses durations with none |
| MitsubishiFrames.DecodeFrame | backend/src/mitsubishi_ir.rs:595-608 | the bits of a frame from its long and short spaces, the low bit of each byte first |
| MitsubishiFrames.AppendFrame | backend/src/mitsubishi_ir.rs:652-667 | the pulses of a frame are added after those there |
| Rc5.PulsesRoundTrip | backend/src/philips_ir.rs:53-80 | the pulses of any bits that start with a one alternate from a mark, last one or two halves, and read back as exactly those bits |
| Rc5.PacketsTellFramesApart | backend/src/philips_ir.rs:39-81 | two presses give the same packet if and only if the low five address bits, the low six command bits and the toggle agree |
| Rc5.PressIsRead | backend/src/philips_ir.rs:39-81 | a receiver of the pulses reads two ones, the toggle, the low five bits of the address and the low six of the command, the highest first |
| Rc5.EncodeRc5 | backend/src/philips_ir.rs:39-81 | the loops that push, extend and remove build the packet of the frame's pulses |
| Protobuf.VarintAcceptedIff | backend/src/atvremote.rs:200-214 | a varint is accepted if and only if it is at most ten bytes long and its value fits 64 bits, and what follows it is left alone |
| Protobuf.PaddedZeroIsRefused | backend/src/atvremote.rs:200-214 | a zero padded to eleven bytes fits 64 bits and is refused: the length counts too |
| Protobuf.VarintRoundTrip | backend/src/atvremote.rs:88-98 | every 64-bit value written is read back |
| Protobuf.Varint.PushByte | backend/src/atvremote.rs:202-214 | one byte into the decoder, the bits read so far staying below the next ones and within 64 |
| Protobuf.MessageRoundTrip | backend/src/atvremote.rs:160-186 | the reader over any sequence of varint, bytes and nested fields yields exactly that sequence |
| Protobuf.NextField | backend/src/atvremote.rs:160-186 | on arbitrary bytes each field read moves the position on, so a reader ends |
| Protobuf.OtherFieldsAreSkipped | backend/src/atvremote.rs:175-184 | fields of eight and four bytes are passed over, and any other unknown wire type ends the message |
| Protobuf.ProtoReader.GetField | backend/src/atvremote.rs:160-186 | the reader returns the field at its position and moves past it |
| Protobuf.ProtoBuf.PutVarint | backend/src/atvremote.rs:88-98 | the loop appends the varint of the value |
| Protobuf.FrameRoundTripIff | backend/src/atvremote.rs:448-475 | a frame is received, and what follows it left, if and only if it is within the reader's limit: 64 KiB |
| Protobuf.MoreBytesKeepTheFrame | backend/src/atvremote.rs:448-475 | a message or a refusal is the same however much of the stream has arrived behind it |
| RemoteAnswers.Stream.ReadFramed | backend/src/atvremote.rs:448-475 | the byte-by-byte loop reads the frame at its position and stops where it ends |
| RemoteAnswers.PongCarriesThePing | backend/src/atvremote.rs:694-706 | a ping is answered by a pong whose one field carries the last integer of its field 1, whatever else surrounds it |
| RemoteAnswers.Answer | backend/src/atvremote.rs:680-710 | the frame built for a field is that of its answer, and fields that ask for none get none |
| RemoteReplies.ConfigureIsAnswered | backend/src/atvremote.rs:683-694 | remote_configure is answered by one message that reads as a single field 1: the integer 611 and a field 2 with the six fields that describe the device |
| RemoteReplies.SetActiveIsAnswered | backend/src/atvremote.rs:695-696 | remote_set_active is answered by one message that reads as a single field 2 holding the integer 611 |
| RemoteReplies.SetActiveBytes | backend/src/atvremote.rs:695-696 | the six bytes of that answer |
| RemoteReplies.OthersAreAnswered | backend/src/atvremote.rs:697-709 | of the other fields, exactly a ping with a body is answered |
| RemoteReplies.AnswersAreNumbered | backend/src/atvremote.rs:680-710 | an answer's own field is 1 for 1, 2 for 2 and 9 for 8 |
| RemoteSession.OutputIsInOrder | backend/src/atvremote.rs:736-796 | over every run: the answers written are a prefix of those the arrived bytes ask for, in message order, the commands a prefix of those accepted, in send order; the session is ready exactly when an answer to remote_set_active went out, and no command precedes one |
| RemoteSession.NothingIsLost | backend/src/atvremote.rs:736-796 | once nothing waits and no write was cut short, every answer asked for and every command accepted has been written whole: the cut of the bytes and the interleaving do not matter |
| RemoteSession.TheOutputIsWholeFrames | backend/src/atvremote.rs:434-442 | over every run, whatever the commands, reading the bytes put on the connection gives back exactly the answers and commands delivered, whole and in order, even when a write failed half-way |
| RemoteProgress.ReadyIffSetActiveWasSent | backend/src/atvremote.rs:736-796 | over every run, the session is ready if and only if an answer whose own field number is 2 was written whole, and no more than 8 messages and 64 commands wait |
| RemoteProgress.EverythingCanBeWritten | backend/src/atvremote.rs:736-796 | from any run that left the session open and reading, some steps bring it to rest: nothing is waited for in a circle |
| RemoteProgress.ReadyIffAskedFor | backend/src/atvremote.rs:736-796 | at rest, the session is ready if and only if a message that arrived holds a remote_set_active |
| RemoteProgress.ACommandGoesOut | backend/src/atvremote.rs:736-796 | a command sent while the session is held and the channel has room can be brought out, right after all those accepted before it |
| RemoteProgress.EndsForAReason | backend/src/atvremote.rs:736-796 | the session ends only after a failed write, a reader that stopped with every message answered, or callers gone with every command out |
| RemoteProgress.LettingGoEnds | backend/src/atvremote.rs:736-796 | callers that let go can end it, all their commands written |
| RemoteOrder.AnswersGoTogether | backend/src/atvremote.rs:736-796 | over every run, the answers to one message go out in a row, in message order: a command only comes between two messages |
| RemoteOrder.ABadLengthEnds | backend/src/atvremote.rs:736-796 | a malformed or oversized length stops the reader for good, and the session can be brought to its end with every message read before answered |
| RemoteSession.EveryRunIsGood | backend/src/atvremote.rs:736-796 | the invariant behind these holds after every sequence of events |
| RemoteSession.ReadsTheMessages | backend/src/atvremote.rs:448-475 | a stream's messages are those read so far and those of what is left |
| AdbPush.SyncStream.WriteData | backend/src/adb.rs:485-505 | however an upload is cut, the frames written are the DATA frames of its full chunks and a last one; it succeeds exactly when the upload is complete and every frame is acknowledged, and a failure leaves a prefix of them |
| AdbPush.SyncStream.PushStream | backend/src/adb.rs:466-541 | the whole push is the SEND frame, those frames and the DONE frame; it succeeds exactly when the target fits, the upload is complete, every frame is acknowledged and the box says OKAY; a failure leaves a prefix of them, and none when the target does not fit |
| AdbPush.VerdictIsWhatTheBoxSaid | backend/src/adb.rs:508-526 | the verdict gathered starts as all the box said does, however it was cut into messages, and there is one exactly when it said eight bytes or closed the stream |
| AdbPush.ReadVerdict | backend/src/adb.rs:508-526 | the loop gathers the payloads of this stream until eight bytes or its close |
| AdbPush.UploadIsStored | backend/src/adb.rs:485-510 | a sync service reading those frames stores exactly the upload |
| AdbPush.ChunksAreTheUpload | backend/src/adb.rs:492-498 | the chunks join to the upload, none is empty, and all but the last hold 64 KiB |
| AdbPush.OneWayToCut | backend/src/adb.rs:492-498 | no other chunks have that shape: equal uploads make equal frames |
| AdbPush.FramesFit | backend/src/adb.rs:492-498 | no DATA frame exceeds the negotiated payload |
| AdbBox.PushIsStored | backend/src/adb.rs:466-510 | a sync service reading a whole push stores exactly the upload, exactly where SEND says |
| AdbBox.OtherStreamsDoNotCount | backend/src/adb.rs:508-526 | the verdict is that of this stream's messages alone |
| AdbBox.WritesAndCloses | backend/src/adb.rs:508-526 | the messages that count are those whose command reads WRTE or CLSE on the wire, to this stream |
| AdbBox.TakenIff | backend/src/adb.rs:508-541 | the verdict starts with OKAY if and only if all the box said does, and that is eight bytes or the stream was closed |
| AdbMessage.AcceptedIff | backend/src/adb.rs:133-168 | a message is read if and only if the bytes are its packet with some checksum, its payload within the maximum, followed by the rest |
| AdbMessage.PacketIsRead | backend/src/adb.rs:91-107 | a packet is read back whatever its checksum says, and what follows is left |
| AdbMessage.MessagesRoundTrip | backend/src/adb.rs:91-168 | messages written one after the other are all read back, and nothing else |
| AdbMessage.EveryByteIsTurned | backend/src/adb.rs:91-106 | the last header word is the first with every byte turned over |
| AdbMessage.ChecksumOfParts | backend/src/adb.rs:91-107 | the checksum of two parts is the sum of theirs, modulo 2^32 |
| AdbMessage.OneWrongByteShows | backend/src/adb.rs:91-107 | a byte is its own checksum, and any one byte changed changes it |
| AdbMessage.Encode | backend/src/adb.rs:91-107 | the header words, summed payload and complement of the command, or a refusal exactly past the maximum payload |
| AdbKey.NewtonDoubles | backend/src/adb.rs:225-229 | after k rounds, n · inverse ≡ 1 modulo 2^(2^k) for every odd n, under wrapping arithmetic |
| AdbKey.NegativeInverse | backend/src/adb.rs:225-230 | five rounds and the negation give n · n0inv ≡ −1 modulo 2^32 if and only if n is odd |
| AdbKey.ModulusWords | backend/src/adb.rs:207-230 | the words write the modulus, and the word computed from the lowest is the negative inverse of the whole modulus, if and only if that is odd |
| AdbKey.ToWords | backend/src/adb.rs:207-215 | each word is four bytes of the number, the low one first, zeros past its end |
| Tokens.GoodAtMostOnce | backend/src/auth.rs:255-278 | over every run of inserts of fresh tokens, takes, removals and restarts, whatever the clock does, a token answers good at most once |
| LiveTokens.GoodIffItStands | backend/src/auth.rs:248-298 | over every run, a token is good if and only if it was handed out, has not expired, and nothing ended it since: a take, a removal of it or of its person, a replay in its family, or a reading of the clock past its expiry |
| Tokens.LiveAndSpentAreDisjoint | backend/src/auth.rs:248-298 | no token is ever both live and spent, and only tokens handed out are known |
| Tokens.SpentIsReplayedUntilItExpires | backend/src/auth.rs:255-278 | a token that was good is from then on a replay until its expiry and unknown after it: pruning never makes it good again |
| Tokens.ForgettingIsUnobservableIff | backend/src/auth.rs:312-317 | for any clock readings: every run on them is answered as by a store that never forgets a token, if and only if they never step back |
| Tokens.ForgettingIsUnobservable | backend/src/auth.rs:312-317 | the forward half, for a run in hand: what is asked next is answered alike |
| Tokens.ClockSteppingBackIsObservable | backend/src/auth.rs:312-317 | the smallest failing run: a token that expires at 10 is pruned at 20 and unknown at 5 |
| Tokens.EndedFamilyStaysEndedIff | backend/src/auth.rs:255-278 | a family ended by a replay has no live token at any later moment of the run, if and only if none of its tokens is inserted later |
| Tokens.LateRotationRevivesTheFamily | backend/src/auth.rs:248-278 | the failing run: a token is taken, taken again by another, and only then is the first taker's new one inserted |
| Tokens.RefreshTokenStore.Take | backend/src/auth.rs:255-278 | the answer and the new maps of a take; a replay names someone of the family exactly when one was still live |
| Tokens.RefreshTokenStore.Prune | backend/src/auth.rs:312-317 | the expired go, and the answer says whether any did |
| Tokens.RefreshTokenStore.RemovePerson | backend/src/auth.rs:281-290 | every live token of the person goes, every other stays as it was, and how many |
| Limiter.PurgeIsUnobservable | backend/src/passkey.rs:167-202 | under any interleaving of addresses, every answer, the seconds to wait included, is that of a limiter of the address alone that never forgets |
| Limiter.OnlyTheOverArePurged | backend/src/passkey.rs:187-198 | a count on more than ten thousand addresses forgets exactly the others whose window is over, a smaller map forgets none |
| Limiter.AWindowHoldsTheLimit | backend/src/passkey.rs:167-198 | a fixed window counts at most the limit plus the callers that overlapped less one: the limit itself when each asks and counts before the next asks |
| Limiter.AnyIntervalHoldsTwoWindows | backend/src/passkey.rs:167-198 | any interval as long as the window holds at most twice that |
| Limiter.TheLimitHoldsIff | backend/src/passkey.rs:167-198 | no window of any run counts more than the limit if and only if the limit is not zero and callers do not overlap |
| Limiter.TheMostIsReached | backend/src/passkey.rs:181-185 | for every limit and number of overlapping callers there is a schedule that reaches the bound |
| Limiter.RefusedWhenFull | backend/src/passkey.rs:167-173 | no one is refused unless at least the limit was counted within the window before |
| Limiter.WaitIsEnoughIff | backend/src/passkey.rs:200-202 | waiting the seconds told is enough if and only if the time left is under a second or a whole number of them |
| Limiter.OneAddressIff | backend/src/passkey.rs:206-211 | two addresses count as one if and only if they are the same IPv4 address, however written, or share an IPv6 /64 |
| Limiter.GateIsTheLimiter | backend/src/passkey.rs:187-198 | the state bounded above is the limiter's own for the attempts counted |
| Limiter.Limiter.Count | backend/src/passkey.rs:187-198 | one more attempt in the address's window, a new one when it is over, after the purge of a large map |
| Limiter.Limiter.Hit | backend/src/passkey.rs:181-185 | refused exactly when the address is blocked, counted otherwise |
| Book.EditKeepsIff | backend/src/people.rs:203-405 | an edit keeps the book sound (ids and credentials unique, every passkey with its person, every person with a passkey, one invitation a person) if and only if its caller is fair: a passkey added is for someone known, one that redeems is for the invited, an invitation has its own id |
| Book.RunsAreSoundIff | backend/src/people.rs:203-405 | the book is sound all along a run if and only if every edit of it is fair |
| Book.RedeemedAtMostOnce | backend/src/people.rs:366-405 | an invitation is redeemed at most once over every run whose invitations have their own ids, fair or not |
| Invitations.LetInIff | backend/src/people.rs:366-405 | over every run with distinct ids, someone is let in if and only if an invitation of that id was created unused and ends after now, no edit since has ended it, and their credential is new |
| Invitations.RedeemedInTime | backend/src/people.rs:366-405 | whoever is let in was invited before, by the one invitation of that id, made unused and ending later than the redemption |
| Invitations.WaitsIffItStands | backend/src/people.rs:203-405 | an unused invitation is in the book if and only if it was created and nothing ended it: its deletion or redemption, its person's removal, another for the same person, or any other made once it is over |
| Invitations.WelcomedIff | backend/src/people.rs:366-376 | for any book: welcomed, taken or not pending, exactly as the invitation's use and end and the credentials say |
| Invitations.WhatAWelcomeDoes | backend/src/people.rs:366-405 | a welcome adds the passkey last, uses up exactly one open invitation, and keeps, raises or creates exactly the invited; anything else changes nothing |
| Invitations.InvitingClears | backend/src/people.rs:318-327 | a new invitation goes last and leaves exactly those of others that are unused and end after it was made |
| BookEdits.RemovalTakesAll | backend/src/people.rs:203-216 | removing someone takes what is theirs and nothing of anyone else's |
| BookEdits.DeletionTakesOne | backend/src/people.rs:294-308 | a deletion takes exactly the person's own passkey of that id, and only if they have another |
| BookEdits.UninvitingTakesTheId | backend/src/people.rs:352-360 | deleting an invitation takes those of its id and no other |
| Book.RolesOnlyRise | backend/src/people.rs:203-405 | no edit changes the name or handle of someone who stays, nor their role but from member to admin by redeeming an admin's invitation |
| Book.DeletingKeeps | backend/src/people.rs:294-308 | deleting a passkey never leaves its person without one |
| Book.InvitesWereCreated | backend/src/people.rs:318-327 | every invitation in the book was created, edits invent none |
| Book.People.RedeemInvite | backend/src/people.rs:366-405 | the invitation is spent, the person created or kept with an admin's role added, and the passkey registered, all at once or not at all |
| Book.People.DeletePasskey | backend/src/people.rs:294-308 | unknown, last, or removed, and the book changed only then |
| Book.People.CreateInvite | backend/src/people.rs:318-327 | the spent, the expired and the person's own invitations go, and the new one is added |
| Book.People.RemovePerson | backend/src/people.rs:203-216 | the person, their passkeys and invitations go, exactly when they are known |
| Book.People.AddPasskey | backend/src/people.rs:271-280 | a passkey more, unless its credential is taken by anyone |

## Left out

- LeastSquares.Fit: returns the variance of the residuals, where the original returns its square root.
- LinearSolve.Solve: answers that there is no solution where the original divides by a zero pivot and goes on with infinities; no ridge system has one.
- TempoForecast.Simulate: takes the normal draws and the weight of each new error as parameters, so the generator, Box–Muller and the square root in that weight are not modelled.
- TempoOutlook.Outlook: takes the expected net consumption of each day as given by the weather; the days start in year 0 or later, as holidays do.
- Tokens.GoodAtMostOnce: a restart reads back what was in memory; a write to disk that failed is only logged by the original, and a restart after one can make a spent token live again.
- Tokens.RefreshTokenStore.Take: does not model hashing (taken as injective) nor the write to disk, which is skipped when nothing changed.
- Book.EditKeepsIff: the book is edited in memory; the file, its lock and the cache of what was read are not modelled, and a credential's JSON is a text.
- RemoteSession.OutputIsInOrder: timeouts are events that may happen at any step; the fairness of the scheduler is not assumed, so waiting work can be done, but nothing says that it is.
- AdbPush.SyncStream.PushStream: that a frame is acknowledged in time is a count of the frames the box will accept; the acknowledgements sent while the verdict is read, and the closing message, are not modelled.
- AdbMessage.AcceptedIff: a connection that stops short is `Waiting`, where the original times out.
- Floating point: sums, thresholds, ticks and probabilities are exact reals or rationals (a tick is 821/25 µs); rounding error is not modelled.
- Texts of error messages; only which refusal is made is modelled.
- Levels, quantiles and the consumption, wind and solar features of the forecast: formulas without a property beyond themselves.
- `SeasonStock`, season names and their parsing, `slug` and names: they would only add easy members.
- Ceremonies: their caps and expiry are close to the limiter's and simpler.
- The rest of the public-key blob (R² mod n, base64), the ADB handshake, stream ids and shell output caps.
- Key taps and app links of the remote: a command here is any payload.
- Network, TLS, HTTP routes, cookies, WebAuthn, Bluetooth, files, logging, and the services around these parts.
