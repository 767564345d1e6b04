/** An open remote session as the steps of its tasks: a reader that cuts the television's bytes
    into messages, a task that answers them and writes commands, and the callers. */
module RemoteSession {
  import opened Bytes
  import opened Protobuf
  import opened RemoteAnswers

  const INCOMING_CAPACITY := 8
  const COMMAND_CAPACITY := 64

  /** What the session task writes: the answer to a field, or a command. */
  datatype Outgoing = Answer(field: u32, frame: seq<byte>) | Command(frame: seq<byte>)

  /** Whether the callers wait for the session, hold it, or have let it go. */
  datatype Callers = Negotiating | Holding | Gone

  /** A write cut short: what it was, and how many of its bytes went out. */
  datatype Cut = Whole | Torn(what: Outgoing, bytes: nat)

  /** `answering` is the message being answered, `pos` where its parser stands. `arrived`, `read`
      and `accepted` only remember what happened. */
  datatype Session = Session(
    arrived: seq<byte>, unread: seq<byte>, reading: bool,
    read: seq<seq<byte>>, incoming: seq<seq<byte>>,
    answering: Option<seq<byte>>, pos: nat,
    callers: Callers, accepted: seq<seq<byte>>, commands: seq<seq<byte>>,
    written: seq<Outgoing>, cut: Cut, open: bool, ready: bool)

  function Start(): Session {
    Session([], [], true, [], [], None, 0, Negotiating, [], [], [], Whole, true, false)
  }

  datatype Outcome = Done | Failed(bytes: nat)

  datatype Event =
    | Arrive(bytes: seq<byte>) | ReadMessage | StopReading
    | TakeMessage | HandleField(outcome: Outcome) | TakeCommand(outcome: Outcome)
    | Negotiated | GiveUp | Send(payload: Buffer) | LetGo | Finish

  /** A write of the session task: the whole frame, or a part of it and the end of the session. */
  function Write(s: Session, what: Outgoing, outcome: Outcome): Session {
    match outcome
    case Done => s.(written := s.written + [what])
    case Failed(n) => s.(cut := Torn(what, if n < |what.frame| then n else |what.frame|), open := false)
  }

  function Receive(s: Session, bytes: seq<byte>): Session {
    s.(arrived := s.arrived + bytes, unread := s.unread + bytes)
  }

  /** The reader cuts off one message and queues it; a length it cannot accept stops it. */
  function Read(s: Session): Session {
    if !s.open || !s.reading || |s.incoming| >= INCOMING_CAPACITY then s
    else match ReadFrame(s.unread)
      case Message(payload, rest) => s.(unread := rest, read := s.read + [payload], incoming := s.incoming + [payload])
      case Waiting => s
      case _ => s.(reading := false)
  }

  /** The task takes the next message; it ends once the reader has stopped and none is left. */
  function Take(s: Session): Session {
    if !s.open || s.answering.Some? then s
    else if s.incoming != [] then s.(answering := Some(s.incoming[0]), pos := 0, incoming := s.incoming[1..])
    else if !s.reading then s.(open := false)
    else s
  }

  /** Whether the task is inside a message, and may write. */
  predicate Answering(s: Session) {
    s.open && s.cut == Whole && s.answering.Some?
  }

  /** The next field of the message being answered. */
  function Handle(s: Session, outcome: Outcome): Session {
    if !Answering(s) then s
    else match NextField(s.answering.value, s.pos)
      case NoField => s.(answering := None)
      case OneField(field, value, next) =>
        match AnswerTo(field, value)
        case None => s.(pos := next)
        case Some(frame) => Give(s.(pos := next), field, frame, outcome)
  }

  /** Writes an answer; once remote_set_active is answered, the session is usable. */
  function Give(s: Session, field: u32, frame: seq<byte>, outcome: Outcome): Session {
    var t := Write(s, Answer(field, frame), outcome);
    if outcome == Done && field == 2 then t.(ready := true) else t
  }

  predicate CanCommand(s: Session) {
    s.open && s.cut == Whole && s.answering == None && s.commands != []
  }

  /** The task takes a command and writes it. */
  function Issue(s: Session, outcome: Outcome): Session {
    if !CanCommand(s) then s
    else Write(s.(commands := s.commands[1..]), Command(s.commands[0]), outcome)
  }

  function Accept(s: Session, payload: seq<byte>): Session {
    if !s.open || s.callers != Holding || |s.commands| >= COMMAND_CAPACITY then s
    else s.(commands := s.commands + [Frame(payload)], accepted := s.accepted + [Frame(payload)])
  }

  /** One step. An event that cannot happen now changes nothing. */
  function Step(s: Session, e: Event): Session {
    match e
    case Arrive(bytes) => Receive(s, bytes)
    case ReadMessage => Read(s)
    case StopReading => s.(reading := false)
    case TakeMessage => Take(s)
    case HandleField(outcome) => Handle(s, outcome)
    case TakeCommand(outcome) => Issue(s, outcome)
    case Negotiated => if s.callers == Negotiating && s.ready then s.(callers := Holding) else s
    case GiveUp => if s.callers == Negotiating then s.(callers := Gone) else s
    case Send(payload) => Accept(s, payload)
    case LetGo => if s.callers == Holding then s.(callers := Gone) else s
    case Finish =>
      var over := s.open && s.answering == None && s.callers == Gone && s.commands == [];
      if over then s.(open := false) else s
  }

  function Run(events: seq<Event>): Session {
    if events == [] then Start() else Step(Run(events[..|events| - 1]), events[|events| - 1])
  }

  // ---------- what the output is made of ----------

  function Answers(written: seq<Outgoing>): seq<Outgoing> {
    if written == [] then []
    else Answers(written[..|written| - 1]) + if written[|written| - 1].Answer? then [written[|written| - 1]] else []
  }

  function Commands(written: seq<Outgoing>): seq<seq<byte>> {
    if written == [] then []
    else
      var last := written[|written| - 1];
      Commands(written[..|written| - 1]) + if last.Command? then [last.frame] else []
  }

  /** Everything the task started to write. */
  function Attempted(s: Session): seq<Outgoing> {
    match s.cut
    case Whole => s.written
    case Torn(what, _) => s.written + [what]
  }

  /** The answers a message asks for: one per field that has one, in order. */
  function FieldAnswers(fields: seq<(u32, Field)>): seq<Outgoing> {
    if fields == [] then []
    else (match AnswerTo(fields[0].0, fields[0].1)
          case None => []
          case Some(frame) => [Answer(fields[0].0, frame)]) + FieldAnswers(fields[1..])
  }

  function AllAnswers(messages: seq<seq<byte>>): seq<Outgoing> {
    if messages == [] then [] else FieldAnswers(Fields(messages[0], 0)) + AllAnswers(messages[1..])
  }

  /** The messages at the front of a stream, none longer than a limit. */
  function Messages(stream: seq<byte>, limit: nat): seq<seq<byte>>
    decreases |stream|
  {
    FrameAdvances(stream, limit);
    match ReadFrameWithin(stream, limit)
    case Message(payload, rest) => [payload] + Messages(rest, limit)
    case _ => []
  }

  lemma FrameAdvances(stream: seq<byte>, limit: nat)
    ensures ReadFrameWithin(stream, limit).Message? ==> |ReadFrameWithin(stream, limit).rest| < |stream|
  {
    hide ReadVarint;
    ReadAdvances(stream, 0, 0);
  }

  /** Reading `read` off the front of a stream leaves `rest`. */
  predicate Reads(stream: seq<byte>, read: seq<seq<byte>>, rest: seq<byte>, limit: nat)
    decreases |read|
  {
    if read == [] then stream == rest
    else
      var r := ReadFrameWithin(stream, limit);
      r.Message? && r.payload == read[0] && Reads(r.rest, read[1..], rest, limit)
  }

  lemma {:induction false} ReadsMore(stream: seq<byte>, read: seq<seq<byte>>, rest: seq<byte>, more: seq<byte>,
                                   limit: nat)
    requires Reads(stream, read, rest, limit)
    ensures Reads(stream + more, read, rest + more, limit)
    decreases |read|
  {
    hide ReadFrameWithin;
    if read != [] {
      MoreBytesKeepTheFrame(stream, more, limit);
      ReadsMore(ReadFrameWithin(stream, limit).rest, read[1..], rest, more, limit);
    }
  }

  lemma {:induction false} ReadsOneMore(stream: seq<byte>, read: seq<seq<byte>>, rest: seq<byte>, limit: nat)
    requires Reads(stream, read, rest, limit) && ReadFrameWithin(rest, limit).Message?
    ensures Reads(stream, read + [ReadFrameWithin(rest, limit).payload], ReadFrameWithin(rest, limit).rest, limit)
    decreases |read|
  {
    hide ReadFrameWithin;
    var r := ReadFrameWithin(rest, limit);
    if read == [] {
      assert [r.payload][1..] == [];
      assert Reads(r.rest, [], r.rest, limit);
    } else {
      ReadsOneMore(ReadFrameWithin(stream, limit).rest, read[1..], rest, limit);
      assert (read + [r.payload])[1..] == read[1..] + [r.payload];
    }
  }

  lemma {:induction false} ReadsTheMessages(stream: seq<byte>, read: seq<seq<byte>>, rest: seq<byte>, limit: nat)
    requires Reads(stream, read, rest, limit)
    ensures Messages(stream, limit) == read + Messages(rest, limit)
    decreases |read|
  {
    hide ReadFrameWithin;
    if read != [] {
      ReadsTheMessages(ReadFrameWithin(stream, limit).rest, read[1..], rest, limit);
      assert [read[0]] + read[1..] == read;
      ConcatAssociates([read[0]], read[1..], Messages(rest, limit));
    }
  }

  lemma ConcatAssociates<T>(a: seq<T>, b: seq<T>, c: seq<T>)
    ensures (a + b) + c == a + (b + c)
  {
  }

  lemma {:induction false} AllAnswersOfSum(a: seq<seq<byte>>, b: seq<seq<byte>>)
    ensures AllAnswers(a + b) == AllAnswers(a) + AllAnswers(b)
  {
    hide FieldAnswers, Fields;
    if a == [] {
      assert a + b == b;
    } else {
      AllAnswersOfSum(a[1..], b);
      assert (a + b)[1..] == a[1..] + b && (a + b)[0] == a[0];
      ConcatAssociates(FieldAnswers(Fields(a[0], 0)), AllAnswers(a[1..]), AllAnswers(b));
    }
  }

  lemma OneAnswered(message: seq<byte>)
    ensures AllAnswers([message]) == FieldAnswers(Fields(message, 0))
  {
    hide FieldAnswers, Fields;
    assert [message][1..] == [];
  }

  lemma OneMoreWritten(written: seq<Outgoing>, what: Outgoing)
    ensures Answers(written + [what]) == Answers(written) + if what.Answer? then [what] else []
    ensures Commands(written + [what]) == Commands(written) + if what.Command? then [what.frame] else []
  {
    assert (written + [what])[..|written|] == written;
  }

  // ---------- what every step keeps ----------

  /** The messages read are those at the front of what arrived, and the rest is still unread. */
  predicate CutOff(s: Session) {
    Reads(s.arrived, s.read, s.unread, MAX_MESSAGE_BYTES)
  }

  /** The answers still owed: to the fields left of the message in hand, then to those waiting. */
  function Owed(s: Session): seq<Outgoing> {
    (if s.answering == None then [] else FieldAnswers(Fields(s.answering.value, s.pos))) + AllAnswers(s.incoming)
  }

  predicate AnswersInOrder(s: Session) {
    AllAnswers(s.read) == Answers(Attempted(s)) + Owed(s)
  }

  predicate CommandsInOrder(s: Session) {
    s.accepted == Commands(Attempted(s)) + s.commands
  }

  /** An answer to remote_set_active is among these. */
  predicate Activated(written: seq<Outgoing>) {
    exists i :: 0 <= i < |written| && written[i].Answer? && written[i].field == 2
  }

  /** Every command comes after an answer to remote_set_active. */
  predicate CommandsAfterActivation(written: seq<Outgoing>) {
    forall j :: 0 <= j < |written| && written[j].Command? ==> Activated(written[..j])
  }

  predicate Discipline(s: Session) {
    && (s.ready <==> Activated(s.written))
    && (s.callers == Holding || s.accepted != [] ==> s.ready)
    && (s.commands != [] ==> s.accepted != [])
    && CommandsAfterActivation(Attempted(s))
    && (s.cut != Whole ==> !s.open)
    && (s.cut.Torn? ==> s.cut.bytes <= |s.cut.what.frame|)
    && |s.incoming| <= INCOMING_CAPACITY && |s.commands| <= COMMAND_CAPACITY
  }

  predicate Good(s: Session) {
    CutOff(s) && AnswersInOrder(s) && CommandsInOrder(s) && Discipline(s)
  }

  lemma ReceiveKeeps(s: Session, bytes: seq<byte>)
    requires Good(s)
    ensures Good(Receive(s, bytes))
  {
    hide ReadFrameWithin, Answers, Commands, AllAnswers, FieldAnswers, Fields, Activated, CommandsAfterActivation;
    ReadsMore(s.arrived, s.read, s.unread, bytes, MAX_MESSAGE_BYTES);
  }

  lemma ReadKeeps(s: Session)
    requires Good(s)
    ensures Good(Read(s))
  {
    hide ReadFrameWithin, Reads, Answers, Commands, AllAnswers, FieldAnswers, Fields, Activated,
         CommandsAfterActivation;
    var r := ReadFrame(s.unread);
    if Read(s) != s && r.Message? {
      ReadsOneMore(s.arrived, s.read, s.unread, MAX_MESSAGE_BYTES);
      AllAnswersOfSum(s.read, [r.payload]);
      AllAnswersOfSum(s.incoming, [r.payload]);
    }
  }

  lemma TakeKeeps(s: Session)
    requires Good(s)
    ensures Good(Take(s))
  {
    hide Reads, Answers, Commands, AllAnswers, FieldAnswers, Fields, Activated, CommandsAfterActivation;
    if Take(s) != s && s.incoming != [] {
      AllAnswersOfSum([s.incoming[0]], s.incoming[1..]);
      OneAnswered(s.incoming[0]);
      assert s.incoming == [s.incoming[0]] + s.incoming[1..];
    } else {
      NothingOwed();
    }
  }

  lemma NothingOwed()
    ensures AllAnswers([]) == []
  {
  }

  /** The field in hand owes its answer before those after it. */
  lemma OwedFromHere(message: seq<byte>, pos: nat)
    ensures FieldAnswers(Fields(message, pos))
         == match NextField(message, pos)
            case NoField => []
            case OneField(field, value, next) =>
              (match AnswerTo(field, value)
               case None => []
               case Some(frame) => [Answer(field, frame)]) + FieldAnswers(Fields(message, next))
  {
    hide NextField, AnswerTo, Fields;
    FieldsFrom(message, pos);
  }

  lemma GiveKeeps(s: Session, field: u32, frame: seq<byte>, outcome: Outcome)
    requires CutOff(s) && CommandsInOrder(s) && Discipline(s) && Answering(s)
    requires AllAnswers(s.read) == Answers(s.written) + ([Answer(field, frame)] + Owed(s))
    ensures Good(Give(s, field, frame, outcome))
  {
    hide Reads, Answers, Commands, AllAnswers, FieldAnswers, Fields, Activated, CommandsAfterActivation;
    var what := Answer(field, frame);
    OneMoreWritten(s.written, what);
    ActivationLasts(s.written, what);
    var t := Give(s, field, frame, outcome);
    assert Attempted(t) == s.written + [what];
    assert AnswersInOrder(t) by {
      assert Owed(t) == Owed(s);
    }
  }

  lemma HandleKeeps(s: Session, outcome: Outcome)
    requires Good(s)
    ensures Good(Handle(s, outcome))
  {
    hide NextField, AnswerTo, Give, Reads, Answers, Commands, AllAnswers, FieldAnswers, Fields, Activated,
         CommandsAfterActivation;
    if Answering(s) {
      OwedFromHere(s.answering.value, s.pos);
      var r := NextField(s.answering.value, s.pos);
      if r.OneField? {
        var answer, t := AnswerTo(r.field, r.value), s.(pos := r.pos);
        if answer.Some? {
          assert Owed(s) == [Answer(r.field, answer.value)] + Owed(t);
          assert CutOff(t) && CommandsInOrder(t) && Discipline(t);
          GiveKeeps(t, r.field, answer.value, outcome);
        } else {
          assert Owed(s) == Owed(t);
        }
      }
    }
  }

  lemma IssueKeeps(s: Session, outcome: Outcome)
    requires Good(s)
    ensures Good(Issue(s, outcome))
  {
    hide Reads, Answers, Commands, AllAnswers, FieldAnswers, Fields, Activated, CommandsAfterActivation;
    if CanCommand(s) {
      var what, t := Command(s.commands[0]), Issue(s, outcome);
      OneMoreWritten(s.written, what);
      ActivationLasts(s.written, what);
      assert Attempted(t) == s.written + [what];
      assert CommandsInOrder(t) by {
        assert s.commands == [s.commands[0]] + t.commands;
        ConcatAssociates(Commands(s.written), [s.commands[0]], t.commands);
      }
      assert AnswersInOrder(t) by {
        assert Owed(t) == Owed(s);
      }
    }
  }

  lemma AcceptKeeps(s: Session, payload: seq<byte>)
    requires Good(s)
    ensures Good(Accept(s, payload))
  {
    hide Frame, Reads, Answers, Commands, AllAnswers, FieldAnswers, Fields, Activated, CommandsAfterActivation;
  }

  lemma ActivationLasts(written: seq<Outgoing>, what: Outgoing)
    ensures Activated(written + [what]) <==> Activated(written) || (what.Answer? && what.field == 2)
    ensures CommandsAfterActivation(written) && (what.Command? ==> Activated(written))
        ==> CommandsAfterActivation(written + [what])
  {
    var more := written + [what];
    if Activated(written) {
      var i :| 0 <= i < |written| && written[i].Answer? && written[i].field == 2;
      assert more[i] == written[i];
    }
    assert more[|written|] == what;
    if CommandsAfterActivation(written) && (what.Command? ==> Activated(written)) {
      forall j | 0 <= j < |more| && more[j].Command?
        ensures Activated(more[..j])
      {
        assert more[..j] == written[..j];
        assert written[..|written|] == written;
      }
    }
  }

  lemma StepKeeps(s: Session, e: Event)
    requires Good(s)
    ensures Good(Step(s, e))
  {
    hide Receive, Read, Take, Handle, Issue, Accept;
    hide Reads, Answers, Commands, AllAnswers, FieldAnswers, Fields, Activated, CommandsAfterActivation;
    match e
    case Arrive(bytes) => ReceiveKeeps(s, bytes);
    case ReadMessage => ReadKeeps(s);
    case TakeMessage => TakeKeeps(s);
    case HandleField(outcome) => HandleKeeps(s, outcome);
    case TakeCommand(outcome) => IssueKeeps(s, outcome);
    case Send(payload) => AcceptKeeps(s, payload);
    case _ =>
  }

  lemma {:induction false} EveryRunIsGood(events: seq<Event>)
    ensures Good(Run(events))
    decreases |events|
  {
    hide Step, Good;
    if events == [] {
      StartIsGood();
    } else {
      EveryRunIsGood(events[..|events| - 1]);
      StepKeeps(Run(events[..|events| - 1]), events[|events| - 1]);
    }
  }

  lemma StartIsGood()
    ensures Good(Start())
  {
  }

  // ---------- what every run guarantees ----------

  /** Whatever the cut of the incoming bytes and the arrival of commands, the output is an
      interleaving of the answers, in the order of the messages, and of the commands, in the order
      they were sent; the session is ready exactly when an answer to remote_set_active went out, and
      no command precedes one. */
  lemma OutputIsInOrder(events: seq<Event>)
    ensures var s := Run(events);
            && Answers(Attempted(s)) <= AllAnswers(Messages(s.arrived, MAX_MESSAGE_BYTES))
            && Commands(Attempted(s)) <= s.accepted
            && (s.ready <==> Activated(s.written))
            && CommandsAfterActivation(Attempted(s))
  {
    hide Run, Reads, Activated, CommandsAfterActivation, Answers, Commands, AllAnswers, Messages, FieldAnswers, Fields;
    var s := Run(events);
    EveryRunIsGood(events);
    ReadsTheMessages(s.arrived, s.read, s.unread, MAX_MESSAGE_BYTES);
    AllAnswersOfSum(s.read, Messages(s.unread, MAX_MESSAGE_BYTES));
    ConcatAssociates(Answers(Attempted(s)), Owed(s), AllAnswers(Messages(s.unread, MAX_MESSAGE_BYTES)));
  }

  /** Nothing waits: no whole message unread, none queued or in hand, no command queued, and no
      write cut short. */
  predicate Idle(s: Session) {
    && s.cut == Whole
    && !ReadFrame(s.unread).Message? && s.incoming == [] && s.answering == None && s.commands == []
  }

  /** Once nothing waits, every message has had all its answers and every command has gone out:
      the bytes that arrived and the commands sent decide the output up to its interleaving. */
  lemma NothingIsLost(events: seq<Event>)
    requires Idle(Run(events))
    ensures var s := Run(events);
            && Answers(s.written) == AllAnswers(Messages(s.arrived, MAX_MESSAGE_BYTES))
            && Commands(s.written) == s.accepted
  {
    hide Run, Reads, Activated, CommandsAfterActivation, Answers, Commands, FieldAnswers, Fields, ReadFrameWithin,
         Discipline;
    var s := Run(events);
    EveryRunIsGood(events);
    ReadsTheMessages(s.arrived, s.read, s.unread, MAX_MESSAGE_BYTES);
    assert Messages(s.unread, MAX_MESSAGE_BYTES) == [];
    assert s.read + [] == s.read;
    assert Owed(s) == [];
  }

  function Arrivals(events: seq<Event>): seq<byte> {
    if events == [] then []
    else Arrivals(events[..|events| - 1]) + if events[|events| - 1].Arrive? then events[|events| - 1].bytes else []
  }

  /** What arrived is what the television sent, joined: how it was cut is not remembered. */
  lemma {:induction false} ArrivalsAreJoined(events: seq<Event>)
    ensures Run(events).arrived == Arrivals(events)
    decreases |events|
  {
    if events != [] {
      ArrivalsAreJoined(events[..|events| - 1]);
      OnlyBytesArrive(Run(events[..|events| - 1]), events[|events| - 1]);
    }
  }

  lemma OnlyBytesArrive(s: Session, e: Event)
    ensures Step(s, e).arrived == s.arrived + if e.Arrive? then e.bytes else []
  {
    hide ReadFrame, NextField, AnswerTo, Frame, Reads;
  }

  // ---------- the output as bytes ----------

  /** The frames written, end to end. */
  function Joined(written: seq<Outgoing>): seq<byte> {
    if written == [] then [] else Joined(written[..|written| - 1]) + written[|written| - 1].frame
  }

  /** Every byte the session put on the connection. */
  function Wire(s: Session): seq<byte>
    requires s.cut.Torn? ==> s.cut.bytes <= |s.cut.what.frame|
  {
    Joined(s.written) + match s.cut case Whole => [] case Torn(what, n) => what.frame[..n]
  }

  /** Bytes that are one frame and no more. */
  predicate OneFrame(bytes: seq<byte>) {
    var r := ReadFrameWithin(bytes, TWO_64); r.Message? && r.rest == []
  }

  function Payload(frame: seq<byte>): seq<byte> {
    match ReadFrameWithin(frame, TWO_64)
    case Message(payload, _) => payload
    case _ => []
  }

  function Payloads(written: seq<Outgoing>): seq<seq<byte>> {
    if written == [] then [] else Payloads(written[..|written| - 1]) + [Payload(written[|written| - 1].frame)]
  }

  predicate AllFrames(s: Session) {
    && (forall i :: 0 <= i < |Attempted(s)| ==> OneFrame(Attempted(s)[i].frame))
    && (forall i :: 0 <= i < |s.commands| ==> OneFrame(s.commands[i]))
  }

  lemma FrameIsOne(payload: Buffer)
    ensures OneFrame(Frame(payload))
  {
    hide ReadFrameWithin;
    FrameRoundTripIff(payload, [], TWO_64);
    assert Frame(payload) + [] == Frame(payload);
  }

  lemma AnswersAreFrames(field: u32, value: Field)
    ensures AnswerTo(field, value).Some? ==> OneFrame(AnswerTo(field, value).value)
  {
    hide OneFrame, EncodeItem, Fields;
    var item := Reply(field, value);
    if item.Some? {
      ReplyIsShort(field, value);
      FrameIsOne(EncodeItem(item.value));
    }
  }

  lemma FramesOfHandle(s: Session, outcome: Outcome)
    requires AllFrames(s)
    ensures AllFrames(Handle(s, outcome))
  {
    hide ReadFrameWithin, NextField, AnswerTo, OneFrame;
    if Answering(s) {
      var r, t := NextField(s.answering.value, s.pos), Handle(s, outcome);
      assert Attempted(s) == s.written && t.commands == s.commands;
      if r.OneField? && AnswerTo(r.field, r.value).Some? {
        AnswersAreFrames(r.field, r.value);
        assert Attempted(t) == s.written + [Answer(r.field, AnswerTo(r.field, r.value).value)];
      } else {
        assert Attempted(t) == s.written;
      }
    }
  }

  lemma FramesAreKept(s: Session, e: Event)
    requires AllFrames(s) && Discipline(s)
    ensures AllFrames(Step(s, e))
  {
    hide Handle, ReadFrameWithin, OneFrame, Activated, CommandsAfterActivation, Frame;
    match e
    case HandleField(outcome) => FramesOfHandle(s, outcome);
    case Send(payload) => FrameIsOne(payload);
    case _ =>
  }

  lemma {:induction false} EveryRunWritesFrames(events: seq<Event>)
    ensures AllFrames(Run(events))
    decreases |events|
  {
    hide Step, AllFrames, Discipline;
    if events == [] {
      StartHasNoFrames();
    } else {
      EveryRunWritesFrames(events[..|events| - 1]);
      EveryRunIsGood(events[..|events| - 1]);
      FramesAreKept(Run(events[..|events| - 1]), events[|events| - 1]);
    }
  }

  lemma StartHasNoFrames()
    ensures AllFrames(Start())
  {
  }

  /** Frames end to end are read back one by one. */
  lemma {:induction false} FramesAreRead(written: seq<Outgoing>, tail: seq<byte>)
    requires forall i :: 0 <= i < |written| ==> OneFrame(written[i].frame)
    ensures Reads(Joined(written) + tail, Payloads(written), tail, TWO_64)
    decreases |written|
  {
    hide ReadFrameWithin;
    if written == [] {
      assert Joined(written) + tail == tail;
    } else {
      var last := written[|written| - 1].frame;
      FramesAreRead(written[..|written| - 1], last + tail);
      assert Joined(written) + tail == Joined(written[..|written| - 1]) + (last + tail);
      MoreBytesKeepTheFrame(last, tail, TWO_64);
      assert [] + tail == tail;
      ReadsOneMore(Joined(written) + tail, Payloads(written[..|written| - 1]), last + tail, TWO_64);
    }
  }

  /** The beginning of a frame is not mistaken for one. */
  lemma ATornFrameWaits(frame: seq<byte>, n: nat)
    requires OneFrame(frame) && n < |frame|
    ensures ReadFrameWithin(frame[..n], TWO_64) == Waiting
  {
    hide ReadFrameWithin;
    MoreBytesKeepTheFrame(frame[..n], frame[n..], TWO_64);
    assert frame[..n] + frame[n..] == frame;
  }

  /** What was written whole: a torn frame counts once all its bytes went out. */
  function Delivered(s: Session): seq<Outgoing> {
    match s.cut
    case Whole => s.written
    case Torn(what, n) => if n >= |what.frame| then s.written + [what] else s.written
  }

  /** Reading the session's bytes gives back exactly the answers and commands delivered, whole and
      in order: neither a key press in the middle of an answer nor a failed write cuts a frame
      in two and goes on. */
  lemma TheOutputIsWholeFrames(events: seq<Event>)
    ensures var s := Run(events);
            && (s.cut.Torn? ==> s.cut.bytes <= |s.cut.what.frame| && !s.open)
            && AllFrames(s)
            && Messages(Wire(s), TWO_64) == Payloads(Delivered(s))
  {
    hide Run, ReadFrameWithin, OneFrame, Payloads, Messages, Joined, Reads, Activated, CommandsAfterActivation;
    var s := Run(events);
    EveryRunIsGood(events);
    EveryRunWritesFrames(events);
    match s.cut {
      case Whole => WholeFramesAreRead(s.written, []);
      case Torn(what, n) =>
        assert Attempted(s)[|s.written|] == what;
        assert forall i :: 0 <= i < |s.written| ==> Attempted(s)[i] == s.written[i];
        if n < |what.frame| {
          ATornFrameWaits(what.frame, n);
          WholeFramesAreRead(s.written, what.frame[..n]);
        } else {
          assert what.frame[..n] == what.frame;
          JoinedOneMore(s.written, what);
          WholeFramesAreRead(s.written + [what], []);
        }
    }
  }

  lemma JoinedOneMore(written: seq<Outgoing>, what: Outgoing)
    ensures Joined(written + [what]) == Joined(written) + what.frame
  {
    assert (written + [what])[..|written|] == written;
  }

  lemma WholeFramesAreRead(written: seq<Outgoing>, tail: seq<byte>)
    requires forall i :: 0 <= i < |written| ==> OneFrame(written[i].frame)
    requires tail == [] || ReadFrameWithin(tail, TWO_64) == Waiting
    ensures Messages(Joined(written) + tail, TWO_64) == Payloads(written)
    ensures tail == [] ==> Messages(Joined(written), TWO_64) == Payloads(written)
  {
    hide Joined, Payloads, Reads;
    FramesAreRead(written, tail);
    ReadsTheMessages(Joined(written) + tail, Payloads(written), tail, TWO_64);
    assert Messages(tail, TWO_64) == [];
    assert tail == [] ==> Joined(written) + tail == Joined(written);
  }
}
