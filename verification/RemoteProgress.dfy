/** What a remote session comes to: it says what its answers say, it can always be brought to
    rest, and there it is usable exactly when the television asked for it. */
module RemoteProgress {
  import opened Bytes
  import opened Protobuf
  import opened RemoteAnswers
  import opened RemoteReplies
  import opened RemoteSession

  // ---------- what is on the wire ----------

  /** An answer whose frame holds the field that answers its own. */
  predicate Numbered(what: Outgoing) {
    what.Answer? ==>
      && (what.field == 1 || what.field == 2 || what.field == 8)
      && OwnNumber(what.frame) == Some(if what.field == 8 then 9 else what.field)
  }

  predicate AllNumbered(s: Session) {
    forall i :: 0 <= i < |Attempted(s)| ==> Numbered(Attempted(s)[i])
  }

  lemma HandlingNumbers(s: Session, outcome: Outcome)
    requires AllNumbered(s)
    ensures AllNumbered(Handle(s, outcome))
  {
    hide NextField, AnswerTo, Numbered;
    if Answering(s) {
      var r, t := NextField(s.answering.value, s.pos), Handle(s, outcome);
      assert Attempted(s) == s.written;
      if r.OneField? && AnswerTo(r.field, r.value).Some? {
        var what := Answer(r.field, AnswerTo(r.field, r.value).value);
        AnswersAreNumbered(r.field, r.value);
        assert Numbered(what) by { NumberedByField(what); }
        assert Attempted(t) == s.written + [what];
      } else {
        assert Attempted(t) == s.written;
      }
    }
  }

  lemma NumberedByField(what: Outgoing)
    requires what.Answer? && (what.field == 1 || what.field == 2 || what.field == 8)
    requires OwnNumber(what.frame) == Some(if what.field == 8 then 9 else what.field)
    ensures Numbered(what)
  {
  }

  lemma StepNumbers(s: Session, e: Event)
    requires AllNumbered(s) && Discipline(s)
    ensures AllNumbered(Step(s, e))
  {
    hide Handle, ReadFrame, OwnNumber, Activated, CommandsAfterActivation, Frame;
    match e
    case HandleField(outcome) => HandlingNumbers(s, outcome);
    case _ =>
  }

  lemma {:induction false} EveryRunNumbers(events: seq<Event>)
    ensures AllNumbered(Run(events))
    decreases |events|
  {
    hide Step, AllNumbered, Discipline;
    if events == [] {
      StartNumbers();
    } else {
      EveryRunNumbers(events[..|events| - 1]);
      EveryRunIsGood(events[..|events| - 1]);
      StepNumbers(Run(events[..|events| - 1]), events[|events| - 1]);
    }
  }

  lemma StartNumbers()
    ensures AllNumbered(Start())
  {
  }

  /** Over every run, the session is ready exactly when one of the answers written whole is a message
      whose own field is number 2; and no queue outgrows its channel. */
  lemma ReadyIffSetActiveWasSent(events: seq<Event>)
    ensures var s := Run(events);
            && (s.ready <==> exists i :: (0 <= i < |s.written| && s.written[i].Answer?
                                          && OwnNumber(s.written[i].frame) == Some(2)))
            && |s.incoming| <= 8 && |s.commands| <= 64
  {
    hide Run, OwnNumber, CommandsAfterActivation, Reads, AllAnswers, Answers, Commands;
    var s := Run(events);
    EveryRunIsGood(events);
    EveryRunNumbers(events);
    assert forall i :: 0 <= i < |s.written| ==> Attempted(s)[i] == s.written[i];
    assert forall i :: 0 <= i < |s.written| ==> Numbered(s.written[i]);
  }

  // ---------- coming to rest ----------

  /** What is left of the message in hand. */
  function Left(s: Session): nat {
    match s.answering
    case None => 0
    case Some(message) => 1 + if s.pos < |message| then |message| - s.pos else 0
  }

  /** The next thing to do, if anything is left to do. */
  function Next(s: Session): Option<Event> {
    if s.answering.Some? then Some(HandleField(Done))
    else if s.incoming != [] then Some(TakeMessage)
    else if ReadFrame(s.unread).Message? then Some(ReadMessage)
    else if s.commands != [] then Some(TakeCommand(Done))
    else None
  }

  lemma NextMoves(s: Session)
    requires s.open && s.reading && s.cut == Whole && Next(s).Some?
    ensures var t := Step(s, Next(s).value);
            && t.open && t.reading && t.cut == Whole && t.callers == s.callers
            && t.arrived == s.arrived && t.accepted == s.accepted && s.written <= t.written
            && (|t.unread| < |s.unread|
                || (t.unread == s.unread && |t.incoming| < |s.incoming|)
                || (t.unread == s.unread && t.incoming == s.incoming && |t.commands| < |s.commands|)
                || (t.unread == s.unread && t.incoming == s.incoming && t.commands == s.commands && Left(t) < Left(s)))
  {
    hide NextField, AnswerTo, ReadFrameWithin;
    if s.answering.Some? {
      FieldsFrom(s.answering.value, s.pos);
    } else {
      FrameAdvances(s.unread, MAX_MESSAGE_BYTES);
    }
  }

  lemma RunOneMore(events: seq<Event>, e: Event)
    ensures Run(events + [e]) == Step(Run(events), e)
  {
    hide Step;
    assert (events + [e])[..|events|] == events;
  }

  /** A session that is open and still reading can always be brought to rest, whatever the
      television sent and the callers asked for: the whole messages it has are answered and the
      commands it accepted go out, and nothing already written changes. */
  lemma {:induction false} EverythingCanBeWritten(events: seq<Event>) returns (more: seq<Event>)
    requires Run(events).open && Run(events).reading
    ensures var s, t := Run(events), Run(events + more);
            && Idle(t) && t.open && t.callers == s.callers
            && t.arrived == s.arrived && t.accepted == s.accepted && s.written <= t.written
    decreases |Run(events).unread|, |Run(events).incoming|, |Run(events).commands|, Left(Run(events))
  {
    hide Run, Step, ReadFrameWithin, Left, Reads, CommandsAfterActivation, Activated, AllAnswers, Answers, Commands;
    var s := Run(events);
    EveryRunIsGood(events);
    match Next(s) {
      case None =>
        more := [];
        assert events + more == events;
      case Some(e) =>
        NextMoves(s);
        RunOneMore(events, e);
        var rest := EverythingCanBeWritten(events + [e]);
        more := [e] + rest;
        assert events + more == events + [e] + rest;
    }
  }

  // ---------- what rest means ----------

  /** The television asked to make the session active. */
  predicate AsksToActivate(message: seq<byte>) {
    exists i :: 0 <= i < |Fields(message, 0)| && Fields(message, 0)[i].0 == 2
  }

  predicate HasActivation(answers: seq<Outgoing>) {
    exists i :: 0 <= i < |answers| && answers[i].Answer? && answers[i].field == 2
  }

  lemma ActivationOfSum(a: seq<Outgoing>, b: seq<Outgoing>)
    ensures HasActivation(a + b) <==> HasActivation(a) || HasActivation(b)
  {
    if HasActivation(a) {
      var i :| 0 <= i < |a| && a[i].Answer? && a[i].field == 2;
      assert (a + b)[i] == a[i];
    }
    if HasActivation(b) {
      var i :| 0 <= i < |b| && b[i].Answer? && b[i].field == 2;
      assert (a + b)[|a| + i] == b[i];
    }
  }

  lemma {:induction false} ActivationOfFields(fields: seq<(u32, Field)>)
    ensures HasActivation(FieldAnswers(fields)) <==> exists i :: 0 <= i < |fields| && fields[i].0 == 2
  {
    hide AnswerTo, HasActivation;
    if fields == [] {
      NothingActivates();
    } else {
      var rest := fields[1..];
      ActivationOfFields(rest);
      OneAnswerActivates(fields[0].0, fields[0].1);
      var first := match AnswerTo(fields[0].0, fields[0].1)
        case None => []
        case Some(frame) => [Answer(fields[0].0, frame)];
      ActivationOfSum(first, FieldAnswers(rest));
      assert fields == [fields[0]] + rest;
      if i :| 0 <= i < |rest| && rest[i].0 == 2 {
        assert fields[i + 1] == rest[i];
      }
      if i :| 0 < i < |fields| && fields[i].0 == 2 {
        assert rest[i - 1] == fields[i];
      }
    }
  }

  lemma NothingActivates()
    ensures !HasActivation([])
  {
  }

  lemma OneAnswerActivates(field: u32, value: Field)
    ensures HasActivation(match AnswerTo(field, value) case None => [] case Some(frame) => [Answer(field, frame)])
            <==> field == 2
  {
    hide ReadFrame, Fields, AnswerTo;
    if field == 2 {
      var payload, body := SetActiveIsAnswered(value);
    }
    if AnswerTo(field, value).Some? {
      var answers := [Answer(field, AnswerTo(field, value).value)];
      assert answers[0].field == field;
      assert HasActivation(answers) <==> field == 2;
    }
  }

  lemma {:induction false} ActivationOfMessages(messages: seq<seq<byte>>)
    ensures HasActivation(AllAnswers(messages)) <==> exists m :: m in messages && AsksToActivate(m)
  {
    hide FieldAnswers, Fields, HasActivation, AsksToActivate;
    if messages == [] {
      NothingActivates();
    } else {
      ActivationOfMessages(messages[1..]);
      ActivationOfMessage(messages[0]);
      ActivationOfSum(FieldAnswers(Fields(messages[0], 0)), AllAnswers(messages[1..]));
      assert forall m :: m in messages <==> m == messages[0] || m in messages[1..];
    }
  }

  lemma ActivationOfMessage(message: seq<byte>)
    ensures HasActivation(FieldAnswers(Fields(message, 0))) <==> AsksToActivate(message)
  {
    hide FieldAnswers, Fields, HasActivation;
    ActivationOfFields(Fields(message, 0));
  }

  lemma {:induction false} ActivationIsAmongAnswers(written: seq<Outgoing>)
    ensures HasActivation(Answers(written)) <==> Activated(written)
    decreases |written|
  {
    if written != [] {
      var before, last := written[..|written| - 1], written[|written| - 1];
      ActivationIsAmongAnswers(before);
      ActivationOfSum(Answers(before), if last.Answer? then [last] else []);
      ActivationLasts(before, last);
      assert before + [last] == written;
      assert last.Answer? ==> [last][0] == last;
    }
  }

  /** At rest, the session is usable exactly when a message the television sent holds a
      remote_set_active. */
  lemma ReadyIffAskedFor(events: seq<Event>)
    requires Idle(Run(events))
    ensures Run(events).ready
            <==> exists m :: m in Messages(Run(events).arrived, MAX_MESSAGE_BYTES) && AsksToActivate(m)
  {
    hide Run, Idle, Reads, AsksToActivate, HasActivation, Activated, CommandsAfterActivation, AllAnswers, Answers,
         Commands, Messages;
    var s := Run(events);
    NothingIsLost(events);
    EveryRunIsGood(events);
    ActivationIsAmongAnswers(s.written);
    ActivationOfMessages(Messages(s.arrived, MAX_MESSAGE_BYTES));
  }

  /** A command sent while the session is held and the channel has room is accepted, and the session
      can be brought to where it has gone out, after everything accepted before it. */
  lemma ACommandGoesOut(events: seq<Event>, payload: Buffer) returns (more: seq<Event>)
    requires var s := Run(events);
             s.open && s.reading && s.callers == Holding && |s.commands| < 64
    ensures var s, t := Run(events), Run(events + [Send(payload)] + more);
            && Idle(t) && t.open && Commands(t.written) == s.accepted + [Frame(payload)]
  {
    hide Run, Idle, Reads, AllAnswers, Answers, Commands, Messages, Frame;
    RunOneMore(events, Send(payload));
    more := EverythingCanBeWritten(events + [Send(payload)]);
    NothingIsLost(events + [Send(payload)] + more);
  }

  /** Callers who were waiting hold the session as soon as it is ready. */
  lemma ReadyCanBeHeld(events: seq<Event>)
    requires Run(events).ready && Run(events).callers == Negotiating
    ensures Run(events + [Negotiated]).callers == Holding
  {
    hide Run;
    RunOneMore(events, Negotiated);
  }

  /** Callers wait, then hold, then let go, and never the other way: they hold the session once it is
      ready or give it up before, and one held is let go, not given up. */
  lemma CallersMoveOn(s: Session, e: Event)
    ensures var callers := Step(s, e).callers;
            match s.callers
            case Negotiating =>
              (callers == Holding <==> e == Negotiated && s.ready) && (callers == Gone <==> e == GiveUp)
            case Holding => callers != Negotiating && (callers == Gone <==> e == LetGo)
            case Gone => callers == Gone
  {
    hide NextField, AnswerTo, ReadFrameWithin, Frame;
  }

  // ---------- the end ----------

  /** The task is over for a reason: a write failed, the reader stopped and every message was
      answered, or the callers let go and every command went out. */
  predicate OverForAReason(s: Session) {
    || s.cut.Torn?
    || (!s.reading && s.incoming == [] && s.answering == None)
    || (s.callers == Gone && s.commands == [] && s.answering == None)
  }

  lemma StepEndsForAReason(s: Session, e: Event)
    requires s.open || OverForAReason(s)
    ensures Step(s, e).open || OverForAReason(Step(s, e))
  {
    hide NextField, AnswerTo, ReadFrameWithin, Frame;
  }

  /** The session ends for one of three reasons only. */
  lemma {:induction false} EndsForAReason(events: seq<Event>)
    ensures Run(events).open || OverForAReason(Run(events))
    decreases |events|
  {
    hide Step, OverForAReason;
    if events != [] {
      EndsForAReason(events[..|events| - 1]);
      StepEndsForAReason(Run(events[..|events| - 1]), events[|events| - 1]);
    }
  }

  /** Callers that let go end the session once all they asked for is written. */
  lemma LettingGoEnds(events: seq<Event>) returns (more: seq<Event>)
    requires Run(events).open && Run(events).reading && Run(events).callers == Gone
    ensures var s, t := Run(events), Run(events + more);
            !t.open && t.cut == Whole && Commands(t.written) == s.accepted
  {
    hide Run, Reads, AllAnswers, Answers, Commands, Messages, ReadFrameWithin;
    var rest := EverythingCanBeWritten(events);
    NothingIsLost(events + rest);
    more := rest + [Finish];
    assert events + more == events + rest + [Finish];
    RunOneMore(events + rest, Finish);
  }
}
