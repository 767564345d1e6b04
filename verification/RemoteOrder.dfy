/** How the writes of a session are grouped, and how a message it cannot accept ends it. */
module RemoteOrder {
  import opened Bytes
  import opened Protobuf
  import opened RemoteAnswers
  import opened RemoteSession
  import opened RemoteProgress

  // ---------- the answers to one message go out together ----------

  /** All the answers of each message in a row, one message after the other, and commands only between
      two messages. */
  predicate Groups(out: seq<Outgoing>, messages: seq<seq<byte>>)
    decreases |messages|, |out|
  {
    || (out == [] && messages == [])
    || (out != [] && out[|out| - 1].Command? && Groups(out[..|out| - 1], messages))
    || (messages != [] &&
        var n, answers := |messages| - 1, FieldAnswers(Fields(messages[|messages| - 1], 0));
        (&& |answers| <= |out| && out[|out| - |answers|..] == answers
         && Groups(out[..|out| - |answers|], messages[..n])))
  }

  lemma CommandBetween(out: seq<Outgoing>, messages: seq<seq<byte>>, what: Outgoing)
    requires Groups(out, messages) && what.Command?
    ensures Groups(out + [what], messages)
  {
    hide FieldAnswers, Fields;
    assert (out + [what])[..|out|] == out;
  }

  lemma MessageAnswered(out: seq<Outgoing>, messages: seq<seq<byte>>, message: seq<byte>)
    requires Groups(out, messages)
    ensures Groups(out + FieldAnswers(Fields(message, 0)), messages + [message])
  {
    hide FieldAnswers, Fields;
    var answers, more := FieldAnswers(Fields(message, 0)), messages + [message];
    assert more[..|messages|] == messages && more[|more| - 1] == message;
    assert (out + answers)[..|out|] == out && (out + answers)[|out|..] == answers;
  }

  /** How many messages were answered whole. */
  function Answered(s: Session): int {
    |s.read| - |s.incoming| - if s.answering == None then 0 else 1
  }

  /** The first `k` writes are in groups, of the messages answered whole; those after it are answers to
      the message in hand, which its fields left to answer complete. */
  predicate Grouped(s: Session, k: nat) {
    var n := Answered(s);
    && 0 <= n && k <= |Attempted(s)| && Groups(Attempted(s)[..k], s.read[..n])
    && s.read[|s.read| - |s.incoming|..] == s.incoming
    && match s.answering
       case None => k == |Attempted(s)|
       case Some(message) =>
         (&& s.read[n] == message
          && Attempted(s)[k..] + FieldAnswers(Fields(message, s.pos)) == FieldAnswers(Fields(message, 0)))
  }

  lemma ReadGroups(s: Session, k: nat)
    requires Grouped(s, k)
    ensures Grouped(Read(s), k)
  {
    hide Groups, FieldAnswers, Fields, ReadFrameWithin;
    var t, n := Read(s), Answered(s);
    if t.read != s.read {
      assert t.read[..n] == s.read[..n];
    }
  }

  lemma TakeGroups(s: Session, k: nat)
    requires Grouped(s, k)
    ensures Grouped(Take(s), k)
  {
    hide Groups, FieldAnswers, Fields;
    var t := Take(s);
    if s.open && s.answering == None && s.incoming != [] {
      assert Attempted(s)[k..] == [];
      assert t.incoming == t.read[|t.read| - |t.incoming|..];
      assert s.read[Answered(s)] == s.incoming[0];
      assert [] + FieldAnswers(Fields(s.incoming[0], 0)) == FieldAnswers(Fields(s.incoming[0], 0));
    }
  }

  lemma HandleGroups(s: Session, k: nat, outcome: Outcome) returns (k': nat)
    requires Grouped(s, k) && (s.cut != Whole ==> !s.open)
    ensures Grouped(Handle(s, outcome), k')
  {
    hide Groups, FieldAnswers, Fields, NextField, AnswerTo;
    k' := k;
    if Answering(s) {
      var message, n := s.answering.value, Answered(s);
      OwedFromHere(message, s.pos);
      match NextField(message, s.pos) {
        case NoField =>
          var out := Attempted(s);
          MessageAnswered(out[..k], s.read[..n], message);
          assert out[..k] + out[k..] == out && out[k..] + [] == out[k..];
          assert s.read[..n] + [message] == s.read[..n + 1];
          k' := |out|;
          assert out[..k'] == out;
        case OneField(field, value, next) =>
          FieldGroups(s, k, field, value, next, outcome);
      }
    }
  }

  lemma FieldGroups(s: Session, k: nat, field: u32, value: Field, next: nat, outcome: Outcome)
    requires Grouped(s, k) && Answering(s) && NextField(s.answering.value, s.pos) == OneField(field, value, next)
    requires FieldAnswers(Fields(s.answering.value, s.pos))
          == (match AnswerTo(field, value)
              case None => []
              case Some(frame) => [Answer(field, frame)]) + FieldAnswers(Fields(s.answering.value, next))
    ensures Grouped(Handle(s, outcome), k)
  {
    hide Groups, FieldAnswers, Fields, NextField, AnswerTo;
    var t, out, left := Handle(s, outcome), Attempted(s), FieldAnswers(Fields(s.answering.value, next));
    if AnswerTo(field, value).Some? {
      var what := Answer(field, AnswerTo(field, value).value);
      assert Attempted(t) == out + [what];
      PartGrows(out, k, what, left);
    } else {
      assert [] + left == left;
    }
  }

  lemma PartGrows(out: seq<Outgoing>, k: nat, what: Outgoing, left: seq<Outgoing>)
    requires k <= |out|
    ensures (out + [what])[..k] == out[..k]
    ensures (out + [what])[k..] + left == out[k..] + ([what] + left)
  {
    assert (out + [what])[k..] == out[k..] + [what];
  }

  lemma IssueGroups(s: Session, k: nat, outcome: Outcome) returns (k': nat)
    requires Grouped(s, k)
    ensures Grouped(Issue(s, outcome), k')
  {
    hide Groups, FieldAnswers, Fields;
    k' := k;
    if CanCommand(s) {
      var out, what := Attempted(s), Command(s.commands[0]);
      CommandBetween(out[..k], s.read[..Answered(s)], what);
      k' := k + 1;
      assert out[..k] == out && Attempted(Issue(s, outcome)) == out + [what];
      assert (out + [what])[..k'] == out + [what];
    }
  }

  lemma StepGroups(s: Session, k: nat, e: Event) returns (k': nat)
    requires Grouped(s, k) && (s.cut != Whole ==> !s.open)
    ensures Grouped(Step(s, e), k')
  {
    hide Groups, FieldAnswers, Fields, Read, Take, Handle, Issue;
    k' := k;
    match e
    case ReadMessage => ReadGroups(s, k);
    case TakeMessage => TakeGroups(s, k);
    case HandleField(outcome) => k' := HandleGroups(s, k, outcome);
    case TakeCommand(outcome) => k' := IssueGroups(s, k, outcome);
    case _ =>
  }

  lemma StartGroups()
    ensures Grouped(Start(), 0)
  {
  }

  lemma {:induction false} EveryRunGroups(events: seq<Event>) returns (k: nat)
    ensures Grouped(Run(events), k)
    decreases |events|
  {
    hide Step, Grouped, Good;
    if events == [] {
      StartGroups();
      k := 0;
    } else {
      var before := events[..|events| - 1];
      k := EveryRunGroups(before);
      EveryRunIsGood(before);
      NoWriteAfterACut(Run(before));
      k := StepGroups(Run(before), k, events[|events| - 1]);
    }
  }

  lemma NoWriteAfterACut(s: Session)
    requires Good(s)
    ensures s.cut != Whole ==> !s.open
  {
    hide Reads, Activated, CommandsAfterActivation, AllAnswers, Answers, Commands;
  }

  /** Over every run, what was written is whole groups, of the first messages that arrived, commands only
      between two of them, and then perhaps the first answers of the next message: no command comes
      between two answers to one message. */
  lemma AnswersGoTogether(events: seq<Event>) returns (k: nat, n: nat)
    ensures var out, messages := Attempted(Run(events)), Messages(Run(events).arrived, MAX_MESSAGE_BYTES);
            && k <= |out| && n <= |messages| && Groups(out[..k], messages[..n])
            && (k == |out| || (n < |messages| && out[k..] <= FieldAnswers(Fields(messages[n], 0))))
  {
    hide Run, Groups, FieldAnswers, Fields, Reads, Messages, Activated, CommandsAfterActivation, AllAnswers, Answers,
         Commands;
    var s := Run(events);
    k := EveryRunGroups(events);
    n := Answered(s);
    EveryRunIsGood(events);
    ReadsTheMessages(s.arrived, s.read, s.unread, MAX_MESSAGE_BYTES);
    assert Messages(s.arrived, MAX_MESSAGE_BYTES)[..n] == s.read[..n];
  }

  // ---------- a message that cannot be accepted ----------

  lemma StoppedMoves(s: Session)
    requires s.open && !s.reading && s.cut == Whole
    ensures var t := Step(s, if s.answering.Some? then HandleField(Done) else TakeMessage);
            && !t.reading && t.cut == Whole && t.read == s.read
            && (t.open ==> |t.incoming| < |s.incoming| || (t.incoming == s.incoming && Left(t) < Left(s)))
            && (!t.open ==> t.incoming == [] && t.answering == None)
  {
    hide NextField, AnswerTo, ReadFrameWithin;
    if s.answering.Some? {
      FieldsFrom(s.answering.value, s.pos);
    }
  }

  /** A reader that stopped leaves the task to answer what it has read, and then to end. */
  lemma {:induction false} StoppedEnds(events: seq<Event>) returns (more: seq<Event>)
    requires Run(events).open && !Run(events).reading
    ensures var s, t := Run(events), Run(events + more);
            !t.open && t.cut == Whole && t.read == s.read && t.incoming == [] && t.answering == None
    decreases |Run(events).incoming|, Left(Run(events))
  {
    hide Run, Step, Left, Good;
    var s := Run(events);
    EveryRunIsGood(events);
    NoWriteAfterACut(s);
    var e := if s.answering.Some? then HandleField(Done) else TakeMessage;
    StoppedMoves(s);
    RunOneMore(events, e);
    if Run(events + [e]).open {
      var rest := StoppedEnds(events + [e]);
      more := [e] + rest;
      assert events + more == events + [e] + rest;
    } else {
      more := [e];
    }
  }

  /** A length that is malformed or above 64 KiB stops the reader for good, and the session can then be
      brought to its end, with every message read before it answered. */
  lemma ABadLengthEnds(events: seq<Event>) returns (more: seq<Event>)
    requires var s := Run(events);
             s.open && s.reading && |s.incoming| < 8
             && (ReadFrame(s.unread) == Malformed || ReadFrame(s.unread) == Oversized)
    ensures !Run(events + [ReadMessage]).reading
    ensures var s, t := Run(events), Run(events + [ReadMessage] + more);
            !t.open && Answers(t.written) == AllAnswers(s.read)
  {
    hide Run, Reads, ReadFrameWithin, AllAnswers, Answers, Commands, FieldAnswers, Fields, Messages, Activated,
         CommandsAfterActivation;
    RunOneMore(events, ReadMessage);
    more := StoppedEnds(events + [ReadMessage]);
    EveryRunIsGood(events + [ReadMessage] + more);
    NothingOwed();
    var t := Run(events + [ReadMessage] + more);
    assert Owed(t) == [];
    assert Answers(t.written) + [] == Answers(t.written);
  }

  /** Once stopped, the reader reads no more. */
  lemma StoppedStays(s: Session, e: Event)
    requires !s.reading
    ensures !Step(s, e).reading && Step(s, e).read == s.read
  {
    hide NextField, AnswerTo, ReadFrameWithin, Frame;
  }
}
