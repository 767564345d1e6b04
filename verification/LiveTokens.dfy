/** How long a token stays good: until something ends it, and no longer. */
module LiveTokens {
  import opened Bytes
  import opened Tokens

  /** What makes a live token go: it is asked for, removed, or its person is; a spent token of its
      family is seen again; or the clock is read once it has expired. */
  predicate Ends(t: Tokens, op: Op, token: string, entry: Entry) {
    match op
    case Insert(other, _) => other == token
    case Take(other, now) => other == token || now >= entry.expiresAt || Judge(t, other, now) == Again(entry.family)
    case Remove(other) => other == token
    case RemovePerson(userId) => userId == entry.userId
    case Restart(now) => now >= entry.expiresAt
  }

  predicate Live(t: Tokens, token: string, entry: Entry) {
    token in t.live && t.live[token] == entry
  }

  lemma EndsIff(t: Tokens, op: Op, token: string, entry: Entry)
    requires Live(t, token, entry) && (op.Insert? ==> op.token != token)
    ensures Live(Step(t, op), token, entry) <==> !Ends(t, op, token, entry)
  {
  }

  lemma ComesOnlyByInsertion(t: Tokens, op: Op, token: string, entry: Entry)
    requires !Live(t, token, entry)
    ensures Live(Step(t, op), token, entry) <==> op == Insert(token, entry)
  {
  }

  /** Handed out, and ended by nothing since. */
  predicate Stands(ops: seq<Op>, token: string, entry: Entry) {
    exists k :: 0 <= k < |ops| && ops[k] == Insert(token, entry) && Untouched(ops, k, token, entry)
  }

  predicate Untouched(ops: seq<Op>, k: nat, token: string, entry: Entry) {
    forall j :: k < j < |ops| ==> !Ends(Run(ops[..j]), ops[j], token, entry)
  }

  lemma StandsOneMore(ops: seq<Op>, token: string, entry: Entry)
    requires ops != []
    ensures var n := |ops| - 1;
            Stands(ops, token, entry)
            <==> (|| ops[n] == Insert(token, entry)
                  || (Stands(ops[..n], token, entry) && !Ends(Run(ops[..n]), ops[n], token, entry)))
  {
    hide Ends, Run;
    var n := |ops| - 1;
    var before := ops[..n];
    assert forall j :: 0 <= j < n ==> before[j] == ops[j] && before[..j] == ops[..j];
    if ops[n] == Insert(token, entry) {
      assert Untouched(ops, n, token, entry);
    }
    if Stands(before, token, entry) && !Ends(Run(before), ops[n], token, entry) {
      var k :| 0 <= k < n && before[k] == Insert(token, entry) && Untouched(before, k, token, entry);
      assert ops[k] == Insert(token, entry) && Untouched(ops, k, token, entry);
    }
    if Stands(ops, token, entry) && ops[n] != Insert(token, entry) {
      var k :| 0 <= k < |ops| && ops[k] == Insert(token, entry) && Untouched(ops, k, token, entry);
      assert before[k] == Insert(token, entry) && Untouched(before, k, token, entry);
    }
  }

  lemma NothingStands(token: string, entry: Entry)
    ensures !Stands([], token, entry)
  {
  }

  lemma LastIsNew(ops: seq<Op>)
    requires Fresh(ops) && ops != []
    ensures var n := |ops| - 1;
            ops[n].Insert? ==> !Inserted(ops[..n], ops[n].token)
  {
  }

  lemma {:induction false} LiveIffItStands(ops: seq<Op>, token: string, entry: Entry)
    requires Fresh(ops)
    ensures Live(Run(ops), token, entry) <==> Stands(ops, token, entry)
    decreases |ops|
  {
    hide Step, Ends, Stands, Fresh, Inserted;
    if ops == [] {
      NothingStands(token, entry);
    } else {
      var n := |ops| - 1;
      var t := Run(ops[..n]);
      FreshPrefix(ops, n);
      LiveIffItStands(ops[..n], token, entry);
      StandsOneMore(ops, token, entry);
      if Live(t, token, entry) {
        LiveAndSpentAreDisjoint(ops[..n]);
        LastIsNew(ops);
        EndsIff(t, ops[n], token, entry);
      } else {
        ComesOnlyByInsertion(t, ops[n], token, entry);
      }
    }
  }

  /** Whatever the order of the operations, a token is good, as the sign-in it was handed out for,
      exactly when it has not expired and nothing has ended it. */
  lemma GoodIffItStands(ops: seq<Op>, token: string, now: int, entry: Entry)
    requires Fresh(ops)
    ensures Judge(Run(ops), token, now) == Good(entry) <==> entry.expiresAt > now && Stands(ops, token, entry)
  {
    hide Run, Stands, Fresh;
    LiveIffItStands(ops, token, entry);
  }
}
