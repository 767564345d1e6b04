/** Rotating refresh tokens: each is good once, a spent one seen again ends its family, and the
    expired are forgotten. Tokens stand for their hashes, which are taken as injective. */
module Tokens {
  import opened Bytes

  /** Who signed in, until when (seconds), and what the tokens of one sign-in share. */
  datatype Entry = Entry(userId: string, expiresAt: int, family: string, authMs: int)

  datatype Spent = Spent(family: string, expiresAt: int)

  datatype Tokens = Tokens(live: map<string, Entry>, spent: map<string, Spent>)

  datatype Taken = Valid(entry: Entry) | Replayed(userId: Option<string>) | Unknown

  // ---------- what one operation does ----------

  /** The expired go. */
  function Pruned(t: Tokens, now: int): Tokens {
    Tokens(map k | k in t.live && t.live[k].expiresAt > now :: t.live[k],
           map k | k in t.spent && t.spent[k].expiresAt > now :: t.spent[k])
  }

  function WithoutFamily(live: map<string, Entry>, family: string): map<string, Entry> {
    map k | k in live && live[k].family != family :: live[k]
  }

  function WithoutPerson(live: map<string, Entry>, userId: string): map<string, Entry> {
    map k | k in live && live[k].userId != userId :: live[k]
  }

  /** What a token is, at some time: good, spent already in some family, or neither. */
  datatype Verdict = Good(entry: Entry) | Again(family: string) | Neither

  function Judge(t: Tokens, token: string, now: int): Verdict {
    if token in t.live && t.live[token].expiresAt > now then Good(t.live[token])
    else if token in t.spent && t.spent[token].expiresAt > now then Again(t.spent[token].family)
    else Neither
  }

  /** What a verdict changes. */
  function Settle(t: Tokens, token: string, verdict: Verdict): Tokens {
    match verdict
    case Good(entry) => Tokens(t.live - {token}, t.spent[token := Spent(entry.family, entry.expiresAt)])
    case Again(family) => t.(live := WithoutFamily(t.live, family))
    case Neither => t
  }

  function AfterTake(t: Tokens, token: string, now: int): Tokens {
    Settle(Pruned(t, now), token, Judge(t, token, now))
  }

  // ---------- the store ----------

  class RefreshTokenStore {
    var live: map<string, Entry>
    var spent: map<string, Spent>

    ghost function Contents(): Tokens
      reads this
    {
      Tokens(live, spent)
    }

    constructor ()
      ensures Contents() == Tokens(map[], map[])
    {
      live, spent := map[], map[];
    }

    method Insert(token: string, entry: Entry)
      modifies this
      ensures Contents() == Tokens(old(live)[token := entry], old(spent))
    {
      live := live[token := entry];
    }

    /** The expired go; whether any did. */
    method Prune(now: int) returns (changed: bool)
      modifies this
      ensures Contents() == Pruned(old(Contents()), now)
      ensures forall k :: k in live <==> k in old(live) && old(live)[k].expiresAt > now
      ensures forall k :: k in spent <==> k in old(spent) && old(spent)[k].expiresAt > now
      ensures changed <==> Contents() != old(Contents())
    {
      var before := |live| + |spent|;
      ghost var was := Contents();
      live := map k | k in live && live[k].expiresAt > now :: live[k];
      spent := map k | k in spent && spent[k].expiresAt > now :: spent[k];
      SmallerUnlessEqual(live, was.live);
      SmallerUnlessEqual(spent, was.spent);
      changed := |live| + |spent| != before;
    }

    /** Judges a token and spends it if it is good. For one spent before, the answer names its owner
        when a token of the family was still live. */
    method Take(token: string, now: int) returns (taken: Taken)
      modifies this
      ensures Contents() == AfterTake(old(Contents()), token, now)
      ensures match Judge(old(Contents()), token, now)
              case Good(entry) => taken == Valid(entry)
              case Again(family) =>
                (&& taken.Replayed?
                 && (taken.userId == None <==>
                       (forall k :: k in Pruned(old(Contents()), now).live ==> old(live)[k].family != family))
                 && (taken.userId.Some? ==>
                       (exists k :: (k in Pruned(old(Contents()), now).live
                                     && old(live)[k].family == family && old(live)[k].userId == taken.userId.value))))
              case Neither => taken == Unknown
    {
      var changed := Prune(now);
      if token in live {
        var entry := live[token];
        live := live - {token};
        spent := spent[token := Spent(entry.family, entry.expiresAt)];
        taken := Valid(entry);
      } else if token in spent {
        var family := spent[token].family;
        var userId: Option<string> := None;
        if k :| k in live && live[k].family == family {
          userId := Some(live[k].userId);
        }
        live := map k | k in live && live[k].family != family :: live[k];
        taken := Replayed(userId);
      } else {
        taken := Unknown;
      }
    }

    /** Drops the tokens of one person and counts them. */
    method RemovePerson(userId: string) returns (removed: nat)
      modifies this
      ensures Contents() == Tokens(WithoutPerson(old(live), userId), old(spent))
      ensures forall k :: k in live <==> k in old(live) && old(live)[k].userId != userId
      ensures forall k :: k in live ==> live[k] == old(live)[k]
      ensures removed == |old(live)| - |live|
    {
      var before := |live|;
      ghost var was := live;
      live := map k | k in live && live[k].userId != userId :: live[k];
      SmallerUnlessEqual(live, was);
      removed := before - |live|;
    }

    method Remove(token: string)
      modifies this
      ensures Contents() == Tokens(old(live) - {token}, old(spent))
    {
      live := live - {token};
    }
  }

  /** A map that keeps some of another's entries is smaller, unless it keeps them all. */
  lemma SmallerUnlessEqual<V>(kept: map<string, V>, whole: map<string, V>)
    requires forall k :: k in kept ==> k in whole && kept[k] == whole[k]
    ensures |kept| <= |whole| && (|kept| == |whole| <==> kept == whole)
  {
    SubsetIsSmaller(kept.Keys, whole.Keys);
    assert |kept.Keys| == |kept| && |whole.Keys| == |whole|;
    if |kept| == |whole| {
      assert kept.Keys == whole.Keys;
    }
  }

  lemma SubsetIsSmaller(a: set<string>, b: set<string>)
    requires a <= b
    ensures |a| <= |b| && (|a| == |b| ==> a == b)
  {
    assert b == a + (b - a);
    assert |b| == |a| + |b - a|;
  }

  // ---------- whole runs ----------

  /** `Restart` reads the tokens back from disk, where they were written through. */
  datatype Op = Insert(token: string, entry: Entry) | Take(token: string, now: int)
              | Remove(token: string) | RemovePerson(userId: string) | Restart(now: int)

  function Step(t: Tokens, op: Op): Tokens {
    match op
    case Insert(token, entry) => t.(live := t.live[token := entry])
    case Take(token, now) => AfterTake(t, token, now)
    case Remove(token) => t.(live := t.live - {token})
    case RemovePerson(userId) => t.(live := WithoutPerson(t.live, userId))
    case Restart(now) => Pruned(t, now)
  }

  function Run(ops: seq<Op>): Tokens {
    if ops == [] then Tokens(map[], map[]) else Step(Run(ops[..|ops| - 1]), ops[|ops| - 1])
  }

  predicate Inserted(ops: seq<Op>, token: string) {
    exists i :: 0 <= i < |ops| && ops[i].Insert? && ops[i].token == token
  }

  /** No token is handed out twice, as random ones are not. */
  predicate Fresh(ops: seq<Op>) {
    forall i :: 0 <= i < |ops| && ops[i].Insert? ==> !Inserted(ops[..i], ops[i].token)
  }

  /** Whether the `i`-th operation is a take of the token that found it good. */
  predicate IsGoodTake(ops: seq<Op>, i: nat, token: string)
    requires i < |ops|
  {
    ops[i].Take? && ops[i].token == token && Judge(Run(ops[..i]), token, ops[i].now).Good?
  }

  lemma InsertedBefore(ops: seq<Op>, token: string)
    requires ops != []
    ensures var last := ops[|ops| - 1];
            Inserted(ops, token) <==> Inserted(ops[..|ops| - 1], token) || (last.Insert? && last.token == token)
  {
    var before, last := ops[..|ops| - 1], ops[|ops| - 1];
    if Inserted(before, token) {
      var i :| 0 <= i < |before| && before[i].Insert? && before[i].token == token;
      assert ops[i] == before[i];
    }
    if Inserted(ops, token) {
      var i :| 0 <= i < |ops| && ops[i].Insert? && ops[i].token == token;
      if i < |ops| - 1 {
        assert before[i] == ops[i];
      }
    }
  }

  lemma FreshPrefix(ops: seq<Op>, n: nat)
    requires Fresh(ops) && n <= |ops|
    ensures Fresh(ops[..n])
  {
    var before := ops[..n];
    forall i | 0 <= i < |before| && before[i].Insert?
      ensures !Inserted(before[..i], before[i].token)
    {
      assert before[..i] == ops[..i] && before[i] == ops[i];
    }
  }

  /** Every run: the tokens known are ones handed out, and none is both live and spent. */
  lemma {:induction false} LiveAndSpentAreDisjoint(ops: seq<Op>)
    requires Fresh(ops)
    ensures Run(ops).live.Keys !! Run(ops).spent.Keys
    ensures forall k :: k in Run(ops).live || k in Run(ops).spent ==> Inserted(ops, k)
    decreases |ops|
  {
    hide Inserted;
    if ops != [] {
      var before, last := ops[..|ops| - 1], ops[|ops| - 1];
      FreshPrefix(ops, |ops| - 1);
      LiveAndSpentAreDisjoint(before);
      forall k | k in Run(ops).live || k in Run(ops).spent
        ensures Inserted(ops, k)
      {
        InsertedBefore(ops, k);
      }
      if last.Insert? {
        assert !Inserted(before, last.token);
      }
    }
  }

  /** A token once taken is live no more, and was handed out. */
  lemma {:induction false} TakenIsNotLive(ops: seq<Op>, token: string, i: nat)
    requires Fresh(ops) && i < |ops| && IsGoodTake(ops, i, token)
    ensures token !in Run(ops).live && Inserted(ops, token)
    decreases |ops|
  {
    hide Inserted;
    var before, last := ops[..|ops| - 1], ops[|ops| - 1];
    FreshPrefix(ops, |ops| - 1);
    InsertedBefore(ops, token);
    if i == |ops| - 1 {
      assert ops[..i] == before;
      LiveAndSpentAreDisjoint(before);
    } else {
      assert before[..i] == ops[..i];
      TakenIsNotLive(before, token, i);
      if last.Insert? {
        assert !Inserted(before, last.token);
      }
    }
  }

  /** Whatever the order of the operations, and whatever the clock does, a token is good once. */
  lemma GoodAtMostOnce(ops: seq<Op>, token: string, i: nat, j: nat)
    requires Fresh(ops) && i < |ops| && j < |ops| && IsGoodTake(ops, i, token) && IsGoodTake(ops, j, token)
    ensures i == j
  {
    if i != j {
      var first, second := if i < j then i else j, if i < j then j else i;
      var before := ops[..second];
      assert before[..first] == ops[..first] && before[first] == ops[first];
      FreshPrefix(ops, second);
      TakenIsNotLive(before, token, first);
      assert false;
    }
  }

  /** A replay leaves no live token of the family, and takes from no other family anything that had
      not expired. */
  lemma ReplayEndsTheFamily(t: Tokens, token: string, now: int)
    requires Judge(t, token, now).Again?
    ensures var after, family := AfterTake(t, token, now), t.spent[token].family;
            && (forall k :: k in after.live ==> after.live[k].family != family)
            && (forall k :: k in t.live && t.live[k].family != family && t.live[k].expiresAt > now
                  ==> k in after.live && after.live[k] == t.live[k])
            && after.spent == Pruned(t, now).spent
  {
  }

  predicate NoneLive(t: Tokens, family: string) {
    forall k :: k in t.live ==> t.live[k].family != family
  }

  /** A replay at the `i`-th operation, of a token of this family. */
  predicate IsReplay(ops: seq<Op>, i: nat, family: string)
    requires i < |ops|
  {
    ops[i].Take? && Judge(Run(ops[..i]), ops[i].token, ops[i].now) == Again(family)
  }

  /** A token of the family is inserted after the `i`-th operation. */
  predicate InsertedLater(ops: seq<Op>, i: nat, family: string) {
    exists k :: i < k < |ops| && ops[k].Insert? && ops[k].entry.family == family
  }

  lemma {:induction false} EndedFamilyStaysEnded(ops: seq<Op>, i: nat, family: string)
    requires i < |ops| && IsReplay(ops, i, family) && !InsertedLater(ops, i, family)
    ensures NoneLive(Run(ops), family)
    decreases |ops|
  {
    var before, last := ops[..|ops| - 1], ops[|ops| - 1];
    if i == |ops| - 1 {
      ReplayEndsTheFamily(Run(before), last.token, last.now);
    } else {
      assert before[i] == ops[i] && before[..i] == ops[..i];
      assert forall k :: 0 <= k < |before| ==> before[k] == ops[k];
      EndedFamilyStaysEnded(before, i, family);
      assert !(last.Insert? && last.entry.family == family);
    }
  }

  /** A family ended by a replay stays ended exactly as long as no rotation begun before it inserts
      its token after it. */
  lemma EndedFamilyStaysEndedIff(ops: seq<Op>, i: nat, family: string)
    requires i < |ops| && IsReplay(ops, i, family)
    ensures (forall n :: i < n <= |ops| ==> NoneLive(Run(ops[..n]), family)) <==> !InsertedLater(ops, i, family)
  {
    hide NoneLive, Run, Step;
    if InsertedLater(ops, i, family) {
      var k :| i < k < |ops| && ops[k].Insert? && ops[k].entry.family == family;
      InsertedIsLive(ops, k);
    } else {
      forall n | i < n <= |ops|
        ensures NoneLive(Run(ops[..n]), family)
      {
        var before := ops[..n];
        assert before[i] == ops[i] && before[..i] == ops[..i];
        assert forall k :: 0 <= k < n ==> before[k] == ops[k];
        EndedFamilyStaysEnded(before, i, family);
      }
    }
  }

  lemma InsertedIsLive(ops: seq<Op>, k: nat)
    requires k < |ops| && ops[k].Insert?
    ensures !NoneLive(Run(ops[..k + 1]), ops[k].entry.family)
  {
    var upTo := ops[..k + 1];
    assert upTo[..k] == ops[..k] && upTo[k] == ops[k];
    assert ops[k].token in Run(upTo).live;
  }

  /** A rotation overtaken by a replay: the token is taken, taken again by someone else, and only
      then does the first taker's new one go in. The family ended is live again. */
  lemma LateRotationRevivesTheFamily()
    ensures var entry := Entry("leonard", 10, "f", 0);
            var ops := [Insert("a", entry), Take("a", 1), Take("a", 2), Insert("b", entry)];
            Fresh(ops) && IsReplay(ops, 2, "f") && !NoneLive(Run(ops), "f")
  {
    hide Run, Judge, NoneLive;
    var entry := Entry("leonard", 10, "f", 0);
    var ops := [Insert("a", entry), Take("a", 1), Take("a", 2), Insert("b", entry)];
    assert "a" != "b" && ops[..4] == ops;
    RotatedOnce(entry);
    assert ops[..2] == [Insert("a", entry), Take("a", 1)];
    SpentAgain(entry);
    InsertedIsLive(ops, 3);
    assert forall i :: 0 <= i < 3 ==> (ops[i].Insert? ==> ops[i].token == "a");
  }

  lemma RotatedOnce(entry: Entry)
    requires entry.expiresAt == 10
    ensures Run([Insert("a", entry), Take("a", 1)]) == Tokens(map[], map["a" := Spent(entry.family, 10)])
  {
    var inserted := Tokens(map["a" := entry], map[]);
    assert [Insert("a", entry)][..0] == [];
    assert Run([Insert("a", entry)]) == inserted;
    assert [Insert("a", entry), Take("a", 1)][..1] == [Insert("a", entry)];
    var after := AfterTake(inserted, "a", 1);
    assert after.live == map[] && after.spent == map["a" := Spent(entry.family, 10)];
  }

  lemma SpentAgain(entry: Entry)
    ensures Judge(Tokens(map[], map["a" := Spent(entry.family, 10)]), "a", 2) == Again(entry.family)
  {
  }

  // ---------- forgetting is unobservable ----------

  /** The same store without pruning: it remembers every token, and compares times when asked. */
  function KeepingStep(t: Tokens, op: Op): Tokens {
    match op
    case Take(token, now) => Settle(t, token, Judge(t, token, now))
    case Restart(now) => t
    case _ => Step(t, op)
  }

  function KeepingRun(ops: seq<Op>): Tokens {
    if ops == [] then Tokens(map[], map[]) else KeepingStep(KeepingRun(ops[..|ops| - 1]), ops[|ops| - 1])
  }

  predicate Timed(op: Op) { op.Take? || op.Restart? }

  /** No operation is later than this. */
  predicate Past(ops: seq<Op>, now: int) {
    forall i :: 0 <= i < |ops| && Timed(ops[i]) ==> ops[i].now <= now
  }

  /** The clock never steps back. */
  predicate Forward(ops: seq<Op>) {
    forall i :: 0 <= i < |ops| && Timed(ops[i]) ==> Past(ops[..i], ops[i].now)
  }

  function LiveAt(t: Tokens, k: string, now: int): Option<Entry> {
    if k in t.live && t.live[k].expiresAt > now then Some(t.live[k]) else None
  }

  function SpentAt(t: Tokens, k: string, now: int): Option<Spent> {
    if k in t.spent && t.spent[k].expiresAt > now then Some(t.spent[k]) else None
  }

  /** The same tokens, the expired left aside. */
  ghost predicate Agree(a: Tokens, b: Tokens, now: int) {
    forall k :: LiveAt(a, k, now) == LiveAt(b, k, now) && SpentAt(a, k, now) == SpentAt(b, k, now)
  }

  lemma {:induction false} SameUnexpired(ops: seq<Op>, now: int)
    requires Forward(ops) && Past(ops, now)
    ensures Agree(Run(ops), KeepingRun(ops), now)
    decreases |ops|
  {
    hide Agree;
    if ops == [] {
      Alike(Tokens(map[], map[]), now);
    } else {
      var before, last := ops[..|ops| - 1], ops[|ops| - 1];
      ForwardBefore(ops, now);
      if Timed(last) {
        SameUnexpired(before, last.now);
        SameAfterTime(Run(before), KeepingRun(before), last, now);
      } else {
        SameUnexpired(before, now);
        SameAfterChange(Run(before), KeepingRun(before), last, now);
      }
    }
  }

  lemma Alike(t: Tokens, now: int)
    ensures Agree(t, t, now)
  {
  }

  lemma ForwardBefore(ops: seq<Op>, now: int)
    requires Forward(ops) && Past(ops, now) && ops != []
    ensures var before, last := ops[..|ops| - 1], ops[|ops| - 1];
            Forward(before) && Past(before, now) && (Timed(last) ==> Past(before, last.now) && last.now <= now)
  {
    ForwardAt(ops, |ops| - 1);
  }

  lemma SameAfterTime(a: Tokens, b: Tokens, op: Op, now: int)
    requires Timed(op) && op.now <= now && Agree(a, b, op.now)
    ensures Agree(Step(a, op), KeepingStep(b, op), now)
  {
    if op.Take? {
      SameVerdict(a, b, op.token, op.now);
    }
    var x, y := Step(a, op), KeepingStep(b, op);
    forall k
      ensures LiveAt(x, k, now) == LiveAt(y, k, now) && SpentAt(x, k, now) == SpentAt(y, k, now)
    {
      assert LiveAt(a, k, op.now) == LiveAt(b, k, op.now) && SpentAt(a, k, op.now) == SpentAt(b, k, op.now);
    }
  }

  lemma SameAfterChange(a: Tokens, b: Tokens, op: Op, now: int)
    requires !Timed(op) && Agree(a, b, now)
    ensures Agree(Step(a, op), KeepingStep(b, op), now)
  {
    var x, y := Step(a, op), KeepingStep(b, op);
    forall k
      ensures LiveAt(x, k, now) == LiveAt(y, k, now) && SpentAt(x, k, now) == SpentAt(y, k, now)
    {
      assert LiveAt(a, k, now) == LiveAt(b, k, now) && SpentAt(a, k, now) == SpentAt(b, k, now);
    }
  }

  /** A verdict depends only on what has not expired. */
  lemma SameVerdict(a: Tokens, b: Tokens, token: string, now: int)
    requires Agree(a, b, now)
    ensures Judge(a, token, now) == Judge(b, token, now)
  {
    assert LiveAt(a, token, now) == LiveAt(b, token, now) && SpentAt(a, token, now) == SpentAt(b, token, now);
  }

  /** As long as the clock does not step back, pruning changes no answer: the store says what one
      that never forgets a token would say. */
  lemma ForgettingIsUnobservable(ops: seq<Op>, token: string, now: int)
    requires Forward(ops) && Past(ops, now)
    ensures Judge(Run(ops), token, now) == Judge(KeepingRun(ops), token, now)
  {
    SameUnexpired(ops, now);
    SameVerdict(Run(ops), KeepingRun(ops), token, now);
  }

  /** The clock readings of a run, in order. */
  function Readings(ops: seq<Op>): seq<int> {
    if ops == [] then []
    else Readings(ops[..|ops| - 1]) + if Timed(ops[|ops| - 1]) then [ops[|ops| - 1].now] else []
  }

  predicate NeverDecreases(ts: seq<int>) {
    forall i, j :: 0 <= i < j < |ts| ==> ts[i] <= ts[j]
  }

  /** Every take of the run is answered as the store that never forgets answers it. */
  predicate AnswersAlike(ops: seq<Op>) {
    forall i :: 0 <= i < |ops| && ops[i].Take? ==>
      Judge(Run(ops[..i]), ops[i].token, ops[i].now) == Judge(KeepingRun(ops[..i]), ops[i].token, ops[i].now)
  }

  lemma {:induction false} PastReadings(ops: seq<Op>, now: int)
    requires forall t :: t in Readings(ops) ==> t <= now
    ensures Past(ops, now)
    decreases |ops|
  {
    if ops != [] {
      var before, last := ops[..|ops| - 1], ops[|ops| - 1];
      assert forall t :: t in Readings(before) ==> t in Readings(ops);
      PastReadings(before, now);
      assert Timed(last) ==> last.now in Readings(ops);
      assert forall i :: 0 <= i < |before| ==> before[i] == ops[i];
    }
  }

  lemma {:induction false} ReadingsInOrder(ops: seq<Op>)
    requires NeverDecreases(Readings(ops))
    ensures Forward(ops)
    decreases |ops|
  {
    if ops != [] {
      var before, last := ops[..|ops| - 1], ops[|ops| - 1];
      var ts, all := Readings(before), Readings(ops);
      assert ts == all[..|ts|];
      PrefixNeverDecreases(ts, all);
      ReadingsInOrder(before);
      if Timed(last) {
        assert all[|ts|] == last.now;
        assert forall t :: t in ts ==> t <= last.now;
        PastReadings(before, last.now);
      }
      hide Readings, Past;
      forall i | 0 <= i < |ops| && Timed(ops[i])
        ensures Past(ops[..i], ops[i].now)
      {
        if i < |before| {
          assert before[i] == ops[i] && before[..i] == ops[..i];
        } else {
          assert ops[..i] == before;
        }
      }
    }
  }

  lemma AlikeInOrder(ops: seq<Op>)
    requires NeverDecreases(Readings(ops))
    ensures AnswersAlike(ops)
  {
    hide Judge, Run, KeepingRun, Readings;
    ReadingsInOrder(ops);
    forall i | 0 <= i < |ops| && ops[i].Take?
      ensures Judge(Run(ops[..i]), ops[i].token, ops[i].now) == Judge(KeepingRun(ops[..i]), ops[i].token, ops[i].now)
    {
      ForwardAt(ops, i);
      ForgettingIsUnobservable(ops[..i], ops[i].token, ops[i].now);
    }
  }

  /** A token goes in, and someone asks for another one at each reading. */
  function AskedAt(ts: seq<int>, entry: Entry): seq<Op> {
    if ts == [] then [Insert("a", entry)] else AskedAt(ts[..|ts| - 1], entry) + [Take("b", ts[|ts| - 1])]
  }

  /** Asking for a token never handed out prunes the one store and changes nothing in the other. */
  lemma AskingForAnother(t: Tokens, token: string, now: int)
    requires token !in t.live && token !in t.spent
    ensures Step(t, Take(token, now)) == Pruned(t, now) && KeepingStep(t, Take(token, now)) == t
  {
  }

  lemma OneMoreAsked(ts: seq<int>, entry: Entry)
    requires ts != []
    ensures var ops := AskedAt(ts, entry);
            ops != [] && ops[..|ops| - 1] == AskedAt(ts[..|ts| - 1], entry) && ops[|ops| - 1] == Take("b", ts[|ts| - 1])
  {
  }

  lemma FirstOneIn(entry: Entry)
    ensures Readings(AskedAt([], entry)) == []
    ensures Run(AskedAt([], entry)) == KeepingRun(AskedAt([], entry)) == Tokens(map["a" := entry], map[])
  {
    assert AskedAt([], entry)[..0] == [];
  }

  /** The store that forgets holds the token until the first reading past its expiry; the other
      keeps it. */
  lemma {:induction false} AskedAtStates(ts: seq<int>, entry: Entry)
    ensures Readings(AskedAt(ts, entry)) == ts
    ensures KeepingRun(AskedAt(ts, entry)) == Tokens(map["a" := entry], map[])
    ensures var t := Run(AskedAt(ts, entry));
            && t.spent == map[] && (forall k :: k in t.live ==> k == "a" && t.live[k] == entry)
            && (forall i :: 0 <= i < |ts| && ts[i] >= entry.expiresAt ==> "a" !in t.live)
  {
    hide AskedAt, Step, KeepingStep;
    assert "a" != "b";
    if ts == [] {
      FirstOneIn(entry);
    } else {
      var earlier := ts[..|ts| - 1];
      OneMoreAsked(ts, entry);
      AskedAtStates(earlier, entry);
      AskingForAnother(Run(AskedAt(earlier, entry)), "b", ts[|ts| - 1]);
      AskingForAnother(KeepingRun(AskedAt(earlier, entry)), "b", ts[|ts| - 1]);
      assert forall i :: 0 <= i < |earlier| ==> earlier[i] == ts[i];
    }
  }

  /** Readings that step back tell the two stores apart: a token expires at the later of two, is
      pruned, and is asked for at the earlier. */
  lemma SteppingBackIsObservable(ts: seq<int>, i: nat, j: nat)
    requires i < j < |ts| && ts[i] > ts[j]
    ensures exists ops :: Readings(ops) <= ts && !AnswersAlike(ops)
  {
    hide Readings, Run, KeepingRun, AskedAt;
    var entry := Entry("leonard", ts[i], "f", 0);
    var before, last := AskedAt(ts[..j], entry), Take("a", ts[j]);
    AskedAtStates(ts[..j], entry);
    assert ts[..j][i] == ts[i];
    var ops := before + [last];
    assert ops[..|before|] == before && ops[|before|] == last;
    OneMoreReading(before, last);
    assert ts[..j] + [ts[j]] == ts[..j + 1];
    assert Judge(KeepingRun(before), "a", ts[j]).Good? && Judge(Run(before), "a", ts[j]) == Neither;
  }

  lemma OneMoreReading(ops: seq<Op>, op: Op)
    ensures Readings(ops + [op]) == Readings(ops) + if Timed(op) then [op.now] else []
  {
    assert (ops + [op])[..|ops|] == ops;
  }

  lemma {:induction false} PrefixNeverDecreases(a: seq<int>, b: seq<int>)
    requires NeverDecreases(b) && a <= b
    ensures NeverDecreases(a)
  {
    assert forall i :: 0 <= i < |a| ==> a[i] == b[i];
  }

  /** Whatever the clock reads: every run on these readings, or on the first of them, is answered as
      if nothing were forgotten, exactly when they never step back. */
  lemma ForgettingIsUnobservableIff(ts: seq<int>)
    ensures (forall ops | Readings(ops) <= ts :: AnswersAlike(ops)) <==> NeverDecreases(ts)
  {
    hide Readings, AnswersAlike;
    if NeverDecreases(ts) {
      forall ops | Readings(ops) <= ts
        ensures AnswersAlike(ops)
      {
        PrefixNeverDecreases(Readings(ops), ts);
        AlikeInOrder(ops);
      }
    } else {
      var i, j :| 0 <= i < j < |ts| && ts[i] > ts[j];
      SteppingBackIsObservable(ts, i, j);
    }
  }

  /** The smallest case: a token pruned at 20 is unknown at 5. */
  lemma ClockSteppingBackIsObservable()
    ensures var ops := [Insert("a", Entry("leonard", 10, "f", 0)), Take("b", 20)];
            Judge(Run(ops), "a", 5) == Neither && Judge(KeepingRun(ops), "a", 5).Good?
  {
    var insert, take := Insert("a", Entry("leonard", 10, "f", 0)), Take("b", 20);
    var ops := [insert, take];
    assert ops[..1] == [insert] && [insert][..0] == [];
    assert Run([insert]) == Step(Run([]), insert);
    assert KeepingRun([insert]) == KeepingStep(KeepingRun([]), insert);
    assert Run(ops) == Step(Run([insert]), take);
    assert KeepingRun(ops) == KeepingStep(KeepingRun([insert]), take);
    assert "a" != "b";
  }

  /** After a good take, the store that forgets nothing keeps the token spent. */
  lemma {:induction false} SpentStays(ops: seq<Op>, token: string, i: nat)
    requires Fresh(ops) && Forward(ops) && i < |ops| && IsGoodTake(ops, i, token)
    ensures var entry := Judge(Run(ops[..i]), token, ops[i].now).entry;
            && token !in KeepingRun(ops).live && token in KeepingRun(ops).spent && Inserted(ops, token)
            && KeepingRun(ops).spent[token] == Spent(entry.family, entry.expiresAt)
    decreases |ops|
  {
    hide Inserted;
    var before, last := ops[..|ops| - 1], ops[|ops| - 1];
    FreshPrefix(ops, |ops| - 1);
    TakenIsNotLive(ops, token, i);
    if i == |ops| - 1 {
      assert ops[..i] == before;
      assert Past(before, last.now) && Forward(before) by { ForwardAt(ops, i); }
      ForgettingIsUnobservable(before, token, last.now);
    } else {
      assert before[..i] == ops[..i] && before[i] == ops[i];
      ForwardAt(ops, |ops| - 1);
      SpentStays(before, token, i);
      if last.Insert? {
        assert !Inserted(before, last.token);
      }
    }
  }

  lemma ForwardAt(ops: seq<Op>, n: nat)
    requires Forward(ops) && n < |ops|
    ensures Forward(ops[..n]) && (Timed(ops[n]) ==> Past(ops[..n], ops[n].now))
  {
    var before := ops[..n];
    forall i | 0 <= i < |before| && Timed(before[i])
      ensures Past(before[..i], before[i].now)
    {
      assert before[..i] == ops[..i] && before[i] == ops[i];
    }
  }

  /** A token that was good is, from then on, a replay until its expiry and unknown after it:
      forgetting it never makes it good again. */
  lemma SpentIsReplayedUntilItExpires(ops: seq<Op>, token: string, i: nat, now: int)
    requires Fresh(ops) && Forward(ops) && Past(ops, now) && i < |ops| && IsGoodTake(ops, i, token)
    ensures var entry := Judge(Run(ops[..i]), token, ops[i].now).entry;
            Judge(Run(ops), token, now) == if now < entry.expiresAt then Again(entry.family) else Neither
  {
    SpentStays(ops, token, i);
    ForgettingIsUnobservable(ops, token, now);
  }
}
