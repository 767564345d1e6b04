/** What each edit of the book changes and what it leaves, entry by entry. */
module BookEdits {
  import opened Bytes
  import opened Book

  /** Removing a person takes them, their passkeys and their invitations, and nothing of anyone
      else's; removing someone unknown changes nothing. */
  lemma RemovalTakesAll(b: Book, id: string)
    ensures var after := WithoutPerson(b, id);
            if forall p :: p in b.people ==> p.id != id then after == b
            else
              && (forall p :: p in after.people <==> p in b.people && p.id != id)
              && (forall k :: k in after.passkeys <==> k in b.passkeys && k.person != id)
              && (forall i :: i in after.invites <==> i in b.invites && i.person != id)
  {
    hide OtherPeople, OthersPasskeys, KeptInvites;
    OtherPeopleAre(b.people, id);
    OthersPasskeysAre(b.passkeys, id);
    KeptInvitesAre(b.invites, NotOf(id));
  }

  /** Ending someone's sessions moves the time before which none of theirs counts, and nothing else. */
  lemma SessionsEndForOne(b: Book, id: string, nowMs: int)
    requires PeopleDistinct(b.people)
    ensures var after := SessionsEnded(b, id, nowMs);
            && after.passkeys == b.passkeys && after.invites == b.invites && |after.people| == |b.people|
            && (forall i :: 0 <= i < |b.people| ==>
                  after.people[i] == if b.people[i].id == id then b.people[i].(notBeforeMs := nowMs) else b.people[i])
  {
  }

  /** The first passkey of an id. */
  predicate IsFirst(passkeys: seq<Passkey>, i: nat, id: string) {
    i < |passkeys| && passkeys[i].id == id && forall k :: 0 <= k < i ==> passkeys[k].id != id
  }

  /** A sign-in dates the passkey used, takes over the credential's new state when it moved, and leaves
      every other passkey, person and invitation. */
  lemma SignInDatesThePasskey(b: Book, id: string, moved: Option<(string, bool)>, nowMs: int)
    ensures var after := Used(b, id, moved, nowMs);
            && after.people == b.people && after.invites == b.invites && |after.passkeys| == |b.passkeys|
            && forall i {:trigger after.passkeys[i]} :: 0 <= i < |b.passkeys| ==>
                 var was, now := b.passkeys[i], after.passkeys[i];
                 if IsFirst(b.passkeys, i, id) then
                   && now.lastUsedMs == Some(nowMs)
                   && (moved.Some? ==> (now.passkey, now.backedUp) == moved.value)
                   && (moved == None ==> now.passkey == was.passkey && now.backedUp == was.backedUp)
                   && now.id == was.id && now.person == was.person && now.credentialId == was.credentialId
                   && now.name == was.name && now.createdMs == was.createdMs
                 else now == was
  {
  }

  /** A passkey more, or none when its credential is known already. */
  lemma AddedUnlessKnown(b: Book, key: Passkey)
    ensures WithPasskey(b, key)
         == if exists k :: k in b.passkeys && k.credentialId == key.credentialId then b
            else Book(b.people, b.passkeys + [key], b.invites)
  {
  }

  /** The first passkey of an id that is the person's own. */
  predicate IsOwn(passkeys: seq<Passkey>, i: nat, person: string, id: string) {
    && i < |passkeys| && passkeys[i].id == id && passkeys[i].person == person
    && forall k :: 0 <= k < i ==> passkeys[k].id != id || passkeys[k].person != person
  }

  /** Renaming names the person's own passkey of that id, and touches nobody else's. */
  lemma RenamingIsForOnesOwn(b: Book, person: string, id: string, name: string)
    ensures var after := Renamed(b, person, id, name);
            && after.people == b.people && after.invites == b.invites && |after.passkeys| == |b.passkeys|
            && (forall i :: 0 <= i < |b.passkeys| ==>
                  after.passkeys[i] == if IsOwn(b.passkeys, i, person, id) then b.passkeys[i].(name := name)
                                       else b.passkeys[i])
  {
  }

  /** The person has this passkey and another one. */
  predicate HasAnother(passkeys: seq<Passkey>, i: nat, person: string) {
    exists j :: 0 <= j < |passkeys| && j != i && passkeys[j].person == person
  }

  lemma {:induction false} OwnedAt(passkeys: seq<Passkey>, person: string, i: nat)
    requires i < |passkeys| && passkeys[i].person == person
    ensures Owned(passkeys, person) >= 1
    ensures Owned(passkeys, person) >= 2 <==> HasAnother(passkeys, i, person)
    decreases |passkeys|
  {
    var n := |passkeys| - 1;
    var before := passkeys[..n];
    if i < n {
      OwnedAt(before, person, i);
      if j :| 0 <= j < n && j != i && before[j].person == person {
        assert passkeys[j].person == person;
      }
      if j :| 0 <= j < n && j != i && passkeys[j].person == person {
        assert before[j].person == person;
      }
    } else {
      OwnedMeansHas(before, person);
      if key :| key in before && key.person == person {
        var j :| 0 <= j < n && before[j] == key;
        assert passkeys[j].person == person;
      }
      if j :| 0 <= j < n && passkeys[j].person == person {
        assert before[j] in before;
      }
    }
  }

  /** Deleting takes exactly the person's own passkey of that id, and only when another of theirs is
      left: a last one stays, and so does anyone else's. */
  lemma DeletionTakesOne(b: Book, person: string, id: string)
    ensures var after, r := WithoutPasskey(b, person, id), Deletion(b, person, id);
            && after.people == b.people && after.invites == b.invites
            && (r == NotFound <==> forall k :: k in b.passkeys ==> k.person != person || k.id != id)
            && (r == Yes <==> exists i: nat :: IsOwn(b.passkeys, i, person, id) && HasAnother(b.passkeys, i, person))
            && (forall i: nat :: IsOwn(b.passkeys, i, person, id) && r == Yes
                  ==> after.passkeys == b.passkeys[..i] + b.passkeys[i + 1..])
            && (r != Yes ==> after == b)
  {
    hide Owned, HasAnother;
    var i := FindOwn(b.passkeys, person, id);
    if i < |b.passkeys| {
      assert b.passkeys[i] in b.passkeys;
      assert IsOwn(b.passkeys, i, person, id);
      assert forall j: nat :: IsOwn(b.passkeys, j, person, id) ==> i <= j <= i;
      OwnedAt(b.passkeys, person, i);
    }
  }

  /** Deleting an invitation takes those of its id. */
  lemma UninvitingTakesTheId(b: Book, id: string)
    ensures var after := WithoutInvite(b, id);
            && after.people == b.people && after.passkeys == b.passkeys
            && (forall i :: i in after.invites <==> i in b.invites && i.id != id)
  {
    KeptInvitesAre(b.invites, NotId(id));
  }
}
