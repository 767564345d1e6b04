/** Invitations over time: who is let in and until when, said of the invitations' fields and of the
    run of edits that made them. */
module Invitations {
  import opened Bytes
  import opened Book

  // ---------- one redemption ----------

  /** Someone has this credential. */
  predicate Registered(b: Book, credentialId: string) {
    exists k :: 0 <= k < |b.passkeys| && b.passkeys[k].credentialId == credentialId
  }

  /** An invitation of this id that nobody used and that ends after `nowMs`. */
  predicate Open(b: Book, id: string, nowMs: int) {
    exists i :: (0 <= i < |b.invites| && b.invites[i].id == id
                 && b.invites[i].usedMs == None && b.invites[i].expiresMs > nowMs)
  }

  lemma RegisteredIs(b: Book, credentialId: string)
    ensures Registered(b, credentialId) <==> HasCredential(b.passkeys, credentialId)
  {
    if HasCredential(b.passkeys, credentialId) {
      var key :| key in b.passkeys && key.credentialId == credentialId;
      var k :| 0 <= k < |b.passkeys| && b.passkeys[k] == key;
    }
    if k :| 0 <= k < |b.passkeys| && b.passkeys[k].credentialId == credentialId {
      assert b.passkeys[k] in b.passkeys;
    }
  }

  lemma OpenIsFound(b: Book, id: string, nowMs: int)
    ensures Open(b, id, nowMs) <==> FindPending(b.invites, id, nowMs) < |b.invites|
  {
    var i := FindPending(b.invites, id, nowMs);
    if i < |b.invites| {
      assert Pending(b.invites[i], nowMs) && b.invites[i].id == id;
    } else {
      assert forall k :: 0 <= k < |b.invites| && b.invites[k].id == id ==> !Pending(b.invites[k], nowMs);
    }
  }

  /** A redemption is welcomed exactly when its invitation is unused and not over and its credential
      is new; a known credential is told apart only while the invitation holds. */
  lemma WelcomedIff(b: Book, id: string, userHandle: string, key: Passkey, nowMs: int)
    ensures var r := Redemption(b, id, userHandle, key, nowMs);
            && (r.Welcome? <==> Open(b, id, nowMs) && !Registered(b, key.credentialId))
            && (r == Taken <==> Open(b, id, nowMs) && Registered(b, key.credentialId))
            && (r == NotPending <==> !Open(b, id, nowMs))
  {
    hide Open, Registered, HasCredential;
    OpenIsFound(b, id, nowMs);
    RegisteredIs(b, key.credentialId);
  }

  /** What a welcome does: the passkey goes last, exactly one invitation of the id, unused and not
      over, is now used at `nowMs`, and the invited is the person welcomed: as they were, raised to
      admin by an admin's invitation, or new with the invitation's name and role. A redemption
      not welcomed changes nothing. */
  lemma WhatAWelcomeDoes(b: Book, id: string, userHandle: string, key: Passkey, nowMs: int) returns (i: nat, j: nat)
    ensures var r, after := Redemption(b, id, userHandle, key, nowMs), AfterRedemption(b, id, userHandle, key, nowMs);
            if !r.Welcome? then after == b
            else
              && i < |b.invites| && b.invites[i].id == id
              && b.invites[i].usedMs == None && b.invites[i].expiresMs > nowMs
              && after.invites == b.invites[i := b.invites[i].(usedMs := Some(nowMs))]
              && after.passkeys == b.passkeys + [key]
              && j <= |b.people| && (forall k :: 0 <= k < j ==> b.people[k].id != b.invites[i].person)
              && (j < |b.people| ==> (&& b.people[j].id == b.invites[i].person
                                      && after.people == b.people[j := r.person]
                                      && r.person == (if b.invites[i].role == Admin
                                                      then b.people[j].(role := Admin) else b.people[j])))
              && (j == |b.people| ==> (&& after.people == b.people + [r.person]
                                       && r.person.id == b.invites[i].person
                                       && r.person.name == b.invites[i].name
                                       && r.person.role == b.invites[i].role
                                       && r.person.userHandle == userHandle && r.person.notBeforeMs == 0))
  {
    hide HasCredential;
    i := FindPending(b.invites, id, nowMs);
    j := if i < |b.invites| then FindPerson(b.people, b.invites[i].person) else 0;
  }

  /** A new invitation goes last, and leaves exactly those of others that are unused and end after it
      was made. */
  lemma InvitingClears(b: Book, invite: Invite)
    ensures var after := WithInvite(b, invite);
            && after.people == b.people && after.passkeys == b.passkeys
            && after.invites != [] && after.invites[|after.invites| - 1] == invite
            && (forall x :: x in after.invites[..|after.invites| - 1] <==>
                  (&& x in b.invites && x.usedMs == None && x.expiresMs > invite.createdMs
                   && x.person != invite.person))
  {
    var keep := PendingNotOf(invite.person, invite.createdMs);
    KeptInvitesAre(b.invites, keep);
    assert WithInvite(b, invite).invites[..|WithInvite(b, invite).invites| - 1] == KeptInvites(b.invites, keep);
  }

  // ---------- over a run ----------

  /** An invitation still unused is in the book exactly as it was created. */
  lemma {:induction false} UnusedAsCreated(edits: seq<Edit>, x: Invite)
    requires x in After(edits).invites && x.usedMs == None
    ensures exists k :: 0 <= k < |edits| && edits[k] == CreateInvite(x)
    decreases |edits|
  {
    hide Apply;
    if edits != [] {
      var n := |edits| - 1;
      InvitesComeFrom(After(edits[..n]), edits[n], x);
      if x in After(edits[..n]).invites {
        UnusedAsCreated(edits[..n], x);
        var k :| 0 <= k < n && edits[..n][k] == CreateInvite(x);
        assert edits[k] == CreateInvite(x);
      } else {
        assert edits[n] == CreateInvite(x);
      }
    }
  }

  /** Whoever is let in was invited before, by the one invitation of that id ever created, which was
      made unused and ends after the redemption. */
  lemma RedeemedInTime(edits: seq<Edit>, i: nat, id: string) returns (k: nat)
    requires FreshInvites(edits) && i < |edits| && Redeems(edits, i, id)
    ensures k < i && edits[k].CreateInvite? && edits[k].invite.id == id
    ensures edits[k].invite.usedMs == None && edits[k].invite.expiresMs > edits[i].nowMs
    ensures forall j :: 0 <= j < |edits| && edits[j].CreateInvite? && edits[j].invite.id == id ==> j == k
  {
    hide After, HasCredential, Apply;
    var b, e := After(edits[..i]), edits[i];
    var n := FindPending(b.invites, id, e.nowMs);
    var x := b.invites[n];
    assert x in b.invites && x.usedMs == None && x.expiresMs > e.nowMs;
    UnusedAsCreated(edits[..i], x);
    k :| 0 <= k < |edits[..i]| && edits[..i][k] == CreateInvite(x);
    assert edits[k] == CreateInvite(x);
    CreatedOnce(edits, k, id);
  }

  lemma CreatedOnce(edits: seq<Edit>, k: nat, id: string)
    requires FreshInvites(edits) && k < |edits| && edits[k].CreateInvite? && edits[k].invite.id == id
    ensures forall j :: 0 <= j < |edits| && edits[j].CreateInvite? && edits[j].invite.id == id ==> j == k
  {
    forall j, m | 0 <= j < m < |edits| && edits[j].CreateInvite?
      ensures Created(edits[..m], edits[j].invite.id)
    {
      assert edits[..m][j] == edits[j];
    }
    hide Created;
  }

  /** What makes an unused invitation go: it is deleted or redeemed, its person is removed, or another
      invitation is made, for the same person or once this one is over. */
  predicate Ends(b: Book, e: Edit, x: Invite) {
    match e
    case RemovePerson(id) => id == x.person && exists p :: p in b.people && p.id == id
    case DeleteInvite(id) => id == x.id
    case CreateInvite(y) => y.person == x.person || y.createdMs >= x.expiresMs
    case RedeemInvite(id, _, key, nowMs) => id == x.id && nowMs < x.expiresMs && !Registered(b, key.credentialId)
    case _ => false
  }

  lemma EndsIff(b: Book, e: Edit, x: Invite)
    requires InviteIdsDistinct(b.invites) && x in b.invites && x.usedMs == None
    requires e.CreateInvite? ==> e.invite.id != x.id
    ensures x in Apply(b, e).invites <==> !Ends(b, e, x)
  {
    hide Invited, Registered, HasCredential, HasPasskey, Owned;
    match e
    case RemovePerson(id) => KeptInvitesAre(b.invites, NotOf(id));
    case DeleteInvite(id) => KeptInvitesAre(b.invites, NotId(id));
    case CreateInvite(invite) => KeptInvitesAre(b.invites, PendingNotOf(invite.person, invite.createdMs));
    case RedeemInvite(id, userHandle, key, nowMs) => RedeemEndsIff(b, id, userHandle, key, nowMs, x);
    case _ =>
  }

  lemma RedeemEndsIff(b: Book, id: string, userHandle: string, key: Passkey, nowMs: int, x: Invite)
    requires InviteIdsDistinct(b.invites) && x in b.invites && x.usedMs == None
    ensures x in AfterRedemption(b, id, userHandle, key, nowMs).invites
            <==> !(id == x.id && nowMs < x.expiresMs && !Registered(b, key.credentialId))
  {
    hide Invited, Registered, HasCredential;
    RegisteredIs(b, key.credentialId);
    var n := FindPending(b.invites, id, nowMs);
    var m :| 0 <= m < |b.invites| && b.invites[m] == x;
    if n < |b.invites| {
      var after := b.invites[n := b.invites[n].(usedMs := Some(nowMs))];
      assert b.invites[n] in b.invites;
      if n != m {
        assert after[m] == x;
      }
    }
  }

  lemma ComesOnlyByCreation(b: Book, e: Edit, x: Invite)
    requires x !in b.invites && x.usedMs == None
    ensures x in Apply(b, e).invites <==> e == CreateInvite(x)
  {
    hide Apply;
    if x in Apply(b, e).invites {
      InvitesComeFrom(b, e, x);
    }
    if e == CreateInvite(x) {
      InvitingClears(b, x);
      CreatingAdds(b, x);
    }
  }

  lemma CreatingAdds(b: Book, x: Invite)
    ensures x in Apply(b, CreateInvite(x)).invites
  {
  }

  /** Created, and ended by no edit since. */
  predicate Stands(edits: seq<Edit>, x: Invite) {
    exists k :: 0 <= k < |edits| && edits[k] == CreateInvite(x) && Untouched(edits, k, x)
  }

  predicate Untouched(edits: seq<Edit>, k: nat, x: Invite) {
    forall j :: k < j < |edits| ==> !Ends(After(edits[..j]), edits[j], x)
  }

  lemma StandsOneMore(edits: seq<Edit>, x: Invite)
    requires edits != []
    ensures var n := |edits| - 1;
            Stands(edits, x) <==> (|| edits[n] == CreateInvite(x)
                                   || (Stands(edits[..n], x) && !Ends(After(edits[..n]), edits[n], x)))
  {
    hide Ends, After;
    var n := |edits| - 1;
    var before := edits[..n];
    assert forall j :: 0 <= j < n ==> before[j] == edits[j] && before[..j] == edits[..j];
    if edits[n] == CreateInvite(x) {
      assert Untouched(edits, n, x);
    }
    if Stands(before, x) && !Ends(After(before), edits[n], x) {
      var k :| 0 <= k < n && before[k] == CreateInvite(x) && Untouched(before, k, x);
      assert edits[k] == CreateInvite(x) && Untouched(edits, k, x);
    }
    if Stands(edits, x) && edits[n] != CreateInvite(x) {
      var k :| 0 <= k < |edits| && edits[k] == CreateInvite(x) && Untouched(edits, k, x);
      assert before[k] == CreateInvite(x) && Untouched(before, k, x);
    }
  }

  /** An invitation waits in the book exactly when it was created and no edit since has ended it. */
  lemma {:induction false} WaitsIffItStands(edits: seq<Edit>, x: Invite)
    requires FreshInvites(edits) && x.usedMs == None
    ensures x in After(edits).invites <==> Stands(edits, x)
    decreases |edits|
  {
    hide Apply, Stands, Ends, FreshInvites, Created, InviteIdsDistinct;
    if edits == [] {
      NothingStands(x);
    } else {
      var n := |edits| - 1;
      var b, e := After(edits[..n]), edits[n];
      FreshPrefix(edits, n);
      WaitsIffItStands(edits[..n], x);
      StandsOneMore(edits, x);
      InviteIdsStayDistinct(edits[..n]);
      if x in b.invites {
        InvitesWereCreated(edits[..n], x);
        LastIsNew(edits);
        EndsIff(b, e, x);
      } else {
        ComesOnlyByCreation(b, e, x);
      }
    }
  }

  lemma NothingStands(x: Invite)
    ensures !Stands([], x)
  {
  }

  lemma LastIsNew(edits: seq<Edit>)
    requires FreshInvites(edits) && edits != []
    ensures var n := |edits| - 1;
            edits[n].CreateInvite? ==> !Created(edits[..n], edits[n].invite.id)
  {
  }

  /** Over every run with distinct ids, someone is let in at `nowMs` exactly when an invitation of
      that id was created unused, nothing has ended it, it ends after `nowMs`, and the credential is
      new. */
  lemma LetInIff(edits: seq<Edit>, id: string, userHandle: string, key: Passkey, nowMs: int)
    requires FreshInvites(edits)
    ensures Redemption(After(edits), id, userHandle, key, nowMs).Welcome?
            <==> (&& !Registered(After(edits), key.credentialId)
                  && exists x: Invite :: x.id == id && x.usedMs == None && x.expiresMs > nowMs && Stands(edits, x))
  {
    hide After, Redemption, Registered, Stands, FreshInvites;
    var b := After(edits);
    WelcomedIff(b, id, userHandle, key, nowMs);
    if Open(b, id, nowMs) {
      var i :| (0 <= i < |b.invites| && b.invites[i].id == id
                && b.invites[i].usedMs == None && b.invites[i].expiresMs > nowMs);
      assert b.invites[i] in b.invites;
      WaitsIffItStands(edits, b.invites[i]);
    }
    if x: Invite :| x.id == id && x.usedMs == None && x.expiresMs > nowMs && Stands(edits, x) {
      WaitsIffItStands(edits, x);
      var i :| 0 <= i < |b.invites| && b.invites[i] == x;
    }
  }
}
