/** The accounts book: people, their passkeys, and the invitations that create them. */
module Book {
  import opened Bytes

  datatype Role = Admin | Member

  datatype Person = Person(id: string, name: string, role: Role, userHandle: string, notBeforeMs: int)

  /** A registered passkey; its credential as JSON is kept as a text. */
  datatype Passkey = Passkey(id: string, person: string, credentialId: string, passkey: string, name: string,
                             backedUp: bool, createdMs: int, lastUsedMs: Option<int>)

  datatype Invite = Invite(id: string, tokenHash: string, person: string, name: string, role: Role,
                           createdBy: Option<string>, createdMs: int, expiresMs: int, usedMs: Option<int>)

  datatype Book = Book(people: seq<Person>, passkeys: seq<Passkey>, invites: seq<Invite>)

  datatype Removed = Yes | NotFound | Last

  /** `Taken` is a credential already registered, for anyone. */
  datatype Redeemed = NotPending | Taken | Welcome(person: Person)

  predicate Pending(i: Invite, nowMs: int) {
    i.usedMs == None && i.expiresMs > nowMs
  }

  // ---------- looking up: the first that matches, or the length ----------

  function FindPerson(people: seq<Person>, id: string): (i: nat)
    ensures i <= |people| && (i < |people| ==> people[i].id == id) && forall k :: 0 <= k < i ==> people[k].id != id
  {
    if people == [] || people[0].id == id then 0 else 1 + FindPerson(people[1..], id)
  }

  function FindPasskey(passkeys: seq<Passkey>, id: string): (i: nat)
    ensures i <= |passkeys| && (i < |passkeys| ==> passkeys[i].id == id)
    ensures forall k :: 0 <= k < i ==> passkeys[k].id != id
  {
    if passkeys == [] || passkeys[0].id == id then 0 else 1 + FindPasskey(passkeys[1..], id)
  }

  function FindOwn(passkeys: seq<Passkey>, person: string, id: string): (i: nat)
    ensures i <= |passkeys| && (i < |passkeys| ==> passkeys[i].id == id && passkeys[i].person == person)
    ensures forall k :: 0 <= k < i ==> passkeys[k].id != id || passkeys[k].person != person
  {
    if passkeys == [] || (passkeys[0].person == person && passkeys[0].id == id) then 0
    else 1 + FindOwn(passkeys[1..], person, id)
  }

  function FindPending(invites: seq<Invite>, id: string, nowMs: int): (i: nat)
    ensures i <= |invites| && (i < |invites| ==> invites[i].id == id && Pending(invites[i], nowMs))
    ensures forall k :: 0 <= k < i ==> invites[k].id != id || !Pending(invites[k], nowMs)
  {
    if invites == [] || (invites[0].id == id && Pending(invites[0], nowMs)) then 0
    else 1 + FindPending(invites[1..], id, nowMs)
  }

  /** How many passkeys a person has. */
  function Owned(passkeys: seq<Passkey>, person: string): nat {
    if passkeys == [] then 0
    else Owned(passkeys[..|passkeys| - 1], person) + if passkeys[|passkeys| - 1].person == person then 1 else 0
  }

  predicate HasPerson(people: seq<Person>, id: string) {
    exists p :: p in people && p.id == id
  }

  predicate HasPasskey(passkeys: seq<Passkey>, person: string) {
    exists k :: k in passkeys && k.person == person
  }

  predicate HasCredential(passkeys: seq<Passkey>, credentialId: string) {
    exists k :: k in passkeys && k.credentialId == credentialId
  }

  // ---------- retaining ----------

  function OtherPeople(people: seq<Person>, id: string): seq<Person> {
    if people == [] then []
    else OtherPeople(people[..|people| - 1], id) + if people[|people| - 1].id != id then [people[|people| - 1]] else []
  }

  function OthersPasskeys(passkeys: seq<Passkey>, person: string): seq<Passkey> {
    if passkeys == [] then []
    else
      var last := passkeys[|passkeys| - 1];
      OthersPasskeys(passkeys[..|passkeys| - 1], person) + if last.person != person then [last] else []
  }

  /** Which invitations an edit keeps. */
  datatype Keep = NotOf(person: string) | NotId(id: string) | PendingNotOf(person: string, nowMs: int)

  predicate IsKept(keep: Keep, i: Invite) {
    match keep
    case NotOf(person) => i.person != person
    case NotId(id) => i.id != id
    case PendingNotOf(person, nowMs) => Pending(i, nowMs) && i.person != person
  }

  function KeptInvites(invites: seq<Invite>, keep: Keep): seq<Invite> {
    if invites == [] then []
    else
      var last := invites[|invites| - 1];
      KeptInvites(invites[..|invites| - 1], keep) + if IsKept(keep, last) then [last] else []
  }

  // ---------- the edits ----------

  function WithoutPerson(b: Book, id: string): Book {
    if HasPerson(b.people, id)
    then Book(OtherPeople(b.people, id), OthersPasskeys(b.passkeys, id), KeptInvites(b.invites, NotOf(id)))
    else b
  }

  function SessionsEnded(b: Book, id: string, nowMs: int): Book {
    var i := FindPerson(b.people, id);
    if i < |b.people| then b.(people := b.people[i := b.people[i].(notBeforeMs := nowMs)]) else b
  }

  /** After a sign-in: when, and the credential's new state if it moved. */
  function Used(b: Book, id: string, moved: Option<(string, bool)>, nowMs: int): Book {
    var i := FindPasskey(b.passkeys, id);
    if i == |b.passkeys| then b
    else
      var key := b.passkeys[i].(lastUsedMs := Some(nowMs));
      var after := if moved.Some? then key.(passkey := moved.value.0, backedUp := moved.value.1) else key;
      b.(passkeys := b.passkeys[i := after])
  }

  function WithPasskey(b: Book, key: Passkey): Book {
    if HasCredential(b.passkeys, key.credentialId) then b else b.(passkeys := b.passkeys + [key])
  }

  function Renamed(b: Book, person: string, id: string, name: string): Book {
    var i := FindOwn(b.passkeys, person, id);
    if i < |b.passkeys| then b.(passkeys := b.passkeys[i := b.passkeys[i].(name := name)]) else b
  }

  function Deletion(b: Book, person: string, id: string): Removed {
    if FindOwn(b.passkeys, person, id) == |b.passkeys| then NotFound
    else if Owned(b.passkeys, person) <= 1 then Last
    else Yes
  }

  function WithoutPasskey(b: Book, person: string, id: string): Book {
    var i := FindOwn(b.passkeys, person, id);
    if Deletion(b, person, id) == Yes then b.(passkeys := b.passkeys[..i] + b.passkeys[i + 1..]) else b
  }

  /** Keeps what is still pending for others, and adds the new invitation. */
  function WithInvite(b: Book, invite: Invite): Book {
    b.(invites := KeptInvites(b.invites, PendingNotOf(invite.person, invite.createdMs)) + [invite])
  }

  function WithoutInvite(b: Book, id: string): Book {
    b.(invites := KeptInvites(b.invites, NotId(id)))
  }

  /** Whoever an invitation is for: as they were, an admin's invitation making them one, or new. */
  function Invited(people: seq<Person>, invite: Invite, userHandle: string): Person {
    var i := FindPerson(people, invite.person);
    if i < |people| then (if invite.role == Admin then people[i].(role := Admin) else people[i])
    else Person(invite.person, invite.name, invite.role, userHandle, 0)
  }

  function Redemption(b: Book, inviteId: string, userHandle: string, key: Passkey, nowMs: int): Redeemed {
    var i := FindPending(b.invites, inviteId, nowMs);
    if i == |b.invites| then NotPending
    else if HasCredential(b.passkeys, key.credentialId) then Taken
    else Welcome(Invited(b.people, b.invites[i], userHandle))
  }

  function AfterRedemption(b: Book, inviteId: string, userHandle: string, key: Passkey, nowMs: int): Book {
    var i := FindPending(b.invites, inviteId, nowMs);
    match Redemption(b, inviteId, userHandle, key, nowMs)
    case Welcome(person) =>
      var j := FindPerson(b.people, person.id);
      Book(if j < |b.people| then b.people[j := person] else b.people + [person],
           b.passkeys + [key],
           b.invites[i := b.invites[i].(usedMs := Some(nowMs))])
    case _ => b
  }

  /** The store of the book, edited in place. */
  class People {
    var people: seq<Person>
    var passkeys: seq<Passkey>
    var invites: seq<Invite>

    ghost function Contents(): Book
      reads this
    {
      Book(people, passkeys, invites)
    }

    constructor ()
      ensures Contents() == Book([], [], [])
    {
      people, passkeys, invites := [], [], [];
    }

    method RemovePerson(id: string) returns (gone: bool)
      modifies this
      ensures Contents() == WithoutPerson(old(Contents()), id)
      ensures gone <==> HasPerson(old(people), id)
    {
      var before := |people|;
      OtherPeopleShrink(people, id);
      people := OtherPeople(people, id);
      gone := |people| != before;
      if gone {
        passkeys := OthersPasskeys(passkeys, id);
        invites := KeptInvites(invites, NotOf(id));
      }
    }

    method EndSessions(id: string, nowMs: int)
      modifies this
      ensures Contents() == SessionsEnded(old(Contents()), id, nowMs)
    {
      var i := FindPerson(people, id);
      if i < |people| {
        people := people[i := people[i].(notBeforeMs := nowMs)];
      }
    }

    method PasskeyUsed(id: string, moved: Option<(string, bool)>, nowMs: int)
      modifies this
      ensures Contents() == Used(old(Contents()), id, moved, nowMs)
    {
      var i := FindPasskey(passkeys, id);
      if i == |passkeys| {
        return;
      }
      var key := passkeys[i].(lastUsedMs := Some(nowMs));
      if moved.Some? {
        key := key.(passkey := moved.value.0, backedUp := moved.value.1);
      }
      passkeys := passkeys[i := key];
    }

    /** Registers a passkey unless anyone has its credential already. */
    method AddPasskey(key: Passkey) returns (added: bool)
      modifies this
      ensures Contents() == WithPasskey(old(Contents()), key)
      ensures added <==> !HasCredential(old(passkeys), key.credentialId)
    {
      if exists k :: k in passkeys && k.credentialId == key.credentialId {
        return false;
      }
      passkeys := passkeys + [key];
      added := true;
    }

    method RenamePasskey(person: string, id: string, name: string) returns (found: bool)
      modifies this
      ensures Contents() == Renamed(old(Contents()), person, id, name)
      ensures found <==> exists k :: k in old(passkeys) && k.person == person && k.id == id
    {
      var i := FindOwn(passkeys, person, id);
      found := i < |passkeys|;
      if found {
        assert passkeys[i] in passkeys;
        passkeys := passkeys[i := passkeys[i].(name := name)];
      }
    }

    method DeletePasskey(person: string, id: string) returns (removed: Removed)
      modifies this
      ensures Contents() == WithoutPasskey(old(Contents()), person, id)
      ensures removed == Deletion(old(Contents()), person, id)
    {
      var mine := Owned(passkeys, person);
      var i := FindOwn(passkeys, person, id);
      if i == |passkeys| {
        removed := NotFound;
      } else if mine <= 1 {
        removed := Last;
      } else {
        passkeys := passkeys[..i] + passkeys[i + 1..];
        removed := Yes;
      }
    }

    method CreateInvite(invite: Invite)
      modifies this
      ensures Contents() == WithInvite(old(Contents()), invite)
    {
      invites := KeptInvites(invites, PendingNotOf(invite.person, invite.createdMs));
      invites := invites + [invite];
    }

    method DeleteInvite(id: string) returns (gone: bool)
      modifies this
      ensures Contents() == WithoutInvite(old(Contents()), id)
      ensures gone <==> |old(invites)| != |invites|
    {
      var before := |invites|;
      invites := KeptInvites(invites, NotId(id));
      gone := |invites| != before;
    }

    /** Lets the invited person in with their passkey, and marks the invitation used. */
    method RedeemInvite(inviteId: string, userHandle: string, key: Passkey, nowMs: int) returns (r: Redeemed)
      modifies this
      ensures Contents() == AfterRedemption(old(Contents()), inviteId, userHandle, key, nowMs)
      ensures r == Redemption(old(Contents()), inviteId, userHandle, key, nowMs)
    {
      var i := FindPending(invites, inviteId, nowMs);
      if i == |invites| {
        return NotPending;
      }
      if exists k :: k in passkeys && k.credentialId == key.credentialId {
        return Taken;
      }
      invites := invites[i := invites[i].(usedMs := Some(nowMs))];
      var invite := invites[i];
      var j := FindPerson(people, invite.person);
      var person;
      if j < |people| {
        person := people[j];
        if invite.role == Admin {
          person := person.(role := Admin);
          people := people[j := person];
        }
      } else {
        person := Person(invite.person, invite.name, invite.role, userHandle, 0);
        people := people + [person];
      }
      passkeys := passkeys + [key];
      r := Welcome(person);
      assert people == if j < |old(people)| then old(people)[j := person] else old(people) + [person];
    }
  }

  // ---------- what filters keep ----------

  lemma {:induction false} OtherPeopleShrink(people: seq<Person>, id: string)
    ensures |OtherPeople(people, id)| <= |people|
    ensures |OtherPeople(people, id)| == |people| <==> !HasPerson(people, id)
    ensures !HasPerson(people, id) ==> OtherPeople(people, id) == people
  {
    if people != [] {
      var before, last := people[..|people| - 1], people[|people| - 1];
      OtherPeopleShrink(before, id);
      assert people == before + [last];
      assert HasPerson(people, id) <==> HasPerson(before, id) || last.id == id by {
        if HasPerson(people, id) {
          var p :| p in people && p.id == id;
          assert p in before || p == last;
        }
        assert last in people;
      }
    }
  }

  predicate PeopleDistinct(people: seq<Person>) {
    forall i, j :: 0 <= i < j < |people| ==> people[i].id != people[j].id
  }

  predicate CredentialsDistinct(passkeys: seq<Passkey>) {
    forall i, j :: 0 <= i < j < |passkeys| ==> passkeys[i].credentialId != passkeys[j].credentialId
  }

  predicate InvitesDistinct(invites: seq<Invite>) {
    forall i, j :: 0 <= i < j < |invites| ==> invites[i].id != invites[j].id && invites[i].person != invites[j].person
  }

  lemma {:induction false} OtherPeopleAre(people: seq<Person>, id: string)
    ensures forall p :: p in OtherPeople(people, id) <==> p in people && p.id != id
    ensures PeopleDistinct(people) ==> PeopleDistinct(OtherPeople(people, id))
  {
    if people != [] {
      var before, last := people[..|people| - 1], people[|people| - 1];
      OtherPeopleAre(before, id);
      assert people == before + [last];
    }
  }

  lemma {:induction false} OthersPasskeysAre(passkeys: seq<Passkey>, person: string)
    ensures forall k :: k in OthersPasskeys(passkeys, person) <==> k in passkeys && k.person != person
    ensures CredentialsDistinct(passkeys) ==> CredentialsDistinct(OthersPasskeys(passkeys, person))
  {
    if passkeys != [] {
      var before, last := passkeys[..|passkeys| - 1], passkeys[|passkeys| - 1];
      OthersPasskeysAre(before, person);
      assert passkeys == before + [last];
    }
  }

  lemma {:induction false} KeptInvitesAre(invites: seq<Invite>, keep: Keep)
    ensures forall i :: i in KeptInvites(invites, keep) <==> i in invites && IsKept(keep, i)
  {
    hide IsKept;
    if invites != [] {
      KeptInvitesAre(invites[..|invites| - 1], keep);
      assert invites == invites[..|invites| - 1] + [invites[|invites| - 1]];
    }
  }

  lemma {:induction false} KeptInvitesStayDistinct(invites: seq<Invite>, keep: Keep)
    requires InvitesDistinct(invites)
    ensures InvitesDistinct(KeptInvites(invites, keep))
  {
    hide IsKept;
    if invites != [] {
      var before, last := invites[..|invites| - 1], invites[|invites| - 1];
      KeptInvitesStayDistinct(before, keep);
      KeptInvitesAre(before, keep);
      var kept := KeptInvites(before, keep);
      forall i | 0 <= i < |kept|
        ensures kept[i].id != last.id && kept[i].person != last.person
      {
        assert kept[i] in kept;
        var k :| 0 <= k < |before| && before[k] == kept[i];
        assert invites[k] == kept[i];
      }
    }
  }

  predicate InviteIdsDistinct(invites: seq<Invite>) {
    forall i, j :: 0 <= i < j < |invites| ==> invites[i].id != invites[j].id
  }

  lemma {:induction false} KeptIdsStayDistinct(invites: seq<Invite>, keep: Keep)
    requires InviteIdsDistinct(invites)
    ensures InviteIdsDistinct(KeptInvites(invites, keep))
  {
    hide IsKept;
    if invites != [] {
      var before, last := invites[..|invites| - 1], invites[|invites| - 1];
      KeptIdsStayDistinct(before, keep);
      KeptInvitesAre(before, keep);
      var kept := KeptInvites(before, keep);
      forall i | 0 <= i < |kept|
        ensures kept[i].id != last.id
      {
        assert kept[i] in kept;
        var k :| 0 <= k < |before| && before[k] == kept[i];
        assert invites[k] == kept[i];
      }
    }
  }

  lemma {:induction false} OwnedMeansHas(passkeys: seq<Passkey>, person: string)
    ensures Owned(passkeys, person) > 0 <==> HasPasskey(passkeys, person)
  {
    if passkeys != [] {
      var before, last := passkeys[..|passkeys| - 1], passkeys[|passkeys| - 1];
      OwnedMeansHas(before, person);
      assert passkeys == before + [last];
      if HasPasskey(passkeys, person) {
        var k :| k in passkeys && k.person == person;
        assert k in before || k == last;
      }
      if HasPasskey(before, person) {
        var k :| k in before && k.person == person;
        assert k in passkeys;
      }
      assert last in passkeys;
    }
  }

  lemma {:induction false} OwnedOfSum(a: seq<Passkey>, b: seq<Passkey>, person: string)
    ensures Owned(a + b, person) == Owned(a, person) + Owned(b, person)
  {
    if b == [] {
      assert a + b == a;
    } else {
      OwnedOfSum(a, b[..|b| - 1], person);
      assert (a + b)[..|a + b| - 1] == a + b[..|b| - 1];
    }
  }

  // ---------- what every edit keeps ----------

  /** Person ids and credentials are unique, every passkey has its person, every person has a
      passkey, and no two invitations share an id or a person. */
  predicate Sound(b: Book) {
    && PeopleDistinct(b.people) && CredentialsDistinct(b.passkeys) && InvitesDistinct(b.invites)
    && (forall k :: k in b.passkeys ==> HasPerson(b.people, k.person))
    && (forall p :: p in b.people ==> HasPasskey(b.passkeys, p.id))
  }

  datatype Edit =
    | RemovePerson(id: string) | EndSessions(id: string, nowMs: int)
    | PasskeyUsed(id: string, moved: Option<(string, bool)>, nowMs: int)
    | AddPasskey(key: Passkey) | RenamePasskey(person: string, id: string, name: string)
    | DeletePasskey(person: string, id: string)
    | CreateInvite(invite: Invite) | DeleteInvite(id: string)
    | RedeemInvite(id: string, userHandle: string, key: Passkey, nowMs: int)

  function Apply(b: Book, e: Edit): Book {
    match e
    case RemovePerson(id) => WithoutPerson(b, id)
    case EndSessions(id, nowMs) => SessionsEnded(b, id, nowMs)
    case PasskeyUsed(id, moved, nowMs) => Used(b, id, moved, nowMs)
    case AddPasskey(key) => WithPasskey(b, key)
    case RenamePasskey(person, id, name) => Renamed(b, person, id, name)
    case DeletePasskey(person, id) => WithoutPasskey(b, person, id)
    case CreateInvite(invite) => WithInvite(b, invite)
    case DeleteInvite(id) => WithoutInvite(b, id)
    case RedeemInvite(id, userHandle, key, nowMs) => AfterRedemption(b, id, userHandle, key, nowMs)
  }

  /** What a caller must see to: a passkey added is for someone known, one that redeems an invitation
      is for the invited, or for someone known when the invited is known too, and an invitation has an
      id of its own. */
  predicate Fair(b: Book, e: Edit) {
    match e
    case AddPasskey(key) => HasCredential(b.passkeys, key.credentialId) || HasPerson(b.people, key.person)
    case RedeemInvite(id, userHandle, key, nowMs) =>
      (Redemption(b, id, userHandle, key, nowMs).Welcome? ==>
        var invited := b.invites[FindPending(b.invites, id, nowMs)].person;
        key.person == invited || (HasPerson(b.people, key.person) && HasPerson(b.people, invited)))
    case CreateInvite(invite) =>
      forall i :: i in b.invites && IsKept(PendingNotOf(invite.person, invite.createdMs), i) ==> i.id != invite.id
    case _ => true
  }

  lemma RemovingKeeps(b: Book, id: string)
    requires Sound(b)
    ensures Sound(WithoutPerson(b, id))
  {
    hide PeopleDistinct, CredentialsDistinct, InvitesDistinct;
    OtherPeopleAre(b.people, id);
    OthersPasskeysAre(b.passkeys, id);
    KeptInvitesAre(b.invites, NotOf(id));
    KeptInvitesStayDistinct(b.invites, NotOf(id));
    if HasPerson(b.people, id) {
      var after := WithoutPerson(b, id);
      forall k | k in after.passkeys
        ensures HasPerson(after.people, k.person)
      {
        var p :| p in b.people && p.id == k.person;
        assert p in after.people;
      }
      forall p | p in after.people
        ensures HasPasskey(after.passkeys, p.id)
      {
        assert p in b.people;
        var k :| k in b.passkeys && k.person == p.id;
        assert k in after.passkeys;
      }
    }
  }

  /** A person changed in place, id apart. */
  lemma PersonChanges(people: seq<Person>, i: nat, p: Person)
    requires i < |people| && p.id == people[i].id
    ensures PeopleDistinct(people) ==> PeopleDistinct(people[i := p])
    ensures forall id :: HasPerson(people[i := p], id) <==> HasPerson(people, id)
    ensures forall q :: q in people[i := p] ==> HasPerson(people, q.id)
  {
    var after := people[i := p];
    forall id
      ensures HasPerson(after, id) <==> HasPerson(people, id)
    {
      if HasPerson(people, id) {
        var q :| q in people && q.id == id;
        var j :| 0 <= j < |people| && people[j] == q;
        assert after[j] in after && after[j].id == id;
      }
      if HasPerson(after, id) {
        var q :| q in after && q.id == id;
        var j :| 0 <= j < |after| && after[j] == q;
        assert people[j] in people && people[j].id == id;
      }
    }
    forall q | q in after
      ensures HasPerson(people, q.id)
    {
      assert HasPerson(after, q.id);
    }
  }

  /** A passkey changed in place, its person and credential apart. */
  lemma PasskeyChanges(passkeys: seq<Passkey>, i: nat, key: Passkey)
    requires i < |passkeys| && key.person == passkeys[i].person && key.credentialId == passkeys[i].credentialId
    ensures CredentialsDistinct(passkeys) ==> CredentialsDistinct(passkeys[i := key])
    ensures forall person :: HasPasskey(passkeys[i := key], person) <==> HasPasskey(passkeys, person)
    ensures forall k :: k in passkeys[i := key] ==> HasPasskey(passkeys, k.person)
  {
    var after := passkeys[i := key];
    forall person
      ensures HasPasskey(after, person) <==> HasPasskey(passkeys, person)
    {
      if HasPasskey(passkeys, person) {
        var k :| k in passkeys && k.person == person;
        var j :| 0 <= j < |passkeys| && passkeys[j] == k;
        assert after[j] in after && after[j].person == person;
      }
      if HasPasskey(after, person) {
        var k :| k in after && k.person == person;
        var j :| 0 <= j < |after| && after[j] == k;
        assert passkeys[j] in passkeys && passkeys[j].person == person;
      }
    }
    forall k | k in after
      ensures HasPasskey(passkeys, k.person)
    {
      assert HasPasskey(after, k.person);
    }
  }

  lemma ChangingPeopleKeeps(b: Book, i: nat, p: Person)
    requires Sound(b) && i < |b.people| && p.id == b.people[i].id
    ensures Sound(b.(people := b.people[i := p]))
  {
    hide PeopleDistinct, CredentialsDistinct, InvitesDistinct;
    PersonChanges(b.people, i, p);
    var after := b.people[i := p];
    forall q | q in after
      ensures HasPasskey(b.passkeys, q.id)
    {
      var r :| r in b.people && r.id == q.id;
    }
  }

  lemma ChangingPasskeysKeeps(b: Book, i: nat, key: Passkey)
    requires Sound(b) && i < |b.passkeys|
    requires key.person == b.passkeys[i].person && key.credentialId == b.passkeys[i].credentialId
    ensures Sound(b.(passkeys := b.passkeys[i := key]))
  {
    hide PeopleDistinct, CredentialsDistinct, InvitesDistinct;
    PasskeyChanges(b.passkeys, i, key);
    var after := b.passkeys[i := key];
    forall k | k in after
      ensures HasPerson(b.people, k.person)
    {
      var r :| r in b.passkeys && r.person == k.person;
    }
  }

  /** A passkey more, for someone known, under a credential not seen before. */
  lemma AddingKeeps(b: Book, key: Passkey)
    requires Sound(b) && !HasCredential(b.passkeys, key.credentialId) && HasPerson(b.people, key.person)
    ensures Sound(b.(passkeys := b.passkeys + [key]))
  {
    hide PeopleDistinct, InvitesDistinct;
    var after := b.passkeys + [key];
    forall i | 0 <= i < |b.passkeys|
      ensures b.passkeys[i].credentialId != key.credentialId
    {
      assert b.passkeys[i] in b.passkeys;
    }
    forall p | p in b.people
      ensures HasPasskey(after, p.id)
    {
      var k :| k in b.passkeys && k.person == p.id;
      assert k in after;
    }
  }

  lemma OneLess(before: seq<Passkey>, key: Passkey, rest: seq<Passkey>, person: string)
    ensures Owned(before + [key] + rest, person) == Owned(before + rest, person) + if key.person == person then 1 else 0
  {
    OwnedOfSum(before + [key], rest, person);
    OwnedOfSum(before, [key], person);
    OwnedOfSum(before, rest, person);
    assert [key][..0] == [];
  }

  lemma CredentialsOfFewer(before: seq<Passkey>, key: Passkey, rest: seq<Passkey>)
    requires CredentialsDistinct(before + [key] + rest)
    ensures CredentialsDistinct(before + rest)
  {
    var whole, after := before + [key] + rest, before + rest;
    forall i, j | 0 <= i < j < |after|
      ensures after[i].credentialId != after[j].credentialId
    {
      assert after[i] == whole[if i < |before| then i else i + 1];
      assert after[j] == whole[if j < |before| then j else j + 1];
    }
  }

  lemma DeletingKeeps(b: Book, person: string, id: string)
    requires Sound(b)
    ensures Sound(WithoutPasskey(b, person, id))
  {
    hide PeopleDistinct, InvitesDistinct, CredentialsDistinct, Owned;
    var i := FindOwn(b.passkeys, person, id);
    if Deletion(b, person, id) == Yes {
      var before, rest, key := b.passkeys[..i], b.passkeys[i + 1..], b.passkeys[i];
      var after: seq<Passkey> := before + rest;
      assert b.passkeys == before + [key] + rest;
      CredentialsOfFewer(before, key, rest);
      forall k | k in after
        ensures HasPerson(b.people, k.person)
      {
        assert k in b.passkeys;
      }
      forall p | p in b.people
        ensures HasPasskey(after, p.id)
      {
        OneLess(before, key, rest, p.id);
        OwnedMeansHas(b.passkeys, p.id);
        OwnedMeansHas(after, p.id);
      }
    }
  }

  lemma InvitingKeeps(b: Book, invite: Invite)
    requires Sound(b) && Fair(b, CreateInvite(invite))
    ensures Sound(WithInvite(b, invite))
  {
    hide PeopleDistinct, CredentialsDistinct;
    var keep := PendingNotOf(invite.person, invite.createdMs);
    KeptInvitesAre(b.invites, keep);
    KeptInvitesStayDistinct(b.invites, keep);
    var kept := KeptInvites(b.invites, keep);
    forall i | 0 <= i < |kept|
      ensures kept[i].id != invite.id && kept[i].person != invite.person
    {
      assert kept[i] in kept;
    }
  }

  lemma SpendingKeeps(b: Book, i: nat, nowMs: int)
    requires Sound(b) && i < |b.invites|
    ensures Sound(b.(invites := b.invites[i := b.invites[i].(usedMs := Some(nowMs))]))
  {
    hide PeopleDistinct, CredentialsDistinct;
  }

  /** Someone new, with their first passkey. */
  lemma WelcomingKeeps(b: Book, person: Person, key: Passkey)
    requires Sound(b) && !HasPerson(b.people, person.id) && key.person == person.id
    requires !HasCredential(b.passkeys, key.credentialId)
    ensures Sound(b.(people := b.people + [person], passkeys := b.passkeys + [key]))
  {
    hide InvitesDistinct;
    var people, passkeys := b.people + [person], b.passkeys + [key];
    assert person in people && key in passkeys;
    forall i | 0 <= i < |b.passkeys|
      ensures b.passkeys[i].credentialId != key.credentialId
    {
      assert b.passkeys[i] in b.passkeys;
    }
    forall i | 0 <= i < |b.people|
      ensures b.people[i].id != person.id
    {
      assert b.people[i] in b.people;
    }
    forall k | k in passkeys
      ensures HasPerson(people, k.person)
    {
      if k in b.passkeys {
        var p :| p in b.people && p.id == k.person;
        assert p in people;
      }
    }
    forall p | p in people
      ensures HasPasskey(passkeys, p.id)
    {
      if p in b.people {
        var k :| k in b.passkeys && k.person == p.id;
        assert k in passkeys;
      }
    }
  }

  lemma RedeemingKeeps(b: Book, id: string, userHandle: string, key: Passkey, nowMs: int)
    requires Sound(b) && Fair(b, RedeemInvite(id, userHandle, key, nowMs))
    ensures Sound(AfterRedemption(b, id, userHandle, key, nowMs))
  {
    hide Sound, PeopleDistinct, CredentialsDistinct, InvitesDistinct;
    var i := FindPending(b.invites, id, nowMs);
    var r := Redemption(b, id, userHandle, key, nowMs);
    if r.Welcome? {
      var invited := b.invites[i].person;
      SpendingKeeps(b, i, nowMs);
      var spent := b.(invites := b.invites[i := b.invites[i].(usedMs := Some(nowMs))]);
      var j := FindPerson(b.people, invited);
      if j < |b.people| {
        ChangingPeopleKeeps(spent, j, r.person);
        PersonChanges(b.people, j, r.person);
        assert b.people[j] in b.people && HasPerson(b.people, invited);
        assert HasPerson(b.people[j := r.person], key.person);
        AddingKeeps(spent.(people := b.people[j := r.person]), key);
      } else {
        NoneFound(b.people, invited);
        WelcomingKeeps(spent, r.person, key);
      }
    }
  }

  /** Every edit keeps the book sound when its caller is fair. */
  lemma EditKeeps(b: Book, e: Edit)
    requires Sound(b) && Fair(b, e)
    ensures Sound(Apply(b, e))
  {
    hide Sound, Fair;
    match e
    case RemovePerson(id) => RemovingKeeps(b, id);
    case EndSessions(id, nowMs) =>
      var i := FindPerson(b.people, id);
      if i < |b.people| {
        ChangingPeopleKeeps(b, i, b.people[i].(notBeforeMs := nowMs));
      }
    case PasskeyUsed(id, moved, nowMs) =>
      var i := FindPasskey(b.passkeys, id);
      if i < |b.passkeys| {
        ChangingPasskeysKeeps(b, i, Used(b, id, moved, nowMs).passkeys[i]);
      }
    case AddPasskey(key) =>
      if !HasCredential(b.passkeys, key.credentialId) {
        FairToAdd(b, key);
        AddingKeeps(b, key);
      }
    case RenamePasskey(person, id, name) =>
      var i := FindOwn(b.passkeys, person, id);
      if i < |b.passkeys| {
        ChangingPasskeysKeeps(b, i, b.passkeys[i].(name := name));
      }
    case DeletePasskey(person, id) => DeletingKeeps(b, person, id);
    case CreateInvite(invite) => InvitingKeeps(b, invite);
    case DeleteInvite(id) => UninvitingKeeps(b, id);
    case RedeemInvite(id, userHandle, key, nowMs) => RedeemingKeeps(b, id, userHandle, key, nowMs);
  }

  lemma FairToAdd(b: Book, key: Passkey)
    requires Fair(b, AddPasskey(key)) && !HasCredential(b.passkeys, key.credentialId)
    ensures HasPerson(b.people, key.person)
  {
  }

  lemma UninvitingKeeps(b: Book, id: string)
    requires Sound(b)
    ensures Sound(WithoutInvite(b, id))
  {
    hide PeopleDistinct, CredentialsDistinct, InvitesDistinct;
    KeptInvitesStayDistinct(b.invites, NotId(id));
  }

  lemma NoneFound(people: seq<Person>, id: string)
    ensures FindPerson(people, id) == |people| <==> !HasPerson(people, id)
  {
    var i := FindPerson(people, id);
    if i < |people| {
      assert people[i] in people;
    } else {
      assert forall p :: p in people ==> p.id != id;
    }
  }

  /** An unfair edit breaks the book: an edit keeps it sound exactly when its caller is fair. In
      particular a passkey added for someone removed meanwhile is left with no person. */
  lemma EditKeepsIff(b: Book, e: Edit)
    requires Sound(b)
    ensures Sound(Apply(b, e)) <==> Fair(b, e)
  {
    hide PeopleDistinct, CredentialsDistinct;
    if Fair(b, e) {
      EditKeeps(b, e);
    } else {
      match e
      case AddPasskey(key) => assert key in Apply(b, e).passkeys;
      case CreateInvite(invite) => UnfairInvite(b, invite);
      case RedeemInvite(id, userHandle, key, nowMs) => UnfairRedemption(b, id, userHandle, key, nowMs);
    }
  }

  lemma UnfairInvite(b: Book, invite: Invite)
    requires !Fair(b, CreateInvite(invite))
    ensures !Sound(WithInvite(b, invite))
  {
    hide PeopleDistinct, CredentialsDistinct;
    var keep := PendingNotOf(invite.person, invite.createdMs);
    KeptInvitesAre(b.invites, keep);
    var kept := KeptInvites(b.invites, keep);
    var i :| i in b.invites && IsKept(keep, i) && i.id == invite.id;
    var m :| 0 <= m < |kept| && kept[m] == i;
    var after := WithInvite(b, invite).invites;
    assert after[m].id == after[|kept|].id;
  }

  lemma UnfairRedemption(b: Book, id: string, userHandle: string, key: Passkey, nowMs: int)
    requires Sound(b) && !Fair(b, RedeemInvite(id, userHandle, key, nowMs))
    ensures !Sound(AfterRedemption(b, id, userHandle, key, nowMs))
  {
    hide PeopleDistinct, CredentialsDistinct, InvitesDistinct;
    var after := AfterRedemption(b, id, userHandle, key, nowMs);
    var person := Redemption(b, id, userHandle, key, nowMs).person;
    var j := FindPerson(b.people, person.id);
    NoneFound(b.people, person.id);
    assert key in after.passkeys && person.id != key.person;
    if j < |b.people| {
      PersonChanges(b.people, j, person);
    } else {
      assert person in after.people;
      assert !HasPasskey(after.passkeys, person.id) by {
        assert forall k :: k in b.passkeys ==> k.person != person.id;
      }
    }
  }

  // ---------- whole runs ----------

  function After(edits: seq<Edit>): Book {
    if edits == [] then Book([], [], []) else Apply(After(edits[..|edits| - 1]), edits[|edits| - 1])
  }

  predicate AllFair(edits: seq<Edit>) {
    forall i :: 0 <= i < |edits| ==> Fair(After(edits[..i]), edits[i])
  }

  lemma {:induction false} EveryRunIsSound(edits: seq<Edit>)
    requires AllFair(edits)
    ensures Sound(After(edits))
    decreases |edits|
  {
    hide Sound, Fair, Apply;
    if edits == [] {
      EmptyIsSound();
    } else {
      var n := |edits| - 1;
      assert forall i :: 0 <= i < n ==> edits[..n][i] == edits[i] && edits[..n][..i] == edits[..i];
      EveryRunIsSound(edits[..n]);
      EditKeeps(After(edits[..n]), edits[n]);
    }
  }

  /** The book is sound all along a run exactly when every edit of it is fair. */
  lemma RunsAreSoundIff(edits: seq<Edit>)
    ensures (forall n :: 0 <= n <= |edits| ==> Sound(After(edits[..n]))) <==> AllFair(edits)
  {
    hide Sound, Fair, Apply;
    if AllFair(edits) {
      forall n | 0 <= n <= |edits|
        ensures Sound(After(edits[..n]))
      {
        assert forall i :: 0 <= i < n ==> edits[..n][i] == edits[i] && edits[..n][..i] == edits[..i];
        EveryRunIsSound(edits[..n]);
      }
    }
    if forall n :: 0 <= n <= |edits| ==> Sound(After(edits[..n])) {
      forall i | 0 <= i < |edits|
        ensures Fair(After(edits[..i]), edits[i])
      {
        assert edits[..i + 1][..i] == edits[..i];
        assert Sound(After(edits[..i])) && Sound(After(edits[..i + 1]));
        EditKeepsIff(After(edits[..i]), edits[i]);
      }
    }
  }

  lemma EmptyIsSound()
    ensures Sound(Book([], [], []))
  {
  }

  /** Someone who stays in the book keeps their name and handle; their role only rises, and only by
      redeeming an invitation to be an admin. */
  lemma RolesOnlyRise(b: Book, e: Edit, p: Person, q: Person)
    requires PeopleDistinct(b.people) && p in b.people && q in Apply(b, e).people && q.id == p.id
    ensures q.name == p.name && q.userHandle == p.userHandle
    ensures q.role == p.role
         || (&& p.role == Member && q.role == Admin && e.RedeemInvite?
             && Redemption(b, e.id, e.userHandle, e.key, e.nowMs) == Welcome(q)
             && b.invites[FindPending(b.invites, e.id, e.nowMs)].role == Admin)
  {
    hide Redemption, AfterRedemption, OtherPeople, SessionsEnded, HasPerson;
    if e.RemovePerson? {
      OtherPeopleAre(b.people, e.id);
      assert q in b.people;
      OnePersonPerId(b.people, p, q);
    } else if e.EndSessions? {
      EndingSessionsTouchesNoRole(b, e.id, e.nowMs, p, q);
    } else if e.RedeemInvite? {
      RedemptionTouchesTheInvited(b, e.id, e.userHandle, e.key, e.nowMs, p, q);
    } else {
      OthersLeavePeople(b, e);
      OnePersonPerId(b.people, p, q);
    }
  }

  lemma OnePersonPerId(people: seq<Person>, p: Person, q: Person)
    requires PeopleDistinct(people) && p in people && q in people && q.id == p.id
    ensures p == q
  {
    var i :| 0 <= i < |people| && people[i] == p;
    var j :| 0 <= j < |people| && people[j] == q;
  }

  lemma EndingSessionsTouchesNoRole(b: Book, id: string, nowMs: int, p: Person, q: Person)
    requires PeopleDistinct(b.people) && p in b.people && q in SessionsEnded(b, id, nowMs).people && q.id == p.id
    ensures q == p.(notBeforeMs := q.notBeforeMs)
  {
    var after := SessionsEnded(b, id, nowMs).people;
    var j :| 0 <= j < |after| && after[j] == q;
    assert b.people[j] in b.people;
    OnePersonPerId(b.people, p, b.people[j]);
  }

  lemma RedemptionTouchesTheInvited(b: Book, id: string, userHandle: string, key: Passkey, nowMs: int, p: Person,
                                    q: Person)
    requires PeopleDistinct(b.people) && p in b.people && q.id == p.id
    requires q in AfterRedemption(b, id, userHandle, key, nowMs).people
    ensures q == p || (&& p.role == Member && q == p.(role := Admin)
                       && Redemption(b, id, userHandle, key, nowMs) == Welcome(q)
                       && b.invites[FindPending(b.invites, id, nowMs)].role == Admin)
  {
    hide HasCredential;
    var r := Redemption(b, id, userHandle, key, nowMs);
    if r.Welcome? {
      var n := FindPerson(b.people, r.person.id);
      if q != r.person {
        assert q in b.people;
        OnePersonPerId(b.people, p, q);
      } else if n < |b.people| {
        assert b.people[n] in b.people;
        OnePersonPerId(b.people, p, b.people[n]);
      } else {
        assert false;
      }
    } else {
      OnePersonPerId(b.people, p, q);
    }
  }

  lemma OthersLeavePeople(b: Book, e: Edit)
    requires !e.RemovePerson? && !e.EndSessions? && !e.RedeemInvite?
    ensures Apply(b, e).people == b.people
  {
    hide HasCredential, HasPasskey, Owned, KeptInvites;
  }

  /** Whether the `i`-th edit redeems an invitation. */
  predicate Redeems(edits: seq<Edit>, i: nat, id: string)
    requires i < |edits|
  {
    var e := edits[i];
    e.RedeemInvite? && e.id == id && Redemption(After(edits[..i]), id, e.userHandle, e.key, e.nowMs).Welcome?
  }

  predicate Created(edits: seq<Edit>, id: string) {
    exists i :: 0 <= i < |edits| && edits[i].CreateInvite? && edits[i].invite.id == id
  }

  /** No invitation id is drawn twice. */
  predicate FreshInvites(edits: seq<Edit>) {
    forall i :: 0 <= i < |edits| && edits[i].CreateInvite? ==> !Created(edits[..i], edits[i].invite.id)
  }

  /** The invitations of an id are all used. */
  predicate UsedUp(b: Book, id: string) {
    forall i :: i in b.invites && i.id == id ==> i.usedMs.Some?
  }

  lemma CreatedBefore(edits: seq<Edit>, id: string)
    requires edits != []
    ensures var n := |edits| - 1;
            Created(edits, id) <==> Created(edits[..n], id) || (edits[n].CreateInvite? && edits[n].invite.id == id)
  {
    var n := |edits| - 1;
    var before := edits[..n];
    if Created(before, id) {
      var i :| 0 <= i < |before| && before[i].CreateInvite? && before[i].invite.id == id;
      assert edits[i] == before[i];
    }
    if Created(edits, id) {
      var i :| 0 <= i < |edits| && edits[i].CreateInvite? && edits[i].invite.id == id;
      if i < n {
        assert before[i] == edits[i];
      }
    }
  }

  lemma FreshPrefix(edits: seq<Edit>, n: nat)
    requires FreshInvites(edits) && n <= |edits|
    ensures FreshInvites(edits[..n])
  {
    var before := edits[..n];
    forall i | 0 <= i < |before| && before[i].CreateInvite?
      ensures !Created(before[..i], before[i].invite.id)
    {
      assert before[..i] == edits[..i] && before[i] == edits[i];
    }
  }

  /** Where an edit's invitations come from: they were there, they were created, or just used. */
  lemma InvitesComeFrom(b: Book, e: Edit, i: Invite)
    requires i in Apply(b, e).invites
    ensures i in b.invites || (e.CreateInvite? && i == e.invite)
         || (i.usedMs.Some? && exists j :: j in b.invites && j.id == i.id)
  {
    hide HasCredential, HasPasskey, HasPerson, Owned, Invited;
    match e
    case RemovePerson(id) => KeptInvitesAre(b.invites, NotOf(id));
    case CreateInvite(invite) => KeptInvitesAre(b.invites, PendingNotOf(invite.person, invite.createdMs));
    case DeleteInvite(id) => KeptInvitesAre(b.invites, NotId(id));
    case RedeemInvite(id, userHandle, key, nowMs) =>
      var n := FindPending(b.invites, id, nowMs);
      if n < |b.invites| {
        assert b.invites[n] in b.invites;
      }
    case _ =>
  }

  lemma {:induction false} InvitesWereCreated(edits: seq<Edit>, i: Invite)
    requires i in After(edits).invites
    ensures Created(edits, i.id)
    decreases |edits|
  {
    hide Apply, Created;
    if edits != [] {
      var n := |edits| - 1;
      CreatedBefore(edits, i.id);
      InvitesComeFrom(After(edits[..n]), edits[n], i);
      if i in After(edits[..n]).invites {
        InvitesWereCreated(edits[..n], i);
      } else if !edits[n].CreateInvite? || i != edits[n].invite {
        var j :| j in After(edits[..n]).invites && j.id == i.id;
        InvitesWereCreated(edits[..n], j);
      }
    }
  }

  /** Ids drawn once stay distinct in the book, whatever else the callers do. */
  lemma {:induction false} InviteIdsStayDistinct(edits: seq<Edit>)
    requires FreshInvites(edits)
    ensures InviteIdsDistinct(After(edits).invites)
    decreases |edits|
  {
    hide Apply, Created, InviteIdsDistinct;
    if edits == [] {
      assert InviteIdsDistinct([]) by { NoInvites(); }
    } else {
      var n := |edits| - 1;
      var before, e := After(edits[..n]), edits[n];
      FreshPrefix(edits, n);
      InviteIdsStayDistinct(edits[..n]);
      if e.CreateInvite? {
        forall i | i in before.invites
          ensures i.id != e.invite.id
        {
          InvitesWereCreated(edits[..n], i);
          assert !Created(edits[..n], e.invite.id);
        }
      }
      EditKeepsInviteIds(before, e);
    }
  }

  lemma NoInvites()
    ensures InviteIdsDistinct([])
  {
  }

  lemma EditKeepsInviteIds(b: Book, e: Edit)
    requires InviteIdsDistinct(b.invites)
    requires e.CreateInvite? ==> forall i :: i in b.invites ==> i.id != e.invite.id
    ensures InviteIdsDistinct(Apply(b, e).invites)
  {
    hide HasCredential, HasPasskey, HasPerson, Owned, Invited, IsKept;
    match e
    case RemovePerson(id) => KeptIdsStayDistinct(b.invites, NotOf(id));
    case DeleteInvite(id) => KeptIdsStayDistinct(b.invites, NotId(id));
    case CreateInvite(invite) =>
      var keep := PendingNotOf(invite.person, invite.createdMs);
      KeptIdsStayDistinct(b.invites, keep);
      KeptInvitesAre(b.invites, keep);
      var kept := KeptInvites(b.invites, keep);
      assert forall i :: 0 <= i < |kept| ==> kept[i] in kept;
    case _ =>
  }

  /** After a redemption, the invitation is used for good. */
  lemma {:induction false} RedeemedStaysUsed(edits: seq<Edit>, i: nat, id: string)
    requires FreshInvites(edits) && i < |edits| && Redeems(edits, i, id)
    ensures UsedUp(After(edits), id) && Created(edits, id)
    decreases |edits|
  {
    hide Apply, Created;
    var n := |edits| - 1;
    var before := After(edits[..n]);
    FreshPrefix(edits, n);
    CreatedBefore(edits, id);
    assert forall k :: 0 <= k < n ==> edits[..n][k] == edits[k] && edits[..n][..k] == edits[..k];
    if i == n {
      InviteIdsStayDistinct(edits[..n]);
      RedemptionUses(before, edits[n]);
      var used := before.invites[FindPending(before.invites, id, edits[n].nowMs)];
      InvitesWereCreated(edits[..n], used);
    } else {
      RedeemedStaysUsed(edits[..n], i, id);
      assert edits[n].CreateInvite? ==> !Created(edits[..n], edits[n].invite.id);
      forall x | x in After(edits).invites && x.id == id
        ensures x.usedMs.Some?
      {
        InvitesComeFrom(before, edits[n], x);
      }
    }
  }

  lemma RedemptionUses(b: Book, e: Edit)
    requires InviteIdsDistinct(b.invites) && e.RedeemInvite?
    requires Redemption(b, e.id, e.userHandle, e.key, e.nowMs).Welcome?
    ensures UsedUp(Apply(b, e), e.id)
  {
    hide HasCredential, HasPasskey, HasPerson, Invited;
    var n := FindPending(b.invites, e.id, e.nowMs);
    var after := Apply(b, e).invites;
    assert forall m :: 0 <= m < |after| && m != n ==> after[m].id == b.invites[m].id != b.invites[n].id;
    forall x | x in after && x.id == e.id
      ensures x.usedMs.Some?
    {
      var m :| 0 <= m < |after| && after[m] == x;
    }
  }

  lemma UsedUpIsNotPending(b: Book, id: string, nowMs: int)
    requires UsedUp(b, id)
    ensures FindPending(b.invites, id, nowMs) == |b.invites|
  {
    assert forall k :: 0 <= k < |b.invites| && b.invites[k].id == id ==> b.invites[k].usedMs.Some?;
  }

  /** An invitation lets one person in, once. */
  lemma RedeemedAtMostOnce(edits: seq<Edit>, i: nat, j: nat, id: string)
    requires FreshInvites(edits) && i < |edits| && j < |edits|
    requires Redeems(edits, i, id) && Redeems(edits, j, id)
    ensures i == j
  {
    hide Apply, Created, After;
    if i != j {
      var first, second := if i < j then i else j, if i < j then j else i;
      var before := edits[..second];
      assert before[..first] == edits[..first] && before[first] == edits[first];
      FreshPrefix(edits, second);
      RedeemedStaysUsed(before, first, id);
      UsedUpIsNotPending(After(before), id, edits[second].nowMs);
      assert false;
    }
  }
}
