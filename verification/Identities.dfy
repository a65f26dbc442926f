/** Users and their OAuth identities (`identity_service.py`, and the user lookup of
    `email_auth_service.py`) over tables with the database's uniqueness constraints and cascades. */
module Identities {
  import opened Prelude

  datatype Provider = Google | Yandex | GitHub | Telegram

  function Name(p: Provider): string {
    match p
    case Google => "google"
    case Yandex => "yandex"
    case GitHub => "github"
    case Telegram => "telegram"
  }

  const SYNTH_SUFFIX := "@noreply.invalid"

  /** The address made up for an account whose provider gives none. */
  function SynthEmail(p: Provider, subject: string): string {
    Name(p) + "-" + subject + SYNTH_SUFFIX
  }

  predicate HasSuffix(s: string, suffix: string) {
    |suffix| <= |s| && s[|s| - |suffix|..] == suffix
  }

  predicate IsSynthetic(email: string) { HasSuffix(email, SYNTH_SUFFIX) }

  lemma NameHasNoDash(p: Provider)
    ensures '-' !in Name(p)
  {
  }

  lemma NamesDiffer(p: Provider, q: Provider)
    ensures Name(p) == Name(q) ==> p == q
  {
  }

  /** Made-up addresses lie in the reserved domain and never collide. */
  lemma SynthEmailInjective(p: Provider, a: string, q: Provider, b: string)
    ensures IsSynthetic(SynthEmail(p, a))
    ensures SynthEmail(p, a) == SynthEmail(q, b) <==> p == q && a == b
  {
    var x, y := SynthEmail(p, a), SynthEmail(q, b);
    assert x[|x| - |SYNTH_SUFFIX|..] == SYNTH_SUFFIX;
    if x == y {
      NameHasNoDash(p);
      NameHasNoDash(q);
      assert x[|Name(p)|] == '-' && y[|Name(q)|] == '-';
      assert forall i | 0 <= i < |Name(p)| :: x[i] == Name(p)[i] && Name(p)[i] in Name(p);
      assert forall i | 0 <= i < |Name(q)| :: y[i] == Name(q)[i] && Name(q)[i] in Name(q);
      assert |Name(p)| == |Name(q)|;
      assert Name(p) == x[..|Name(p)|] == y[..|Name(q)|] == Name(q);
      NamesDiffer(p, q);
      assert a == x[|Name(p)| + 1..|x| - |SYNTH_SUFFIX|] == b;
    }
  }

  // ---------- tables ----------

  datatype User = User(id: Uuid, email: string, lastLogin: Option<int>)

  datatype Identity = Identity(user: Uuid, provider: Provider, subject: string, email: Option<string>)

  datatype Db = Db(users: seq<User>, identities: seq<Identity>)

  predicate SameSubject(x: Identity, y: Identity) { x.provider == y.provider && x.subject == y.subject }

  /** The unique constraints of `users`. */
  ghost predicate UsersUnique(t: seq<User>) {
    forall i, j | 0 <= i < j < |t| :: t[i].email != t[j].email && t[i].id != t[j].id
  }

  /** The unique constraint of `oauth_identities`. */
  ghost predicate SubjectsUnique(t: seq<Identity>) {
    forall i, j | 0 <= i < j < |t| :: !SameSubject(t[i], t[j])
  }

  function FindIdentity(t: seq<Identity>, p: Provider, subject: string): (r: Option<Identity>)
    ensures r.None? <==> forall x | x in t :: !(x.provider == p && x.subject == subject)
    ensures r.Some? ==> r.value in t && r.value.provider == p && r.value.subject == subject
  {
    if t == [] then None
    else if t[0].provider == p && t[0].subject == subject then Some(t[0])
    else FindIdentity(t[1..], p, subject)
  }

  function FindUser(t: seq<User>, id: Uuid): (r: Option<User>)
    ensures r.None? <==> forall x | x in t :: x.id != id
    ensures r.Some? ==> r.value in t && r.value.id == id
  {
    if t == [] then None else if t[0].id == id then Some(t[0]) else FindUser(t[1..], id)
  }

  function FindEmail(t: seq<User>, email: string): (r: Option<User>)
    ensures r.None? <==> forall x | x in t :: x.email != email
    ensures r.Some? ==> r.value in t && r.value.email == email
  {
    if t == [] then None else if t[0].email == email then Some(t[0]) else FindEmail(t[1..], email)
  }

  /** INSERT with the unique constraints on id and email. */
  function InsertUser(db: Db, id: Uuid, email: string): Option<Db> {
    if FindUser(db.users, id).Some? || FindEmail(db.users, email).Some? then None
    else Some(db.(users := db.users + [User(id, email, None)]))
  }

  /** INSERT with the unique constraint on provider and subject and the foreign key. */
  function InsertIdentity(db: Db, x: Identity): Option<Db> {
    if FindIdentity(db.identities, x.provider, x.subject).Some? || FindUser(db.users, x.user).None? then None
    else Some(db.(identities := db.identities + [x]))
  }

  function Touch(db: Db, id: Uuid, now: int): Db {
    db.(users := seq(|db.users|, i requires 0 <= i < |db.users| =>
      if db.users[i].id == id then db.users[i].(lastLogin := Some(now)) else db.users[i]))
  }

  // ---------- the operations ----------

  /** The user a login resolved to; None when a constraint failed and the transaction rolled back. */
  datatype Login = Login(user: Option<Uuid>, db: Db)

  function Falsy(email: Option<string>): bool { email.None? || email.value == "" }

  function EmailOrSynth(p: Provider, subject: string, email: Option<string>): string {
    if Falsy(email) then SynthEmail(p, subject) else email.value
  }

  /** Create the user if needed, link the identity, record the login. */
  function Link(
      db: Db, user: Option<User>, newId: Uuid, p: Provider, subject: string, email: Option<string>, now: int): Login
  {
    var created := if user.Some? then Some(db) else InsertUser(db, newId, EmailOrSynth(p, subject, email));
    if created.None? then Login(None, db)
    else
      var id := if user.Some? then user.value.id else newId;
      var linked := InsertIdentity(created.value, Identity(id, p, subject, email));
      if linked.None? then Login(None, db) else Login(Some(id), Touch(linked.value, id, now))
  }

  function Resolve(db: Db, p: Provider, subject: string, email: Option<string>, newId: Uuid, now: int): Login {
    var existing := FindIdentity(db.identities, p, subject);
    if existing.Some? then
      var user := FindUser(db.users, existing.value.user);
      if user.Some? then Login(Some(user.value.id), Touch(db, user.value.id, now))
      else Link(db, None, newId, p, subject, email, now)
    else Link(db, if Falsy(email) then None else FindEmail(db.users, email.value), newId, p, subject, email, now)
  }

  function EmailLogin(db: Db, email: string, newId: Uuid, now: int): Login {
    var user := FindEmail(db.users, email);
    if user.Some? then Login(Some(user.value.id), Touch(db, user.value.id, now))
    else
      var created := InsertUser(db, newId, email);
      if created.None? then Login(None, db) else Login(Some(newId), Touch(created.value, newId, now))
  }

  function UsersWithout(t: seq<User>, id: Uuid): (r: seq<User>)
    ensures forall x :: x in r <==> x in t && x.id != id
  {
    if t == [] then [] else (if t[0].id == id then [] else [t[0]]) + UsersWithout(t[1..], id)
  }

  function IdentitiesWithout(t: seq<Identity>, id: Uuid): (r: seq<Identity>)
    ensures forall x :: x in r <==> x in t && x.user != id
  {
    if t == [] then [] else (if t[0].user == id then [] else [t[0]]) + IdentitiesWithout(t[1..], id)
  }

  /** DELETE with ON DELETE CASCADE to the identities. */
  function DeleteUser(db: Db, id: Uuid): Db {
    Db(UsersWithout(db.users, id), IdentitiesWithout(db.identities, id))
  }

  // ---------- runs ----------

  datatype Event =
    | OAuth(provider: Provider, subject: string, email: Option<string>, newId: Uuid, at: int)
    | Email(address: string, newId: Uuid, at: int)
    | Delete(user: Uuid)

  function Perform(db: Db, e: Event): Login {
    match e
    case OAuth(p, subject, email, newId, at) => Resolve(db, p, subject, email, newId, at)
    case Email(email, newId, at) => EmailLogin(db, email, newId, at)
    case Delete(user) => Login(Some(user), DeleteUser(db, user))
  }

  function Run(events: seq<Event>): Db {
    if events == [] then Db([], [])
    else Perform(Run(events[..|events| - 1]), events[|events| - 1]).db
  }

  /** The addresses people log in with lie outside the reserved domain. */
  predicate RealEmails(e: Event) {
    match e
    case OAuth(_, _, email, _, _) => email.Some? ==> !IsSynthetic(email.value)
    case Email(email, _, _) => !IsSynthetic(email)
    case Delete(_) => true
  }

  predicate DrawsId(e: Event) { e.OAuth? || e.Email? }

  ghost predicate Sound(events: seq<Event>) {
    && (forall e | e in events :: RealEmails(e))
    && (forall i, j | 0 <= i < j < |events| && DrawsId(events[i]) && DrawsId(events[j]) ::
          events[i].newId != events[j].newId)
  }

  // ---------- the invariant ----------

  /** A user with a made-up address still has the identity it was made up for. */
  ghost predicate SynthOwned(db: Db) {
    forall u | u in db.users && IsSynthetic(u.email) ::
      exists x :: x in db.identities && x.user == u.id && u.email == SynthEmail(x.provider, x.subject)
  }

  /** The foreign key of `oauth_identities`. */
  ghost predicate NoDangling(db: Db) {
    forall x | x in db.identities :: FindUser(db.users, x.user).Some?
  }

  ghost predicate Inv(db: Db) {
    UsersUnique(db.users) && SubjectsUnique(db.identities) && NoDangling(db) && SynthOwned(db)
  }

  /** Touching a login time changes neither ids nor addresses. */
  lemma TouchKeepsInv(db: Db, id: Uuid, now: int)
    requires Inv(db)
    ensures Inv(Touch(db, id, now)) && Touch(db, id, now).identities == db.identities
    ensures forall k :: FindUser(Touch(db, id, now).users, k).Some? <==> FindUser(db.users, k).Some?
  {
    var t := Touch(db, id, now);
    assert |t.users| == |db.users| && forall i | 0 <= i < |t.users| ::
      t.users[i].id == db.users[i].id && t.users[i].email == db.users[i].email;
    forall k ensures FindUser(t.users, k).Some? <==> FindUser(db.users, k).Some? {
      if u :| u in db.users && u.id == k {
        var i :| 0 <= i < |db.users| && db.users[i] == u;
        assert t.users[i].id == k && t.users[i] in t.users;
      }
      if u :| u in t.users && u.id == k {
        var i :| 0 <= i < |t.users| && t.users[i] == u;
        assert db.users[i].id == k && db.users[i] in db.users;
      }
    }
    forall u | u in t.users && IsSynthetic(u.email)
      ensures exists x :: x in t.identities && x.user == u.id && u.email == SynthEmail(x.provider, x.subject)
    {
      var i :| 0 <= i < |t.users| && t.users[i] == u;
      assert db.users[i] in db.users;
    }
  }

  /** A made-up address is free as long as its identity does not exist. */
  lemma SynthEmailIsFree(db: Db, p: Provider, subject: string)
    requires Inv(db) && FindIdentity(db.identities, p, subject).None?
    ensures FindEmail(db.users, SynthEmail(p, subject)).None?
  {
    var email := SynthEmail(p, subject);
    SynthEmailInjective(p, subject, p, subject);
    if FindEmail(db.users, email).Some? {
      var u := FindEmail(db.users, email).value;
      var x :| x in db.identities && x.user == u.id && u.email == SynthEmail(x.provider, x.subject);
      SynthEmailInjective(p, subject, x.provider, x.subject);
    }
  }

  lemma InsertUserKeepsTables(db: Db, id: Uuid, email: string)
    requires Inv(db) && InsertUser(db, id, email).Some?
    ensures var t := InsertUser(db, id, email).value;
            UsersUnique(t.users) && SubjectsUnique(t.identities) && NoDangling(t) && t.identities == db.identities
    ensures !IsSynthetic(email) ==> Inv(InsertUser(db, id, email).value)
  {
  }

  lemma InsertIdentityKeepsInv(db: Db, x: Identity)
    requires UsersUnique(db.users) && SubjectsUnique(db.identities) && NoDangling(db)
    requires FindIdentity(db.identities, x.provider, x.subject).None? && FindUser(db.users, x.user).Some?
    requires forall u | u in db.users && IsSynthetic(u.email) ::
      (u.id == x.user && u.email == SynthEmail(x.provider, x.subject)) ||
      exists y :: y in db.identities && y.user == u.id && u.email == SynthEmail(y.provider, y.subject)
    ensures InsertIdentity(db, x).Some? && Inv(InsertIdentity(db, x).value)
  {
  }

  /** Linking a new subject to an existing user succeeds and keeps the invariant. */
  lemma LinkExisting(db: Db, user: User, newId: Uuid, p: Provider, subject: string, email: Option<string>, now: int)
    requires Inv(db) && FindIdentity(db.identities, p, subject).None? && user in db.users
    ensures var r := Link(db, Some(user), newId, p, subject, email, now);
            && r.user == Some(user.id) && Inv(r.db)
            && r.db.identities == db.identities + [Identity(user.id, p, subject, email)]
  {
    var x := Identity(user.id, p, subject, email);
    InsertIdentityKeepsInv(db, x);
    TouchKeepsInv(InsertIdentity(db, x).value, user.id, now);
  }

  /** After creating the user of a new subject, every made-up address has its identity or is about to. */
  lemma CreatedUserExplained(db: Db, newId: Uuid, p: Provider, subject: string, email: Option<string>, u: User)
    requires Inv(db) && (u in db.users || u == User(newId, EmailOrSynth(p, subject, email), None))
    requires (email.Some? ==> !IsSynthetic(email.value)) && IsSynthetic(u.email)
    ensures (u.id == newId && u.email == SynthEmail(p, subject)) ||
            exists y :: y in db.identities && y.user == u.id && u.email == SynthEmail(y.provider, y.subject)
  {
  }

  lemma LinkedUserKeepsInv(db: Db, newId: Uuid, p: Provider, subject: string, email: Option<string>)
    requires Inv(db) && FindIdentity(db.identities, p, subject).None?
    requires InsertUser(db, newId, EmailOrSynth(p, subject, email)).Some?
    requires email.Some? ==> !IsSynthetic(email.value)
    ensures var linked := InsertIdentity(InsertUser(db, newId, EmailOrSynth(p, subject, email)).value,
                                         Identity(newId, p, subject, email));
            linked.Some? && Inv(linked.value)
  {
    var address := EmailOrSynth(p, subject, email);
    InsertUserKeepsTables(db, newId, address);
    var created := InsertUser(db, newId, address).value;
    assert created.users[|db.users|] in created.users;
    forall u | u in created.users && IsSynthetic(u.email)
      ensures (u.id == newId && u.email == SynthEmail(p, subject)) ||
              exists y :: y in created.identities && y.user == u.id && u.email == SynthEmail(y.provider, y.subject)
    {
      CreatedUserExplained(db, newId, p, subject, email, u);
    }
    InsertIdentityKeepsInv(created, Identity(newId, p, subject, email));
  }

  /** So does linking it to a fresh user whose address is free. */
  lemma LinkFresh(db: Db, newId: Uuid, p: Provider, subject: string, email: Option<string>, now: int)
    requires Inv(db) && FindIdentity(db.identities, p, subject).None?
    requires FindUser(db.users, newId).None? && FindEmail(db.users, EmailOrSynth(p, subject, email)).None?
    requires email.Some? ==> !IsSynthetic(email.value)
    ensures var r := Link(db, None, newId, p, subject, email, now);
            && r.user == Some(newId) && Inv(r.db)
            && r.db.identities == db.identities + [Identity(newId, p, subject, email)]
  {
    LinkedUserKeepsInv(db, newId, p, subject, email);
    var created := InsertUser(db, newId, EmailOrSynth(p, subject, email)).value;
    TouchKeepsInv(InsertIdentity(created, Identity(newId, p, subject, email)).value, newId, now);
  }

  lemma ResolveKeepsInv(db: Db, p: Provider, subject: string, email: Option<string>, newId: Uuid, now: int)
    requires Inv(db) && FindUser(db.users, newId).None? && (email.Some? ==> !IsSynthetic(email.value))
    ensures var r := Resolve(db, p, subject, email, newId, now);
            && Inv(r.db) && r.user.Some?
            && (exists x :: x in r.db.identities && x.user == r.user.value && x.provider == p && x.subject == subject)
            && forall x | x in db.identities :: x in r.db.identities
  {
    var existing := FindIdentity(db.identities, p, subject);
    if existing.Some? {
      TouchKeepsInv(db, existing.value.user, now);
    } else {
      if Falsy(email) {
        SynthEmailIsFree(db, p, subject);
      }
      var user := if Falsy(email) then None else FindEmail(db.users, email.value);
      if user.Some? {
        LinkExisting(db, user.value, newId, p, subject, email, now);
      } else {
        LinkFresh(db, newId, p, subject, email, now);
      }
      var r := Link(db, user, newId, p, subject, email, now);
      assert r.db.identities[|db.identities|] == Identity(r.user.value, p, subject, email);
    }
  }

  lemma {:induction false} UsersWithoutKeepsUnique(t: seq<User>, id: Uuid)
    requires UsersUnique(t)
    ensures UsersUnique(UsersWithout(t, id))
  {
    if t != [] {
      UsersWithoutKeepsUnique(t[1..], id);
      var rest := UsersWithout(t[1..], id);
      forall k | 0 <= k < |rest| ensures rest[k].email != t[0].email && rest[k].id != t[0].id {
        assert rest[k] in t[1..];
      }
      if t[0].id == id {
        assert UsersWithout(t, id) == rest;
      }
    }
  }

  lemma {:induction false} IdentitiesWithoutKeepsUnique(t: seq<Identity>, id: Uuid)
    requires SubjectsUnique(t)
    ensures SubjectsUnique(IdentitiesWithout(t, id))
  {
    if t != [] {
      IdentitiesWithoutKeepsUnique(t[1..], id);
      var rest := IdentitiesWithout(t[1..], id);
      forall k | 0 <= k < |rest| ensures !SameSubject(t[0], rest[k]) {
        assert rest[k] in t[1..];
      }
      if t[0].user == id {
        assert IdentitiesWithout(t, id) == rest;
      }
    }
  }

  lemma DeleteKeepsInv(db: Db, id: Uuid)
    requires Inv(db)
    ensures Inv(DeleteUser(db, id))
  {
    var t := DeleteUser(db, id);
    UsersWithoutKeepsUnique(db.users, id);
    IdentitiesWithoutKeepsUnique(db.identities, id);
    forall x | x in t.identities ensures FindUser(t.users, x.user).Some? {
      var u := FindUser(db.users, x.user).value;
      assert u in t.users;
    }
    forall u | u in t.users && IsSynthetic(u.email)
      ensures exists x :: x in t.identities && x.user == u.id && u.email == SynthEmail(x.provider, x.subject)
    {
      var x :| x in db.identities && x.user == u.id && u.email == SynthEmail(x.provider, x.subject);
      assert x in t.identities;
    }
  }

  lemma TouchKeepsIds(db: Db, touched: Uuid, now: int, id: Uuid)
    requires FindUser(db.users, id).None?
    ensures FindUser(Touch(db, touched, now).users, id).None?
  {
  }

  lemma InsertUserAddsOnly(db: Db, newId: Uuid, email: string, id: Uuid)
    requires FindUser(db.users, id).None? && id != newId
    ensures InsertUser(db, newId, email).Some? ==> FindUser(InsertUser(db, newId, email).value.users, id).None?
  {
  }

  lemma NewUserIsDrawn(db: Db, e: Event, id: Uuid)
    requires FindUser(db.users, id).None? && (DrawsId(e) ==> e.newId != id)
    ensures FindUser(Perform(db, e).db.users, id).None?
  {
    if DrawsId(e) {
      forall touched, now { TouchKeepsIds(db, touched, now, id); }
      var address := if e.Email? then e.address else EmailOrSynth(e.provider, e.subject, e.email);
      InsertUserAddsOnly(db, e.newId, address, id);
      var created := InsertUser(db, e.newId, address);
      if created.Some? {
        forall touched, now { TouchKeepsIds(created.value, touched, now, id); }
      }
      if e.OAuth? {
        forall base: Db, x, touched, now | FindUser(base.users, id).None? && InsertIdentity(base, x).Some?
          ensures FindUser(Touch(InsertIdentity(base, x).value, touched, now).users, id).None?
        {
          TouchKeepsIds(InsertIdentity(base, x).value, touched, now, id);
        }
      }
    }
  }

  /** Every user id was drawn by an event of the run. */
  lemma {:induction false} UserIdsAreDrawn(events: seq<Event>, id: Uuid)
    requires FindUser(Run(events).users, id).Some?
    ensures exists i :: 0 <= i < |events| && DrawsId(events[i]) && events[i].newId == id
  {
    var n := |events| - 1;
    var before, after := Run(events[..n]), Run(events);
    if FindUser(before.users, id).Some? {
      UserIdsAreDrawn(events[..n], id);
      var i :| 0 <= i < n && DrawsId(events[..n][i]) && events[..n][i].newId == id;
      assert DrawsId(events[i]) && events[i].newId == id;
    } else {
      if !(DrawsId(events[n]) && events[n].newId == id) {
        NewUserIsDrawn(before, events[n], id);
      }
      assert DrawsId(events[n]) && events[n].newId == id;
    }
  }

  lemma FreshIdIsFree(events: seq<Event>, e: Event)
    requires Sound(events + [e]) && DrawsId(e)
    ensures FindUser(Run(events).users, e.newId).None?
  {
    var all := events + [e];
    forall i | 0 <= i < |events| && DrawsId(events[i]) ensures events[i].newId != e.newId {
      assert all[i] == events[i] && all[|events|] == e;
    }
    if FindUser(Run(events).users, e.newId).Some? {
      UserIdsAreDrawn(events, e.newId);
    }
  }

  lemma SoundPrefix(events: seq<Event>)
    requires events != [] && Sound(events)
    ensures Sound(events[..|events| - 1]) && RealEmails(events[|events| - 1])
  {
  }

  /** In every run with real addresses: emails and (provider, subject) pairs are unique, no identity is
      dangling, and no operation ever violates a constraint. */
  lemma {:induction false} RunKeepsInv(events: seq<Event>)
    requires Sound(events)
    ensures Inv(Run(events))
    ensures events != [] ==> Perform(Run(events[..|events| - 1]), events[|events| - 1]).user.Some?
  {
    if events != [] {
      var n := |events| - 1;
      var before, e := Run(events[..n]), events[n];
      assert events == events[..n] + [e];
      SoundPrefix(events);
      RunKeepsInv(events[..n]);
      if DrawsId(e) {
        FreshIdIsFree(events[..n], e);
      }
      match e {
        case OAuth(p, subject, email, newId, at) => ResolveKeepsInv(before, p, subject, email, newId, at);
        case Delete(user) => DeleteKeepsInv(before, user);
        case Email(email, newId, at) =>
          var found := FindEmail(before.users, email);
          if found.Some? {
            TouchKeepsInv(before, found.value.id, at);
          } else {
            InsertUserKeepsTables(before, newId, email);
            TouchKeepsInv(InsertUser(before, newId, email).value, newId, at);
          }
      }
    }
  }

  // ---------- stability ----------

  lemma SurvivesOneMore(events: seq<Event>, e: Event, x: Identity)
    requires x in Run(events).identities && e != Delete(x.user)
    ensures x in Run(events + [e]).identities
  {
  }

  /** An identity survives everything but the deletion of its user. */
  lemma {:induction false} IdentitySurvives(events: seq<Event>, more: seq<Event>, x: Identity)
    requires x in Run(events).identities
    requires forall e | e in more :: e != Delete(x.user)
    ensures x in Run(events + more).identities
    decreases |more|
  {
    if more == [] {
      assert events + more == events;
    } else {
      var init, last := more[..|more| - 1], more[|more| - 1];
      var before := events + init;
      assert events + more == before + [last];
      assert last in more && forall e | e in init :: e in more;
      IdentitySurvives(events, init, x);
      SurvivesOneMore(before, last, x);
    }
  }

  lemma SubjectDeterminesIdentity(db: Db, x: Identity, y: Identity)
    requires SubjectsUnique(db.identities) && x in db.identities && y in db.identities
    requires x.provider == y.provider && x.subject == y.subject
    ensures x == y
  {
  }

  lemma SoundCut(events: seq<Event>, more: seq<Event>)
    requires Sound(events + more)
    ensures Sound(events)
  {
    var all := events + more;
    assert forall e | e in events :: e in all;
    assert forall i | 0 <= i < |events| :: all[i] == events[i];
  }

  /** Once a (provider, subject) has resolved to a user, it resolves to that user after any further run
      that does not delete the user, whatever address it comes with. */
  lemma SameSubjectSameUser(events: seq<Event>, first: Event, more: seq<Event>, again: Event)
    requires first.OAuth? && again.OAuth? && first.provider == again.provider && first.subject == again.subject
    requires Sound(events + [first] + more + [again])
    requires var user := Perform(Run(events), first).user; forall e | e in more && e.Delete? :: user != Some(e.user)
    ensures Perform(Run(events), first).user.Some?
    ensures Perform(Run(events + [first] + more), again).user == Perform(Run(events), first).user
  {
    var all := events + [first] + more;
    assert (all + [again])[..|all|] == all;
    SoundPrefix(all + [again]);
    var begun := events + [first];
    SoundCut(begun, more);
    assert begun[..|events|] == events;
    RunKeepsInv(begun);
    RunKeepsInv(all);
    SoundPrefix(begun);
    RunKeepsInv(events);
    FreshIdIsFree(events, first);
    ResolveKeepsInv(Run(events), first.provider, first.subject, first.email, first.newId, first.at);
    var user := Perform(Run(events), first).user.value;
    var x :| x in Run(begun).identities && x.user == user && x.provider == first.provider && x.subject == first.subject;
    IdentitySurvives(begun, more, x);
    var found := FindIdentity(Run(all).identities, first.provider, first.subject).value;
    SubjectDeterminesIdentity(Run(all), x, found);
  }

  // ---------- who logs in ----------

  /** The users are the same, and the given one has just logged in. */
  predicate LoggedIn(before: seq<User>, after: seq<User>, id: Uuid, now: int) {
    && |after| == |before|
    && forall i | 0 <= i < |before| ::
         after[i] == User(before[i].id, before[i].email, if before[i].id == id then Some(now) else before[i].lastLogin)
  }

  lemma AddressDeterminesUser(db: Db, u: User, v: User)
    requires UsersUnique(db.users) && u in db.users && v in db.users && u.email == v.email
    ensures u == v
  {
    var i :| 0 <= i < |db.users| && db.users[i] == u;
    var j :| 0 <= j < |db.users| && db.users[j] == v;
  }

  /** The user has the given, non-empty address. */
  ghost predicate Owns(db: Db, u: User, email: Option<string>) {
    u in db.users && u.email != "" && email == Some(u.email)
  }

  /** A known subject logs in as its user, whatever address it comes with. */
  lemma KnownSubjectLogsIn(db: Db, x: Identity, email: Option<string>, newId: Uuid, now: int)
    requires Inv(db) && x in db.identities
    ensures var r := Resolve(db, x.provider, x.subject, email, newId, now);
      r.user == Some(x.user) && r.db.identities == db.identities && LoggedIn(db.users, r.db.users, x.user, now)
  {
    SubjectDeterminesIdentity(db, x, FindIdentity(db.identities, x.provider, x.subject).value);
  }

  /** An unknown subject with the address of a user is linked to that user, who logs in. */
  lemma KnownAddressLogsIn(db: Db, u: User, p: Provider, subject: string, email: Option<string>, newId: Uuid, now: int)
    requires Inv(db) && Owns(db, u, email)
    requires forall x | x in db.identities :: !(x.provider == p && x.subject == subject)
    ensures var r := Resolve(db, p, subject, email, newId, now);
      && r.user == Some(u.id) && r.db.identities == db.identities + [Identity(u.id, p, subject, email)]
      && LoggedIn(db.users, r.db.users, u.id, now)
  {
    AddressDeterminesUser(db, u, FindEmail(db.users, u.email).value);
    LinkExisting(db, u, newId, p, subject, email, now);
  }

  /** An unknown subject without the address of a user becomes a new user, with the given address or, if none
      is given, the made-up one. */
  lemma UnknownSubjectSignsUp(db: Db, p: Provider, subject: string, email: Option<string>, newId: Uuid, now: int)
    requires Inv(db) && FindUser(db.users, newId).None? && (email.Some? ==> !IsSynthetic(email.value))
    requires forall x | x in db.identities :: !(x.provider == p && x.subject == subject)
    requires forall u | u in db.users :: !Owns(db, u, email)
    ensures var r := Resolve(db, p, subject, email, newId, now);
      var address := if email.Some? && email.value != "" then email.value
                     else Name(p) + "-" + subject + "@noreply.invalid";
      && r.user == Some(newId) && r.db.identities == db.identities + [Identity(newId, p, subject, email)]
      && LoggedIn(db.users + [User(newId, address, None)], r.db.users, newId, now)
  {
    if Falsy(email) {
      SynthEmailIsFree(db, p, subject);
    }
    LinkFresh(db, newId, p, subject, email, now);
  }

  /** The shape of a made-up address. */
  lemma SynthEmailExample()
    ensures SynthEmail(Telegram, "12345678") == "telegram-12345678@noreply.invalid"
  {
  }

  /** An email login: the owner of the address, or a new user with exactly that address. */
  lemma EmailLogsIn(db: Db, address: string, newId: Uuid, now: int)
    requires UsersUnique(db.users) && FindUser(db.users, newId).None?
    ensures var r := EmailLogin(db, address, newId, now);
      && r.db.identities == db.identities
      && (forall u | u in db.users && u.email == address ::
            r.user == Some(u.id) && LoggedIn(db.users, r.db.users, u.id, now))
      && ((forall u | u in db.users :: u.email != address) ==>
            r.user == Some(newId) && LoggedIn(db.users + [User(newId, address, None)], r.db.users, newId, now))
  {
    var user := FindEmail(db.users, address);
    if user.Some? {
      forall u | u in db.users && u.email == address ensures u == user.value {
        AddressDeterminesUser(db, u, user.value);
      }
    }
  }

  /** Deleting a user removes that user and the user's identities, and nothing else. */
  lemma DeletionDeletes(db: Db, id: Uuid)
    ensures var t := Perform(db, Delete(id)).db;
      && (forall u :: u in t.users <==> u in db.users && u.id != id)
      && (forall x :: x in t.identities <==> x in db.identities && x.user != id)
  {
  }

  // ---------- the branch that repairs a dangling identity ----------

  /** It cannot be reached in a run (`RunKeepsInv`), and if it were it would always fail: the identity it
      wants to create is still there. */
  lemma DanglingRepairAlwaysFails(db: Db, p: Provider, subject: string, email: Option<string>, newId: Uuid, now: int)
    requires FindIdentity(db.identities, p, subject).Some?
    requires FindUser(db.users, FindIdentity(db.identities, p, subject).value.user).None?
    ensures Resolve(db, p, subject, email, newId, now) == Login(None, db)
  {
  }

  /** A login without an address fails exactly when its made-up address is taken by someone else. */
  lemma SynthLoginFailsIffAddressTaken(db: Db, p: Provider, subject: string, newId: Uuid, now: int)
    requires FindIdentity(db.identities, p, subject).None? && FindUser(db.users, newId).None?
    ensures Resolve(db, p, subject, None, newId, now).user.None? <==>
            FindEmail(db.users, SynthEmail(p, subject)).Some?
  {
  }

  // ---------- the service object ----------

  class IdentityService {
    var db: Db

    constructor ()
      ensures db == Db([], [])
    {
      db := Db([], []);
    }

    method ResolveOrCreate(p: Provider, subject: string, email: Option<string>, newId: Uuid, now: int)
      returns (user: Option<Uuid>)
      modifies this
      ensures Login(user, db) == Resolve(old(db), p, subject, email, newId, now)
    {
      var before := db;
      var existing := FindIdentity(db.identities, p, subject);
      var id := newId;
      if existing.Some? {
        var found := FindUser(db.users, existing.value.user);
        if found.Some? {
          db := Touch(db, found.value.id, now);
          return Some(found.value.id);
        }
      } else if !Falsy(email) {
        var found := FindEmail(db.users, email.value);
        if found.Some? {
          id := found.value.id;
          var linked := InsertIdentity(db, Identity(id, p, subject, email));
          if linked.None? {
            return None;
          }
          db := Touch(linked.value, id, now);
          return Some(id);
        }
      }
      var created := InsertUser(db, id, EmailOrSynth(p, subject, email));
      if created.None? {
        return None;
      }
      db := created.value;
      var linked := InsertIdentity(db, Identity(id, p, subject, email));
      if linked.None? {
        db := before;
        return None;
      }
      db := Touch(linked.value, id, now);
      user := Some(id);
    }
  }
}
