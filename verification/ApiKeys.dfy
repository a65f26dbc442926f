/** API keys (`api_key_service.py`): lookup by an indexed clear-text prefix, then one hash check.  A row
    keeps the secret itself where the source keeps a bcrypt hash: the check accepts exactly the secret
    that was hashed. */
module ApiKeys {
  import opened Prelude
  import Text

  const PREFIX_LENGTH: nat := 12

  datatype Key = Key(id: Uuid, user: Uuid, title: string, prefix: string, hashed: string)

  /** `cd_` and 32 hexadecimal digits. */
  predicate IsSecret(s: string) {
    |s| == 35 && s[..3] == "cd_" && forall i | 3 <= i < 35 :: '0' <= s[i] <= '9' || 'a' <= s[i] <= 'f'
  }

  type Secret = s: string | IsSecret(s) witness "cd_00000000000000000000000000000000"

  function FindPrefix(t: seq<Key>, prefix: string): (r: Option<Key>)
    ensures r.None? <==> forall k | k in t :: k.prefix != prefix
    ensures r.Some? ==> r.value in t && r.value.prefix == prefix
  {
    if t == [] then None else if t[0].prefix == prefix then Some(t[0]) else FindPrefix(t[1..], prefix)
  }

  function FindId(t: seq<Key>, id: Uuid): (r: Option<Key>)
    ensures r.None? <==> forall k | k in t :: k.id != id
    ensures r.Some? ==> r.value in t && r.value.id == id
  {
    if t == [] then None else if t[0].id == id then Some(t[0]) else FindId(t[1..], id)
  }

  function Label(title: Option<string>, fallback: string): string {
    var stripped := Text.Strip(if title.Some? then title.value else "");
    if stripped == "" then fallback else stripped
  }

  /** The new table, or None when a unique constraint (id, prefix) rejects the row. */
  function Generate(t: seq<Key>, id: Uuid, user: Uuid, title: string, secret: Secret): Option<seq<Key>> {
    var row := Key(id, user, title, secret[..PREFIX_LENGTH], secret);
    if FindId(t, id).Some? || FindPrefix(t, row.prefix).Some? then None else Some(t + [row])
  }

  function Without(t: seq<Key>, id: Uuid): (r: seq<Key>)
    ensures forall k :: k in r <==> k in t && k.id != id
    ensures Subsequence(r, t)
  {
    if t == [] then []
    else
      var n := |t| - 1;
      var rest := Without(t[..n], id);
      assert t == t[..n] + [t[n]];
      SubsequenceGrows(rest, t[..n], t[n]);
      if t[n].id == id then rest else rest + [t[n]]
  }

  /** None when the key does not exist or belongs to someone else. */
  function DeleteForUser(t: seq<Key>, user: Uuid, id: Uuid): Option<seq<Key>> {
    var found := FindId(t, id);
    if found.None? || found.value.user != user then None else Some(Without(t, id))
  }

  /** The indexed lookup. */
  function Verify(t: seq<Key>, secret: string): Option<Key> {
    if |secret| < PREFIX_LENGTH then None
    else
      var item := FindPrefix(t, secret[..PREFIX_LENGTH]);
      if item.Some? && item.value.hashed == secret then item else None
  }

  /** The full scan: every row whose hash accepts the secret. */
  function Accepting(t: seq<Key>, secret: string): set<Key> {
    set k | k in t && k.hashed == secret
  }

  // ---------- runs ----------

  datatype Event =
    | Generated(id: Uuid, user: Uuid, title: string, secret: Secret)
    | Deleted(user: Uuid, id: Uuid)

  function Step(t: seq<Key>, e: Event): seq<Key> {
    var r := if e.Generated? then Generate(t, e.id, e.user, e.title, e.secret) else DeleteForUser(t, e.user, e.id);
    if r.Some? then r.value else t
  }

  function Run(events: seq<Event>): seq<Key> {
    if events == [] then [] else Step(Run(events[..|events| - 1]), events[|events| - 1])
  }

  predicate PrefixOf(k: Key) { |k.hashed| >= PREFIX_LENGTH && k.prefix == k.hashed[..PREFIX_LENGTH] }

  ghost predicate Inv(t: seq<Key>) {
    && (forall i, j | 0 <= i < j < |t| :: t[i].prefix != t[j].prefix && t[i].id != t[j].id)
    && (forall i | 0 <= i < |t| :: PrefixOf(t[i]))
  }

  lemma AppendKeepsInv(t: seq<Key>, k: Key)
    requires Inv(t) && PrefixOf(k) && forall x | x in t :: x.prefix != k.prefix && x.id != k.id
    ensures Inv(t + [k])
  {
    assert forall i | 0 <= i < |t| :: t[i] in t;
  }

  lemma InvOfPrefix(t: seq<Key>, n: nat)
    requires Inv(t) && n < |t|
    ensures Inv(t[..n]) && PrefixOf(t[n]) && forall x | x in t[..n] :: x.prefix != t[n].prefix && x.id != t[n].id
  {
  }

  lemma {:induction false} WithoutKeepsInv(t: seq<Key>, id: Uuid)
    requires Inv(t)
    ensures Inv(Without(t, id))
  {
    if t != [] {
      var n := |t| - 1;
      InvOfPrefix(t, n);
      WithoutKeepsInv(t[..n], id);
      AppendKeepsInv(Without(t[..n], id), t[n]);
    }
  }

  lemma {:induction false} RunKeepsInv(events: seq<Event>)
    ensures Inv(Run(events))
  {
    if events != [] {
      var n := |events| - 1;
      var before, e := Run(events[..n]), events[n];
      RunKeepsInv(events[..n]);
      if e.Generated? && Run(events) != before {
        AppendKeepsInv(before, Key(e.id, e.user, e.title, e.secret[..PREFIX_LENGTH], e.secret));
      } else if e.Deleted? {
        WithoutKeepsInv(before, e.id);
      }
    }
  }

  /** For every table built by generating and deleting keys, and every presented string whatever its
      length, the indexed lookup returns precisely what the full scan finds. */
  lemma IndexedLookupEqualsScan(events: seq<Event>, secret: string)
    ensures var t := Run(events);
            Accepting(t, secret) == match Verify(t, secret) case Some(k) => {k} case None => {}
  {
    RunKeepsInv(events);
    var t := Run(events);
    forall k | k in Accepting(t, secret) ensures Verify(t, secret) == Some(k) {
      var found := FindPrefix(t, secret[..PREFIX_LENGTH]).value;
      var i :| 0 <= i < |t| && t[i] == k;
      var j :| 0 <= j < |t| && t[j] == found;
    }
  }

  lemma IdDeterminesKey(t: seq<Key>, row: Key)
    requires Inv(t) && row in t
    ensures FindId(t, row.id) == Some(row)
  {
  }

  lemma KeySurvivesStep(events: seq<Event>, e: Event, row: Key)
    requires row in Run(events) && e != Deleted(row.user, row.id)
    ensures row in Step(Run(events), e)
  {
    RunKeepsInv(events);
    if e.Deleted? && e.id == row.id {
      IdDeterminesKey(Run(events), row);
    }
  }

  /** A generated secret verifies to its own row for as long as its owner does not delete that row. */
  lemma {:induction false} GeneratedKeyVerifies(events: seq<Event>, e: Event, more: seq<Event>)
    requires e.Generated? && Generate(Run(events), e.id, e.user, e.title, e.secret).Some?
    requires forall x | x in more :: x != Deleted(e.user, e.id)
    ensures Verify(Run(events + [e] + more), e.secret)
         == Some(Key(e.id, e.user, e.title, e.secret[..PREFIX_LENGTH], e.secret))
    decreases |more|
  {
    var row := Key(e.id, e.user, e.title, e.secret[..PREFIX_LENGTH], e.secret);
    var all := events + [e] + more;
    assert row in Run(all) by {
      if more == [] {
        assert all[..|all| - 1] == events && all[|all| - 1] == e;
      } else {
        var n := |more| - 1;
        var before := events + [e] + more[..n];
        assert all == before + [more[n]] && all[..|all| - 1] == before;
        assert more[n] in more && forall x | x in more[..n] :: x in more;
        GeneratedKeyVerifies(events, e, more[..n]);
        assert row in Run(before);
        KeySurvivesStep(before, more[n], row);
      }
    }
    IndexedLookupEqualsScan(all, e.secret);
    assert row in Accepting(Run(all), e.secret);
  }

  lemma OnlyGenerationAddsKeys(t: seq<Key>, e: Event, k: Key)
    requires k in Step(t, e) && k !in t
    ensures e.Generated? && k == Key(e.id, e.user, e.title, e.secret[..PREFIX_LENGTH], e.secret)
  {
  }

  /** Generating a key adds exactly its row, at the end, if no row has its id or its prefix, and otherwise
      nothing. */
  lemma GenerationStores(t: seq<Key>, id: Uuid, user: Uuid, title: string, secret: Secret)
    ensures Step(t, Generated(id, user, title, secret)) ==
            if exists k | k in t :: k.id == id || k.prefix == secret[..12] then t
            else t + [Key(id, user, title, secret[..12], secret)]
  {
  }

  /** A label that is missing or blank gives way to the default; any other is kept without the white space
      around it. */
  lemma LabelKeepsTheTitle(left: string, title: string, right: string, fallback: string)
    requires Text.Trimmed(title) && forall c | c in left || c in right :: Text.IsSpace(c)
    ensures Label(None, fallback) == fallback
    ensures Label(Some(left + title + right), fallback) == if title == "" then fallback else title
  {
    Text.StripPadded(left, title, right);
  }

  predicate HasId(t: seq<Key>, id: Uuid) { exists k | k in t :: k.id == id }

  lemma DeletionRemoves(events: seq<Event>, row: Key)
    requires row in Run(events)
    ensures !HasId(Step(Run(events), Deleted(row.user, row.id)), row.id)
  {
    RunKeepsInv(events);
    IdDeterminesKey(Run(events), row);
  }

  lemma RunExtends(events: seq<Event>, e: Event)
    ensures Run(events + [e]) == Step(Run(events), e)
  {
    assert (events + [e])[..|events|] == events;
  }

  lemma StepKeepsIdAway(t: seq<Key>, e: Event, id: Uuid)
    requires !HasId(t, id) && !(e.Generated? && e.id == id)
    ensures !HasId(Step(t, e), id)
  {
    forall k | k in Step(t, e) && k !in t ensures k.id != id {
      OnlyGenerationAddsKeys(t, e, k);
    }
  }

  lemma {:induction false} IdStaysAway(events: seq<Event>, id: Uuid, more: seq<Event>)
    requires !HasId(Run(events), id) && forall e | e in more :: !(e.Generated? && e.id == id)
    ensures !HasId(Run(events + more), id)
    decreases |more|
  {
    if more == [] {
      assert events + more == events;
    } else {
      var init, last := more[..|more| - 1], more[|more| - 1];
      assert last in more && forall e | e in init :: e in more;
      IdStaysAway(events, id, init);
      var before := events + init;
      assert events + more == before + [last];
      RunExtends(before, last);
      StepKeepsIdAway(Run(before), last, id);
    }
  }

  /** Deleting deletes: after its owner has deleted a key, no row with its id is left, and none comes back as
      long as the id is not drawn again; so its secret does not verify to it any more. */
  lemma DeletedKeyIsGone(events: seq<Event>, row: Key, more: seq<Event>)
    requires row in Run(events)
    requires forall e | e in more :: !(e.Generated? && e.id == row.id)
    ensures var t := Run(events + [Deleted(row.user, row.id)] + more);
      !HasId(t, row.id) && Verify(t, row.hashed) != Some(row)
  {
    DeletionRemoves(events, row);
    RunExtends(events, Deleted(row.user, row.id));
    IdStaysAway(events + [Deleted(row.user, row.id)], row.id, more);
  }

  // ---------- the service object ----------

  class ApiKeyService {
    var keys: seq<Key>

    constructor ()
      ensures keys == []
    {
      keys := [];
    }

    /** `secret` is the freshly drawn secret. */
    method Generate(id: Uuid, user: Uuid, title: Option<string>, fallback: string, secret: Secret)
      returns (stored: bool)
      modifies this
      ensures keys == Step(old(keys), Generated(id, user, Label(title, fallback), secret))
      ensures stored ==>
        keys == old(keys) + [Key(id, user, Label(title, fallback), secret[..PREFIX_LENGTH], secret)]
      ensures !stored ==> keys == old(keys)
      ensures stored <==> FindId(old(keys), id).None? && FindPrefix(old(keys), secret[..PREFIX_LENGTH]).None?
    {
      var prefix := secret[..PREFIX_LENGTH];
      if FindId(keys, id).Some? || FindPrefix(keys, prefix).Some? {
        return false;
      }
      keys := keys + [Key(id, user, Label(title, fallback), prefix, secret)];
      stored := true;
    }

    method DeleteForUser(user: Uuid, id: Uuid) returns (found: bool)
      modifies this
      ensures keys == Step(old(keys), Deleted(user, id))
      ensures found ==> (forall k :: k in keys <==> k in old(keys) && k.id != id) && Subsequence(keys, old(keys))
      ensures !found ==> keys == old(keys)
      ensures found <==> FindId(old(keys), id).Some? && FindId(old(keys), id).value.user == user
    {
      var item := FindId(keys, id);
      if item.None? || item.value.user != user {
        return false;
      }
      keys := Without(keys, id);
      found := true;
    }
  }
}
