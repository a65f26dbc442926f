/** One-time login codes on an expiring store (`email_codes.py`).  Times are milliseconds; `ttl` and
    `maxAttempts` are configuration.  A record keeps the code itself where the source keeps a bcrypt hash:
    the hash check accepts exactly the code that was hashed. */
module EmailCodes {
  import opened Prelude
  import Text

  datatype Config = Config(ttl: nat, maxAttempts: int) {
    /** Redis refuses an expiry of zero seconds. */
    predicate Valid() { ttl >= 1 }
  }

  datatype Entry = Entry(secret: string, attempts: int, requestedAt: int, expiry: int)

  type Store = map<string, Entry>

  datatype Verdict = Accepted | CodeNotFound | CodeMismatch | CodeLocked

  function Normal(email: string): string { Text.Lower(Text.Strip(email)) }

  function EmailKey(email: string): string { "auth:email_code:" + Normal(email) }

  /** Two spellings share a code exactly when they normalise alike, and normalising is idempotent. */
  lemma KeyIdentifiesNormalEmail(a: string, b: string)
    ensures EmailKey(a) == EmailKey(b) <==> Normal(a) == Normal(b)
    ensures Normal(Normal(a)) == Normal(a)
  {
    var prefix := "auth:email_code:";
    assert EmailKey(a)[|prefix|..] == Normal(a) && EmailKey(b)[|prefix|..] == Normal(b);
    Text.StripTrims(a);
    Text.LowerKeepsTrimmed(Text.Strip(a));
    Text.StripOfTrimmed(Normal(a));
  }

  /** The two characters are the same, or the two cases of one ASCII letter. */
  predicate SameLetter(a: char, b: char) {
    || a == b
    || ('A' <= a <= 'Z' && b as int == a as int + 32)
    || ('A' <= b <= 'Z' && a as int == b as int + 32)
  }

  predicate SameLetters(s: string, t: string) {
    |s| == |t| && forall i | 0 <= i < |s| :: SameLetter(s[i], t[i])
  }

  /** The spellings of an address that share its code: any case, and any white space around it. */
  lemma SpellingsShareKey(s: string, t: string, left: string, right: string)
    requires Text.Trimmed(s) && Text.Trimmed(t)
    requires forall c | c in left || c in right :: c in " \t\n\r"
    ensures EmailKey(left + t + right) == EmailKey(s) <==> SameLetters(s, t)
  {
    Text.StripPadded(left, t, right);
    Text.StripOfTrimmed(s);
    KeyIdentifiesNormalEmail(left + t + right, s);
    if SameLetters(s, t) {
      assert Text.Lower(s) == Text.Lower(t);
    } else if |s| == |t| {
      var i :| 0 <= i < |s| && !SameLetter(s[i], t[i]);
      assert Text.Lower(s)[i] != Text.Lower(t)[i];
    }
  }

  // ---------- the store ----------

  function Get(s: Store, key: string, now: int): Option<Entry> {
    if key in s && now < s[key].expiry then Some(s[key]) else None
  }

  /** Redis TTL: the remaining time rounded to whole seconds. */
  function TtlSeconds(remaining: int): int { (remaining + 500) / 1000 }

  /** The expiry after SET ... EX max(TTL, 1). */
  function Rearmed(expiry: int, now: int): int {
    var ttl := TtlSeconds(expiry - now);
    now + 1000 * if ttl >= 1 then ttl else 1
  }

  /** The rounding is to the nearest second, half a second up. */
  lemma TtlIsNearest(remaining: int)
    ensures -499 <= 1000 * TtlSeconds(remaining) - remaining <= 500
  {
  }

  /** Rounding moves the expiry of a live key by less than a second. */
  lemma RearmShift(expiry: int, now: int)
    requires now < expiry
    ensures -499 <= Rearmed(expiry, now) - expiry <= 999
    ensures now < Rearmed(expiry, now)
  {
  }

  function Issued(c: Config, s: Store, email: string, code: string, now: int): Store {
    s[EmailKey(email) := Entry(code, 0, now / 1000, now + 1000 * c.ttl)]
  }

  datatype Checked = Checked(verdict: Verdict, store: Store)

  function Check(c: Config, s: Store, email: string, code: string, now: int): Checked {
    var key := EmailKey(email);
    match Get(s, key, now)
    case None => Checked(CodeNotFound, s)
    case Some(e) =>
      if code == e.secret then Checked(Accepted, s - {key})
      else if e.attempts + 1 >= c.maxAttempts then Checked(CodeLocked, s - {key})
      else Checked(CodeMismatch, s[key := e.(attempts := e.attempts + 1, expiry := Rearmed(e.expiry, now))])
  }

  // ---------- runs ----------

  datatype Event =
    | Issue(email: string, code: string, at: int)
    | Try(email: string, code: string, at: int)

  function Step(c: Config, s: Store, e: Event): Store {
    match e
    case Issue(email, code, at) => Issued(c, s, email, code, at)
    case Try(email, code, at) => Check(c, s, email, code, at).store
  }

  function Run(c: Config, events: seq<Event>): Store {
    if events == [] then map[]
    else Step(c, Run(c, events[..|events| - 1]), events[|events| - 1])
  }

  ghost predicate Ordered(events: seq<Event>) {
    forall i, j | 0 <= i < j < |events| :: events[i].at <= events[j].at
  }

  // ---------- what a trace says about one key, without the store ----------

  /** The latest code issued for the key. */
  function LastIssue(events: seq<Event>, key: string): Option<Event> {
    if events == [] then None
    else
      var e := events[|events| - 1];
      if e.Issue? && EmailKey(e.email) == key then Some(e) else LastIssue(events[..|events| - 1], key)
  }

  /** The tries for the key since that issue. */
  function TriesSince(events: seq<Event>, key: string): seq<Event> {
    if events == [] then []
    else
      var n := |events| - 1;
      if EmailKey(events[n].email) != key then TriesSince(events[..n], key)
      else if events[n].Issue? then []
      else TriesSince(events[..n], key) + [events[n]]
  }

  /** When a code issued at `issuedAt` dies if the given tries are all wrong. */
  function Deadline(c: Config, issuedAt: int, tries: seq<Event>): int {
    if tries == [] then issuedAt + 1000 * c.ttl
    else Rearmed(Deadline(c, issuedAt, tries[..|tries| - 1]), tries[|tries| - 1].at)
  }

  /** Every try missed the code, and came before the code was dead. */
  ghost predicate AllWrongInTime(c: Config, issue: Event, tries: seq<Event>) {
    forall j | 0 <= j < |tries| ::
      tries[j].code != issue.code && tries[j].at < Deadline(c, issue.at, tries[..j])
  }

  /** The code of the last issue can still be used up to its deadline: no success, no lock, no expiry. */
  ghost predicate Usable(c: Config, events: seq<Event>, key: string) {
    var issue, tries := LastIssue(events, key), TriesSince(events, key);
    && issue.Some?
    && AllWrongInTime(c, issue.value, tries)
    && (tries == [] || |tries| < c.maxAttempts)
  }

  /** The store holds exactly the usable code with its number of tries and its deadline; a record of any
      other kind is already dead. */
  ghost predicate Reflects(c: Config, events: seq<Event>, key: string, now: int) {
    var s, issue, tries := Run(c, events), LastIssue(events, key), TriesSince(events, key);
    if Usable(c, events, key) then
      && key in s && s[key].secret == issue.value.code && s[key].attempts == |tries|
      && s[key].expiry == Deadline(c, issue.value.at, tries) && s[key].requestedAt == issue.value.at / 1000
    else
      key in s ==> s[key].expiry <= now
  }

  lemma AllWrongInTimeExtends(c: Config, issue: Event, tries: seq<Event>, t: Event)
    ensures AllWrongInTime(c, issue, tries + [t]) <==>
            AllWrongInTime(c, issue, tries) && t.code != issue.code && t.at < Deadline(c, issue.at, tries)
  {
    var all := tries + [t];
    assert forall j | 0 <= j <= |tries| :: all[..j] == tries[..j];
    assert all[|tries|] == t && tries[..|tries|] == tries;
    if AllWrongInTime(c, issue, all) {
      forall j | 0 <= j < |tries|
        ensures tries[j].code != issue.code && tries[j].at < Deadline(c, issue.at, tries[..j])
      {
        assert all[j] == tries[j];
      }
    }
  }

  lemma TryKeepsReflection(c: Config, events: seq<Event>, t: Event, key: string, now: int)
    requires c.Valid() && t.Try? && EmailKey(t.email) == key && now <= t.at
    requires Reflects(c, events, key, now)
    ensures Reflects(c, events + [t], key, t.at)
  {
    var all := events + [t];
    assert all[..|events|] == events;
    var issue, tries := LastIssue(events, key), TriesSince(events, key);
    assert LastIssue(all, key) == issue && TriesSince(all, key) == tries + [t];
    if issue.Some? {
      AllWrongInTimeExtends(c, issue.value, tries, t);
      assert (tries + [t])[..|tries|] == tries;
    }
  }

  lemma IssueReflects(c: Config, events: seq<Event>, e: Event, key: string)
    requires c.Valid() && e.Issue? && EmailKey(e.email) == key
    ensures Reflects(c, events + [e], key, e.at)
  {
  }

  lemma OtherKeyKeepsReflection(c: Config, events: seq<Event>, e: Event, key: string)
    requires EmailKey(e.email) != key && Reflects(c, events, key, e.at)
    ensures Reflects(c, events + [e], key, e.at)
  {
    var all := events + [e];
    assert all[..|events|] == events;
    assert LastIssue(all, key) == LastIssue(events, key) && TriesSince(all, key) == TriesSince(events, key);
    var before, after := Run(c, events), Run(c, all);
    assert key in after <==> key in before;
    assert key in before ==> after[key] == before[key];
  }

  /** The store of every run reflects the trace, for every key. */
  lemma {:induction false} RunReflectsTrace(c: Config, events: seq<Event>, key: string, now: int)
    requires c.Valid() && Ordered(events)
    requires events != [] ==> events[|events| - 1].at <= now
    ensures Reflects(c, events, key, now)
  {
    if events != [] {
      var n := |events| - 1;
      var e := events[n];
      assert events == events[..n] + [e];
      RunReflectsTrace(c, events[..n], key, e.at);
      if EmailKey(e.email) != key {
        OtherKeyKeepsReflection(c, events[..n], e, key);
      } else if e.Issue? {
        IssueReflects(c, events[..n], e, key);
      } else {
        TryKeepsReflection(c, events[..n], e, key, e.at);
      }
    }
  }

  /** The trace theorem.  After any run, a code is accepted exactly when it is the code of the latest issue
      for the normalised email, all tries since then were wrong and in time, fewer than the allowed number,
      and the deadline those tries left has not passed. */
  lemma AcceptedIff(c: Config, events: seq<Event>, email: string, code: string, now: int)
    requires c.Valid() && Ordered(events) && (events != [] ==> events[|events| - 1].at <= now)
    ensures Check(c, Run(c, events), email, code, now).verdict.Accepted? <==>
            var key := EmailKey(email);
            && Usable(c, events, key)
            && LastIssue(events, key).value.code == code
            && now < Deadline(c, LastIssue(events, key).value.at, TriesSince(events, key))
  {
    RunReflectsTrace(c, events, EmailKey(email), now);
  }

  /** Each wrong try moves the deadline by less than a second, so the whole life of a code stays within
      maxAttempts - 1 seconds of its ttl. */
  lemma {:induction false} LifetimeBounds(c: Config, issue: Event, tries: seq<Event>)
    requires AllWrongInTime(c, issue, tries)
    ensures -499 * |tries| <= Deadline(c, issue.at, tries) - (issue.at + 1000 * c.ttl) <= 999 * |tries|
    ensures |tries| < c.maxAttempts ==>
              issue.at + 1000 * c.ttl - 1000 * (c.maxAttempts - 1) <= Deadline(c, issue.at, tries)
              <= issue.at + 1000 * c.ttl + 1000 * (c.maxAttempts - 1)
  {
    if tries != [] {
      var n := |tries| - 1;
      assert tries == tries[..n] + [tries[n]];
      AllWrongInTimeExtends(c, issue, tries[..n], tries[n]);
      LifetimeBounds(c, issue, tries[..n]);
      RearmShift(Deadline(c, issue.at, tries[..n]), tries[n].at);
    }
  }

  /** An accepted code was issued, as the latest for its normalised email, less than the ttl and
      maxAttempts - 1 further seconds before (less than the ttl, if that is not positive). */
  lemma AcceptedIsRecent(c: Config, events: seq<Event>, email: string, code: string, now: int)
    requires c.Valid() && Ordered(events) && (events != [] ==> events[|events| - 1].at <= now)
    requires Check(c, Run(c, events), email, code, now).verdict.Accepted?
    ensures var issue := LastIssue(events, EmailKey(email));
      && issue.Some? && issue.value.code == code
      && now < issue.value.at + 1000 * (c.ttl + if c.maxAttempts >= 1 then c.maxAttempts - 1 else 0)
  {
    AcceptedIff(c, events, email, code, now);
    LifetimeBounds(c, LastIssue(events, EmailKey(email)).value, TriesSince(events, EmailKey(email)));
  }

  lemma {:induction false} TriesAreEarlier(events: seq<Event>, key: string, now: int)
    requires Ordered(events) && (events != [] ==> events[|events| - 1].at <= now)
    ensures forall t | t in TriesSince(events, key) :: t.at <= now
  {
    if events != [] {
      var n := |events| - 1;
      assert n > 0 ==> events[n - 1].at <= events[n].at;
      TriesAreEarlier(events[..n], key, now);
    }
  }

  /** The time before which fewer than maxAttempts wrong tries cannot have killed a code. */
  function SafeUntil(c: Config, issuedAt: int): int { issuedAt + 1000 * (c.ttl - (c.maxAttempts - 1)) }

  lemma {:induction false} EarlyTriesAreInTime(c: Config, issue: Event, tries: seq<Event>, now: int)
    requires |tries| < c.maxAttempts && now < SafeUntil(c, issue.at)
    requires forall t | t in tries :: t.code != issue.code && t.at <= now
    ensures AllWrongInTime(c, issue, tries) && now < Deadline(c, issue.at, tries)
  {
    if tries != [] {
      var n := |tries| - 1;
      assert tries == tries[..n] + [tries[n]];
      EarlyTriesAreInTime(c, issue, tries[..n], now);
      AllWrongInTimeExtends(c, issue, tries[..n], tries[n]);
    }
    LifetimeBounds(c, issue, tries);
  }

  /** Within ttl - (maxAttempts - 1) seconds of the latest issue, rounding plays no part: a code is accepted
      iff it is the one issued and fewer than maxAttempts tries were made since, all of them wrong. */
  lemma YoungCodeAcceptedIff(c: Config, events: seq<Event>, email: string, code: string, now: int)
    requires c.Valid() && Ordered(events) && (events != [] ==> events[|events| - 1].at <= now)
    requires c.maxAttempts >= 1
    requires var issue := LastIssue(events, EmailKey(email)); issue.Some? && now < SafeUntil(c, issue.value.at)
    ensures var key := EmailKey(email); var issue, tries := LastIssue(events, key).value, TriesSince(events, key);
      Check(c, Run(c, events), email, code, now).verdict.Accepted? <==>
        code == issue.code && |tries| < c.maxAttempts && forall t | t in tries :: t.code != issue.code
  {
    var key := EmailKey(email);
    var issue, tries := LastIssue(events, key).value, TriesSince(events, key);
    AcceptedIff(c, events, email, code, now);
    TriesAreEarlier(events, key, now);
    if |tries| < c.maxAttempts && forall t | t in tries :: t.code != issue.code {
      EarlyTriesAreInTime(c, issue, tries, now);
    }
  }

  /** Every verdict, from the trace: no code without a usable one before its deadline; otherwise the issued code
      is accepted, and a wrong one locks if it is the last allowed try since the issue, and else is a mismatch. */
  lemma VerdictOfTry(c: Config, events: seq<Event>, email: string, code: string, now: int)
    requires c.Valid() && Ordered(events) && (events != [] ==> events[|events| - 1].at <= now)
    ensures var key := EmailKey(email); var issue, tries := LastIssue(events, key), TriesSince(events, key);
      Check(c, Run(c, events), email, code, now).verdict ==
      if !Usable(c, events, key) || now >= Deadline(c, issue.value.at, tries) then CodeNotFound
      else if code == issue.value.code then Accepted
      else if |tries| + 1 >= c.maxAttempts then CodeLocked
      else CodeMismatch
  {
    RunReflectsTrace(c, events, EmailKey(email), now);
  }

  // ---------- how often a code can be guessed ----------

  /** How many tries since the last issue were compared with a code. */
  function Compared(c: Config, events: seq<Event>, key: string): nat {
    if events == [] then 0
    else
      var n := |events| - 1;
      var e := events[n];
      if EmailKey(e.email) != key then Compared(c, events[..n], key)
      else if e.Issue? then 0
      else Compared(c, events[..n], key)
           + if Check(c, Run(c, events[..n]), e.email, e.code, e.at).verdict.CodeNotFound? then 0 else 1
  }

  /** A try is compared exactly when the code is usable and its deadline has not passed. */
  lemma ComparedIff(c: Config, events: seq<Event>, e: Event)
    requires c.Valid() && Ordered(events) && (events != [] ==> events[|events| - 1].at <= e.at) && e.Try?
    ensures var key := EmailKey(e.email);
      !Check(c, Run(c, events), e.email, e.code, e.at).verdict.CodeNotFound? <==>
        Usable(c, events, key) && e.at < Deadline(c, LastIssue(events, key).value.at, TriesSince(events, key))
  {
    RunReflectsTrace(c, events, EmailKey(e.email), e.at);
  }

  /** A code usable after a try was usable before it, with the deadline still ahead. */
  lemma UsableBefore(c: Config, events: seq<Event>, e: Event)
    requires e.Try? && Usable(c, events + [e], EmailKey(e.email))
    ensures var key := EmailKey(e.email);
      && TriesSince(events + [e], key) == TriesSince(events, key) + [e]
      && Usable(c, events, key) && e.at < Deadline(c, LastIssue(events, key).value.at, TriesSince(events, key))
  {
    var key := EmailKey(e.email);
    assert (events + [e])[..|events|] == events;
    AllWrongInTimeExtends(c, LastIssue(events, key).value, TriesSince(events, key), e);
  }

  /** How many comparisons one code can get. */
  function MaxGuesses(c: Config): nat { if c.maxAttempts >= 1 then c.maxAttempts else 1 }

  lemma TryIsCounted(c: Config, events: seq<Event>, e: Event, key: string)
    requires c.Valid() && Ordered(events) && (events != [] ==> events[|events| - 1].at <= e.at)
    requires e.Try? && EmailKey(e.email) == key
    requires Usable(c, events, key) ==> Compared(c, events, key) == |TriesSince(events, key)|
    requires Compared(c, events, key) <= MaxGuesses(c)
    ensures Usable(c, events + [e], key) ==> Compared(c, events + [e], key) == |TriesSince(events + [e], key)|
    ensures Compared(c, events + [e], key) <= MaxGuesses(c)
  {
    assert (events + [e])[..|events|] == events;
    ComparedIff(c, events, e);
    if Usable(c, events + [e], key) {
      UsableBefore(c, events, e);
    }
  }

  lemma {:induction false} ComparedCount(c: Config, events: seq<Event>, key: string)
    requires c.Valid() && Ordered(events)
    ensures Usable(c, events, key) ==> Compared(c, events, key) == |TriesSince(events, key)|
    ensures Compared(c, events, key) <= MaxGuesses(c)
  {
    if events != [] {
      var n := |events| - 1;
      assert events == events[..n] + [events[n]];
      ComparedCount(c, events[..n], key);
      if EmailKey(events[n].email) == key && events[n].Try? {
        TryIsCounted(c, events[..n], events[n], key);
      }
    }
  }

  /** In every run at most maxAttempts guesses (one, if that is not positive) are ever compared with an
      issued code. */
  lemma GuessesPerCode(c: Config, events: seq<Event>, email: string)
    requires c.Valid() && Ordered(events)
    ensures Compared(c, events, EmailKey(email)) <= MaxGuesses(c)
  {
    ComparedCount(c, events, EmailKey(email));
  }

  /** One issue and k wrong tries at the same moment. */
  function Guesses(email: string, k: nat): (events: seq<Event>)
    ensures forall e | e in events :: e.at == 0
  {
    if k == 0 then [Issue(email, "1", 0)] else Guesses(email, k - 1) + [Try(email, "2", 0)]
  }

  /** The code was issued at time 0 and has been guessed k times, all at that time. */
  ghost predicate Guessed(c: Config, events: seq<Event>, key: string, k: nat) {
    && Compared(c, events, key) == k
    && (k < MaxGuesses(c) ==>
          key in Run(c, events) && Run(c, events)[key] == Entry("1", k, 0, 1000 * c.ttl))
  }

  lemma OneMoreGuess(c: Config, events: seq<Event>, email: string, k: nat)
    requires c.Valid() && k < MaxGuesses(c) && Guessed(c, events, EmailKey(email), k)
    ensures Guessed(c, events + [Try(email, "2", 0)], EmailKey(email), k + 1)
  {
    assert (events + [Try(email, "2", 0)])[..|events|] == events;
  }

  lemma {:induction false} GuessesAreCompared(c: Config, email: string, k: nat)
    requires c.Valid() && k <= MaxGuesses(c)
    ensures Guessed(c, Guesses(email, k), EmailKey(email), k)
  {
    if k == 0 {
      assert Guesses(email, 0)[..0] == [];
    } else {
      GuessesAreCompared(c, email, k - 1);
      OneMoreGuess(c, Guesses(email, k - 1), email, k - 1);
    }
  }

  /** The bound is reached for every address, also when maxAttempts is not positive: the first guess is
      always compared. */
  lemma GuessBoundIsReached(c: Config, email: string) returns (events: seq<Event>)
    requires c.Valid()
    ensures Ordered(events) && Compared(c, events, EmailKey(email)) == MaxGuesses(c)
  {
    GuessesAreCompared(c, email, MaxGuesses(c));
    events := Guesses(email, MaxGuesses(c));
  }

  /** The configured limit holds in every run and for every address exactly when it is positive. */
  lemma GuessLimitHoldsIff(c: Config)
    requires c.Valid()
    ensures (forall events, email | Ordered(events) :: Compared(c, events, EmailKey(email)) <= c.maxAttempts)
            <==> c.maxAttempts >= 1
  {
    if c.maxAttempts >= 1 {
      forall events, email | Ordered(events) ensures Compared(c, events, EmailKey(email)) <= c.maxAttempts {
        GuessesPerCode(c, events, email);
      }
    } else {
      var events := GuessBoundIsReached(c, "");
      assert Compared(c, events, EmailKey("")) > c.maxAttempts;
    }
  }

  // ---------- the store object ----------

  class EmailCodeStore {
    const config: Config
    var redis: Store

    constructor (config: Config)
      ensures this.config == config && redis == map[]
    {
      this.config := config;
      redis := map[];
    }

    /** `code` is the freshly drawn (or, in development mode, the fixed) code. */
    method Issue(email: string, code: string, now: int)
      requires config.Valid()
      modifies this`redis
      ensures redis == Step(config, old(redis), Event.Issue(email, code, now))
    {
      var record := Entry(code, 0, now / 1000, now + 1000 * config.ttl);
      redis := redis[EmailKey(email) := record];
    }

    method Verify(email: string, code: string, now: int) returns (verdict: Verdict)
      requires config.Valid()
      modifies this`redis
      ensures verdict == Check(config, old(redis), email, code, now).verdict
      ensures redis == Step(config, old(redis), Try(email, code, now))
    {
      var key := EmailKey(email);
      var raw := Get(redis, key, now);
      if raw.None? {
        return CodeNotFound;
      }
      var record := raw.value;
      if record.secret != code {
        record := record.(attempts := record.attempts + 1);
        if record.attempts >= config.maxAttempts {
          redis := redis - {key};
          return CodeLocked;
        }
        var ttl := TtlSeconds(record.expiry - now);
        if ttl < 1 {
          ttl := 1;
        }
        redis := redis[key := record.(expiry := now + 1000 * ttl)];
        return CodeMismatch;
      }
      redis := redis - {key};
      verdict := Accepted;
    }
  }
}
