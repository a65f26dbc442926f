/** The fixed-window request limiter (`email_codes.py`): INCR, then EXPIRE by whichever caller created the
    counter.  The two Redis calls of different callers interleave freely.  Times are milliseconds. */
module RateLimiter {
  import opened Prelude

  const WINDOW: int := 60_000

  /** The value of one counter key; it has no expiry until EXPIRE has run. */
  datatype Counter = Counter(n: nat, expiry: Option<int>)

  function Live(c: Option<Counter>, now: int): Option<Counter> {
    if c.Some? && c.value.expiry.Some? && c.value.expiry.value <= now then None else c
  }

  /** INCR creates a missing key without an expiry and keeps the expiry of a present one. */
  function Incremented(c: Option<Counter>, now: int): Counter {
    match Live(c, now)
    case None => Counter(1, None)
    case Some(v) => v.(n := v.n + 1)
  }

  /** EXPIRE on a missing key does nothing. */
  function Expired(c: Option<Counter>, now: int): Option<Counter> {
    match Live(c, now)
    case None => None
    case Some(v) => Some(v.(expiry := Some(now + WINDOW)))
  }

  // ---------- concurrent callers of one address ----------

  /** One request, decided by its INCR: when, in which life of the key (counted from 1), with what result. */
  datatype Hit = Hit(at: int, life: nat, admitted: bool)

  /** `pending` callers have created the counter and not yet run EXPIRE.  `births` and `hits` record
      history: when each life of the key began, and every request. */
  datatype State = State(counter: Option<Counter>, pending: nat, births: seq<int>, hits: seq<Hit>)

  datatype Event = Incr(at: int) | Expire(at: int)

  const INITIAL := State(None, 0, [], [])

  function Step(limit: nat, s: State, e: Event): State {
    match e
    case Incr(at) =>
      var counter := Incremented(s.counter, at);
      var births := if Live(s.counter, at).None? then s.births + [at] else s.births;
      State(Some(counter),
            if counter.n == 1 then s.pending + 1 else s.pending,
            births,
            s.hits + [Hit(at, |births|, counter.n <= limit)])
    case Expire(at) =>
      if s.pending == 0 then s
      else s.(counter := Expired(s.counter, at), pending := s.pending - 1)
  }

  function Run(limit: nat, events: seq<Event>): State {
    if events == [] then INITIAL
    else Step(limit, Run(limit, events[..|events| - 1]), events[|events| - 1])
  }

  ghost predicate Ordered(events: seq<Event>) {
    forall i, j | 0 <= i < j < |events| :: events[i].at <= events[j].at
  }

  // ---------- counting ----------

  function HitsOf(hits: seq<Hit>, life: nat): nat {
    if hits == [] then 0
    else HitsOf(hits[..|hits| - 1], life) + if hits[|hits| - 1].life == life then 1 else 0
  }

  function AdmittedOf(hits: seq<Hit>, life: nat): nat {
    if hits == [] then 0
    else
      var h := hits[|hits| - 1];
      AdmittedOf(hits[..|hits| - 1], life) + if h.life == life && h.admitted then 1 else 0
  }

  /** The request came in the half-open window of 60 s starting at `from`. */
  predicate Within(h: Hit, from: int) { from <= h.at < from + 60_000 }

  /** Admitted requests in the half-open window of 60 s starting at `from`. */
  function AdmittedWithin(hits: seq<Hit>, from: int): nat {
    if hits == [] then 0
    else
      var h := hits[|hits| - 1];
      AdmittedWithin(hits[..|hits| - 1], from) + if Within(h, from) && h.admitted then 1 else 0
  }

  // ---------- the invariant ----------

  /** The counter counts the requests of the current life, and has no expiry exactly while its creator's
      EXPIRE is outstanding. */
  ghost predicate CounterInv(s: State) {
    && (s.counter.None? <==> s.births == [])
    && (s.pending == if s.counter.Some? && s.counter.value.expiry.None? then 1 else 0)
    && (s.counter.Some? ==>
          && s.counter.value.n >= 1
          && s.counter.value.n == HitsOf(s.hits, |s.births|)
          && (s.counter.value.expiry.Some? ==> s.births[|s.births| - 1] + WINDOW <= s.counter.value.expiry.value))
  }

  /** Lives begin at least one window apart. */
  ghost predicate BirthInv(births: seq<int>, now: int) {
    && (forall g | 0 <= g < |births| :: births[g] <= now)
    && (forall g, h | 0 <= g < h < |births| :: births[g] + WINDOW <= births[h])
  }

  /** A request falls between the beginning of its life and the beginning of the next. */
  predicate Placed(h: Hit, births: seq<int>, now: int) {
    && 1 <= h.life <= |births| && births[h.life - 1] <= h.at <= now
    && (h.life < |births| ==> h.at <= births[h.life])
  }

  ghost predicate HitInv(s: State, now: int) {
    forall i | 0 <= i < |s.hits| :: Placed(s.hits[i], s.births, now)
  }

  /** The life opened with a request at its birth, admitted unless the limit is zero. */
  predicate Opened(limit: nat, s: State, life: nat) {
    1 <= life <= |s.births| && Hit(s.births[life - 1], life, 1 <= limit) in s.hits
  }

  ghost predicate OpeningInv(limit: nat, s: State) {
    forall life | 1 <= life <= |s.births| :: Opened(limit, s, life)
  }

  ghost predicate QuotaInv(limit: nat, hits: seq<Hit>) {
    forall life :: AdmittedOf(hits, life) == if HitsOf(hits, life) <= limit then HitsOf(hits, life) else limit
  }

  /** What holds at time `now` after any interleaving. */
  ghost predicate Inv(limit: nat, s: State, now: int) {
    CounterInv(s) && BirthInv(s.births, now) && HitInv(s, now) && OpeningInv(limit, s) && QuotaInv(limit, s.hits)
  }

  lemma CountsExtend(hits: seq<Hit>, h: Hit, life: nat)
    ensures HitsOf(hits + [h], life) == HitsOf(hits, life) + if h.life == life then 1 else 0
    ensures AdmittedOf(hits + [h], life) == AdmittedOf(hits, life) + if h.life == life && h.admitted then 1 else 0
  {
  }

  lemma {:induction false} NoHitsYet(hits: seq<Hit>, life: nat)
    requires forall i | 0 <= i < |hits| :: hits[i].life != life
    ensures HitsOf(hits, life) == 0
  {
    if hits != [] {
      NoHitsYet(hits[..|hits| - 1], life);
    }
  }

  lemma IncrKeepsCounts(limit: nat, s: State, at: int, now: int)
    requires Inv(limit, s, now) && now <= at
    ensures CounterInv(Step(limit, s, Incr(at))) && QuotaInv(limit, Step(limit, s, Incr(at)).hits)
  {
    var t := Step(limit, s, Incr(at));
    var h := t.hits[|s.hits|];
    if Live(s.counter, at).None? {
      forall i | 0 <= i < |s.hits| ensures s.hits[i].life != |t.births| {
        assert Placed(s.hits[i], s.births, now);
      }
      NoHitsYet(s.hits, |t.births|);
    }
    CountsExtend(s.hits, h, |t.births|);
    forall life: nat
      ensures AdmittedOf(t.hits, life) == if HitsOf(t.hits, life) <= limit then HitsOf(t.hits, life) else limit
    {
      CountsExtend(s.hits, h, life);
      assert AdmittedOf(s.hits, life) == if HitsOf(s.hits, life) <= limit then HitsOf(s.hits, life) else limit;
    }
  }

  lemma IncrKeepsHistory(limit: nat, s: State, at: int, now: int)
    requires Inv(limit, s, now) && now <= at
    ensures var t := Step(limit, s, Incr(at));
            BirthInv(t.births, at) && HitInv(t, at) && OpeningInv(limit, t)
  {
    var t := Step(limit, s, Incr(at));
    var h := t.hits[|s.hits|];
    assert forall g | 0 <= g < |s.births| :: t.births[g] == s.births[g];
    if |t.births| > |s.births| > 0 {
      var last := |s.births| - 1;
      assert s.births[last] + WINDOW <= at;
      assert forall g | 0 <= g < last :: s.births[g] + WINDOW <= s.births[last];
    }
    forall i | 0 <= i < |t.hits| ensures Placed(t.hits[i], t.births, at) {
      if i < |s.hits| {
        assert Placed(s.hits[i], s.births, now);
      } else {
        assert s.births != [] ==> s.births[|s.births| - 1] <= at;
      }
    }
    forall life | 1 <= life <= |t.births| ensures Opened(limit, t, life) {
      if life <= |s.births| {
        assert Opened(limit, s, life);
      } else {
        assert t.hits[|s.hits|] == Hit(t.births[life - 1], life, 1 <= limit);
      }
    }
  }

  lemma ExpireKeepsInv(limit: nat, s: State, at: int)
    requires Inv(limit, s, at)
    ensures Inv(limit, Step(limit, s, Expire(at)), at)
  {
    var t := Step(limit, s, Expire(at));
    assert t.births == s.births && t.hits == s.hits;
    assert s.births != [] ==> s.births[|s.births| - 1] <= at;
    forall life | 1 <= life <= |t.births| ensures Opened(limit, t, life) {
      assert Opened(limit, s, life);
    }
  }

  lemma InvAges(limit: nat, s: State, now: int, later: int)
    requires Inv(limit, s, now) && now <= later
    ensures Inv(limit, s, later)
  {
  }

  lemma {:induction false} RunKeepsInv(limit: nat, events: seq<Event>, now: int)
    requires Ordered(events) && (events != [] ==> events[|events| - 1].at <= now)
    ensures Inv(limit, Run(limit, events), now)
  {
    if events != [] {
      var n := |events| - 1;
      RunKeepsInv(limit, events[..n], events[n].at);
      if events[n].Incr? {
        IncrKeepsCounts(limit, Run(limit, events[..n]), events[n].at, events[n].at);
        IncrKeepsHistory(limit, Run(limit, events[..n]), events[n].at, events[n].at);
      } else {
        ExpireKeepsInv(limit, Run(limit, events[..n]), events[n].at);
      }
      InvAges(limit, Run(limit, events), events[n].at, now);
    }
  }

  // ---------- the bounds ----------

  /** In every interleaving, at most `limit` requests are admitted in one life of the key. */
  lemma AdmittedPerLife(limit: nat, events: seq<Event>, life: nat)
    requires Ordered(events)
    ensures AdmittedOf(Run(limit, events).hits, life) <= limit
  {
    RunKeepsInv(limit, events, if events == [] then 0 else events[|events| - 1].at);
  }

  /** Each request is admitted exactly if it is among the first `limit` of its life. */
  lemma {:induction false} AdmittedIffInQuota(limit: nat, events: seq<Event>, i: nat)
    requires Ordered(events) && i < |Run(limit, events).hits|
    ensures var hits := Run(limit, events).hits;
      hits[i].admitted <==> HitsOf(hits[..i + 1], hits[i].life) <= limit
  {
    if events != [] {
      var n := |events| - 1;
      var s, t := Run(limit, events[..n]), Run(limit, events);
      if i < |s.hits| {
        AdmittedIffInQuota(limit, events[..n], i);
        assert t.hits[..i + 1] == s.hits[..i + 1];
      } else {
        RunKeepsInv(limit, events, events[n].at);
        assert t.hits[..i + 1] == t.hits;
      }
    }
  }

  function AdmittedBoth(hits: seq<Hit>, from: int, life: nat): nat {
    if hits == [] then 0
    else
      var h := hits[|hits| - 1];
      AdmittedBoth(hits[..|hits| - 1], from, life) + if Within(h, from) && h.life == life && h.admitted then 1 else 0
  }

  lemma {:induction false} WindowSplits(hits: seq<Hit>, from: int, life: nat)
    requires forall i | 0 <= i < |hits| && Within(hits[i], from) :: hits[i].life == life || hits[i].life == life + 1
    ensures AdmittedWithin(hits, from) == AdmittedBoth(hits, from, life) + AdmittedBoth(hits, from, life + 1)
  {
    if hits != [] {
      WindowSplits(hits[..|hits| - 1], from, life);
    }
  }

  lemma {:induction false} PartOfLife(hits: seq<Hit>, from: int, life: nat)
    ensures AdmittedBoth(hits, from, life) <= AdmittedOf(hits, life)
    ensures (exists h | h in hits :: h.life == life && h.admitted && !Within(h, from)) ==>
              AdmittedBoth(hits, from, life) < AdmittedOf(hits, life)
  {
    if hits != [] {
      var n := |hits| - 1;
      PartOfLife(hits[..n], from, life);
      if h :| h in hits && h.life == life && h.admitted && !Within(h, from) && hits[n] != h {
        assert h in hits[..n];
      }
    }
  }

  lemma {:induction false} NoneAdmitted(hits: seq<Hit>, from: int, life: nat)
    requires forall i | 0 <= i < |hits| && Within(hits[i], from) :: hits[i].life != life
    ensures AdmittedBoth(hits, from, life) == 0
  {
    if hits != [] {
      NoneAdmitted(hits[..|hits| - 1], from, life);
    }
  }

  /** The requests of any half-open 60 s window belong to at most two consecutive lives of the key. */
  lemma WindowMeetsTwoLives(limit: nat, s: State, now: int, from: int, i: nat, j: nat)
    requires Inv(limit, s, now) && i < |s.hits| && j < |s.hits|
    requires Within(s.hits[i], from) && Within(s.hits[j], from) && s.hits[i].life <= s.hits[j].life
    ensures s.hits[j].life <= s.hits[i].life + 1
    ensures s.hits[j].life == s.hits[i].life + 1 ==> s.births[s.hits[i].life - 1] < from
  {
  }

  /** The earliest life seen in the window. */
  lemma {:induction false} FirstLife(hits: seq<Hit>, from: int) returns (i: nat)
    requires exists k :: 0 <= k < |hits| && Within(hits[k], from)
    ensures i < |hits| && Within(hits[i], from)
    ensures forall k | 0 <= k < |hits| && Within(hits[k], from) :: hits[i].life <= hits[k].life
  {
    var n := |hits| - 1;
    if exists k :: 0 <= k < n && Within(hits[..n][k], from) {
      i := FirstLife(hits[..n], from);
      assert forall k | 0 <= k < n && Within(hits[k], from) :: hits[i].life <= hits[..n][k].life;
      if Within(hits[n], from) && hits[n].life < hits[i].life {
        i := n;
      }
    } else {
      assert forall k | 0 <= k < n :: hits[..n][k] == hits[k];
      i := n;
    }
  }

  /** When the window reaches into the next life, the request that opened this life lies before it. */
  lemma EarlierLifeIsPartial(limit: nat, s: State, now: int, from: int, i: nat, j: nat)
    requires Inv(limit, s, now) && i < |s.hits| && j < |s.hits|
    requires Within(s.hits[i], from) && Within(s.hits[j], from) && s.hits[j].life == s.hits[i].life + 1
    ensures limit >= 1 ==> AdmittedBoth(s.hits, from, s.hits[i].life) < AdmittedOf(s.hits, s.hits[i].life)
  {
    var life := s.hits[i].life;
    WindowMeetsTwoLives(limit, s, now, from, i, j);
    assert Placed(s.hits[i], s.births, now) && Opened(limit, s, life);
    PartOfLife(s.hits, from, life);
    var opening := Hit(s.births[life - 1], life, 1 <= limit);
    assert opening in s.hits && !Within(opening, from);
  }

  lemma QuotaPerLife(limit: nat, hits: seq<Hit>, from: int, life: nat)
    requires QuotaInv(limit, hits)
    ensures AdmittedBoth(hits, from, life) <= AdmittedOf(hits, life) <= limit
  {
    PartOfLife(hits, from, life);
  }

  /** Two consecutive lives share less than two quotas if both meet the window. */
  lemma TwoLivesBound(limit: nat, s: State, now: int, from: int, i: nat)
    requires Inv(limit, s, now) && i < |s.hits| && Within(s.hits[i], from)
    ensures AdmittedBoth(s.hits, from, s.hits[i].life) + AdmittedBoth(s.hits, from, s.hits[i].life + 1)
            <= if limit == 0 then 0 else 2 * limit - 1
  {
    var life := s.hits[i].life;
    QuotaPerLife(limit, s.hits, from, life);
    QuotaPerLife(limit, s.hits, from, life + 1);
    if j :| 0 <= j < |s.hits| && Within(s.hits[j], from) && s.hits[j].life == life + 1 {
      EarlierLifeIsPartial(limit, s, now, from, i, j);
    } else {
      NoneAdmitted(s.hits, from, life + 1);
    }
  }

  lemma {:induction false} EmptyWindow(hits: seq<Hit>, from: int)
    requires forall k | 0 <= k < |hits| :: !Within(hits[k], from)
    ensures AdmittedWithin(hits, from) == 0
  {
    if hits != [] {
      EmptyWindow(hits[..|hits| - 1], from);
    }
  }

  lemma WindowBound(limit: nat, s: State, now: int, from: int)
    requires Inv(limit, s, now)
    ensures AdmittedWithin(s.hits, from) <= if limit == 0 then 0 else 2 * limit - 1
  {
    if exists k :: 0 <= k < |s.hits| && Within(s.hits[k], from) {
      var i := FirstLife(s.hits, from);
      forall k | 0 <= k < |s.hits| && Within(s.hits[k], from)
        ensures s.hits[k].life == s.hits[i].life || s.hits[k].life == s.hits[i].life + 1
      {
        WindowMeetsTwoLives(limit, s, now, from, i, k);
      }
      WindowSplits(s.hits, from, s.hits[i].life);
      TwoLivesBound(limit, s, now, from, i);
    } else {
      EmptyWindow(s.hits, from);
    }
  }

  /** In every interleaving, any half-open interval of 60 s admits at most 2*limit - 1 requests. */
  lemma AdmittedPerMinute(limit: nat, events: seq<Event>, from: int)
    requires Ordered(events)
    ensures AdmittedWithin(Run(limit, events).hits, from) <= if limit == 0 then 0 else 2 * limit - 1
  {
    var now := if events == [] then 0 else events[|events| - 1].at;
    RunKeepsInv(limit, events, now);
    WindowBound(limit, Run(limit, events), now, from);
  }

  lemma RunExtends(limit: nat, events: seq<Event>, e: Event)
    ensures Run(limit, events + [e]) == Step(limit, Run(limit, events), e)
  {
  }

  /** Once a key has an expiry, neither a request nor an EXPIRE moves it before it has passed. */
  lemma NothingProlongsAWindow(limit: nat, events: seq<Event>, e: Event)
    requires Ordered(events) && (events != [] ==> events[|events| - 1].at <= e.at)
    requires var c := Run(limit, events).counter;
      c.Some? && c.value.expiry.Some? && e.at < c.value.expiry.value
    ensures var s, t := Run(limit, events), Run(limit, events + [e]);
      t.counter.Some? && t.counter.value.expiry == s.counter.value.expiry && t.births == s.births
  {
    RunKeepsInv(limit, events, e.at);
    RunExtends(limit, events, e);
  }

  // ---------- the bound is reached ----------

  function Repeat(e: Event, k: nat): seq<Event> { seq(k, _ => e) }

  /** One caller opens a window, the rest of the quota arrives at its end, and a full quota right after. */
  function BurstEnd(limit: nat): seq<Event>
    requires limit >= 1
  {
    [Incr(0), Expire(0)] + Repeat(Incr(59_999), limit - 1)
  }

  function Burst(limit: nat): seq<Event>
    requires limit >= 1
  {
    BurstEnd(limit) + [Incr(60_000)] + [Expire(60_000)] + Repeat(Incr(60_000), limit - 1)
  }

  lemma WithinExtends(hits: seq<Hit>, h: Hit, from: int)
    ensures AdmittedWithin(hits + [h], from)
         == AdmittedWithin(hits, from) + if Within(h, from) && h.admitted then 1 else 0
  {
  }

  /** The key is live at `at` with room for k more requests. */
  predicate HasRoom(limit: nat, s: State, at: int, k: nat) {
    && s.counter.Some? && s.counter.value.n >= 1 && s.counter.value.n + k <= limit
    && s.counter.value.expiry.Some? && at < s.counter.value.expiry.value
  }

  /** `t` is `s` after k more admitted requests. */
  predicate Admitted(s: State, t: State, k: nat, from: int) {
    && s.counter.Some? && t.counter == Some(s.counter.value.(n := s.counter.value.n + k))
    && t.pending == s.pending
    && AdmittedWithin(t.hits, from) == AdmittedWithin(s.hits, from) + k
  }

  lemma OneMoreAdmitted(limit: nat, s: State, at: int, from: int)
    requires HasRoom(limit, s, at, 1) && from <= at < from + WINDOW
    ensures Admitted(s, Step(limit, s, Incr(at)), 1, from)
  {
  }

  lemma AdmittedOnceMore(limit: nat, s: State, t: State, at: int, k: nat, from: int)
    requires HasRoom(limit, s, at, k + 1) && Admitted(s, t, k, from) && from <= at < from + WINDOW
    ensures Admitted(s, Step(limit, t, Incr(at)), k + 1, from)
  {
    OneMoreAdmitted(limit, t, at, from);
  }

  function Repeated(events: seq<Event>, e: Event, k: nat): seq<Event> {
    if k == 0 then events else Repeated(events, e, k - 1) + [e]
  }

  lemma {:induction false} RepeatedIsRepeat(events: seq<Event>, e: Event, k: nat)
    ensures Repeated(events, e, k) == events + Repeat(e, k)
  {
    if k > 0 {
      RepeatedIsRepeat(events, e, k - 1);
    }
  }

  lemma {:induction false} RepeatedAdmitted(limit: nat, events: seq<Event>, at: int, k: nat, from: int)
    requires HasRoom(limit, Run(limit, events), at, k) && from <= at < from + WINDOW
    ensures Admitted(Run(limit, events), Run(limit, Repeated(events, Incr(at), k)), k, from)
  {
    if k > 0 {
      var before := Repeated(events, Incr(at), k - 1);
      RepeatedAdmitted(limit, events, at, k - 1, from);
      RunExtends(limit, before, Incr(at));
      AdmittedOnceMore(limit, Run(limit, events), Run(limit, before), at, k - 1, from);
    }
  }

  /** A burst into a live key with enough quota is admitted whole. */
  lemma BurstAdmitted(limit: nat, events: seq<Event>, at: int, k: nat, from: int)
    requires HasRoom(limit, Run(limit, events), at, k) && from <= at < from + WINDOW
    ensures Admitted(Run(limit, events), Run(limit, events + Repeat(Incr(at), k)), k, from)
  {
    RepeatedAdmitted(limit, events, at, k, from);
    RepeatedIsRepeat(events, Incr(at), k);
  }

  lemma BurstOpens(limit: nat)
    requires limit >= 1
    ensures Run(limit, [Incr(0), Expire(0)]) == State(Some(Counter(1, Some(60_000))), 0, [0], [Hit(0, 1, true)])
  {
    RunExtends(limit, [], Incr(0));
    assert [] + [Incr(0)] == [Incr(0)];
    assert Run(limit, [Incr(0)]) == State(Some(Counter(1, None)), 1, [0], [Hit(0, 1, true)]);
    RunExtends(limit, [Incr(0)], Expire(0));
    assert [Incr(0)] + [Expire(0)] == [Incr(0), Expire(0)];
  }

  lemma BurstFirstHalf(limit: nat, events: seq<Event>)
    requires limit >= 1
    requires Run(limit, events) == State(Some(Counter(1, Some(60_000))), 0, [0], [Hit(0, 1, true)])
    ensures var s := Run(limit, events + Repeat(Incr(59_999), limit - 1));
      && s.counter == Some(Counter(limit, Some(60_000))) && s.pending == 0
      && AdmittedWithin(s.hits, 1) == limit - 1
  {
    WithinExtends([], Hit(0, 1, true), 1);
    assert [] + [Hit(0, 1, true)] == [Hit(0, 1, true)];
    BurstAdmitted(limit, events, 59_999, limit - 1, 1);
  }

  lemma BurstIsOrdered(limit: nat)
    requires limit >= 1
    ensures Ordered(Burst(limit))
  {
  }

  lemma Reopens(limit: nat, s: State)
    requires limit >= 1 && s.counter == Some(Counter(limit, Some(60_000))) && s.pending == 0
    ensures var t := Step(limit, Step(limit, s, Incr(60_000)), Expire(60_000));
      && t.counter == Some(Counter(1, Some(120_000)))
      && AdmittedWithin(t.hits, 1) == AdmittedWithin(s.hits, 1) + 1
  {
    WithinExtends(s.hits, Hit(60_000, |s.births| + 1, true), 1);
  }

  lemma BurstSecondHalf(limit: nat, events: seq<Event>)
    requires limit >= 1
    requires var s := Run(limit, events); s.counter == Some(Counter(limit, Some(60_000))) && s.pending == 0
    ensures var s := Run(limit, events); var t := Run(limit, events + [Incr(60_000)] + [Expire(60_000)]);
      && t.counter == Some(Counter(1, Some(120_000)))
      && AdmittedWithin(t.hits, 1) == AdmittedWithin(s.hits, 1) + 1
  {
    RunExtends(limit, events, Incr(60_000));
    RunExtends(limit, events + [Incr(60_000)], Expire(60_000));
    Reopens(limit, Run(limit, events));
  }

  /** The two halves of the burst, each after a prefix with a known outcome. */
  lemma BurstTotal(limit: nat, half: seq<Event>, reopened: seq<Event>)
    requires limit >= 1 && reopened == half + [Incr(60_000)] + [Expire(60_000)]
    requires var s := Run(limit, half);
      s.counter == Some(Counter(limit, Some(60_000))) && s.pending == 0 && AdmittedWithin(s.hits, 1) == limit - 1
    ensures AdmittedWithin(Run(limit, reopened + Repeat(Incr(60_000), limit - 1)).hits, 1) == 2 * limit - 1
  {
    BurstSecondHalf(limit, half);
    BurstAdmitted(limit, reopened, 60_000, limit - 1, 1);
  }

  /** For every positive limit the bound of `AdmittedPerMinute` is reached. */
  lemma BoundIsReached(limit: nat)
    requires limit >= 1
    ensures Ordered(Burst(limit))
    ensures AdmittedWithin(Run(limit, Burst(limit)).hits, 1) == 2 * limit - 1
  {
    BurstIsOrdered(limit);
    BurstOpens(limit);
    BurstFirstHalf(limit, [Incr(0), Expire(0)]);
    BurstTotal(limit, BurstEnd(limit), BurstEnd(limit) + [Incr(60_000)] + [Expire(60_000)]);
  }

  /** The limiter's promise, at most `limit` requests in every half-open minute of every run, holds exactly
      when the limit is at most 1. */
  lemma PromiseHoldsIff(limit: nat)
    ensures (forall events: seq<Event>, from: int | Ordered(events) ::
               AdmittedWithin(Run(limit, events).hits, from) <= limit) <==> limit <= 1
  {
    forall events: seq<Event>, from: int | Ordered(events) && limit <= 1
      ensures AdmittedWithin(Run(limit, events).hits, from) <= limit
    {
      AdmittedPerMinute(limit, events, from);
    }
    if limit >= 2 {
      BoundIsReached(limit);
      var events := Burst(limit);
      assert Ordered(events) && AdmittedWithin(Run(limit, events).hits, 1) > limit;
    }
  }

  // ---------- the store object ----------

  class Limiter {
    const limit: nat
    var counters: map<string, Counter>

    constructor (limit: nat)
      ensures this.limit == limit && counters == map[]
    {
      this.limit := limit;
      counters := map[];
    }

    function At(key: string): Option<Counter>
      reads this`counters
    {
      if key in counters then Some(counters[key]) else None
    }

    method Incr(key: string, now: int) returns (n: nat)
      modifies this`counters
      ensures counters == old(counters)[key := Incremented(old(At(key)), now)]
      ensures n == counters[key].n
    {
      var c := Counter(1, None);
      if key in counters && !(counters[key].expiry.Some? && counters[key].expiry.value <= now) {
        c := counters[key].(n := counters[key].n + 1);
      }
      counters := counters[key := c];
      n := c.n;
    }

    method Expire(key: string, now: int)
      modifies this`counters
      ensures At(key) == Expired(old(At(key)), now)
      ensures counters - {key} == old(counters) - {key}
    {
      if key in counters {
        if counters[key].expiry.Some? && counters[key].expiry.value <= now {
          counters := counters - {key};
        } else {
          counters := counters[key := counters[key].(expiry := Some(now + WINDOW))];
        }
      }
    }

    /** The whole check, when nothing interleaves: refused exactly when the counter exceeds the limit, and
        an empty address is never counted. */
    method CheckRateLimit(ip: string, now: int, later: int) returns (refused: bool)
      requires now <= later
      modifies this`counters
      ensures ip == "" ==> !refused && counters == old(counters)
      ensures ip != "" ==>
        var key := "auth:email_req:" + ip;
        var s := State(old(At(key)), 0, [], []);
        var t := Step(limit, s, Event.Incr(now));
        && refused == !t.hits[0].admitted
        && At(key) == (if t.pending == 1 then Step(limit, t, Event.Expire(later)) else t).counter
        && counters - {key} == old(counters) - {key}
    {
      if ip == "" {
        return false;
      }
      var key := "auth:email_req:" + ip;
      var n := Incr(key, now);
      if n == 1 {
        Expire(key, later);
      }
      refused := n > limit;
    }
  }
}
