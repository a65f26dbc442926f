/** The message loop (`pubsub_subscriber.py`): subscribe, process messages until the connection breaks,
    sleep with capped exponential backoff, and again. */
module Subscriber {
  import opened Domain
  import opened Prelude
  import Backend
  import System

  /** What the listener yields.  `closed` is whether the session of the message was rolled back, if need be,
      and closed without an exception.  `keyStored` is whether Redis then accepts the last-heartbeat key,
      which is written after every engine.status message whatever became of its transaction. */
  datatype Item =
    | Control
    | Undecodable
    | BadJson
    | NotAnObject
    | Event(message: EngineMessage, clock: Clock, outcome: System.Outcome, closed: bool, keyStored: bool)

  /** One turn of the outer loop, which always ends in an exception. */
  datatype Attempt = Unreachable | Connected(items: seq<Item>)

  /** An exception leaves the listening loop: bytes that are not UTF-8, a session that cannot be closed, or a
      key that cannot be stored. */
  predicate Breaks(item: Item) {
    item.Undecodable? || (item.Event? && (!item.closed || (item.message.EngineStatus? && !item.keyStored)))
  }

  /** The transaction an item starts, if it is a well-formed event. */
  function Started(item: Item): seq<System.Step> {
    if item.Event? then [System.Message(item.message, item.clock, item.outcome)] else []
  }

  /** The transactions of a listening session: those of its items, up to the first that breaks the loop. */
  function Delivered(items: seq<Item>): seq<System.Step> {
    if items == [] then [] else Started(items[0]) + if Breaks(items[0]) then [] else Delivered(items[1..])
  }

  lemma DeliveredUnfolds(done: seq<System.Step>, items: seq<Item>, k: nat)
    requires k < |items|
    ensures done + Delivered(items[k..])
         == (done + Started(items[k])) + if Breaks(items[k]) then [] else Delivered(items[k + 1..])
  {
    assert items[k..][1..] == items[k + 1..];
  }

  /** An item that the loop survives: a message it skips, or an event whose session closes and whose key, if
      it is a heartbeat, is stored. */
  predicate Survived(item: Item) {
    match item
    case Control => true
    case BadJson => true
    case NotAnObject => true
    case Undecodable => false
    case Event(message, _, _, closed, keyStored) => closed && (message.EngineStatus? ==> keyStored)
  }

  lemma {:induction false} DeliveredSplits(before: seq<Item>, rest: seq<Item>)
    requires forall x | x in before :: Survived(x)
    ensures Delivered(before + rest) == Delivered(before) + Delivered(rest)
  {
    if before == [] {
      assert before + rest == rest;
    } else {
      assert before[0] in before;
      assert (before + rest)[1..] == before[1..] + rest;
      DeliveredSplits(before[1..], rest);
    }
  }

  lemma DeliveredHead(item: Item, after: seq<Item>)
    ensures Delivered([item] + after) == Started(item) + if Breaks(item) then [] else Delivered(after)
  {
    assert ([item] + after)[1..] == after;
  }

  /** Whatever comes before and after: skipped messages start nothing and stop nothing, a survived event starts
      its own transaction and stops nothing, and nothing is delivered after an item that is not survived. */
  lemma DeliveredItemByItem(before: seq<Item>, item: Item, after: seq<Item>)
    requires forall x | x in before :: Survived(x)
    ensures Delivered(before + ([item] + after)) == Delivered(before) +
            match item
            case Control => Delivered(after)
            case BadJson => Delivered(after)
            case NotAnObject => Delivered(after)
            case Undecodable => []
            case Event(message, clock, outcome, _, _) =>
              [System.Message(message, clock, outcome)] + if Survived(item) then Delivered(after) else []
  {
    DeliveredSplits(before, [item] + after);
    DeliveredHead(item, after);
    assert [] + Delivered(after) == Delivered(after);
  }

  function DeliveredBy(a: Attempt): seq<System.Step> { if a.Connected? then Delivered(a.items) else [] }

  function AllDelivered(attempts: seq<Attempt>): seq<System.Step> {
    if attempts == [] then []
    else
      var n := |attempts| - 1;
      AllDelivered(attempts[..n]) + DeliveredBy(attempts[n])
  }

  // ---------- backoff ----------

  function Min(a: int, b: int): int { if a <= b then a else b }

  function Pow2(k: nat): nat { if k == 0 then 1 else 2 * Pow2(k - 1) }

  /** How many attempts have failed to subscribe since the last one that did, or since the start. */
  function Streak(attempts: seq<Attempt>, i: nat): nat
    requires i < |attempts|
  {
    if attempts[i].Connected? || i == 0 then 0 else 1 + Streak(attempts, i - 1)
  }

  /** The sleep after `streak` such failures, in seconds. */
  function Delay(streak: nat, cap: nat): nat {
    if streak == 0 then 1 else Min(cap, Pow2(streak))
  }

  lemma DelayDoubles(streak: nat, cap: nat)
    ensures Delay(streak + 1, cap) == Min(cap, 2 * Delay(streak, cap))
  {
    assert Pow2(streak + 1) == 2 * Pow2(streak);
  }

  /** Sleeps never exceed the cap (or one second), never shrink while failures continue, and reach the
      cap as soon as the power of two does. */
  lemma {:induction false} DelayShape(streak: nat, cap: nat)
    ensures Delay(streak, cap) <= (if cap == 0 then 1 else cap)
    ensures cap >= 1 ==> Delay(streak, cap) <= Delay(streak + 1, cap)
    ensures Pow2(streak) > streak
    ensures cap <= streak && streak > 0 ==> Delay(streak, cap) == cap
  {
    if streak > 0 {
      DelayShape(streak - 1, cap);
    }
  }

  /** The sleep after attempt k, from the backoff left by the attempts before it. */
  lemma NextDelay(attempts: seq<Attempt>, k: nat, cap: nat, backoff: int)
    requires k < |attempts|
    requires backoff == if k == 0 then 1 else Min(cap, 2 * Delay(Streak(attempts, k - 1), cap))
    ensures Delay(Streak(attempts, k), cap) == if attempts[k].Connected? then 1 else backoff
  {
    if k > 0 {
      DelayDoubles(Streak(attempts, k - 1), cap);
    }
  }

  /** The sleeps so far follow the streaks. */
  ghost predicate Follows(sleeps: seq<int>, attempts: seq<Attempt>, cap: nat) {
    |sleeps| <= |attempts| && forall i | 0 <= i < |sleeps| :: sleeps[i] == Delay(Streak(attempts, i), cap)
  }

  /** The backoff at the start of turn k. */
  function Carried(attempts: seq<Attempt>, k: nat, cap: nat): int
    requires k <= |attempts|
  {
    if k == 0 then 1 else Min(cap, 2 * Delay(Streak(attempts, k - 1), cap))
  }

  lemma FollowsExtends(sleeps: seq<int>, attempts: seq<Attempt>, cap: nat, sleep: int)
    requires Follows(sleeps, attempts, cap) && |sleeps| < |attempts|
    requires sleep == if attempts[|sleeps|].Connected? then 1 else Carried(attempts, |sleeps|, cap)
    ensures Follows(sleeps + [sleep], attempts, cap)
    ensures Min(cap, sleep * 2) == Carried(attempts, |sleeps| + 1, cap)
  {
    NextDelay(attempts, |sleeps|, cap, Carried(attempts, |sleeps|, cap));
  }

  lemma {:induction false} RunConcatenates(w: System.World, a: seq<System.Step>, b: seq<System.Step>)
    ensures System.Run(w, a + b) == System.Run(System.Run(w, a), b)
    decreases |b|
  {
    if b == [] {
      assert a + b == a;
    } else {
      var n := |b| - 1;
      RunConcatenates(w, a, b[..n]);
      assert (a + b)[..|a| + n] == a + b[..n];
    }
  }

  lemma AllDeliveredExtends(w: System.World, attempts: seq<Attempt>, k: nat)
    requires k < |attempts|
    ensures System.Run(w, AllDelivered(attempts[..k + 1]))
         == System.Run(System.Run(w, AllDelivered(attempts[..k])), DeliveredBy(attempts[k]))
  {
    assert attempts[..k + 1][..k] == attempts[..k];
    RunConcatenates(w, AllDelivered(attempts[..k]), DeliveredBy(attempts[k]));
  }

  class Loop {
    const projector: Backend.EventProjector
    const cap: nat
    var backoff: int

    constructor (projector: Backend.EventProjector, cap: nat)
      ensures this.projector == projector && this.cap == cap && backoff == 1
    {
      this.projector := projector;
      this.cap := cap;
      backoff := 1;
    }

    ghost function World(): System.World
      reads projector.session, projector.hub
    {
      System.World(projector.session.committed, [], projector.hub.sent)
    }

    /** One item of the loop; `broken` is whether an exception leaves it. */
    method Receive(item: Item) returns (broken: bool)
      requires projector.session.staged == projector.session.committed
      modifies projector.session, projector.hub
      ensures projector.session.staged == projector.session.committed
      ensures broken == Breaks(item)
      ensures World() == System.Run(old(World()), Started(item))
    {
      if !item.Event? {
        return item.Undecodable?;
      }
      ghost var none: seq<System.Step> := [];
      ghost var step := System.Message(item.message, item.clock, item.outcome);
      System.RunExtends(World(), none, step);
      assert none + [step] == Started(item);
      projector.ProcessMessage(item.message, item.clock, item.outcome);
      broken := !item.closed || (item.message.EngineStatus? && !item.keyStored);
    }

    /** `async for message in pubsub.listen()`, until an exception leaves the loop. */
    method Listen(items: seq<Item>)
      requires projector.session.staged == projector.session.committed
      modifies projector.session, projector.hub
      ensures projector.session.staged == projector.session.committed
      ensures World() == System.Run(old(World()), Delivered(items))
    {
      ghost var start := World();
      ghost var done: seq<System.Step> := [];
      assert done + Delivered(items[0..]) == Delivered(items);
      for k := 0 to |items|
        invariant projector.session.staged == projector.session.committed
        invariant done + Delivered(items[k..]) == Delivered(items)
        invariant World() == System.Run(start, done)
      {
        DeliveredUnfolds(done, items, k);
        RunConcatenates(start, done, Started(items[k]));
        var broken := Receive(items[k]);
        done := done + Started(items[k]);
        if broken {
          assert done + [] == done;
          return;
        }
      }
      assert done + [] == done;
    }

    /** The part of a turn before the exception: subscribing resets the backoff. */
    method Subscribe(a: Attempt)
      requires projector.session.staged == projector.session.committed
      modifies this`backoff, projector.session, projector.hub
      ensures projector.session.staged == projector.session.committed
      ensures backoff == if a.Connected? then 1 else old(backoff)
      ensures World() == System.Run(old(World()), DeliveredBy(a))
    {
      if a.Connected? {
        backoff := 1;
        Listen(a.items);
      }
    }

    /** One turn of the outer loop, with the sleep after its exception. */
    method Turn(a: Attempt) returns (sleep: int)
      requires projector.session.staged == projector.session.committed
      modifies this`backoff, projector.session, projector.hub
      ensures projector.session.staged == projector.session.committed
      ensures sleep == (if a.Connected? then 1 else old(backoff)) && backoff == Min(cap, sleep * 2)
      ensures World() == System.Run(old(World()), DeliveredBy(a))
    {
      Subscribe(a);
      sleep := backoff;
      backoff := Min(cap, backoff * 2);
    }

    /** The database ends as the run of exactly the delivered messages, and the sleeps follow the streaks
        of failed subscriptions. */
    method Run(attempts: seq<Attempt>) returns (sleeps: seq<int>)
      requires projector.session.staged == projector.session.committed && backoff == 1
      modifies this`backoff, projector.session, projector.hub
      ensures World() == System.Run(old(World()), AllDelivered(attempts))
      ensures |sleeps| == |attempts|
      ensures forall i | 0 <= i < |attempts| :: sleeps[i] == Delay(Streak(attempts, i), cap)
    {
      ghost var start := World();
      sleeps := [];
      for k := 0 to |attempts|
        invariant projector.session.staged == projector.session.committed
        invariant World() == System.Run(start, AllDelivered(attempts[..k]))
        invariant |sleeps| == k && Follows(sleeps, attempts, cap)
        invariant backoff == Carried(attempts, k, cap)
      {
        AllDeliveredExtends(start, attempts, k);
        var sleep := Turn(attempts[k]);
        FollowsExtends(sleeps, attempts, cap, sleep);
        sleeps := sleeps + [sleep];
      }
      assert attempts[..|attempts|] == attempts;
    }
  }

  /** The default cap of 30 seconds: while the broker stays away the sleeps are 1, 2, 4, 8, 16, 30, 30, ... */
  lemma {:induction false} DefaultSleeps(attempts: seq<Attempt>, i: nat)
    requires i < |attempts| && forall k | 0 <= k <= i :: attempts[k].Unreachable?
    ensures Streak(attempts, i) == i
    ensures Delay(Streak(attempts, i), 30)
         == (if i == 0 then 1 else if i == 1 then 2 else if i == 2 then 4 else if i == 3 then 8
             else if i == 4 then 16 else 30)
  {
    if i > 0 {
      DefaultSleeps(attempts, i - 1);
      assert Pow2(0) == 1 && Pow2(1) == 2 && Pow2(2) == 4 && Pow2(3) == 8 && Pow2(4) == 16 && Pow2(5) == 32;
      if i > 5 {
        DelayDoubles(i - 1, 30);
      }
    }
  }
}
