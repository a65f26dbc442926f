/** Bot status writes and the reconciliation of the bots table with an engine heartbeat
    (`bot_repo.py`, `event_projector.py`). */
module Heartbeat {
  import opened Prelude
  import opened Domain

  /** Two minutes, in microseconds. */
  const STARTUP_TIMEOUT: int := 120_000_000

  /** A direct UPDATE: the column's `onupdate` stamps every row it matches. */
  function Stamped(b: Bot, status: Status, now: int): Bot {
    b.(status := status, updatedAt := now)
  }

  /** An ORM flush of `status`: without a net change no UPDATE is issued. */
  function FlushStatus(b: Bot, status: Status, now: int): Bot {
    if b.status == status then b else Stamped(b, status, now)
  }

  /** An ORM flush of `params`. */
  function FlushParams(b: Bot, params: Json, now: int): Bot {
    if b.params == params then b else b.(params := params, updatedAt := now)
  }

  /** UPDATE bots SET status = ... WHERE id = ... */
  function WithStatus(t: BotTable, id: Uuid, status: Status, now: int): BotTable {
    if id in t then t[id := Stamped(t[id], status, now)] else t
  }

  // ---------- the three passes, each over the whole table ----------

  predicate Promotes(b: Bot, active: bool) { b.status.Starting? && active }

  predicate Reaps(b: Bot, active: bool) { (b.status.Running? || b.status.Stopping?) && !active }

  predicate Expires(b: Bot, active: bool, now: int) {
    b.status.Starting? && !active && b.updatedAt < now - STARTUP_TIMEOUT
  }

  function PromotePass(t: BotTable, active: set<Uuid>, now: int): BotTable {
    map id | id in t :: if Promotes(t[id], id in active) then Stamped(t[id], Running, now) else t[id]
  }

  function ReapPass(t: BotTable, active: set<Uuid>, now: int): BotTable {
    map id | id in t :: if Reaps(t[id], id in active) then Stamped(t[id], Stopped, now) else t[id]
  }

  function ExpirePass(t: BotTable, active: set<Uuid>, now: int): BotTable {
    map id | id in t :: if Expires(t[id], id in active, now) then Stamped(t[id], Errored, now) else t[id]
  }

  // ---------- the simultaneous pointwise map ----------

  /** What one heartbeat means for one bot, from its status before the heartbeat alone. */
  function BeatOne(b: Bot, active: bool, c: Clock): Bot {
    match b.status
    case Starting =>
      if active then Stamped(b, Running, c.first)
      else if b.updatedAt < c.third - STARTUP_TIMEOUT then Stamped(b, Errored, c.third)
      else b
    case Running => if active then b else Stamped(b, Stopped, c.second)
    case Stopping => if active then b else Stamped(b, Stopped, c.second)
    case _ => b
  }

  function BeatAll(t: BotTable, active: set<Uuid>, c: Clock): BotTable {
    map id | id in t :: BeatOne(t[id], id in active, c)
  }

  /** The three passes in sequence are one simultaneous map, for every table and every active set. */
  lemma PassesAreOneMap(t: BotTable, active: set<Uuid>, c: Clock)
    ensures ExpirePass(ReapPass(PromotePass(t, active, c.first), active, c.second), active, c.third)
         == BeatAll(t, active, c)
  {
  }

  /** A row written by one pass is left alone by the passes after it. */
  lemma LaterPassesUndoNothing(t: BotTable, active: set<Uuid>, c: Clock, id: Uuid)
    requires id in t
    ensures var promoted := PromotePass(t, active, c.first);
            var reaped := ReapPass(promoted, active, c.second);
            var expired := ExpirePass(reaped, active, c.third);
            && (Promotes(t[id], id in active) ==> promoted[id].status.Running? && expired[id] == promoted[id])
            && (Reaps(promoted[id], id in active) ==> reaped[id].status.Stopped? && expired[id] == reaped[id])
  {
  }

  // ---------- convergence ----------

  function Rank(s: Status): nat {
    match s
    case Starting => 2
    case Running => 1
    case Stopping => 1
    case _ => 0
  }

  /** The heartbeat issues an UPDATE for this bot. */
  predicate Writes(b: Bot, active: bool, c: Clock) {
    Promotes(b, active) || Reaps(b, active) || Expires(b, active, c.third)
  }

  lemma WriteLowersRank(b: Bot, active: bool, c: Clock)
    ensures Writes(b, active, c) ==> Rank(BeatOne(b, active, c).status) < Rank(b.status)
    ensures !Writes(b, active, c) ==> BeatOne(b, active, c) == b
  {
  }

  /** A heartbeat as one bot sees it. */
  datatype Beat = Beat(active: bool, clock: Clock)

  /** The bot after a run of heartbeats with no other event in between. */
  function Beaten(b: Bot, beats: seq<Beat>): Bot
    decreases |beats|
  {
    if beats == [] then b else Beaten(BeatOne(b, beats[0].active, beats[0].clock), beats[1..])
  }

  /** How many of those heartbeats wrote the bot. */
  function WriteCount(b: Bot, beats: seq<Beat>): nat
    decreases |beats|
  {
    if beats == [] then 0
    else (if Writes(b, beats[0].active, beats[0].clock) then 1 else 0)
         + WriteCount(BeatOne(b, beats[0].active, beats[0].clock), beats[1..])
  }

  /** The rank pays for every write, so heartbeats alone write a bot at most twice. */
  lemma {:induction false} HeartbeatsWriteAtMostTwice(b: Bot, beats: seq<Beat>)
    ensures WriteCount(b, beats) + Rank(Beaten(b, beats).status) <= Rank(b.status) <= 2
    decreases |beats|
  {
    if beats != [] {
      WriteLowersRank(b, beats[0].active, beats[0].clock);
      HeartbeatsWriteAtMostTwice(BeatOne(b, beats[0].active, beats[0].clock), beats[1..]);
    }
  }

  /** ... and at most once while the active set stays the same. */
  lemma {:induction false} FixedActiveSetWritesAtMostOnce(b: Bot, beats: seq<Beat>, active: bool)
    requires forall k | 0 <= k < |beats| :: beats[k].active == active
    ensures WriteCount(b, beats) <= 1
    ensures (b.status.Running? && active) || Rank(b.status) == 0 ==> WriteCount(b, beats) == 0
    decreases |beats|
  {
    if beats != [] {
      FixedActiveSetWritesAtMostOnce(BeatOne(b, beats[0].active, beats[0].clock), beats[1..], active);
    }
  }

  /** A heartbeat more than two minutes after every update leaves no bot STARTING, and leaves
      RUNNING or STOPPING only bots the engine reports. */
  lemma LateHeartbeatSettles(t: BotTable, active: set<Uuid>, c: Clock)
    requires forall id | id in t :: t[id].updatedAt + 120_000_000 < c.third
    ensures forall id | id in t ::
      var s := BeatAll(t, active, c)[id].status;
      !s.Starting? && (s.Running? || s.Stopping? ==> id in active)
  {
  }

  /** Repeating a heartbeat with the same active set and a cutoff no later changes nothing. */
  lemma RepetitionIsIdempotent(t: BotTable, active: set<Uuid>, c: Clock, again: Clock)
    requires again.third <= c.third
    ensures BeatAll(BeatAll(t, active, c), active, again) == BeatAll(t, active, c)
  {
  }

  // ---------- the set of active ids ----------

  /** The UUIDs in `active_bots`; malformed strings are skipped. */
  function ActiveIds(refs: seq<ActiveRef>): set<Uuid> {
    set k | 0 <= k < |refs| && refs[k].ActiveId? :: refs[k].id
  }

  /** Neither repeating an id nor inserting malformed ones anywhere changes the active set. */
  lemma NoiseDoesNotMatter(refs: seq<ActiveRef>, more: seq<ActiveRef>, at: nat)
    requires at <= |refs|
    requires forall k | 0 <= k < |more| :: more[k].ActiveId? ==> more[k].id in ActiveIds(refs)
    ensures ActiveIds(refs[..at] + more + refs[at..]) == ActiveIds(refs)
  {
    var all := refs[..at] + more + refs[at..];
    forall id | id in ActiveIds(refs) ensures id in ActiveIds(all) {
      var k :| 0 <= k < |refs| && refs[k].ActiveId? && refs[k].id == id;
      assert all[if k < at then k else k + |more|] == refs[k];
    }
    forall id | id in ActiveIds(all) ensures id in ActiveIds(refs) {
      var k :| 0 <= k < |all| && all[k].ActiveId? && all[k].id == id;
      if k < at { assert refs[k] == all[k]; }
      else if k < at + |more| { assert more[k - at] == all[k]; }
      else { assert refs[k - |more|] == all[k]; }
    }
  }
}
