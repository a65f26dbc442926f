/** Transactions: a run leaves exactly what its successful transactions did, in order. */
module Atomicity {
  import opened Prelude
  import opened Domain
  import opened System
  import BotCommands
  import Projector

  /** The transaction ran to its end and committed. */
  predicate Succeeds(w: World, s: Step) {
    s.outcome.Committed? &&
    match s
    case Request(r, at, _) => BotCommands.Serve(w.db, r, at).reply.Done?
    case Message(m, clock, _) => Projector.Handle(w.db, m, clock).Some?
  }

  /** The steps of a run that succeeded, each judged in the state it met. */
  function Successes(w: World, steps: seq<Step>): seq<Step> {
    if steps == [] then []
    else
      var n := |steps| - 1;
      Successes(w, steps[..n]) + if Succeeds(Run(w, steps[..n]), steps[n]) then [steps[n]] else []
  }

  /** The effect of a step that is known to succeed. */
  function Effect(db: Db, s: Step): Db
    requires Succeeds(World(db, [], []), s)
  {
    match s
    case Request(r, at, _) => BotCommands.Serve(db, r, at).db
    case Message(m, clock, _) => Projector.Handle(db, m, clock).value.db
  }

  /** The in-order fold of steps over a database; None if one of them would not succeed. */
  function Fold(db: Db, steps: seq<Step>): Option<Db> {
    if steps == [] then Some(db)
    else
      var n := |steps| - 1;
      var before := Fold(db, steps[..n]);
      if before.Some? && Succeeds(World(before.value, [], []), steps[n])
      then Some(Effect(before.value, steps[n])) else None
  }

  lemma FoldExtends(db: Db, steps: seq<Step>, s: Step)
    ensures Fold(db, steps + [s]) ==
            var before := Fold(db, steps);
            if before.Some? && Succeeds(World(before.value, [], []), s)
            then Some(Effect(before.value, s)) else None
  {
  }

  /** After any run the committed database is the in-order fold of exactly the steps that succeeded: a
      transaction that raised, or failed to commit, leaves nothing and disturbs none of the others. */
  lemma {:induction false} CommittedStateIsFoldOfSuccesses(w: World, steps: seq<Step>)
    ensures Fold(w.db, Successes(w, steps)) == Some(Run(w, steps).db)
  {
    if steps != [] {
      var n := |steps| - 1;
      CommittedStateIsFoldOfSuccesses(w, steps[..n]);
      if Succeeds(Run(w, steps[..n]), steps[n]) {
        FoldExtends(w.db, Successes(w, steps[..n]), steps[n]);
      } else {
        assert Successes(w, steps) == Successes(w, steps[..n]);
      }
    }
  }

  /** One bad amount, wherever it stands, and none of the message's rows are kept. */
  lemma BadAmountLeavesNoRow(w: World, s: Step, bad: Amounts)
    requires s.Message? && s.message.BalanceUpdate? && s.message.balances.Some?
    requires bad in s.message.balances.value && !(bad.free.Num? && bad.used.Num? && bad.total.Num?)
    ensures Apply(w, s).db == w.db && Apply(w, s).sent == w.sent
  {
    Projector.BalanceMessageAccepted(w.db, s.message, s.clock);
  }

  lemma BadPositionLeavesNoRow(w: World, s: Step, bad: PositionEntry)
    requires s.Message? && s.message.PositionsUpdate? && s.message.positions.Some?
    requires bad in s.message.positions.value
    requires !(bad.symbol.Some? && bad.side.Some? && bad.entryPrice.Num? && bad.size.Num? && bad.pnl.Num?)
    ensures Apply(w, s).db == w.db && Apply(w, s).sent == w.sent
  {
    Projector.PositionMessageAccepted(w.db, s.message, s.clock);
  }

  // ---------- broadcasts ----------

  /** The broadcast was sent by a handler that ran to its end in the given step, and carries that handler's
      complete staged database, which is what the database holds after the step if and only if the
      transaction committed or had nothing to change. */
  predicate ExplainedBy(before: World, s: Step, b: Broadcast) {
    && s.Message? && !s.outcome.Refused? && b.message == s.message
    && var handled := Projector.Handle(before.db, s.message, s.clock);
       && handled.Some? && b in handled.value.broadcasts && b.staged == handled.value.db
       && (Apply(before, s).db == b.staged <==> s.outcome.Committed? || b.staged == before.db)
  }

  lemma SentInStep(before: World, s: Step, b: Broadcast)
    requires b in Apply(before, s).sent && b !in before.sent
    ensures ExplainedBy(before, s, b)
  {
    if s.Message? {
      Projector.BroadcastFollowsStaging(before.db, s.message, s.clock);
    }
  }

  /** Every broadcast of a run is explained by one of its steps. */
  lemma {:induction false} BroadcastsAreExplained(w: World, steps: seq<Step>, b: Broadcast) returns (k: nat)
    requires b in Run(w, steps).sent && b !in w.sent
    ensures k < |steps| && ExplainedBy(Run(w, steps[..k]), steps[k], b)
  {
    var n := |steps| - 1;
    if b in Run(w, steps[..n]).sent {
      k := BroadcastsAreExplained(w, steps[..n], b);
      assert steps[..n][..k] == steps[..k];
    } else {
      k := n;
      SentInStep(Run(w, steps[..n]), steps[n], b);
    }
  }

  /** A broadcast is no proof of a commit: at the end of this run from the empty database the owner has been
      told of an order that is not stored. */
  lemma BroadcastWithoutCommit() returns (credentials: map<Uuid, Uuid>, steps: seq<Step>, trade: EngineMessage)
    ensures trade.NewTrade?
    ensures var end := Run(Fresh(credentials), steps);
      && end.db.orders == []
      && |end.sent| == 1 && end.sent[0].recipient == User(7) && end.sent[0].message == trade
      && |end.sent[0].staged.orders| == 1
  {
    credentials := map[1 := 7];
    trade := NewTrade(BotId(9), Some("x"), Some("BTC/USDT"), Some("buy"), Some("limit"), Num(Finite(1.0)), Null,
                      Some("open"), None);
    var none: seq<Step> := [];
    var create := Request(BotCommands.Create(7, 9, 1, "s", "BTC/USDT", "1m", ""), 0, Committed);
    var event := Message(trade, Clock(0, 0, 0), CommitFailed);
    steps := none + [create] + [event];
    RunExtends(Fresh(credentials), none, create);
    RunExtends(Fresh(credentials), none + [create], event);
  }
}
