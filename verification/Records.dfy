/** The append-only tables after a whole run: balance and position snapshots, and strategy errors, as the
    history of the messages that were accepted and committed. */
module Records {
  import opened Prelude
  import opened Domain
  import opened System
  import BotCommands
  import Projector

  // ---------- balances ----------

  /** A balance message all of whose amounts parse, for an existing credential if there is a row to insert. */
  predicate AddsBalances(w: World, s: Step) {
    && s.Message? && s.message.BalanceUpdate? && s.outcome.Committed?
    && s.message.credential.CredentialId? && s.message.balances.Some?
    && (s.message.balances.value == [] || s.message.credential.id in w.db.credentials)
    && forall k | 0 <= k < |s.message.balances.value| ::
         var a := s.message.balances.value[k]; a.free.Num? && a.used.Num? && a.total.Num?
  }

  /** One row for each entry, in order, with the entry's own amounts, id and time. */
  function BalancesOf(s: Step): seq<Balance>
    requires s.Message? && s.message.BalanceUpdate? && s.message.credential.CredentialId? && s.message.balances.Some?
    requires forall k | 0 <= k < |s.message.balances.value| ::
      var a := s.message.balances.value[k]; a.free.Num? && a.used.Num? && a.total.Num?
  {
    var entries := s.message.balances.value;
    seq(|entries|, k requires 0 <= k < |entries| =>
      Balance(entries[k].rowId, s.message.credential.id, entries[k].currency, entries[k].free.value,
              entries[k].used.value, entries[k].total.value, entries[k].at))
  }

  function BalanceLog(w: World, steps: seq<Step>): seq<Balance> {
    if steps == [] then []
    else
      var n := |steps| - 1;
      BalanceLog(w, steps[..n]) + if AddsBalances(Run(w, steps[..n]), steps[n]) then BalancesOf(steps[n]) else []
  }

  lemma BalancesStep(w: World, s: Step)
    ensures Apply(w, s).db.balances == w.db.balances + if AddsBalances(w, s) then BalancesOf(s) else []
  {
    if s.Message? && s.message.BalanceUpdate? {
      Projector.BalanceMessageAccepted(w.db, s.message, s.clock);
      if s.message.credential.CredentialId? && s.message.balances.Some? {
        Projector.BalanceRowsMeaning(s.message.credential.id, s.message.balances.value);
      }
    }
  }

  /** In every run, the snapshots are the old ones followed by those of the accepted messages, in order. */
  lemma {:induction false} BalancesAreHistory(w: World, steps: seq<Step>)
    ensures Run(w, steps).db.balances == w.db.balances + BalanceLog(w, steps)
  {
    if steps != [] {
      BalancesAreHistory(w, steps[..|steps| - 1]);
      BalancesStep(Run(w, steps[..|steps| - 1]), steps[|steps| - 1]);
    }
  }

  // ---------- positions ----------

  predicate Complete(p: PositionEntry) {
    p.symbol.Some? && p.side.Some? && p.entryPrice.Num? && p.size.Num? && p.pnl.Num?
  }

  predicate AddsPositions(w: World, s: Step) {
    && s.Message? && s.message.PositionsUpdate? && s.outcome.Committed?
    && s.message.credential.CredentialId? && s.message.positions.Some?
    && (s.message.positions.value == [] || s.message.credential.id in w.db.credentials)
    && forall k | 0 <= k < |s.message.positions.value| :: Complete(s.message.positions.value[k])
  }

  function PositionsOf(s: Step): seq<Position>
    requires s.Message? && s.message.PositionsUpdate? && s.message.credential.CredentialId? && s.message.positions.Some?
    requires forall k | 0 <= k < |s.message.positions.value| :: Complete(s.message.positions.value[k])
  {
    var entries := s.message.positions.value;
    seq(|entries|, k requires 0 <= k < |entries| && Complete(entries[k]) =>
      Position(s.message.credential.id, entries[k].symbol.value, entries[k].side.value, entries[k].entryPrice.value,
               entries[k].size.value, entries[k].pnl.value, entries[k].at))
  }

  function PositionLog(w: World, steps: seq<Step>): seq<Position> {
    if steps == [] then []
    else
      var n := |steps| - 1;
      PositionLog(w, steps[..n]) + if AddsPositions(Run(w, steps[..n]), steps[n]) then PositionsOf(steps[n]) else []
  }

  lemma PositionsStep(w: World, s: Step)
    ensures Apply(w, s).db.positions == w.db.positions + if AddsPositions(w, s) then PositionsOf(s) else []
  {
    if s.Message? && s.message.PositionsUpdate? {
      Projector.PositionMessageAccepted(w.db, s.message, s.clock);
      if s.message.credential.CredentialId? && s.message.positions.Some? {
        Projector.PositionRowsMeaning(s.message.credential.id, s.message.positions.value);
      }
    }
  }

  /** The same for positions. */
  lemma {:induction false} PositionsAreHistory(w: World, steps: seq<Step>)
    ensures Run(w, steps).db.positions == w.db.positions + PositionLog(w, steps)
  {
    if steps != [] {
      PositionsAreHistory(w, steps[..|steps| - 1]);
      PositionsStep(Run(w, steps[..|steps| - 1]), steps[|steps| - 1]);
    }
  }

  // ---------- strategy errors ----------

  /** A strategy_error message whose bot id is text or missing. */
  predicate ReportsError(s: Step) {
    s.Message? && s.message.StrategyFailed? && s.outcome.Committed? && !s.message.bot.NotText?
  }

  /** The owner deletes the bot. */
  predicate Removes(w: World, s: Step, bot: Uuid) {
    && s.Request? && s.request.Delete? && s.outcome.Committed? && s.request.bot == bot
    && bot in w.db.bots && w.db.bots[bot].owner == s.request.user
  }

  /** The error messages of the run, in order. */
  function ErrorMessages(steps: seq<Step>): seq<EngineMessage> {
    if steps == [] then []
    else
      var n := |steps| - 1;
      ErrorMessages(steps[..n]) + if ReportsError(steps[n]) then [steps[n].message] else []
  }

  /** The bot of the k-th error: the one its message names, if it existed then and has not been deleted since. */
  function BotOfError(w: World, steps: seq<Step>, k: nat): Option<Uuid>
    requires k < |ErrorMessages(steps)|
  {
    var n := |steps| - 1;
    var before, s := Run(w, steps[..n]), steps[n];
    if k == |ErrorMessages(steps[..n])| then
      if s.message.bot.BotId? && s.message.bot.id in before.db.bots then Some(s.message.bot.id) else None
    else
      var bot := BotOfError(w, steps[..n], k);
      if bot.Some? && Removes(before, s, bot.value) then None else bot
  }

  /** What a step does to the table, row by row. */
  lemma ErrorsStep(w: World, s: Step)
    ensures var old_, new_ := w.db.errors, Apply(w, s).db.errors;
      && |new_| == |old_| + (if ReportsError(s) then 1 else 0)
      && (forall k | 0 <= k < |old_| ::
            new_[k] == if old_[k].bot.Some? && Removes(w, s, old_[k].bot.value) then old_[k].(bot := None) else old_[k])
      && (ReportsError(s) ==>
            var m := s.message;
            new_[|old_|] == StrategyErrorRow(
              if m.bot.BotId? && m.bot.id in w.db.bots then Some(m.bot.id) else None,
              m.strategy, m.errorKind, m.text, m.raw))
  {
  }

  /** In every run from the empty database, the table has one row for each error message, in order, with the
      message's fields, for the bot it names while that bot exists. */
  lemma {:induction false} ErrorsAreHistory(credentials: map<Uuid, Uuid>, steps: seq<Step>)
    ensures var w := Fresh(credentials); var errors, messages := Run(w, steps).db.errors, ErrorMessages(steps);
      && |errors| == |messages|
      && forall k | 0 <= k < |messages| ::
           var m := messages[k];
           m.StrategyFailed? &&
           errors[k] == StrategyErrorRow(BotOfError(w, steps, k), m.strategy, m.errorKind, m.text, m.raw)
  {
    if steps != [] {
      ErrorsAreHistory(credentials, steps[..|steps| - 1]);
      ErrorsStep(Run(Fresh(credentials), steps[..|steps| - 1]), steps[|steps| - 1]);
    }
  }
}
