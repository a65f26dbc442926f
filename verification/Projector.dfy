/** What each engine message does to the database and which broadcasts it sends
    (`event_projector.py`), as functions of the transaction's view of the database. */
module Projector {
  import opened Prelude
  import opened Domain
  import Heartbeat
  import Orders

  /** The effect of a handler that ran to its end. */
  datatype Handled = Handled(db: Db, broadcasts: seq<Broadcast>)

  function ToDecimal(n: Number): Option<Quantity> {
    if n.Num? then Some(n.value) else None
  }

  datatype Resolution = Raised | Unresolved | Resolved(id: Uuid)

  function Resolve(bots: BotTable, ref: BotRef): Resolution {
    match ref
    case Absent => Unresolved
    case NotText => Raised
    case Malformed => Unresolved
    case BotId(id) => if id in bots then Resolved(id) else Unresolved
  }

  // ---------- engine.new_trade ----------

  /** The row of a trade message, unless a key is missing or a number does not parse. */
  function TradeOrder(bot: Option<Uuid>, m: EngineMessage): Option<Order>
    requires m.NewTrade?
  {
    if m.orderId.None? || m.symbol.None? || m.side.None? || m.orderType.None? || m.status.None?
       || !m.size.Num? || m.price.NotANumber? then None
    else
      Some(Order(bot, m.orderId.value, m.symbol.value, m.side.value, m.orderType.value, m.size.value,
                 ToDecimal(m.price), m.status.value, if m.strategy.Some? then m.strategy.value else ""))
  }

  function HandleNewTrade(db: Db, m: EngineMessage): Option<Handled>
    requires m.NewTrade?
  {
    var bot := Resolve(db.bots, m.bot);
    if bot.Raised? then None
    else
      var order := TradeOrder(if bot.Resolved? then Some(bot.id) else None, m);
      if order.None? then None
      else
        var after := db.(orders := Orders.Upsert(db.orders, order.value));
        Some(Handled(after, if bot.Resolved? then [Broadcast(User(db.bots[bot.id].owner), m, after)] else []))
  }

  // ---------- engine.balance_update, engine.positions_update ----------

  function BalanceRow(credential: Uuid, a: Amounts): Option<Balance> {
    if a.free.Num? && a.used.Num? && a.total.Num?
    then Some(Balance(a.rowId, credential, a.currency, a.free.value, a.used.value, a.total.value, a.at))
    else None
  }

  /** One row an entry, in order, or None as soon as one entry is bad. */
  function BalanceRows(credential: Uuid, entries: seq<Amounts>): Option<seq<Balance>> {
    if entries == [] then Some([])
    else
      var n := |entries| - 1;
      var before := BalanceRows(credential, entries[..n]);
      var row := BalanceRow(credential, entries[n]);
      if before.Some? && row.Some? then Some(before.value + [row.value]) else None
  }

  function PositionRow(credential: Uuid, p: PositionEntry): Option<Position> {
    if p.symbol.Some? && p.side.Some? && p.entryPrice.Num? && p.size.Num? && p.pnl.Num?
    then Some(Position(credential, p.symbol.value, p.side.value, p.entryPrice.value, p.size.value, p.pnl.value, p.at))
    else None
  }

  function PositionRows(credential: Uuid, entries: seq<PositionEntry>): Option<seq<Position>> {
    if entries == [] then Some([])
    else
      var n := |entries| - 1;
      var before := PositionRows(credential, entries[..n]);
      var row := PositionRow(credential, entries[n]);
      if before.Some? && row.Some? then Some(before.value + [row.value]) else None
  }

  /** The foreign key to `exchange_credentials` is checked when the rows are flushed, before the
      broadcast. */
  function OwnerBroadcast(db: Db, credential: Uuid, inserted: bool, m: EngineMessage): Option<Handled> {
    if credential in db.credentials then
      Some(Handled(db, [Broadcast(User(db.credentials[credential]), m, db)]))
    else if inserted then None
    else Some(Handled(db, []))
  }

  function HandleBalanceUpdate(db: Db, m: EngineMessage): Option<Handled>
    requires m.BalanceUpdate?
  {
    match m.credential
    case NoCredential => Some(Handled(db, []))
    case BadCredential => None
    case CredentialId(c) =>
      if m.balances.None? then None
      else
        var rows := BalanceRows(c, m.balances.value);
        if rows.None? then None
        else OwnerBroadcast(db.(balances := db.balances + rows.value), c, rows.value != [], m)
  }

  function HandlePositionsUpdate(db: Db, m: EngineMessage): Option<Handled>
    requires m.PositionsUpdate?
  {
    match m.credential
    case NoCredential => Some(Handled(db, []))
    case BadCredential => None
    case CredentialId(c) =>
      if m.positions.None? then None
      else
        var rows := PositionRows(c, m.positions.value);
        if rows.None? then None
        else OwnerBroadcast(db.(positions := db.positions + rows.value), c, rows.value != [], m)
  }

  // ---------- engine.strategy_error, engine.log, engine.status ----------

  function HandleStrategyError(db: Db, m: EngineMessage, clock: Clock): Option<Handled>
    requires m.StrategyFailed?
  {
    match Resolve(db.bots, m.bot)
    case Raised => None
    case Unresolved =>
      Some(Handled(db.(errors := db.errors + [StrategyErrorRow(None, m.strategy, m.errorKind, m.text, m.raw)]), []))
    case Resolved(id) =>
      var after := db.(
        errors := db.errors + [StrategyErrorRow(Some(id), m.strategy, m.errorKind, m.text, m.raw)],
        bots := Heartbeat.WithStatus(db.bots, id, Errored, clock.first));
      Some(Handled(after, [Broadcast(User(db.bots[id].owner), m, after)]))
  }

  function HandleLog(db: Db, m: EngineMessage, clock: Clock): Option<Handled>
    requires m.EngineLog?
  {
    var bot := if m.started then Resolve(db.bots, m.bot) else Unresolved;
    match bot
    case Raised => None
    case Unresolved => Some(Handled(db, [Broadcast(Everyone, m, db)]))
    case Resolved(id) =>
      var after := db.(bots := Heartbeat.WithStatus(db.bots, id, Running, clock.first));
      Some(Handled(after, [Broadcast(Everyone, m, after)]))
  }

  /** An element that is not a string raises, which discards the whole heartbeat. */
  predicate Readable(m: EngineMessage)
    requires m.EngineStatus?
  {
    m.active.Some? && forall k | 0 <= k < |m.active.value| :: !m.active.value[k].NotString?
  }

  function HandleStatus(db: Db, m: EngineMessage, clock: Clock): Option<Handled>
    requires m.EngineStatus?
  {
    if !Readable(m) then None
    else Some(Handled(db.(bots := Heartbeat.BeatAll(db.bots, Heartbeat.ActiveIds(m.active.value), clock)), []))
  }

  // ---------- dispatch ----------

  /** None when the handler raises. */
  function Handle(db: Db, m: EngineMessage, clock: Clock): Option<Handled> {
    match m
    case NewTrade(_, _, _, _, _, _, _, _, _) => HandleNewTrade(db, m)
    case BalanceUpdate(_, _) => HandleBalanceUpdate(db, m)
    case PositionsUpdate(_, _) => HandlePositionsUpdate(db, m)
    case StrategyFailed(_, _, _, _, _) => HandleStrategyError(db, m, clock)
    case EngineStatus(_) => HandleStatus(db, m, clock)
    case EngineLog(_, _) => HandleLog(db, m, clock)
    case UnknownChannel => Some(Handled(db, []))
  }

  // ---------- what the row builders compute ----------

  /** A bad amount anywhere in the message is fatal to all of it; otherwise row k is entry k. */
  lemma {:induction false} BalanceRowsMeaning(c: Uuid, entries: seq<Amounts>)
    ensures BalanceRows(c, entries).Some? <==>
            forall k | 0 <= k < |entries| :: entries[k].free.Num? && entries[k].used.Num? && entries[k].total.Num?
    ensures BalanceRows(c, entries).Some? ==>
            var rows := BalanceRows(c, entries).value;
            |rows| == |entries| &&
            forall k | 0 <= k < |entries| ::
              rows[k] == Balance(entries[k].rowId, c, entries[k].currency, entries[k].free.value,
                                 entries[k].used.value, entries[k].total.value, entries[k].at)
  {
    if entries != [] {
      var n := |entries| - 1;
      BalanceRowsMeaning(c, entries[..n]);
      assert forall k | 0 <= k < n :: entries[..n][k] == entries[k];
    }
  }

  lemma {:induction false} PositionRowsMeaning(c: Uuid, entries: seq<PositionEntry>)
    ensures PositionRows(c, entries).Some? <==>
            forall k | 0 <= k < |entries| ::
              entries[k].symbol.Some? && entries[k].side.Some? && entries[k].entryPrice.Num? && entries[k].size.Num?
              && entries[k].pnl.Num?
    ensures PositionRows(c, entries).Some? ==>
            var rows := PositionRows(c, entries).value;
            |rows| == |entries| &&
            forall k | 0 <= k < |entries| ::
              rows[k] == Position(c, entries[k].symbol.value, entries[k].side.value, entries[k].entryPrice.value,
                                  entries[k].size.value, entries[k].pnl.value, entries[k].at)
  {
    if entries != [] {
      var n := |entries| - 1;
      PositionRowsMeaning(c, entries[..n]);
      assert forall k | 0 <= k < n :: entries[..n][k] == entries[k];
    }
  }

  lemma {:induction false} BadPrefixIsFatal(c: Uuid, entries: seq<Amounts>, k: nat)
    requires k <= |entries| && BalanceRows(c, entries[..k]).None?
    ensures BalanceRows(c, entries).None?
    decreases |entries|
  {
    if k < |entries| {
      var n := |entries| - 1;
      assert entries[..n][..k] == entries[..k];
      BadPrefixIsFatal(c, entries[..n], k);
    } else {
      assert entries[..k] == entries;
    }
  }

  lemma {:induction false} BadPositionPrefixIsFatal(c: Uuid, entries: seq<PositionEntry>, k: nat)
    requires k <= |entries| && PositionRows(c, entries[..k]).None?
    ensures PositionRows(c, entries).None?
    decreases |entries|
  {
    if k < |entries| {
      var n := |entries| - 1;
      assert entries[..n][..k] == entries[..k];
      BadPositionPrefixIsFatal(c, entries[..n], k);
    } else {
      assert entries[..k] == entries;
    }
  }

  // ---------- exactly when a message is accepted ----------

  /** A balance message for a credential is accepted iff every amount parses and, if there is a row
      to insert, the credential exists. */
  lemma BalanceMessageAccepted(db: Db, m: EngineMessage, clock: Clock)
    requires m.BalanceUpdate?
    ensures Handle(db, m, clock).Some? <==>
            (m.credential.NoCredential? ||
             (m.credential.CredentialId? && m.balances.Some? &&
              (m.balances.value == [] || m.credential.id in db.credentials) &&
              forall a | a in m.balances.value :: a.free.Num? && a.used.Num? && a.total.Num?))
  {
    if m.credential.CredentialId? && m.balances.Some? {
      BalanceRowsMeaning(m.credential.id, m.balances.value);
    }
  }

  lemma PositionMessageAccepted(db: Db, m: EngineMessage, clock: Clock)
    requires m.PositionsUpdate?
    ensures Handle(db, m, clock).Some? <==>
            (m.credential.NoCredential? ||
             (m.credential.CredentialId? && m.positions.Some? &&
              (m.positions.value == [] || m.credential.id in db.credentials) &&
              forall p | p in m.positions.value ::
                p.symbol.Some? && p.side.Some? && p.entryPrice.Num? && p.size.Num? && p.pnl.Num?))
  {
    if m.credential.CredentialId? && m.positions.Some? {
      PositionRowsMeaning(m.credential.id, m.positions.value);
    }
  }

  /** A trade message is accepted iff its bot id is text or missing, all text fields are there, the size is
      a number and the price is a number, null or missing.  Then the table shows the order under its id
      with the message's size, price and status, for the named bot if that bot exists. */
  lemma TradeMessageAccepted(db: Db, m: EngineMessage, clock: Clock)
    requires m.NewTrade?
    ensures Handle(db, m, clock).Some? <==>
            (!m.bot.NotText? && m.size.Num? && !m.price.NotANumber? && m.orderId.Some? && m.symbol.Some? &&
             m.side.Some? && m.orderType.Some? && m.status.Some?)
    ensures var h := Handle(db, m, clock);
            h.Some? ==> exists o | o in h.value.db.orders ::
              && o.bot == (if m.bot.BotId? && m.bot.id in db.bots then Some(m.bot.id) else None)
              && o.exchangeOrderId == m.orderId.value && o.size == m.size.value && o.status == m.status.value
              && o.price == (if m.price.Num? then Some(m.price.value) else None)
              && (o.bot.None? ==> o.symbol == m.symbol.value && o.side == m.side.value && o.kind == m.orderType.value)
  {
    var h := Handle(db, m, clock);
    if h.Some? {
      var bot := if m.bot.BotId? && m.bot.id in db.bots then Some(m.bot.id) else None;
      var order := TradeOrder(bot, m).value;
      assert h.value.db.orders == Orders.Upsert(db.orders, order);
      assert h.value.db.orders[Orders.Conflict(db.orders, order)] in h.value.db.orders;
    }
  }

  /** Heartbeats, logs and errors: a heartbeat is accepted iff its list can be read and holds strings only, a
      log iff it does not announce a start with a bot id that is no text, an error iff its bot id is text or
      missing, and messages of unknown channels always. */
  lemma OtherMessagesAccepted(db: Db, m: EngineMessage, clock: Clock)
    ensures m.EngineStatus? ==>
              (Handle(db, m, clock).Some? <==> m.active.Some? && forall r | r in m.active.value :: !r.NotString?)
    ensures m.EngineLog? ==> (Handle(db, m, clock).Some? <==> !(m.started && m.bot.NotText?))
    ensures m.StrategyFailed? ==> (Handle(db, m, clock).Some? <==> !m.bot.NotText?)
    ensures m.UnknownChannel? ==> Handle(db, m, clock) == Some(Handled(db, []))
  {
  }

  /** Whom a message is for: everyone for a log, the owner of the existing bot or credential that it names, and
      otherwise nobody. */
  function Addressee(db: Db, m: EngineMessage): Option<Recipient> {
    match m
    case EngineLog(_, _) => Some(Everyone)
    case NewTrade(bot, _, _, _, _, _, _, _, _) =>
      if bot.BotId? && bot.id in db.bots then Some(User(db.bots[bot.id].owner)) else None
    case StrategyFailed(bot, _, _, _, _) =>
      if bot.BotId? && bot.id in db.bots then Some(User(db.bots[bot.id].owner)) else None
    case BalanceUpdate(c, _) =>
      if c.CredentialId? && c.id in db.credentials then Some(User(db.credentials[c.id])) else None
    case PositionsUpdate(c, _) =>
      if c.CredentialId? && c.id in db.credentials then Some(User(db.credentials[c.id])) else None
    case EngineStatus(_) => None
    case UnknownChannel => None
  }

  /** An accepted message is broadcast exactly once to its addressee, if it has one, as it came and with every
      row of it already staged. */
  lemma BroadcastFollowsStaging(db: Db, m: EngineMessage, clock: Clock)
    ensures var h := Handle(db, m, clock);
            h.Some? ==>
              h.value.broadcasts ==
              if Addressee(db, m).Some? then [Broadcast(Addressee(db, m).value, m, h.value.db)] else []
  {
  }
}
