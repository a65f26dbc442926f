/** What the orders table shows after a whole run: one row for each order of a living bot, made of its
    first and its last event, and rows without a bot that are never touched again. */
module OrderHistory {
  import opened Prelude
  import opened Domain
  import opened System
  import BotCommands
  import Orders
  import Projector

  /** The order a step writes, if it is a trade message whose transaction commits. */
  function Written(w: World, s: Step): Option<Order> {
    if s.Message? && s.message.NewTrade? && s.outcome.Committed? then
      var bot := Projector.Resolve(w.db.bots, s.message.bot);
      if bot.Raised? then None
      else Projector.TradeOrder(if bot.Resolved? then Some(bot.id) else None, s.message)
    else None
  }

  /** What a step writes, on the fields of the message: a committed trade message with all its fields writes
      them as they are, for the bot it names if that bot exists; no other step writes. */
  lemma WrittenIsTheMessage(w: World, s: Step)
    ensures Written(w, s).Some? <==>
            && s.Message? && s.message.NewTrade? && s.outcome.Committed?
            && !s.message.bot.NotText? && s.message.size.Num? && !s.message.price.NotANumber?
            && s.message.orderId.Some? && s.message.symbol.Some? && s.message.side.Some?
            && s.message.orderType.Some? && s.message.status.Some?
    ensures Written(w, s).Some? ==>
            var m, o := s.message, Written(w, s).value;
            && o.bot == (if m.bot.BotId? && m.bot.id in w.db.bots then Some(m.bot.id) else None)
            && o.exchangeOrderId == m.orderId.value && o.symbol == m.symbol.value && o.side == m.side.value
            && o.kind == m.orderType.value && o.size == m.size.value && o.status == m.status.value
            && o.price == (if m.price.Num? then Some(m.price.value) else None)
            && o.strategy == (if m.strategy.Some? then m.strategy.value else "")
  {
  }

  /** The bot a step deletes. */
  function Deleted(w: World, s: Step): Option<Uuid> {
    if s.Request? && s.request.Delete? && s.outcome.Committed? && BotCommands.Serve(w.db, s.request, s.at).reply.Done?
    then Some(s.request.bot) else None
  }

  /** The events written for one order of one bot since the bot was last deleted. */
  function Events(w: World, steps: seq<Step>, bot: Uuid, id: string): seq<Order> {
    if steps == [] then []
    else
      var n := |steps| - 1;
      var before := Run(w, steps[..n]);
      var written := Written(before, steps[n]);
      if Deleted(before, steps[n]) == Some(bot) then []
      else if written.Some? && written.value.bot == Some(bot) && written.value.exchangeOrderId == id
      then Events(w, steps[..n], bot, id) + [written.value]
      else Events(w, steps[..n], bot, id)
  }

  /** The orders table moves only by upserts and by forgetting a deleted bot. */
  lemma OrdersStep(w: World, s: Step)
    ensures Apply(w, s).db.orders ==
            if Written(w, s).Some? then Orders.Upsert(w.db.orders, Written(w, s).value)
            else if Deleted(w, s).Some? then Orders.ForgetBot(w.db.orders, Deleted(w, s).value)
            else w.db.orders
  {
  }

  lemma {:induction false} KeysStayUnique(credentials: map<Uuid, Uuid>, steps: seq<Step>)
    ensures Orders.UniqueKeys(Run(Fresh(credentials), steps).db.orders)
  {
    if steps != [] {
      var n := |steps| - 1;
      var before := Run(Fresh(credentials), steps[..n]);
      KeysStayUnique(credentials, steps[..n]);
      OrdersStep(before, steps[n]);
      if Written(before, steps[n]).Some? {
        Orders.UpsertKeepsKeysUnique(before.db.orders, Written(before, steps[n]).value);
      } else if Deleted(before, steps[n]).Some? {
        Orders.ForgetKeepsKeysUnique(before.db.orders, Deleted(before, steps[n]).value);
      }
    }
  }

  /** In every run, each (bot, exchange order id) has at most one row; it has one exactly when events were
      written for it, with the symbol, side, type and strategy of the first and the size, price and status
      of the last. */
  lemma {:induction false} TableShowsEvents(credentials: map<Uuid, Uuid>, steps: seq<Step>, bot: Uuid, id: string)
    ensures var w := Fresh(credentials); var orders := Run(w, steps).db.orders;
            Orders.UniqueKeys(orders) && Orders.Shows(orders, bot, id, Events(w, steps, bot, id))
    ensures var w := Fresh(credentials); var orders := Run(w, steps).db.orders; var events := Events(w, steps, bot, id);
            events != [] ==>
              var first, last := events[0], events[|events| - 1];
              exists o | o in orders ::
                && o.bot == Some(bot) && o.exchangeOrderId == id
                && o.symbol == first.symbol && o.side == first.side && o.kind == first.kind
                && o.strategy == first.strategy
                && o.size == last.size && o.price == last.price && o.status == last.status
  {
    var w := Fresh(credentials);
    KeysStayUnique(credentials, steps);
    if steps != [] {
      var n := |steps| - 1;
      var before := Run(w, steps[..n]);
      var events := Events(w, steps[..n], bot, id);
      TableShowsEvents(credentials, steps[..n], bot, id);
      OrdersStep(before, steps[n]);
      if Written(before, steps[n]).Some? {
        Orders.UpsertShows(before.db.orders, Written(before, steps[n]).value, bot, id, events);
      } else if Deleted(before, steps[n]).Some? {
        Orders.ForgetShows(before.db.orders, Deleted(before, steps[n]).value, bot, id, events);
      }
    }
  }

  // ---------- how many rows there are ----------

  /** A write inserts a row: its bot is unknown, or it is the first event for its key. */
  predicate Inserts(w: World, steps: seq<Step>, o: Order) {
    o.bot.None? || Events(w, steps, o.bot.value, o.exchangeOrderId) == []
  }

  /** The number of inserting writes of a run. */
  function InsertCount(w: World, steps: seq<Step>): nat {
    if steps == [] then 0
    else
      var n := |steps| - 1;
      var written := Written(Run(w, steps[..n]), steps[n]);
      InsertCount(w, steps[..n]) + if written.Some? && Inserts(w, steps[..n], written.value) then 1 else 0
  }

  lemma InsertOrUpdate(credentials: map<Uuid, Uuid>, steps: seq<Step>, o: Order)
    ensures var w := Fresh(credentials); var orders := Run(w, steps).db.orders;
            |Orders.Upsert(orders, o)| == |orders| + if Inserts(w, steps, o) then 1 else 0
  {
    var w := Fresh(credentials);
    if o.bot.Some? {
      TableShowsEvents(credentials, steps, o.bot.value, o.exchangeOrderId);
      Orders.UpsertGrows(Run(w, steps).db.orders, o, Events(w, steps, o.bot.value, o.exchangeOrderId));
    } else {
      Orders.UpsertGrows(Run(w, steps).db.orders, o, []);
    }
  }

  /** Conservation: the table holds one row for every inserting write of the run.  Updates and bot
      deletions neither create nor lose rows. */
  lemma {:induction false} RowsAreInsertions(credentials: map<Uuid, Uuid>, steps: seq<Step>)
    ensures |Run(Fresh(credentials), steps).db.orders| == InsertCount(Fresh(credentials), steps)
  {
    var w := Fresh(credentials);
    if steps != [] {
      var n := |steps| - 1;
      var before := Run(w, steps[..n]);
      RowsAreInsertions(credentials, steps[..n]);
      OrdersStep(before, steps[n]);
      var written := Written(before, steps[n]);
      if written.Some? {
        InsertOrUpdate(credentials, steps[..n], written.value);
      }
    }
  }

  /** A row without a bot is never touched again. */
  lemma {:induction false} RowsWithoutBotAreFrozen(w: World, steps: seq<Step>, i: nat)
    requires i < |w.db.orders| && w.db.orders[i].bot.None?
    ensures i < |Run(w, steps).db.orders| && Run(w, steps).db.orders[i] == w.db.orders[i]
  {
    if steps != [] {
      var n := |steps| - 1;
      RowsWithoutBotAreFrozen(w, steps[..n], i);
      OrdersStep(Run(w, steps[..n]), steps[n]);
    }
  }
}
