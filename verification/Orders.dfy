/** The `orders` table: INSERT ... ON CONFLICT (exchange_order_id, bot_id) DO UPDATE
    (`order_repo.py`), where the unique constraint treats a NULL `bot_id` as distinct from every
    other value, and the foreign key sets `bot_id` to NULL when the bot is deleted. */
module Orders {
  import opened Prelude
  import opened Domain

  /** The two rows collide on the unique constraint. */
  predicate SameKey(a: Order, b: Order) {
    a.bot.Some? && a.bot == b.bot && a.exchangeOrderId == b.exchangeOrderId
  }

  /** The row an insert of `o` conflicts with, or the length of the table. */
  function Conflict(t: seq<Order>, o: Order): (k: nat)
    ensures k <= |t|
    ensures k < |t| ==> SameKey(t[k], o)
    ensures forall i | 0 <= i < k :: !SameKey(t[i], o)
  {
    if t == [] || SameKey(t[0], o) then 0 else 1 + Conflict(t[1..], o)
  }

  /** DO UPDATE SET status, size, price. */
  function Merge(old_: Order, o: Order): Order {
    old_.(status := o.status, size := o.size, price := o.price)
  }

  function Upsert(t: seq<Order>, o: Order): seq<Order> {
    var k := Conflict(t, o);
    if k < |t| then t[k := Merge(t[k], o)] else t + [o]
  }

  /** ON DELETE SET NULL. */
  function ForgetBot(t: seq<Order>, bot: Uuid): seq<Order> {
    seq(|t|, i requires 0 <= i < |t| => if t[i].bot == Some(bot) then t[i].(bot := None) else t[i])
  }

  ghost predicate UniqueKeys(t: seq<Order>) {
    forall i, j | 0 <= i < j < |t| :: !SameKey(t[i], t[j])
  }

  lemma UpsertKeepsKeysUnique(t: seq<Order>, o: Order)
    requires UniqueKeys(t)
    ensures UniqueKeys(Upsert(t, o))
  {
  }

  lemma ForgetKeepsKeysUnique(t: seq<Order>, bot: Uuid)
    requires UniqueKeys(t)
    ensures UniqueKeys(ForgetBot(t, bot))
  {
  }

  /** The row a list of events for one key must have produced: symbol, side, type and strategy of the
      first event, size, price and status of the last. */
  function FirstWithLast(events: seq<Order>): Order
    requires events != []
  {
    var first, last := events[0], events[|events| - 1];
    Order(first.bot, first.exchangeOrderId, first.symbol, first.side, first.kind,
          last.size, last.price, last.status, first.strategy)
  }

  /** The table shows exactly the given events for the key (bot, id): no row when there were none,
      otherwise one row, the first event's with the last event's state. */
  ghost predicate Shows(t: seq<Order>, bot: Uuid, id: string, events: seq<Order>) {
    && (forall e | e in events :: e.bot == Some(bot) && e.exchangeOrderId == id)
    && (events == [] ==> forall i | 0 <= i < |t| :: t[i].bot == Some(bot) ==> t[i].exchangeOrderId != id)
    && (events != [] ==> FirstWithLast(events) in t)
  }

  lemma UpsertShows(t: seq<Order>, o: Order, bot: Uuid, id: string, events: seq<Order>)
    requires UniqueKeys(t) && Shows(t, bot, id, events)
    ensures Shows(Upsert(t, o), bot, id,
                  if o.bot == Some(bot) && o.exchangeOrderId == id then events + [o] else events)
  {
    var r, k := Upsert(t, o), Conflict(t, o);
    if o.bot == Some(bot) && o.exchangeOrderId == id {
      if events == [] {
        assert k == |t|;
        assert r[|t|] == FirstWithLast([o]);
        assert events + [o] == [o];
      } else {
        var i :| 0 <= i < |t| && t[i] == FirstWithLast(events);
        assert SameKey(t[i], o);
        assert k == i;
        assert r[k] == FirstWithLast(events + [o]);
      }
    } else if events != [] {
      var i :| 0 <= i < |t| && t[i] == FirstWithLast(events);
      assert i != k;
      assert r[i] == t[i];
    }
  }

  /** An upsert adds a row exactly when its bot is unknown or the table shows nothing for its key. */
  lemma UpsertGrows(t: seq<Order>, o: Order, events: seq<Order>)
    requires o.bot.Some? ==> Shows(t, o.bot.value, o.exchangeOrderId, events)
    ensures |Upsert(t, o)| == |t| + if o.bot.None? || events == [] then 1 else 0
  {
  }

  lemma ForgetShows(t: seq<Order>, gone: Uuid, bot: Uuid, id: string, events: seq<Order>)
    requires Shows(t, bot, id, events)
    ensures Shows(ForgetBot(t, gone), bot, id, if bot == gone then [] else events)
  {
    var r := ForgetBot(t, gone);
    if bot != gone && events != [] {
      var i :| 0 <= i < |t| && t[i] == FirstWithLast(events);
      assert r[i] == t[i];
    }
  }

  /** Delivering the same event twice in a row is harmless exactly when its bot is known: otherwise the
      unique constraint does not apply and a second row appears. */
  lemma RedeliveryIsNoOpIffBotKnown(t: seq<Order>, o: Order)
    ensures Upsert(Upsert(t, o), o) == Upsert(t, o) <==> o.bot.Some?
  {
    var once := Upsert(t, o);
    var k := Conflict(t, o);
    if o.bot.Some? {
      assert SameKey(once[k], o);
      forall i | 0 <= i < k ensures !SameKey(once[i], o) {
        assert once[i] == t[i];
      }
      assert Conflict(once, o) == k;
      assert once[k] == if k < |t| then Merge(t[k], o) else o;
    } else {
      assert Conflict(once, o) == |once|;
      assert |Upsert(once, o)| == |once| + 1;
    }
  }

  /** Deleting a bot conserves the rows: same number, and each row keeps everything but the bot. */
  lemma ForgettingConservesRows(t: seq<Order>, bot: Uuid)
    ensures |ForgetBot(t, bot)| == |t|
    ensures forall i | 0 <= i < |t| ::
      && ForgetBot(t, bot)[i].(bot := t[i].bot) == t[i]
      && ForgetBot(t, bot)[i].bot == (if t[i].bot == Some(bot) then None else t[i].bot)
  {
  }
}
