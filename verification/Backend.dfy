/** The running backend in the form of the source: a session with staged and committed state, a
    command publisher, the bot service, the event projector and the message loop's transaction.
    Every method is tied to the functions of `BotCommands`, `Projector` and `System`. */
module Backend {
  import opened Prelude
  import opened Domain
  import opened BotCommands
  import Heartbeat
  import Orders
  import Projector
  import System

  /** One row of a status listing. */
  datatype Listed = Listed(id: Uuid, bot: Bot)

  class Session {
    var committed: Db
    var staged: Db

    constructor (db: Db)
      ensures committed == db && staged == db
    {
      committed, staged := db, db;
    }

    method Commit()
      modifies this`committed
      ensures committed == staged
    {
      committed := staged;
    }

    method Rollback()
      modifies this`staged
      ensures staged == committed
    {
      staged := committed;
    }

    method UpdateStatusById(id: Uuid, status: Status, now: int)
      modifies this`staged
      ensures staged == old(staged).(bots := Heartbeat.WithStatus(old(staged).bots, id, status, now))
    {
      if id in staged.bots {
        staged := staged.(bots := staged.bots[id := Heartbeat.Stamped(staged.bots[id], status, now)]);
      }
    }

    /** SELECT without ORDER BY: every matching row exactly once, in any order. */
    method ListByStatuses(statuses: set<Status>) returns (list: seq<Listed>)
      ensures forall k | 0 <= k < |list| ::
        list[k].id in staged.bots && list[k].bot == staged.bots[list[k].id] && list[k].bot.status in statuses
      ensures forall id | id in staged.bots && staged.bots[id].status in statuses :: Listed(id, staged.bots[id]) in list
      ensures forall j, k | 0 <= j < k < |list| :: list[j].id != list[k].id
    {
      list := [];
      var rest := staged.bots.Keys;
      while rest != {}
        invariant rest <= staged.bots.Keys
        invariant forall k | 0 <= k < |list| ::
          list[k].id in staged.bots && list[k].bot == staged.bots[list[k].id] && list[k].bot.status in statuses
        invariant forall k | 0 <= k < |list| :: list[k].id !in rest
        invariant forall id | id in staged.bots && id !in rest && staged.bots[id].status in statuses ::
          Listed(id, staged.bots[id]) in list
        invariant forall j, k | 0 <= j < k < |list| :: list[j].id != list[k].id
        decreases rest
      {
        var id :| id in rest;
        rest := rest - {id};
        if staged.bots[id].status in statuses {
          list := list + [Listed(id, staged.bots[id])];
        }
      }
    }

    method UpsertOrder(o: Order)
      modifies this`staged
      ensures staged == old(staged).(orders := Orders.Upsert(old(staged).orders, o))
    {
      var k := Orders.Conflict(staged.orders, o);
      if k < |staged.orders| {
        var row := staged.orders[k];
        staged := staged.(orders := staged.orders[k := row.(status := o.status, size := o.size, price := o.price)]);
      } else {
        staged := staged.(orders := staged.orders + [o]);
      }
    }
  }

  /** Redis as the command publisher sees it. */
  class Publisher {
    var published: seq<Published>

    constructor ()
      ensures published == []
    {
      published := [];
    }

    /** `up` is false when the publish call raises. */
    method Publish(m: Published, up: bool)
      modifies this
      ensures published == if up then old(published) + [m] else old(published)
    {
      if up {
        published := published + [m];
      }
    }
  }

  /** The broadcasts handed to the WebSocket registry. */
  class Hub {
    var sent: seq<Broadcast>

    constructor ()
      ensures sent == []
    {
      sent := [];
    }

    method Send(recipient: Recipient, message: EngineMessage, staged: Db)
      modifies this
      ensures sent == old(sent) + [Broadcast(recipient, message, staged)]
    {
      sent := sent + [Broadcast(recipient, message, staged)];
    }
  }

  // ---------- commands ----------

  class BotService {
    const session: Session
    const publisher: Publisher

    constructor (session: Session, publisher: Publisher)
      ensures this.session == session && this.publisher == publisher
    {
      this.session := session;
      this.publisher := publisher;
    }

    /** Flush the command row, publish it: both happened iff the reply is Done. */
    method RecordAndPublish(c: Command, up: bool) returns (done: bool)
      modifies session`staged, publisher
      ensures done == (c.commandId !in CommandIds(old(session.staged).commands) && up)
      ensures done ==> session.staged == old(session.staged).(commands := old(session.staged).commands + [c])
      ensures publisher.published == old(publisher.published) + if done then [OnWire(c)] else []
    {
      if c.commandId in CommandIds(session.staged.commands) {
        return false;
      }
      session.staged := session.staged.(commands := session.staged.commands + [c]);
      publisher.Publish(OnWire(c), up);
      done := up;
    }

    method Start(r: Request, now: int, up: bool) returns (done: bool)
      requires r.Start?
      modifies session`staged, publisher
      ensures var s := Serve(old(session.staged), r, now);
        && done == (s.reply.Done? && up)
        && (done ==> session.staged == s.db && publisher.published == old(publisher.published) + [s.published.value])
        && (!done ==> publisher.published == old(publisher.published))
    {
      if Owned(session.staged, r.user, r.bot) != Done {
        return false;
      }
      var bot := session.staged.bots[r.bot];
      if bot.status == Running || bot.status == Starting {
        return false;
      }
      done := RecordAndPublish(
        Command(r.commandId, r.bot,
                StartBody(bot.strategy, bot.symbol, bot.timeframe, bot.params, bot.credential)), up);
      if done {
        session.staged := session.staged.(
          bots := session.staged.bots[r.bot := Heartbeat.FlushStatus(bot, Starting, now)]);
      }
    }

    method Stop(r: Request, now: int, up: bool) returns (done: bool)
      requires r.Stop?
      modifies session`staged, publisher
      ensures var s := Serve(old(session.staged), r, now);
        && done == (s.reply.Done? && up)
        && (done ==> session.staged == s.db && publisher.published == old(publisher.published) + [s.published.value])
        && (!done ==> publisher.published == old(publisher.published))
    {
      if Owned(session.staged, r.user, r.bot) != Done {
        return false;
      }
      var bot := session.staged.bots[r.bot];
      if bot.status == Stopped || bot.status == Draft {
        return false;
      }
      done := RecordAndPublish(Command(r.commandId, r.bot, StopBody(r.closePositions)), up);
      if done {
        session.staged := session.staged.(
          bots := session.staged.bots[r.bot := Heartbeat.FlushStatus(bot, Stopping, now)]);
      }
    }

    method UpdateParams(r: Request, now: int, up: bool) returns (done: bool)
      requires r.UpdateParams?
      modifies session`staged, publisher
      ensures var s := Serve(old(session.staged), r, now);
        && done == (s.reply.Done? && up)
        && (done ==> session.staged == s.db && publisher.published == old(publisher.published) + [s.published.value])
        && (!done ==> publisher.published == old(publisher.published))
    {
      if Owned(session.staged, r.user, r.bot) != Done {
        return false;
      }
      var bot := session.staged.bots[r.bot];
      done := RecordAndPublish(Command(r.commandId, r.bot, UpdateBody(r.params)), up);
      if done {
        session.staged := session.staged.(
          bots := session.staged.bots[r.bot := Heartbeat.FlushParams(bot, r.params, now)]);
      }
    }

    /** `up` is whether the database accepts the statement. */
    method Create(r: Request, now: int, up: bool) returns (done: bool)
      requires r.Create?
      modifies session`staged
      ensures var s := Serve(old(session.staged), r, now);
        done == (s.reply.Done? && up) && (done ==> session.staged == s.db)
    {
      var credentials := session.staged.credentials;
      if r.credential !in credentials || credentials[r.credential] != r.user {
        return false;
      }
      if r.bot in session.staged.bots || !up {
        return false;
      }
      var bot := Bot(r.user, r.credential, r.strategy, r.symbol, r.timeframe, r.params, Draft, now);
      session.staged := session.staged.(bots := session.staged.bots[r.bot := bot]);
      done := true;
    }

    method Delete(r: Request, now: int, up: bool) returns (done: bool)
      requires r.Delete?
      modifies session`staged
      ensures var s := Serve(old(session.staged), r, now);
        done == (s.reply.Done? && up) && (done ==> session.staged == s.db)
    {
      if Owned(session.staged, r.user, r.bot) != Done || !up {
        return false;
      }
      session.staged := DeleteCascade(session.staged, r.bot);
      done := true;
    }

    /** One HTTP request: the handler, then commit, or rollback when it raised or the commit fails. */
    method ServeRequest(r: Request, now: int, outcome: System.Outcome)
      requires session.staged == session.committed
      modifies session, publisher
      ensures session.staged == session.committed
      ensures System.World(session.committed, publisher.published, [])
           == System.Apply(System.World(old(session.committed), old(publisher.published), []),
                           System.Request(r, now, outcome))
    {
      var up := !outcome.Refused?;
      var done;
      match r {
        case Create(_, _, _, _, _, _, _) => done := Create(r, now, up);
        case Start(_, _, _) => done := Start(r, now, up);
        case Stop(_, _, _, _) => done := Stop(r, now, up);
        case UpdateParams(_, _, _, _) => done := UpdateParams(r, now, up);
        case Delete(_, _) => done := Delete(r, now, up);
      }
      if done && outcome.Committed? {
        session.Commit();
      } else {
        session.Rollback();
      }
    }
  }

  // ---------- engine messages ----------

  /** The table with exactly the given rows stamped. */
  ghost function Rewritten(t: BotTable, written: set<Uuid>, status: Status, now: int): BotTable {
    map id | id in t :: if id in written then Heartbeat.Stamped(t[id], status, now) else t[id]
  }

  class EventProjector {
    const session: Session
    const hub: Hub

    constructor (session: Session, hub: Hub)
      ensures this.session == session && this.hub == hub
    {
      this.session := session;
      this.hub := hub;
    }

    /** What each handler promises: it raises exactly when the specification has no result; otherwise
        it leaves the staged database and sends the broadcasts of the specification. */
    twostate predicate Does(spec: Option<Projector.Handled>, raised: bool)
      reads session, hub
    {
      && raised == spec.None?
      && (raised ==> hub.sent == old(hub.sent))
      && (!raised ==> session.staged == spec.value.db && hub.sent == old(hub.sent) + spec.value.broadcasts)
    }

    method HandleNewTrade(m: EngineMessage) returns (raised: bool)
      requires m.NewTrade?
      modifies session`staged, hub
      ensures Does(Projector.HandleNewTrade(old(session.staged), m), raised)
    {
      var bot := Projector.Resolve(session.staged.bots, m.bot);
      if bot.Raised? {
        return true;
      }
      var order := Projector.TradeOrder(if bot.Resolved? then Some(bot.id) else None, m);
      if order.None? {
        return true;
      }
      session.UpsertOrder(order.value);
      if bot.Resolved? {
        hub.Send(User(session.staged.bots[bot.id].owner), m, session.staged);
      }
      raised := false;
    }

    /** The insert loop of a balance update. */
    method InsertBalances(credential: Uuid, entries: seq<Amounts>) returns (raised: bool)
      modifies session`staged
      ensures var rows := Projector.BalanceRows(credential, entries);
        && raised == rows.None?
        && (!raised ==> session.staged == old(session.staged).(balances := old(session.staged.balances) + rows.value))
    {
      ghost var before := session.staged;
      ghost var rows: seq<Balance> := [];
      assert entries[..0] == [];
      for k := 0 to |entries|
        invariant Projector.BalanceRows(credential, entries[..k]) == Some(rows)
        invariant |rows| == k
        invariant session.staged == before.(balances := before.balances + rows)
      {
        assert entries[..k + 1][..k] == entries[..k];
        var e := entries[k];
        var free, used, total :=
          Projector.ToDecimal(e.free), Projector.ToDecimal(e.used), Projector.ToDecimal(e.total);
        if free.None? || used.None? || total.None? {
          Projector.BadPrefixIsFatal(credential, entries, k + 1);
          return true;
        }
        var row := Balance(e.rowId, credential, e.currency, free.value, used.value, total.value, e.at);
        session.staged := session.staged.(balances := session.staged.balances + [row]);
        rows := rows + [row];
        assert before.balances + rows == before.balances + rows[..k] + [row];
      }
      assert entries[..|entries|] == entries;
      raised := false;
    }

    method HandleBalanceUpdate(m: EngineMessage) returns (raised: bool)
      requires m.BalanceUpdate?
      modifies session`staged, hub
      ensures Does(Projector.HandleBalanceUpdate(old(session.staged), m), raised)
    {
      if m.credential.NoCredential? {
        return false;
      }
      if m.credential.BadCredential? || m.balances.None? {
        return true;
      }
      var credential, entries := m.credential.id, m.balances.value;
      raised := InsertBalances(credential, entries);
      if raised {
        return;
      }
      if credential in session.staged.credentials {
        hub.Send(User(session.staged.credentials[credential]), m, session.staged);
      } else if entries != [] {
        return true;
      }
    }

    /** The insert loop of a positions update. */
    method InsertPositions(credential: Uuid, entries: seq<PositionEntry>) returns (raised: bool)
      modifies session`staged
      ensures var rows := Projector.PositionRows(credential, entries);
        && raised == rows.None?
        && (!raised ==> session.staged == old(session.staged).(positions := old(session.staged.positions) + rows.value))
    {
      ghost var before := session.staged;
      ghost var rows: seq<Position> := [];
      assert entries[..0] == [];
      for k := 0 to |entries|
        invariant Projector.PositionRows(credential, entries[..k]) == Some(rows)
        invariant |rows| == k
        invariant session.staged == before.(positions := before.positions + rows)
      {
        assert entries[..k + 1][..k] == entries[..k];
        var row := Projector.PositionRow(credential, entries[k]);
        if row.None? {
          Projector.BadPositionPrefixIsFatal(credential, entries, k + 1);
          return true;
        }
        session.staged := session.staged.(positions := session.staged.positions + [row.value]);
        rows := rows + [row.value];
        assert before.positions + rows == before.positions + rows[..k] + [row.value];
      }
      assert entries[..|entries|] == entries;
      raised := false;
    }

    method HandlePositionsUpdate(m: EngineMessage) returns (raised: bool)
      requires m.PositionsUpdate?
      modifies session`staged, hub
      ensures Does(Projector.HandlePositionsUpdate(old(session.staged), m), raised)
    {
      if m.credential.NoCredential? {
        return false;
      }
      if m.credential.BadCredential? || m.positions.None? {
        return true;
      }
      var credential, entries := m.credential.id, m.positions.value;
      raised := InsertPositions(credential, entries);
      if raised {
        return;
      }
      if credential in session.staged.credentials {
        hub.Send(User(session.staged.credentials[credential]), m, session.staged);
      } else if entries != [] {
        return true;
      }
    }

    method HandleStrategyError(m: EngineMessage, clock: Clock) returns (raised: bool)
      requires m.StrategyFailed?
      modifies session`staged, hub
      ensures Does(Projector.HandleStrategyError(old(session.staged), m, clock), raised)
    {
      var bot := Projector.Resolve(session.staged.bots, m.bot);
      if bot.Raised? {
        return true;
      }
      var row := StrategyErrorRow(if bot.Resolved? then Some(bot.id) else None, m.strategy, m.errorKind, m.text, m.raw);
      session.staged := session.staged.(errors := session.staged.errors + [row]);
      if bot.Resolved? {
        session.UpdateStatusById(bot.id, Errored, clock.first);
        hub.Send(User(session.staged.bots[bot.id].owner), m, session.staged);
      }
      raised := false;
    }

    method BroadcastLog(m: EngineMessage, clock: Clock) returns (raised: bool)
      requires m.EngineLog?
      modifies session`staged, hub
      ensures Does(Projector.HandleLog(old(session.staged), m, clock), raised)
    {
      if m.started {
        var bot := Projector.Resolve(session.staged.bots, m.bot);
        if bot.Raised? {
          return true;
        }
        if bot.Resolved? {
          session.UpdateStatusById(bot.id, Running, clock.first);
        }
      }
      hub.Send(Everyone, m, session.staged);
      raised := false;
    }

    /** The ids of an `active_bots` list, or a raised exception at the first element that is no string. */
    method CollectActive(refs: seq<ActiveRef>) returns (raised: bool, active: set<Uuid>)
      ensures raised <==> exists k | 0 <= k < |refs| :: refs[k].NotString?
      ensures !raised ==> active == Heartbeat.ActiveIds(refs)
    {
      active := {};
      for k := 0 to |refs|
        invariant forall j | 0 <= j < k :: !refs[j].NotString?
        invariant active == Heartbeat.ActiveIds(refs[..k])
      {
        if refs[k].NotString? {
          return true, {};
        }
        ghost var before := refs[..k];
        assert refs[..k + 1] == before + [refs[k]];
        assert forall j | 0 <= j < k :: refs[..k + 1][j] == before[j];
        if refs[k].ActiveId? {
          active := active + {refs[k].id};
          assert refs[..k + 1][k].id in Heartbeat.ActiveIds(refs[..k + 1]);
        }
        assert forall id | id in Heartbeat.ActiveIds(before) :: id in Heartbeat.ActiveIds(refs[..k + 1]) by {
          forall id | id in Heartbeat.ActiveIds(before) ensures id in Heartbeat.ActiveIds(refs[..k + 1]) {
            var j :| 0 <= j < k && before[j].ActiveId? && before[j].id == id;
            assert refs[..k + 1][j].ActiveId?;
          }
        }
      }
      assert refs[..|refs|] == refs;
      raised := false;
    }

    /** First pass: STARTING bots the engine reports become RUNNING. */
    method Promote(active: set<Uuid>, now: int)
      modifies session`staged
      ensures session.staged
           == old(session.staged).(bots := Heartbeat.PromotePass(old(session.staged).bots, active, now))
    {
      ghost var before := session.staged;
      ghost var written: set<Uuid> := {};
      if active != {} {
        var list := session.ListByStatuses({Starting});
        for k := 0 to |list|
          invariant session.staged == before.(bots := Rewritten(before.bots, written, Running, now))
          invariant forall id | id in written :: id in before.bots && Heartbeat.Promotes(before.bots[id], id in active)
          invariant forall j | 0 <= j < k :: list[j].id in active ==> list[j].id in written
        {
          if list[k].id in active {
            session.UpdateStatusById(list[k].id, Running, now);
            written := written + {list[k].id};
          }
        }
      }
      assert session.staged.bots == Heartbeat.PromotePass(before.bots, active, now);
    }

    /** Second pass: RUNNING or STOPPING bots the engine does not report become STOPPED. */
    method Reap(active: set<Uuid>, now: int)
      modifies session`staged
      ensures session.staged
           == old(session.staged).(bots := Heartbeat.ReapPass(old(session.staged).bots, active, now))
    {
      ghost var before := session.staged;
      ghost var written: set<Uuid> := {};
      var list := session.ListByStatuses({Running, Stopping});
      for k := 0 to |list|
        invariant session.staged == before.(bots := Rewritten(before.bots, written, Stopped, now))
        invariant forall id | id in written :: id in before.bots && Heartbeat.Reaps(before.bots[id], id in active)
        invariant forall j | 0 <= j < k :: list[j].id !in active ==> list[j].id in written
      {
        if list[k].id !in active {
          session.UpdateStatusById(list[k].id, Stopped, now);
          written := written + {list[k].id};
        }
      }
      assert session.staged.bots == Heartbeat.ReapPass(before.bots, active, now);
    }

    /** Third pass: STARTING bots the engine does not report, not updated for over two minutes, become
        ERROR. */
    method Expire(active: set<Uuid>, now: int)
      modifies session`staged
      ensures session.staged
           == old(session.staged).(bots := Heartbeat.ExpirePass(old(session.staged).bots, active, now))
    {
      ghost var before := session.staged;
      ghost var written: set<Uuid> := {};
      var cutoff := now - Heartbeat.STARTUP_TIMEOUT;
      var list := session.ListByStatuses({Starting});
      for k := 0 to |list|
        invariant session.staged == before.(bots := Rewritten(before.bots, written, Errored, now))
        invariant forall id | id in written ::
          id in before.bots && Heartbeat.Expires(before.bots[id], id in active, now)
        invariant forall j | 0 <= j < k ::
          list[j].id !in active && list[j].bot.updatedAt < cutoff ==> list[j].id in written
      {
        if list[k].id !in active {
          if list[k].bot.updatedAt < cutoff {
            session.UpdateStatusById(list[k].id, Errored, now);
            written := written + {list[k].id};
          }
        }
      }
      assert session.staged.bots == Heartbeat.ExpirePass(before.bots, active, now);
    }

    method BroadcastStatus(m: EngineMessage, clock: Clock) returns (raised: bool)
      requires m.EngineStatus?
      modifies session`staged
      ensures Does(Projector.HandleStatus(old(session.staged), m, clock), raised)
    {
      if m.active.None? {
        return true;
      }
      var active;
      raised, active := CollectActive(m.active.value);
      if raised {
        return;
      }
      ghost var before := session.staged;
      Promote(active, clock.first);
      Reap(active, clock.second);
      Expire(active, clock.third);
      Heartbeat.PassesAreOneMap(before.bots, active, clock);
    }

    method Handle(m: EngineMessage, clock: Clock) returns (raised: bool)
      modifies session`staged, hub
      ensures Does(Projector.Handle(old(session.staged), m, clock), raised)
    {
      match m {
        case NewTrade(_, _, _, _, _, _, _, _, _) => raised := HandleNewTrade(m);
        case BalanceUpdate(_, _) => raised := HandleBalanceUpdate(m);
        case PositionsUpdate(_, _) => raised := HandlePositionsUpdate(m);
        case StrategyFailed(_, _, _, _, _) => raised := HandleStrategyError(m, clock);
        case EngineStatus(_) => raised := BroadcastStatus(m, clock);
        case EngineLog(_, _) => raised := BroadcastLog(m, clock);
        case UnknownChannel => raised := false;
      }
    }

    /** One transaction a message: whatever goes wrong, the staged rows are rolled back. */
    method ProcessMessage(m: EngineMessage, clock: Clock, outcome: System.Outcome)
      requires session.staged == session.committed
      modifies session, hub
      ensures session.staged == session.committed
      ensures System.World(session.committed, [], hub.sent)
           == System.Apply(System.World(old(session.committed), [], old(hub.sent)),
                           System.Message(m, clock, outcome))
    {
      var raised := true;
      if !outcome.Refused? {
        raised := Handle(m, clock);
      }
      if !raised && outcome.Committed? {
        session.Commit();
      } else {
        session.Rollback();
      }
    }
  }
}
