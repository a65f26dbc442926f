/** The bot service (`bot_service.py`) and bot deletion (`routers/bots.py`) as functions of the
    database: reply, new state, and the command published to the engine. */
module BotCommands {
  import opened Prelude
  import opened Domain
  import Heartbeat
  import Orders

  datatype Request =
    | Create(user: Uuid, bot: Uuid, credential: Uuid, strategy: string, symbol: string, timeframe: string, params: Json)
    | Start(user: Uuid, bot: Uuid, commandId: Uuid)
    | Stop(user: Uuid, bot: Uuid, commandId: Uuid, closePositions: bool)
    | UpdateParams(user: Uuid, bot: Uuid, commandId: Uuid, params: Json)
    | Delete(user: Uuid, bot: Uuid)
  {
    predicate IsCommand() { Start? || Stop? || UpdateParams? }
  }

  datatype Reply = Done | NotFound | Forbidden | InvalidState(status: Status) | ConstraintViolated

  /** `published` is None for requests that send no command. */
  datatype Served = Served(reply: Reply, db: Db, published: Option<Published>)

  function CommandIds(commands: seq<Command>): set<Uuid> {
    set k | 0 <= k < |commands| :: commands[k].commandId
  }

  function Owned(db: Db, user: Uuid, bot: Uuid): Reply {
    if bot !in db.bots then NotFound
    else if db.bots[bot].owner != user then Forbidden
    else Done
  }

  /** INSERT of a `bot_commands` row, then publication of the same command. */
  function Record(db: Db, c: Command, bots: BotTable): Served {
    if c.commandId in CommandIds(db.commands) then Served(ConstraintViolated, db, None)
    else Served(Done, db.(commands := db.commands + [c], bots := bots), Some(OnWire(c)))
  }

  function ServeCreate(db: Db, r: Request, now: int): Served
    requires r.Create?
  {
    if r.credential !in db.credentials || db.credentials[r.credential] != r.user then Served(Forbidden, db, None)
    else if r.bot in db.bots then Served(ConstraintViolated, db, None)
    else
      var b := Bot(r.user, r.credential, r.strategy, r.symbol, r.timeframe, r.params, Draft, now);
      Served(Done, db.(bots := db.bots[r.bot := b]), None)
  }

  function ServeStart(db: Db, r: Request, now: int): Served
    requires r.Start?
  {
    var owned := Owned(db, r.user, r.bot);
    if owned != Done then Served(owned, db, None)
    else
      var b := db.bots[r.bot];
      if b.status.Running? || b.status.Starting? then Served(InvalidState(b.status), db, None)
      else Record(db,
                  Command(r.commandId, r.bot, StartBody(b.strategy, b.symbol, b.timeframe, b.params, b.credential)),
                  db.bots[r.bot := Heartbeat.FlushStatus(b, Starting, now)])
  }

  function ServeStop(db: Db, r: Request, now: int): Served
    requires r.Stop?
  {
    var owned := Owned(db, r.user, r.bot);
    if owned != Done then Served(owned, db, None)
    else
      var b := db.bots[r.bot];
      if b.status.Stopped? || b.status.Draft? then Served(InvalidState(b.status), db, None)
      else Record(db, Command(r.commandId, r.bot, StopBody(r.closePositions)),
                  db.bots[r.bot := Heartbeat.FlushStatus(b, Stopping, now)])
  }

  function ServeUpdateParams(db: Db, r: Request, now: int): Served
    requires r.UpdateParams?
  {
    var owned := Owned(db, r.user, r.bot);
    if owned != Done then Served(owned, db, None)
    else Record(db, Command(r.commandId, r.bot, UpdateBody(r.params)),
                db.bots[r.bot := Heartbeat.FlushParams(db.bots[r.bot], r.params, now)])
  }

  /** The rows of `bot_commands` that survive the deletion of a bot (ON DELETE CASCADE). */
  function WithoutBot(commands: seq<Command>, bot: Uuid): seq<Command> {
    if commands == [] then []
    else
      var n := |commands| - 1;
      WithoutBot(commands[..n], bot) + if commands[n].bot == bot then [] else [commands[n]]
  }

  function ForgetBotInErrors(errors: seq<StrategyErrorRow>, bot: Uuid): seq<StrategyErrorRow> {
    seq(|errors|, i requires 0 <= i < |errors| =>
      if errors[i].bot == Some(bot) then errors[i].(bot := None) else errors[i])
  }

  /** DELETE FROM bots, with the actions of the foreign keys that point at the row. */
  function DeleteCascade(db: Db, bot: Uuid): Db {
    db.(bots := db.bots - {bot},
        commands := WithoutBot(db.commands, bot),
        orders := Orders.ForgetBot(db.orders, bot),
        errors := ForgetBotInErrors(db.errors, bot))
  }

  function ServeDelete(db: Db, r: Request): Served
    requires r.Delete?
  {
    var owned := Owned(db, r.user, r.bot);
    if owned != Done then Served(owned, db, None)
    else Served(Done, DeleteCascade(db, r.bot), None)
  }

  function Serve(db: Db, r: Request, now: int): Served {
    match r
    case Create(_, _, _, _, _, _, _) => ServeCreate(db, r, now)
    case Start(_, _, _) => ServeStart(db, r, now)
    case Stop(_, _, _, _) => ServeStop(db, r, now)
    case UpdateParams(_, _, _, _) => ServeUpdateParams(db, r, now)
    case Delete(_, _) => ServeDelete(db, r)
  }

  /** The answer to every request, decided by ownership, status and uniqueness alone; a refused request changes
      nothing and publishes nothing. */
  lemma ReplyTable(db: Db, r: Request, now: int)
    ensures var reply := Serve(db, r, now).reply;
      reply ==
      if r.Create? then
        if r.credential !in db.credentials || db.credentials[r.credential] != r.user then Forbidden
        else if r.bot in db.bots then ConstraintViolated
        else Done
      else if r.bot !in db.bots then NotFound
      else if db.bots[r.bot].owner != r.user then Forbidden
      else if r.Start? && db.bots[r.bot].status in {Running, Starting} then InvalidState(db.bots[r.bot].status)
      else if r.Stop? && db.bots[r.bot].status in {Stopped, Draft} then InvalidState(db.bots[r.bot].status)
      else if r.IsCommand() && exists k | 0 <= k < |db.commands| :: db.commands[k].commandId == r.commandId
        then ConstraintViolated
      else Done
    ensures Serve(db, r, now).reply != Done ==> Serve(db, r, now) == Served(Serve(db, r, now).reply, db, None)
  {
  }
}
