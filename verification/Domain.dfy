/** The database rows of the backend, the commands it publishes to the engine and the
    messages it receives back.  Timestamps are integers counting microseconds. */
module Domain {
  import opened Prelude

  /** A JSON document, compared by content. */
  type Json = string

  /** A number that `Decimal` reads and a numeric column stores. */
  datatype Quantity = Finite(value: real) | NaN

  // ---------- rows ----------

  datatype Status = Draft | Starting | Running | Stopping | Stopped | Errored

  datatype Bot = Bot(
    owner: Uuid, credential: Uuid, strategy: string, symbol: string, timeframe: string,
    params: Json, status: Status, updatedAt: int)

  type BotTable = map<Uuid, Bot>

  datatype CommandBody =
    | StartBody(strategy: string, symbol: string, timeframe: string, params: Json, credential: Uuid)
    | StopBody(closePositions: bool)
    | UpdateBody(params: Json)

  datatype Command = Command(commandId: Uuid, bot: Uuid, body: CommandBody)

  /** `bot` is NULL for an order whose bot could not be resolved or was deleted since. */
  datatype Order = Order(
    bot: Option<Uuid>, exchangeOrderId: string, symbol: string, side: string, kind: string,
    size: Quantity, price: Option<Quantity>, status: string, strategy: string)

  datatype Balance = Balance(
    id: Uuid, credential: Uuid, currency: string, free: Quantity, used: Quantity, total: Quantity, observedAt: int)

  datatype Position = Position(
    credential: Uuid, symbol: string, side: string, entryPrice: Quantity, size: Quantity, pnl: Quantity,
    observedAt: int)

  datatype StrategyErrorRow = StrategyErrorRow(
    bot: Option<Uuid>, strategy: Option<string>, errorKind: string, text: string, raw: Json)

  /** `credentials` maps a credential to the user who owns it. */
  datatype Db = Db(
    bots: BotTable,
    commands: seq<Command>,
    orders: seq<Order>,
    balances: seq<Balance>,
    positions: seq<Position>,
    errors: seq<StrategyErrorRow>,
    credentials: map<Uuid, Uuid>)

  // ---------- commands on the wire ----------

  datatype Published =
    | StartCommand(commandId: Uuid, bot: Uuid, strategy: string, symbol: string, timeframe: string,
                   params: Json, credential: Uuid)
    | StopCommand(commandId: Uuid, bot: Uuid, closePositions: bool)
    | UpdateCommand(commandId: Uuid, bot: Uuid, params: Json)

  /** The wire message that carries the same command as a row of `bot_commands`. */
  function OnWire(c: Command): Published {
    match c.body
    case StartBody(strategy, symbol, timeframe, params, credential) =>
      StartCommand(c.commandId, c.bot, strategy, symbol, timeframe, params, credential)
    case StopBody(closePositions) => StopCommand(c.commandId, c.bot, closePositions)
    case UpdateBody(params) => UpdateCommand(c.commandId, c.bot, params)
  }

  // ---------- engine messages ----------

  /** A `bot_id`: missing or empty, not a string, a string that is not a UUID, or a UUID. */
  datatype BotRef = Absent | NotText | Malformed | BotId(id: Uuid)

  /** An element of `active_bots`: not a string (null included), a string that is not a UUID, or a UUID. */
  datatype ActiveRef = NotString | BadString | ActiveId(id: Uuid)

  /** A `credential_id`: null or missing, not a UUID, or a UUID. */
  datatype CredentialRef = NoCredential | BadCredential | CredentialId(id: Uuid)

  /** A numeric field of a payload. */
  datatype Number = MissingKey | Null | NotANumber | Num(value: Quantity)

  /** An entry of a balance message, with the id and the time that its row draws on insertion. */
  datatype Amounts = Amounts(
    currency: string, free: Number, used: Number, total: Number, rowId: Uuid, at: int)

  /** An entry of a positions message, with the time that its row draws on insertion. */
  datatype PositionEntry = PositionEntry(
    symbol: Option<string>, side: Option<string>, entryPrice: Number, size: Number, pnl: Number, at: int)

  /** One message, as the handler of its channel reads the payload.  A text field that is looked up
      with `[]` is None when the key is missing; a collection is None when it cannot be iterated. */
  datatype EngineMessage =
    | NewTrade(bot: BotRef, orderId: Option<string>, symbol: Option<string>, side: Option<string>,
               orderType: Option<string>, size: Number, price: Number, status: Option<string>,
               strategy: Option<string>)
    | BalanceUpdate(credential: CredentialRef, balances: Option<seq<Amounts>>)
    | PositionsUpdate(credential: CredentialRef, positions: Option<seq<PositionEntry>>)
    | StrategyFailed(bot: BotRef, strategy: Option<string>, errorKind: string, text: string, raw: Json)
    | EngineStatus(active: Option<seq<ActiveRef>>)
    | EngineLog(started: bool, bot: BotRef)
    | UnknownChannel

  datatype Recipient = User(id: Uuid) | Everyone

  /** A WebSocket broadcast.  `staged` is the transaction's view of the database when it was sent. */
  datatype Broadcast = Broadcast(recipient: Recipient, message: EngineMessage, staged: Db)

  /** The successive readings of the wall clock inside one transaction. */
  datatype Clock = Clock(first: int, second: int, third: int) {
    predicate Ordered() { first <= second <= third }
  }
}
