# Verification of the trading backend's control plane

A Dafny model of the backend that stands between traders and a trading engine, with proofs about whole runs of
it. The engine is a separate program: the backend sends it commands over Redis and receives events from it.
`dafny verify dfyconfig.toml` checks everything.

What is modelled, from the bottom up:

- **Bots, commands and engine events** (`Domain`, `Heartbeat`, `Orders`, `Projector`, `BotCommands`, `System`,
  `Backend`). One database value holds bots, commands, orders, balances, positions, errors and credentials. HTTP
  requests (create, start, stop, update parameters, delete) and engine messages (trades, balances, positions,
  errors, logs, heartbeats) are steps of one transaction each. A step commits, is refused because a statement or
  the publish call raised, or runs to its end and then fails to commit; all three are possible for every step.
  `Backend` holds the services as classes over a session with staged and committed state, and ties every method
  to the functions the theorems speak about.
- **Theorems about runs of that system**: `Projection` (each bot is an automaton of its own events),
  `StartupTimeout` (what the two-minute timeout measures), `Atomicity` (the database is the fold of the successful
  transactions), `CommandLog` (command rows, published messages and parameters), `OrderHistory` (what the orders
  table shows), `Records` (snapshots and errors), `Subscriber` (the message loop and its backoff).
- **Protocols over an expiring store**: `EmailCodes`, `RateLimiter`, `PriceCache`, each with a millisecond clock.
- **Registries**: `Connections` (WebSocket broadcasts at lock granularity), `Backtests` (job queue and worker),
  `Identities` (OAuth and email logins), `ApiKeys`.
- **Balance valuation**: `LatestBalances` (the ranking query), `Decimals` (28-digit decimal arithmetic, ties to
  even), `Equity` (the accumulation loops and their rounding error), `Valuation` (query, prices and loops together).

## What the proofs turned up

The model follows the code. In these places the code does something its comments or a reader would not expect;
each is a theorem here.

- The request limiter admits up to `2 * limit - 1` requests in a half-open minute, not `limit`
  (`RateLimiter.AdmittedPerMinute`); the bound is reached for every positive limit (`RateLimiter.BoundIsReached`), so
  the promise holds exactly for limits up to 1 (`RateLimiter.PromiseHoldsIff`).
- The startup timeout is described as two minutes in STARTING. It measures time since the last update of the row:
  changing parameters restarts it (`StartupTimeout.ParamsChangePostponesTimeout`, `StartupTimeout.TimeoutCanBeLate`).
  It is never early (`StartupTimeout.TimeoutIsNeverEarly`), and on time exactly when the parameters have not really
  changed within the last two minutes (`StartupTimeout.TimeoutIsOnTimeIff`).
- Commands are published, and broadcasts are sent, before the commit. A failed commit can leave a client told of an
  order that is not stored (`Atomicity.BroadcastWithoutCommit`; `Atomicity.BroadcastsAreExplained` says exactly when a
  broadcast shows what is stored). It can also leave an engine with parameters the database does not have
  (`CommandLog.AgreementCanBeLost`). After any run the two disagree on a bot exactly when its last accepted change
  failed to commit and asked for other parameters than those stored at that moment; a START in between settles it, if
  the engine takes over the parameters a START carries (`CommandLog.AgreementIffNotTorn`).
- Delivering a trade event twice is harmless exactly when its bot is known: the unique constraint treats NULL as
  distinct, so events without a bot pile up (`Orders.RedeliveryIsNoOpIffBotKnown`).
- A backtest that exits with code 0 and prints JSON that is neither an object nor null ends FAILED with a result still
  set; one that prints null and cannot be marked failed after that stays COMPLETED without a result
  (`Backtests.JobsAreMisfiled`). In every run these are the only jobs whose fields do not fit their status
  (`Backtests.FieldsFitIff`).
- Backtest jobs can be given up. When all is quiet a job is still QUEUED exactly when its loading failed, and RUNNING
  exactly when its marking failed or was never attempted (`Backtests.QuietStatus`); such a job stays RUNNING for ever
  and cannot be deleted (`Backtests.StrandedForEver`). A database that does not answer is one cause. Two others need
  no such failure (`Backtests.JobsAreGivenUp`): the path and the configuration are built after the RUNNING commit but
  before the handler that marks failures, so an exception there (a timeframe that is no valid pattern, say) is only
  logged; and a result that the JSONB column refuses, such as one with NaN in it, fails the flush, after which marking
  the failure on the same session raises again. The delete endpoint answers 409 for a running job; its module comment
  says 404.
- The branch that repairs a dangling identity cannot be reached, and would always violate the unique constraint
  (`Identities.DanglingRepairAlwaysFails`).
- A heartbeat with one element that is not a string is discarded as a whole (`Backend.EventProjector.CollectActive`),
  while one with malformed strings is processed without them (`Heartbeat.NoiseDoesNotMatter`).
- The comment on email codes says that every verification counts; only wrong ones do. A limit that is not positive
  still allows one guess (`EmailCodes.GuessBoundIsReached`), so the limit holds exactly when it is positive
  (`EmailCodes.GuessLimitHoldsIff`).
- The first truthy of last, close, bid and ask decides a price: a negative one hides later positive ones
  (`PriceCache.FetchIff`).

## Assumptions

- Ids drawn by `uuid4` do not collide. The theorems that need it say so (`FreshCommands`, `FreshBots`, `FreshIds`,
  `Sound`). Each balance and position row draws its own id and time; the model places them beside the entry.
- An ORM flush issues an UPDATE, and so stamps `updated_at`, only on a net change of the row; the direct UPDATE of
  `update_status_by_id` always stamps. The clock columns count microseconds.
- Bot deletion cascades to `bot_commands` and sets `orders.bot_id` and `strategy_errors.bot_id` to NULL; user
  deletion cascades to identities.
- Redis rounds a remaining life of `ms` milliseconds to `(ms + 500) / 1000` seconds; a key is live strictly before
  its expiry.
- A hash check (bcrypt) accepts exactly the original secret. Printing a price into the cache and reading it back
  gives the same price.
- `verify` of an email code is one step, and so is a heartbeat, which reads the clock three times.

## Model

| member | source | states |
|---|---|---|
| Heartbeat.PassesAreOneMap | src/services/event_projector.py:173-206 | for every table and active set, the three list-then-update passes equal one simultaneous map of each bot by its own status before the heartbeat |
| Heartbeat.LaterPassesUndoNothing | src/services/event_projector.py:173-206 | a row promoted or stopped by one pass is left as it is by the passes after it |
| Heartbeat.WriteLowersRank | src/services/event_projector.py:173-206 | every write of a heartbeat lowers the rank (STARTING 2, RUNNING and STOPPING 1, others 0); no write, no change |
| Heartbeat.HeartbeatsWriteAtMostTwice | src/services/event_projector.py:161-206 | any run of heartbeats writes one bot at most twice, paid for by its rank |
| Heartbeat.FixedActiveSetWritesAtMostOnce | src/services/event_projector.py:161-206 | at most once while the engine keeps reporting, or keeps omitting, the bot |
| Heartbeat.LateHeartbeatSettles | src/services/event_projector.py:192-206 | a heartbeat more than two minutes after every update leaves no bot STARTING, and RUNNING or STOPPING only reported bots |
| Heartbeat.RepetitionIsIdempotent | src/services/event_projector.py:161-206 | repeating a heartbeat with the same active set and no later cutoff changes nothing |
| Heartbeat.NoiseDoesNotMatter | src/services/event_projector.py:162-168 | repeated ids and malformed strings anywhere in the list do not change the active set |
| Orders.Conflict | src/repositories/order_repo.py:43-46 | the row hit by ON CONFLICT is the first with the same order id and the same non-null bot; without one there is no conflict |
| Orders.UpsertKeepsKeysUnique | src/models/order.py:15 | an upsert keeps (exchange_order_id, non-null bot_id) unique |
| Orders.UpsertShows | src/repositories/order_repo.py:32-47 | an upsert extends the event list shown for its key by one and changes what is shown for no other key |
| Orders.UpsertGrows | src/repositories/order_repo.py:32-47 | it adds a row exactly when the bot is unknown or nothing was shown for the key |
| Orders.ForgetKeepsKeysUnique | src/models/order.py:15-20 | setting bot_id to NULL keeps the constraint |
| Orders.ForgetShows | src/models/order.py:18-20 | deleting a bot empties what is shown for its keys and leaves every other key |
| Orders.ForgettingConservesRows | src/models/order.py:18-20 | deleting a bot keeps every row and everything in it but the bot |
| Orders.RedeliveryIsNoOpIffBotKnown | src/repositories/order_repo.py:32-47 | the same event twice in a row equals once if and only if its bot is known |
| Projector.BalanceRowsMeaning | src/services/event_projector.py:90-97 | rows exist iff every amount parses, and then row k is entry k |
| Projector.PositionRowsMeaning | src/services/event_projector.py:112-120 | rows exist iff every field is there and every number parses, and then row k has the symbol, side, entry price, size and pnl of entry k |
| Projector.BalanceMessageAccepted | src/services/event_projector.py:82-102 | exactly which balance messages are accepted: all amounts parse and the credential exists if there is a row to insert |
| Projector.PositionMessageAccepted | src/services/event_projector.py:104-125 | exactly which position messages are accepted |
| Projector.TradeMessageAccepted | src/services/event_projector.py:62-80 | exactly which trade messages are accepted, and that the table then shows the order with the message's size, price and status for the named bot, or for none if it is unknown |
| Projector.OtherMessagesAccepted | src/services/event_projector.py:127-168 | exactly which heartbeats, logs and errors are accepted |
| Projector.BroadcastFollowsStaging | src/services/event_projector.py:62-159 | an accepted message is broadcast exactly once, with all its rows staged, to the owner of the existing bot or credential it names, a log to everyone, and otherwise not at all |
| BotCommands.ReplyTable | src/services/bot_service.py:43-124 | the answer to every request, decided by ownership, status and uniqueness; a refused request changes and publishes nothing |
| Backend.Session.ListByStatuses | src/repositories/bot_repo.py:61-65 | every matching bot exactly once, in any order |
| Backend.Session.UpdateStatusById | src/repositories/bot_repo.py:52-59 | a direct UPDATE by id: status and stamp of that row only, nothing for a missing id |
| Backend.Session.UpsertOrder | src/repositories/order_repo.py:32-47 | the staged table becomes the specified upsert |
| Backend.BotService.Start | src/services/bot_service.py:73-97 | refused for RUNNING and STARTING; otherwise row, message and STARTING as specified, all or nothing on the wire |
| Backend.BotService.Stop | src/services/bot_service.py:99-113 | refused for STOPPED and DRAFT; otherwise row, message and STOPPING as specified |
| Backend.BotService.UpdateParams | src/services/bot_service.py:115-124 | row, message and new parameters as specified, in any status |
| Backend.BotService.Create | src/services/bot_service.py:43-63 | refused unless the credential exists and is the user's |
| Backend.BotService.Delete | src/api/routers/bots.py:120-128 | owner only; the row goes with its command rows, orders and errors lose the bot |
| Backend.BotService.ServeRequest | src/services/bot_service.py:43-124 | one request with its commit or rollback is one step of the system, and leaves nothing staged |
| Backend.EventProjector.HandleNewTrade | src/services/event_projector.py:62-80 | raises or stages and broadcasts exactly as specified |
| Backend.EventProjector.InsertBalances | src/services/event_projector.py:89-97 | the insert loop raises iff some amount is bad and otherwise appends one row an entry, in order |
| Backend.EventProjector.HandleBalanceUpdate | src/services/event_projector.py:82-102 | raises or stages and broadcasts exactly as specified |
| Backend.EventProjector.InsertPositions | src/services/event_projector.py:111-120 | the insert loop for positions |
| Backend.EventProjector.HandlePositionsUpdate | src/services/event_projector.py:104-125 | raises or stages and broadcasts exactly as specified |
| Backend.EventProjector.HandleStrategyError | src/services/event_projector.py:127-143 | raises or stages and broadcasts exactly as specified |
| Backend.EventProjector.BroadcastLog | src/services/event_projector.py:145-159 | raises or stages and broadcasts exactly as specified |
| Backend.EventProjector.CollectActive | src/services/event_projector.py:162-168 | the set of well-formed ids, unless an element is not a string, which raises |
| Backend.EventProjector.Promote | src/services/event_projector.py:173-181 | the loop over STARTING bots, in any order, equals the first pass |
| Backend.EventProjector.Reap | src/services/event_projector.py:183-190 | the loop over RUNNING and STOPPING bots equals the second pass |
| Backend.EventProjector.Expire | src/services/event_projector.py:194-206 | the loop over stale STARTING bots equals the third pass |
| Backend.EventProjector.BroadcastStatus | src/services/event_projector.py:161-206 | a whole heartbeat equals the simultaneous map, and sends nothing |
| Backend.EventProjector.Handle | src/services/event_projector.py:36-50 | every channel is dispatched to its specified effect; unknown channels do nothing |
| Backend.EventProjector.ProcessMessage | src/infrastructure/pubsub_subscriber.py:18-31 | one message with its commit or rollback is one step of the system, and leaves nothing staged |
| Projection.StepProjects | src/services/bot_service.py:73-124 | one step moves a bot as its automaton does if the step concerns the bot, and not at all otherwise |
| Projection.RunProjects | src/services/event_projector.py:127-206 | projection theorem: after any interleaved run, what the database holds for a bot is what a per-bot automaton reaches on that bot's own events |
| Projection.OtherEventsDoNotMatter | src/services/event_projector.py:127-206 | two runs that agree on a bot's own events agree on the bot |
| Projection.FreshIdIsNew | src/models/bot_command.py:25-27 | with ids that do not collide, the unique constraint on command ids never fires |
| Projection.DraftIsNeverReentered | src/services/bot_service.py:97-113 | a bot that has left DRAFT never returns to it |
| Projection.LeavingDraftHasACause | src/services/bot_service.py:85-97 | every bot that is not DRAFT has a START row or has been named by a processed strategy_error or strategy_started |
| Projection.HeartbeatRunsConverge | src/services/event_projector.py:161-206 | in any run of heartbeats, readable or not, committed or not, the number of changes of a bot plus its final rank is at most its initial rank, so it changes at most twice |
| StartupTimeout.UpdatedAtBounds | src/models/bot.py:49-51 | updated_at is never in the future and, for a STARTING bot, never older than the start call that made it so |
| StartupTimeout.TimeoutIsNeverEarly | src/services/event_projector.py:192-206 | a heartbeat moves a bot to ERROR only when strictly more than two minutes have passed since its start call |
| StartupTimeout.TimeoutIff | src/services/event_projector.py:194-206 | a committed heartbeat moves a bot to ERROR iff it is STARTING, not reported, and not updated for more than two minutes |
| StartupTimeout.UpdatedAtIsLastChange | src/models/bot.py:49-51 | in every run, updated_at of a STARTING bot is exactly the later of its start call and its last effective parameter change |
| StartupTimeout.TimeoutIsOnTimeIff | src/services/event_projector.py:192-206 | more than two minutes after the start call, a heartbeat that does not report the bot moves it to ERROR iff its parameters have not effectively changed within two minutes |
| StartupTimeout.ParamsChangePostponesTimeout | src/services/bot_service.py:115-124 | an effective parameter change restarts the two minutes |
| StartupTimeout.TimeoutCanBeLate | src/services/event_projector.py:192-206 | a concrete run: 200 s after its start call a bot is still STARTING |
| Atomicity.CommittedStateIsFoldOfSuccesses | src/infrastructure/pubsub_subscriber.py:25-31 | after any run the committed database is the in-order fold of exactly the transactions that succeeded |
| Atomicity.BadAmountLeavesNoRow | src/services/event_projector.py:90-97 | a bad amount anywhere in a balance message leaves none of its rows and sends nothing |
| Atomicity.BadPositionLeavesNoRow | src/services/event_projector.py:112-120 | the same for positions |
| Atomicity.BroadcastsAreExplained | src/services/event_projector.py:62-159 | every broadcast of a run comes from a handler that ran to its end, with its complete staged database, which is what the database holds after that step iff the transaction committed or changed nothing |
| Atomicity.BroadcastWithoutCommit | src/infrastructure/pubsub_subscriber.py:27-30 | a run from the empty database at whose end the owner has been told of an order that is not stored |
| CommandLog.CommandAppends | src/services/bot_service.py:73-124 | a served command publishes one message, given by its constructor from the request or the bot's stored fields, and commits one row of the same id and content |
| CommandLog.CommandGoesOutIff | src/infrastructure/command_publisher.py:19-73 | exactly when a command goes out, and the message that then does: the close_positions flag of STOP, the parameters of UPDATE, the bot's own fields for START; otherwise nothing changes |
| CommandLog.RowsAreSubsequenceOfMessages | src/services/bot_service.py:85-96 | whatever fails and whichever bots are deleted, committed rows are a subsequence of the published messages |
| CommandLog.NamedBotsWereCreated | src/services/bot_service.py:56-63 | a bot that exists or was ever named on the wire was created in the run |
| CommandLog.RowsAreMessagesOfLivingBots | src/infrastructure/command_publisher.py:19-73 | when commits succeed, the command table lists exactly the published messages of the bots that still exist, same ids, content and order |
| CommandLog.RowsNameExistingBots | src/models/bot_command.py:28-30 | the foreign key with its cascade: every command row names an existing bot |
| CommandLog.RowsReplayToParams | src/services/bot_service.py:73-124 | in every run, replaying a bot's UPDATE rows over its creation parameters gives its parameters, and every START row carries the replay up to it |
| CommandLog.EngineAgreesWithDatabase | src/services/bot_service.py:73-124 | when commits succeed, an engine that has received all messages holds the stored parameters of every bot, whether or not a START replaces what it holds, and every START message carried what it held then |
| CommandLog.AgreementAfterStep | src/services/bot_service.py:115-124 | from any state: an accepted change decides the agreement by its own commit, a START may restore it, and no other step touches it |
| CommandLog.AgreementIffNotTorn | src/services/bot_service.py:73-124 | in every run, whatever fails: the engine holds a bot's stored parameters iff its last accepted change did not both fail to commit and ask for something new |
| CommandLog.AgreementCanBeLost | src/services/bot_service.py:123-124 | a run from the empty database after which the engine holds other parameters than those stored |
| OrderHistory.KeysStayUnique | src/models/order.py:15 | the unique constraint holds after every run |
| OrderHistory.WrittenIsTheMessage | src/services/event_projector.py:63-76 | which steps write an order, and that every column of it is the message's own field, with an empty strategy if there is none |
| OrderHistory.TableShowsEvents | src/repositories/order_repo.py:32-47 | in every run each (bot, order id) has one row iff events were written for it since the bot last appeared, with the first event's symbol, side, type and strategy and the last one's size, price and status |
| OrderHistory.RowsAreInsertions | src/services/event_projector.py:62-76 | the table has one row for every write that was the first of its key or had no bot: updates and bot deletions neither create nor lose rows |
| OrderHistory.RowsWithoutBotAreFrozen | src/models/order.py:15-20 | a row without a bot is never changed or removed |
| Records.BalancesAreHistory | src/services/event_projector.py:82-97 | in every run the balance snapshots are the old ones followed by one row for each entry of each accepted message, in order, with the entry's own amounts |
| Records.PositionsAreHistory | src/services/event_projector.py:104-120 | the same for positions |
| Records.ErrorsStep | src/services/event_projector.py:127-136 | what a step does to the error table, row by row: an error message adds its row, the owner's deletion of a bot takes the bot out of its rows, and nothing else touches it |
| Records.ErrorsAreHistory | src/services/event_projector.py:127-136 | in every run the table has one row for each error message, in order, with its fields, for the bot it names while that bot exists |
| Subscriber.DeliveredItemByItem | src/infrastructure/pubsub_subscriber.py:59-76 | wherever they stand: skipped messages start and stop nothing, an event starts its own transaction, and nothing is delivered after bytes that do not decode or an event whose session or key fails |
| Subscriber.DelayShape | src/infrastructure/pubsub_subscriber.py:80-83 | sleeps never exceed the cap, never shrink while failures continue, and reach the cap |
| Subscriber.DefaultSleeps | src/infrastructure/pubsub_subscriber.py:48-52 | with the default cap: 1, 2, 4, 8, 16, 30, 30 and so on |
| Subscriber.Loop.Receive | src/infrastructure/pubsub_subscriber.py:60-76 | one item starts a transaction iff it is a well-formed event, and breaks the loop iff its bytes do not decode, its session cannot be closed or its heartbeat key cannot be stored |
| Subscriber.Loop.Listen | src/infrastructure/pubsub_subscriber.py:59-76 | what a listening session leaves is the run of exactly the well-formed events up to the item that breaks the loop |
| Subscriber.Loop.Subscribe | src/infrastructure/pubsub_subscriber.py:54-76 | only a successful subscription resets the backoff, and only it delivers events |
| Subscriber.Loop.Run | src/infrastructure/pubsub_subscriber.py:43-83 | across reconnections: the run of everything delivered, and every sleep is the capped power of two of the current streak of failures |
| EmailCodes.KeyIdentifiesNormalEmail | src/infrastructure/email_codes.py:73-75 | two spellings share a code iff they normalise alike, and normalising is idempotent |
| EmailCodes.SpellingsShareKey | src/infrastructure/email_codes.py:73-75 | a spelling shares the code of a trimmed address iff it differs from it in letter case and surrounding white space only |
| EmailCodes.TtlIsNearest | src/infrastructure/email_codes.py:128 | the remaining seconds are the nearest whole number, half a second counting up |
| EmailCodes.RearmShift | src/infrastructure/email_codes.py:128-129 | reading TTL in whole seconds and setting it again moves the expiry by -499 to 999 ms and never kills the key |
| EmailCodes.RunReflectsTrace | src/infrastructure/email_codes.py:91-132 | after every run the store holds, for every address, the code, tries and deadline that the trace alone determines |
| EmailCodes.AcceptedIff | src/infrastructure/email_codes.py:115-132 | a code is accepted iff it is the latest issued for the normalised address, all tries since were wrong, in time and fewer than allowed, and their deadline has not passed |
| EmailCodes.VerdictOfTry | src/infrastructure/email_codes.py:115-132 | every verdict from the trace: not found, accepted, locked by the last allowed wrong try, or a mismatch |
| EmailCodes.LifetimeBounds | src/infrastructure/email_codes.py:123-130 | the whole life of a code stays within maxAttempts - 1 seconds of its ttl |
| EmailCodes.AcceptedIsRecent | src/infrastructure/email_codes.py:91-132 | in every run an accepted code was issued less than ttl and maxAttempts - 1 seconds before |
| EmailCodes.YoungCodeAcceptedIff | src/infrastructure/email_codes.py:91-132 | less than ttl - (maxAttempts - 1) seconds after the latest issue, a code is accepted iff it is the issued one and fewer than maxAttempts tries were made since, all wrong |
| EmailCodes.GuessesPerCode | src/infrastructure/email_codes.py:123-127 | in every run at most maxAttempts guesses, or one if that is not positive, are compared with a code |
| EmailCodes.GuessBoundIsReached | src/infrastructure/email_codes.py:122-127 | for every configuration and address some run reaches that bound |
| EmailCodes.GuessLimitHoldsIff | src/infrastructure/email_codes.py:122-127 | at most maxAttempts guesses in every run and for every address if and only if maxAttempts is positive |
| EmailCodes.EmailCodeStore.Issue | src/infrastructure/email_codes.py:91-113 | replaces whatever was stored for the normalised address |
| EmailCodes.EmailCodeStore.Verify | src/infrastructure/email_codes.py:115-132 | verdict and store as specified in every branch |
| RateLimiter.RunKeepsInv | src/infrastructure/email_codes.py:81-89 | in every interleaving of INCR and EXPIRE steps, one EXPIRE is outstanding exactly while the key has no expiry, and lives of the key begin at least 60 s apart |
| RateLimiter.AdmittedPerLife | src/infrastructure/email_codes.py:81-89 | at most `limit` requests are admitted in one life of the key |
| RateLimiter.AdmittedIffInQuota | src/infrastructure/email_codes.py:85-89 | each request is admitted exactly if it is among the first `limit` of its life of the key |
| RateLimiter.WindowMeetsTwoLives | src/infrastructure/email_codes.py:81-89 | the requests of any 60 s belong to at most two consecutive lives, and if to two, the first began before |
| RateLimiter.AdmittedPerMinute | src/infrastructure/email_codes.py:81-89 | any half-open 60 s admit at most 2 * limit - 1 requests |
| RateLimiter.NothingProlongsAWindow | src/infrastructure/email_codes.py:85-89 | once a key has an expiry, no request, admitted or rejected, and no EXPIRE moves it |
| RateLimiter.BoundIsReached | src/infrastructure/email_codes.py:81-89 | for every positive limit some run admits 2 * limit - 1 in 60 s |
| RateLimiter.PromiseHoldsIff | src/infrastructure/email_codes.py:81-89 | every run admits at most `limit` in every half-open minute if and only if the limit is at most 1 |
| RateLimiter.Limiter.CheckRateLimit | src/infrastructure/email_codes.py:81-89 | an undisturbed check is one INCR step, and the EXPIRE step if it created the counter; an empty address is not counted |
| PriceCache.KeyIdentifiesPair | src/services/balance_valuation.py:31-32 | the cache key determines exchange and currency up to case, and case variants share one entry |
| PriceCache.FetchIff | src/services/balance_valuation.py:51-95 | a fetch gives p iff the exchange is supported and p is positive and the first price that is present and not zero |
| PriceCache.QuotedIff | src/services/balance_valuation.py:41-45 | with fallback: p iff the requested exchange quotes it, or that has none, is not Binance, and Binance quotes it |
| PriceCache.LastFetch | src/services/balance_valuation.py:41-47 | the last successful fetch of a pair in a trace |
| PriceCache.CacheReflectsTrace | src/services/balance_valuation.py:31-48 | whatever the interleaving of calls, a cache read hits iff the last successful fetch of the pair ended less than 60 s ago, and then gives its price |
| PriceCache.EveryPriceHasASource | src/services/balance_valuation.py:19-48 | every price returned for anything but USDT is positive and comes from a fetch for the same pair that ended less than 60 s before, from the requested exchange or from Binance after that had none |
| PriceCache.LookupAnswers | src/services/balance_valuation.py:25-37 | USDT is always 1, a currency outside the list never has a price, a listed one has the remembered price |
| PriceCache.PriceService.GetUsdtPrice | src/services/balance_valuation.py:19-48 | an undisturbed call returns and stores what the steps say |
| Connections.RunKeepsInv | src/infrastructure/ws_manager.py:22-73 | in every interleaving each snapshot peer is in exactly one of waiting, accepted, failed, removed |
| Connections.NoUserWithoutSocket | src/infrastructure/ws_manager.py:26-30 | in every interleaving no user is ever mapped to an empty set |
| Connections.AttemptedOnce | src/infrastructure/ws_manager.py:32-63 | in every interleaving a broadcast attempts snapshot sockets only and each at most once; when complete, each exactly once |
| Connections.BroadcastOutcome | src/infrastructure/ws_manager.py:54-63 | if sockets connect once: when a broadcast is complete, every snapshot socket has accepted the message or is not registered |
| Connections.RegisteredIffPresent | src/infrastructure/ws_manager.py:22-30 | in every interleaving exactly the sockets that connected and have not left since are registered, each for its user |
| Connections.SnapshotIsAudience | src/infrastructure/ws_manager.py:33-46 | the snapshot is exactly the sockets present when the broadcast began, of the addressed user only if it addresses one |
| Connections.UnderWayIffAsked | src/infrastructure/ws_manager.py:32-52 | a broadcast is under way exactly if it was asked for |
| Connections.PeersStandAsAttempted | src/infrastructure/ws_manager.py:54-59 | a snapshot peer waits until it is attempted, and then stands as that attempt went: accepted, or failed and later removed |
| Connections.OwnStepsMakeProgress | src/infrastructure/ws_manager.py:37-59 | every step of a broadcast shrinks what is left of it, from at most two steps a peer |
| Connections.ConnectionManager.Connect | src/infrastructure/ws_manager.py:22-24 | the socket joins its user's set, nothing else changes |
| Connections.ConnectionManager.Disconnect | src/infrastructure/ws_manager.py:26-30 | the socket leaves, and the user with the last one, although reading a missing user creates an entry |
| Connections.ConnectionManager.BroadcastToUser | src/infrastructure/ws_manager.py:32-63 | undisturbed: every socket of the user once, in any order; those that fail, and only those, are gone |
| Connections.ConnectionManager.CloseAll | src/infrastructure/ws_manager.py:65-73 | every registered socket is closed and the registry is empty |
| Backtests.RunKeepsQueue | src/services/backtest_worker.py:179-192 | whatever fails: taken plus queued ids are the ids put, in order and without repetition |
| Backtests.ProcessedOnceInOrder | src/services/backtest_worker.py:185-188 | each id is processed at most once, first in first out |
| Backtests.RunKeepsPlaces | src/services/backtest_worker.py:99-176 | in every run, whatever fails, a job is QUEUED exactly while it is to be put, in the queue, held by the worker or lost by a failed load, and RUNNING exactly while the worker is on it or it has been stranded |
| Backtests.StatusMovesForward | src/repositories/backtest_repo.py:63-86 | in every run, whatever fails, a step leaves a job, or moves it QUEUED to RUNNING or RUNNING to a terminal status, or re-marks the job just completed with a result that is no object; the last never happens if results are objects |
| Backtests.RowsSayVerdicts | src/services/backtest_worker.py:131-176 | in every run the row of a job is its submitter's and carries exactly the status, result, error and completion time of the step that marked it, or of the one that marked it again |
| Backtests.VerdictIff | src/services/backtest_worker.py:140-176 | COMPLETED with a result iff the process printed that JSON and nothing was marked after; FAILED iff the marking outcome is an error, or it was re-marked |
| Backtests.JobAppearsIff | src/api/routers/backtest.py:37-51 | a job appears exactly when submitted, QUEUED and its submitter's |
| Backtests.JobDisappearsIff | src/api/routers/backtest.py:104-116 | a job disappears exactly when its submitter deletes it while it is not RUNNING |
| Backtests.FieldsFitIff | src/services/backtest_worker.py:152-176 | in every run, whatever fails and whatever other jobs print, result, error and completion time fit a job's status unless it has failed after JSON other than an object or null, or is completed with a null result |
| Backtests.ObjectsAreNotMisread | src/services/backtest_worker.py:152-176 | neither exception arises in a run whose results are objects |
| Backtests.JobsAreMisfiled | src/services/backtest_worker.py:161-176 | both exceptions arise in runs: a failed job with a result, and a completed job without one |
| Backtests.QuietStatus | src/services/backtest_worker.py:99-192 | when nothing is left to do, a surviving job is QUEUED iff its loading failed, RUNNING iff its marking failed or was not attempted, and otherwise terminal |
| Backtests.NothingIsGivenUp | src/services/backtest_worker.py:104-176 | no job is lost or stranded when every step goes through |
| Backtests.StrandedForEver | src/api/routers/backtest.py:104-114 | a stranded job is RUNNING after any further run, and no user can delete it |
| Backtests.JobsAreGivenUp | src/services/backtest_worker.py:110-176 | both ways of giving up a job are reachable, the second by every outcome that skips or breaks the marking although the database answers |
| Backtests.MovesPayDebt | src/services/backtest_worker.py:179-192 | every effective move of the machinery, in any state and whether it succeeds or not, lowers a measure |
| Backtests.SomeMoveIsEffective | src/services/backtest_worker.py:179-192 | until all is quiet some move is effective |
| Backtests.DrainingEndsTerminal | src/services/backtest_worker.py:179-192 | after any run the machinery makes a bounded number of effective moves; when it cannot move it is quiet, and the surviving jobs are terminal except those lost or stranded, all of them if every step went through |
| Backtests.ProcessingIsTheWorkersSteps | src/services/backtest_worker.py:99-176 | processing one job is the worker's three protocol steps, whether each goes through or not |
| Backtests.BacktestService.RunBacktest | src/api/routers/backtest.py:28-51 | an empty or reversed date range is refused without effect; otherwise the row exists and its id is last in the queue |
| Backtests.BacktestService.DeleteBacktest | src/api/routers/backtest.py:98-116 | missing, foreign and running jobs are refused, in that order, without effect |
| Backtests.BacktestService.ProcessJob | src/services/backtest_worker.py:99-176 | every exit branch ends the job with the verdict of its outcome, including a load or a marking that raises and the outcomes that mark nothing; no other job is touched |
| Backtests.BacktestService.Drain | src/services/backtest_worker.py:179-192 | the loop empties the queue, leaves every queued job that exists QUEUED, RUNNING or terminal as its load, work and markings say, and touches no other |
| Identities.SynthEmailInjective | src/services/identity_service.py:66-72 | made-up addresses lie in the reserved domain (section 6.4 of RFC 6761) and never collide |
| Identities.SynthEmailExample | src/services/identity_service.py:66-72 | the documented shape of a made-up address |
| Identities.ResolveKeepsInv | src/services/identity_service.py:27-52 | a login with a real address or none succeeds, links the subject to the returned user and keeps all constraints |
| Identities.RunKeepsInv | src/services/identity_service.py:27-57 | in every run of OAuth logins, email logins and user deletions with real addresses, emails and (provider, subject) are unique, no identity dangles and no operation violates a constraint |
| Identities.SameSubjectSameUser | src/services/identity_service.py:30-40 | a (provider, subject) keeps resolving to the same user, whatever address it comes with, until that user is deleted |
| Identities.KnownSubjectLogsIn | src/services/identity_service.py:30-40 | a known subject logs in as its user, and only the login time changes |
| Identities.KnownAddressLogsIn | src/services/identity_service.py:42-52 | an unknown subject with the address of a user is linked to that user, who logs in |
| Identities.UnknownSubjectSignsUp | src/services/identity_service.py:45-57 | otherwise it becomes a new user with the given address or the made-up one, linked and logged in |
| Identities.EmailLogsIn | src/services/email_auth_service.py:62-72 | an email login logs in the owner of the address, or a new user with exactly that address |
| Identities.DeletionDeletes | src/models/oauth_identity.py:20-25 | deleting a user removes that user and the user's identities, and nothing else |
| Identities.DanglingRepairAlwaysFails | src/services/identity_service.py:33-38 | the repair branch can only roll back |
| Identities.SynthLoginFailsIffAddressTaken | src/services/identity_service.py:42-50 | a first login without an address fails iff its made-up address is taken |
| Identities.IdentityService.ResolveOrCreate | src/services/identity_service.py:27-52 | user and tables as specified in every branch, rolled back on a violated constraint |
| ApiKeys.FindPrefix | src/services/api_key_service.py:64-67 | the row with the prefix, or none exactly when no row has it |
| ApiKeys.RunKeepsInv | src/models/user_api_key.py:27 | in every table built by generating and deleting keys, ids and prefixes are unique and each prefix is that of its secret |
| ApiKeys.IndexedLookupEqualsScan | src/services/api_key_service.py:56-72 | for every such table and every presented string, the prefix lookup with one hash check returns precisely what a scan checking every hash finds |
| ApiKeys.GeneratedKeyVerifies | src/services/api_key_service.py:35-46 | a generated secret verifies to its own row as long as its owner does not delete that row |
| ApiKeys.GenerationStores | src/services/api_key_service.py:35-46 | generating adds exactly the new row at the end if its id and prefix are new, and otherwise nothing |
| ApiKeys.LabelKeepsTheTitle | src/services/api_key_service.py:42 | a missing or blank label gives way to the default, any other is kept without surrounding white space |
| ApiKeys.DeletedKeyIsGone | src/services/api_key_service.py:48-54 | after its owner has deleted a key no row with its id comes back and its secret does not verify to it, whatever follows |
| ApiKeys.ApiKeyService.Generate | src/services/api_key_service.py:35-46 | stored iff id and prefix are new, and then added at the end with the secret's own prefix |
| ApiKeys.ApiKeyService.DeleteForUser | src/services/api_key_service.py:48-54 | found iff the key exists and is the user's; then every row but that one stays, in order, and otherwise all do |
| LatestBalances.MaintainedIsNewest | src/repositories/balance_repo.py:35-51 | the incrementally maintained map holds exactly the currencies ever seen, each with its newest row |
| LatestBalances.QueryShowsMaintainedView | src/repositories/balance_repo.py:35-59 | for every log the ranked query returns, strictly sorted by currency, exactly the rows of that map |
| LatestBalances.QueryReturnsNewestPerCurrency | src/repositories/balance_repo.py:35-59 | a row is returned iff it is newer than every other row of its credential and currency by (observed_at, id) |
| LatestBalances.InsertionOrderDoesNotMatter | src/repositories/balance_repo.py:35-59 | two logs with the same rows give the same answer |
| Decimals.MulValue | src/api/routers/balances.py:79-80 | the exact product before rounding |
| Decimals.AddValue | src/api/routers/balances.py:79-80 | the exact sum before rounding, exponents aligned either way |
| Decimals.HalfEvenIsNearest | src/api/routers/balances.py:79-80 | rounding moves by at most half a unit, and by exactly half only to an even digit |
| Decimals.FixIsIdempotent | src/api/routers/balances.py:79-80 | a rounded value has at most 28 digits and rounds to itself |
| Decimals.FixError | src/api/routers/balances.py:79-80 | one rounding has a relative error of at most u = 0.5 * 10^-27 |
| Equity.TotalWithin | src/api/routers/balances.py:68-80 | the running total after n priced balances carries at most n roundings |
| Equity.EquityRoundingBound | src/api/routers/balances.py:61-90 | the reported equity lies within (1-u)^(n+1) and (1+u)^(n+1) of the exact sum of (free + used) * price over the n priced balances; the others count nothing |
| Equity.TotalsRoundingBound | src/api/routers/balances.py:79-80 | the free and the used total each lie within (1-u)^n and (1+u)^n of the exact sum of free * price and of used * price |
| Equity.BalancesSummary | src/api/routers/balances.py:33-95 | free total, used total and equity, each within its error bound of the exact sum over the holdings' own columns, all balances in order, and the latest observation |
| Valuation.StoresAreFaithful | src/api/routers/balances.py:49-76 | the rows of an account are exactly the newest of each currency of its credential, and each price is positive, 1 for USDT and absent for currencies that are not listed |
| Valuation.SummaryIsWorthOfLatest | src/api/routers/balances.py:49-90 | for any snapshot log and any run of price lookups, equity, free and used totals lie within their rounding bounds of the exact worth of those rows, and of their free and used columns, at the prices their lookups answered |

## Left out

- HTTP routing, request schemas, authentication tokens, metrics, logging and migrations.
- The exchange library, OAuth token exchange, the captcha, the mail service and the backtest process: their answers
  are inputs of the model.
- Process crashes, task cancellation and messages lost by Redis Pub/Sub.
- Credentials are constant: adding and removing them is not a step, and neither is deleting a user in the bot system
  (user deletion is modelled in `Identities`, for users and identities only).
- EmailCodes.KeyIdentifiesNormalEmail: text is ASCII; Unicode white space and case are not modelled.
- Currencies and exchange names are ASCII too, and currencies sort by code point.
- Column widths and the rounding of `Numeric(36, 18)` columns: stored amounts are exact, or NaN, which those columns
  accept. Infinite amounts are refused by them, which is one way for a step to be refused.
- EmailCodes.AcceptedIff: takes `verify` as one step, so two verifications racing between GET and SET are not modelled.
- Equity.EquityRoundingBound: amounts and prices are non-negative and decimal exponents are unbounded, so NaN,
  overflow, underflow and signed zeros are not modelled.
- Equity.BalancesSummary: takes each balance with the price its lookup gave (`Valuation` joins the two), and does not
  compute `open_pnl` and `position_count`, which sum recent snapshots rather than a latest view.
- PriceCache.EveryPriceHasASource: counts the 60 seconds from the cache write that ends a fetch, not from the moment
  the exchange quoted; prices are reals, so NaN and infinity are not modelled.
- PriceCache.PriceService.GetUsdtPrice: one call with nothing interleaved; interleavings are covered by the step model.
- RateLimiter.Limiter.CheckRateLimit: one check with nothing interleaved; interleavings are covered by the step model.
- Connections.ConnectionManager.BroadcastToUser: one broadcast with nothing interleaved, and one send at a time;
  interleavings are covered by the step model. Close codes and send timeouts are not modelled: a send succeeds or fails.
- Connections.OwnStepsMakeProgress: shows that steps shrink the work, not that the scheduler takes them.
- Backtests.BacktestService.ProcessJob: error texts are abbreviated; the config file and the cache path are left out,
  except that building them can fail.
- Backtests.RunKeepsPlaces: a commit that raises is taken not to have happened.
- Subscriber.Loop.Run: the loop is run for a given number of attempts; it has no end in the source.
- ApiKeys.ApiKeyService.Generate: the default label is a parameter, since it prints the date. Deleting a user's keys
  with the user is not modelled.
- Identities.RunKeepsInv: needs that no login presents an address of the reserved domain. Disabled users, roles and
  passwords are not modelled.
- The candles and symbols caches, two-factor setup and OAuth state.
