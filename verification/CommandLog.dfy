/** The command table against the commands published to the engine, over whole runs. */
module CommandLog {
  import opened Prelude
  import opened Domain
  import opened System
  import opened BotCommands
  import opened Projection

  /** The command table as wire messages, in insertion order. */
  function WireLog(commands: seq<Command>): seq<Published> {
    seq(|commands|, i requires 0 <= i < |commands| => OnWire(commands[i]))
  }

  // ---------- committed rows are a subsequence of the published messages ----------

  lemma {:induction false} DeletionKeepsSubsequence(commands: seq<Command>, published: seq<Published>, bot: Uuid)
    requires Subsequence(WireLog(commands), published)
    ensures Subsequence(WireLog(WithoutBot(commands, bot)), published)
    decreases |published|
  {
    if commands != [] {
      var n, p := |commands| - 1, |published| - 1;
      var log := WireLog(commands);
      var init := published[..p];
      assert published == init + [published[p]];
      assert log[..n] == WireLog(commands[..n]);
      if log[n] == published[p] && Subsequence(log[..n], init) {
        DeletionKeepsSubsequence(commands[..n], init, bot);
        var kept := WithoutBot(commands[..n], bot);
        SubsequenceGrows(WireLog(kept), init, published[p]);
        if commands[n].bot != bot {
          assert WireLog(kept + [commands[n]]) == WireLog(kept) + [published[p]];
        } else {
          assert WithoutBot(commands, bot) == kept;
        }
      } else {
        DeletionKeepsSubsequence(commands, init, bot);
        SubsequenceGrows(WireLog(WithoutBot(commands, bot)), init, published[p]);
      }
    }
  }

  /** The message that a command request must put on the wire: the flag or the parameters of the request for
      STOP and UPDATE, the stored fields of the bot for START. */
  function Announced(w: World, r: Request): Published
    requires r.IsCommand() && r.bot in w.db.bots
  {
    match r
    case Start(_, bot, commandId) =>
      var b := w.db.bots[bot];
      StartCommand(commandId, bot, b.strategy, b.symbol, b.timeframe, b.params, b.credential)
    case Stop(_, bot, commandId, closePositions) => StopCommand(commandId, bot, closePositions)
    case UpdateParams(_, bot, commandId, params) => UpdateCommand(commandId, bot, params)
  }

  /** What a served command does: one message, and on commit one row with the same content; no bot
      appears or disappears. */
  lemma CommandAppends(w: World, s: Step) returns (c: Command)
    requires IsCommand(s) && Apply(w, s) != w
    ensures c.commandId == s.request.commandId && c.bot == s.request.bot && c.bot in w.db.bots
    ensures c.body == match s.request
      case Start(_, bot, _) =>
        var b := w.db.bots[bot]; StartBody(b.strategy, b.symbol, b.timeframe, b.params, b.credential)
      case Stop(_, _, _, closePositions) => StopBody(closePositions)
      case UpdateParams(_, _, _, params) => UpdateBody(params)
    ensures OnWire(c) == Announced(w, s.request)
    ensures var after := Apply(w, s);
      && after.published == w.published + [OnWire(c)]
      && after.db.bots.Keys == w.db.bots.Keys
      && after.db.commands == if s.outcome.Committed? then w.db.commands + [c] else w.db.commands
  {
    c := Serve(w.db, s.request, s.at).db.commands[|w.db.commands|];
  }

  /** Exactly when a command goes out, and what goes out: the owner's request for an existing bot, with a new
      command id and in a status that allows it, and nothing refused.  Otherwise nothing changes at all. */
  lemma CommandGoesOutIff(w: World, s: Step)
    requires IsCommand(s)
    ensures var r, after := s.request, Apply(w, s);
      if && !s.outcome.Refused?
         && r.bot in w.db.bots && w.db.bots[r.bot].owner == r.user
         && (forall c | c in w.db.commands :: c.commandId != r.commandId)
         && (r.Start? ==> w.db.bots[r.bot].status in {Draft, Stopping, Stopped, Errored})
         && (r.Stop? ==> w.db.bots[r.bot].status in {Starting, Running, Stopping, Errored})
      then after.published == w.published + [Announced(w, r)]
      else after == w
  {
    CommandIdsMembership(w.db.commands, s.request.commandId);
    if Apply(w, s) != w {
      var c := CommandAppends(w, s);
    }
  }

  lemma LogExtends(commands: seq<Command>, c: Command)
    ensures WireLog(commands + [c]) == WireLog(commands) + [OnWire(c)]
  {
  }

  lemma DeletionStep(w: World, s: Step)
    requires s.Request? && s.request.Delete? && Apply(w, s) != w
    ensures var after := Apply(w, s);
      && after.published == w.published
      && (after.db == w.db ||
          (after.db.bots.Keys == w.db.bots.Keys - {s.request.bot}
           && after.db.commands == WithoutBot(w.db.commands, s.request.bot)))
      && (!s.outcome.CommitFailed? ==> after.db != w.db)
  {
  }

  lemma CreationStep(w: World, s: Step)
    requires s.Request? && s.request.Create? && Apply(w, s) != w
    ensures var after := Apply(w, s);
      && after.published == w.published && after.db.commands == w.db.commands
      && after.db.bots.Keys == w.db.bots.Keys + {s.request.bot}
  {
  }

  lemma MessageStep(w: World, s: Step)
    requires s.Message?
    ensures var after := Apply(w, s);
      && after.published == w.published && after.db.commands == w.db.commands
      && after.db.bots.Keys == w.db.bots.Keys
  {
  }

  lemma StepKeepsSubsequence(w: World, s: Step)
    requires Subsequence(WireLog(w.db.commands), w.published)
    ensures Subsequence(WireLog(Apply(w, s).db.commands), Apply(w, s).published)
  {
    if Apply(w, s) == w {
    } else if s.Message? {
      MessageStep(w, s);
    } else if s.request.Create? {
      CreationStep(w, s);
    } else if s.request.Delete? {
      DeletionStep(w, s);
      DeletionKeepsSubsequence(w.db.commands, w.published, s.request.bot);
    } else {
      var c := CommandAppends(w, s);
      SubsequenceGrows(WireLog(w.db.commands), w.published, OnWire(c));
      LogExtends(w.db.commands, c);
    }
  }

  /** Whatever commits fail and whichever bots are deleted, every committed command row has been
      published, in the order of the rows. */
  lemma {:induction false} RowsAreSubsequenceOfMessages(w: World, steps: seq<Step>)
    requires Subsequence(WireLog(w.db.commands), w.published)
    ensures Subsequence(WireLog(Run(w, steps).db.commands), Run(w, steps).published)
  {
    if steps != [] {
      RowsAreSubsequenceOfMessages(w, steps[..|steps| - 1]);
      StepKeepsSubsequence(Run(w, steps[..|steps| - 1]), steps[|steps| - 1]);
    }
  }

  // ---------- with successful commits, the rows are exactly the messages of living bots ----------

  /** The messages of the given bots, in order. */
  function OfBots(messages: seq<Published>, bots: set<Uuid>): seq<Published> {
    if messages == [] then []
    else
      var n := |messages| - 1;
      OfBots(messages[..n], bots) + if messages[n].bot in bots then [messages[n]] else []
  }

  lemma OfBotsExtends(messages: seq<Published>, m: Published, bots: set<Uuid>)
    ensures OfBots(messages + [m], bots) == OfBots(messages, bots) + if m.bot in bots then [m] else []
  {
  }

  lemma {:induction false} OfBotsIgnoresNewcomer(messages: seq<Published>, bots: set<Uuid>, id: Uuid)
    requires forall m | m in messages :: m.bot != id
    ensures OfBots(messages, bots + {id}) == OfBots(messages, bots)
  {
    if messages != [] {
      OfBotsIgnoresNewcomer(messages[..|messages| - 1], bots, id);
    }
  }

  lemma {:induction false} OfBotsAfterDeletion(
      commands: seq<Command>, messages: seq<Published>, bots: set<Uuid>, id: Uuid)
    requires WireLog(commands) == OfBots(messages, bots)
    ensures WireLog(WithoutBot(commands, id)) == OfBots(messages, bots - {id})
    decreases |messages|
  {
    if messages != [] {
      var k := |messages| - 1;
      var m := messages[k];
      if m.bot in bots {
        var n := |commands| - 1;
        assert WireLog(commands)[n] == m;
        assert WireLog(commands[..n]) == OfBots(messages[..k], bots) by {
          assert WireLog(commands) == OfBots(messages[..k], bots) + [m];
          assert WireLog(commands)[..n] == OfBots(messages[..k], bots);
          assert WireLog(commands[..n]) == WireLog(commands)[..n];
        }
        OfBotsAfterDeletion(commands[..n], messages[..k], bots, id);
        var kept := WithoutBot(commands[..n], id);
        if m.bot != id {
          assert WireLog(kept + [commands[n]]) == WireLog(kept) + [m];
        } else {
          assert WithoutBot(commands, id) == kept;
        }
      } else {
        OfBotsAfterDeletion(commands, messages[..k], bots, id);
      }
    }
  }

  predicate Creates(s: Step, id: Uuid) { s.Request? && s.request.Create? && s.request.bot == id }

  /** The ids drawn for bots are pairwise different. */
  ghost predicate FreshBots(steps: seq<Step>) {
    forall i, j | 0 <= i < j < |steps| && steps[j].Request? && steps[j].request.Create? ::
      !Creates(steps[i], steps[j].request.bot)
  }

  ghost predicate Created(steps: seq<Step>, id: Uuid) {
    exists i :: 0 <= i < |steps| && Creates(steps[i], id)
  }

  lemma CreatedGrows(steps: seq<Step>, id: Uuid)
    requires steps != [] && Created(steps[..|steps| - 1], id)
    ensures Created(steps, id)
  {
  }

  /** The bot exists or some published message names it. */
  ghost predicate Named(w: World, id: Uuid) {
    id in w.db.bots || exists m | m in w.published :: m.bot == id
  }

  lemma OnlyCreationNamesNewBots(w: World, s: Step, id: Uuid)
    requires Named(Apply(w, s), id)
    ensures Named(w, id) || Creates(s, id)
  {
  }

  /** Bots, and messages that name them, go back to a create request of the run. */
  lemma {:induction false} NamedBotsWereCreated(credentials: map<Uuid, Uuid>, steps: seq<Step>, id: Uuid)
    requires Named(Run(Fresh(credentials), steps), id)
    ensures Created(steps, id)
  {
    assert steps != [];
    var n := |steps| - 1;
    var before := Run(Fresh(credentials), steps[..n]);
    OnlyCreationNamesNewBots(before, steps[n], id);
    if Named(before, id) {
      NamedBotsWereCreated(credentials, steps[..n], id);
      CreatedGrows(steps, id);
    }
  }

  ghost predicate AllCommit(steps: seq<Step>) {
    forall s | s in steps :: s.Request? ==> !s.outcome.CommitFailed?
  }

  lemma CommandIsLogged(w: World, s: Step)
    requires WireLog(w.db.commands) == OfBots(w.published, w.db.bots.Keys)
    requires IsCommand(s) && !s.outcome.CommitFailed? && Apply(w, s) != w
    ensures WireLog(Apply(w, s).db.commands) == OfBots(Apply(w, s).published, Apply(w, s).db.bots.Keys)
  {
    var c := CommandAppends(w, s);
    LogExtends(w.db.commands, c);
    OfBotsExtends(w.published, OnWire(c), w.db.bots.Keys);
  }

  lemma StepKeepsLog(w: World, s: Step)
    requires WireLog(w.db.commands) == OfBots(w.published, w.db.bots.Keys)
    requires s.Request? ==> !s.outcome.CommitFailed?
    requires s.Request? && s.request.Create? ==> forall m | m in w.published :: m.bot != s.request.bot
    ensures WireLog(Apply(w, s).db.commands) == OfBots(Apply(w, s).published, Apply(w, s).db.bots.Keys)
  {
    if Apply(w, s) == w {
    } else if s.Message? {
      MessageStep(w, s);
    } else if s.request.Create? {
      CreationStep(w, s);
      OfBotsIgnoresNewcomer(w.published, w.db.bots.Keys, s.request.bot);
    } else if s.request.Delete? {
      DeletionStep(w, s);
      OfBotsAfterDeletion(w.db.commands, w.published, w.db.bots.Keys, s.request.bot);
    } else {
      CommandIsLogged(w, s);
    }
  }

  /** When every commit succeeds, the command table lists exactly the published messages of the bots that
      still exist: same ids, same content, same order. */
  lemma {:induction false} RowsAreMessagesOfLivingBots(credentials: map<Uuid, Uuid>, steps: seq<Step>)
    requires AllCommit(steps) && FreshBots(steps)
    ensures var w := Run(Fresh(credentials), steps);
            WireLog(w.db.commands) == OfBots(w.published, w.db.bots.Keys)
  {
    if steps != [] {
      var n := |steps| - 1;
      var s := steps[n];
      assert forall x | x in steps[..n] :: x in steps;
      RowsAreMessagesOfLivingBots(credentials, steps[..n]);
      if s.Request? && s.request.Create? {
        if Named(Run(Fresh(credentials), steps[..n]), s.request.bot) {
          NamedBotsWereCreated(credentials, steps[..n], s.request.bot);
        }
        forall i | 0 <= i < n ensures !Creates(steps[..n][i], s.request.bot) {
          assert steps[..n][i] == steps[i];
        }
      }
      StepKeepsLog(Run(Fresh(credentials), steps[..n]), s);
    }
  }

  // ---------- parameters ----------

  /** The parameters after a list of command rows, starting from `base`. */
  function Replayed(commands: seq<Command>, id: Uuid, base: Json): Json {
    if commands == [] then base
    else
      var n := |commands| - 1;
      if commands[n].bot == id && commands[n].body.UpdateBody? then commands[n].body.params
      else Replayed(commands[..n], id, base)
  }

  /** Each START row of the bot carries its fixed fields and the parameters replayed so far. */
  ghost predicate StartsFaithful(commands: seq<Command>, id: Uuid, base: Json, b: Bot) {
    commands == [] ||
    var n := |commands| - 1;
    && StartsFaithful(commands[..n], id, base, b)
    && (commands[n].bot == id && commands[n].body.StartBody? ==>
          commands[n].body == StartBody(b.strategy, b.symbol, b.timeframe,
                                        Replayed(commands[..n], id, base), b.credential))
  }

  /** The parameters the bot was created with. */
  function Origin(w: World, steps: seq<Step>, id: Uuid): Option<Json> {
    if steps == [] then None
    else
      var n := |steps| - 1;
      if Creates(steps[n], id) && id in Run(w, steps).db.bots && id !in Run(w, steps[..n]).db.bots
      then Some(steps[n].request.params)
      else Origin(w, steps[..n], id)
  }

  lemma {:induction false} ReplayIgnoresOtherBots(commands: seq<Command>, gone: Uuid, id: Uuid, base: Json, b: Bot)
    requires gone != id
    ensures Replayed(WithoutBot(commands, gone), id, base) == Replayed(commands, id, base)
    ensures StartsFaithful(commands, id, base, b) ==> StartsFaithful(WithoutBot(commands, gone), id, base, b)
  {
    if commands != [] {
      var n := |commands| - 1;
      ReplayIgnoresOtherBots(commands[..n], gone, id, base, b);
      var kept := WithoutBot(commands[..n], gone);
      if commands[n].bot != gone {
        assert (kept + [commands[n]])[..|kept|] == kept;
      } else {
        assert WithoutBot(commands, gone) == kept;
      }
    }
  }

  lemma {:induction false} NoRowsNothingToReplay(commands: seq<Command>, id: Uuid, base: Json, b: Bot)
    requires forall c | c in commands :: c.bot != id
    ensures Replayed(commands, id, base) == base && StartsFaithful(commands, id, base, b)
  {
    if commands != [] {
      NoRowsNothingToReplay(commands[..|commands| - 1], id, base, b);
    }
  }

  /** The foreign key of `bot_commands`. */
  lemma {:induction false} RowsNameExistingBots(credentials: map<Uuid, Uuid>, steps: seq<Step>)
    ensures var db := Run(Fresh(credentials), steps).db;
            forall c | c in db.commands :: c.bot in db.bots
  {
    if steps != [] {
      var n := |steps| - 1;
      RowsNameExistingBots(credentials, steps[..n]);
      if steps[n].Request? && steps[n].request.Delete? {
        SurvivorsWereThere(Run(Fresh(credentials), steps[..n]).db.commands, steps[n].request.bot);
      }
    }
  }

  ghost predicate SameIdentity(a: Bot, b: Bot) {
    a.strategy == b.strategy && a.symbol == b.symbol && a.timeframe == b.timeframe && a.credential == b.credential
  }

  lemma {:induction false} FaithfulDependsOnIdentity(commands: seq<Command>, id: Uuid, base: Json, a: Bot, b: Bot)
    requires SameIdentity(a, b) && StartsFaithful(commands, id, base, a)
    ensures StartsFaithful(commands, id, base, b)
  {
    if commands != [] {
      FaithfulDependsOnIdentity(commands[..|commands| - 1], id, base, a, b);
    }
  }

  /** The bot's row agrees with its command rows: they replay to its parameters, and each START row
      carries what they replay to at that point. */
  ghost predicate RowsExplain(db: Db, id: Uuid, base: Json)
    requires id in db.bots
  {
    && db.bots[id].params == Replayed(db.commands, id, base)
    && StartsFaithful(db.commands, id, base, db.bots[id])
  }

  lemma CommandKeepsExplanation(w: World, s: Step, id: Uuid, base: Json)
    requires IsCommand(s) && id in w.db.bots && RowsExplain(w.db, id, base)
    ensures id in Apply(w, s).db.bots && RowsExplain(Apply(w, s).db, id, base)
  {
    var before, after := w.db, Apply(w, s).db;
    if after != before {
      var c := after.commands[|before.commands|];
      assert after.commands == before.commands + [c];
      assert after.commands[..|before.commands|] == before.commands;
      FaithfulDependsOnIdentity(before.commands, id, base, before.bots[id], after.bots[id]);
    }
  }

  lemma MessageKeepsExplanation(w: World, s: Step, id: Uuid, base: Json)
    requires s.Message? && id in w.db.bots && RowsExplain(w.db, id, base)
    ensures id in Apply(w, s).db.bots && RowsExplain(Apply(w, s).db, id, base)
  {
    var before, after := w.db, Apply(w, s).db;
    assert after.commands == before.commands;
    assert id in after.bots && SameIdentity(before.bots[id], after.bots[id])
           && after.bots[id].params == before.bots[id].params;
    FaithfulDependsOnIdentity(before.commands, id, base, before.bots[id], after.bots[id]);
  }

  /** In every run, whatever fails: replaying a bot's UPDATE rows over its creation parameters yields the
      parameters in its row, and that is also what every START row carried at its time. */
  lemma {:induction false} RowsReplayToParams(credentials: map<Uuid, Uuid>, steps: seq<Step>, id: Uuid)
    ensures var w := Fresh(credentials); var db := Run(w, steps).db;
      id in db.bots ==> Origin(w, steps, id).Some? && RowsExplain(db, id, Origin(w, steps, id).value)
  {
    var w := Fresh(credentials);
    if steps != [] && id in Run(w, steps).db.bots {
      var n := |steps| - 1;
      var s := steps[n];
      var before := Run(w, steps[..n]);
      RowsReplayToParams(credentials, steps[..n], id);
      if id !in before.db.bots {
        assert Creates(s, id);
        RowsNameExistingBots(credentials, steps[..n]);
        NoRowsNothingToReplay(before.db.commands, id, s.request.params, Run(w, steps).db.bots[id]);
      } else if s.Message? {
        MessageKeepsExplanation(before, s, id, Origin(w, steps[..n], id).value);
      } else if IsCommand(s) {
        CommandKeepsExplanation(before, s, id, Origin(w, steps[..n], id).value);
      } else if s.request.Delete? && s.request.bot != id {
        var base := Origin(w, steps[..n], id).value;
        ReplayIgnoresOtherBots(before.db.commands, s.request.bot, id, base, before.db.bots[id]);
      }
    }
  }

  // ---------- what the engine has been told ----------

  /** The parameters an engine holds after receiving the messages, starting from `base`: those of the last
      UPDATE or, if a START replaces them too, of the last UPDATE or START. */
  function EngineView(messages: seq<Published>, id: Uuid, base: Json, restarts: bool := false): Json {
    if messages == [] then base
    else
      var n := |messages| - 1;
      if messages[n].bot == id && (messages[n].UpdateCommand? || (restarts && messages[n].StartCommand?))
      then messages[n].params
      else EngineView(messages[..n], id, base, restarts)
  }

  /** Each START message of the bot carries its fixed fields and the parameters told so far. */
  ghost predicate StartMessagesFaithful(messages: seq<Published>, id: Uuid, base: Json, b: Bot) {
    messages == [] ||
    var n := |messages| - 1;
    && StartMessagesFaithful(messages[..n], id, base, b)
    && (messages[n].bot == id && messages[n].StartCommand? ==>
          messages[n] == StartCommand(messages[n].commandId, id, b.strategy, b.symbol, b.timeframe,
                                      EngineView(messages[..n], id, base), b.credential))
  }

  lemma {:induction false} ViewOfOwnMessages(messages: seq<Published>, bots: set<Uuid>, id: Uuid, base: Json, b: Bot)
    requires id in bots
    ensures EngineView(OfBots(messages, bots), id, base) == EngineView(messages, id, base)
    ensures StartMessagesFaithful(OfBots(messages, bots), id, base, b) ==> StartMessagesFaithful(messages, id, base, b)
  {
    if messages != [] {
      var n := |messages| - 1;
      ViewOfOwnMessages(messages[..n], bots, id, base, b);
      var own := OfBots(messages[..n], bots);
      if messages[n].bot in bots {
        assert (own + [messages[n]])[..|own|] == own;
      } else {
        assert OfBots(messages, bots) == own;
      }
    }
  }

  lemma {:induction false} ViewOfWireLog(commands: seq<Command>, id: Uuid, base: Json, b: Bot)
    ensures EngineView(WireLog(commands), id, base) == Replayed(commands, id, base)
    ensures StartsFaithful(commands, id, base, b) ==> StartMessagesFaithful(WireLog(commands), id, base, b)
  {
    if commands != [] {
      var n := |commands| - 1;
      ViewOfWireLog(commands[..n], id, base, b);
      assert WireLog(commands)[..n] == WireLog(commands[..n]);
    }
  }

  // ---------- when engine and database disagree ----------

  /** The step is an accepted request of the bot: it publishes a command. */
  predicate Publishes(w: World, s: Step, id: Uuid) {
    IsCommand(s) && s.request.bot == id && !s.outcome.Refused? && Serve(w.db, s.request, s.at).reply.Done?
  }

  /** The last accepted parameter change of the bot failed to commit, and asked for other parameters than
      those stored at that moment; if a START replaces the engine's parameters, none was accepted since. */
  predicate Torn(w: World, steps: seq<Step>, id: Uuid, restarts: bool) {
    steps != [] &&
    var n := |steps| - 1;
    var before, s := Run(w, steps[..n]), steps[n];
    && id in before.db.bots
    && if Publishes(before, s, id) && s.request.UpdateParams? then
         s.outcome.CommitFailed? && s.request.params != before.db.bots[id].params
       else
         !(restarts && Publishes(before, s, id) && s.request.Start?) && Torn(w, steps[..n], id, restarts)
  }

  /** Engine and database agree on the bot. */
  predicate Agree(w: World, id: Uuid, base: Json, restarts: bool) {
    id in w.db.bots && EngineView(w.published, id, base, restarts) == w.db.bots[id].params
  }

  lemma ViewExtends(messages: seq<Published>, m: Published, id: Uuid, base: Json, restarts: bool)
    ensures EngineView(messages + [m], id, base, restarts) ==
            if m.bot == id && (m.UpdateCommand? || (restarts && m.StartCommand?)) then m.params
            else EngineView(messages, id, base, restarts)
  {
  }

  lemma {:induction false} ViewOfStrangers(messages: seq<Published>, id: Uuid, base: Json, restarts: bool)
    requires forall m | m in messages :: m.bot != id
    ensures EngineView(messages, id, base, restarts) == base
  {
    if messages != [] {
      ViewOfStrangers(messages[..|messages| - 1], id, base, restarts);
    }
  }

  /** Only an accepted, committed change of its own moves the parameters of a bot. */
  lemma ParamsAfterStep(w: World, s: Step, id: Uuid)
    requires id in w.db.bots && id in Apply(w, s).db.bots
    ensures Apply(w, s).db.bots[id].params ==
            if Publishes(w, s, id) && s.request.UpdateParams? && s.outcome.Committed? then s.request.params
            else w.db.bots[id].params
  {
  }

  /** What one step does to the agreement, whether it held before or not: an accepted change decides it, an
      accepted START restores it if it replaces the engine's parameters, and nothing else touches it. */
  lemma AgreementAfterStep(w: World, s: Step, id: Uuid, base: Json, restarts: bool)
    requires id in w.db.bots && id in Apply(w, s).db.bots
    ensures Agree(Apply(w, s), id, base, restarts) <==>
            if Publishes(w, s, id) && s.request.UpdateParams? then
              !(s.outcome.CommitFailed? && s.request.params != w.db.bots[id].params)
            else (restarts && Publishes(w, s, id) && s.request.Start?) || Agree(w, id, base, restarts)
  {
    ParamsAfterStep(w, s, id);
    if Apply(w, s) == w {
    } else if s.Message? {
      MessageStep(w, s);
    } else if s.request.Create? {
      CreationStep(w, s);
    } else if s.request.Delete? {
      DeletionStep(w, s);
    } else {
      var c := CommandAppends(w, s);
      ViewExtends(w.published, OnWire(c), id, base, restarts);
    }
  }

  /** A step that brings a bot into the database is its create request, and no message named it before. */
  lemma NewBotIsUnnamed(credentials: map<Uuid, Uuid>, steps: seq<Step>, id: Uuid)
    requires FreshBots(steps) && steps != []
    requires var w := Fresh(credentials);
      id in Run(w, steps).db.bots && id !in Run(w, steps[..|steps| - 1]).db.bots
    ensures var s := steps[|steps| - 1]; var before := Run(Fresh(credentials), steps[..|steps| - 1]);
      && Creates(s, id) && (forall m | m in before.published :: m.bot != id)
      && Apply(before, s).published == before.published && Apply(before, s).db.bots[id].params == s.request.params
  {
    var init, s := steps[..|steps| - 1], steps[|steps| - 1];
    var before := Run(Fresh(credentials), init);
    if s.Message? {
      MessageStep(before, s);
    } else if s.request.Create? {
      CreationStep(before, s);
    } else if s.request.Delete? {
      DeletionStep(before, s);
    } else {
      var c := CommandAppends(before, s);
    }
    forall i | 0 <= i < |init| ensures !Creates(init[i], id) {
      assert init[i] == steps[i];
    }
    if Named(before, id) {
      NamedBotsWereCreated(credentials, init, id);
    }
  }

  /** In every run, whatever fails: the engine holds the stored parameters of a bot if and only if the bot is
      not torn.  So a failed commit of a real change breaks the agreement, the next accepted change repairs
      it unless it is of that kind again, and nothing else matters. */
  lemma {:induction false} AgreementIffNotTorn(
      credentials: map<Uuid, Uuid>, steps: seq<Step>, id: Uuid, restarts: bool)
    requires FreshBots(steps) && id in Run(Fresh(credentials), steps).db.bots
    ensures var w := Fresh(credentials);
      && Origin(w, steps, id).Some?
      && (Agree(Run(w, steps), id, Origin(w, steps, id).value, restarts) <==> !Torn(w, steps, id, restarts))
  {
    var w := Fresh(credentials);
    assert steps != [];
    var init, s := steps[..|steps| - 1], steps[|steps| - 1];
    var before := Run(w, init);
    RowsReplayToParams(credentials, steps, id);
    if id in before.db.bots {
      AgreementIffNotTorn(credentials, init, id, restarts);
      AgreementAfterStep(before, s, id, Origin(w, init, id).value, restarts);
    } else {
      NewBotIsUnnamed(credentials, steps, id);
      ViewOfStrangers(before.published, id, s.request.params, restarts);
    }
  }

  lemma {:induction false} CommittedBotsAreNotTorn(w: World, steps: seq<Step>, id: Uuid, restarts: bool)
    requires AllCommit(steps)
    ensures !Torn(w, steps, id, restarts)
  {
    if steps != [] {
      assert steps[|steps| - 1] in steps && forall s | s in steps[..|steps| - 1] :: s in steps;
      CommittedBotsAreNotTorn(w, steps[..|steps| - 1], id, restarts);
    }
  }

  lemma StartMessagesWereFaithful(credentials: map<Uuid, Uuid>, steps: seq<Step>, id: Uuid, base: Json)
    requires AllCommit(steps) && FreshBots(steps) && id in Run(Fresh(credentials), steps).db.bots
    requires Origin(Fresh(credentials), steps, id) == Some(base)
    ensures var now := Run(Fresh(credentials), steps);
      StartMessagesFaithful(now.published, id, base, now.db.bots[id])
  {
    var now := Run(Fresh(credentials), steps);
    RowsReplayToParams(credentials, steps, id);
    RowsAreMessagesOfLivingBots(credentials, steps);
    ViewOfWireLog(now.db.commands, id, base, now.db.bots[id]);
    ViewOfOwnMessages(now.published, now.db.bots.Keys, id, base, now.db.bots[id]);
  }

  /** When every commit succeeds, an engine that has received all messages holds exactly the stored
      parameters of every bot, and every START message carried what the engine held at that time. */
  lemma EngineAgreesWithDatabase(credentials: map<Uuid, Uuid>, steps: seq<Step>, id: Uuid)
    requires AllCommit(steps) && FreshBots(steps) && id in Run(Fresh(credentials), steps).db.bots
    ensures var w := Fresh(credentials); var now := Run(w, steps); var origin := Origin(w, steps, id);
      && origin.Some?
      && Agree(now, id, origin.value, false) && Agree(now, id, origin.value, true)
      && StartMessagesFaithful(now.published, id, origin.value, now.db.bots[id])
  {
    AgreementIffNotTorn(credentials, steps, id, false);
    AgreementIffNotTorn(credentials, steps, id, true);
    CommittedBotsAreNotTorn(Fresh(credentials), steps, id, false);
    CommittedBotsAreNotTorn(Fresh(credentials), steps, id, true);
    StartMessagesWereFaithful(credentials, steps, id, Origin(Fresh(credentials), steps, id).value);
  }

  /** A run from the empty database that disagrees: the change to "b" is published and not stored. */
  lemma AgreementCanBeLost() returns (credentials: map<Uuid, Uuid>, steps: seq<Step>)
    ensures FreshBots(steps) && 9 in Run(Fresh(credentials), steps).db.bots
    ensures var w := Fresh(credentials);
      && Origin(w, steps, 9) == Some("a") && Torn(w, steps, 9, true)
      && EngineView(Run(w, steps).published, 9, "a", true) == "b" && Run(w, steps).db.bots[9].params == "a"
  {
    credentials := map[1 := 7];
    var none: seq<Step> := [];
    var create := Request(Create(7, 9, 1, "", "", "", "a"), 0, Committed);
    var change := Request(UpdateParams(7, 9, 100, "b"), 1, CommitFailed);
    var created := none + [create];
    steps := created + [change];
    RunExtends(Fresh(credentials), none, create);
    RunExtends(Fresh(credentials), created, change);
    assert steps[..1] == created && created[..0] == none;
    var c := CommandAppends(Run(Fresh(credentials), created), change);
    ViewExtends(Run(Fresh(credentials), created).published, OnWire(c), 9, "a", true);
  }
}
