/** The history of one bot in any interleaved run is the history of a small automaton that sees that
    bot's own events only. */
module Projection {
  import opened Prelude
  import opened Domain
  import opened System
  import BotCommands
  import Heartbeat
  import Projector

  function Lookup(t: BotTable, id: Uuid): Option<Bot> {
    if id in t then Some(t[id]) else None
  }

  /** The events of one bot: requests and engine messages that name it, and every heartbeat. */
  predicate Concerns(s: Step, id: Uuid) {
    match s
    case Request(r, _, _) => r.bot == id
    case Message(m, _, _) =>
      m.EngineStatus? || (m.StrategyFailed? && m.bot == BotId(id)) || (m.EngineLog? && m.started && m.bot == BotId(id))
  }

  function Own(steps: seq<Step>, id: Uuid): seq<Step> {
    if steps == [] then []
    else
      var s := steps[|steps| - 1];
      Own(steps[..|steps| - 1], id) + if Concerns(s, id) then [s] else []
  }

  /** The transition of one bot.  `credentials` says who owns which credential. */
  function AutoStep(credentials: map<Uuid, Uuid>, b: Option<Bot>, s: Step, id: Uuid): Option<Bot> {
    if !s.outcome.Committed? then b
    else if s.Request? then
      var r := s.request;
      if b.None? then
        if r.Create? && r.credential in credentials && credentials[r.credential] == r.user
        then Some(Bot(r.user, r.credential, r.strategy, r.symbol, r.timeframe, r.params, Draft, s.at))
        else None
      else if r.user != b.value.owner then b
      else
        match r
        case Start(_, _, _) =>
          if b.value.status in {Draft, Stopping, Stopped, Errored}
          then Some(b.value.(status := Starting, updatedAt := s.at)) else b
        case Stop(_, _, _, _) =>
          if b.value.status in {Starting, Running, Errored}
          then Some(b.value.(status := Stopping, updatedAt := s.at)) else b
        case UpdateParams(_, _, _, params) =>
          if params != b.value.params then Some(b.value.(params := params, updatedAt := s.at)) else b
        case Delete(_, _) => None
        case Create(_, _, _, _, _, _, _) => b
    else if b.None? then None
    else
      match s.message
      case StrategyFailed(_, _, _, _, _) => Some(b.value.(status := Errored, updatedAt := s.clock.first))
      case EngineLog(_, _) => Some(b.value.(status := Running, updatedAt := s.clock.first))
      case EngineStatus(active) =>
        if Projector.Readable(s.message)
        then Some(Heartbeat.BeatOne(b.value, ActiveId(id) in active.value, s.clock)) else b
      case _ => b
  }

  function AutoRun(credentials: map<Uuid, Uuid>, b: Option<Bot>, steps: seq<Step>, id: Uuid): Option<Bot> {
    if steps == [] then b
    else AutoStep(credentials, AutoRun(credentials, b, steps[..|steps| - 1], id), steps[|steps| - 1], id)
  }

  lemma AutoRunExtends(credentials: map<Uuid, Uuid>, b: Option<Bot>, steps: seq<Step>, s: Step, id: Uuid)
    ensures AutoRun(credentials, b, steps + [s], id)
         == AutoStep(credentials, AutoRun(credentials, b, steps, id), s, id)
  {
  }

  // ---------- fresh command ids ----------

  predicate IsCommand(s: Step) { s.Request? && s.request.IsCommand() }

  /** The ids drawn for commands are new and pairwise different. */
  ghost predicate FreshCommands(w: World, steps: seq<Step>) {
    && (forall i | 0 <= i < |steps| && IsCommand(steps[i]) ::
          steps[i].request.commandId !in BotCommands.CommandIds(w.db.commands))
    && (forall i, j | 0 <= i < j < |steps| && IsCommand(steps[i]) && IsCommand(steps[j]) ::
          steps[i].request.commandId != steps[j].request.commandId)
  }

  lemma {:induction false} SurvivorsWereThere(commands: seq<Command>, bot: Uuid)
    ensures forall c :: c in BotCommands.WithoutBot(commands, bot) <==> c in commands && c.bot != bot
  {
    if commands != [] {
      var n := |commands| - 1;
      SurvivorsWereThere(commands[..n], bot);
      assert commands == commands[..n] + [commands[n]];
    }
  }

  lemma CommandIdsMembership(commands: seq<Command>, id: Uuid)
    ensures id in BotCommands.CommandIds(commands) <==> exists c :: c in commands && c.commandId == id
  {
  }

  lemma StepAddsOwnRow(w: World, s: Step, c: Command)
    requires c in Apply(w, s).db.commands
    ensures c in w.db.commands || (IsCommand(s) && s.request.commandId == c.commandId)
  {
    if s.Request? && s.request.Delete? {
      SurvivorsWereThere(w.db.commands, s.request.bot);
    }
  }

  /** Every id in the command table was there at the start or belongs to a step of the run. */
  lemma {:induction false} CommandIdsComeFromSteps(w: World, steps: seq<Step>, c: Command)
    requires c in Run(w, steps).db.commands
    ensures c in w.db.commands ||
            exists i :: 0 <= i < |steps| && IsCommand(steps[i]) && steps[i].request.commandId == c.commandId
  {
    if steps != [] {
      var n := |steps| - 1;
      StepAddsOwnRow(Run(w, steps[..n]), steps[n], c);
      if c in Run(w, steps[..n]).db.commands {
        CommandIdsComeFromSteps(w, steps[..n], c);
      }
    }
  }

  /** In a run with fresh ids the unique constraint on command ids never fires. */
  lemma FreshIdIsNew(w: World, steps: seq<Step>, s: Step)
    requires FreshCommands(w, steps + [s]) && IsCommand(s)
    ensures s.request.commandId !in BotCommands.CommandIds(Run(w, steps).db.commands)
  {
    var all := steps + [s];
    assert all[|steps|] == s;
    forall i | 0 <= i < |steps| && IsCommand(steps[i])
      ensures steps[i].request.commandId != s.request.commandId
    {
      assert all[i] == steps[i];
    }
    CommandIdsMembership(Run(w, steps).db.commands, s.request.commandId);
    CommandIdsMembership(w.db.commands, s.request.commandId);
    if c :| c in Run(w, steps).db.commands && c.commandId == s.request.commandId {
      CommandIdsComeFromSteps(w, steps, c);
    }
  }

  // ---------- the projection theorem ----------

  lemma StepProjects(w: World, s: Step, id: Uuid)
    requires IsCommand(s) ==> s.request.commandId !in BotCommands.CommandIds(w.db.commands)
    ensures var before := Lookup(w.db.bots, id);
            Lookup(Apply(w, s).db.bots, id)
            == if Concerns(s, id) then AutoStep(w.db.credentials, before, s, id) else before
  {
    if s.Message? && s.message.EngineStatus? && Projector.Readable(s.message) {
      var refs := s.message.active.value;
      if ActiveId(id) in refs {
        var k :| 0 <= k < |refs| && refs[k] == ActiveId(id);
        assert refs[k].ActiveId?;
      }
      assert id in Heartbeat.ActiveIds(refs) <==> ActiveId(id) in refs;
    }
  }

  /** For every interleaved run and every bot, what the database holds for the bot is what the
      automaton reaches on the bot's own events. */
  lemma {:induction false} RunProjects(w: World, steps: seq<Step>, id: Uuid)
    requires FreshCommands(w, steps)
    ensures Lookup(Run(w, steps).db.bots, id)
         == AutoRun(w.db.credentials, Lookup(w.db.bots, id), Own(steps, id), id)
  {
    if steps != [] {
      var n := |steps| - 1;
      var s := steps[n];
      assert steps[..n] + [s] == steps;
      RunProjects(w, steps[..n], id);
      CredentialsConstant(w, steps[..n]);
      if IsCommand(s) {
        FreshIdIsNew(w, steps[..n], s);
      }
      StepProjects(Run(w, steps[..n]), s, id);
      if Concerns(s, id) {
        AutoRunExtends(w.db.credentials, Lookup(w.db.bots, id), Own(steps[..n], id), s, id);
      } else {
        assert Own(steps, id) == Own(steps[..n], id);
      }
    }
  }

  /** Two runs that agree on a bot's own events agree on the bot, whatever happens around it. */
  lemma OtherEventsDoNotMatter(w: World, left: seq<Step>, right: seq<Step>, id: Uuid)
    requires FreshCommands(w, left) && FreshCommands(w, right) && Own(left, id) == Own(right, id)
    ensures Lookup(Run(w, left).db.bots, id) == Lookup(Run(w, right).db.bots, id)
  {
    RunProjects(w, left, id);
    RunProjects(w, right, id);
  }

  // ---------- DRAFT ----------

  /** A bot that has left DRAFT never returns to it. */
  lemma {:induction false} DraftIsNeverReentered(w: World, steps: seq<Step>, id: Uuid)
    requires id in w.db.bots && !w.db.bots[id].status.Draft?
    requires forall s | s in steps :: !(s.Request? && s.request.Create? && s.request.bot == id)
    ensures id in Run(w, steps).db.bots ==> !Run(w, steps).db.bots[id].status.Draft?
  {
    if steps != [] {
      var n := |steps| - 1;
      DraftIsNeverReentered(w, steps[..n], id);
      assert steps[n] in steps;
      assert forall s | s in steps[..n] :: s in steps;
    }
  }

  predicate HasStartRow(commands: seq<Command>, id: Uuid) {
    exists c | c in commands :: c.bot == id && c.body.StartBody?
  }

  /** A processed strategy_error or strategy_started message naming the bot. */
  predicate NamesBot(s: Step, id: Uuid) {
    s.Message? && s.outcome.Committed? &&
    ((s.message.StrategyFailed? && s.message.bot == BotId(id)) ||
     (s.message.EngineLog? && s.message.started && s.message.bot == BotId(id)))
  }

  predicate NamedByEngine(steps: seq<Step>, id: Uuid) { exists s | s in steps :: NamesBot(s, id) }

  predicate LeftDraft(w: World, id: Uuid) { id in w.db.bots && !w.db.bots[id].status.Draft? }

  /** START rows of a bot live as long as the bot. */
  lemma StartRowSurvives(w: World, s: Step, id: Uuid)
    requires HasStartRow(w.db.commands, id) && id in w.db.bots && id in Apply(w, s).db.bots
    ensures HasStartRow(Apply(w, s).db.commands, id)
  {
    if s.Request? && s.request.Delete? {
      SurvivorsWereThere(w.db.commands, s.request.bot);
    }
    var c :| c in w.db.commands && c.bot == id && c.body.StartBody?;
    assert c in Apply(w, s).db.commands;
  }

  lemma DraftIsLeftByACause(w: World, s: Step, id: Uuid)
    requires !LeftDraft(w, id) && LeftDraft(Apply(w, s), id)
    ensures HasStartRow(Apply(w, s).db.commands, id) || NamesBot(s, id)
  {
  }

  /** Every bot that is not DRAFT has a START row, or the engine has named it. */
  lemma {:induction false} LeavingDraftHasACause(credentials: map<Uuid, Uuid>, steps: seq<Step>, id: Uuid)
    requires LeftDraft(Run(Fresh(credentials), steps), id)
    ensures HasStartRow(Run(Fresh(credentials), steps).db.commands, id) || NamedByEngine(steps, id)
  {
    assert steps != [];
    var n := |steps| - 1;
    var before := Run(Fresh(credentials), steps[..n]);
    assert steps[n] in steps && forall s | s in steps[..n] :: s in steps;
    if !LeftDraft(before, id) {
      DraftIsLeftByACause(before, steps[n], id);
    } else {
      LeavingDraftHasACause(credentials, steps[..n], id);
      if HasStartRow(before.db.commands, id) {
        StartRowSurvives(before, steps[n], id);
      }
    }
  }

  // ---------- runs of heartbeats ----------

  ghost predicate HeartbeatsOnly(steps: seq<Step>) {
    forall s | s in steps :: s.Message? && s.message.EngineStatus?
  }

  /** How many steps of the run changed the bot. */
  function ChangeCount(w: World, steps: seq<Step>, id: Uuid): nat {
    if steps == [] then 0
    else
      var n := |steps| - 1;
      var before := Run(w, steps[..n]);
      ChangeCount(w, steps[..n], id)
      + if Lookup(Apply(before, steps[n]).db.bots, id) != Lookup(before.db.bots, id) then 1 else 0
  }

  /** In any run of heartbeats, readable or not, committed or not, a bot changes at most as often as its rank
      falls, that is at most twice. */
  lemma {:induction false} HeartbeatRunsConverge(w: World, steps: seq<Step>, id: Uuid)
    requires HeartbeatsOnly(steps) && id in w.db.bots
    ensures id in Run(w, steps).db.bots
    ensures ChangeCount(w, steps, id) + Heartbeat.Rank(Run(w, steps).db.bots[id].status)
            <= Heartbeat.Rank(w.db.bots[id].status) <= 2
  {
    if steps != [] {
      var init, s := steps[..|steps| - 1], steps[|steps| - 1];
      assert s in steps && forall x | x in init :: x in steps;
      HeartbeatRunsConverge(w, init, id);
      var before := Run(w, init);
      StepProjects(before, s, id);
      if s.outcome.Committed? && Projector.Readable(s.message) {
        Heartbeat.WriteLowersRank(before.db.bots[id], ActiveId(id) in s.message.active.value, s.clock);
      }
    }
  }
}
