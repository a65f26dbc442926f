/** The two-minute startup timeout measured over whole runs: how `updated_at`, which every UPDATE moves,
    stands in for the time of the start call. */
module StartupTimeout {
  import opened Prelude
  import opened Domain
  import opened System
  import opened BotCommands
  import Heartbeat
  import Projector

  function Begin(s: Step): int { if s.Request? then s.at else s.clock.first }

  function End(s: Step): int { if s.Request? then s.at else s.clock.third }

  /** The clock never runs backwards, inside a transaction or from one to the next. */
  ghost predicate TimeOrdered(steps: seq<Step>) {
    && (forall i | 0 <= i < |steps| && steps[i].Message? :: steps[i].clock.Ordered())
    && (forall i, j | 0 <= i < j < |steps| :: End(steps[i]) <= Begin(steps[j]))
  }

  /** The step is a successful start call for the bot. */
  predicate Starts(w: World, s: Step, id: Uuid) {
    && s.Request? && s.outcome.Committed? && s.request.Start? && s.request.bot == id
    && Serve(w.db, s.request, s.at).reply.Done?
  }

  /** When the last committed start call for the bot succeeded. */
  function StartedAt(w: World, steps: seq<Step>, id: Uuid): Option<int> {
    if steps == [] then None
    else
      var n := |steps| - 1;
      var s := steps[n];
      if Starts(Run(w, steps[..n]), s, id) then Some(s.at)
      else StartedAt(w, steps[..n], id)
  }

  /** The step changes the parameters of the bot to different ones. */
  predicate Changes(w: World, s: Step, id: Uuid) {
    && s.Request? && s.outcome.Committed? && s.request.UpdateParams? && s.request.bot == id
    && Serve(w.db, s.request, s.at).reply.Done?
    && s.request.params != w.db.bots[id].params
  }

  /** When the bot's parameters were last changed. */
  function ChangedAt(w: World, steps: seq<Step>, id: Uuid): Option<int> {
    if steps == [] then None
    else
      var n := |steps| - 1;
      if Changes(Run(w, steps[..n]), steps[n], id) then Some(steps[n].at) else ChangedAt(w, steps[..n], id)
  }

  /** The later of a time and one that may be missing. */
  function Later(a: int, b: Option<int>): int { if b.Some? && b.value > a then b.value else a }

  /** What one step can do to a bot's clock column and to STARTING. */
  lemma StepBounds(w: World, s: Step, id: Uuid)
    requires id in Apply(w, s).db.bots && (s.Message? ==> s.clock.Ordered())
    ensures var b := Apply(w, s).db.bots[id];
      || (id in w.db.bots && b == w.db.bots[id])
      || (Begin(s) <= b.updatedAt <= End(s) &&
          (b.status.Starting? ==>
             || (id in w.db.bots && w.db.bots[id].status.Starting?)
             || Starts(w, s, id)))
  {
    if s.Message? {
      match s.message
      case EngineStatus(_) =>
      case EngineLog(_, _) =>
      case StrategyFailed(_, _, _, _, _) =>
      case _ =>
        assert Apply(w, s).db.bots == w.db.bots;
    }
  }

  /** `updated_at` is never in the future, and never older than the start call of a STARTING bot. */
  lemma {:induction false} UpdatedAtBounds(credentials: map<Uuid, Uuid>, steps: seq<Step>, id: Uuid)
    requires TimeOrdered(steps)
    ensures var w := Fresh(credentials); var bots := Run(w, steps).db.bots;
      id in bots ==>
        && steps != [] && bots[id].updatedAt <= End(steps[|steps| - 1])
        && (bots[id].status.Starting? ==>
              StartedAt(w, steps, id).Some? && StartedAt(w, steps, id).value <= bots[id].updatedAt)
  {
    var w := Fresh(credentials);
    if steps != [] && id in Run(w, steps).db.bots {
      var n := |steps| - 1;
      UpdatedAtBounds(credentials, steps[..n], id);
      StepBounds(Run(w, steps[..n]), steps[n], id);
      if n > 0 {
        assert End(steps[n - 1]) <= Begin(steps[n]);
      }
    }
  }

  /** A STARTING bot was made so by this step, had its parameters changed by it, or is untouched by it. */
  lemma StepStamps(w: World, s: Step, id: Uuid)
    requires id in Apply(w, s).db.bots && Apply(w, s).db.bots[id].status.Starting?
    ensures var b := Apply(w, s).db.bots[id];
      || (Starts(w, s, id) && b.updatedAt == s.at)
      || (!Starts(w, s, id) && Changes(w, s, id) && b.updatedAt == s.at &&
          id in w.db.bots && w.db.bots[id].status.Starting?)
      || (!Starts(w, s, id) && !Changes(w, s, id) && id in w.db.bots && b == w.db.bots[id])
  {
    if s.Message? {
      match s.message
      case EngineStatus(_) =>
      case EngineLog(_, _) =>
      case StrategyFailed(_, _, _, _, _) =>
      case _ =>
        assert Apply(w, s).db.bots == w.db.bots;
    }
  }

  /** Starts and changes lie in the past. */
  lemma {:induction false} ChangesArePast(w: World, steps: seq<Step>, id: Uuid)
    requires TimeOrdered(steps)
    ensures StartedAt(w, steps, id).Some? ==>
              steps != [] && StartedAt(w, steps, id).value <= End(steps[|steps| - 1])
    ensures ChangedAt(w, steps, id).Some? ==>
              steps != [] && ChangedAt(w, steps, id).value <= End(steps[|steps| - 1])
  {
    if steps != [] {
      var n := |steps| - 1;
      ChangesArePast(w, steps[..n], id);
      assert steps[n].Message? ==> steps[n].clock.Ordered();
      if n > 0 {
        assert End(steps[n - 1]) <= Begin(steps[n]);
      }
    }
  }

  /** The column of a STARTING bot is exactly the later of its start call and its last effective parameter
      change. */
  lemma {:induction false} UpdatedAtIsLastChange(credentials: map<Uuid, Uuid>, steps: seq<Step>, id: Uuid)
    requires TimeOrdered(steps)
    requires id in Run(Fresh(credentials), steps).db.bots
    requires Run(Fresh(credentials), steps).db.bots[id].status.Starting?
    ensures var w := Fresh(credentials);
      && StartedAt(w, steps, id).Some?
      && Run(w, steps).db.bots[id].updatedAt == Later(StartedAt(w, steps, id).value, ChangedAt(w, steps, id))
  {
    var w := Fresh(credentials);
    assert steps != [];
    var n := |steps| - 1;
    var s := steps[n];
    StepStamps(Run(w, steps[..n]), s, id);
    ChangesArePast(w, steps[..n], id);
    if n > 0 {
      assert End(steps[n - 1]) <= Begin(s);
    }
    if !Starts(Run(w, steps[..n]), s, id) {
      UpdatedAtIsLastChange(credentials, steps[..n], id);
    }
  }

  /** A committed, readable heartbeat declares a startup failure exactly for the STARTING bots it does
      not report and that nothing has updated for more than two minutes. */
  lemma TimeoutIff(w: World, beat: Step, id: Uuid)
    requires id in w.db.bots && !w.db.bots[id].status.Errored?
    requires beat.Message? && beat.message.EngineStatus? && beat.outcome.Committed? && Projector.Readable(beat.message)
    ensures Apply(w, beat).db.bots[id].status.Errored? <==>
            (w.db.bots[id].status.Starting? && ActiveId(id) !in beat.message.active.value &&
             w.db.bots[id].updatedAt + 120_000_000 < beat.clock.third)
  {
  }

  /** Once more than two minutes have passed since the start call, a committed heartbeat that does not
      report the bot is on time, that is, moves it to ERROR, iff its parameters have not effectively changed
      within the last two minutes. */
  lemma TimeoutIsOnTimeIff(credentials: map<Uuid, Uuid>, steps: seq<Step>, beat: Step, id: Uuid)
    requires TimeOrdered(steps)
    requires id in Run(Fresh(credentials), steps).db.bots
    requires Run(Fresh(credentials), steps).db.bots[id].status.Starting?
    requires beat.Message? && beat.message.EngineStatus? && beat.outcome.Committed? && Projector.Readable(beat.message)
    requires ActiveId(id) !in beat.message.active.value
    requires var started := StartedAt(Fresh(credentials), steps, id);
      started.Some? ==> beat.clock.third - started.value > 120_000_000
    ensures var w := Fresh(credentials); var changed := ChangedAt(w, steps, id);
      Apply(Run(w, steps), beat).db.bots[id].status.Errored? <==>
        (changed.None? || beat.clock.third - changed.value > 120_000_000)
  {
    UpdatedAtIsLastChange(credentials, steps, id);
    TimeoutIff(Run(Fresh(credentials), steps), beat, id);
  }

  /** A heartbeat declares a startup failure only when strictly more than two minutes have passed since
      the start call that made the bot STARTING. */
  lemma TimeoutIsNeverEarly(credentials: map<Uuid, Uuid>, steps: seq<Step>, beat: Step, id: Uuid)
    requires TimeOrdered(steps + [beat])
    requires beat.Message? && beat.message.EngineStatus?
    requires var w := Fresh(credentials);
      && id in Run(w, steps).db.bots && !Run(w, steps).db.bots[id].status.Errored?
      && id in Run(w, steps + [beat]).db.bots && Run(w, steps + [beat]).db.bots[id].status.Errored?
    ensures var started := StartedAt(Fresh(credentials), steps, id);
      started.Some? && beat.clock.third - started.value > 120_000_000
  {
    var w := Fresh(credentials);
    RunExtends(w, steps, beat);
    forall i, j | 0 <= i < j < |steps| ensures End(steps[i]) <= Begin(steps[j]) {
      assert (steps + [beat])[i] == steps[i] && (steps + [beat])[j] == steps[j];
    }
    forall i | 0 <= i < |steps| && steps[i].Message? ensures steps[i].clock.Ordered() {
      assert (steps + [beat])[i] == steps[i];
    }
    UpdatedAtBounds(credentials, steps, id);
  }

  /** Changing the parameters of a STARTING bot restarts its two minutes. */
  lemma ParamsChangePostponesTimeout(w: World, change: Step, beat: Step, id: Uuid)
    requires id in w.db.bots && w.db.bots[id].status.Starting?
    requires change.Request? && change.outcome.Committed? && change.request.UpdateParams? && change.request.bot == id
    requires change.request.params != w.db.bots[id].params
    requires Serve(w.db, change.request, change.at).reply.Done?
    requires beat.Message? && beat.message.EngineStatus? && beat.clock.third <= change.at + 120_000_000
    ensures !Apply(Apply(w, change), beat).db.bots[id].status.Errored?
  {
  }

  // ---------- a late timeout ----------

  const EXAMPLE_CREATE := Request(Create(7, 9, 1, "", "", "", ""), 0, Committed)
  const EXAMPLE_START := Request(Start(7, 9, 100), 0, Committed)
  const EXAMPLE_CHANGE := Request(UpdateParams(7, 9, 101, "b"), 100_000_000, Committed)
  const EXAMPLE_BEAT := Message(EngineStatus(Some([])), Clock(200_000_000, 200_000_000, 200_000_000), Committed)

  lemma ExampleStarts()
    ensures var db := Apply(Apply(Fresh(map[1 := 7]), EXAMPLE_CREATE), EXAMPLE_START).db;
      && db.bots == map[9 := Bot(7, 1, "", "", "", "", Starting, 0)]
      && db.commands == [Command(100, 9, StartBody("", "", "", "", 1))]
    ensures Serve(Apply(Fresh(map[1 := 7]), EXAMPLE_CREATE).db, EXAMPLE_START.request, 0).reply.Done?
  {
  }

  lemma ExampleStaysStarting(w: World)
    requires w.db.bots == map[9 := Bot(7, 1, "", "", "", "", Starting, 0)]
    requires w.db.commands == [Command(100, 9, StartBody("", "", "", "", 1))]
    ensures var bots := Apply(Apply(w, EXAMPLE_CHANGE), EXAMPLE_BEAT).db.bots;
      9 in bots && bots[9].status.Starting?
  {
  }

  lemma ThreeSteps(w: World, a: Step, b: Step, c: Step)
    ensures Run(w, [a]) == Apply(w, a)
    ensures Run(w, [a, b]) == Apply(Apply(w, a), b)
    ensures Run(w, [a, b, c]) == Apply(Apply(Apply(w, a), b), c)
  {
    assert [a, b, c][..2] == [a, b] && [a, b][..1] == [a] && [a][..0] == [];
  }

  /** So the converse of `TimeoutIsNeverEarly` fails: 200 s after the start call this bot is still
      STARTING, because its parameters changed after 100 s. */
  lemma TimeoutCanBeLate()
    ensures var w, steps := Fresh(map[1 := 7]), [EXAMPLE_CREATE, EXAMPLE_START, EXAMPLE_CHANGE];
      && TimeOrdered(steps + [EXAMPLE_BEAT])
      && StartedAt(w, steps, 9) == Some(0)
      && EXAMPLE_BEAT.clock.third - 0 > 120_000_000
      && 9 in Run(w, steps + [EXAMPLE_BEAT]).db.bots && Run(w, steps + [EXAMPLE_BEAT]).db.bots[9].status.Starting?
  {
    var w, steps := Fresh(map[1 := 7]), [EXAMPLE_CREATE, EXAMPLE_START, EXAMPLE_CHANGE];
    ExampleStarts();
    ThreeSteps(w, EXAMPLE_CREATE, EXAMPLE_START, EXAMPLE_CHANGE);
    ExampleStaysStarting(Run(w, [EXAMPLE_CREATE, EXAMPLE_START]));
    RunExtends(w, steps, EXAMPLE_BEAT);
    assert steps[..2] == [EXAMPLE_CREATE, EXAMPLE_START];
    assert steps[..2][..1] == [EXAMPLE_CREATE];
  }
}
