/** Whole runs of the control plane: HTTP requests to the bot service interleaved with engine messages,
    one transaction each, any of which may be refused or fail to commit. */
module System {
  import opened Prelude
  import opened Domain
  import BotCommands
  import Projector

  /** The committed database, the commands published so far and the broadcasts sent so far. */
  datatype World = World(db: Db, published: seq<Published>, sent: seq<Broadcast>)

  /** Refused: a statement of the transaction, or the publish call, raised.
      CommitFailed: everything ran, then the final commit raised. */
  datatype Outcome = Committed | Refused | CommitFailed

  datatype Step =
    | Request(request: BotCommands.Request, at: int, outcome: Outcome)
    | Message(message: EngineMessage, clock: Clock, outcome: Outcome)

  function ApplyRequest(w: World, s: Step): World
    requires s.Request?
  {
    var served := BotCommands.Serve(w.db, s.request, s.at);
    if s.outcome.Refused? || !served.reply.Done? then w
    else
      var published := w.published + if served.published.Some? then [served.published.value] else [];
      w.(db := if s.outcome.Committed? then served.db else w.db, published := published)
  }

  function ApplyMessage(w: World, s: Step): World
    requires s.Message?
  {
    var handled := Projector.Handle(w.db, s.message, s.clock);
    if s.outcome.Refused? || handled.None? then w
    else
      w.(db := if s.outcome.Committed? then handled.value.db else w.db,
         sent := w.sent + handled.value.broadcasts)
  }

  function Apply(w: World, s: Step): World {
    if s.Request? then ApplyRequest(w, s) else ApplyMessage(w, s)
  }

  /** The state after a whole run. */
  function Run(w: World, steps: seq<Step>): World {
    if steps == [] then w
    else Apply(Run(w, steps[..|steps| - 1]), steps[|steps| - 1])
  }

  /** An empty database with the given credentials. */
  function Fresh(credentials: map<Uuid, Uuid>): World {
    World(Db(map[], [], [], [], [], [], credentials), [], [])
  }

  lemma RunExtends(w: World, steps: seq<Step>, s: Step)
    ensures Run(w, steps + [s]) == Apply(Run(w, steps), s)
  {
  }

  /** Credentials are not touched by any step. */
  lemma {:induction false} CredentialsConstant(w: World, steps: seq<Step>)
    ensures Run(w, steps).db.credentials == w.db.credentials
  {
    if steps != [] {
      CredentialsConstant(w, steps[..|steps| - 1]);
    }
  }
}
