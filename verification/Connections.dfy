/** The WebSocket registry (`ws_manager.py`) at lock granularity: connect, disconnect, snapshot and
    close_all are atomic, sends happen outside the lock, and a failed send later takes the lock again to
    remove its socket.  Any number of broadcasts are in flight at once. */
module Connections {
  import opened Prelude

  type Socket = nat

  type Registry = map<Uuid, set<Socket>>

  datatype Peer = Peer(user: Uuid, socket: Socket)

  function SocketsOf(r: Registry, user: Uuid): set<Socket> {
    if user in r then r[user] else {}
  }

  predicate Registered(r: Registry, p: Peer) { p.socket in SocketsOf(r, p.user) }

  function Joined(r: Registry, user: Uuid, ws: Socket): Registry {
    r[user := SocketsOf(r, user) + {ws}]
  }

  /** A user is forgotten together with the last socket. */
  function Left(r: Registry, user: Uuid, ws: Socket): Registry {
    var rest := SocketsOf(r, user) - {ws};
    if rest == {} then r - {user} else r[user := rest]
  }

  function PeersOf(r: Registry, user: Uuid): set<Peer> {
    set ws | ws in SocketsOf(r, user) :: Peer(user, ws)
  }

  function AllPeers(r: Registry): set<Peer> {
    set user, ws | user in r && ws in r[user] :: Peer(user, ws)
  }

  // ---------- the protocol ----------

  /** A broadcast in flight.  Each peer of the snapshot waits for its send, then has either accepted the
      message, or failed and later been removed.  `attempts` lists the sends in order. */
  datatype Sending = Sending(
    snapshot: set<Peer>, waiting: set<Peer>, accepted: set<Peer>, failed: set<Peer>, removed: set<Peer>,
    attempts: seq<Peer>)
  {
    predicate Complete() { waiting == {} && failed == {} }
  }

  /** `known` records every socket that has ever connected. */
  datatype State = State(registry: Registry, sendings: map<nat, Sending>, known: set<Socket>)

  const INITIAL := State(map[], map[], {})

  datatype Event =
    | Connect(user: Uuid, socket: Socket)
    | Disconnect(user: Uuid, socket: Socket)
    | BroadcastToUser(id: nat, user: Uuid)
    | BroadcastAll(id: nat)
    | Accept(id: nat, peer: Peer)
    | Fail(id: nat, peer: Peer)
    | Remove(id: nat, peer: Peer)
    | CloseAll

  /** The peers a broadcast event addresses. */
  function Audience(r: Registry, e: Event): set<Peer>
    requires e.BroadcastToUser? || e.BroadcastAll?
  {
    if e.BroadcastAll? then AllPeers(r) else PeersOf(r, e.user)
  }

  function Begin(s: State, e: Event): State
    requires e.BroadcastToUser? || e.BroadcastAll?
  {
    var peers := Audience(s.registry, e);
    if e.id in s.sendings then s
    else s.(sendings := s.sendings[e.id := Sending(peers, peers, {}, {}, {}, [])])
  }

  function Step(s: State, e: Event): State {
    match e
    case Connect(user, ws) => s.(registry := Joined(s.registry, user, ws), known := s.known + {ws})
    case Disconnect(user, ws) => s.(registry := Left(s.registry, user, ws))
    case BroadcastToUser(_, _) => Begin(s, e)
    case BroadcastAll(_) => Begin(s, e)
    case Accept(id, p) =>
      if id !in s.sendings || p !in s.sendings[id].waiting then s
      else
        var b := s.sendings[id];
        s.(sendings := s.sendings[id := b.(waiting := b.waiting - {p}, accepted := b.accepted + {p},
                                          attempts := b.attempts + [p])])
    case Fail(id, p) =>
      if id !in s.sendings || p !in s.sendings[id].waiting then s
      else
        var b := s.sendings[id];
        s.(sendings := s.sendings[id := b.(waiting := b.waiting - {p}, failed := b.failed + {p},
                                          attempts := b.attempts + [p])])
    case Remove(id, p) =>
      if id !in s.sendings || p !in s.sendings[id].failed then s
      else
        var b := s.sendings[id];
        s.(registry := Left(s.registry, p.user, p.socket),
           sendings := s.sendings[id := b.(failed := b.failed - {p}, removed := b.removed + {p})])
    case CloseAll => s.(registry := map[])
  }

  function Run(events: seq<Event>): State {
    if events == [] then INITIAL
    else Step(Run(events[..|events| - 1]), events[|events| - 1])
  }

  /** The endpoint registers each accepted socket once. */
  ghost predicate SocketsConnectOnce(events: seq<Event>) {
    forall i, j | 0 <= i < j < |events| && events[i].Connect? && events[j].Connect? ::
      events[i].socket != events[j].socket
  }

  // ---------- the invariant ----------

  ghost predicate RegistryInv(r: Registry, known: set<Socket>) {
    forall user | user in r :: r[user] != {} && r[user] <= known
  }

  /** Each peer of the snapshot is in exactly one place, and has been attempted once unless it waits. */
  ghost predicate Accounted(b: Sending) {
    && b.snapshot == b.waiting + b.accepted + b.failed + b.removed
    && b.waiting !! b.accepted !! b.failed !! b.removed
    && (forall p :: p in b.attempts <==> p in b.snapshot && p !in b.waiting)
    && (forall i, j | 0 <= i < j < |b.attempts| :: b.attempts[i] != b.attempts[j])
  }

  ghost predicate SendingInv(b: Sending, r: Registry, known: set<Socket>) {
    && Accounted(b)
    && (forall p | p in b.snapshot :: p.socket in known)
    && (forall p | p in b.removed :: !Registered(r, p))
  }

  ghost predicate Inv(s: State) {
    && RegistryInv(s.registry, s.known)
    && forall id | id in s.sendings :: SendingInv(s.sendings[id], s.registry, s.known)
  }

  /** Accepted and failed sends change one broadcast only. */
  lemma AttemptKeepsInv(s: State, e: Event)
    requires Inv(s) && (e.Accept? || e.Fail?)
    ensures Inv(Step(s, e))
  {
  }

  lemma RemovalKeepsInv(s: State, e: Event)
    requires Inv(s) && e.Remove?
    ensures Inv(Step(s, e))
  {
  }

  /** Connect, disconnect and close_all leave the broadcasts alone. */
  lemma RegistryStepKeepsInv(s: State, e: Event)
    requires Inv(s) && (e.Connect? || e.Disconnect? || e.CloseAll?) && (e.Connect? ==> e.socket !in s.known)
    ensures Inv(Step(s, e))
  {
  }

  lemma BeginKeepsInv(s: State, e: Event)
    requires Inv(s) && (e.BroadcastToUser? || e.BroadcastAll?)
    ensures Inv(Step(s, e))
  {
  }

  lemma StepKeepsInv(s: State, e: Event)
    requires Inv(s) && (e.Connect? ==> e.socket !in s.known)
    ensures Inv(Step(s, e))
  {
    match e
    case Accept(_, _) => AttemptKeepsInv(s, e);
    case Fail(_, _) => AttemptKeepsInv(s, e);
    case Remove(_, _) => RemovalKeepsInv(s, e);
    case BroadcastToUser(_, _) => BeginKeepsInv(s, e);
    case BroadcastAll(_) => BeginKeepsInv(s, e);
    case _ => RegistryStepKeepsInv(s, e);
  }

  /** Only Connect events make sockets known. */
  lemma {:induction false} KnownSocketsConnected(events: seq<Event>, ws: Socket)
    requires ws in Run(events).known
    ensures exists i :: 0 <= i < |events| && events[i].Connect? && events[i].socket == ws
  {
    var n := |events| - 1;
    if ws in Run(events[..n]).known {
      KnownSocketsConnected(events[..n], ws);
      var i :| 0 <= i < n && events[..n][i].Connect? && events[..n][i].socket == ws;
      assert events[i].Connect?;
    } else {
      assert events[n].Connect?;
    }
  }

  /** The invariant holds after every interleaving. */
  lemma {:induction false} RunKeepsInv(events: seq<Event>)
    requires SocketsConnectOnce(events)
    ensures Inv(Run(events))
  {
    if events != [] {
      var n := |events| - 1;
      RunKeepsInv(events[..n]);
      if events[n].Connect? && events[n].socket in Run(events[..n]).known {
        KnownSocketsConnected(events[..n], events[n].socket);
      }
      StepKeepsInv(Run(events[..n]), events[n]);
    }
  }

  // ---------- the theorems ----------

  /** What holds however often a socket connects. */
  ghost predicate WeakInv(s: State) {
    && (forall user | user in s.registry :: s.registry[user] != {})
    && (forall id | id in s.sendings :: Accounted(s.sendings[id]))
  }

  lemma {:induction false} RunKeepsWeakInv(events: seq<Event>)
    ensures WeakInv(Run(events))
  {
    if events != [] {
      RunKeepsWeakInv(events[..|events| - 1]);
    }
  }

  /** In every interleaving, no user is ever mapped to an empty set of sockets. */
  lemma NoUserWithoutSocket(events: seq<Event>, user: Uuid)
    ensures user in Run(events).registry ==> Run(events).registry[user] != {}
  {
    RunKeepsWeakInv(events);
  }

  lemma {:induction false} OccursOnce<T>(s: seq<T>, x: T)
    requires x in s && forall i, j | 0 <= i < j < |s| :: s[i] != s[j]
    ensures multiset(s)[x] == 1
  {
    var n := |s| - 1;
    assert s == s[..n] + [s[n]];
    if x == s[n] {
      assert x !in s[..n];
    } else {
      OccursOnce(s[..n], x);
    }
  }

  /** In every interleaving, a broadcast has attempted peers of its snapshot only, each at most once; when it
      is complete, each exactly once. */
  lemma AttemptedOnce(events: seq<Event>, id: nat)
    requires id in Run(events).sendings
    ensures var b := Run(events).sendings[id];
      && (forall p | p in b.attempts :: p in b.snapshot && multiset(b.attempts)[p] == 1)
      && (b.Complete() ==> forall p | p in b.snapshot :: multiset(b.attempts)[p] == 1)
  {
    RunKeepsWeakInv(events);
    var b := Run(events).sendings[id];
    forall p | p in b.attempts ensures multiset(b.attempts)[p] == 1 {
      OccursOnce(b.attempts, p);
    }
  }

  /** If sockets connect once: when a broadcast is complete, every peer of its snapshot has accepted the
      message or is not registered. */
  lemma BroadcastOutcome(events: seq<Event>, id: nat)
    requires SocketsConnectOnce(events) && id in Run(events).sendings && Run(events).sendings[id].Complete()
    ensures var s := Run(events); var b := s.sendings[id];
      forall p | p in b.snapshot :: p in b.accepted || !Registered(s.registry, p)
  {
    RunKeepsInv(events);
    var s := Run(events);
    assert SendingInv(s.sendings[id], s.registry, s.known);
  }

  /** The event takes the peer out of the registry. */
  predicate Leaves(s: State, e: Event, p: Peer) {
    match e
    case Disconnect(user, ws) => user == p.user && ws == p.socket
    case Remove(id, q) => q == p && id in s.sendings && p in s.sendings[id].failed
    case CloseAll => true
    case _ => false
  }

  /** The peer has connected in the run and not left since. */
  predicate Present(events: seq<Event>, p: Peer) {
    events != [] &&
    var n := |events| - 1;
    var e := events[n];
    if e.Connect? && e.user == p.user && e.socket == p.socket then true
    else Present(events[..n], p) && !Leaves(Run(events[..n]), e, p)
  }

  /** In every interleaving, exactly the sockets that have connected and not left since are registered, each
      for the user it connected for. */
  lemma {:induction false} RegisteredIffPresent(events: seq<Event>, p: Peer)
    ensures Registered(Run(events).registry, p) <==> Present(events, p)
  {
    if events != [] {
      RegisteredIffPresent(events[..|events| - 1], p);
    }
  }

  /** The snapshot of a broadcast is its audience when it began: the sockets present then, of the addressed user
      only if it addresses one.  Nobody else is ever sent the message. */
  lemma {:induction false} SnapshotIsAudience(events: seq<Event>, id: nat) returns (k: nat)
    requires id in Run(events).sendings
    ensures k < |events| && (events[k].BroadcastToUser? || events[k].BroadcastAll?) && events[k].id == id
    ensures forall p :: p in Run(events).sendings[id].snapshot <==>
              Present(events[..k], p) && (events[k].BroadcastToUser? ==> p.user == events[k].user)
  {
    var n := |events| - 1;
    if id in Run(events[..n]).sendings {
      k := SnapshotIsAudience(events[..n], id);
      assert events[..n][..k] == events[..k];
    } else {
      k := n;
      forall p ensures Registered(Run(events[..n]).registry, p) <==> Present(events[..n], p) {
        RegisteredIffPresent(events[..n], p);
      }
    }
  }

  /** A broadcast is under way exactly if it has been asked for. */
  lemma {:induction false} UnderWayIffAsked(events: seq<Event>, id: nat)
    ensures id in Run(events).sendings <==>
            exists k | 0 <= k < |events| ::
              (events[k].BroadcastToUser? || events[k].BroadcastAll?) && events[k].id == id
  {
    if events != [] {
      var n := |events| - 1;
      UnderWayIffAsked(events[..n], id);
      assert forall k | 0 <= k < n :: events[..n][k] == events[k];
    }
  }

  /** How the first attempt to send to the peer went, once the broadcast was under way. */
  function FirstAttempt(events: seq<Event>, id: nat, p: Peer): Option<bool> {
    if events == [] then None
    else
      var n := |events| - 1;
      var earlier, e := FirstAttempt(events[..n], id, p), events[n];
      if earlier.Some? || id !in Run(events[..n]).sendings then earlier
      else if e == Accept(id, p) then Some(true)
      else if e == Fail(id, p) then Some(false)
      else None
  }

  /** The peer has been removed since its first attempt failed. */
  predicate RemovedAfterwards(events: seq<Event>, id: nat, p: Peer) {
    events != [] &&
    var n := |events| - 1;
    RemovedAfterwards(events[..n], id, p) ||
    (FirstAttempt(events[..n], id, p) == Some(false) && events[n] == Remove(id, p))
  }

  lemma {:induction false} RemovedAfterFailure(events: seq<Event>, id: nat, p: Peer)
    requires RemovedAfterwards(events, id, p)
    ensures FirstAttempt(events, id, p) == Some(false)
  {
    var n := |events| - 1;
    if RemovedAfterwards(events[..n], id, p) {
      RemovedAfterFailure(events[..n], id, p);
    }
  }

  lemma {:induction false} NothingBeforeTheBroadcast(events: seq<Event>, id: nat, p: Peer)
    requires id !in Run(events).sendings
    ensures FirstAttempt(events, id, p) == None && !RemovedAfterwards(events, id, p)
  {
    if events != [] {
      NothingBeforeTheBroadcast(events[..|events| - 1], id, p);
    }
  }

  /** Where a peer stands in a broadcast, given how its first attempt went and whether it was removed since. */
  predicate StandsAs(b: Sending, p: Peer, first: Option<bool>, removed: bool) {
    if p in b.snapshot then
      && (p in b.waiting <==> first == None)
      && (p in b.accepted <==> first == Some(true))
      && (p in b.failed <==> first == Some(false) && !removed)
      && (p in b.removed <==> first == Some(false) && removed)
    else p !in b.waiting && p !in b.accepted && p !in b.failed && p !in b.removed
  }

  lemma StepStandsAs(s: State, e: Event, id: nat, p: Peer, first: Option<bool>, removed: bool)
    requires id in s.sendings && StandsAs(s.sendings[id], p, first, removed)
    requires removed ==> first == Some(false)
    ensures id in Step(s, e).sendings
    ensures StandsAs(
      Step(s, e).sendings[id], p,
      if first.Some? then first
      else if e == Accept(id, p) then Some(true)
      else if e == Fail(id, p) then Some(false)
      else None,
      removed || (first == Some(false) && e == Remove(id, p)))
  {
  }

  /** In every interleaving, a peer of the snapshot waits until it is attempted, and then stands as its first
      attempt went: accepted, or failed and later removed. */
  lemma {:induction false} PeersStandAsAttempted(events: seq<Event>, id: nat, p: Peer)
    requires id in Run(events).sendings
    ensures StandsAs(Run(events).sendings[id], p, FirstAttempt(events, id, p), RemovedAfterwards(events, id, p))
  {
    var n := |events| - 1;
    var init := events[..n];
    if id in Run(init).sendings {
      PeersStandAsAttempted(init, id, p);
      if RemovedAfterwards(init, id, p) {
        RemovedAfterFailure(init, id, p);
      }
      StepStandsAs(Run(init), events[n], id, p, FirstAttempt(init, id, p), RemovedAfterwards(init, id, p));
    } else {
      NothingBeforeTheBroadcast(init, id, p);
    }
  }

  /** What is left to do for a broadcast: it shrinks with each of its own steps, so a broadcast is complete
      after at most two steps for each peer. */
  function Work(b: Sending): nat { 2 * |b.waiting| + |b.failed| }

  lemma OwnStepsMakeProgress(s: State, e: Event)
    requires Inv(s) && (e.Accept? || e.Fail? || e.Remove?) && Step(s, e) != s
    ensures Work(Step(s, e).sendings[e.id]) < Work(s.sendings[e.id]) <= 2 * |s.sendings[e.id].snapshot|
  {
  }

  // ---------- the registry object ----------

  class ConnectionManager {
    var connections: Registry

    constructor ()
      ensures connections == map[]
    {
      connections := map[];
    }

    method Connect(user: Uuid, ws: Socket)
      modifies this
      ensures connections == Joined(old(connections), user, ws)
      ensures SocketsOf(connections, user) == SocketsOf(old(connections), user) + {ws}
      ensures connections - {user} == old(connections) - {user}
    {
      if user !in connections {
        connections := connections[user := {}];
      }
      connections := connections[user := connections[user] + {ws}];
    }

    /** Reading a missing user of the default dictionary creates an empty set, which is popped again. */
    method Disconnect(user: Uuid, ws: Socket)
      modifies this
      ensures connections == Left(old(connections), user, ws)
      ensures SocketsOf(connections, user) == SocketsOf(old(connections), user) - {ws}
      ensures user in connections ==> connections[user] != {}
      ensures connections - {user} == old(connections) - {user}
    {
      if user !in connections {
        connections := connections[user := {}];
      }
      connections := connections[user := connections[user] - {ws}];
      if connections[user] == {} {
        connections := connections - {user};
      }
    }

    /** One broadcast with nothing interleaved; `reachable` says which sends succeed.  The sockets are
        attempted in any order, and those that fail are gone afterwards. */
    method BroadcastToUser(user: Uuid, reachable: set<Socket>) returns (attempts: seq<Socket>)
      modifies this
      ensures forall ws :: ws in attempts <==> ws in SocketsOf(old(connections), user)
      ensures forall i, j | 0 <= i < j < |attempts| :: attempts[i] != attempts[j]
      ensures SocketsOf(connections, user) == SocketsOf(old(connections), user) * reachable
      ensures forall other | other != user :: SocketsOf(connections, other) == SocketsOf(old(connections), other)
    {
      var sockets := if user in connections then connections[user] else {};
      var rest := sockets;
      attempts := [];
      while rest != {}
        invariant rest <= sockets
        invariant forall ws :: ws in attempts <==> ws in sockets && ws !in rest
        invariant forall i, j | 0 <= i < j < |attempts| :: attempts[i] != attempts[j]
        invariant SocketsOf(connections, user) == sockets * (reachable + rest)
        invariant forall other | other != user :: SocketsOf(connections, other) == SocketsOf(old(connections), other)
        decreases rest
      {
        var ws :| ws in rest;
        rest := rest - {ws};
        attempts := attempts + [ws];
        if ws !in reachable {
          Disconnect(user, ws);
        }
      }
    }

    method CloseAll() returns (closed: set<Socket>)
      modifies this
      ensures connections == map[]
      ensures forall ws :: ws in closed <==> exists user :: user in old(connections) && ws in old(connections)[user]
    {
      closed := set user, ws | user in connections && ws in connections[user] :: ws;
      connections := map[];
    }
  }
}
