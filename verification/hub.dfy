/** The live-connection table of server.js: `connections`, a map from client
    id to the subscribed address and the last-activity time, updated by the
    WebSocket `connection`, `message`, `close` and `error` handlers and by the
    hourly clean-up sweep.

    Sockets, JSON parsing and `Date.now()` are replaced by inputs: the client
    id and the current time are parameters, a received frame is an already
    classified `Command`, and the frames the server sends back are results. */
module Hub {
  import opened Wrappers

  type ClientId = string

  /** One entry of `connections` (the socket object itself is left out). */
  datatype Connection = Connection(email: Option<string>, lastActivity: int)

  type Connections = map<ClientId, Connection>

  /** A client frame after `JSON.parse`: `register` with its `email` field,
      `ping`, an object of another or no `type`, or text that does not parse
      (or parses to a value whose `type` cannot be read). */
  datatype Command = Register(email: Option<string>) | Ping | OtherType | Malformed

  /** The frames the server sends. */
  datatype Frame = Welcome(clientId: ClientId) | Pong(timestamp: int)

  /** The clean-up threshold: one hour, in milliseconds. */
  const IdleLimit: int := 3600000

  /** The `connection` handler: record the new client with no address and the
      current time, and greet it. A reused id overwrites the old entry. */
  function Connect(t: Connections, id: ClientId, now: int): (r: (Connections, Frame))
    ensures id in r.0 && r.0[id] == Connection(None, now)
    ensures r.0.Keys == t.Keys + {id}
    ensures forall c :: c in t && c != id ==> r.0[c] == t[c]
    ensures r.1 == Welcome(id)
  {
    (t[id := Connection(None, now)], Welcome(id))
  }

  /** The `message` handler as written: `register` overwrites only the
      client's address (reading the entry of a client that is gone throws and
      is caught, so nothing changes); `ping` answers `pong`; anything else is
      ignored. `lastActivity` is never touched. */
  function OnMessage(t: Connections, id: ClientId, cmd: Command, now: int): (r: (Connections, Option<Frame>))
    ensures r.0.Keys == t.Keys
    ensures forall c :: c in t && c != id ==> r.0[c] == t[c]
    ensures id in t ==> r.0[id].lastActivity == t[id].lastActivity
    ensures id in t && cmd.Register? ==> r.0[id].email == cmd.email
    ensures !cmd.Register? ==> r.0 == t
    ensures r.1.Some? <==> cmd.Ping?
    ensures cmd.Ping? ==> r.1 == Some(Pong(now))
  {
    match cmd
    case Register(email) =>
      if id in t then (t[id := t[id].(email := email)], None) else (t, None)
    case Ping => (t, Some(Pong(now)))
    case OtherType => (t, None)
    case Malformed => (t, None)
  }

  /** The `close` and `error` handlers: forget the client. */
  function Disconnect(t: Connections, id: ClientId): (t': Connections)
    ensures t'.Keys == t.Keys - {id}
    ensures forall c :: c in t' ==> t'[c] == t[c]
  {
    t - {id}
  }

  /** The connection has been idle for more than an hour at `now`. */
  predicate Stale(conn: Connection, now: int) {
    now - conn.lastActivity > IdleLimit
  }

  /** The entries the sweep keeps: those not stale at `now`. */
  function Fresh(t: Connections, now: int): (t': Connections)
  {
    map c | c in t && !Stale(t[c], now) :: t[c]
  }

  /** The hourly `connections.forEach`: close and delete every stale entry,
      visiting the clients one at a time. */
  method Sweep(t: Connections, now: int) returns (kept: Connections, closed: set<ClientId>)
    ensures kept == Fresh(t, now)
    ensures closed == t.Keys - kept.Keys
    ensures forall c :: c in closed ==> Stale(t[c], now)
  {
    kept := t;
    closed := {};
    var todo := t.Keys;
    while todo != {}
      invariant todo <= t.Keys
      invariant kept.Keys <= t.Keys && closed == t.Keys - kept.Keys
      invariant forall c :: c in kept ==> kept[c] == t[c]
      invariant forall c :: c in t && c !in todo ==> (c in kept <==> !Stale(t[c], now))
      invariant forall c :: c in todo ==> c in kept
      decreases todo
    {
      var c :| c in todo;
      if Stale(kept[c], now) {
        kept := kept - {c};
        closed := closed + {c};
      }
      todo := todo - {c};
    }
  }

  // ---------------------------------------------------------------------------
  // Properties
  // ---------------------------------------------------------------------------

  /** The sweep deletes exactly the stale entries, keeps the others unchanged,
      and a second sweep at the same time deletes nothing more. */
  lemma FreshExactly(t: Connections, now: int)
    ensures forall c :: c in Fresh(t, now) <==> c in t && !Stale(t[c], now)
    ensures forall c :: c in Fresh(t, now) ==> Fresh(t, now)[c] == t[c]
    ensures Fresh(Fresh(t, now), now) == Fresh(t, now)
  {
  }

  /** A register frame from one client never changes any other client's entry,
      and does not change which clients are stale. */
  lemma RegisterTouchesOnlyItsClient(t: Connections, id: ClientId, email: Option<string>, now: int, later: int)
    ensures var t' := OnMessage(t, id, Register(email), now).0;
      && t'.Keys == t.Keys
      && (forall c :: c in t && c != id ==> t'[c] == t[c])
      && Fresh(t', later).Keys == Fresh(t, later).Keys
  {
  }

  /** As written, a client that keeps sending frames is still closed an hour
      after it connected: the frames do not refresh `lastActivity`. */
  lemma ActiveClientIsSwept(id: ClientId, email: string)
    ensures var t := Connect(map[], id, 0).0;
      var t' := OnMessage(t, id, Register(Some(email)), IdleLimit).0;
      id in t' && id !in Fresh(t', IdleLimit + 1)
  {
  }

  /** The `message` handler as evidently intended: the same updates as
      `OnMessage`, and a frame from a known client also refreshes its
      `lastActivity`. */
  function OnMessageTouching(t: Connections, id: ClientId, cmd: Command, now: int): (r: (Connections, Option<Frame>))
    ensures r.0.Keys == t.Keys
    ensures forall c :: c in t && c != id ==> r.0[c] == t[c]
    ensures id in t ==> r.0[id].lastActivity == now
    ensures id in t ==> r.0[id].email == OnMessage(t, id, cmd, now).0[id].email
    ensures r.1 == OnMessage(t, id, cmd, now).1
  {
    var (t', reply) := OnMessage(t, id, cmd, now);
    if id in t' then (t'[id := t'[id].(lastActivity := now)], reply) else (t', reply)
  }

  /** With refreshing, a client that sent a frame within the last hour
      survives the sweep, whatever it sent. */
  lemma RecentClientSurvives(t: Connections, id: ClientId, cmd: Command, at: int, now: int)
    requires id in t && now - at <= IdleLimit
    ensures id in Fresh(OnMessageTouching(t, id, cmd, at).0, now)
  {
  }

  /** The events the table reacts to: a client connects, a frame arrives,
      the socket closes or fails, or the hourly clean-up fires. */
  datatype Event = Opened(id: ClientId) | Received(id: ClientId, cmd: Command) | Closed(id: ClientId) | Failed(id: ClientId) | CleanUp

  /** One event at time `now`, handled as written. */
  function Step(t: Connections, ev: Event, now: int): (t': Connections)
    ensures ev.Opened? ==> t'.Keys == t.Keys + {ev.id}
    ensures ev.Received? ==> t'.Keys == t.Keys
    ensures ev.Closed? || ev.Failed? ==> t'.Keys == t.Keys - {ev.id}
    ensures ev.CleanUp? ==> forall c :: c in t' <==> c in t && !Stale(t[c], now)
    ensures ev.CleanUp? ==> forall c :: c in t' ==> t'[c] == t[c]
    ensures !ev.CleanUp? ==> forall c :: c in t && c != ev.id ==> c in t' && t'[c] == t[c]
    ensures ev.Received? && ev.id in t ==> t'[ev.id].lastActivity == t[ev.id].lastActivity
  {
    match ev
    case Opened(id) => Connect(t, id, now).0
    case Received(id, cmd) => OnMessage(t, id, cmd, now).0
    case Closed(id) => Disconnect(t, id)
    case Failed(id) => Disconnect(t, id)
    case CleanUp => Fresh(t, now)
  }

  /** As written, in the event model: a client that connects, sends any frame
      an hour later, and meets the clean-up just after, is closed. */
  lemma SenderSweptAsWritten(id: ClientId, cmd: Command)
    ensures var t := Step(Step(map[], Opened(id), 0), Received(id, cmd), IdleLimit);
      id in t && id !in Step(t, CleanUp, IdleLimit + 1)
  {
  }

  /** One event at time `now`, with frames refreshing `lastActivity` as
      evidently intended; every other event as written. */
  function StepTouching(t: Connections, ev: Event, now: int): (t': Connections)
    ensures ev.Received? ==> t'.Keys == t.Keys
    ensures ev.Received? && ev.id in t ==> t'[ev.id].lastActivity == now
    ensures !ev.Received? ==> t' == Step(t, ev, now)
    ensures !ev.CleanUp? ==> forall c :: c in t && c != ev.id ==> c in t' && t'[c] == t[c]
  {
    if ev.Received? then OnMessageTouching(t, ev.id, ev.cmd, now).0 else Step(t, ev, now)
  }

  /** With refreshing, a client that sent any frame within the hour before a
      clean-up is kept. */
  lemma CleanUpKeepsRecentSenders(t: Connections, id: ClientId, cmd: Command, at: int, now: int)
    requires id in t && now - at <= IdleLimit
    ensures id in StepTouching(StepTouching(t, Received(id, cmd), at), CleanUp, now)
  {
    RecentClientSurvives(t, id, cmd, at, now);
  }
}
