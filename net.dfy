/**
 * The message buffers and the connection bookkeeping of game/ws_app.py:
 * `NetOutbox`, `NetInbox`, `PlayerQueue`, and the part of `GameState` that
 * hands out client ids and records who is connected.
 */
module Net {
  import opened Messages

  /** The list a per-client dictionary holds for `c`, or the empty list. */
  function Queued<M>(m: map<ClientId, seq<M>>, c: ClientId): seq<M> {
    if c in m then m[c] else []
  }

  /** `m.setdefault(c, []).append(x)`: only `c`'s list grows, by `x` at its end. */
  function Appended<M>(m: map<ClientId, seq<M>>, c: ClientId, x: M): (r: map<ClientId, seq<M>>)
    ensures r.Keys == m.Keys + {c}
    ensures forall d :: Queued(r, d) == if d == c then Queued(m, d) + [x] else Queued(m, d)
  {
    m[c := Queued(m, c) + [x]]
  }

  /** `MessageBundle`: what the outbox holds when it is read. */
  datatype MessageBundle = MessageBundle(broadcasts: seq<ServerMessage>, singles: map<ClientId, seq<ServerMessage>>)

  /** `NetOutbox`: messages for every client, and messages for one client each. */
  class NetOutbox {
    var broadcasts: seq<ServerMessage>
    var singles: map<ClientId, seq<ServerMessage>>

    constructor()
      ensures broadcasts == [] && singles == map[]
    {
      broadcasts := [];
      singles := map[];
    }

    method SendBroadcast(message: ServerMessage)
      modifies this
      ensures broadcasts == old(broadcasts) + [message]
      ensures singles == old(singles)
    {
      broadcasts := broadcasts + [message];
    }

    /** Only the addressed client's list changes. */
    method SendSingle(c: ClientId, message: ServerMessage)
      modifies this
      ensures singles == Appended(old(singles), c, message)
      ensures forall d :: d != c ==> Queued(singles, d) == Queued(old(singles), d)
      ensures broadcasts == old(broadcasts)
    {
      singles := Appended(singles, c, message);
    }

    /** `bundle()`: the messages sent since the last reset. */
    function Bundle(): (b: MessageBundle)
      reads this
      ensures b.broadcasts == broadcasts && b.singles == singles
    {
      MessageBundle(broadcasts, singles)
    }

    method Reset()
      modifies this
      ensures broadcasts == [] && singles == map[]
    {
      broadcasts := [];
      singles := map[];
    }
  }

  /** `NetInbox`: the messages each client sent since they were last taken. */
  class NetInbox<M> {
    var messages: map<ClientId, seq<M>>

    constructor()
      ensures messages == map[]
    {
      messages := map[];
    }

    method Append(c: ClientId, message: M)
      modifies this
      ensures messages == Appended(old(messages), c, message)
    {
      messages := Appended(messages, c, message);
    }

    /** `pop(c)`: `c`'s messages in the order they arrived, or none; they
        are gone afterwards and no other client's messages move. */
    method Pop(c: ClientId) returns (r: seq<M>)
      modifies this
      ensures r == Queued(old(messages), c)
      ensures messages == old(messages) - {c}
      ensures Queued(messages, c) == []
      ensures forall d :: d != c ==> Queued(messages, d) == Queued(old(messages), d)
    {
      r := Queued(messages, c);
      messages := messages - {c};
    }
  }

  /** `PlayerQueue`: client ids waiting to be handled by the game loop. */
  class PlayerQueue {
    var players: seq<ClientId>

    constructor()
      ensures players == []
    {
      players := [];
    }

    method Add(c: ClientId)
      modifies this
      ensures players == old(players) + [c]
    {
      players := players + [c];
    }

    /** `pop()`: every id added since the last pop, in order. */
    method Pop() returns (r: seq<ClientId>)
      modifies this
      ensures r == old(players) && players == []
    {
      r := players;
      players := [];
    }
  }

  /** `PlayerHandle`: a connection's id; its message streams are not modelled. */
  class PlayerHandle {
    const clientId: ClientId

    constructor(clientId: ClientId)
      ensures this.clientId == clientId
    {
      this.clientId := clientId;
    }
  }

  /** `GameState`: the buffers shared between the connections and the game
      loop, the id counter, and the connected players. */
  class GameState {
    const inbox: NetInbox<ClientMessage>
    const outbox: NetOutbox
    const joinQueue: PlayerQueue
    const leaveQueue: PlayerQueue
    var nextId: int
    var handles: map<ClientId, PlayerHandle>
    var usernames: map<ClientId, string>

    /** Every id in use was handed out by the counter, and every handle is
        filed under its own id. */
    ghost predicate Valid()
      reads this
    {
      && joinQueue != leaveQueue
      && 0 <= nextId
      && (forall c :: c in handles ==> 1 <= c.value <= nextId && handles[c].clientId == c)
      && (forall c :: c in usernames ==> 1 <= c.value <= nextId)
    }

    constructor()
      ensures Valid()
      ensures nextId == 0 && handles == map[] && usernames == map[]
      ensures fresh(inbox) && fresh(outbox) && fresh(joinQueue) && fresh(leaveQueue)
      ensures inbox.messages == map[] && outbox.broadcasts == [] && outbox.singles == map[]
      ensures joinQueue.players == [] && leaveQueue.players == []
    {
      inbox := new NetInbox<ClientMessage>();
      outbox := new NetOutbox();
      joinQueue := new PlayerQueue();
      leaveQueue := new PlayerQueue();
      nextId := 0;
      handles := map[];
      usernames := map[];
    }

    /** `_next_client_id`: 1, 2, 3, ... -- each id larger than every id
        handed out before. */
    method NextClientId() returns (id: ClientId)
      requires Valid()
      modifies this
      ensures Valid()
      ensures nextId == old(nextId) + 1 && id == ClientId(nextId)
      ensures forall c :: c in old(handles) || c in old(usernames) ==> c.value < id.value
      ensures handles == old(handles) && usernames == old(usernames)
    {
      nextId := nextId + 1;
      id := ClientId(nextId);
    }

    /** Entering `connect_new_player(username)`: a new id and handle, the
        username recorded, a join queued for the game loop, and
        `PlayerJoined` sent to everyone. */
    method Connect(username: string) returns (handle: PlayerHandle)
      requires Valid()
      modifies this, joinQueue, outbox
      ensures Valid()
      ensures fresh(handle) && handle.clientId == ClientId(nextId) && nextId == old(nextId) + 1
      ensures handle.clientId !in old(handles) && handle.clientId !in old(usernames)
      ensures handles == old(handles)[handle.clientId := handle]
      ensures usernames == old(usernames)[handle.clientId := username]
      ensures joinQueue.players == old(joinQueue.players) + [handle.clientId]
      ensures leaveQueue.players == old(leaveQueue.players)
      ensures outbox.broadcasts == old(outbox.broadcasts) + [PlayerJoined(handle.clientId.value, username)]
      ensures outbox.singles == old(outbox.singles)
    {
      var c := NextClientId();
      handle := new PlayerHandle(c);
      handles := handles[c := handle];
      joinQueue.Add(c);
      usernames := usernames[c := username];
      outbox.SendBroadcast(PlayerJoined(c.value, username));
    }

    /** Leaving `connect_new_player`: the handle is dropped, a leave is
        queued, and `PlayerLeft` is sent to everyone.  The username stays,
        so a join the game loop has not handled yet still finds it. */
    method Disconnect(handle: PlayerHandle)
      requires Valid() && handle.clientId in handles
      modifies this, leaveQueue, outbox
      ensures Valid()
      ensures handles == old(handles) - {handle.clientId}
      ensures usernames == old(usernames) && nextId == old(nextId)
      ensures leaveQueue.players == old(leaveQueue.players) + [handle.clientId]
      ensures joinQueue.players == old(joinQueue.players)
      ensures outbox.broadcasts == old(outbox.broadcasts) + [PlayerLeft(handle.clientId.value)]
      ensures outbox.singles == old(outbox.singles)
    {
      var c := handle.clientId;
      handles := handles - {c};
      leaveQueue.Add(c);
      outbox.SendBroadcast(PlayerLeft(c.value));
    }
  }
}
