/**
 Sockets that open and close while their tokens are verified (`register.ts`): the close handler is
 attached only when the gateway has registered the socket, so a close before that is not noticed.

 Verification takes its time; its end, the registration and the attaching of the handlers are one
 uninterrupted step, `Verified`.
 */
module SocketLifetimes {
  import opened Basics
  import C = Collaboration

  /** `Handled`: registered, with handlers; `open` says whether the peer is still there. */
  datatype Stage = Verifying(open: bool) | Handled(open: bool) | Gone

  datatype World = World(gateway: C.State, lives: map<C.Socket, Stage>)

  datatype Event =
    | Open(socket: C.Socket)
    | Verified(socket: C.Socket, user: C.User)
    | Refused(socket: C.Socket)
    | Close(socket: C.Socket)
    | Message(socket: C.Socket, bytes: nat, parsed: Option<C.Request>)
    | Timer

  function Start(): World {
    World(C.Empty(), map[])
  }

  predicate Is(w: World, socket: C.Socket, life: Stage) {
    socket in w.lives && w.lives[socket] == life
  }

  predicate Enabled(w: World, e: Event) {
    match e
    case Open(socket) => socket !in w.lives
    case Verified(socket, user) => socket in w.lives && w.lives[socket].Verifying? && C.TenantId(user.tenant)
    case Refused(socket) => socket in w.lives && w.lives[socket].Verifying?
    case Close(socket) => Is(w, socket, Verifying(true)) || Is(w, socket, Handled(true))
    case Message(socket, _, _) => Is(w, socket, Handled(true))
    case Timer => true
  }

  function Apply(w: World, e: Event): World
    requires Enabled(w, e)
  {
    match e
    case Open(socket) => w.(lives := w.lives[socket := Verifying(true)])
    case Verified(socket, user) =>
      World(C.Apply(w.gateway, C.Connect(socket, user)), w.lives[socket := Handled(w.lives[socket].open)])
    case Refused(socket) => w.(lives := w.lives[socket := Gone])
    case Close(socket) =>
      if w.lives[socket].Verifying? then w.(lives := w.lives[socket := Verifying(false)])
      else World(C.Apply(w.gateway, C.Disconnect(socket)), w.lives[socket := Gone])
    case Message(socket, bytes, parsed) => w.(gateway := C.Apply(w.gateway, C.Incoming(socket, bytes, parsed)))
    case Timer => w.(gateway := C.Apply(w.gateway, C.CollectGarbage))
  }

  /** The world after the events in turn, if each of them was possible. */
  function Run(w: World, events: seq<Event>): Option<World> {
    if events == [] then Some(w)
    else
      var before := Run(w, events[..|events| - 1]);
      var e := events[|events| - 1];
      if before.Some? && Enabled(before.value, e) then Some(Apply(before.value, e)) else None
  }

  // ---------------------------------------------------------------- the gateway's invariant

  /** The gateway's maps are consistent, and it has registered the sockets with handlers. */
  ghost predicate Inv(w: World) {
    C.Inv(w.gateway) && forall socket :: socket in w.gateway.socketUsers <==> socket in w.lives && w.lives[socket].Handled?
  }

  lemma MessageKeepsUsers(s: C.State, socket: C.Socket, bytes: nat, parsed: Option<C.Request>)
    ensures C.AfterMessage(s, socket, bytes, parsed).socketUsers == s.socketUsers
    ensures C.AfterMessage(s, socket, bytes, parsed).userSockets == s.userSockets
  {
  }

  lemma GatewayStep(w: World, e: Event)
    requires Inv(w) && Enabled(w, e)
    ensures C.Inv(Apply(w, e).gateway)
  {
    match e
    case Verified(socket, user) => C.InvStep(w.gateway, C.Connect(socket, user));
    case Close(socket) => C.InvStep(w.gateway, C.Disconnect(socket));
    case Message(socket, bytes, parsed) => C.InvStep(w.gateway, C.Incoming(socket, bytes, parsed));
    case Timer => C.InvStep(w.gateway, C.CollectGarbage);
    case _ =>
  }

  /** Who is registered after a step. */
  function UsersAfter(w: World, e: Event): map<C.Socket, C.User> {
    match e
    case Verified(socket, user) => w.gateway.socketUsers[socket := user]
    case Close(socket) =>
      if socket in w.lives && w.lives[socket].Handled? then w.gateway.socketUsers - {socket} else w.gateway.socketUsers
    case _ => w.gateway.socketUsers
  }

  lemma UsersStep(w: World, e: Event)
    requires Inv(w) && Enabled(w, e)
    ensures Apply(w, e).gateway.socketUsers == UsersAfter(w, e)
  {
    if e.Message? {
      MessageKeepsUsers(w.gateway, e.socket, e.bytes, e.parsed);
    }
  }

  lemma InvStep(w: World, e: Event)
    requires Inv(w) && Enabled(w, e)
    ensures Inv(Apply(w, e))
  {
    GatewayStep(w, e);
    UsersStep(w, e);
    LivesStep(w, e);
  }

  lemma LivesStep(w: World, e: Event)
    requires Inv(w) && Enabled(w, e)
    ensures forall socket :: socket in UsersAfter(w, e) <==> socket in Apply(w, e).lives && Apply(w, e).lives[socket].Handled?
  {
  }

  lemma {:induction false} RunsKeepInv(events: seq<Event>)
    requires Run(Start(), events).Some?
    ensures Inv(Run(Start(), events).value)
  {
    if events != [] {
      var before := events[..|events| - 1];
      RunsKeepInv(before);
      InvStep(Run(Start(), before).value, events[|events| - 1]);
    }
  }

  // ---------------------------------------------------------------- stale sockets

  predicate Registered(w: World, socket: C.Socket) {
    socket in w.gateway.socketUsers
  }

  /** The peer is there and its close would be noticed. */
  predicate Live(w: World, socket: C.Socket) {
    Registered(w, socket) && Is(w, socket, Handled(true))
  }

  /** The socket closed before its token was verified, and then was verified. */
  predicate ClosedFirst(events: seq<Event>, socket: C.Socket) {
    events != [] &&
    var before, e := events[..|events| - 1], events[|events| - 1];
    ClosedFirst(before, socket) || (e.Verified? && e.socket == socket && Close(socket) in before)
  }

  ghost predicate StageTold(events: seq<Event>, w: World, socket: C.Socket) {
    if socket !in w.lives then Close(socket) !in events && !ClosedFirst(events, socket)
    else match w.lives[socket]
      case Verifying(open) => (open <==> Close(socket) !in events) && !ClosedFirst(events, socket)
      case Handled(open) => ClosedFirst(events, socket) <==> !open
      case Gone => !ClosedFirst(events, socket)
  }

  lemma {:induction false} LivesTold(events: seq<Event>, socket: C.Socket)
    requires Run(Start(), events).Some?
    ensures StageTold(events, Run(Start(), events).value, socket)
  {
    if events != [] {
      var before, e := events[..|events| - 1], events[|events| - 1];
      LivesTold(before, socket);
      assert Close(socket) in events <==> Close(socket) in before || e == Close(socket) by {
        assert events == before + [e];
      }
    }
  }

  /** In every run, a registered socket is not live exactly if it closed before its token was
      verified. */
  lemma StaleIff(events: seq<Event>, socket: C.Socket)
    requires Run(Start(), events).Some?
    ensures var w := Run(Start(), events).value; Registered(w, socket) && !Live(w, socket) <==> ClosedFirst(events, socket)
  {
    RunsKeepInv(events);
    LivesTold(events, socket);
  }

  lemma OthersStay(w: World, e: Event, socket: C.Socket)
    requires Inv(w) && Enabled(w, e) && Is(w, socket, Handled(false))
    ensures Is(Apply(w, e), socket, Handled(false)) && Registered(Apply(w, e), socket)
    ensures Apply(w, e).gateway.socketUsers[socket] == w.gateway.socketUsers[socket]
  {
    UsersStep(w, e);
  }

  /** Such a socket stays registered for its user for good: no later event removes it. */
  lemma {:induction false} StaleForever(w: World, events: seq<Event>, socket: C.Socket)
    requires Inv(w) && Registered(w, socket) && !Live(w, socket) && Run(w, events).Some?
    ensures var end := Run(w, events).value;
            Inv(end) && Registered(end, socket) && !Live(end, socket) && end.gateway.socketUsers[socket] == w.gateway.socketUsers[socket]
  {
    if events != [] {
      var before := events[..|events| - 1];
      StaleForever(w, before, socket);
      InvStep(Run(w, before).value, events[|events| - 1]);
      OthersStay(Run(w, before).value, events[|events| - 1], socket);
    }
  }

  // ---------------------------------------------------------------- who is in a channel

  predicate OfUser(w: World, tenant: string, userId: string, socket: C.Socket) {
    && Registered(w, socket)
    && w.gateway.socketUsers[socket].tenant == tenant && w.gateway.socketUsers[socket].userId == userId
  }

  ghost predicate HasLive(w: World, tenant: string, userId: string) {
    exists socket :: OfUser(w, tenant, userId, socket) && Live(w, socket)
  }

  /** Every participant of a channel has a registered socket of the channel's tenant, and a live one
      exactly if some registered one did not close before its token was verified. */
  lemma ParticipantLiveIff(events: seq<Event>, k: string, p: string)
    requires Run(Start(), events).Some?
    requires var s := Run(Start(), events).value.gateway; k in s.channels && p in s.channels[k].participants
    ensures var w := Run(Start(), events).value;
            && (exists socket :: OfUser(w, C.Head(k), p, socket))
            && (HasLive(w, C.Head(k), p) <==> exists socket :: OfUser(w, C.Head(k), p, socket) && !ClosedFirst(events, socket))
  {
    var w := Run(Start(), events).value;
    RunsKeepInv(events);
    ParticipantRegistered(w, k, p);
    if HasLive(w, C.Head(k), p) {
      var socket :| OfUser(w, C.Head(k), p, socket) && Live(w, socket);
      StaleIff(events, socket);
    }
    if socket :| OfUser(w, C.Head(k), p, socket) && !ClosedFirst(events, socket) {
      StaleIff(events, socket);
    }
  }

  lemma ParticipantRegistered(w: World, k: string, p: string)
    requires Inv(w) && k in w.gateway.channels && p in w.gateway.channels[k].participants
    ensures exists socket :: OfUser(w, C.Head(k), p, socket)
  {
    assert C.ChannelKept(w.gateway, k);
    var key := C.Key(C.Head(k), p);
    assert C.SocketsKept(w.gateway, key);
    var socket :| socket in w.gateway.userSockets[key];
    C.RouteIsUser(w.gateway, C.Head(k), p, socket);
    assert OfUser(w, C.Head(k), p, socket);
  }

  /** If no socket closed first, every participant of a channel has a live socket of its tenant. */
  lemma ParticipantsLive(events: seq<Event>, k: string, p: string)
    requires Run(Start(), events).Some? && forall socket :: !ClosedFirst(events, socket)
    requires var s := Run(Start(), events).value.gateway; k in s.channels && p in s.channels[k].participants
    ensures HasLive(Run(Start(), events).value, C.Head(k), p)
  {
    ParticipantLiveIff(events, k, p);
  }

  /** One socket closes first; its user joins a channel with a second one, which closes as well. */
  function GhostEvents(user: C.User, id: string): seq<Event> {
    [Open(0), Close(0), Verified(0, user), Open(1), Verified(1, user), Message(1, 0, Some(C.Request("join_channel", id, ""))), Close(1)]
  }

  lemma RunMore(w: World, events: seq<Event>, e: Event, next: World, more: seq<Event>)
    requires Run(Start(), events) == Some(w) && Enabled(w, e) && Apply(w, e) == next && more == events + [e]
    ensures Run(Start(), more) == Some(next)
  {
    assert more[..|events|] == events;
  }

  /** The gateway with one user, whose sockets are the given ones. */
  function OneUser(user: C.User, sockets: set<C.Socket>, channels: map<string, C.Channel>): C.State {
    C.State(channels, map[C.UserKey(user) := sockets], map socket | socket in sockets :: user)
  }

  lemma ConnectOne(user: C.User, socket: C.Socket, sockets: set<C.Socket>, channels: map<string, C.Channel>)
    ensures C.Connected(OneUser(user, sockets, channels), socket, user) == OneUser(user, sockets + {socket}, channels)
  {
  }

  lemma ConnectFirst(user: C.User, socket: C.Socket)
    ensures C.Connected(C.Empty(), socket, user) == OneUser(user, {socket}, map[])
  {
    assert {} + {socket} == {socket};
    assert C.Connected(C.Empty(), socket, user).socketUsers == OneUser(user, {socket}, map[]).socketUsers;
  }

  lemma DisconnectOne(user: C.User, socket: C.Socket, sockets: set<C.Socket>, channels: map<string, C.Channel>)
    requires socket !in sockets && sockets != {}
    ensures C.Disconnected(OneUser(user, sockets + {socket}, channels), socket) == OneUser(user, sockets, channels)
  {
    assert sockets + {socket} - {socket} == sockets;
    assert !(sockets + {socket} <= {socket});
  }

  lemma GhostRegistered(user: C.User)
    requires C.TenantId(user.tenant)
    ensures Run(Start(), [Open(0), Close(0), Verified(0, user)]) == Some(World(OneUser(user, {0}, map[]), map[0 := Handled(false)]))
  {
    var a := World(C.Empty(), map[0 := Verifying(true)]);
    var b := World(C.Empty(), map[0 := Verifying(false)]);
    var c := World(OneUser(user, {0}, map[]), map[0 := Handled(false)]);
    RunMore(Start(), [], Open(0), a, [Open(0)]);
    RunMore(a, [Open(0)], Close(0), b, [Open(0), Close(0)]);
    ConnectFirst(user, 0);
    RunMore(b, [Open(0), Close(0)], Verified(0, user), c, [Open(0), Close(0), Verified(0, user)]);
  }

  lemma GhostSecond(user: C.User, events: seq<Event>)
    requires C.TenantId(user.tenant) && Run(Start(), events) == Some(World(OneUser(user, {0}, map[]), map[0 := Handled(false)]))
    ensures Run(Start(), events + [Open(1), Verified(1, user)]) ==
            Some(World(OneUser(user, {0, 1}, map[]), map[0 := Handled(false), 1 := Handled(true)]))
  {
    var c := World(OneUser(user, {0}, map[]), map[0 := Handled(false)]);
    var d := c.(lives := map[0 := Handled(false), 1 := Verifying(true)]);
    var e := World(OneUser(user, {0, 1}, map[]), map[0 := Handled(false), 1 := Handled(true)]);
    RunMore(c, events, Open(1), d, events + [Open(1)]);
    ConnectOne(user, 1, {0}, map[]);
    assert {0} + {1} == {0 as nat, 1};
    assert d.lives[1 := Handled(true)] == e.lives;
    RunMore(d, events + [Open(1)], Verified(1, user), e, events + [Open(1), Verified(1, user)]);
  }

  lemma GhostJoins(user: C.User, id: string, events: seq<Event>)
    requires C.TenantId(user.tenant) && C.ChannelName(id)
    requires Run(Start(), events) == Some(World(OneUser(user, {0, 1}, map[]), map[0 := Handled(false), 1 := Handled(true)]))
    ensures Run(Start(), events + [Message(1, 0, Some(C.Request("join_channel", id, ""))), Close(1)]) ==
            Some(World(OneUser(user, {0}, C.Joined(map[], id, user)), map[0 := Handled(false), 1 := Gone]))
  {
    var message := Message(1, 0, Some(C.Request("join_channel", id, "")));
    var channels := C.Joined(map[], id, user);
    var e := World(OneUser(user, {0, 1}, map[]), map[0 := Handled(false), 1 := Handled(true)]);
    var f := World(OneUser(user, {0, 1}, channels), map[0 := Handled(false), 1 := Handled(true)]);
    var g := World(OneUser(user, {0}, channels), map[0 := Handled(false), 1 := Gone]);
    RunMore(e, events, message, f, events + [message]);
    DisconnectOne(user, 1, {0}, channels);
    assert {0} + {1} == {0 as nat, 1};
    assert f.lives[1 := Gone] == g.lives;
    RunMore(f, events + [message], Close(1), g, events + [message, Close(1)]);
  }

  /** At its end the user is a participant without a live socket: the stale one keeps it there. */
  lemma GhostParticipant(user: C.User, id: string)
    requires C.TenantId(user.tenant) && C.ChannelName(id)
    ensures var end := Run(Start(), GhostEvents(user, id));
            && end.Some? && C.Member(end.value.gateway.channels, id, user)
            && !HasLive(end.value, user.tenant, user.userId)
  {
    var first := [Open(0), Close(0), Verified(0, user)];
    var second := first + [Open(1), Verified(1, user)];
    GhostRegistered(user);
    GhostSecond(user, first);
    GhostJoins(user, id, second);
    assert GhostEvents(user, id) == second + [Message(1, 0, Some(C.Request("join_channel", id, ""))), Close(1)];
  }
}
