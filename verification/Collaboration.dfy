/**
 The collaboration gateway (`gateway.ts`) as a state machine: sockets connect and disconnect, join
 and leave channels, and send messages that are passed on within their tenant's channels.
 */
module Collaboration {
  import opened Basics

  // ---------------------------------------------------------------- composite keys

  /** `a:b` */
  function Key(a: string, b: string): string {
    Pair(a, ':', b)
  }

  function Head(key: string): string {
    Before(key, ':')
  }

  function Tail(key: string): string {
    After(key, ':')
  }

  lemma KeyParts(a: string, b: string)
    requires ':' !in a
    ensures Head(Key(a, b)) == a && Tail(Key(a, b)) == b
  {
    PairParts(a, ':', b);
  }

  lemma KeyInjective(a: string, b: string, c: string, d: string)
    requires ':' !in a && ':' !in c
    ensures Key(a, b) == Key(c, d) <==> a == c && b == d
  {
    PairInjective(a, ':', b, c, d);
  }

  /** `key.startsWith("<tenant>:")` finds the tenant's keys and no others. */
  lemma PrefixIsTenant(key: string, tenant: string)
    requires ':' !in tenant && ':' !in Head(key) && key == Key(Head(key), Tail(key))
    ensures StartsWith(key, tenant + ":") <==> Head(key) == tenant
  {
    if StartsWith(key, tenant + ":") {
      var rest := key[|tenant| + 1..];
      assert key == (tenant + ":") + rest;
      KeyParts(tenant, rest);
    }
  }

  // ---------------------------------------------------------------- data

  type Socket = nat

  datatype User = User(userId: string, tenant: string, name: string)

  /** The characters of a `TenantId` (3 to 128 of them). */
  predicate IdChar(c: char) {
    'A' <= c <= 'Z' || 'a' <= c <= 'z' || '0' <= c <= '9' || c == '_' || c == '-'
  }

  predicate TenantId(t: string) {
    3 <= |t| <= 128 && forall i | 0 <= i < |t| :: IdChar(t[i])
  }

  lemma TenantNoColon(t: string)
    requires TenantId(t)
    ensures ':' !in t
  {
  }

  predicate ChannelName(c: string) {
    1 <= |c| <= 160 && forall i | 0 <= i < |c| :: IdChar(c[i]) || c[i] == ':'
  }

  datatype Channel = Channel(id: string, period: string, participants: set<string>)

  /** Messages to sockets, without their timestamps. */
  datatype Message =
    | UserJoined(channel: string, userId: string, name: string)
    | UserLeft(channel: string, userId: string)
    | Relayed(kind: string, channel: string, payload: string, userId: string)
    | Notification(payload: string)

  datatype Sent = Sent(socket: Socket, message: Message)

  datatype State = State(channels: map<string, Channel>, userSockets: map<string, set<Socket>>, socketUsers: map<Socket, User>)

  /** A parsed message; `channel` is empty when the message has none. */
  datatype Request = Request(kind: string, channel: string, payload: string)

  datatype Event =
    | Connect(socket: Socket, user: User)
    | Disconnect(socket: Socket)
    | Incoming(socket: Socket, bytes: nat, parsed: Option<Request>)
    | Notify(tenant: string, userId: string, payload: string)
    | CollectGarbage

  function Empty(): State {
    State(map[], map[], map[])
  }

  function UserKey(u: User): string {
    Key(u.tenant, u.userId)
  }

  function SocketsOf(userSockets: map<string, set<Socket>>, key: string): set<Socket> {
    if key in userSockets then userSockets[key] else {}
  }

  // ---------------------------------------------------------------- the steps

  function Connected(s: State, socket: Socket, user: User): State {
    s.(socketUsers := s.socketUsers[socket := user],
       userSockets := s.userSockets[UserKey(user) := SocketsOf(s.userSockets, UserKey(user)) + {socket}])
  }

  /** The channels after a user has left all of the tenant's; those left empty are gone. */
  function WithoutUser(channels: map<string, Channel>, tenant: string, userId: string): map<string, Channel> {
    map k | k in channels && !(StartsWith(k, tenant + ":") && channels[k].participants <= {userId})
      :: if StartsWith(k, tenant + ":") then channels[k].(participants := channels[k].participants - {userId}) else channels[k]
  }

  predicate LastSocket(s: State, socket: Socket)
    requires socket in s.socketUsers
  {
    var key := UserKey(s.socketUsers[socket]);
    key in s.userSockets && s.userSockets[key] <= {socket}
  }

  function Disconnected(s: State, socket: Socket): State
    requires socket in s.socketUsers
  {
    var user := s.socketUsers[socket];
    var key := UserKey(user);
    if key !in s.userSockets then s.(socketUsers := s.socketUsers - {socket})
    else if LastSocket(s, socket) then
      State(WithoutUser(s.channels, user.tenant, user.userId), s.userSockets - {key}, s.socketUsers - {socket})
    else s.(userSockets := s.userSockets[key := s.userSockets[key] - {socket}], socketUsers := s.socketUsers - {socket})
  }

  /** A new channel's period is the part of its id before the first colon. */
  function Joined(channels: map<string, Channel>, id: string, user: User): map<string, Channel> {
    var key := Key(user.tenant, id);
    channels[key := if key in channels then channels[key].(participants := channels[key].participants + {user.userId})
                    else Channel(id, Head(id), {user.userId})]
  }

  function Left(channels: map<string, Channel>, id: string, user: User): map<string, Channel> {
    var key := Key(user.tenant, id);
    if key !in channels then channels
    else if channels[key].participants <= {user.userId} then channels - {key}
    else channels[key := channels[key].(participants := channels[key].participants - {user.userId})]
  }

  predicate Member(channels: map<string, Channel>, id: string, user: User) {
    var key := Key(user.tenant, id);
    key in channels && user.userId in channels[key].participants
  }

  predicate RelayKind(kind: string) {
    kind == "cursor_move" || kind == "content_edit" || kind == "comment_add"
  }

  /** A message that is well formed: small enough, parsed, its channel name in order. */
  predicate WellFormed(bytes: nat, parsed: Option<Request>) {
    bytes <= 65536 && parsed.Some? && (parsed.value.channel != "" ==> ChannelName(parsed.value.channel))
  }

  /** The message is answered with itself; otherwise it is dropped. */
  predicate Accepted(s: State, socket: Socket, bytes: nat, parsed: Option<Request>) {
    && socket in s.socketUsers && WellFormed(bytes, parsed)
    && var r := parsed.value;
       || r.kind == "join_channel" || r.kind == "leave_channel"
       || (RelayKind(r.kind) && r.channel != "" && Member(s.channels, r.channel, s.socketUsers[socket]))
  }

  function AfterMessage(s: State, socket: Socket, bytes: nat, parsed: Option<Request>): State {
    if !Accepted(s, socket, bytes, parsed) || parsed.value.channel == "" then s
    else
      var user, r := s.socketUsers[socket], parsed.value;
      if r.kind == "join_channel" then s.(channels := Joined(s.channels, r.channel, user))
      else if r.kind == "leave_channel" then s.(channels := Left(s.channels, r.channel, user))
      else s
  }

  function Collected(channels: map<string, Channel>): map<string, Channel> {
    map k | k in channels && channels[k].participants != {} :: channels[k]
  }

  function Apply(s: State, e: Event): State {
    match e
    case Connect(socket, user) => Connected(s, socket, user)
    case Disconnect(socket) => if socket in s.socketUsers then Disconnected(s, socket) else s
    case Incoming(socket, bytes, parsed) => AfterMessage(s, socket, bytes, parsed)
    case Notify(_, _, _) => s
    case CollectGarbage => s.(channels := Collected(s.channels))
  }

  // ---------------------------------------------------------------- what is sent

  /** The participants through whom a broadcast reaches a socket. */
  function Routes(userSockets: map<string, set<Socket>>, tenant: string, participants: set<string>, excluded: string, socket: Socket): set<string> {
    set p | p in participants && p != excluded && socket in SocketsOf(userSockets, Key(tenant, p))
  }

  /** How often a broadcast into a channel sends to a socket. */
  function Copies(s: State, tenant: string, id: string, excluded: string, socket: Socket): nat {
    var key := Key(tenant, id);
    if key in s.channels then |Routes(s.userSockets, tenant, s.channels[key].participants, excluded, socket)| else 0
  }

  /** What a message on a channel makes the gateway broadcast there. */
  function Broadcast(user: User, r: Request): Message {
    if r.kind == "join_channel" then UserJoined(r.channel, user.userId, user.name)
    else if r.kind == "leave_channel" then UserLeft(r.channel, user.userId)
    else Relayed(r.kind, r.channel, r.payload, user.userId)
  }

  /** How often step `e` in state `s` sends `x`. */
  function Count(s: State, e: Event, x: Sent): nat {
    match e
    case Connect(_, _) => 0
    case Disconnect(socket) =>
      if socket in s.socketUsers && LastSocket(s, socket) && x.message.UserLeft? && x.message.userId == s.socketUsers[socket].userId
      then Copies(Disconnected(s, socket), s.socketUsers[socket].tenant, x.message.channel, s.socketUsers[socket].userId, x.socket)
      else 0
    case Incoming(socket, bytes, parsed) =>
      if Accepted(s, socket, bytes, parsed) && parsed.value.channel != "" && x.message == Broadcast(s.socketUsers[socket], parsed.value)
      then Copies(AfterMessage(s, socket, bytes, parsed), s.socketUsers[socket].tenant, parsed.value.channel, s.socketUsers[socket].userId, x.socket)
      else 0
    case Notify(tenant, userId, payload) =>
      if x.message == Notification(payload) && x.socket in SocketsOf(s.userSockets, Key(tenant, userId)) then 1 else 0
    case CollectGarbage => 0
  }

  // ---------------------------------------------------------------- the invariant

  ghost predicate KeyOfTenant(key: string) {
    TenantId(Head(key)) && key == Key(Head(key), Tail(key))
  }

  ghost predicate ChannelKept(s: State, k: string)
    requires k in s.channels
  {
    && KeyOfTenant(k) && Tail(k) == s.channels[k].id && s.channels[k].participants != {}
    && forall p | p in s.channels[k].participants :: Key(Head(k), p) in s.userSockets
  }

  ghost predicate SocketsKept(s: State, k: string)
    requires k in s.userSockets
  {
    && KeyOfTenant(k) && s.userSockets[k] != {}
    && forall socket | socket in s.userSockets[k] :: socket in s.socketUsers && UserKey(s.socketUsers[socket]) == k
  }

  ghost predicate UserKept(s: State, socket: Socket)
    requires socket in s.socketUsers
  {
    && TenantId(s.socketUsers[socket].tenant)
    && socket in SocketsOf(s.userSockets, UserKey(s.socketUsers[socket]))
  }

  /** The two socket maps are inverse to each other, no socket set and no channel is empty, and every
      participant of a channel has a socket of the channel's tenant. */
  ghost predicate Inv(s: State) {
    && (forall socket | socket in s.socketUsers :: UserKept(s, socket))
    && (forall k | k in s.userSockets :: SocketsKept(s, k))
    && (forall k | k in s.channels :: ChannelKept(s, k))
  }

  /** Tokens name users of valid tenants, and a socket connects only once. */
  predicate Allowed(s: State, e: Event) {
    match e
    case Connect(socket, user) => TenantId(user.tenant) && socket !in s.socketUsers
    case Notify(tenant, _, _) => TenantId(tenant)
    case _ => true
  }

  lemma UserKeyKept(user: User)
    requires TenantId(user.tenant)
    ensures KeyOfTenant(UserKey(user)) && Head(UserKey(user)) == user.tenant && Tail(UserKey(user)) == user.userId
  {
    TenantNoColon(user.tenant);
    KeyParts(user.tenant, user.userId);
  }

  lemma SameChannels(s: State, next: State)
    requires Inv(s) && next.channels == s.channels && s.userSockets.Keys <= next.userSockets.Keys
    ensures forall k | k in next.channels :: ChannelKept(next, k)
  {
  }

  lemma ConnectKeeps(s: State, socket: Socket, user: User)
    requires Inv(s) && TenantId(user.tenant)
    requires socket in s.socketUsers ==> UserKey(s.socketUsers[socket]) == UserKey(user)
    ensures Inv(Connected(s, socket, user))
  {
    var next := Connected(s, socket, user);
    SameChannels(s, next);
    forall k | k in next.userSockets ensures SocketsKept(next, k) {
      ConnectSets(s, socket, user, k);
    }
    forall other | other in next.socketUsers ensures UserKept(next, other) {
      ConnectUsers(s, socket, user, other);
    }
  }

  lemma ConnectSets(s: State, socket: Socket, user: User, k: string)
    requires Inv(s) && TenantId(user.tenant) && k in Connected(s, socket, user).userSockets
    requires socket in s.socketUsers ==> UserKey(s.socketUsers[socket]) == UserKey(user)
    ensures SocketsKept(Connected(s, socket, user), k)
  {
    UserKeyKept(user);
    if k in s.userSockets {
      assert SocketsKept(s, k);
    }
  }

  lemma ConnectUsers(s: State, socket: Socket, user: User, other: Socket)
    requires Inv(s) && TenantId(user.tenant) && other in Connected(s, socket, user).socketUsers
    ensures UserKept(Connected(s, socket, user), other)
  {
  }

  /** A socket that connects again as another user is left in two users' sets: the assumption that
      every socket connects once is needed. */
  lemma ReconnectBreaks(s: State, socket: Socket, user: User)
    requires Inv(s) && TenantId(user.tenant) && socket in s.socketUsers
    ensures Inv(Connected(s, socket, user)) <==> UserKey(s.socketUsers[socket]) == UserKey(user)
  {
    var next := Connected(s, socket, user);
    var key := UserKey(s.socketUsers[socket]);
    assert UserKept(s, socket);
    if key != UserKey(user) {
      assert socket in next.userSockets[key] && !SocketsKept(next, key);
    } else {
      ConnectKeeps(s, socket, user);
    }
  }

  lemma LeavesOnlyOwn(s: State, k: string, tenant: string)
    requires Inv(s) && k in s.channels && TenantId(tenant)
    ensures StartsWith(k, tenant + ":") <==> Head(k) == tenant
  {
    assert ChannelKept(s, k);
    TenantNoColon(tenant);
    TenantNoColon(Head(k));
    PrefixIsTenant(k, tenant);
  }

  lemma LastDisconnectKeeps(s: State, socket: Socket)
    requires Inv(s) && socket in s.socketUsers && LastSocket(s, socket)
    ensures Inv(Disconnected(s, socket))
  {
    var user := s.socketUsers[socket];
    var next := Disconnected(s, socket);
    assert UserKept(s, socket);
    forall k | k in next.userSockets ensures SocketsKept(next, k) {
      assert SocketsKept(s, k);
      LastDisconnectSets(s, socket, k);
    }
    forall other | other in next.socketUsers ensures UserKept(next, other) {
      assert UserKept(s, other);
      LastDisconnectUsers(s, socket, other);
    }
    forall k | k in next.channels ensures ChannelKept(next, k) {
      assert ChannelKept(s, k);
      LeavesOnlyOwn(s, k, user.tenant);
      LastDisconnectChannel(s, socket, k);
    }
  }

  lemma LastDisconnectSets(s: State, socket: Socket, k: string)
    requires socket in s.socketUsers && LastSocket(s, socket) && k in Disconnected(s, socket).userSockets && SocketsKept(s, k)
    ensures SocketsKept(Disconnected(s, socket), k)
  {
  }

  lemma LastDisconnectUsers(s: State, socket: Socket, other: Socket)
    requires socket in s.socketUsers && LastSocket(s, socket) && other in Disconnected(s, socket).socketUsers && UserKept(s, other)
    ensures UserKept(Disconnected(s, socket), other)
  {
  }

  lemma LastDisconnectChannel(s: State, socket: Socket, k: string)
    requires socket in s.socketUsers && LastSocket(s, socket) && k in Disconnected(s, socket).channels
    requires ChannelKept(s, k) && TenantId(s.socketUsers[socket].tenant)
    requires StartsWith(k, s.socketUsers[socket].tenant + ":") <==> Head(k) == s.socketUsers[socket].tenant
    ensures ChannelKept(Disconnected(s, socket), k)
  {
    var user := s.socketUsers[socket];
    var next := Disconnected(s, socket);
    TenantNoColon(user.tenant);
    TenantNoColon(Head(k));
    forall p | p in next.channels[k].participants ensures Key(Head(k), p) in next.userSockets {
      KeyInjective(Head(k), p, user.tenant, user.userId);
    }
  }

  lemma DisconnectKeeps(s: State, socket: Socket)
    requires Inv(s) && socket in s.socketUsers
    ensures Inv(Disconnected(s, socket))
  {
    assert UserKept(s, socket);
    if LastSocket(s, socket) {
      LastDisconnectKeeps(s, socket);
    } else {
      var next := Disconnected(s, socket);
      forall k | k in next.userSockets ensures SocketsKept(next, k) {
        assert SocketsKept(s, k);
      }
      forall other | other in next.socketUsers ensures UserKept(next, other) {
        assert UserKept(s, other);
      }
      SameChannels(s, next);
    }
  }

  lemma JoinKeeps(s: State, socket: Socket, id: string)
    requires Inv(s) && socket in s.socketUsers
    ensures Inv(s.(channels := Joined(s.channels, id, s.socketUsers[socket])))
  {
    var user := s.socketUsers[socket];
    var next := s.(channels := Joined(s.channels, id, user));
    assert UserKept(s, socket);
    TenantNoColon(user.tenant);
    KeyParts(user.tenant, id);
    SameSockets(s, next);
    forall k | k in next.channels ensures ChannelKept(next, k) {
      assert k in s.channels ==> ChannelKept(s, k);
    }
  }

  lemma SameSockets(s: State, next: State)
    requires Inv(s) && next.userSockets == s.userSockets && next.socketUsers == s.socketUsers
    ensures forall socket | socket in next.socketUsers :: UserKept(next, socket)
    ensures forall k | k in next.userSockets :: SocketsKept(next, k)
  {
  }

  lemma LeaveKeeps(s: State, user: User, id: string)
    requires Inv(s)
    ensures Inv(s.(channels := Left(s.channels, id, user)))
  {
    var next := s.(channels := Left(s.channels, id, user));
    SameSockets(s, next);
    forall k | k in next.channels ensures ChannelKept(next, k) {
      assert ChannelKept(s, k);
    }
  }

  /** No step leaves anything for the garbage collector. */
  lemma NothingToCollect(s: State)
    requires Inv(s)
    ensures Collected(s.channels) == s.channels && Apply(s, CollectGarbage) == s
  {
  }

  lemma InvStep(s: State, e: Event)
    requires Inv(s) && Allowed(s, e)
    ensures Inv(Apply(s, e))
  {
    match e
    case Connect(socket, user) => ConnectKeeps(s, socket, user);
    case Disconnect(socket) => if socket in s.socketUsers { DisconnectKeeps(s, socket); }
    case Incoming(socket, bytes, parsed) =>
      if Accepted(s, socket, bytes, parsed) && parsed.value.channel != "" {
        JoinKeeps(s, socket, parsed.value.channel);
        LeaveKeeps(s, s.socketUsers[socket], parsed.value.channel);
      }
    case Notify(_, _, _) =>
    case CollectGarbage => NothingToCollect(s);
  }

  // ---------------------------------------------------------------- runs

  predicate AllowedRun(s: State, events: seq<Event>)
    decreases |events|
  {
    events == [] || (Allowed(s, events[0]) && AllowedRun(Apply(s, events[0]), events[1..]))
  }

  function Run(s: State, events: seq<Event>): State
    decreases |events|
  {
    if events == [] then s else Run(Apply(s, events[0]), events[1..])
  }

  lemma {:induction false} RunKeepsInv(s: State, events: seq<Event>)
    requires Inv(s) && AllowedRun(s, events)
    ensures Inv(Run(s, events))
    decreases |events|
  {
    if events != [] {
      InvStep(s, events[0]);
      RunKeepsInv(Apply(s, events[0]), events[1..]);
    }
  }

  /** In every state that a run reaches, the invariant holds; so the garbage collector removes nothing. */
  lemma Reachable(events: seq<Event>)
    requires AllowedRun(Empty(), events)
    ensures Inv(Run(Empty(), events)) && Apply(Run(Empty(), events), CollectGarbage) == Run(Empty(), events)
  {
    RunKeepsInv(Empty(), events);
    NothingToCollect(Run(Empty(), events));
  }

  lemma {:induction false} RunSnoc(s: State, events: seq<Event>, e: Event)
    requires AllowedRun(s, events) && Allowed(Run(s, events), e)
    ensures AllowedRun(s, events + [e]) && Run(s, events + [e]) == Apply(Run(s, events), e)
    decreases |events|
  {
    if events == [] {
      assert events + [e] == [e];
    } else {
      assert (events + [e])[1..] == events[1..] + [e];
      RunSnoc(Apply(s, events[0]), events[1..], e);
    }
  }

  // ---------------------------------------------------------------- exactly once

  /** The sockets a broadcast is meant for: those of the channel's participants but one user. */
  function Audience(s: State, tenant: string, id: string, excluded: string): set<Socket> {
    set socket | socket in s.socketUsers && s.socketUsers[socket].tenant == tenant &&
                 Key(tenant, id) in s.channels && s.socketUsers[socket].userId in s.channels[Key(tenant, id)].participants &&
                 s.socketUsers[socket].userId != excluded
  }

  lemma RouteIsUser(s: State, tenant: string, p: string, socket: Socket)
    requires Inv(s) && TenantId(tenant) && socket in SocketsOf(s.userSockets, Key(tenant, p))
    ensures socket in s.socketUsers && s.socketUsers[socket].tenant == tenant && s.socketUsers[socket].userId == p
  {
    assert SocketsKept(s, Key(tenant, p));
    var user := s.socketUsers[socket];
    assert UserKept(s, socket);
    TenantNoColon(tenant);
    TenantNoColon(user.tenant);
    KeyInjective(user.tenant, user.userId, tenant, p);
  }

  lemma UserIsRoute(s: State, socket: Socket)
    requires Inv(s) && socket in s.socketUsers
    ensures socket in SocketsOf(s.userSockets, Key(s.socketUsers[socket].tenant, s.socketUsers[socket].userId))
  {
  }

  /** A broadcast sends once to every socket of its audience and never to any other. */
  lemma ExactlyOnce(s: State, tenant: string, id: string, excluded: string, socket: Socket)
    requires Inv(s) && TenantId(tenant)
    ensures Copies(s, tenant, id, excluded, socket) == if socket in Audience(s, tenant, id, excluded) then 1 else 0
  {
    var key := Key(tenant, id);
    if key in s.channels {
      var routes := Routes(s.userSockets, tenant, s.channels[key].participants, excluded, socket);
      forall p | p in routes ensures socket in Audience(s, tenant, id, excluded) && p == s.socketUsers[socket].userId {
        RouteIsUser(s, tenant, p, socket);
      }
      if socket in Audience(s, tenant, id, excluded) {
        UserIsRoute(s, socket);
        assert routes == {s.socketUsers[socket].userId};
      } else {
        assert routes == {};
      }
    }
  }

  /** A message on a channel is passed on, once, to every socket of the channel's participants other
      than its sender, and to nobody else; a message that is not accepted is passed on to nobody. */
  lemma MessageReaches(s: State, socket: Socket, bytes: nat, parsed: Option<Request>, x: Sent)
    requires Inv(s)
    ensures Count(s, Incoming(socket, bytes, parsed), x) ==
            if Accepted(s, socket, bytes, parsed) && parsed.value.channel != "" &&
               x.message == Broadcast(s.socketUsers[socket], parsed.value) &&
               x.socket in Audience(AfterMessage(s, socket, bytes, parsed), s.socketUsers[socket].tenant, parsed.value.channel,
                                    s.socketUsers[socket].userId)
            then 1 else 0
  {
    if Accepted(s, socket, bytes, parsed) {
      InvStep(s, Incoming(socket, bytes, parsed));
      assert UserKept(s, socket);
      ExactlyOnce(AfterMessage(s, socket, bytes, parsed), s.socketUsers[socket].tenant, parsed.value.channel,
                  s.socketUsers[socket].userId, x.socket);
    }
  }

  /** When a user's last socket goes, every channel of the tenant that is still there is told, once per
      socket, whether the user had joined it or not; before that nobody is told anything. */
  lemma DisconnectReaches(s: State, socket: Socket, x: Sent)
    requires Inv(s) && socket in s.socketUsers
    ensures var user := s.socketUsers[socket];
            Count(s, Disconnect(socket), x) ==
            if LastSocket(s, socket) && x.message.UserLeft? && x.message.userId == user.userId &&
               x.socket in Audience(Disconnected(s, socket), user.tenant, x.message.channel, user.userId)
            then 1 else 0
  {
    DisconnectKeeps(s, socket);
    assert UserKept(s, socket);
    if x.message.UserLeft? {
      ExactlyOnce(Disconnected(s, socket), s.socketUsers[socket].tenant, x.message.channel, s.socketUsers[socket].userId, x.socket);
    }
  }

  /** Two users connect, and the second one alone joins a channel. */
  function OneJoins(user: User, other: User, id: string): seq<Event> {
    [Connect(0, user), Connect(1, other), Incoming(1, 0, Some(Request("join_channel", id, "")))]
  }

  lemma RunCons(s: State, e: Event, rest: seq<Event>)
    ensures AllowedRun(s, [e] + rest) <==> Allowed(s, e) && AllowedRun(Apply(s, e), rest)
    ensures Run(s, [e] + rest) == Run(Apply(s, e), rest)
  {
    assert ([e] + rest)[1..] == rest;
  }

  /** The state in which that ends. */
  function OneJoined(user: User, other: User, id: string): State {
    Connected(Connected(Empty(), 0, user), 1, other).(channels := Joined(map[], id, other))
  }

  lemma OneJoinsRuns(user: User, other: User, id: string)
    requires TenantId(user.tenant) && TenantId(other.tenant) && ChannelName(id)
    ensures AllowedRun(Empty(), OneJoins(user, other, id)) && Run(Empty(), OneJoins(user, other, id)) == OneJoined(user, other, id)
  {
    var join := Incoming(1, 0, Some(Request("join_channel", id, "")));
    var a := Connected(Empty(), 0, user);
    var b := Connected(a, 1, other);
    assert OneJoins(user, other, id) == [Connect(0, user)] + ([Connect(1, other)] + ([join] + []));
    RunCons(Empty(), Connect(0, user), [Connect(1, other)] + ([join] + []));
    RunCons(a, Connect(1, other), [join] + []);
    RunCons(b, join, []);
  }

  /** The first one's disconnect is told there, though it was never in that channel. */
  lemma UnjoinedTold(user: User, other: User, id: string)
    requires TenantId(user.tenant) && other.tenant == user.tenant && other.userId != user.userId && ChannelName(id)
    ensures AllowedRun(Empty(), OneJoins(user, other, id))
    ensures var s := Run(Empty(), OneJoins(user, other, id));
            && 0 in s.socketUsers && !Member(s.channels, id, user)
            && Count(s, Disconnect(0), Sent(1, UserLeft(id, user.userId))) == 1
  {
    var s := OneJoined(user, other, id);
    OneJoinsRuns(user, other, id);
    Reachable(OneJoins(user, other, id));
    KeysApart(user, other);
    TwoConnected(user, other, id);
    DisconnectReaches(s, 0, Sent(1, UserLeft(id, user.userId)));
    StaysJoined(s, user, other, id);
  }

  lemma TwoConnected(user: User, other: User, id: string)
    requires UserKey(user) != UserKey(other)
    ensures var s := OneJoined(user, other, id);
            && s.socketUsers == map[0 := user, 1 := other] && s.channels == Joined(map[], id, other)
            && UserKey(user) in s.userSockets && s.userSockets[UserKey(user)] == {0}
  {
    var a := Connected(Empty(), 0, user);
    assert {} + {0} == {0 as nat};
    assert a.userSockets == map[UserKey(user) := {0 as nat}];
  }

  lemma KeysApart(user: User, other: User)
    requires TenantId(user.tenant) && other.tenant == user.tenant && other.userId != user.userId
    ensures UserKey(user) != UserKey(other)
  {
    TenantNoColon(user.tenant);
    KeyInjective(user.tenant, user.userId, other.tenant, other.userId);
  }

  /** What is left when the first one has gone. */
  lemma StaysJoined(s: State, user: User, other: User, id: string)
    requires s.socketUsers == map[0 := user, 1 := other] && s.channels == Joined(map[], id, other)
    requires UserKey(user) in s.userSockets && s.userSockets[UserKey(user)] == {0}
    requires other.tenant == user.tenant && other.userId != user.userId
    ensures LastSocket(s, 0) && !Member(s.channels, id, user)
    ensures 1 in Audience(Disconnected(s, 0), user.tenant, id, user.userId)
  {
    var key := Key(user.tenant, id);
    assert s.channels[key].participants == {other.userId};
    assert key in WithoutUser(s.channels, user.tenant, user.userId);
  }
}
