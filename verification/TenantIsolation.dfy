/**
 Tenants of the collaboration gateway do not see each other: what a tenant's sockets and channels
 look like after a run, and what is sent to its sockets, depends on that tenant's own events alone.
 */
module TenantIsolation {
  import opened Basics
  import opened Collaboration

  function ChannelsOf(channels: map<string, Channel>, tenant: string): map<string, Channel> {
    map k | k in channels && Head(k) == tenant :: channels[k]
  }

  function SetsOf(userSockets: map<string, set<Socket>>, tenant: string): map<string, set<Socket>> {
    map k | k in userSockets && Head(k) == tenant :: userSockets[k]
  }

  function UsersOf(socketUsers: map<Socket, User>, tenant: string): map<Socket, User> {
    map k | k in socketUsers && socketUsers[k].tenant == tenant :: socketUsers[k]
  }

  /** The part of the state that belongs to one tenant. */
  function Of(s: State, tenant: string): State {
    State(ChannelsOf(s.channels, tenant), SetsOf(s.userSockets, tenant), UsersOf(s.socketUsers, tenant))
  }

  /** The tenant on whose behalf a step is taken. */
  function Actor(s: State, e: Event): Option<string> {
    match e
    case Connect(_, user) => Some(user.tenant)
    case Disconnect(socket) => if socket in s.socketUsers then Some(s.socketUsers[socket].tenant) else None
    case Incoming(socket, _, _) => if socket in s.socketUsers then Some(s.socketUsers[socket].tenant) else None
    case Notify(tenant, _, _) => Some(tenant)
    case CollectGarbage => None
  }

  predicate SocketOf(s: State, socket: Socket, tenant: string) {
    socket in s.socketUsers && s.socketUsers[socket].tenant == tenant
  }

  lemma HeadOfKey(tenant: string, x: string)
    requires TenantId(tenant)
    ensures Head(Key(tenant, x)) == tenant
  {
    TenantNoColon(tenant);
    KeyParts(tenant, x);
  }

  lemma TenantsValid(s: State, socket: Socket)
    requires Inv(s) && socket in s.socketUsers
    ensures TenantId(s.socketUsers[socket].tenant) && Head(UserKey(s.socketUsers[socket])) == s.socketUsers[socket].tenant
  {
    assert UserKept(s, socket);
    HeadOfKey(s.socketUsers[socket].tenant, s.socketUsers[socket].userId);
  }

  // ---------------------------------------------------------------- another tenant's step

  lemma OtherConnect(s: State, socket: Socket, user: User, tenant: string)
    requires TenantId(user.tenant) && user.tenant != tenant && socket !in s.socketUsers
    ensures Of(Connected(s, socket, user), tenant) == Of(s, tenant)
  {
    HeadOfKey(user.tenant, user.userId);
  }

  lemma OtherDisconnect(s: State, socket: Socket, tenant: string)
    requires Inv(s) && socket in s.socketUsers && s.socketUsers[socket].tenant != tenant
    ensures Of(Disconnected(s, socket), tenant) == Of(s, tenant)
  {
    TenantsValid(s, socket);
    var user := s.socketUsers[socket];
    var key := UserKey(user);
    OtherChannels(s, user.tenant, user.userId, tenant);
    OtherSets(s.userSockets, key, SocketsOf(s.userSockets, key) - {socket}, tenant);
    OtherUsers(s.socketUsers, socket, tenant);
  }

  lemma OtherChannels(s: State, own: string, userId: string, tenant: string)
    requires Inv(s) && TenantId(own) && own != tenant
    ensures ChannelsOf(WithoutUser(s.channels, own, userId), tenant) == ChannelsOf(s.channels, tenant)
  {
    forall k | k in s.channels && Head(k) == tenant ensures !StartsWith(k, own + ":") {
      LeavesOnlyOwn(s, k, own);
    }
  }

  lemma OtherSets(m: map<string, set<Socket>>, key: string, v: set<Socket>, tenant: string)
    requires Head(key) != tenant
    ensures SetsOf(m - {key}, tenant) == SetsOf(m, tenant) == SetsOf(m[key := v], tenant)
  {
  }

  lemma OtherUsers(m: map<Socket, User>, socket: Socket, tenant: string)
    requires socket in m && m[socket].tenant != tenant
    ensures UsersOf(m - {socket}, tenant) == UsersOf(m, tenant)
  {
  }

  lemma OtherChannel(m: map<string, Channel>, id: string, user: User, tenant: string)
    requires Head(Key(user.tenant, id)) != tenant
    ensures ChannelsOf(Joined(m, id, user), tenant) == ChannelsOf(m, tenant) == ChannelsOf(Left(m, id, user), tenant)
  {
  }

  lemma OtherMessage(s: State, socket: Socket, bytes: nat, parsed: Option<Request>, tenant: string)
    requires Inv(s) && socket in s.socketUsers && s.socketUsers[socket].tenant != tenant
    ensures Of(AfterMessage(s, socket, bytes, parsed), tenant) == Of(s, tenant)
  {
    TenantsValid(s, socket);
    if parsed.Some? {
      var user := s.socketUsers[socket];
      HeadOfKey(user.tenant, parsed.value.channel);
      OtherChannel(s.channels, parsed.value.channel, user, tenant);
    }
  }

  lemma OtherSendsNothing(s: State, e: Event, tenant: string, x: Sent)
    requires Inv(s) && Allowed(s, e) && Actor(s, e) != Some(tenant) && SocketOf(s, x.socket, tenant)
    ensures Count(s, e, x) == 0
  {
    match e
    case Disconnect(socket) => if socket in s.socketUsers { OtherDisconnectSends(s, socket, tenant, x); }
    case Incoming(socket, bytes, parsed) => if socket in s.socketUsers { OtherMessageSends(s, socket, bytes, parsed, tenant, x); }
    case Notify(own, userId, payload) =>
      if x.socket in SocketsOf(s.userSockets, Key(own, userId)) {
        RouteIsUser(s, own, userId, x.socket);
      }
    case _ =>
  }

  lemma OtherDisconnectSends(s: State, socket: Socket, tenant: string, x: Sent)
    requires Inv(s) && socket in s.socketUsers && s.socketUsers[socket].tenant != tenant && SocketOf(s, x.socket, tenant)
    ensures Count(s, Disconnect(socket), x) == 0
  {
    DisconnectReaches(s, socket, x);
  }

  lemma OtherMessageSends(s: State, socket: Socket, bytes: nat, parsed: Option<Request>, tenant: string, x: Sent)
    requires Inv(s) && socket in s.socketUsers && s.socketUsers[socket].tenant != tenant && SocketOf(s, x.socket, tenant)
    ensures Count(s, Incoming(socket, bytes, parsed), x) == 0
  {
    MessageReaches(s, socket, bytes, parsed, x);
  }

  /** A step by another tenant changes nothing of this one's and sends nothing to its sockets. */
  lemma OtherStep(s: State, e: Event, tenant: string)
    requires Inv(s) && Allowed(s, e) && Actor(s, e) != Some(tenant)
    ensures Of(Apply(s, e), tenant) == Of(s, tenant)
    ensures forall x: Sent | SocketOf(s, x.socket, tenant) :: Count(s, e, x) == 0
  {
    forall x: Sent | SocketOf(s, x.socket, tenant) ensures Count(s, e, x) == 0 {
      OtherSendsNothing(s, e, tenant, x);
    }
    match e
    case Connect(socket, user) => OtherConnect(s, socket, user, tenant);
    case Disconnect(socket) => if socket in s.socketUsers { OtherDisconnect(s, socket, tenant); }
    case Incoming(socket, bytes, parsed) => if socket in s.socketUsers { OtherMessage(s, socket, bytes, parsed, tenant); }
    case Notify(_, _, _) =>
    case CollectGarbage => NothingToCollect(s);
  }

  // ---------------------------------------------------------------- this tenant's step

  lemma OwnConnect(s: State, socket: Socket, user: User)
    requires TenantId(user.tenant)
    ensures Of(Connected(s, socket, user), user.tenant) == Connected(Of(s, user.tenant), socket, user)
  {
    HeadOfKey(user.tenant, user.userId);
  }

  lemma OwnSocket(s: State, socket: Socket, tenant: string)
    requires Inv(s) && SocketOf(s, socket, tenant)
    ensures var own := Of(s, tenant);
            && TenantId(tenant) && socket in own.socketUsers && own.socketUsers[socket] == s.socketUsers[socket]
            && (LastSocket(own, socket) <==> LastSocket(s, socket))
  {
    TenantsValid(s, socket);
  }

  lemma OwnDisconnect(s: State, socket: Socket, tenant: string)
    requires Inv(s) && SocketOf(s, socket, tenant)
    ensures socket in Of(s, tenant).socketUsers
    ensures Of(Disconnected(s, socket), tenant) == Disconnected(Of(s, tenant), socket)
  {
    OwnSocket(s, socket, tenant);
    TenantsValid(s, socket);
    var user := s.socketUsers[socket];
    var key := UserKey(user);
    OwnChannels(s.channels, tenant, user.userId);
    OwnSets(s.userSockets, key, SocketsOf(s.userSockets, key) - {socket}, tenant);
    OwnUsers(s.socketUsers, socket, tenant);
  }

  lemma OwnChannels(m: map<string, Channel>, tenant: string, userId: string)
    ensures ChannelsOf(WithoutUser(m, tenant, userId), tenant) == WithoutUser(ChannelsOf(m, tenant), tenant, userId)
  {
  }

  lemma OwnSets(m: map<string, set<Socket>>, key: string, v: set<Socket>, tenant: string)
    requires Head(key) == tenant
    ensures SetsOf(m - {key}, tenant) == SetsOf(m, tenant) - {key}
    ensures SetsOf(m[key := v], tenant) == SetsOf(m, tenant)[key := v]
  {
  }

  lemma OwnUsers(m: map<Socket, User>, socket: Socket, tenant: string)
    ensures UsersOf(m - {socket}, tenant) == UsersOf(m, tenant) - {socket}
  {
  }

  lemma OwnChannel(m: map<string, Channel>, id: string, user: User)
    requires Head(Key(user.tenant, id)) == user.tenant
    ensures ChannelsOf(Joined(m, id, user), user.tenant) == Joined(ChannelsOf(m, user.tenant), id, user)
    ensures ChannelsOf(Left(m, id, user), user.tenant) == Left(ChannelsOf(m, user.tenant), id, user)
  {
  }

  lemma OwnAccepted(s: State, socket: Socket, bytes: nat, parsed: Option<Request>, tenant: string)
    requires Inv(s) && SocketOf(s, socket, tenant)
    ensures Accepted(Of(s, tenant), socket, bytes, parsed) <==> Accepted(s, socket, bytes, parsed)
  {
    OwnSocket(s, socket, tenant);
    if parsed.Some? {
      HeadOfKey(tenant, parsed.value.channel);
    }
  }

  lemma OwnMessage(s: State, socket: Socket, bytes: nat, parsed: Option<Request>, tenant: string)
    requires Inv(s) && SocketOf(s, socket, tenant)
    ensures Of(AfterMessage(s, socket, bytes, parsed), tenant) == AfterMessage(Of(s, tenant), socket, bytes, parsed)
  {
    OwnSocket(s, socket, tenant);
    OwnAccepted(s, socket, bytes, parsed, tenant);
    if Accepted(s, socket, bytes, parsed) && parsed.value.channel != "" {
      HeadOfKey(tenant, parsed.value.channel);
      OwnChannel(s.channels, parsed.value.channel, s.socketUsers[socket]);
      OwnChannelsOnly(s, Joined(s.channels, parsed.value.channel, s.socketUsers[socket]), tenant);
      OwnChannelsOnly(s, Left(s.channels, parsed.value.channel, s.socketUsers[socket]), tenant);
    }
  }

  lemma OwnChannelsOnly(s: State, channels: map<string, Channel>, tenant: string)
    ensures Of(s.(channels := channels), tenant) == Of(s, tenant).(channels := ChannelsOf(channels, tenant))
  {
  }

  /** A tenant's broadcast uses nothing but the tenant's part of the state. */
  lemma OwnCopies(s: State, tenant: string, id: string, excluded: string, socket: Socket)
    requires TenantId(tenant)
    ensures Copies(Of(s, tenant), tenant, id, excluded, socket) == Copies(s, tenant, id, excluded, socket)
  {
    var key := Key(tenant, id);
    HeadOfKey(tenant, id);
    if key in s.channels {
      forall p | p in s.channels[key].participants
        ensures SocketsOf(Of(s, tenant).userSockets, Key(tenant, p)) == SocketsOf(s.userSockets, Key(tenant, p))
      {
        HeadOfKey(tenant, p);
      }
      assert Routes(Of(s, tenant).userSockets, tenant, s.channels[key].participants, excluded, socket)
          == Routes(s.userSockets, tenant, s.channels[key].participants, excluded, socket);
    }
  }

  lemma OwnCount(s: State, e: Event, tenant: string, x: Sent)
    requires Inv(s) && Allowed(s, e) && Actor(s, e) == Some(tenant)
    ensures Count(Of(s, tenant), e, x) == Count(s, e, x)
  {
    match e
    case Disconnect(socket) => OwnDisconnectCount(s, socket, tenant, x);
    case Incoming(socket, bytes, parsed) => OwnMessageCount(s, socket, bytes, parsed, tenant, x);
    case Notify(_, userId, _) => HeadOfKey(tenant, userId);
    case _ =>
  }

  lemma OwnDisconnectCount(s: State, socket: Socket, tenant: string, x: Sent)
    requires Inv(s) && SocketOf(s, socket, tenant)
    ensures Count(Of(s, tenant), Disconnect(socket), x) == Count(s, Disconnect(socket), x)
  {
    OwnSocket(s, socket, tenant);
    OwnDisconnect(s, socket, tenant);
    if x.message.UserLeft? {
      OwnCopies(Disconnected(s, socket), tenant, x.message.channel, s.socketUsers[socket].userId, x.socket);
    }
  }

  lemma OwnMessageCount(s: State, socket: Socket, bytes: nat, parsed: Option<Request>, tenant: string, x: Sent)
    requires Inv(s) && SocketOf(s, socket, tenant)
    ensures Count(Of(s, tenant), Incoming(socket, bytes, parsed), x) == Count(s, Incoming(socket, bytes, parsed), x)
  {
    OwnSocket(s, socket, tenant);
    OwnAccepted(s, socket, bytes, parsed, tenant);
    if Accepted(s, socket, bytes, parsed) {
      var next := AfterMessage(s, socket, bytes, parsed);
      OwnMessage(s, socket, bytes, parsed, tenant);
      OwnCopies(next, tenant, parsed.value.channel, s.socketUsers[socket].userId, x.socket);
      assert Of(next, tenant) == AfterMessage(Of(s, tenant), socket, bytes, parsed);
    }
  }

  /** A step by this tenant acts on, and sends by, this tenant's part of the state alone. */
  lemma OwnStep(s: State, e: Event, tenant: string)
    requires Inv(s) && Allowed(s, e) && Actor(s, e) == Some(tenant)
    ensures Of(Apply(s, e), tenant) == Apply(Of(s, tenant), e)
    ensures forall x: Sent :: Count(Of(s, tenant), e, x) == Count(s, e, x)
  {
    forall x: Sent ensures Count(Of(s, tenant), e, x) == Count(s, e, x) {
      OwnCount(s, e, tenant, x);
    }
    match e
    case Connect(socket, user) => OwnConnect(s, socket, user);
    case Disconnect(socket) => OwnDisconnect(s, socket, tenant);
    case Incoming(socket, bytes, parsed) => OwnMessage(s, socket, bytes, parsed, tenant);
    case Notify(_, _, _) =>
    case CollectGarbage =>
  }

  // ---------------------------------------------------------------- whole runs

  /** The events of a run that one tenant causes. */
  function Own(s: State, events: seq<Event>, tenant: string): seq<Event>
    decreases |events|
  {
    if events == [] then []
    else (if Actor(s, events[0]) == Some(tenant) then [events[0]] else []) + Own(Apply(s, events[0]), events[1..], tenant)
  }

  /** How often `x` is sent in a run while its socket is one of the tenant's. */
  function SentTo(s: State, events: seq<Event>, tenant: string, x: Sent): nat
    decreases |events|
  {
    if events == [] then 0
    else (if SocketOf(s, x.socket, tenant) then Count(s, events[0], x) else 0) + SentTo(Apply(s, events[0]), events[1..], tenant, x)
  }

  lemma OwnCons(s: State, events: seq<Event>, tenant: string)
    requires events != []
    ensures Actor(s, events[0]) == Some(tenant) ==>
            var own := Own(s, events, tenant);
            own != [] && own[0] == events[0] && own[1..] == Own(Apply(s, events[0]), events[1..], tenant)
    ensures Actor(s, events[0]) != Some(tenant) ==> Own(s, events, tenant) == Own(Apply(s, events[0]), events[1..], tenant)
  {
  }

  /** Non-interference: leaving out what all other tenants do changes neither what a tenant's channels
      and sockets are after the run nor any message sent to its sockets during the run. */
  lemma {:induction false} Isolation(s: State, events: seq<Event>, tenant: string, x: Sent)
    requires Inv(s) && AllowedRun(s, events)
    ensures Of(Run(s, events), tenant) == Run(Of(s, tenant), Own(s, events, tenant))
    ensures SentTo(s, events, tenant, x) == SentTo(Of(s, tenant), Own(s, events, tenant), tenant, x)
    decreases |events|
  {
    if events != [] {
      InvStep(s, events[0]);
      Isolation(Apply(s, events[0]), events[1..], tenant, x);
      OwnCons(s, events, tenant);
      IsolationStep(s, events[0], tenant, x);
    }
  }

  lemma IsolationStep(s: State, e: Event, tenant: string, x: Sent)
    requires Inv(s) && Allowed(s, e)
    ensures SocketOf(Of(s, tenant), x.socket, tenant) == SocketOf(s, x.socket, tenant)
    ensures Of(Apply(s, e), tenant) == if Actor(s, e) == Some(tenant) then Apply(Of(s, tenant), e) else Of(s, tenant)
    ensures SocketOf(s, x.socket, tenant) ==>
            Count(s, e, x) == if Actor(s, e) == Some(tenant) then Count(Of(s, tenant), e, x) else 0
  {
    if Actor(s, e) == Some(tenant) {
      OwnStep(s, e, tenant);
    } else {
      OtherStep(s, e, tenant);
    }
  }

  /** The assumption on tenant ids is needed: a notification for user "c" of a tenant called "aaa:b"
      reaches user "b:c" of tenant "aaa". */
  lemma ColonConfuses(s: State, socket: Socket, c: string, payload: string)
    requires Inv(s) && SocketOf(s, socket, "aaa") && s.socketUsers[socket].userId == "b:" + c
    ensures Count(s, Notify("aaa:b", c, payload), Sent(socket, Notification(payload))) == 1 && !TenantId("aaa:b")
  {
    UserIsRoute(s, socket);
    assert Key("aaa", "b:" + c) == Key("aaa:b", c);
    assert "aaa:b"[3] == ':';
  }
}
