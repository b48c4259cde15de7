/**
 Who is in a channel: what joining, leaving and disconnecting do to it, and, over whole runs, who has
 joined and not gone since.
 */
module Membership {
  import opened Basics
  import opened Collaboration

  // ---------------------------------------------------------------- one step

  predicate InMap(channels: map<string, Channel>, k: string, p: string) {
    k in channels && p in channels[k].participants
  }

  /** User `p` is a participant of the channel with key `k`. */
  predicate Within(s: State, k: string, p: string) {
    InMap(s.channels, k, p)
  }

  /** A channel name: letters, digits, underscore, hyphen and colon, at most 160 of them. */
  predicate NameInOrder(c: string) {
    |c| <= 160 &&
    forall i | 0 <= i < |c| ::
      var n := c[i] as int;
      0x30 <= n <= 0x3A || 0x41 <= n <= 0x5A || 0x61 <= n <= 0x7A || c[i] == '_' || c[i] == '-'
  }

  /** A message that is read: at most 64 KiB, an object with a type, its channel name in order. */
  predicate IsRead(e: Event) {
    e.Incoming? && e.bytes <= 64 * 1024 && e.parsed.Some? && NameInOrder(e.parsed.value.channel)
  }

  lemma IsReadIff(e: Event)
    requires e.Incoming?
    ensures IsRead(e) <==> WellFormed(e.bytes, e.parsed)
  {
    if e.parsed.Some? {
      var c := e.parsed.value.channel;
      assert forall i | 0 <= i < |c| :: (IdChar(c[i]) || c[i] == ':') <==>
        (var n := c[i] as int; 0x30 <= n <= 0x3A || 0x41 <= n <= 0x5A || 0x61 <= n <= 0x7A || c[i] == '_' || c[i] == '-');
    }
  }

  /** A message of this kind on channel `id` from a socket of this user, that is read. */
  predicate Says(s: State, e: Event, kind: string, tenant: string, id: string, userId: string) {
    && IsRead(e) && e.socket in s.socketUsers
    && s.socketUsers[e.socket].tenant == tenant && s.socketUsers[e.socket].userId == userId
    && e.parsed.value.kind == kind && e.parsed.value.channel == id && id != ""
  }

  /** The user's only socket goes. */
  predicate Goes(s: State, e: Event, tenant: string, userId: string) {
    && e.Disconnect? && e.socket in s.socketUsers
    && s.socketUsers[e.socket].tenant == tenant && s.socketUsers[e.socket].userId == userId
    && forall other | other in s.socketUsers && s.socketUsers[other].tenant == tenant && s.socketUsers[other].userId == userId :: other == e.socket
  }

  /** Everything but the participation of `p` in `k` is as it was: who is in which channel, and the
      channels' ids and periods. */
  ghost predicate ChannelsAsBefore(m: map<string, Channel>, next: map<string, Channel>, k: string, p: string) {
    && (forall k', p' :: (k', p') != (k, p) ==> (InMap(next, k', p') <==> InMap(m, k', p')))
    && (forall k' | k' in m && k' in next :: next[k'].id == m[k'].id && next[k'].period == m[k'].period)
    && (forall k' :: k' != k ==> (k' in next <==> k' in m))
  }

  predicate SocketsAsBefore(s: State, next: State) {
    next.socketUsers == s.socketUsers && next.userSockets == s.userSockets
  }

  /** After leaving, the user is not in the channel, all other participations are as they were, and the
      channel is gone exactly if nobody else was in it. */
  lemma LeaveExact(s: State, e: Event, tenant: string, id: string, userId: string)
    requires Inv(s) && Says(s, e, "leave_channel", tenant, id, userId)
    ensures var next, k := Apply(s, e), Key(tenant, id);
            && !Within(next, k, userId) && ChannelsAsBefore(s.channels, next.channels, k, userId) && SocketsAsBefore(s, next)
            && (k in next.channels <==> exists p :: p != userId && InMap(s.channels, k, p))
  {
    LeaveSays(s, e, tenant, id, userId);
    LeftMap(s.channels, s.socketUsers[e.socket], id, Key(tenant, id));
  }

  lemma LeaveSays(s: State, e: Event, tenant: string, id: string, userId: string)
    requires Says(s, e, "leave_channel", tenant, id, userId)
    ensures Apply(s, e) == s.(channels := Left(s.channels, id, s.socketUsers[e.socket]))
  {
    IsReadIff(e);
    assert Accepted(s, e.socket, e.bytes, e.parsed);
  }

  lemma LeftMap(m: map<string, Channel>, user: User, id: string, k: string)
    requires k == Key(user.tenant, id)
    ensures var next := Left(m, id, user);
            && !InMap(next, k, user.userId) && ChannelsAsBefore(m, next, k, user.userId)
            && (k in next <==> exists p :: p != user.userId && InMap(m, k, p))
  {
    if k in m && !(m[k].participants <= {user.userId}) {
      var p :| p in m[k].participants && p != user.userId;
      assert InMap(m, k, p);
    }
  }

  /** After joining, the user is in the channel, which is new or as it was, and all else is as it was. */
  lemma JoinExact(s: State, e: Event, tenant: string, id: string, userId: string)
    requires Inv(s) && Says(s, e, "join_channel", tenant, id, userId)
    ensures var next, k := Apply(s, e), Key(tenant, id);
            && Within(next, k, userId) && ChannelsAsBefore(s.channels, next.channels, k, userId) && SocketsAsBefore(s, next)
            && next.channels[k].id == id
  {
    var k := Key(tenant, id);
    JoinSays(s, e, tenant, id, userId);
    JoinedMap(s.channels, s.socketUsers[e.socket], id, k);
    if k in s.channels {
      assert UserKept(s, e.socket) && ChannelKept(s, k);
      TenantNoColon(tenant);
      KeyParts(tenant, id);
    }
  }

  lemma JoinSays(s: State, e: Event, tenant: string, id: string, userId: string)
    requires Says(s, e, "join_channel", tenant, id, userId)
    ensures Apply(s, e) == s.(channels := Joined(s.channels, id, s.socketUsers[e.socket]))
  {
    IsReadIff(e);
    assert Accepted(s, e.socket, e.bytes, e.parsed);
  }

  lemma JoinedMap(m: map<string, Channel>, user: User, id: string, k: string)
    requires k == Key(user.tenant, id)
    ensures var next := Joined(m, id, user);
            && InMap(next, k, user.userId) && ChannelsAsBefore(m, next, k, user.userId)
            && next[k].id == if k in m then m[k].id else id
  {
  }

  /** Messages of other kinds change nothing, and they are passed on exactly if they are of a relayed kind
      and the sender is a participant of their channel. */
  lemma RelayExact(s: State, e: Event)
    requires Inv(s) && e.Incoming?
    requires !(e.parsed.Some? && (e.parsed.value.kind == "join_channel" || e.parsed.value.kind == "leave_channel"))
    ensures Apply(s, e) == s
    ensures Accepted(s, e.socket, e.bytes, e.parsed) <==>
            && e.socket in s.socketUsers && IsRead(e)
            && (e.parsed.value.kind == "cursor_move" || e.parsed.value.kind == "content_edit" || e.parsed.value.kind == "comment_add")
            && e.parsed.value.channel != ""
            && Within(s, Key(s.socketUsers[e.socket].tenant, e.parsed.value.channel), s.socketUsers[e.socket].userId)
  {
    IsReadIff(e);
    if e.parsed.Some? {
      RelayKinds(e.parsed.value.kind);
    }
  }

  lemma RelayKinds(kind: string)
    ensures RelayKind(kind) <==> kind == "cursor_move" || kind == "content_edit" || kind == "comment_add"
  {
  }

  // ---------------------------------------------------------------- what is announced

  /** A join is announced as a join with the user's name, a leave as a leave, and any other message is
      passed on as it is; once to every other participant's sockets, and to nobody else. */
  lemma Announced(s: State, e: Event, x: Sent)
    requires Inv(s) && e.Incoming? && Accepted(s, e.socket, e.bytes, e.parsed) && e.parsed.value.channel != ""
    ensures var user, r := s.socketUsers[e.socket], e.parsed.value;
            var next := Apply(s, e);
            Count(s, e, x) ==
            if && x.socket in next.socketUsers && next.socketUsers[x.socket].tenant == user.tenant
               && Within(next, Key(user.tenant, r.channel), next.socketUsers[x.socket].userId)
               && next.socketUsers[x.socket].userId != user.userId
               && x.message == (if r.kind == "join_channel" then UserJoined(r.channel, user.userId, user.name)
                                else if r.kind == "leave_channel" then UserLeft(r.channel, user.userId)
                                else Relayed(r.kind, r.channel, r.payload, user.userId))
            then 1 else 0
  {
    MessageReaches(s, e.socket, e.bytes, e.parsed, x);
  }

  // ---------------------------------------------------------------- a disconnect

  lemma OnlySocketIsLast(s: State, socket: Socket)
    requires Inv(s) && socket in s.socketUsers
    ensures var user := s.socketUsers[socket]; LastSocket(s, socket) <==> Goes(s, Disconnect(socket), user.tenant, user.userId)
  {
    var user := s.socketUsers[socket];
    var key := UserKey(user);
    assert UserKept(s, socket);
    assert SocketsKept(s, key);
    if LastSocket(s, socket) {
      forall other | other in s.socketUsers && s.socketUsers[other].tenant == user.tenant && s.socketUsers[other].userId == user.userId
        ensures other == socket
      {
        assert UserKept(s, other);
      }
    } else {
      var other :| other in s.userSockets[key] && other != socket;
      RouteIsUser(s, user.tenant, user.userId, other);
    }
  }

  /** A user's last disconnect takes the user out of all channels, and nobody else out of any; any other
      disconnect takes nobody out. */
  lemma DisconnectExact(s: State, socket: Socket, tenant: string, id: string, p: string)
    requires Inv(s) && TenantId(tenant)
    ensures Within(Apply(s, Disconnect(socket)), Key(tenant, id), p) <==>
            Within(s, Key(tenant, id), p) && !Goes(s, Disconnect(socket), tenant, p)
  {
    if socket in s.socketUsers {
      var user := s.socketUsers[socket];
      OnlySocketIsLast(s, socket);
      assert UserKept(s, socket);
      if LastSocket(s, socket) {
        HeadIs(tenant, id);
        if Key(tenant, id) in s.channels {
          LeavesOnlyOwn(s, Key(tenant, id), user.tenant);
        }
      }
    }
  }

  lemma HeadIs(tenant: string, id: string)
    requires TenantId(tenant)
    ensures Head(Key(tenant, id)) == tenant
  {
    TenantNoColon(tenant);
    KeyParts(tenant, id);
  }

  // ---------------------------------------------------------------- whole runs

  /** Exactly a join brings the user in, and exactly a leave or the last disconnect takes the user out. */
  lemma WithinStep(s: State, e: Event, tenant: string, id: string, p: string)
    requires Inv(s) && Allowed(s, e) && TenantId(tenant) && id != ""
    ensures Within(Apply(s, e), Key(tenant, id), p) <==>
            || Says(s, e, "join_channel", tenant, id, p)
            || (Within(s, Key(tenant, id), p) && !Says(s, e, "leave_channel", tenant, id, p) && !Goes(s, e, tenant, p))
  {
    match e
    case Connect(_, _) =>
    case Disconnect(socket) => DisconnectExact(s, socket, tenant, id, p);
    case Incoming(_, _, _) => MessageWithin(s, e, tenant, id, p);
    case Notify(_, _, _) =>
    case CollectGarbage => NothingToCollect(s);
  }

  lemma MessageWithin(s: State, e: Event, tenant: string, id: string, p: string)
    requires Inv(s) && e.Incoming? && TenantId(tenant) && id != ""
    ensures Within(Apply(s, e), Key(tenant, id), p) <==>
            Says(s, e, "join_channel", tenant, id, p) || (Within(s, Key(tenant, id), p) && !Says(s, e, "leave_channel", tenant, id, p))
  {
    IsReadIff(e);
    if Accepted(s, e.socket, e.bytes, e.parsed) && e.parsed.value.channel != "" {
      var user, r := s.socketUsers[e.socket], e.parsed.value;
      assert UserKept(s, e.socket);
      TenantNoColon(user.tenant);
      TenantNoColon(tenant);
      KeyInjective(user.tenant, r.channel, tenant, id);
      assert InMap(Apply(s, e).channels, Key(tenant, id), p) <==> Within(Apply(s, e), Key(tenant, id), p);
      if r.kind == "join_channel" {
        JoinExact(s, e, user.tenant, r.channel, user.userId);
      } else if r.kind == "leave_channel" {
        LeaveExact(s, e, user.tenant, r.channel, user.userId);
      }
    }
  }

  /** Event number `i` is the user's join, and since then there was no leave and no last disconnect. */
  ghost predicate JoinedSince(events: seq<Event>, i: nat, tenant: string, id: string, p: string) {
    && i < |events| && Says(Run(Empty(), events[..i]), events[i], "join_channel", tenant, id, p)
    && forall j | i < j < |events| :: Stays(events, j, tenant, id, p)
  }

  predicate Stays(events: seq<Event>, j: nat, tenant: string, id: string, p: string)
    requires j < |events|
  {
    var s := Run(Empty(), events[..j]);
    !Says(s, events[j], "leave_channel", tenant, id, p) && !Goes(s, events[j], tenant, p)
  }

  lemma {:induction false} AllowedSnoc(s: State, events: seq<Event>, e: Event)
    requires AllowedRun(s, events + [e])
    ensures AllowedRun(s, events) && Allowed(Run(s, events), e) && Run(s, events + [e]) == Apply(Run(s, events), e)
    decreases |events|
  {
    if events == [] {
      assert events + [e] == [e];
    } else {
      assert (events + [e])[1..] == events[1..] + [e];
      AllowedSnoc(Apply(s, events[0]), events[1..], e);
    }
  }

  /** In every run, a user is in a channel exactly if it has joined and neither left nor gone since. */
  lemma {:induction false} WithinIff(events: seq<Event>, tenant: string, id: string, p: string)
    requires AllowedRun(Empty(), events) && TenantId(tenant) && id != ""
    ensures Within(Run(Empty(), events), Key(tenant, id), p) <==> exists i: nat :: JoinedSince(events, i, tenant, id, p)
    decreases |events|
  {
    if events != [] {
      var n := |events| - 1;
      var before, e := events[..n], events[n];
      assert events == before + [e];
      AllowedSnoc(Empty(), before, e);
      WithinIff(before, tenant, id, p);
      Reachable(before);
      WithinStep(Run(Empty(), before), e, tenant, id, p);
      SinceStep(before, e, tenant, id, p);
    }
  }

  lemma SinceStep(before: seq<Event>, e: Event, tenant: string, id: string, p: string)
    ensures var events := before + [e];
            (exists i: nat :: JoinedSince(events, i, tenant, id, p)) <==>
            || Says(Run(Empty(), before), e, "join_channel", tenant, id, p)
            || ((exists i: nat :: JoinedSince(before, i, tenant, id, p)) && Stays(events, |before|, tenant, id, p))
  {
    var events, n := before + [e], |before|;
    if Says(Run(Empty(), before), e, "join_channel", tenant, id, p) {
      assert events[..n] == before;
      assert JoinedSince(events, n, tenant, id, p);
    }
    if i: nat :| JoinedSince(before, i, tenant, id, p) && Stays(events, n, tenant, id, p) {
      SinceLonger(before, e, i, tenant, id, p);
    }
    if i: nat :| JoinedSince(events, i, tenant, id, p) {
      SinceShorter(before, e, i, tenant, id, p);
    }
  }

  lemma SamePast(before: seq<Event>, e: Event, j: nat)
    requires j < |before|
    ensures (before + [e])[..j] == before[..j] && (before + [e])[j] == before[j]
  {
  }

  lemma SinceLonger(before: seq<Event>, e: Event, i: nat, tenant: string, id: string, p: string)
    requires JoinedSince(before, i, tenant, id, p) && Stays(before + [e], |before|, tenant, id, p)
    ensures JoinedSince(before + [e], i, tenant, id, p)
  {
    SamePast(before, e, i);
    forall j | i < j < |before + [e]| ensures Stays(before + [e], j, tenant, id, p) {
      if j < |before| {
        SamePast(before, e, j);
        assert Stays(before, j, tenant, id, p);
      }
    }
  }

  lemma SinceShorter(before: seq<Event>, e: Event, i: nat, tenant: string, id: string, p: string)
    requires JoinedSince(before + [e], i, tenant, id, p)
    ensures if i == |before| then Says(Run(Empty(), before), e, "join_channel", tenant, id, p)
            else JoinedSince(before, i, tenant, id, p) && Stays(before + [e], |before|, tenant, id, p)
  {
    if i == |before| {
      assert (before + [e])[..i] == before;
    } else {
      SamePast(before, e, i);
      forall j | i < j < |before| ensures Stays(before, j, tenant, id, p) {
        SamePast(before, e, j);
        assert Stays(before + [e], j, tenant, id, p);
      }
    }
  }

  // ---------------------------------------------------------------- who is connected, and who is notified

  predicate Registered(s: State, socket: Socket, user: User) {
    socket in s.socketUsers && s.socketUsers[socket] == user
  }

  /** Event number `i` connects the socket for the user, and since then it did not disconnect. */
  predicate ConnectedSince(events: seq<Event>, i: nat, socket: Socket, user: User) {
    && i < |events| && events[i] == Connect(socket, user)
    && forall j | i < j < |events| :: events[j] != Disconnect(socket)
  }

  lemma RegisteredStep(s: State, e: Event, socket: Socket, user: User)
    requires Allowed(s, e)
    ensures Registered(Apply(s, e), socket, user) <==>
            e == Connect(socket, user) || (Registered(s, socket, user) && e != Disconnect(socket))
  {
  }

  lemma ConnectedStep(before: seq<Event>, e: Event, socket: Socket, user: User)
    ensures (exists i: nat :: ConnectedSince(before + [e], i, socket, user)) <==>
            e == Connect(socket, user) || ((exists i: nat :: ConnectedSince(before, i, socket, user)) && e != Disconnect(socket))
  {
    var events := before + [e];
    assert forall j | 0 <= j < |before| :: before[j] == events[j];
    if e == Connect(socket, user) {
      assert ConnectedSince(events, |before|, socket, user);
    }
    if i: nat :| ConnectedSince(before, i, socket, user) && e != Disconnect(socket) {
      assert ConnectedSince(events, i, socket, user);
    }
    if i: nat :| ConnectedSince(events, i, socket, user) && e != Connect(socket, user) {
      assert events[|before|] == e;
      assert ConnectedSince(before, i, socket, user);
    }
  }

  /** In every run, a socket is registered for a user exactly if it connected for that user and has not
      disconnected since. */
  lemma {:induction false} RegisteredIff(events: seq<Event>, socket: Socket, user: User)
    requires AllowedRun(Empty(), events)
    ensures Registered(Run(Empty(), events), socket, user) <==> exists i: nat :: ConnectedSince(events, i, socket, user)
    decreases |events|
  {
    if events != [] {
      var n := |events| - 1;
      var before, e := events[..n], events[n];
      assert events == before + [e];
      AllowedSnoc(Empty(), before, e);
      RegisteredIff(before, socket, user);
      RegisteredStep(Run(Empty(), before), e, socket, user);
      ConnectedStep(before, e, socket, user);
    }
  }

  /** A notification is sent once to every socket registered for the user, and to no other. */
  lemma NotifyReaches(s: State, tenant: string, userId: string, payload: string, x: Sent)
    requires Inv(s) && TenantId(tenant)
    ensures Count(s, Notify(tenant, userId, payload), x) ==
            if && x.message == Notification(payload) && x.socket in s.socketUsers
               && s.socketUsers[x.socket].tenant == tenant && s.socketUsers[x.socket].userId == userId
            then 1 else 0
  {
    if x.socket in SocketsOf(s.userSockets, Key(tenant, userId)) {
      RouteIsUser(s, tenant, userId, x.socket);
    } else if x.socket in s.socketUsers {
      assert UserKept(s, x.socket);
    }
  }
}
