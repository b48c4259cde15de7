/**
 The gateway's own code over its three maps.  `Valid` says that what has happened so far is a run of
 `Collaboration` and that the messages sent are those the run sends, each as often.
 */
module CollaborationGateway {
  import opened Basics
  import opened Collaboration

  /** How often a run sends `x`. */
  function Total(s: State, events: seq<Event>, x: Sent): nat
    decreases |events|
  {
    if events == [] then 0 else Count(s, events[0], x) + Total(Apply(s, events[0]), events[1..], x)
  }

  lemma {:induction false} TotalSnoc(s: State, events: seq<Event>, e: Event, x: Sent)
    ensures Total(s, events + [e], x) == Total(s, events, x) + Count(Run(s, events), e, x)
    decreases |events|
  {
    if events == [] {
      assert events + [e] == [e];
    } else {
      assert (events + [e])[1..] == events[1..] + [e];
      TotalSnoc(Apply(s, events[0]), events[1..], e, x);
    }
  }

  lemma RoutesMore(userSockets: map<string, set<Socket>>, tenant: string, done: set<string>, p: string, excluded: string)
    requires p !in done
    ensures forall socket: Socket ::
      |Routes(userSockets, tenant, done + {p}, excluded, socket)|
      == |Routes(userSockets, tenant, done, excluded, socket)|
       + if p != excluded && socket in SocketsOf(userSockets, Key(tenant, p)) then 1 else 0
  {
    forall socket: Socket
      ensures |Routes(userSockets, tenant, done + {p}, excluded, socket)|
           == |Routes(userSockets, tenant, done, excluded, socket)|
            + if p != excluded && socket in SocketsOf(userSockets, Key(tenant, p)) then 1 else 0
    {
      OneRouteMore(userSockets, tenant, done, p, excluded, socket);
    }
  }

  lemma OneRouteMore(userSockets: map<string, set<Socket>>, tenant: string, done: set<string>, p: string, excluded: string, socket: Socket)
    requires p !in done
    ensures |Routes(userSockets, tenant, done + {p}, excluded, socket)|
         == |Routes(userSockets, tenant, done, excluded, socket)|
          + if p != excluded && socket in SocketsOf(userSockets, Key(tenant, p)) then 1 else 0
  {
    var before, after := Routes(userSockets, tenant, done, excluded, socket), Routes(userSockets, tenant, done + {p}, excluded, socket);
    if p != excluded && socket in SocketsOf(userSockets, Key(tenant, p)) {
      assert after == before + {p};
    } else {
      assert after == before;
    }
  }

  /** The channels when the user has left those not in `todo`. */
  function Partly(before: map<string, Channel>, after: map<string, Channel>, todo: set<string>): map<string, Channel> {
    map k | k in before && (k in todo || k in after) :: if k in todo then before[k] else if k in after then after[k] else before[k]
  }

  /** The channels when the user has left one of them, if it is the tenant's. */
  function LeftOne(channels: map<string, Channel>, user: User, k: string): map<string, Channel>
    requires k in channels
  {
    if !StartsWith(k, user.tenant + ":") then channels
    else if channels[k].participants <= {user.userId} then channels - {k}
    else channels[k := channels[k].(participants := channels[k].participants - {user.userId})]
  }

  lemma PartlyStep(before: map<string, Channel>, user: User, todo: set<string>, k: string)
    requires k in todo && k in before
    ensures var after := WithoutUser(before, user.tenant, user.userId);
            && k in Partly(before, after, todo) && Partly(before, after, todo)[k] == before[k]
            && Partly(before, after, todo - {k}) == LeftOne(Partly(before, after, todo), user, k)
  {
  }

  lemma PartlyEnds(before: map<string, Channel>, user: User)
    ensures var after := WithoutUser(before, user.tenant, user.userId);
            Partly(before, after, before.Keys) == before && Partly(before, after, {}) == after
  {
  }

  class Gateway {
    var channels: map<string, Channel>
    var userSockets: map<string, set<Socket>>
    var socketUsers: map<Socket, User>
    var sent: multiset<Sent>
    ghost var events: seq<Event>

    function Current(): State
      reads this
    {
      State(channels, userSockets, socketUsers)
    }

    ghost predicate Valid()
      reads this
    {
      && AllowedRun(Empty(), events) && Current() == Run(Empty(), events)
      && forall x: Sent :: sent[x] == Total(Empty(), events, x)
    }

    constructor ()
      ensures Valid() && events == [] && Current() == Empty() && sent == multiset{}
    {
      channels, userSockets, socketUsers, sent, events := map[], map[], map[], multiset{}, [];
    }

    lemma ValidInv()
      requires Valid()
      ensures Inv(Current())
    {
      Reachable(events);
    }

    /** Records the event that the code has just carried out. */
    ghost method Record(e: Event, before: State, sentBefore: multiset<Sent>)
      requires AllowedRun(Empty(), events) && before == Run(Empty(), events) && Allowed(before, e)
      requires forall x: Sent :: sentBefore[x] == Total(Empty(), events, x)
      requires Current() == Apply(before, e) && forall x: Sent :: sent[x] == sentBefore[x] + Count(before, e, x)
      modifies this`events
      ensures Valid() && events == old(events) + [e]
    {
      RunSnoc(Empty(), events, e);
      forall x: Sent ensures sent[x] == Total(Empty(), events + [e], x) {
        TotalSnoc(Empty(), events, e, x);
      }
      events := events + [e];
    }

    // -------------------------------------------------------------- sending

    method SendAll(sockets: set<Socket>, message: Message)
      modifies this`sent
      ensures forall x: Sent :: sent[x] == old(sent)[x] + if x.message == message && x.socket in sockets then 1 else 0
    {
      var todo := sockets;
      while todo != {}
        invariant todo <= sockets
        invariant forall x: Sent ::
          sent[x] == old(sent)[x] + if x.message == message && x.socket in sockets && x.socket !in todo then 1 else 0
      {
        var socket :| socket in todo;
        todo := todo - {socket};
        sent := sent + multiset{Sent(socket, message)};
      }
    }

    /** `broadcastToChannel` */
    method BroadcastToChannel(tenant: string, id: string, message: Message, excluded: string)
      modifies this`sent
      ensures forall x: Sent ::
        sent[x] == old(sent)[x] + if x.message == message then Copies(Current(), tenant, id, excluded, x.socket) else 0
    {
      var key := Key(tenant, id);
      if key !in channels {
        return;
      }
      var participants := channels[key].participants;
      var todo := participants;
      while todo != {}
        invariant todo <= participants
        invariant forall x: Sent ::
          sent[x] == old(sent)[x] +
            if x.message == message then |Routes(userSockets, tenant, participants - todo, excluded, x.socket)| else 0
      {
        var p :| p in todo;
        RoutesMore(userSockets, tenant, participants - todo, p, excluded);
        assert participants - (todo - {p}) == participants - todo + {p};
        todo := todo - {p};
        if p == excluded {
          continue;
        }
        SendAll(SocketsOf(userSockets, Key(tenant, p)), message);
      }
      assert participants - todo == participants;
    }

    /** `sendToUser`, as `notifyEvent` uses it. */
    method Notify(tenant: string, userId: string, payload: string)
      requires Valid() && TenantId(tenant)
      modifies this
      ensures Valid() && events == old(events) + [Event.Notify(tenant, userId, payload)] && Current() == old(Current())
    {
      SendAll(SocketsOf(userSockets, Key(tenant, userId)), Notification(payload));
      Record(Event.Notify(tenant, userId, payload), old(Current()), old(sent));
    }

    // -------------------------------------------------------------- connecting

    /** `handleConnection`; `verified` is the user that the token belongs to, if it is valid.  A socket
        that is registered already is registered again; the maps stay consistent only if it is for the
        same user. */
    method HandleConnection(socket: Socket, token: Option<string>, verified: Option<User>) returns (user: Option<User>)
      requires Valid() && (verified.Some? ==> TenantId(verified.value.tenant))
      modifies this
      ensures user == if OrEmptyToken(token) == "" then None else verified
      ensures sent == old(sent)
      ensures Current() == if user.Some? then Connected(old(Current()), socket, user.value) else old(Current())
      ensures user.None? ==> Valid() && events == old(events)
      ensures user.Some? && socket !in old(socketUsers) ==> Valid() && events == old(events) + [Connect(socket, user.value)]
      ensures user.Some? && socket in old(socketUsers) ==>
              (Inv(Current()) <==> UserKey(old(socketUsers)[socket]) == UserKey(user.value))
    {
      if OrEmptyToken(token) == "" || verified.None? {
        return None;
      }
      user := verified;
      ValidInv();
      if socket in socketUsers {
        ReconnectBreaks(Current(), socket, user.value);
      }
      ghost var again := socket in socketUsers;
      socketUsers := socketUsers[socket := user.value];
      var key := UserKey(user.value);
      var sockets := SocketsOf(userSockets, key);
      userSockets := userSockets[key := sockets + {socket}];
      if !again {
        Record(Connect(socket, user.value), old(Current()), old(sent));
      }
    }

    /** One turn of the loop below. */
    method RemoveUserFromChannel(k: string, user: User)
      requires k in channels && TenantId(user.tenant) && KeyOfTenant(k) && Tail(k) == channels[k].id
      modifies this`channels, this`sent
      ensures channels == LeftOne(old(channels), user, k)
      ensures forall x: Sent ::
        sent[x] == old(sent)[x] +
          if Head(k) == user.tenant && x.message == UserLeft(Tail(k), user.userId)
          then Copies(Current(), user.tenant, Tail(k), user.userId, x.socket) else 0
    {
      PrefixOfKey(k, user.tenant);
      if !StartsWith(k, user.tenant + ":") {
        return;
      }
      var channel := channels[k].(participants := channels[k].participants - {user.userId});
      if channel.participants == {} {
        channels := channels - {k};
      } else {
        channels := channels[k := channel];
        BroadcastToChannel(user.tenant, channel.id, UserLeft(channel.id, user.userId), user.userId);
      }
    }

    /** `removeUserFromAllChannels` */
    method RemoveUserFromAllChannels(user: User)
      requires TenantId(user.tenant) && forall k | k in channels :: KeyOfTenant(k) && Tail(k) == channels[k].id
      modifies this`channels, this`sent
      ensures channels == WithoutUser(old(channels), user.tenant, user.userId)
      ensures forall x: Sent :: sent[x] == old(sent)[x] + LeftCopies(userSockets, channels, user, old(channels).Keys, x)
    {
      ghost var before, after := channels, WithoutUser(channels, user.tenant, user.userId);
      var todo := channels.Keys;
      PartlyEnds(before, user);
      while todo != {}
        invariant todo <= before.Keys && channels == Partly(before, after, todo)
        invariant forall x: Sent :: sent[x] == old(sent)[x] + LeftCopies(userSockets, after, user, before.Keys - todo, x)
      {
        var k :| k in todo;
        PartlyStep(before, user, todo, k);
        RemoveUserFromChannel(k, user);
        LeftCopiesMore(userSockets, after, user, before.Keys - todo, k);
        SameCopies(Current(), State(after, userSockets, map[]), user.tenant, k, user.userId);
        assert before.Keys - (todo - {k}) == before.Keys - todo + {k};
        todo := todo - {k};
      }
      assert before.Keys - todo == before.Keys;
    }

    /** What `handleDisconnect` does for a known socket. */
    method DropSocket(socket: Socket)
      requires Inv(Current()) && socket in socketUsers
      modifies this`channels, this`userSockets, this`socketUsers, this`sent
      ensures Current() == Disconnected(old(Current()), socket)
      ensures forall x: Sent :: sent[x] == old(sent)[x] + Count(old(Current()), Disconnect(socket), x)
    {
      ghost var before := Current();
      var user := socketUsers[socket];
      var key := UserKey(user);
      assert UserKept(before, socket);
      if key in userSockets {
        var sockets := userSockets[key] - {socket};
        if sockets == {} {
          userSockets := userSockets - {key};
          assert forall k | k in channels :: ChannelKept(before, k);
          RemoveUserFromAllChannels(user);
          LeftCopiesAll(before, socket, userSockets);
        } else {
          userSockets := userSockets[key := sockets];
        }
      }
      socketUsers := socketUsers - {socket};
    }

    /** `handleDisconnect` */
    method HandleDisconnect(socket: Socket)
      requires Valid()
      modifies this
      ensures Valid() && events == old(events) + [Disconnect(socket)]
    {
      ValidInv();
      if socket in socketUsers {
        DropSocket(socket);
      }
      Record(Disconnect(socket), old(Current()), old(sent));
    }

    // -------------------------------------------------------------- messages

    method JoinChannel(id: string, user: User)
      modifies this`channels
      ensures channels == Joined(old(channels), id, user)
    {
      var key := Key(user.tenant, id);
      if key in channels {
        channels := channels[key := channels[key].(participants := channels[key].participants + {user.userId})];
      } else {
        channels := channels[key := Channel(id, Head(id), {user.userId})];
      }
    }

    method LeaveChannel(id: string, user: User)
      modifies this`channels
      ensures channels == Left(old(channels), id, user)
    {
      var key := Key(user.tenant, id);
      if key in channels {
        var channel := channels[key].(participants := channels[key].participants - {user.userId});
        if channel.participants == {} {
          channels := channels - {key};
        } else {
          channels := channels[key := channel];
        }
      }
    }

    /** `handleMessage`: whether the message is answered. */
    method HandleMessage(socket: Socket, bytes: nat, parsed: Option<Request>) returns (accepted: bool)
      requires Valid()
      modifies this
      ensures Valid() && events == old(events) + [Incoming(socket, bytes, parsed)]
      ensures accepted == Accepted(old(Current()), socket, bytes, parsed)
    {
      ghost var before := Current();
      accepted := false;
      if socket in socketUsers && WellFormed(bytes, parsed) {
        accepted := Dispatch(socketUsers[socket], parsed.value);
      }
      assert Current() == AfterMessage(before, socket, bytes, parsed);
      Record(Incoming(socket, bytes, parsed), before, old(sent));
    }

    method Dispatch(user: User, r: Request) returns (accepted: bool)
      modifies this`channels, this`sent
      ensures accepted == (r.kind == "join_channel" || r.kind == "leave_channel" ||
                           (RelayKind(r.kind) && r.channel != "" && Member(old(channels), r.channel, user)))
      ensures channels == if r.channel == "" then old(channels)
                          else if r.kind == "join_channel" then Joined(old(channels), r.channel, user)
                          else if r.kind == "leave_channel" then Left(old(channels), r.channel, user)
                          else old(channels)
      ensures forall x: Sent ::
        sent[x] == old(sent)[x] +
          if accepted && r.channel != "" && x.message == Broadcast(user, r)
          then Copies(Current(), user.tenant, r.channel, user.userId, x.socket) else 0
    {
      if r.kind == "join_channel" {
        if r.channel != "" {
          JoinChannel(r.channel, user);
          BroadcastToChannel(user.tenant, r.channel, UserJoined(r.channel, user.userId, user.name), user.userId);
        }
        return true;
      }
      if r.kind == "leave_channel" {
        if r.channel != "" {
          LeaveChannel(r.channel, user);
          BroadcastToChannel(user.tenant, r.channel, UserLeft(r.channel, user.userId), user.userId);
        }
        return true;
      }
      if RelayKind(r.kind) {
        if r.channel == "" || !Member(channels, r.channel, user) {
          return false;
        }
        BroadcastToChannel(user.tenant, r.channel, Relayed(r.kind, r.channel, r.payload, user.userId), user.userId);
        return true;
      }
      return false;
    }

    // -------------------------------------------------------------- garbage collection

    method CollectEmpty()
      modifies this`channels
      ensures channels == Collected(old(channels))
    {
      var todo := channels.Keys;
      while todo != {}
        invariant todo <= channels.Keys <= old(channels).Keys
        invariant forall k | k in channels :: channels[k] == old(channels)[k]
        invariant forall k | k in old(channels) && k !in todo :: k in channels <==> old(channels)[k].participants != {}
      {
        var k :| k in todo;
        todo := todo - {k};
        if channels[k].participants == {} {
          channels := channels - {k};
        }
      }
    }

    /** The collection timer; it never finds anything. */
    method OnCollectionTimer()
      requires Valid()
      modifies this
      ensures Valid() && Current() == old(Current()) && events == old(events) + [CollectGarbage]
    {
      ValidInv();
      NothingToCollect(Current());
      CollectEmpty();
      Record(CollectGarbage, old(Current()), old(sent));
    }
  }

  function OrEmptyToken(token: Option<string>): string {
    if token.Some? then token.value else ""
  }

  /** The `user_left` messages for the channels in `done`: one broadcast in each that is still there. */
  function LeftCopies(userSockets: map<string, set<Socket>>, channels: map<string, Channel>, user: User, done: set<string>, x: Sent): nat {
    if x.message.UserLeft? && x.message.userId == user.userId && Key(user.tenant, x.message.channel) in done
    then Copies(State(channels, userSockets, map[]), user.tenant, x.message.channel, user.userId, x.socket)
    else 0
  }

  lemma PrefixOfKey(k: string, tenant: string)
    requires TenantId(tenant) && KeyOfTenant(k)
    ensures StartsWith(k, tenant + ":") <==> Head(k) == tenant
  {
    TenantNoColon(tenant);
    TenantNoColon(Head(k));
    PrefixIsTenant(k, tenant);
  }

  lemma LeftCopiesMore(userSockets: map<string, set<Socket>>, channels: map<string, Channel>, user: User, done: set<string>, k: string)
    requires k !in done && KeyOfTenant(k) && TenantId(user.tenant)
    ensures forall x: Sent ::
      LeftCopies(userSockets, channels, user, done + {k}, x) == LeftCopies(userSockets, channels, user, done, x) +
        if Head(k) == user.tenant && x.message == UserLeft(Tail(k), user.userId)
        then Copies(State(channels, userSockets, map[]), user.tenant, Tail(k), user.userId, x.socket) else 0
  {
    forall x: Sent | x.message.UserLeft?
      ensures Key(user.tenant, x.message.channel) == k <==> Head(k) == user.tenant && x.message.channel == Tail(k)
    {
      TenantNoColon(user.tenant);
      TenantNoColon(Head(k));
      KeyInjective(user.tenant, x.message.channel, Head(k), Tail(k));
    }
  }

  /** A broadcast depends on the one channel only. */
  lemma SameCopies(a: State, b: State, tenant: string, k: string, excluded: string)
    requires TenantId(tenant) && KeyOfTenant(k) && a.userSockets == b.userSockets
    requires (k in a.channels) == (k in b.channels) && (k in a.channels ==> a.channels[k] == b.channels[k])
    ensures Head(k) == tenant ==>
            forall socket: Socket :: Copies(a, tenant, Tail(k), excluded, socket) == Copies(b, tenant, Tail(k), excluded, socket)
  {
  }

  /** What leaving all channels sends is what the disconnect step sends. */
  lemma LeftCopiesAll(s: State, socket: Socket, userSockets: map<string, set<Socket>>)
    requires socket in s.socketUsers && LastSocket(s, socket) && userSockets == s.userSockets - {UserKey(s.socketUsers[socket])}
    ensures var user := s.socketUsers[socket];
            forall x: Sent ::
              LeftCopies(userSockets, WithoutUser(s.channels, user.tenant, user.userId), user, s.channels.Keys, x)
              == Count(s, Disconnect(socket), x)
  {
  }
}
