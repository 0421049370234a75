/** The Socket.IO signaling and presence server (`socketHandler`): three tables kept
    in place (activeUsers, userSockets, activeCalls), the per-connection
    `currentUserId`, and the transport's rooms (`chat:<id>` and `user:<id>`) made
    explicit. Every handler returns its emits, each resolved to the set of sockets it
    reaches at the moment it is sent. */
module Signaling {
  import opened Wrappers

  type SocketId = string
  type UserId = string
  type ChatId = string

  datatype Status = Online | Offline

  /** The message object relayed by `new message`: the fields the handler reads
      (`chat._id`, `chat.users`, `sender._id`) and the rest as an opaque body. */
  datatype ChatMessage = ChatMessage(chatId: ChatId, users: Option<seq<UserId>>, senderId: UserId, body: string)

  /** An entry of activeCalls, keyed by the callee. */
  datatype CallInfo = CallInfo(callerId: UserId, callType: string)

  /** Outbound events; `IncomingCall` is the server's `call_user` emit. */
  datatype OutEvent =
    | UserStatus(userId: UserId, status: Status)
    | ActiveUsers(users: set<UserId>)
    | MessageReceived(message: ChatMessage)
    | StopTyping(chatId: ChatId, userId: UserId)
    | Typing(chatId: ChatId, userId: UserId)
    | TypingStopped(chatId: ChatId, userId: UserId)
    | MessageRead(messageId: string, chatId: ChatId, userId: UserId)
    | IncomingCall(from: UserId, callerName: string, signal: string, callType: string)
    | CallError(reason: string)
    | CallAccepted(signal: string)
    | IceCandidate(candidate: string)
    | CallRejected
    | CallEnded

  /** One emit: the sockets it reaches and the event. */
  datatype Delivery = Delivery(to: set<SocketId>, event: OutEvent)

  /** The events a socket receives from an outbox, in order. */
  function Received(out: seq<Delivery>, s: SocketId): seq<OutEvent>
    decreases |out|
  {
    if out == [] then []
    else Received(out[..|out| - 1], s) + (if s in out[|out| - 1].to then [out[|out| - 1].event] else [])
  }

  lemma {:induction false} ReceivedAppend(a: seq<Delivery>, b: seq<Delivery>, s: SocketId)
    ensures Received(a + b, s) == Received(a, s) + Received(b, s)
    decreases |b|
  {
    if b == [] {
      assert a + b == a;
    } else {
      var b' := b[..|b| - 1];
      assert (a + b)[..|a + b| - 1] == a + b';
      ReceivedAppend(a, b', s);
    }
  }

  // ----- rooms and the per-user socket sets -----

  function Members<K>(table: map<K, set<SocketId>>, k: K): set<SocketId> {
    if k in table then table[k] else {}
  }

  /** `socket.join(room)`, and `activeUsers.get(userId).add(socket.id)`. */
  function Join<K>(table: map<K, set<SocketId>>, k: K, s: SocketId): map<K, set<SocketId>> {
    table[k := Members(table, k) + {s}]
  }

  /** `socket.leave(room)`. */
  function Leave<K>(table: map<K, set<SocketId>>, k: K, s: SocketId): map<K, set<SocketId>> {
    if k in table then table[k := table[k] - {s}] else table
  }

  /** What the transport does to a closed socket: it leaves every room. */
  function LeaveAll<K>(table: map<K, set<SocketId>>, s: SocketId): (r: map<K, set<SocketId>>)
    ensures r.Keys == table.Keys
    ensures forall k | k in table :: r[k] == table[k] - {s}
  {
    map k | k in table :: table[k] - {s}
  }

  /** The disconnect handler's update of activeUsers: drop the socket from the user's
      set, and the user's key when that set becomes empty. */
  function RemoveSocket(table: map<UserId, set<SocketId>>, u: UserId, s: SocketId): map<UserId, set<SocketId>> {
    if u !in table then table
    else if table[u] - {s} == {} then table - {u}
    else table[u := table[u] - {s}]
  }

  ghost predicate NoEmptySets<K>(table: map<K, set<SocketId>>) {
    forall k | k in table :: table[k] != {}
  }

  /** Adding and removing a socket keep every user key mapped to a non-empty set, and
      the key leaves the table exactly when its last socket is removed. */
  lemma PresenceTableFacts(table: map<UserId, set<SocketId>>, u: UserId, s: SocketId)
    requires NoEmptySets(table)
    ensures NoEmptySets(Join(table, u, s)) && NoEmptySets(RemoveSocket(table, u, s))
    ensures u in RemoveSocket(table, u, s) <==> Members(table, u) - {s} != {}
    ensures forall v | v != u :: Members(RemoveSocket(table, u, s), v) == Members(table, v)
    ensures Members(RemoveSocket(table, u, s), u) == Members(table, u) - {s}
  {
  }

  /** Removing a socket just added restores the table: connect then disconnect of a
      fresh socket leaves activeUsers as it was. */
  lemma RemoveAfterJoin(table: map<UserId, set<SocketId>>, u: UserId, s: SocketId)
    requires NoEmptySets(table)
    requires s !in Members(table, u)
    ensures RemoveSocket(Join(table, u, s), u, s) == table
  {
    if u in table {
      assert (table[u] + {s}) - {s} == table[u];
      assert table[u := table[u]] == table;
    } else {
      assert Join(table, u, s) - {u} == table;
    }
  }

  /** The per-user emits of `new message`: one `message received` to the personal
      room of every listed user whose id differs from the sender's, in list order. */
  function PersonalFanout(users: seq<UserId>, m: ChatMessage, userRooms: map<UserId, set<SocketId>>): seq<Delivery>
    decreases |users|
  {
    if users == [] then []
    else
      var last := users[|users| - 1];
      PersonalFanout(users[..|users| - 1], m, userRooms)
        + (if last != m.senderId then [Delivery(Members(userRooms, last), MessageReceived(m))] else [])
  }

  /** Both directions: every fan-out emit goes to a listed non-sender's personal room,
      and every listed non-sender gets one. */
  lemma {:induction false} PersonalFanoutExact(users: seq<UserId>, m: ChatMessage, userRooms: map<UserId, set<SocketId>>)
    ensures forall d | d in PersonalFanout(users, m, userRooms) ::
              d.event == MessageReceived(m) && exists i | 0 <= i < |users| :: users[i] != m.senderId && d.to == Members(userRooms, users[i])
    ensures forall i | 0 <= i < |users| && users[i] != m.senderId ::
              Delivery(Members(userRooms, users[i]), MessageReceived(m)) in PersonalFanout(users, m, userRooms)
    decreases |users|
  {
    if users != [] {
      var init := users[..|users| - 1];
      PersonalFanoutExact(init, m, userRooms);
      forall d | d in PersonalFanout(users, m, userRooms)
        ensures d.event == MessageReceived(m) && exists i | 0 <= i < |users| :: users[i] != m.senderId && d.to == Members(userRooms, users[i])
      {
        if d in PersonalFanout(init, m, userRooms) {
          var i :| 0 <= i < |init| && init[i] != m.senderId && d.to == Members(userRooms, init[i]);
          assert users[i] == init[i];
        } else {
          assert users[|users| - 1] != m.senderId && d.to == Members(userRooms, users[|users| - 1]);
        }
      }
      forall i | 0 <= i < |users| && users[i] != m.senderId
        ensures Delivery(Members(userRooms, users[i]), MessageReceived(m)) in PersonalFanout(users, m, userRooms)
      {
        if i < |init| {
          assert init[i] == users[i];
        }
      }
    }
  }

  /** The fan-out sends nothing at all when the sender is the only listed user or the
      list is empty. */
  lemma {:induction false} PersonalFanoutSenderOnly(users: seq<UserId>, m: ChatMessage, userRooms: map<UserId, set<SocketId>>)
    requires forall i | 0 <= i < |users| :: users[i] == m.senderId
    ensures PersonalFanout(users, m, userRooms) == []
    decreases |users|
  {
    if users != [] {
      PersonalFanoutSenderOnly(users[..|users| - 1], m, userRooms);
    }
  }

  // ----- the invariant of the tables, as predicates on their values -----

  ghost predicate FiledUnderOwner(userSockets: map<SocketId, UserId>, activeUsers: map<UserId, set<SocketId>>) {
    forall s | s in userSockets :: userSockets[s] in activeUsers && s in activeUsers[userSockets[s]]
  }

  ghost predicate CurrentAgrees(current: map<SocketId, UserId>, connected: set<SocketId>, userSockets: map<SocketId, UserId>) {
    forall s | s in current :: s in connected && s in userSockets && userSockets[s] == current[s]
  }

  ghost predicate RoomsOpen<K>(rooms: map<K, set<SocketId>>, connected: set<SocketId>) {
    forall k | k in rooms :: rooms[k] <= connected
  }

  ghost predicate PersonalRoomsFiled(userRooms: map<UserId, set<SocketId>>, activeUsers: map<UserId, set<SocketId>>) {
    forall u | u in userRooms :: userRooms[u] <= Members(activeUsers, u)
  }

  ghost predicate TablesOk(connected: set<SocketId>, current: map<SocketId, UserId>,
                           activeUsers: map<UserId, set<SocketId>>, userSockets: map<SocketId, UserId>,
                           chatRooms: map<ChatId, set<SocketId>>, userRooms: map<UserId, set<SocketId>>) {
    && NoEmptySets(activeUsers)
    && FiledUnderOwner(userSockets, activeUsers)
    && CurrentAgrees(current, connected, userSockets)
    && RoomsOpen(chatRooms, connected)
    && RoomsOpen(userRooms, connected)
    && PersonalRoomsFiled(userRooms, activeUsers)
  }

  /** Whether the disconnect handler cleans up after s: s is filed under a truthy id. */
  predicate Identified(userSockets: map<SocketId, UserId>, s: SocketId) {
    s in userSockets && userSockets[s] != ""
  }

  /** The disconnect of s empties its user's set: the 1 -> 0 edge. */
  predicate WentOffline(activeUsers: map<UserId, set<SocketId>>, userSockets: map<SocketId, UserId>, s: SocketId) {
    Identified(userSockets, s) && userSockets[s] in activeUsers && activeUsers[userSockets[s]] - {s} == {}
  }

  /** activeUsers after the disconnect handler. */
  function ForgetSocket(activeUsers: map<UserId, set<SocketId>>, userSockets: map<SocketId, UserId>, s: SocketId): map<UserId, set<SocketId>> {
    if Identified(userSockets, s) then RemoveSocket(activeUsers, userSockets[s], s) else activeUsers
  }

  /** The disconnect handler's effect on presence: only the departing socket's user
      changes, it loses exactly that socket, and its key goes (the `offline` edge)
      exactly when that socket was its last. */
  lemma ForgetSocketFacts(activeUsers: map<UserId, set<SocketId>>, userSockets: map<SocketId, UserId>, s: SocketId)
    requires NoEmptySets(activeUsers) && FiledUnderOwner(userSockets, activeUsers)
    ensures NoEmptySets(ForgetSocket(activeUsers, userSockets, s))
    ensures WentOffline(activeUsers, userSockets, s) <==> Identified(userSockets, s) && activeUsers[userSockets[s]] == {s}
    ensures Identified(userSockets, s) ==>
              && (userSockets[s] in ForgetSocket(activeUsers, userSockets, s) <==> !WentOffline(activeUsers, userSockets, s))
              && Members(ForgetSocket(activeUsers, userSockets, s), userSockets[s]) == activeUsers[userSockets[s]] - {s}
    ensures forall v | !Identified(userSockets, s) || v != userSockets[s] ::
              Members(ForgetSocket(activeUsers, userSockets, s), v) == Members(activeUsers, v)
  {
    if Identified(userSockets, s) {
      PresenceTableFacts(activeUsers, userSockets[s], s);
    }
  }

  lemma IdentifyKeepsTables(connected: set<SocketId>, current: map<SocketId, UserId>,
                            activeUsers: map<UserId, set<SocketId>>, userSockets: map<SocketId, UserId>,
                            chatRooms: map<ChatId, set<SocketId>>, userRooms: map<UserId, set<SocketId>>,
                            s: SocketId, u: UserId)
    requires TablesOk(connected, current, activeUsers, userSockets, chatRooms, userRooms) && s in connected
    ensures TablesOk(connected, current[s := u], Join(activeUsers, u, s), userSockets[s := u], chatRooms, Join(userRooms, u, s))
  {
    var au := Join(activeUsers, u, s);
    var us := userSockets[s := u];
    var ur := Join(userRooms, u, s);
    assert FiledUnderOwner(us, au) by {
      forall t | t in us ensures us[t] in au && t in au[us[t]] {
        if t != s {
          assert t in activeUsers[userSockets[t]];
        }
      }
    }
    assert PersonalRoomsFiled(ur, au) by {
      forall v | v in ur ensures ur[v] <= Members(au, v) {
        if v != u {
          assert ur[v] == userRooms[v];
        }
      }
    }
  }

  /** Identifying a socket again under its own user changes neither table; under a
      different user, the socket stays in the old user's set. */
  lemma IdentifyRepeatOrMove(activeUsers: map<UserId, set<SocketId>>, userSockets: map<SocketId, UserId>,
                             s: SocketId, u: UserId)
    requires FiledUnderOwner(userSockets, activeUsers)
    ensures s in userSockets && userSockets[s] == u ==>
              Join(activeUsers, u, s) == activeUsers && userSockets[s := u] == userSockets
    ensures s in userSockets && userSockets[s] != u ==>
              userSockets[s] in Join(activeUsers, u, s) && s in Join(activeUsers, u, s)[userSockets[s]]
  {
    if s in userSockets && userSockets[s] == u {
      assert activeUsers[u] + {s} == activeUsers[u];
    }
  }

  lemma DisconnectKeepsTables(connected: set<SocketId>, current: map<SocketId, UserId>,
                              activeUsers: map<UserId, set<SocketId>>, userSockets: map<SocketId, UserId>,
                              chatRooms: map<ChatId, set<SocketId>>, userRooms: map<UserId, set<SocketId>>,
                              s: SocketId)
    requires TablesOk(connected, current, activeUsers, userSockets, chatRooms, userRooms) && s in connected
    ensures TablesOk(connected - {s}, current - {s}, ForgetSocket(activeUsers, userSockets, s),
                     if Identified(userSockets, s) then userSockets - {s} else userSockets,
                     LeaveAll(chatRooms, s), LeaveAll(userRooms, s))
  {
    var au := ForgetSocket(activeUsers, userSockets, s);
    var us := if Identified(userSockets, s) then userSockets - {s} else userSockets;
    var ur := LeaveAll(userRooms, s);
    if Identified(userSockets, s) {
      var u := userSockets[s];
      PresenceTableFacts(activeUsers, u, s);
      assert FiledUnderOwner(us, au) by {
        forall t | t in us ensures us[t] in au && t in au[us[t]] {
          assert t != s;
          assert t in activeUsers[userSockets[t]];
          assert t in Members(au, us[t]);
        }
      }
    }
    assert CurrentAgrees(current - {s}, connected - {s}, us);
    assert PersonalRoomsFiled(ur, au) by {
      forall v | v in ur ensures ur[v] <= Members(au, v) {
        assert ur[v] == userRooms[v] - {s};
        if Identified(userSockets, s) {
          PresenceTableFacts(activeUsers, userSockets[s], s);
        }
      }
    }
  }

  class Server {
    /** The sockets the transport holds open (the target of `io.emit`). */
    var connected: set<SocketId>
    /** Each open connection's `currentUserId`, once it has identified. */
    var current: map<SocketId, UserId>
    var activeUsers: map<UserId, set<SocketId>>
    var userSockets: map<SocketId, UserId>
    var activeCalls: map<UserId, CallInfo>
    /** Members of the rooms `chat:<chatId>`. */
    var chatRooms: map<ChatId, set<SocketId>>
    /** Members of the personal rooms `user:<userId>`. */
    var userRooms: map<UserId, set<SocketId>>

    /** What the handlers keep: no user key maps to an empty set, a socket's recorded
        user has the socket in its set, rooms hold open sockets only, and a personal
        room holds only sockets filed under that user. A socket filed under a user
        need not map back to that user (see Identify). */
    ghost predicate Valid()
      reads this
    {
      TablesOk(connected, current, activeUsers, userSockets, chatRooms, userRooms)
    }

    constructor ()
      ensures Valid()
      ensures connected == {} && current == map[] && activeUsers == map[] && userSockets == map[]
      ensures activeCalls == map[] && chatRooms == map[] && userRooms == map[]
    {
      connected, current := {}, map[];
      activeUsers, userSockets, activeCalls := map[], map[], map[];
      chatRooms, userRooms := map[], map[];
    }

    /** `io.on('connection')`: a new socket, with no user yet. */
    method Connect(s: SocketId)
      requires Valid() && s !in connected
      modifies this
      ensures Valid()
      ensures connected == old(connected) + {s}
      ensures current == old(current) && activeUsers == old(activeUsers) && userSockets == old(userSockets)
      ensures activeCalls == old(activeCalls) && chatRooms == old(chatRooms) && userRooms == old(userRooms)
    {
      connected := connected + {s};
    }

    /** `user_connected`: file the socket under the user, join `user:<id>`, broadcast
        `online` to every socket (on every identify, not only the first) and send the
        online-user snapshot to this socket only. Identifying again under another user
        leaves the socket in the earlier user's set. */
    method Identify(s: SocketId, u: UserId) returns (out: seq<Delivery>)
      requires Valid() && s in connected
      modifies this
      ensures Valid()
      ensures activeUsers == Join(old(activeUsers), u, s)
      ensures userSockets == old(userSockets)[s := u] && current == old(current)[s := u]
      ensures userRooms == Join(old(userRooms), u, s)
      ensures connected == old(connected) && activeCalls == old(activeCalls) && chatRooms == old(chatRooms)
      ensures out == [Delivery(connected, UserStatus(u, Online)), Delivery({s}, ActiveUsers(activeUsers.Keys))]
      ensures old(s in userSockets && userSockets[s] == u) ==>
                activeUsers == old(activeUsers) && userSockets == old(userSockets)
      ensures old(s in userSockets) && old(userSockets[s]) != u ==> s in activeUsers[old(userSockets[s])]
    {
      IdentifyKeepsTables(connected, current, activeUsers, userSockets, chatRooms, userRooms, s, u);
      IdentifyRepeatOrMove(activeUsers, userSockets, s, u);
      var au, us := Join(activeUsers, u, s), userSockets[s := u];
      current := current[s := u];
      activeUsers := au;
      userSockets := us;
      userRooms := Join(userRooms, u, s);
      out := [Delivery(connected, UserStatus(u, Online)), Delivery({s}, ActiveUsers(au.Keys))];
      assert TablesOk(connected, current, activeUsers, userSockets, chatRooms, userRooms);
    }

    /** `new message`: join `chat:<id>`, relay to that room without the sender's socket,
        to the personal room of every listed user other than the sender, and send
        `stop typing` to the whole room. */
    method NewMessage(s: SocketId, m: ChatMessage) returns (out: seq<Delivery>)
      requires Valid() && s in connected
      modifies this
      ensures Valid()
      ensures chatRooms == Join(old(chatRooms), m.chatId, s)
      ensures connected == old(connected) && current == old(current) && activeUsers == old(activeUsers)
      ensures userSockets == old(userSockets) && activeCalls == old(activeCalls) && userRooms == old(userRooms)
      ensures out == [Delivery(Members(chatRooms, m.chatId) - {s}, MessageReceived(m))]
                   + (if m.users.Some? then PersonalFanout(m.users.value, m, userRooms) else [])
                   + [Delivery(Members(chatRooms, m.chatId), StopTyping(m.chatId, m.senderId))]
    {
      chatRooms := Join(chatRooms, m.chatId, s);
      var roomcast := [Delivery(Members(chatRooms, m.chatId) - {s}, MessageReceived(m))];
      out := roomcast;
      if m.users.Some? {
        var users := m.users.value;
        var rooms := userRooms;
        var i := 0;
        while i < |users|
          invariant 0 <= i <= |users|
          invariant out == roomcast + PersonalFanout(users[..i], m, rooms)
        {
          assert users[..i + 1][..i] == users[..i];
          if users[i] != m.senderId {
            out := out + [Delivery(Members(rooms, users[i]), MessageReceived(m))];
          }
          i := i + 1;
        }
        assert users[..|users|] == users;
      }
      out := out + [Delivery(Members(chatRooms, m.chatId), StopTyping(m.chatId, m.senderId))];
    }

    /** `typing`: join the room and relay to it without the sender's socket. */
    method Typing(s: SocketId, chatId: ChatId, u: UserId) returns (out: seq<Delivery>)
      requires Valid() && s in connected
      modifies this
      ensures Valid()
      ensures chatRooms == Join(old(chatRooms), chatId, s)
      ensures connected == old(connected) && current == old(current) && activeUsers == old(activeUsers)
      ensures userSockets == old(userSockets) && activeCalls == old(activeCalls) && userRooms == old(userRooms)
      ensures out == [Delivery(Members(chatRooms, chatId) - {s}, OutEvent.Typing(chatId, u))]
    {
      chatRooms := Join(chatRooms, chatId, s);
      out := [Delivery(Members(chatRooms, chatId) - {s}, OutEvent.Typing(chatId, u))];
    }

    /** `typing_stopped`: relay to the room without the sender's socket; no join. */
    method TypingStopped(s: SocketId, chatId: ChatId, u: UserId) returns (out: seq<Delivery>)
      requires Valid() && s in connected
      ensures out == [Delivery(Members(chatRooms, chatId) - {s}, OutEvent.TypingStopped(chatId, u))]
    {
      out := [Delivery(Members(chatRooms, chatId) - {s}, OutEvent.TypingStopped(chatId, u))];
    }

    /** `message_read`: join the room and relay to it without the sender's socket. */
    method MessageRead(s: SocketId, messageId: string, chatId: ChatId, u: UserId) returns (out: seq<Delivery>)
      requires Valid() && s in connected
      modifies this
      ensures Valid()
      ensures chatRooms == Join(old(chatRooms), chatId, s)
      ensures connected == old(connected) && current == old(current) && activeUsers == old(activeUsers)
      ensures userSockets == old(userSockets) && activeCalls == old(activeCalls) && userRooms == old(userRooms)
      ensures out == [Delivery(Members(chatRooms, chatId) - {s}, OutEvent.MessageRead(messageId, chatId, u))]
    {
      chatRooms := Join(chatRooms, chatId, s);
      out := [Delivery(Members(chatRooms, chatId) - {s}, OutEvent.MessageRead(messageId, chatId, u))];
    }

    /** `join_chat`. */
    method JoinChat(s: SocketId, chatId: ChatId)
      requires Valid() && s in connected
      modifies this
      ensures Valid()
      ensures chatRooms == Join(old(chatRooms), chatId, s)
      ensures connected == old(connected) && current == old(current) && activeUsers == old(activeUsers)
      ensures userSockets == old(userSockets) && activeCalls == old(activeCalls) && userRooms == old(userRooms)
    {
      chatRooms := Join(chatRooms, chatId, s);
    }

    /** `leave_chat`. */
    method LeaveChat(s: SocketId, chatId: ChatId)
      requires Valid() && s in connected
      modifies this
      ensures Valid()
      ensures chatRooms == Leave(old(chatRooms), chatId, s)
      ensures s !in Members(chatRooms, chatId)
      ensures connected == old(connected) && current == old(current) && activeUsers == old(activeUsers)
      ensures userSockets == old(userSockets) && activeCalls == old(activeCalls) && userRooms == old(userRooms)
    {
      chatRooms := Leave(chatRooms, chatId, s);
    }

    /** `call_user`: record the pending call first (overwriting any entry for that
        callee), then ring every device of the callee if it has a socket, or else send
        one `call_error` to the calling socket only. */
    method CallUser(s: SocketId, userToCall: UserId, signalData: string, from: UserId, callerName: string, callType: string)
      returns (out: seq<Delivery>)
      requires Valid() && s in connected
      modifies this
      ensures Valid()
      ensures activeCalls == old(activeCalls)[userToCall := CallInfo(from, callType)]
      ensures connected == old(connected) && current == old(current) && activeUsers == old(activeUsers)
      ensures userSockets == old(userSockets) && chatRooms == old(chatRooms) && userRooms == old(userRooms)
      ensures out == if Members(activeUsers, userToCall) != {}
                     then [Delivery(Members(userRooms, userToCall), IncomingCall(from, callerName, signalData, callType))]
                     else [Delivery({s}, CallError("User is offline"))]
    {
      activeCalls := activeCalls[userToCall := CallInfo(from, callType)];
      if userToCall in activeUsers && |activeUsers[userToCall]| > 0 {
        out := [Delivery(Members(userRooms, userToCall), IncomingCall(from, callerName, signalData, callType))];
      } else {
        out := [Delivery({s}, CallError("User is offline"))];
      }
    }

    /** `activeCalls.delete(currentUserId)`. A socket that never identified deletes the
        key `undefined`, which is where a call to a missing user id is filed; the model
        writes both as the empty id. */
    function WithoutOwnCall(s: SocketId): (r: map<UserId, CallInfo>)
      reads this
      ensures r.Keys == activeCalls.Keys - {if s in current then current[s] else ""}
      ensures forall u | u in r :: r[u] == activeCalls[u]
    {
      if s in current then activeCalls - {current[s]} else activeCalls - {""}
    }

    /** `call_accepted`: drop the pending call keyed by the answering user and relay
        the answer to every device of `to`. */
    method CallAccepted(s: SocketId, signal: string, to: UserId) returns (out: seq<Delivery>)
      requires Valid() && s in connected
      modifies this
      ensures Valid()
      ensures activeCalls == old(WithoutOwnCall(s))
      ensures s in current ==> current[s] !in activeCalls
      ensures connected == old(connected) && current == old(current) && activeUsers == old(activeUsers)
      ensures userSockets == old(userSockets) && chatRooms == old(chatRooms) && userRooms == old(userRooms)
      ensures out == [Delivery(Members(userRooms, to), OutEvent.CallAccepted(signal))]
    {
      activeCalls := WithoutOwnCall(s);
      out := [Delivery(Members(userRooms, to), OutEvent.CallAccepted(signal))];
    }

    /** `ice_candidate`: a stateless relay to every device of `to`. */
    method IceCandidate(s: SocketId, to: UserId, candidate: string) returns (out: seq<Delivery>)
      requires Valid() && s in connected
      ensures out == [Delivery(Members(userRooms, to), OutEvent.IceCandidate(candidate))]
    {
      out := [Delivery(Members(userRooms, to), OutEvent.IceCandidate(candidate))];
    }

    /** `reject_call`: drop the pending call keyed by the rejecting user and send
        `call_rejected` to every device of `to`. */
    method RejectCall(s: SocketId, to: UserId) returns (out: seq<Delivery>)
      requires Valid() && s in connected
      modifies this
      ensures Valid()
      ensures activeCalls == old(WithoutOwnCall(s))
      ensures s in current ==> current[s] !in activeCalls
      ensures connected == old(connected) && current == old(current) && activeUsers == old(activeUsers)
      ensures userSockets == old(userSockets) && chatRooms == old(chatRooms) && userRooms == old(userRooms)
      ensures out == [Delivery(Members(userRooms, to), CallRejected)]
    {
      activeCalls := WithoutOwnCall(s);
      out := [Delivery(Members(userRooms, to), CallRejected)];
    }

    /** `end_call`: a relay to every device of `to`; activeCalls is left as it is. */
    method EndCall(s: SocketId, to: UserId) returns (out: seq<Delivery>)
      requires Valid() && s in connected
      ensures out == [Delivery(Members(userRooms, to), CallEnded)]
    {
      out := [Delivery(Members(userRooms, to), CallEnded)];
    }

    /** `disconnect`. First the transport's own step: the socket is closed and leaves
        every room. Then the handler (HandleDisconnect). */
    method Disconnect(s: SocketId) returns (out: seq<Delivery>)
      requires Valid() && s in connected
      modifies this
      ensures Valid()
      ensures connected == old(connected) - {s} && current == old(current) - {s}
      ensures chatRooms == LeaveAll(old(chatRooms), s) && userRooms == LeaveAll(old(userRooms), s)
      ensures activeUsers == ForgetSocket(old(activeUsers), old(userSockets), s)
      ensures userSockets == if Identified(old(userSockets), s) then old(userSockets) - {s} else old(userSockets)
      ensures activeCalls == if WentOffline(old(activeUsers), old(userSockets), s)
                             then old(activeCalls) - {old(userSockets)[s]} else old(activeCalls)
      ensures out == if !WentOffline(old(activeUsers), old(userSockets), s) then []
                     else var u := old(userSockets)[s];
                          [Delivery(connected, UserStatus(u, Offline))]
                          + (if u in old(activeCalls)
                             then [Delivery(Members(userRooms, old(activeCalls)[u].callerId), CallEnded)]
                             else [])
    {
      ghost var c0, cur0, au0, us0, cr0, ur0 := connected, current, activeUsers, userSockets, chatRooms, userRooms;
      connected := connected - {s};
      current := current - {s};
      chatRooms := LeaveAll(chatRooms, s);
      userRooms := LeaveAll(userRooms, s);
      out := HandleDisconnect(s);
      DisconnectKeepsTables(c0, cur0, au0, us0, cr0, ur0, s);
      assert TablesOk(connected, current, activeUsers, userSockets, chatRooms, userRooms);
    }

    /** The `disconnect` handler: for a socket filed under a (truthy) user id, drop it
        from that user's set and from userSockets; when the set becomes empty, delete
        the user, broadcast `offline` to the open sockets, and end a pending call of
        which the user is the callee. */
    method HandleDisconnect(s: SocketId) returns (out: seq<Delivery>)
      modifies this
      ensures connected == old(connected) && current == old(current)
      ensures chatRooms == old(chatRooms) && userRooms == old(userRooms)
      ensures activeUsers == ForgetSocket(old(activeUsers), old(userSockets), s)
      ensures userSockets == if Identified(old(userSockets), s) then old(userSockets) - {s} else old(userSockets)
      ensures activeCalls == if WentOffline(old(activeUsers), old(userSockets), s)
                             then old(activeCalls) - {old(userSockets)[s]} else old(activeCalls)
      ensures out == if !WentOffline(old(activeUsers), old(userSockets), s) then []
                     else var u := old(userSockets)[s];
                          [Delivery(connected, UserStatus(u, Offline))]
                          + (if u in old(activeCalls)
                             then [Delivery(Members(userRooms, old(activeCalls)[u].callerId), CallEnded)]
                             else [])
    {
      out := [];
      if s in userSockets && userSockets[s] != "" {
        var u := userSockets[s];
        if u in activeUsers {
          var rest := activeUsers[u] - {s};
          if rest == {} {
            activeUsers := activeUsers - {u};
            out := [Delivery(connected, UserStatus(u, Offline))];
            if u in activeCalls {
              out := out + [Delivery(Members(userRooms, activeCalls[u].callerId), CallEnded)];
              activeCalls := activeCalls - {u};
            }
          } else {
            activeUsers := activeUsers[u := rest];
          }
        }
        userSockets := userSockets - {s};
      }
    }
  }
}
