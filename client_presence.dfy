/** The browser side of presence: the list of online user ids kept from the
    server's `active_users` and `user_status` events, and the set of chat rooms the
    client has asked to join, with the `join_chat` / `leave_chat` emits. */
module ClientPresence {
  import opened Seqs

  type UserId = string
  type ChatId = string

  /** What the client emits to the server. */
  datatype ClientEmit =
    | JoinChatEmit(chatId: ChatId)
    | LeaveChatEmit(chatId: ChatId)
    | DisconnectEmit
    | UserConnectedEmit(userId: UserId)

  /** The provider's state: whether a socket exists, the online list, the joined chats. */
  datatype ClientState = ClientState(hasSocket: bool, onlineUsers: seq<UserId>, activeChats: set<ChatId>)

  /** `active_users`: the list is replaced by the server's snapshot. */
  function OnActiveUsers(st: ClientState, users: seq<UserId>): (r: ClientState)
    ensures r.onlineUsers == users
    ensures r.hasSocket == st.hasSocket && r.activeChats == st.activeChats
  {
    st.(onlineUsers := users)
  }

  /** `user_status`: `online` adds the id when it is absent; any other status removes
      every occurrence of it and keeps the rest in order. */
  function OnUserStatus(st: ClientState, u: UserId, status: string): (r: ClientState)
    ensures r.hasSocket == st.hasSocket && r.activeChats == st.activeChats
    ensures status == "online" && u in st.onlineUsers ==> r.onlineUsers == st.onlineUsers
    ensures status == "online" && u !in st.onlineUsers ==> r.onlineUsers == st.onlineUsers + [u]
    ensures status != "online" ==> u !in r.onlineUsers && IsSubsequence(r.onlineUsers, st.onlineUsers)
    ensures status != "online" ==> forall v | v != u :: Count(r.onlineUsers, v) == Count(st.onlineUsers, v)
  {
    if status == "online" then
      if u !in st.onlineUsers then st.(onlineUsers := st.onlineUsers + [u]) else st
    else st.(onlineUsers := RemoveAll(st.onlineUsers, u))
  }

  /** `isUserOnline`: `onlineUsers.includes(userId)`, true when some entry is the id. */
  function IsUserOnline(st: ClientState, u: UserId): (r: bool)
    ensures r <==> exists i | 0 <= i < |st.onlineUsers| :: st.onlineUsers[i] == u
  {
    u in st.onlineUsers
  }

  /** The status path never introduces a duplicate, and afterwards the user is
      reported online exactly when the status was `online`. */
  lemma {:induction false} UserStatusFacts(st: ClientState, u: UserId, status: string)
    requires NoDuplicates(st.onlineUsers)
    ensures NoDuplicates(OnUserStatus(st, u, status).onlineUsers)
    ensures IsUserOnline(OnUserStatus(st, u, status), u) <==> status == "online"
    ensures forall v | v != u :: IsUserOnline(OnUserStatus(st, u, status), v) <==> IsUserOnline(st, v)
  {
    var r := OnUserStatus(st, u, status);
    if status != "online" {
      forall i, j | 0 <= i < j < |r.onlineUsers| ensures r.onlineUsers[i] != r.onlineUsers[j] {
        SubsequenceNoDup(r.onlineUsers, st.onlineUsers, i, j);
      }
      forall v | v != u ensures v in r.onlineUsers <==> v in st.onlineUsers {
        CountPositive(r.onlineUsers, v);
        CountPositive(st.onlineUsers, v);
      }
    }
  }

  /** `joinChatRoom`: with a socket and a truthy chat id, emit `join_chat` and add
      the id to the joined set; otherwise nothing. */
  function JoinChatRoom(st: ClientState, chatId: ChatId): (r: (ClientState, seq<ClientEmit>))
    ensures !st.hasSocket || chatId == "" ==> r == (st, [])
    ensures st.hasSocket && chatId != "" ==>
              r.0 == st.(activeChats := st.activeChats + {chatId}) && r.1 == [JoinChatEmit(chatId)]
  {
    if !st.hasSocket || chatId == "" then (st, [])
    else (st.(activeChats := st.activeChats + {chatId}), [JoinChatEmit(chatId)])
  }

  /** `leaveChatRoom`: with a socket and a truthy chat id, emit `leave_chat` and
      remove the id; otherwise nothing. */
  function LeaveChatRoom(st: ClientState, chatId: ChatId): (r: (ClientState, seq<ClientEmit>))
    ensures !st.hasSocket || chatId == "" ==> r == (st, [])
    ensures st.hasSocket && chatId != "" ==>
              r.0 == st.(activeChats := st.activeChats - {chatId}) && r.1 == [LeaveChatEmit(chatId)]
  {
    if !st.hasSocket || chatId == "" then (st, [])
    else (st.(activeChats := st.activeChats - {chatId}), [LeaveChatEmit(chatId)])
  }

  /** Leaving a chat just joined restores the joined set, when it was not joined before;
      joining and leaving are idempotent on the set. */
  lemma JoinLeaveFacts(st: ClientState, chatId: ChatId)
    ensures chatId !in st.activeChats ==> LeaveChatRoom(JoinChatRoom(st, chatId).0, chatId).0 == st
    ensures JoinChatRoom(JoinChatRoom(st, chatId).0, chatId).0 == JoinChatRoom(st, chatId).0
    ensures LeaveChatRoom(LeaveChatRoom(st, chatId).0, chatId).0 == LeaveChatRoom(st, chatId).0
    ensures st.hasSocket && chatId != "" ==>
              chatId in JoinChatRoom(st, chatId).0.activeChats && chatId !in LeaveChatRoom(st, chatId).0.activeChats
  {
    if st.hasSocket && chatId != "" && chatId !in st.activeChats {
      assert st.activeChats + {chatId} - {chatId} == st.activeChats;
    }
  }

  /** The provider's cleanup: one `leave_chat` per joined chat, in the set's iteration
      order, then the socket is closed. */
  method LeaveAllOnCleanup(activeChats: set<ChatId>) returns (emits: seq<ClientEmit>)
    ensures |emits| == |activeChats| + 1
    ensures emits[|emits| - 1] == DisconnectEmit
    ensures forall i | 0 <= i < |emits| - 1 :: emits[i].LeaveChatEmit? && emits[i].chatId in activeChats
    ensures forall c | c in activeChats :: LeaveChatEmit(c) in emits
    ensures forall i, j | 0 <= i < j < |emits| :: emits[i] != emits[j]
  {
    var rest := activeChats;
    emits := [];
    while rest != {}
      invariant rest <= activeChats
      invariant |emits| + |rest| == |activeChats|
      invariant forall i | 0 <= i < |emits| :: emits[i].LeaveChatEmit? && emits[i].chatId in activeChats - rest
      invariant forall c | c in activeChats - rest :: LeaveChatEmit(c) in emits
      invariant forall i, j | 0 <= i < j < |emits| :: emits[i] != emits[j]
      decreases |rest|
    {
      var c :| c in rest;
      emits := emits + [LeaveChatEmit(c)];
      rest := rest - {c};
    }
    emits := emits + [DisconnectEmit];
  }

  // ----- the connect effect's rerun -----

  /** The rooms the client's live socket holds at the server once the server has
      handled the emits in order: `join_chat` adds the room, `leave_chat` removes it,
      and a closed socket leaves every room, so the socket opened after it starts
      with none. */
  function ServerRooms(rooms: set<ChatId>, emits: seq<ClientEmit>): set<ChatId>
    decreases |emits|
  {
    if emits == [] then rooms else ServerRooms(ServerStep(rooms, emits[0]), emits[1..])
  }

  /** How the server handles one emit of the client, on the rooms of its socket. */
  function ServerStep(rooms: set<ChatId>, e: ClientEmit): set<ChatId> {
    match e
    case JoinChatEmit(c) => rooms + {c}
    case LeaveChatEmit(c) => rooms - {c}
    case DisconnectEmit => {}
    case UserConnectedEmit(_) => rooms
  }

  /** Handling two batches of emits is handling their concatenation. */
  lemma {:induction false} ServerRoomsAppend(rooms: set<ChatId>, a: seq<ClientEmit>, b: seq<ClientEmit>)
    ensures ServerRooms(rooms, a + b) == ServerRooms(ServerRooms(rooms, a), b)
    decreases |a|
  {
    if a != [] {
      var next := ServerStep(rooms, a[0]);
      assert (a + b)[0] == a[0] && (a + b)[1..] == a[1..] + b;
      assert ServerRooms(rooms, a + b) == ServerRooms(next, a[1..] + b);
      assert ServerRooms(rooms, a) == ServerRooms(next, a[1..]);
      ServerRoomsAppend(next, a[1..], b);
    } else {
      assert a + b == b;
    }
  }

  /** The connect effect depends on the joined set, and every join or leave stores a
      new set, so it runs again: the previous run's cleanup leaves the rooms of the set
      it closed over and closes its socket, and the new run opens a socket on which the
      listener effect announces the user. */
  method RerunConnectEffect(previous: set<ChatId>, user: UserId) returns (emits: seq<ClientEmit>)
    ensures |emits| == |previous| + 2
    ensures emits[|emits| - 2] == DisconnectEmit && emits[|emits| - 1] == UserConnectedEmit(user)
    ensures forall i | 0 <= i < |emits| - 2 :: emits[i].LeaveChatEmit? && emits[i].chatId in previous
    ensures forall rooms :: ServerRooms(rooms, emits) == {}
  {
    var cleanup := LeaveAllOnCleanup(previous);
    emits := cleanup + [UserConnectedEmit(user)];
    forall rooms ensures ServerRooms(rooms, emits) == {} {
      var k := |cleanup| - 1;
      assert cleanup == cleanup[..k] + [DisconnectEmit];
      assert emits == cleanup[..k] + ([DisconnectEmit] + [UserConnectedEmit(user)]);
      ServerRoomsAppend(rooms, cleanup[..k], [DisconnectEmit] + [UserConnectedEmit(user)]);
      var before := ServerRooms(rooms, cleanup[..k]);
      var tail := [DisconnectEmit] + [UserConnectedEmit(user)];
      assert tail[0] == DisconnectEmit && tail[1..] == [UserConnectedEmit(user)];
      assert ServerRooms(before, tail) == ServerRooms({}, [UserConnectedEmit(user)]);
      assert [UserConnectedEmit(user)][1..] == [];
      assert ServerRooms({}, [UserConnectedEmit(user)]) == ServerRooms({}, []);
    }
  }

  /** As written, a join is undone at once: the join and the rerun it causes leave the
      client's live socket in no room at all, although the provider lists the chat as
      joined. */
  lemma JoinIsLostAsWritten(st: ClientState, chatId: ChatId, rooms: set<ChatId>, user: UserId, rerun: seq<ClientEmit>)
    requires st.hasSocket && chatId != ""
    requires forall r :: ServerRooms(r, rerun) == {}
    ensures chatId in JoinChatRoom(st, chatId).0.activeChats
    ensures ServerRooms(rooms, JoinChatRoom(st, chatId).1 + rerun) == {}
  {
    ServerRoomsAppend(rooms, JoinChatRoom(st, chatId).1, rerun);
  }

  /** With the effect keyed on the user alone, a join reaches the live socket: the
      server puts it in the chat's room and keeps the rooms it held, so what the server
      holds follows the provider's joined set. */
  lemma JoinReachesServer(st: ClientState, chatId: ChatId, rooms: set<ChatId>)
    ensures ServerRooms(rooms, JoinChatRoom(st, chatId).1) ==
              if st.hasSocket && chatId != "" then rooms + {chatId} else rooms
    ensures rooms == st.activeChats ==> ServerRooms(rooms, JoinChatRoom(st, chatId).1) == JoinChatRoom(st, chatId).0.activeChats
    ensures rooms == st.activeChats ==> ServerRooms(rooms, LeaveChatRoom(st, chatId).1) == LeaveChatRoom(st, chatId).0.activeChats
  {
    var j := JoinChatRoom(st, chatId).1;
    var l := LeaveChatRoom(st, chatId).1;
    if st.hasSocket && chatId != "" {
      assert ServerRooms(rooms, j) == ServerRooms(rooms + {chatId}, []);
      assert ServerRooms(rooms, l) == ServerRooms(rooms - {chatId}, []);
    }
  }
}
