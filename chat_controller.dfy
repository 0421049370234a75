/** The chat REST handlers over an in-memory list of chat documents: opening a
    one-to-one chat, creating a group, and the admin-only membership changes. */
module ChatController {
  import opened Wrappers
  import opened Seqs
  import opened JsText

  type UserId = string
  type ChatId = string

  /** The schema's default group picture, applied whenever none is given. */
  const DefaultGroupPicture := "https://icon-library.com/images/group-chat-icon/group-chat-icon-16.jpg"

  /** A chat document. `groupAdmin` is None on one-to-one chats. */
  datatype ChatDoc = ChatDoc(
    id: ChatId, chatName: string, isGroupChat: bool, users: seq<UserId>,
    groupAdmin: Option<UserId>, groupPicture: string)

  datatype Reply =
    | Error(status: nat, message: string)
    | Found(chat: ChatDoc)
    | CreatedChat(chat: ChatDoc)
    | Updated(chat: ChatDoc)

  function StatusOf(r: Reply): nat {
    match r
    case Error(status, _) => status
    case CreatedChat(_) => 201
    case _ => 200
  }

  /** A `new chat` event sent to the room named by a bare user id. */
  datatype NewChatEmit = NewChatEmit(room: string, chat: ChatDoc)

  // ---- accessChat ----

  predicate IsDirectChatOf(c: ChatDoc, a: UserId, b: UserId) {
    !c.isGroupChat && a in c.users && b in c.users
  }

  /** The first one-to-one chat holding both users. */
  function FindDirect(chats: seq<ChatDoc>, a: UserId, b: UserId): (r: Option<nat>)
    ensures r.Some? ==> r.value < |chats| && IsDirectChatOf(chats[r.value], a, b)
                        && forall k | 0 <= k < r.value :: !IsDirectChatOf(chats[k], a, b)
    ensures r.None? ==> forall k | 0 <= k < |chats| :: !IsDirectChatOf(chats[k], a, b)
    decreases |chats|
  {
    if chats == [] then None
    else if IsDirectChatOf(chats[0], a, b) then Some(0)
    else
      match FindDirect(chats[1..], a, b)
      case None => None
      case Some(k) => Some(k + 1)
  }

  const MissingUserId := "UserId param not sent with request"

  /** `accessChat`: 400 without a user id; the first existing one-to-one chat of the
      two users; or a new one named 'sender' with users [requester, userId], announced
      to the rooms named by the two bare ids when the socket server is up. */
  function AccessChat(chats: seq<ChatDoc>, requester: UserId, userId: UserId, newId: ChatId, ioReady: bool)
    : (r: (seq<ChatDoc>, Reply, seq<NewChatEmit>))
    ensures |chats| <= |r.0| <= |chats| + 1 && r.0[..|chats|] == chats
    ensures |r.0| == |chats| + 1 <==> r.1.CreatedChat?
    ensures forall e | e in r.2 :: r.1.CreatedChat? && e.chat == r.1.chat
  {
    if userId == "" then (chats, Error(400, MissingUserId), [])
    else
      match FindDirect(chats, requester, userId)
      case Some(k) => (chats, Found(chats[k]), [])
      case None =>
        var c := ChatDoc(newId, "sender", false, [requester, userId], None, DefaultGroupPicture);
        (chats + [c], CreatedChat(c), if ioReady then [NewChatEmit(userId, c), NewChatEmit(requester, c)] else [])
  }

  /** The three outcomes of `accessChat`: 400 and nothing changes exactly when the user
      id is missing; an existing chat is returned unchanged and announced to nobody; a
      new chat is appended, holds both users, is not a group, and is found by the next
      equal request. When the socket server is up the new chat goes first to the room
      named by the bare `userId`, then to the one named by the bare requester id. */
  lemma AccessChatFacts(chats: seq<ChatDoc>, requester: UserId, userId: UserId, newId: ChatId, ioReady: bool)
    ensures var (chats', reply, emits) := AccessChat(chats, requester, userId, newId, ioReady);
            && (StatusOf(reply) == 400 <==> userId == "")
            && (StatusOf(reply) != 201 ==> chats' == chats && emits == [])
            && (reply.Found? ==> reply.chat in chats && IsDirectChatOf(reply.chat, requester, userId))
            && (userId != "" && (exists k | 0 <= k < |chats| :: IsDirectChatOf(chats[k], requester, userId)) ==> reply.Found?)
    ensures var (chats', reply, emits) := AccessChat(chats, requester, userId, newId, ioReady);
            reply.CreatedChat? ==>
              && chats' == chats + [reply.chat]
              && reply.chat.users == [requester, userId] && IsDirectChatOf(reply.chat, requester, userId)
              && (forall k | 0 <= k < |chats| :: !IsDirectChatOf(chats[k], requester, userId))
              && emits == (if ioReady then [NewChatEmit(userId, reply.chat), NewChatEmit(requester, reply.chat)] else [])
              && AccessChat(chats', requester, userId, newId, ioReady).1 == Found(reply.chat)
  {
    var (chats', reply, emits) := AccessChat(chats, requester, userId, newId, ioReady);
    if reply.CreatedChat? {
      assert FindDirect(chats, requester, userId).None?;
      var again := FindDirect(chats', requester, userId);
      assert IsDirectChatOf(chats'[|chats|], requester, userId);
      forall j | 0 <= j < |chats| ensures !IsDirectChatOf(chats'[j], requester, userId) {
        assert chats'[j] == chats[j];
      }
    }
  }

  // ---- createGroupChat ----

  /** The `users` field: absent, an array, or a JSON string together with what
      `JSON.parse` makes of it (None when it throws). */
  datatype UsersField = Absent | Array(ids: seq<UserId>) | JsonText(text: string, parsed: Option<seq<UserId>>)

  predicate UsersFalsy(u: UsersField) {
    u.Absent? || (u.JsonText? && u.text == "")
  }

  const MissingGroupFields := "Please provide all required fields"
  const TooFewUsers := "More than 2 users are required to form a group chat"

  /** Either the reply that stops the handler before anything is stored, or the group
      chat document it stores. */
  datatype GroupPlan = Stop(reply: Reply) | Store(chat: ChatDoc)

  /** The steps of `createGroupChat` up to `Chat.create`: the presence guard, the JSON
      parse (a throw answers 500), the two-user minimum, the requester appended and
      made admin, the default picture; the schema trims the name and then refuses an
      empty one, which also answers 500. */
  function PlanGroup(requester: UserId, users: UsersField, name: string, groupPicture: string, newId: ChatId): (r: GroupPlan)
    ensures r.Stop? ==> r.reply.Error? && r.reply.status in {400, 500}
    ensures r.Store? ==> r.chat.id == newId && r.chat.isGroupChat && r.chat.groupAdmin == Some(requester)
                         && |r.chat.users| >= 3 && r.chat.users[|r.chat.users| - 1] == requester
  {
    if UsersFalsy(users) || name == "" then Stop(Error(400, MissingGroupFields))
    else
      var parsed := if users.Array? then Some(users.ids) else users.parsed;
      if parsed.None? then Stop(Error(500, "Server error"))
      else if |parsed.value| < 2 then Stop(Error(400, TooFewUsers))
      else if Trim(name) == "" then Stop(Error(500, "Server error"))
      else Store(ChatDoc(newId, Trim(name), true, parsed.value + [requester], Some(requester),
                         if groupPicture == "" then DefaultGroupPicture else groupPicture))
  }

  /** As written: after the chat is stored, `io.to` is looked up on the exported
      function `() => ioInstance`, which has no such property; the call throws and the
      handler answers 500. */
  function CreateGroupChatAsWritten(chats: seq<ChatDoc>, requester: UserId, users: UsersField, name: string,
                                    groupPicture: string, newId: ChatId): (r: (seq<ChatDoc>, Reply))
    ensures r.1.Error? && |chats| <= |r.0| <= |chats| + 1 && r.0[..|chats|] == chats
  {
    match PlanGroup(requester, users, name, groupPicture, newId)
    case Stop(reply) => (chats, reply)
    case Store(c) => (chats + [c], Error(500, "Server error"))
  }

  /** Every request that gets a group chat stored is answered with 500, so a client
      that reports failure on an error status shows a failure for a group that exists:
      for instance two user ids in an array and a name without surrounding whitespace. */
  lemma CreateGroupChatAsWrittenFails(chats: seq<ChatDoc>, requester: UserId, a: UserId, b: UserId, name: string)
    requires name != "" && !IsJsWhitespace(name[0]) && !IsJsWhitespace(name[|name| - 1])
    ensures var (chats', reply) := CreateGroupChatAsWritten(chats, requester, Array([a, b]), name, "", "g1");
            && |chats'| == |chats| + 1
            && chats'[|chats|].users == [a, b, requester]
            && chats'[|chats|].groupAdmin == Some(requester)
            && reply == Error(500, "Server error")
  {
    TrimKeeps(name);
    var plan := PlanGroup(requester, Array([a, b]), name, "", "g1");
    assert plan.Store? && plan.chat.users == [a, b] + [requester];
    assert CreateGroupChatAsWritten(chats, requester, Array([a, b]), name, "", "g1") == (chats + [plan.chat], Error(500, "Server error"));
  }

  /** Corrected: the stored chat is returned with 201 and announced to the room of each
      of its user entries, in order. */
  function CreateGroupChat(chats: seq<ChatDoc>, requester: UserId, users: UsersField, name: string,
                           groupPicture: string, newId: ChatId): (r: (seq<ChatDoc>, Reply, seq<NewChatEmit>))
    ensures !r.1.CreatedChat? ==> r.1.Error? && r.0 == chats && r.2 == []
    ensures r.1.CreatedChat? ==> r.0 == chats + [r.1.chat] && |r.2| == |r.1.chat.users|
                                 && forall i | 0 <= i < |r.2| :: r.2[i].room == r.1.chat.users[i]
  {
    match PlanGroup(requester, users, name, groupPicture, newId)
    case Stop(reply) => (chats, reply, [])
    case Store(c) =>
      (chats + [c], CreatedChat(c), seq(|c.users|, i requires 0 <= i < |c.users| => NewChatEmit(c.users[i], c)))
  }

  /** The id list the handler works with: the array itself, or what the JSON text
      parses to. */
  function UserList(users: UsersField): Option<seq<UserId>> {
    if users.Array? then Some(users.ids) else if users.JsonText? then users.parsed else None
  }

  /** The plan stops with 400 for missing fields or fewer than two users and with 500
      for a JSON text that does not parse or a blank name; otherwise it stores a group
      chat of the supplied users followed by the requester, who is its admin, under
      the trimmed name. */
  lemma PlanGroupOutcome(requester: UserId, users: UsersField, name: string, groupPicture: string, newId: ChatId)
    ensures var plan, list := PlanGroup(requester, users, name, groupPicture, newId), UserList(users);
            && (plan.Stop? ==> plan.reply.Error?)
            && (plan.Stop? && plan.reply.status == 400 <==>
                  UsersFalsy(users) || name == "" || (list.Some? && |list.value| < 2))
            && (plan.Stop? && plan.reply.status == 500 <==>
                  !UsersFalsy(users) && name != "" && (list.None? || (|list.value| >= 2 && IsBlank(name))))
            && (plan.Store? ==>
                  && list.Some? && |list.value| >= 2
                  && plan.chat.isGroupChat
                  && plan.chat.users == list.value + [requester]
                  && plan.chat.groupAdmin == Some(requester)
                  && plan.chat.chatName == Trim(name) && plan.chat.chatName != ""
                  && (groupPicture == "" ==> plan.chat.groupPicture == DefaultGroupPicture))
  {
    TrimEmptyIffBlank(name);
  }

  /** The corrected handler's errors: 400 for missing fields or fewer than two users,
      500 for a JSON text that does not parse or a blank name, and nothing is stored
      or announced on any error. */
  lemma CreateGroupChatErrors(chats: seq<ChatDoc>, requester: UserId, users: UsersField, name: string,
                              groupPicture: string, newId: ChatId)
    ensures var (chats', reply, emits) := CreateGroupChat(chats, requester, users, name, groupPicture, newId);
            var list := UserList(users);
            && (StatusOf(reply) == 400 <==>
                  UsersFalsy(users) || name == "" || (list.Some? && |list.value| < 2))
            && (StatusOf(reply) == 500 <==>
                  !UsersFalsy(users) && name != "" && (list.None? || (|list.value| >= 2 && IsBlank(name))))
            && (StatusOf(reply) != 201 ==> chats' == chats && emits == [])
  {
    PlanGroupOutcome(requester, users, name, groupPicture, newId);
  }

  /** The corrected handler's success: a group chat is appended whose users are the
      supplied ones followed by the requester, who is its admin, and every entry's
      room gets one `new chat`, in order. */
  lemma CreateGroupChatCreated(chats: seq<ChatDoc>, requester: UserId, users: UsersField, name: string,
                               groupPicture: string, newId: ChatId)
    requires StatusOf(CreateGroupChat(chats, requester, users, name, groupPicture, newId).1) == 201
    ensures var (chats', reply, emits) := CreateGroupChat(chats, requester, users, name, groupPicture, newId);
            var list := UserList(users);
            && list.Some? && |list.value| >= 2
            && reply.CreatedChat? && chats' == chats + [reply.chat]
            && reply.chat.isGroupChat
            && reply.chat.users == list.value + [requester]
            && reply.chat.groupAdmin == Some(requester)
            && reply.chat.chatName == Trim(name) && reply.chat.chatName != ""
            && (groupPicture == "" ==> reply.chat.groupPicture == DefaultGroupPicture)
            && |emits| == |reply.chat.users|
            && forall i | 0 <= i < |emits| :: emits[i].room == reply.chat.users[i]
  {
    PlanGroupOutcome(requester, users, name, groupPicture, newId);
  }

  /** Where both handlers store a chat they store the same one; they differ only in the
      reply. */
  lemma AsWrittenStoresSameChat(chats: seq<ChatDoc>, requester: UserId, users: UsersField, name: string,
                                groupPicture: string, newId: ChatId)
    ensures CreateGroupChatAsWritten(chats, requester, users, name, groupPicture, newId).0
         == CreateGroupChat(chats, requester, users, name, groupPicture, newId).0
    ensures StatusOf(CreateGroupChat(chats, requester, users, name, groupPicture, newId).1) == 201 <==>
            |CreateGroupChatAsWritten(chats, requester, users, name, groupPicture, newId).0| == |chats| + 1
  {
  }

  // ---- addToGroupChat / removeFromGroupChat ----

  /** The first chat with that id. */
  function FindChat(chats: seq<ChatDoc>, id: ChatId): (r: Option<nat>)
    ensures r.Some? ==> r.value < |chats| && chats[r.value].id == id
                        && forall k | 0 <= k < r.value :: chats[k].id != id
    ensures r.None? ==> forall k | 0 <= k < |chats| :: chats[k].id != id
    decreases |chats|
  {
    if chats == [] then None
    else if chats[0].id == id then Some(0)
    else
      match FindChat(chats[1..], id)
      case None => None
      case Some(k) => Some(k + 1)
  }

  const ChatNotFound := "Chat not found"
  const OnlyAdminAdds := "Only admin can add users to the group"
  const OnlyAdminRemoves := "Only admin can remove users from the group"

  /** The shared guard: 404 for an unknown chat, 500 when it has no admin (reading the
      missing admin throws), 403 for anyone but the admin; otherwise the chat's index. */
  function AdminGuard(chats: seq<ChatDoc>, requester: UserId, chatId: ChatId, forbidden: string): (r: Result<nat, Reply>)
    ensures r.Ok? <==> FindChat(chats, chatId).Some? && chats[FindChat(chats, chatId).value].groupAdmin == Some(requester)
    ensures r.Ok? ==> r.value == FindChat(chats, chatId).value
    ensures r.Err? ==> match FindChat(chats, chatId)
                       case None => r.error == Error(404, ChatNotFound)
                       case Some(k) => r.error == if chats[k].groupAdmin.None? then Error(500, "Server error")
                                                  else Error(403, forbidden)
  {
    match FindChat(chats, chatId)
    case None => Err(Error(404, ChatNotFound))
    case Some(k) =>
      if chats[k].groupAdmin.None? then Err(Error(500, "Server error"))
      else if chats[k].groupAdmin.value != requester then Err(Error(403, forbidden))
      else Ok(k)
  }

  /** `addToGroupChat`: `$push`, so a member already present is added again. */
  function AddToGroupChat(chats: seq<ChatDoc>, requester: UserId, chatId: ChatId, userId: UserId): (r: (seq<ChatDoc>, Reply))
    ensures |r.0| == |chats| && (r.1.Updated? || (r.1.Error? && r.0 == chats))
    ensures r.1.Updated? ==> r.1.chat in r.0 && userId in r.1.chat.users
  {
    match AdminGuard(chats, requester, chatId, OnlyAdminAdds)
    case Err(reply) => (chats, reply)
    case Ok(k) =>
      var c := chats[k].(users := chats[k].users + [userId]);
      assert chats[k := c][k] == c && c.users[|c.users| - 1] == userId;
      (chats[k := c], Updated(c))
  }

  /** `removeFromGroupChat`: `$pull`, every occurrence of the user goes. */
  function RemoveFromGroupChat(chats: seq<ChatDoc>, requester: UserId, chatId: ChatId, userId: UserId): (r: (seq<ChatDoc>, Reply))
    ensures |r.0| == |chats| && (r.1.Updated? || (r.1.Error? && r.0 == chats))
    ensures r.1.Updated? ==> r.1.chat in r.0 && userId !in r.1.chat.users
  {
    match AdminGuard(chats, requester, chatId, OnlyAdminRemoves)
    case Err(reply) => (chats, reply)
    case Ok(k) =>
      var c := chats[k].(users := RemoveAll(chats[k].users, userId));
      assert chats[k := c][k] == c;
      (chats[k := c], Updated(c))
  }

  /** Only the admin of an existing chat changes anything, and then only that chat's
      user list: one more occurrence of the added user and every other count kept. */
  lemma AddToGroupFacts(chats: seq<ChatDoc>, requester: UserId, chatId: ChatId, userId: UserId)
    ensures var (chats', reply) := AddToGroupChat(chats, requester, chatId, userId);
            && |chats'| == |chats|
            && (reply.Updated? <==> AdminGuard(chats, requester, chatId, OnlyAdminAdds).Ok?)
            && (!reply.Updated? ==> chats' == chats)
            && (reply.Updated? ==>
                  var k := FindChat(chats, chatId).value;
                  && chats'[k] == reply.chat
                  && reply.chat.(users := chats[k].users) == chats[k]
                  && Count(reply.chat.users, userId) == Count(chats[k].users, userId) + 1
                  && (forall v | v != userId :: Count(reply.chat.users, v) == Count(chats[k].users, v))
                  && forall j | 0 <= j < |chats| && j != k :: chats'[j] == chats[j])
  {
    var (chats', reply) := AddToGroupChat(chats, requester, chatId, userId);
    if reply.Updated? {
      var k := FindChat(chats, chatId).value;
      var us := chats[k].users;
      forall v ensures Count(us + [userId], v) == Count(us, v) + (if v == userId then 1 else 0) {
        CountAppend(us, [userId], v);
        assert Count([userId], v) == (if v == userId then 1 else 0) + Count([userId][1..], v);
      }
    }
  }

  /** Removal leaves no occurrence of the user and every other member's count as it was. */
  lemma RemoveFromGroupFacts(chats: seq<ChatDoc>, requester: UserId, chatId: ChatId, userId: UserId)
    ensures var (chats', reply) := RemoveFromGroupChat(chats, requester, chatId, userId);
            && |chats'| == |chats|
            && (reply.Updated? <==> AdminGuard(chats, requester, chatId, OnlyAdminRemoves).Ok?)
            && (!reply.Updated? ==> chats' == chats)
            && (reply.Updated? ==>
                  var k := FindChat(chats, chatId).value;
                  && chats'[k] == reply.chat
                  && reply.chat.(users := chats[k].users) == chats[k]
                  && userId !in reply.chat.users
                  && (forall v | v != userId :: Count(reply.chat.users, v) == Count(chats[k].users, v))
                  && forall j | 0 <= j < |chats| && j != k :: chats'[j] == chats[j])
  {
  }

  /** Removing a user right after adding them gives the same user list as removing
      them straight away: the pushed duplicate goes too. */
  lemma AddThenRemove(chats: seq<ChatDoc>, requester: UserId, chatId: ChatId, userId: UserId)
    requires AdminGuard(chats, requester, chatId, OnlyAdminAdds).Ok?
    ensures var (added, _) := AddToGroupChat(chats, requester, chatId, userId);
            RemoveFromGroupChat(added, requester, chatId, userId)
              == RemoveFromGroupChat(chats, requester, chatId, userId)
  {
    var k := FindChat(chats, chatId).value;
    var (added, _) := AddToGroupChat(chats, requester, chatId, userId);
    assert added[k].id == chatId && added[k].groupAdmin == chats[k].groupAdmin;
    assert FindChat(added, chatId) == Some(k) by {
      forall j | 0 <= j < k ensures added[j].id != chatId {
        assert added[j] == chats[j];
      }
      FindChatFirst(added, chatId, k);
    }
    RemoveAllAppend(chats[k].users, [userId], userId);
    assert RemoveAll([userId], userId) == [];
    var pulled := RemoveAll(chats[k].users, userId);
    assert RemoveAll(added[k].users, userId) == pulled;
    assert added[k].(users := pulled) == chats[k].(users := pulled);
    assert added[k := chats[k].(users := pulled)] == chats[k := chats[k].(users := pulled)];
  }

  /** An index holding the id with no earlier holder is what FindChat returns. */
  lemma {:induction false} FindChatFirst(chats: seq<ChatDoc>, id: ChatId, k: nat)
    requires k < |chats| && chats[k].id == id
    requires forall j | 0 <= j < k :: chats[j].id != id
    ensures FindChat(chats, id) == Some(k)
    decreases k
  {
    if k > 0 {
      FindChatFirst(chats[1..], id, k - 1);
    }
  }
}
