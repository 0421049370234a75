/** The chat provider's state updaters: the chat list kept newest-first, the open
    chat's messages with their optimistic placeholders, the unread counters and the
    typing indicators. */
module ChatState {
  import opened Wrappers
  import opened Seqs
  import opened Sorting

  type UserId = string
  type ChatId = string
  type MessageId = string

  /** A message as the client holds it. `createdAt` is a time in milliseconds, None
      when the field is missing; `isOptimistic` marks the placeholder shown before
      the server answers. */
  datatype ClientMessage = ClientMessage(
    id: MessageId, content: string, chatId: ChatId, senderId: UserId,
    createdAt: Option<int>, isOptimistic: bool)

  /** An entry of the chat list. */
  datatype ChatSummary = ChatSummary(id: ChatId, latestMessage: Option<ClientMessage>)

  datatype ChatView = ChatView(
    chats: seq<ChatSummary>, messages: seq<ClientMessage>,
    unread: map<ChatId, nat>, typing: map<ChatId, seq<UserId>>)

  // ----- sortChatsByLatestMessage -----

  /** The sort key: the latest message's time, or epoch 0 when there is none. */
  function LatestTime(c: ChatSummary): int {
    if c.latestMessage.Some? && c.latestMessage.value.createdAt.Some? then c.latestMessage.value.createdAt.value
    else 0
  }

  /** `[...chats].sort((a, b) => timeB - timeA)`: a stable sort, newest first. */
  function SortChats(chats: seq<ChatSummary>): (r: seq<ChatSummary>)
    ensures |r| == |chats| && multiset(r) == multiset(chats)
    ensures forall i, j | 0 <= i < j < |r| :: LatestTime(r[i]) >= LatestTime(r[j])
  {
    SortDescByCorrect(chats, LatestTime);
    assert |SortDescBy(chats, LatestTime)| == |multiset(SortDescBy(chats, LatestTime))| == |chats|;
    SortDescBy(chats, LatestTime)
  }

  /** The sorted list is a permutation of the input ordered newest first, and chats
      with equal times keep their relative order. */
  lemma SortChatsFacts(chats: seq<ChatSummary>)
    ensures multiset(SortChats(chats)) == multiset(chats)
    ensures forall i, j | 0 <= i < j < |SortChats(chats)| :: LatestTime(SortChats(chats)[i]) >= LatestTime(SortChats(chats)[j])
    ensures forall t :: WithKey(SortChats(chats), LatestTime, t) == WithKey(chats, LatestTime, t)
  {
    SortDescByCorrect(chats, LatestTime);
    forall t ensures WithKey(SortChats(chats), LatestTime, t) == WithKey(chats, LatestTime, t) {
      SortDescByStable(chats, LatestTime, t);
    }
  }

  predicate HasChat(chats: seq<ChatSummary>, id: ChatId) {
    exists i | 0 <= i < |chats| :: chats[i].id == id
  }

  // ----- accessChat and `new chat` -----

  /** Add a chat unless one with the same id is listed; re-sort after adding. */
  function AddChatIfAbsent(chats: seq<ChatSummary>, c: ChatSummary): (r: seq<ChatSummary>)
    ensures HasChat(chats, c.id) ==> r == chats
    ensures !HasChat(chats, c.id) ==> multiset(r) == multiset(chats) + multiset{c} && c in r
    ensures !HasChat(chats, c.id) ==> forall i, j | 0 <= i < j < |r| :: LatestTime(r[i]) >= LatestTime(r[j])
  {
    if HasChat(chats, c.id) then chats
    else
      SortChatsFacts(chats + [c]);
      assert c in multiset(chats + [c]);
      SortChats(chats + [c])
  }

  /** Adding a chat never creates a second entry for an id: distinct ids stay distinct. */
  lemma AddChatKeepsIdsDistinct(chats: seq<ChatSummary>, c: ChatSummary)
    requires forall i, j | 0 <= i < j < |chats| :: chats[i].id != chats[j].id
    ensures var r := AddChatIfAbsent(chats, c); forall i, j | 0 <= i < j < |r| :: r[i].id != r[j].id
  {
    if !HasChat(chats, c.id) {
      var s := chats + [c];
      assert forall i, j | 0 <= i < j < |s| :: s[i].id != s[j].id;
      SortChatsFacts(s);
      PermutationKeepsDistinctIds(s, SortChats(s));
    }
  }

  lemma PermutationKeepsDistinctIds(s: seq<ChatSummary>, t: seq<ChatSummary>)
    requires multiset(s) == multiset(t)
    requires forall i, j | 0 <= i < j < |s| :: s[i].id != s[j].id
    ensures forall i, j | 0 <= i < j < |t| :: t[i].id != t[j].id
  {
    forall i, j | 0 <= i < j < |t| ensures t[i].id != t[j].id {
      if t[i].id == t[j].id {
        assert t[i] in multiset(s) && t[j] in multiset(s);
        var a :| 0 <= a < |s| && s[a] == t[i];
        var b :| 0 <= b < |s| && s[b] == t[j];
        if a == b {
          // t[i] == t[j] occurs twice in t but once in s
          assert t[i] == t[j];
          MultisetAtLeastTwo(t, i, j);
          OnceInDistinct(s, a);
          assert false;
        }
      }
    }
  }

  lemma MultisetAtLeastTwo<T>(t: seq<T>, i: int, j: int)
    requires 0 <= i < j < |t| && t[i] == t[j]
    ensures multiset(t)[t[i]] >= 2
  {
    assert t == t[..i] + [t[i]] + t[i + 1..j] + [t[j]] + t[j + 1..];
  }

  lemma OnceInDistinct(s: seq<ChatSummary>, a: int)
    requires 0 <= a < |s|
    requires forall i, j | 0 <= i < j < |s| :: s[i].id != s[j].id
    ensures multiset(s)[s[a]] == 1
  {
    assert s == s[..a] + [s[a]] + s[a + 1..];
    assert s[a] !in s[..a] && s[a] !in s[a + 1..] by {
      forall k | 0 <= k < |s| && k != a ensures s[k] != s[a] {
        if k < a { assert s[k].id != s[a].id; } else { assert s[a].id != s[k].id; }
      }
    }
    assert multiset(s[..a])[s[a]] == 0 && multiset(s[a + 1..])[s[a]] == 0;
  }

  // ----- sendMessage -----

  /** The placeholder appended before the request. */
  function Optimistic(tempId: MessageId, content: string, chatId: ChatId, sender: UserId, now: int): ClientMessage {
    ClientMessage(tempId, content, chatId, sender, Some(now), true)
  }

  /** Put `data` in place of the optimistic message whose id is tempId. */
  function ReplacePlaceholder(messages: seq<ClientMessage>, tempId: MessageId, data: ClientMessage): (r: seq<ClientMessage>)
    ensures |r| == |messages|
    ensures forall i | 0 <= i < |r| :: r[i] == if messages[i].isOptimistic && messages[i].id == tempId then data else messages[i]
  {
    seq(|messages|, i requires 0 <= i < |messages| =>
      if messages[i].isOptimistic && messages[i].id == tempId then data else messages[i])
  }

  /** Set the latest message of every chat with that id. */
  function SetLatest(chats: seq<ChatSummary>, chatId: ChatId, m: ClientMessage): (r: seq<ChatSummary>)
    ensures |r| == |chats|
    ensures forall i | 0 <= i < |r| :: r[i] == if chats[i].id == chatId then chats[i].(latestMessage := Some(m)) else chats[i]
  {
    seq(|chats|, i requires 0 <= i < |chats| =>
      if chats[i].id == chatId then chats[i].(latestMessage := Some(m)) else chats[i])
  }

  /** The whole send: the placeholder goes on the end of the list; once the server
      answers with `data` it is replaced, the chat's latest message is set and the list
      re-sorted. When the request fails (`data` is None) the placeholder stays and the
      chat list is left as it was. */
  function SendMessage(v: ChatView, tempId: MessageId, content: string, chatId: ChatId, sender: UserId, now: int,
                       data: Option<ClientMessage>): (r: ChatView)
    ensures |r.messages| == |v.messages| + 1
    ensures data.None? ==> r.chats == v.chats
    ensures |r.chats| == |v.chats| && r.unread == v.unread && r.typing == v.typing
  {
    var shown := v.messages + [Optimistic(tempId, content, chatId, sender, now)];
    match data
    case None => v.(messages := shown)
    case Some(d) => v.(messages := ReplacePlaceholder(shown, tempId, d), chats := SortChats(SetLatest(v.chats, chatId, d)))
  }

  /** With a fresh temporary id the net effect of a successful send on the messages is
      to append the server's copy; the chat list is a newest-first permutation of the
      old one in which only the chats with that id changed, and they now carry the
      message. */
  lemma SendMessageFacts(v: ChatView, tempId: MessageId, content: string, chatId: ChatId, sender: UserId, now: int,
                         data: ClientMessage)
    requires forall i | 0 <= i < |v.messages| :: !(v.messages[i].isOptimistic && v.messages[i].id == tempId)
    ensures var r := SendMessage(v, tempId, content, chatId, sender, now, Some(data));
            && r.messages == v.messages + [data]
            && multiset(r.chats) == multiset(SetLatest(v.chats, chatId, data))
            && (forall i, j | 0 <= i < j < |r.chats| :: LatestTime(r.chats[i]) >= LatestTime(r.chats[j]))
            && (forall c | c in r.chats && c.id == chatId :: c.latestMessage == Some(data))
            && r.unread == v.unread && r.typing == v.typing
  {
    var r := SendMessage(v, tempId, content, chatId, sender, now, Some(data));
    SortChatsFacts(SetLatest(v.chats, chatId, data));
    assert r.messages == v.messages + [data];
    forall c | c in r.chats && c.id == chatId ensures c.latestMessage == Some(data) {
      assert c in multiset(SetLatest(v.chats, chatId, data));
    }
  }

  /** A failed send leaves the optimistic placeholder at the end of the shown messages
      and changes nothing else. */
  lemma SendMessageFails(v: ChatView, tempId: MessageId, content: string, chatId: ChatId, sender: UserId, now: int)
    ensures var r := SendMessage(v, tempId, content, chatId, sender, now, None);
            && r.messages == v.messages + [Optimistic(tempId, content, chatId, sender, now)]
            && r.messages[|v.messages|].isOptimistic
            && r.chats == v.chats && r.unread == v.unread && r.typing == v.typing
  {
  }

  // ----- deleteMessage -----

  /** Time of a message for the newest-first order; a missing time counts as 0. */
  function MessageTime(m: ClientMessage): int {
    m.createdAt.GetOr(0)
  }

  /** The replacement latest message of chat c: the newest message of c in the
      provider's list other than the deleted one, or none. */
  function NewLatest(messages: seq<ClientMessage>, chatId: ChatId, messageId: MessageId): Option<ClientMessage> {
    NewestBy(Filter(messages, (m: ClientMessage) => m.chatId == chatId && m.id != messageId), MessageTime)
  }

  /** Remove the message from the shown list; every chat whose latest message had
      that id gets the newest remaining message of that chat, or none. */
  function DeleteMessage(v: ChatView, messageId: MessageId): (r: ChatView)
    ensures |r.chats| == |v.chats|
    ensures r.unread == v.unread && r.typing == v.typing
  {
    v.(messages := Filter(v.messages, (m: ClientMessage) => m.id != messageId),
       chats := seq(|v.chats|, i requires 0 <= i < |v.chats| =>
         var c := v.chats[i];
         if c.latestMessage.Some? && c.latestMessage.value.id == messageId
         then c.(latestMessage := NewLatest(v.messages, c.id, messageId))
         else c))
  }

  /** The replacement is none exactly when the chat has no other message; otherwise
      it is a message of that chat, not the deleted one, and none of the others is
      newer. */
  lemma NewLatestFacts(messages: seq<ClientMessage>, chatId: ChatId, messageId: MessageId)
    ensures NewLatest(messages, chatId, messageId).None? <==>
              forall k | 0 <= k < |messages| :: !(messages[k].chatId == chatId && messages[k].id != messageId)
    ensures NewLatest(messages, chatId, messageId).Some? ==>
              var m := NewLatest(messages, chatId, messageId).value;
              && m in messages && m.chatId == chatId && m.id != messageId
              && forall k | 0 <= k < |messages| && messages[k].chatId == chatId && messages[k].id != messageId ::
                   MessageTime(messages[k]) <= MessageTime(m)
  {
    var rest := Filter(messages, (m: ClientMessage) => m.chatId == chatId && m.id != messageId);
    if rest != [] {
      assert rest[0] in messages;
    }
    var r := NewLatest(messages, chatId, messageId);
    if r.Some? {
      forall k | 0 <= k < |messages| && messages[k].chatId == chatId && messages[k].id != messageId
        ensures MessageTime(messages[k]) <= MessageTime(r.value)
      {
        var j :| 0 <= j < |rest| && rest[j] == messages[k];
      }
    }
  }

  /** After a delete no shown message has that id, every other message stays, as
      often as it was shown, in order. */
  lemma DeleteMessageKeepsOthers(v: ChatView, messageId: MessageId)
    ensures var r := DeleteMessage(v, messageId);
            && (forall i | 0 <= i < |r.messages| :: r.messages[i].id != messageId)
            && (forall i | 0 <= i < |v.messages| && v.messages[i].id != messageId :: v.messages[i] in r.messages)
            && IsSubsequence(r.messages, v.messages)
            && forall w: ClientMessage | w.id != messageId :: Count(r.messages, w) == Count(v.messages, w)
  {
    FilterIsSubsequence(v.messages, (m: ClientMessage) => m.id != messageId);
    forall w: ClientMessage | w.id != messageId
      ensures Count(DeleteMessage(v, messageId).messages, w) == Count(v.messages, w)
    {
      FilterKeepsCount(v.messages, (m: ClientMessage) => m.id != messageId, w);
    }
  }

  /** A chat whose latest message was deleted points at a message of its own, newest
      among the remaining ones, or at none when none remains; other chats are
      untouched. */
  lemma DeleteMessageRelinks(v: ChatView, messageId: MessageId)
    ensures var r := DeleteMessage(v, messageId);
            forall i | 0 <= i < |v.chats| ::
              var c := v.chats[i];
              if c.latestMessage.Some? && c.latestMessage.value.id == messageId then
                && r.chats[i].id == c.id
                && (r.chats[i].latestMessage.None? <==>
                      forall k | 0 <= k < |v.messages| :: !(v.messages[k].chatId == c.id && v.messages[k].id != messageId))
                && (r.chats[i].latestMessage.Some? ==>
                      var m := r.chats[i].latestMessage.value;
                      && m in v.messages && m.chatId == c.id && m.id != messageId
                      && forall k | 0 <= k < |v.messages| && v.messages[k].chatId == c.id && v.messages[k].id != messageId ::
                           MessageTime(v.messages[k]) <= MessageTime(m))
              else r.chats[i] == c
  {
    forall i | 0 <= i < |v.chats| {
      NewLatestFacts(v.messages, v.chats[i].id, messageId);
    }
  }

  // ----- unread counters and the incoming-message handler -----

  /** `prev[chatId] || 0`. */
  function UnreadOf(unread: map<ChatId, nat>, chatId: ChatId): nat {
    if chatId in unread then unread[chatId] else 0
  }

  /** `markMessageAsRead`, once the request has succeeded. */
  function MarkRead(v: ChatView, chatId: ChatId): (r: ChatView)
    ensures UnreadOf(r.unread, chatId) == 0
    ensures forall c | c != chatId :: UnreadOf(r.unread, c) == UnreadOf(v.unread, c)
    ensures r.chats == v.chats && r.messages == v.messages && r.typing == v.typing
  {
    v.(unread := v.unread[chatId := 0])
  }

  /** `Math.abs(t1 - t2) < 5000` on two dates; a missing date is NaN, which compares false. */
  predicate WithinFiveSeconds(a: Option<int>, b: Option<int>) {
    a.Some? && b.Some? && -5000 < a.value - b.value < 5000
  }

  /** The incoming message duplicates a placeholder: an optimistic message with the
      same content and sender, sent within five seconds of it. */
  predicate IsExisting(messages: seq<ClientMessage>, m: ClientMessage) {
    exists i | 0 <= i < |messages| ::
      && messages[i].isOptimistic && messages[i].content == m.content && messages[i].senderId == m.senderId
      && WithinFiveSeconds(messages[i].createdAt, m.createdAt)
  }

  /** The replacement done for a duplicate: every optimistic message with the same
      content and sender, whatever its time. */
  function ReplaceMatching(messages: seq<ClientMessage>, m: ClientMessage): (r: seq<ClientMessage>)
    ensures |r| == |messages|
    ensures forall i | 0 <= i < |r| ::
              r[i] == if messages[i].isOptimistic && messages[i].content == m.content && messages[i].senderId == m.senderId
                      then m else messages[i]
  {
    seq(|messages|, i requires 0 <= i < |messages| =>
      if messages[i].isOptimistic && messages[i].content == m.content && messages[i].senderId == m.senderId
      then m else messages[i])
  }

  /** `message received`. Returns the new view and whether a refetch of the chat list
      was started (the chat is not listed yet). */
  function OnMessageReceived(v: ChatView, selected: Option<ChatId>, m: ClientMessage): (r: (ChatView, bool))
    ensures |r.0.chats| == |v.chats| && r.0.typing == v.typing
    ensures r.1 ==> r.0.chats == v.chats
    ensures |v.messages| <= |r.0.messages| <= |v.messages| + 1
  {
    if IsExisting(v.messages, m) then
      (v.(messages := ReplaceMatching(v.messages, m)), false)
    else
      var unread := if selected != Some(m.chatId) then v.unread[m.chatId := UnreadOf(v.unread, m.chatId) + 1] else v.unread;
      var messages := if selected == Some(m.chatId) then v.messages + [m] else v.messages;
      var listed := HasChat(v.chats, m.chatId);
      var chats := if listed then SortChats(SetLatest(v.chats, m.chatId, m)) else v.chats;
      (v.(unread := unread, messages := messages, chats := chats), !listed)
  }

  /** A duplicate of a placeholder changes neither the counters nor the chat list, and
      adds no message. A new message in a chat other than the open one bumps that
      chat's counter by one and leaves the shown messages alone; in the open chat it is
      appended and no counter moves. Marking the chat read brings its counter to 0. */
  lemma MessageReceivedFacts(v: ChatView, selected: Option<ChatId>, m: ClientMessage)
    ensures var (r, refetch) := OnMessageReceived(v, selected, m);
            IsExisting(v.messages, m) ==>
              && r.unread == v.unread && r.chats == v.chats && |r.messages| == |v.messages| && !refetch
              && (forall i | 0 <= i < |v.messages| && v.messages[i].isOptimistic && v.messages[i].content == m.content
                               && v.messages[i].senderId == m.senderId :: r.messages[i] == m)
    ensures var (r, refetch) := OnMessageReceived(v, selected, m);
            !IsExisting(v.messages, m) && selected != Some(m.chatId) ==>
              && UnreadOf(r.unread, m.chatId) == UnreadOf(v.unread, m.chatId) + 1
              && (forall c | c != m.chatId :: UnreadOf(r.unread, c) == UnreadOf(v.unread, c))
              && r.messages == v.messages
              && UnreadOf(MarkRead(r, m.chatId).unread, m.chatId) == 0
    ensures var (r, refetch) := OnMessageReceived(v, selected, m);
            !IsExisting(v.messages, m) && selected == Some(m.chatId) ==>
              r.unread == v.unread && r.messages == v.messages + [m]
    ensures var (r, refetch) := OnMessageReceived(v, selected, m);
            !IsExisting(v.messages, m) ==>
              && (refetch <==> !HasChat(v.chats, m.chatId))
              && (refetch ==> r.chats == v.chats)
              && (!refetch ==> multiset(r.chats) == multiset(SetLatest(v.chats, m.chatId, m)))
              && (!refetch ==> forall i, j | 0 <= i < j < |r.chats| :: LatestTime(r.chats[i]) >= LatestTime(r.chats[j]))
  {
    if !IsExisting(v.messages, m) && HasChat(v.chats, m.chatId) {
      SortChatsFacts(SetLatest(v.chats, m.chatId, m));
    }
  }

  /** `chat updated`: every listed chat with that id is replaced by the server's copy
      and the list is re-sorted; the result is a newest-first permutation of the
      replaced list, in which no chat with that id is left as it was. */
  function OnChatUpdated(chats: seq<ChatSummary>, updated: ChatSummary): (r: seq<ChatSummary>)
    ensures multiset(r) == multiset(ReplaceChat(chats, updated))
    ensures forall i, j | 0 <= i < j < |r| :: LatestTime(r[i]) >= LatestTime(r[j])
    ensures forall c | c in r && c.id == updated.id :: c == updated
    ensures |r| == |chats|
  {
    var replaced := ReplaceChat(chats, updated);
    SortChatsFacts(replaced);
    var r := SortChats(replaced);
    forall c | c in r && c.id == updated.id ensures c == updated {
      assert c in multiset(replaced);
    }
    assert |r| == |multiset(r)| == |replaced|;
    r
  }

  function ReplaceChat(chats: seq<ChatSummary>, updated: ChatSummary): (r: seq<ChatSummary>)
    ensures |r| == |chats|
    ensures forall i | 0 <= i < |r| :: r[i] == if chats[i].id == updated.id then updated else chats[i]
  {
    seq(|chats|, i requires 0 <= i < |chats| => if chats[i].id == updated.id then updated else chats[i])
  }

  // ----- typing indicators -----

  function TypingIn(typing: map<ChatId, seq<UserId>>, chatId: ChatId): seq<UserId> {
    if chatId in typing then typing[chatId] else []
  }

  /** `typing` from another user: append the id under the chat (duplicates allowed). */
  function OnTyping(typing: map<ChatId, seq<UserId>>, me: UserId, chatId: ChatId, u: UserId): (r: map<ChatId, seq<UserId>>)
    ensures u == me ==> r == typing
    ensures u != me ==> TypingIn(r, chatId) == TypingIn(typing, chatId) + [u]
    ensures forall c | c != chatId :: TypingIn(r, c) == TypingIn(typing, c)
  {
    if u != me then typing[chatId := TypingIn(typing, chatId) + [u]] else typing
  }

  /** `stop typing` from another user: remove every occurrence of the id under the chat. */
  function OnStopTyping(typing: map<ChatId, seq<UserId>>, me: UserId, chatId: ChatId, u: UserId): (r: map<ChatId, seq<UserId>>)
    ensures u == me ==> r == typing
    ensures u != me ==> u !in TypingIn(r, chatId) && IsSubsequence(TypingIn(r, chatId), TypingIn(typing, chatId))
    ensures u != me ==> forall w | w != u :: Count(TypingIn(r, chatId), w) == Count(TypingIn(typing, chatId), w)
    ensures forall c | c != chatId :: TypingIn(r, c) == TypingIn(typing, c)
  {
    if u != me then typing[chatId := RemoveAll(TypingIn(typing, chatId), u)] else typing
  }

  /** A `stop typing` clears every `typing` of that user in that chat, however many
      arrived, and leaves the other users' entries as they were. */
  lemma StopTypingUndoesTyping(typing: map<ChatId, seq<UserId>>, me: UserId, chatId: ChatId, u: UserId)
    requires u != me
    ensures TypingIn(OnStopTyping(OnTyping(typing, me, chatId, u), me, chatId, u), chatId)
         == RemoveAll(TypingIn(typing, chatId), u)
  {
    RemoveAllAppend(TypingIn(typing, chatId), [u], u);
    assert RemoveAll([u], u) == [];
  }
}
