# Sivora chat and call core, modelled in Dafny

Sivora is a chat and call application. Its Node.js backend has REST handlers for
users, chats and messages, and a Socket.IO server for presence, message fan-out and
WebRTC call signaling. Its React client keeps the chat list, the messages, the
online users and a local call log. This project models the logic of both sides on
sequences, maps and records, and proves what each handler promises.

- `signaling.dfy` (module `Signaling`) is the Socket.IO server (`socketHandler`).
  It is the class `Server`, holding the three tables the handler updates in place
  (`activeUsers`, `userSockets`, `activeCalls`), each connection's `currentUserId`,
  and the transport's rooms (`chat:<id>` and `user:<id>`) as explicit maps. Every
  event handler is a method. It returns the emits it makes, each resolved to the set
  of sockets it reaches when it is sent. Every method keeps the invariant `Valid()`:
  - no user key maps to an empty socket set;
  - a socket's recorded user has that socket in its set;
  - rooms hold open sockets only;
  - a personal room holds only sockets filed under its user.
- `signaling_scenarios.dfy` runs concrete multi-device sequences through the server:
  message fan-out, presence edges, ringing, hanging up and re-identifying.
- `client_presence.dfy`, `chat_state.dfy`, `call_log.dfy`, `call_history_view.dfy`,
  `chat_page.dfy` and `register_form.dfy` are the client's state updaters, pickers
  and validators. The call log's local storage and call start time form the class
  `CallStore`.
- `message_controller.dfy`, `chat_controller.dfy`, `user_controller.dfy` and
  `upload_routes.dfy` are the REST handlers and the upload configuration, over an
  in-memory database. The user handlers load a document and assign its fields one
  at a time, so a user document is the class `UserDocument`.
- `seqs.dfy`, `sorting.dfy`, `js_text.dfy` and `wrappers.dfy` hold what the others
  share:
  - JavaScript's `filter`;
  - the stable descending sort both clients use;
  - `trim`, `toLowerCase` (on ASCII and Latin-1 letters), `length` in UTF-16 code units, and number-to-string;
  - `Option` and `Result`.

Clocks, fresh ids, the regular-expression search, `JSON.parse` and the account
service's answer are parameters. A missing or falsy JavaScript string field is the
empty string.

The model follows the code. A scenario or lemma pins down each of these points of
the signaling server:

- **The sender's other devices.** The comment at backend/socket/index.js:27 asks for
  support of several devices per user, and the one at :65 sends a copy of each
  message to the recipients' personal rooms. The code skips every listed user whose
  id equals the sender's, so the sender's other devices get nothing. With id strings
  in `chat.users`, the recipient's device in the chat room receives the message twice
  (`SignalingScenarios.MessageFanOut`).
- **The fan-out of a message as the client sends it.** The client relays the
  selected chat (frontend/src/components/MessageInput.jsx:54-58 and :90-95), whose
  `users` were populated into user objects by the chat handlers
  (backend/controllers/chat.controller.js:34, 54, 84). `userId.toString()` is then
  `[object Object]`, so every per-user copy goes to the room `user:[object Object]`,
  which no socket joins. The recipient gets the message once, through the chat room
  (`SignalingScenarios.MessageFanOutAsSent`).
- **The `online` broadcast.** The code broadcasts `online` on every identify, not
  only on a user's first connection
  (`SignalingScenarios.ReidentifyBroadcastsAgain`).
- **Identifying under another user.** The code files the socket under the new user
  and leaves it in the old user's set. After the socket closes, the old user stays
  online with no socket (`SignalingScenarios.StaleUserAfterReidentify`).
- **Hanging up before an answer.** `end_call` does not clear the pending call, so
  the caller receives `call_ended` again when the callee goes offline
  (`SignalingScenarios.EndCallLeavesPendingEntry`).

Other things the code does as written:

- **Event names.** The client emits three events under names the server does not
  listen for, so the server never receives them:
  - `callEnded` (frontend/src/context/CallContext.jsx:1014), where the server listens for `end_call`;
  - `callRejected` (frontend/src/context/CallContext.jsx:1339), where it listens for `reject_call`;
  - `stop typing` (frontend/src/context/ChatContext.jsx:485), where it listens for `typing_stopped`.

  Each side is modelled as written.
- **Joining a chat room.** The socket provider's connect effect depends on the set
  of joined chats (frontend/src/context/SocketContext.jsx:76), and every join or
  leave stores a new set. So each join reruns the effect: the old socket leaves its
  rooms and closes, and a new socket that is in no room announces the user. Until the
  client next types or sends in that chat, which joins the room again at the server
  (backend/socket/index.js:56 and :81), the chat receives nothing live (see Findings).
- **`new chat` rooms.** `accessChat` announces a new chat to rooms named by bare
  user ids. Clients only ever join `user:<id>` rooms.
- **The search term.** The chat page tests the term for blankness after trimming,
  but matches it untrimmed.
- **Whitespace-only content.** Message content of only whitespace passes the send
  guard and is stored empty, because the schema trims it.
- **Two-user groups.** `createGroupChat` says "More than 2 users are required", yet
  it accepts exactly two supplied users.

## Model

| member | source | states |
|---|---|---|
| Signaling.Server.constructor | backend/socket/index.js:9-13 | The three tables start empty, with no sockets and no rooms, and the table invariant holds. |
| Signaling.Server.Connect | backend/socket/index.js:19-21 | A new connection adds one open socket with no user yet; no table changes. |
| Signaling.Server.Identify | backend/socket/index.js:24-49 | The socket is filed under the user (set created when missing), joins `user:<id>`; `online` goes to every open socket and the snapshot of online users to this socket only; identifying again under the same user changes no table, under another user the socket stays in the earlier user's set; the invariant is kept. |
| Signaling.Server.NewMessage | backend/socket/index.js:52-77 | The sender joins `chat:<id>`; the message goes to the room without the sender's socket, then to the personal room of every listed user other than the sender, in list order, then `stop typing` to the whole room; only the room table changes. |
| Signaling.Server.Typing | backend/socket/index.js:80-86 | Joins the room and relays `typing` to it without the sender's socket. |
| Signaling.Server.TypingStopped | backend/socket/index.js:89-92 | Relays `typing_stopped` to the room without the sender's socket and joins nothing. |
| Signaling.Server.MessageRead | backend/socket/index.js:95-101 | Joins the room and relays the read receipt to it without the sender's socket. |
| Signaling.Server.JoinChat | backend/socket/index.js:104-107 | The socket is added to `chat:<id>`; nothing else changes. |
| Signaling.Server.LeaveChat | backend/socket/index.js:110-113 | The socket is no longer in `chat:<id>`; nothing else changes. |
| Signaling.Server.CallUser | backend/socket/index.js:118-139 | The pending call is filed under the callee first, overwriting any earlier one; the callee's devices ring when it has a socket, otherwise the calling socket alone gets `call_error` "User is offline". |
| Signaling.Server.CallAccepted | backend/socket/index.js:142-150 | The answering user's pending entry is gone; a socket that never identified deletes the entry filed under the empty id, which stands for `undefined`, the key a call to a missing user id is filed under. The answer goes to every device of `to`. |
| Signaling.Server.IceCandidate | backend/socket/index.js:153-158 | A stateless relay of the candidate to every device of `to`. |
| Signaling.Server.RejectCall | backend/socket/index.js:161-169 | The rejecting user's pending entry is gone (for a socket that never identified, the entry filed under the empty id, as for `call_accepted`) and `call_rejected` goes to every device of `to`. |
| Signaling.Server.EndCall | backend/socket/index.js:172-177 | `call_ended` goes to every device of `to`; activeCalls is not touched. |
| Signaling.Server.Disconnect | backend/socket/index.js:180-208 | The socket is closed and leaves every room; its user loses that socket; on the last socket the user leaves activeUsers, `offline` goes to the sockets still open, and a pending call of which it is the callee ends with `call_ended` to the caller; a socket never identified (or under a falsy id) changes no table; the invariant is kept. |
| Signaling.Server.HandleDisconnect | backend/socket/index.js:184-207 | The handler body alone: the same table updates and emits as Disconnect, from the tables as the handler finds them. |
| Signaling.ReceivedAppend | backend/socket/index.js:60-76 | What a socket receives from two emit batches in sequence is what it receives from the first, then from the second. |
| Signaling.LeaveAll | backend/socket/index.js:180 | Closing a socket removes it from every room and keeps every room key. |
| Signaling.PresenceTableFacts | backend/socket/index.js:28-31 | Adding or removing a socket keeps every user key on a non-empty set; a user key goes exactly when its last socket is removed; other users are untouched. |
| Signaling.RemoveAfterJoin | backend/socket/index.js:28-31 | Removing a socket just added restores activeUsers exactly. |
| Signaling.PersonalFanoutExact | backend/socket/index.js:63-70 | Every per-user emit goes to the personal room of a listed user other than the sender, and every such user gets one. |
| Signaling.PersonalFanoutSenderOnly | backend/socket/index.js:63-70 | A list that holds only the sender produces no per-user emit. |
| Signaling.ForgetSocketFacts | backend/socket/index.js:184-207 | Only the departing socket's user changes, it loses exactly that socket, and it leaves activeUsers (the `offline` edge) exactly when the socket was its only one. |
| Signaling.IdentifyKeepsTables | backend/socket/index.js:24-37 | Identifying keeps the table invariant. |
| Signaling.IdentifyRepeatOrMove | backend/socket/index.js:25-32 | Identifying a socket again under its own user changes neither table; under another user the socket stays filed in the earlier user's set. |
| Signaling.DisconnectKeepsTables | backend/socket/index.js:180-208 | Closing a socket and running the handler keep the table invariant. |
| SignalingScenarios.MessageFanOut | backend/socket/index.js:52-77 | With A on a1 and a2 and B on b1 in the chat room, a message from a1 reaches b1 twice (room and personal room), a2 gets nothing, and a1 gets only `stop typing`. |
| SignalingScenarios.MessageFanOutAsSent | backend/socket/index.js:52-77 | With the chat's users relayed as user objects, the per-user copies go to a room no socket is in: b1 gets the message once through the chat room, a2 gets nothing, a1 only `stop typing`. |
| SignalingScenarios.ReidentifyBroadcastsAgain | backend/socket/index.js:28-44 | Identifying an identified socket again changes no table and still broadcasts `online` to every open socket. |
| SignalingScenarios.CloseFirstDevice | backend/socket/index.js:187-192 | Closing one of two devices emits nothing and leaves the user online on the other. |
| SignalingScenarios.CloseSecondDevice | backend/socket/index.js:192-201 | Closing the last device broadcasts `offline` to the remaining open sockets, then `call_ended` to the caller of a pending call, and drops the pending entry. |
| SignalingScenarios.PresenceEdges | backend/socket/index.js:180-208 | Of two closes, the first is silent and the second broadcasts `offline` once. |
| SignalingScenarios.RingA | backend/socket/index.js:118-134 | A call to a user with two devices rings both and files the pending call. |
| SignalingScenarios.AGoesOffline | backend/socket/index.js:192-201 | While a call to A is pending, closing both of A's devices gives the caller `offline` and then `call_ended`, and the entry is gone. |
| SignalingScenarios.CallUnreachable | backend/socket/index.js:118-139 | A call to a user with no socket answers the calling socket alone with `call_error` and still files the pending call. |
| SignalingScenarios.CalleeLeavesWhileRinging | backend/socket/index.js:118-201 | The callee's two devices ring; when both close before answering, the caller gets `offline` then `call_ended`, once, and no pending entry remains. |
| SignalingScenarios.EndCallLeavesPendingEntry | backend/socket/index.js:172-201 | After the caller hangs up with `end_call` before an answer, the pending entry stays, so the callee going offline sends `call_ended` to the caller once more. |
| SignalingScenarios.ReidentifyAsB | backend/socket/index.js:24-32 | Identifying socket s, filed under A, as B files it under B while it stays in A's set. |
| SignalingScenarios.StaleUserAfterReidentify | backend/socket/index.js:24-32 | After a socket identified as A and then B closes, A is still listed online with no socket, and a call to A rings nobody and raises no `call_error`. |
| ClientPresence.OnActiveUsers | frontend/src/context/SocketContext.jsx:86-88 | The online list becomes the server's snapshot; nothing else changes. |
| ClientPresence.OnUserStatus | frontend/src/context/SocketContext.jsx:91-102 | `online` appends an absent id and leaves a present one; any other status removes every occurrence of the id and keeps the rest, in order. |
| ClientPresence.UserStatusFacts | frontend/src/context/SocketContext.jsx:91-102 | The status path adds no duplicate; afterwards the user is online exactly when the status was `online`, and no other user changes. |
| ClientPresence.JoinChatRoom | frontend/src/context/SocketContext.jsx:112-117 | Without a socket or with a falsy id nothing happens; otherwise one `join_chat` is emitted and the id joins the set. |
| ClientPresence.LeaveChatRoom | frontend/src/context/SocketContext.jsx:120-129 | Without a socket or with a falsy id nothing happens; otherwise one `leave_chat` is emitted and the id leaves the set. |
| ClientPresence.JoinLeaveFacts | frontend/src/context/SocketContext.jsx:112-129 | Leaving a chat just joined restores the set; joining twice or leaving twice is doing it once. |
| ClientPresence.RerunConnectEffect | frontend/src/context/SocketContext.jsx:16-83 | The rerun emits one `leave_chat` per chat of the previous set, closes the socket and announces the user on a new one; whatever rooms the socket held before, the live socket then holds none at the server. |
| ClientPresence.ServerRoomsAppend | frontend/src/context/SocketContext.jsx:112-129 | The rooms the server holds after two batches of emits are those after the first, then the second. |
| ClientPresence.JoinIsLostAsWritten | frontend/src/context/SocketContext.jsx:76 | A join followed by the rerun it causes leaves the live socket in no room, while the provider lists the chat as joined. |
| ClientPresence.JoinReachesServer | frontend/src/context/SocketContext.jsx:112-129 | Without the rerun a join puts the socket in the chat's room and a leave takes it out, so the server's rooms follow the provider's joined set. |
| ClientPresence.IsUserOnline | frontend/src/context/SocketContext.jsx:134 | A user is online exactly when some entry of the online list is that id. |
| ClientPresence.LeaveAllOnCleanup | frontend/src/context/SocketContext.jsx:58-74 | Cleanup emits one `leave_chat` for each joined chat, each once, and then closes the socket. |
| Sorting.SortDescByCorrect | frontend/src/context/ChatContext.jsx:36-42 | The descending sort returns a permutation of its input, ordered by non-increasing key. |
| Sorting.SortDescByStable | frontend/src/context/ChatContext.jsx:36-42 | The sort is stable: restricted to any one key value, the output is the input in its original order. |
| Sorting.NewestBy | frontend/src/context/ChatContext.jsx:222-229 | The first element after the descending sort is absent exactly for an empty input, and otherwise an element of the input whose key no other element exceeds. |
| ChatState.SortChatsFacts | frontend/src/context/ChatContext.jsx:36-42 | `sortChatsByLatestMessage` returns a permutation of the chat list, newest latest message first, a chat without one counting as epoch 0, with ties in their earlier order. |
| ChatState.SortChats | frontend/src/context/ChatContext.jsx:36-42 | The result has the same chats as the list, as many times each, ordered newest latest message first. |
| ChatState.AddChatIfAbsent | frontend/src/context/ChatContext.jsx:51-57 | A chat whose id is listed leaves the list unchanged; otherwise the result holds exactly the old chats and the new one, newest latest message first. |
| ChatState.AddChatKeepsIdsDistinct | frontend/src/context/ChatContext.jsx:421-431 | Adding a chat (from `accessChat` or `new chat`) never gives two entries the same id. |
| ChatState.ReplacePlaceholder | frontend/src/context/ChatContext.jsx:182-184 | Position by position, the optimistic message with the temporary id becomes the server's copy and every other message stays. |
| ChatState.SetLatest | frontend/src/context/ChatContext.jsx:188-192 | Every chat with that id gets the message as its latest; every other chat stays. |
| ChatState.SendMessage | frontend/src/context/ChatContext.jsx:152-200 | A send shows one message more; when the request fails the chat list is unchanged; the chat list keeps its length, and unread counters and typing lists are untouched either way. |
| ChatState.SendMessageFacts | frontend/src/context/ChatContext.jsx:152-194 | After a successful send with a temporary id no other placeholder has, the shown messages end with exactly the server's copy appended; the chat list is a permutation of the old one, newest first, in which that chat carries the message; counters and typing lists do not move. |
| ChatState.SendMessageFails | frontend/src/context/ChatContext.jsx:167-200 | When the request fails, the optimistic placeholder stays at the end of the shown messages and the chat list, counters and typing lists are unchanged. |
| ChatState.DeleteMessage | frontend/src/context/ChatContext.jsx:206-234 | The chat list keeps its length, and unread counters and typing lists are untouched. |
| ChatState.NewLatestFacts | frontend/src/context/ChatContext.jsx:217-229 | The replacement latest message is none exactly when the chat has no other message; otherwise it is a message of that chat, not the deleted one, that no other is newer than. |
| ChatState.DeleteMessageKeepsOthers | frontend/src/context/ChatContext.jsx:209 | No shown message keeps the deleted id, and every other message stays, in order and with as many occurrences as before. |
| ChatState.DeleteMessageRelinks | frontend/src/context/ChatContext.jsx:212-234 | A chat whose latest message was deleted points at the newest remaining message of its own, or at none when none remains; every other chat is untouched. |
| ChatState.MarkRead | frontend/src/context/ChatContext.jsx:323-333 | The chat's unread counter becomes 0 and every other counter, the chats and the messages stay. |
| ChatState.ReplaceMatching | frontend/src/context/ChatContext.jsx:409-415 | Every optimistic message with the same content and sender becomes the incoming message, whatever its time; the rest stay. |
| ChatState.OnMessageReceived | frontend/src/context/ChatContext.jsx:358-416 | The chat list keeps its length and the typing lists stay; a message that calls for a refetch leaves the chat list as it was; the shown messages grow by at most one. |
| ChatState.MessageReceivedFacts | frontend/src/context/ChatContext.jsx:358-416 | A duplicate of a placeholder (same content and sender, within five seconds) replaces it and moves no counter or chat; otherwise a message outside the open chat bumps that chat's counter by one and leaves the shown messages, one in the open chat is appended with no counter moved, and a chat not listed triggers a refetch and keeps the list as it was, while a listed one carries the message and the list is re-sorted newest first. |
| ChatState.OnChatUpdated | frontend/src/context/ChatContext.jsx:434-442 | The result is a newest-first permutation of the list with the updated chat in place of every entry that has its id. |
| ChatState.OnTyping | frontend/src/context/ChatContext.jsx:449-456 | `typing` from another user appends that user to the chat's list (duplicates allowed); one's own is ignored; other chats stay. |
| ChatState.OnStopTyping | frontend/src/context/ChatContext.jsx:458-465 | `stop typing` from another user removes every occurrence of that user from the chat's list, keeping the rest in order; other chats stay. |
| ChatState.StopTypingUndoesTyping | frontend/src/context/ChatContext.jsx:449-465 | A `stop typing` after a `typing` of the same user removes that user entirely from the chat's list. |
| CallLog.PrependCapped | frontend/src/context/CallContext.jsx:1316 | The new record comes first, followed by the old history in order, cut to 50 entries in all. |
| CallLog.PrependCappedKeepsCap | frontend/src/context/CallContext.jsx:1316 | A history of at most 50 entries stays within 50; the previous newest entry becomes second; below the cap nothing is dropped. |
| CallLog.RoundedSecondsNearest | frontend/src/context/CallContext.jsx:979 | The duration is the elapsed time in seconds rounded to the nearest whole second, halves up. |
| CallLog.RejectedDuration | frontend/src/context/CallContext.jsx:374-375 | Without a truthy start time the duration is 0; otherwise it is the elapsed time in whole seconds, rounded down. |
| CallLog.CompleteNewest | frontend/src/context/CallContext.jsx:994-999 | Only the newest entry can change, and only when it is with that participant and has no truthy duration: it gets the duration and status `completed`; otherwise the history stays. |
| CallLog.CompleteNewestIdempotent | frontend/src/context/CallContext.jsx:994-999 | Completing twice with a non-zero duration is completing once. |
| CallLog.Participant | frontend/src/context/CallContext.jsx:984-986 | The participant is the caller when known, else the recipient. |
| CallLog.NotifyCallEnded | frontend/src/context/CallContext.jsx:1009-1016 | Nothing is sent without a socket or without either party; otherwise `callEnded` goes to the recipient when known, else to the caller. |
| CallLog.FindParticipant | frontend/src/context/CallContext.jsx:631 | The index found is that of the first participant with that id; none is found exactly when no participant has it. |
| CallLog.FindRecipientName | frontend/src/context/CallContext.jsx:628-637 | The name is never empty: the first matching participant's username, else its name, else `User`; `User` also without a participant list or a match. |
| CallLog.RecipientNameAsWired | frontend/src/context/CallContext.jsx:24 | With no participant list, which is what the provider gets from the chat context, every outgoing call is recorded under `User`. |
| CallLog.DisplayName | frontend/src/context/CallContext.jsx:314 | The caller's name when given; a missing or empty name becomes `Unknown Caller`; never empty. |
| CallLog.RejectTargetAsWrittenIsUndefined | frontend/src/context/CallContext.jsx:1339 | As written, the rejection is addressed to the caller object's missing `userId` field, so never to the caller. |
| CallLog.RejectTarget | frontend/src/context/CallContext.jsx:319 | Corrected: the rejection is addressed to the id stored for the caller. |
| CallLog.CallStore.constructor | frontend/src/context/CallContext.jsx:1310 | Storage starts with no history and no call start time. |
| CallLog.CallStore.SaveCallToHistory | frontend/src/context/CallContext.jsx:1302-1324 | Without a user id nothing is stored; otherwise the user's history becomes the record followed by at most 49 earlier entries; no other user's history changes. |
| CallLog.CallStore.UpdateCallHistory | frontend/src/context/CallContext.jsx:976-1006 | Without a truthy start time nothing changes; otherwise, given a participant and a user id, the user's newest entry is completed with the rounded duration, and the start time is cleared. |
| CallLog.CallStore.OnCallRejected | frontend/src/context/CallContext.jsx:365-381 | With a current call record and a signed-in user, a copy marked `rejected`, with its end time and whole-second duration, goes in front of the user's history; without a record or without a user id the storage is unchanged. |
| CallHistoryView.Keep | frontend/src/components/CallHistory.jsx:24-30 | `all` and any unrecognised filter keep every record; a missed call is kept by every tab but `incoming`, and by `outgoing` only when it was outgoing. |
| CallHistoryView.Filtered | frontend/src/components/CallHistory.jsx:24-30 | The tab's records keep their history order, and a record of the history is in it exactly when the tab keeps it. |
| CallHistoryView.ShowAllFilters | frontend/src/components/CallHistory.jsx:24-30 | The `all` filter and any unrecognised filter show the whole history. |
| CallHistoryView.TabContents | frontend/src/components/CallHistory.jsx:24-30 | Each tab shows exactly its records, in history order: incoming ones not missed, all outgoing ones, and missed ones whatever their direction. |
| CallHistoryView.SortedViewFacts | frontend/src/components/CallHistory.jsx:33-35 | The shown list is the filtered list reordered newest first, with nothing added or lost. |
| CallHistoryView.SortedView | frontend/src/components/CallHistory.jsx:33-35 | The shown records are the tab's records, as many times each, newest first; each is a record of the history the tab keeps. |
| CallHistoryView.FormatDuration | frontend/src/components/CallHistory.jsx:44-49 | A falsy duration shows `--:--`; otherwise minutes (rounded down) and seconds (JavaScript remainder), each padded to two characters. |
| CallHistoryView.FormatDurationRoundTrip | frontend/src/components/CallHistory.jsx:44-49 | For a positive duration the text reads back as the input: two seconds digits below 60, at least two minutes digits, and 60 times the minutes plus the seconds is the duration. |
| CallHistoryView.ClearHistory | frontend/src/components/CallHistory.jsx:52-57 | After confirmation the shown list is empty and the user's stored history is gone; without confirmation nothing changes. |
| ChatPage.ExcludeSelf | frontend/src/pages/Chat.jsx:63 | Every fetched user except the current one is kept, and only those, in the fetched order. |
| ChatPage.Search | frontend/src/pages/Chat.jsx:86-97 | A blank term shows every user; otherwise exactly the users whose lower-cased username or email contains the lower-cased, untrimmed term. |
| ChatPage.SearchIsSubsequence | frontend/src/pages/Chat.jsx:92-95 | Search results keep the order of the full list. |
| ChatPage.ToggleSelected | frontend/src/pages/Chat.jsx:108-115 | A user already selected (by id) is removed, every entry with that id, and the others stay in their order with nothing added; any other user is appended. |
| ChatPage.ToggleTwice | frontend/src/pages/Chat.jsx:108-115 | Selecting a user and selecting it again gives back the original selection. |
| ChatPage.CanCreateGroup | frontend/src/pages/Chat.jsx:121-123 | A group can be created only with a non-empty name and at least two users selected. |
| ChatPage.CanCreateGroupIff | frontend/src/pages/Chat.jsx:121-123 | A group can be created exactly when the name is not all whitespace and at least two users are selected. |
| ChatPage.SelectedIds | frontend/src/pages/Chat.jsx:127 | The ids sent are the selected users' ids, position by position. |
| RegisterForm.Validate | frontend/src/pages/Register.jsx:27-40 | The first failing check wins: an empty field, then different passwords, then a password under 6 UTF-16 code units; the form passes exactly when none fails. |
| RegisterForm.HandleSubmit | frontend/src/pages/Register.jsx:22-47 | `register` is called exactly when the form passes; otherwise the first failing check's message is shown; a failed registration shows the service's message and a successful one clears the error. |
| RegisterForm.SubmittedFormIsComplete | frontend/src/pages/Register.jsx:22-47 | A form that reaches the service has a username, an email, matching passwords and a password of at least three characters. |
| ChatController.FindDirect | backend/controllers/chat.controller.js:27-33 | The index found is that of the first one-to-one chat holding both users; none is found exactly when there is no such chat. |
| ChatController.AccessChat | backend/controllers/chat.controller.js:18-71 | The stored chats are kept in order and at most one is appended, exactly when the reply is a new chat; every `new chat` emit carries that chat. |
| ChatController.AccessChatFacts | backend/controllers/chat.controller.js:18-71 | 400, and nothing stored or announced, exactly when the user id is missing; an existing one-to-one chat of the two users is returned as it is; otherwise a new non-group chat with users [requester, userId] is appended and announced when the socket server is up, first to the room named by the bare `userId` and then to the one named by the bare requester id, and the next equal request finds it. |
| ChatController.CreateGroupChatAsWritten | backend/controllers/chat.controller.js:107-153 | As written every reply is an error; the stored chats are kept in order and at most one is appended. |
| ChatController.CreateGroupChatAsWrittenFails | backend/controllers/chat.controller.js:144-151 | As written, a request that gets a group chat stored (for instance two ids in an array and a name without surrounding whitespace) is answered 500, with the chat already stored. |
| ChatController.PlanGroup | backend/controllers/chat.controller.js:109-136 | A stop is a 400 or 500 error; a chat to store has the new id, is a group with the requester as admin, and has at least three users, the requester last. |
| ChatController.PlanGroupOutcome | backend/controllers/chat.controller.js:109-136 | The handler stops with 400 for missing fields or fewer than two users, and with 500 for a JSON text that does not parse or a blank name; otherwise it stores a group of the supplied users followed by the requester, who is its admin, under the trimmed name, with the default picture when none is given. |
| ChatController.CreateGroupChat | backend/controllers/chat.controller.js:107-153 | Every reply other than a created chat is an error that stores and announces nothing; a created chat is appended to the stored ones and announced once per user entry, to that entry's room, in order. |
| ChatController.CreateGroupChatErrors | backend/controllers/chat.controller.js:107-153 | The corrected handler answers 400 and 500 exactly in the cases above, and on any error stores and announces nothing. |
| ChatController.CreateGroupChatCreated | backend/controllers/chat.controller.js:127-148 | On 201 the corrected handler has appended the group chat (supplied users then the requester, requester as admin) and sent one `new chat` to the room of each user entry, in order. |
| ChatController.AsWrittenStoresSameChat | backend/controllers/chat.controller.js:130-148 | The as-written and corrected handlers store the same chats; the corrected one answers 201 exactly when the as-written one stored a chat. |
| ChatController.FindChat | backend/controllers/chat.controller.js:197 | The index found is that of the first chat with that id; none is found exactly when no chat has it. |
| ChatController.AdminGuard | backend/controllers/chat.controller.js:197-204 | 404 for an unknown chat, 500 for a chat with no admin (reading it throws), 403 for anyone but the admin; it passes exactly for the admin of an existing chat. |
| ChatController.AddToGroupChat | backend/controllers/chat.controller.js:192-224 | The number of chats stays; an error leaves them as they were; an updated chat is stored and lists the added user. |
| ChatController.AddToGroupFacts | backend/controllers/chat.controller.js:192-224 | Only the admin of an existing chat changes anything, and only that chat's user list, which gains one more occurrence of the user (duplicates possible) with every other count kept; on an error nothing changes. |
| ChatController.RemoveFromGroupChat | backend/controllers/chat.controller.js:231-263 | The number of chats stays; an error leaves them as they were; an updated chat is stored and no longer lists the user. |
| ChatController.RemoveFromGroupFacts | backend/controllers/chat.controller.js:231-263 | Only the admin of an existing chat changes anything; the chat's user list loses every occurrence of the user and keeps every other count; on an error nothing changes. |
| ChatController.AddThenRemove | backend/controllers/chat.controller.js:209-248 | Removing a user right after adding them gives the same result as removing them straight away: the pushed copy goes too. |
| UserController.GetUsers | backend/controllers/user.controller.js:8-30 | Exactly the users the search selects other than the requester. |
| UserController.GetUsersKeepsOrder | backend/controllers/user.controller.js:20-23 | The list keeps the stored order. |
| UserController.GetUsersWithoutSearch | backend/controllers/user.controller.js:10-23 | Without a search term every user but the requester is listed, in stored order. |
| UserController.SetsPassword | backend/controllers/user.controller.js:87 | The password guard passes exactly for a password that is not blank once trimmed. |
| UserController.UpdatedProfile | backend/controllers/user.controller.js:71-89 | Username, email and picture change only to a truthy value, the picture stored as given whether a data URL or a link; the password changes only to a non-blank value; status and last-seen stay. |
| UserController.UpdatedProfileFacts | backend/controllers/user.controller.js:71-89 | An empty body changes nothing, applying the same body twice is applying it once, and the result depends only on the stored fields. |
| UserController.UserDocument.constructor | backend/controllers/user.controller.js:65 | The loaded document holds the stored fields. |
| UserController.UserDocument.ApplyUpdate | backend/controllers/user.controller.js:71-89 | The field-by-field assignments leave the document equal to the partial update of its old fields. |
| UserController.UserDocument.SetStatus | backend/controllers/user.controller.js:130-131 | Status and last-seen are set; every other field stays. |
| UserController.UpdateUserProfile | backend/controllers/user.controller.js:60-112 | 404 when the requester has no document; otherwise 200, that document gets the partial update and the reply carries its new public fields; no other document changes. |
| UserController.UpdateUserStatus | backend/controllers/user.controller.js:119-147 | 400 for a status outside online/offline/away, checked first; 404 without a document; otherwise 200 with status and last-seen set; nothing changes on an error and no other document changes. |
| MessageController.OrNull | backend/controllers/message.controller.js:45-47 | A falsy field becomes null; any other keeps its value. |
| MessageController.SendMessage | backend/controllers/message.controller.js:32-69 | 400 with nothing stored when there is neither content nor a file URL, or no chat id; 500 with nothing stored when the file type is outside the schema's enum (backend/models/message.model.js:26-30); otherwise 201, the new document is appended, and it becomes its chat's latest message when that chat exists. |
| MessageController.SentMessageShape | backend/controllers/message.controller.js:41-49 | The stored message has the new id, the sender, the requested chat, readers exactly [sender], content empty exactly when the request's is blank (the schema trims it, backend/models/message.model.js:9-12), and a null file field exactly where the request had none. |
| MessageController.AddToSet | backend/controllers/message.controller.js:94 | The reader is present afterwards, every earlier reader stays, nothing else is added, and a list without duplicates stays so. |
| MessageController.MarkAll | backend/controllers/message.controller.js:91-97 | Every message of the chat not yet read by the user gains the user as a reader; every other message stays. |
| MessageController.MarkMessagesAsRead | backend/controllers/message.controller.js:76-106 | With no unread message the reply is `No unread messages` and nothing is written; otherwise the messages become exactly `MarkAll` of the old ones (each unread message of the chat gains the user as a reader) and the reply reports the number of messages that were unread. |
| MessageController.UnreadCountZero | backend/controllers/message.controller.js:81-88 | The count is 0 exactly when no message of the chat is unread by the user. |
| MessageController.MarkReadFacts | backend/controllers/message.controller.js:81-99 | Afterwards nothing in the chat is unread by the user, only reader lists of that chat's messages change, every earlier reader of every message stays, and reader lists stay free of duplicates. |
| MessageController.MarkReadTwice | backend/controllers/message.controller.js:86-88 | A second call finds nothing to mark and writes nothing. |
| MessageController.SendThenUnread | backend/controllers/message.controller.js:48 | A message just sent adds one to the unread count of every user but its sender, and nothing to the sender's. |
| MessageController.FileTypeOf | backend/controllers/message.controller.js:123-128 | `image` exactly for a MIME type starting with image, `audio` exactly for one starting with audio but not image, `document` for the rest. |
| MessageController.UploadFile | backend/controllers/message.controller.js:113-139 | 400 exactly when there is no file; otherwise the public URL under `/uploads/` with the stored name, the classified type and the original name. |
| MessageController.FindMessage | backend/controllers/message.controller.js:151 | The index found is that of the first message with that id; none is found exactly when no message has it. |
| MessageController.DeleteMessage | backend/controllers/message.controller.js:146-182 | The reply is 200, 404 or 500; exactly one document goes when the id is known and none otherwise; no chat reference is added or dropped. |
| MessageController.DeleteUnknown | backend/controllers/message.controller.js:151-155 | 404 exactly for an id no message has, and then nothing changes. |
| MessageController.DeleteKnown | backend/controllers/message.controller.js:146-182 | A known id loses exactly its first document; the reply is 500, after the delete, exactly when the message's chat has no document, else 200; only that chat's reference can change, and only if it named the deleted id. |
| MessageController.DeleteRemovesId | backend/controllers/message.controller.js:162 | With unique ids no document with the deleted id remains. |
| MessageController.NewestOfChatFacts | backend/controllers/message.controller.js:168-169 | The newest message of a chat is one of its messages with the greatest creation time, and there is none exactly when the chat has no message. |
| MessageController.DeleteRecomputesLatest | backend/controllers/message.controller.js:165-175 | When the deleted message was its chat's latest, the chat then points at a remaining message of its own with the greatest creation time, or at nothing exactly when none remains. |
| UploadRoutes.FileFilter | backend/routes/message.routes.js:24-41 | A file is accepted exactly when its MIME type is one of the eight listed, compared exactly; otherwise it is rejected with the listed error message. |
| UploadRoutes.SizeLimitValue | backend/routes/message.routes.js:46 | The limit is 10485760 bytes: a file of that size passes and one byte more does not. |
| UploadRoutes.StoredFilename | backend/routes/message.routes.js:18-20 | The stored name is the clock value in decimal, a dash, then the original name with every whitespace character made a dash and every other character kept; it has no whitespace. |
| UploadRoutes.FilenameTimestamp | backend/routes/message.routes.js:19 | The first dash of the stored name ends a run of decimal digits whose value is the clock value. |
| UploadRoutes.AcceptedTypesClassified | backend/controllers/message.controller.js:123-128 | Of the accepted MIME types the three images are reported as image, the two audio types as audio and the other three as document, so every reported type is one the message schema allows. |
| JsText.Trim | backend/models/message.model.js:9-12 | `trim()` returns the middle slice of the string left once whitespace (ECMAScript's WhiteSpace and LineTerminator code points) is dropped at both ends. |
| JsText.TrimEmptyIffBlank | frontend/src/pages/Chat.jsx:87 | A string trims to empty exactly when it is empty or whitespace only. |
| JsText.NatToStringRoundTrip | frontend/src/components/CallHistory.jsx:48 | The decimal text of a number reads back as that number. |
| Seqs.RemoveAll | frontend/src/context/SocketContext.jsx:100 | `filter(v => v !== x)` removes every occurrence of x and keeps every other value's count, in order. |
| Seqs.FilterKeepsCount | frontend/src/context/ChatContext.jsx:209 | `filter` keeps every occurrence of a value that passes the test and none of one that fails it. |

## Left out

- WebRTC, media capture, ringtones and the call timers are browser APIs with nothing here to prove. The client's call code is modelled only for its history and naming decisions.
- Socket.IO delivery is not modelled: emits are returned as (socket set, event) pairs, resolved at the moment of the emit. The transport removing a closed socket from its rooms is library behaviour. The model takes it as an explicit first step of `Signaling.Server.Disconnect`.
- Concurrency and asynchrony are not modelled. Each handler runs to completion in one step, and each React state updater is applied to the state it is given.
- MongoDB and Mongoose are an in-memory sequence of documents. Not modelled:
  - query semantics and `populate`;
  - `ObjectId` casting, so a malformed id is just an unknown id;
  - `save()` validation other than the file-type enum and the trimmed chat name.
- The database's `createdAt`, fresh ids and `Date.now()` are parameters, and so are the socket server being up (`accessChat`) and the regular-expression user search (`getUsers`).
- `JSON.parse` of a `users` string is a parameter: its result, or None when it throws.
- Authentication, tokens and password hashing are outside the model, as are the account service behind `register` and local storage as a browser API. Storage is a map from user id to history.
- `getChats`, `getMessages`, `getUserById`, `renameGroupChat`, `retryMessage`, `fetchChats`' request, and the client's `createGroupChat`, which prepends the new chat and does not sort, are request wiring with no logic of their own. They are not modelled.
- Ordering: the stable sort gives equal latest-message times in their earlier order. `Message.findOne(...).sort(...)` is taken to break ties towards the earlier document. MongoDB does not promise that order.
- Client message times: `new Date(undefined)` is NaN in JavaScript, so a missing `createdAt` makes JavaScript's sort comparison inconsistent. `ChatState.DeleteMessage` counts a missing time as 0.
- Upload progress percentages are floating point and are not modelled.
- The client sends `markMessageAsRead` to `/api/messages/read/<chatId>`, but the server route is `/read` and reads the chat id from the body. The two halves are modelled separately, each as written, and their mismatch is not.
- ChatMessage.users: the entries stand for the `toString()` values of the relayed chat's `users`, so a populated user object is the id string `[object Object]` (`SignalingScenarios.PopulatedUser`).
- FindRecipientName: the participant list is a parameter. The provider reads `currentChat` from the chat context (frontend/src/context/CallContext.jsx:24), whose value has no such field (frontend/src/context/ChatContext.jsx:494-522), and chats carry `users`, not `participants`. As wired, the list is always missing and the name is always `User` (`CallLog.RecipientNameAsWired`).
- JsText.Lower: JavaScript's `toLowerCase` maps every Unicode capital, but the model maps only ASCII and Latin-1 capitals (U+00C0 to U+00DE). So `ChatPage.Search` can differ from the browser for names written in other scripts or with other accented capitals.
- Insertion order of the online list: the server sends `Array.from(activeUsers.keys())`, in `Map` insertion order. `Signaling.Server.Identify` sends the key set, so the order of the `active_users` snapshot is not modelled. Likewise `ClientPresence`'s joined chats are a set, so the order in which the cleanup's `forEach` emits `leave_chat` is not fixed.
- `window.currentCall` is read by the `call_rejected` and `call_accepted` listeners but never assigned anywhere in the client. `CallLog.CallStore.OnCallRejected` takes the current call record as a parameter.
- `UserController.UpdateUserStatus`'s reply body (`_id`, status, last-seen) is not returned; the method returns the status code and the new document state.
- `updateUserProfile`'s partial update promises only what the handler assigns. Mongoose schema validation of the saved document (unique email, required fields) is not modelled.
- The user-interface components, and the rest of the repository outside these handlers and helpers, are not part of this model.

## Findings

| source | as written | input that shows it | evidently intended | confidence | as-written member | corrected member |
|---|---|---|---|---|---|---|
| backend/controllers/chat.controller.js:145 | `io.to(...)` is called on the exported `io`, which is the function `() => ioInstance` (backend/socket/index.js:220), not the server, so the call throws after `Chat.create` and the handler answers 500 | `users` = `["64b7f0c2a1e4d3b2c1a09f81", "64b7f0c2a1e4d3b2c1a09f82"]` (two stored users' ids), `name` = `"Team"`: the group is stored and the reply is 500 | answer 201 with the stored chat and emit `new chat` to every member, as `accessChat` does through `getIo()` | not executed | ChatController.CreateGroupChatAsWrittenFails | ChatController.CreateGroupChatCreated |
| frontend/src/context/SocketContext.jsx:76 | the connect effect lists `activeChats` among its dependencies, and `joinChatRoom` stores a new `Set` (:116), so each join reruns the effect: the cleanup leaves every room and closes the socket (:58-64), and the new socket announces the user (:83) but joins nothing | join chat `R` while connected: `join_chat` reaches the old socket, which is then closed; the new socket is in no chat room at the server, so messages and typing in `R` from others do not reach this client until it next types or sends in `R` (backend/socket/index.js:56, 81; frontend/src/context/ChatContext.jsx:480; frontend/src/components/MessageInput.jsx:69) | keep the socket across joins (the effect keyed on `user` alone), so the room joined is held at the server | not executed | ClientPresence.JoinIsLostAsWritten | ClientPresence.JoinReachesServer |
| frontend/src/context/CallContext.jsx:1339 | the rejection is addressed to `callState.caller.userId`, but the caller object is built as `{ _id: from, name }` (frontend/src/context/CallContext.jsx:319), so the target is undefined | any incoming call that is then rejected | address the rejection to `callState.caller._id` | not executed | CallLog.RejectTargetAsWrittenIsUndefined | CallLog.RejectTarget |
