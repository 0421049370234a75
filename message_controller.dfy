/** The message REST handlers over an in-memory store: the send guard and the
    stored record, the read-receipt update, the upload reply and the delete with its
    latest-message recomputation. The database is a sequence of message documents
    in insertion order and, for every stored chat, the id of its latest message. */
module MessageController {
  import opened Wrappers
  import opened Seqs
  import opened Sorting
  import opened JsText

  type UserId = string
  type ChatId = string
  type MessageId = string

  /** A message document. `createdAt` comes from the schema's timestamps option. */
  datatype StoredMessage = StoredMessage(
    id: MessageId, sender: UserId, content: string, chat: ChatId,
    fileUrl: Option<string>, fileType: Option<string>, fileName: Option<string>,
    readBy: seq<UserId>, createdAt: int)

  /** The messages and, for each chat document, its `latestMessage` reference. */
  datatype Store = Store(messages: seq<StoredMessage>, latest: map<ChatId, Option<MessageId>>)

  /** The JSON replies of these handlers. */
  datatype Reply =
    | Error(status: nat, message: string)
    | Created(created: StoredMessage)
    | Done(message: string)
    | Marked(message: string, count: nat)
    | Uploaded(fileUrl: string, fileType: string, fileName: string)

  function StatusOf(r: Reply): nat {
    match r
    case Error(status, _) => status
    case Created(_) => 201
    case _ => 200
  }

  // ---- sendMessage ----

  /** The request body; an empty string stands for a missing or falsy field. */
  datatype SendRequest = SendRequest(content: string, chatId: ChatId, fileUrl: string, fileType: string, fileName: string)

  const MissingFields := "Please provide message content and chat ID"

  predicate SendRejected(req: SendRequest) {
    (req.content == "" && req.fileUrl == "") || req.chatId == ""
  }

  /** `x || null` on a string field. */
  function OrNull(s: string): (r: Option<string>)
    ensures r.None? <==> s == ""
    ensures r.Some? ==> r.value == s
  {
    if s == "" then None else Some(s)
  }

  /** The values the schema's `fileType` enum allows besides null. */
  const FileTypes: set<string> := {"image", "document", "audio", "application"}

  /** Whether `Message.create` passes schema validation: a given file type must be
      one of the enum's values. */
  predicate SchemaAccepts(req: SendRequest) {
    req.fileType == "" || req.fileType in FileTypes
  }

  /** The document created for an accepted request; the schema trims `content`. */
  function NewMessage(req: SendRequest, sender: UserId, id: MessageId, now: int): StoredMessage {
    StoredMessage(id, sender, Trim(req.content), req.chatId,
                  OrNull(req.fileUrl), OrNull(req.fileType), OrNull(req.fileName), [sender], now)
  }

  /** `sendMessage`: 400 when there is neither content nor a file URL, or no chat id;
      500 when the schema refuses the file type; otherwise the message is stored and
      becomes its chat's latest message (a chat id with no chat document updates
      nothing). `newId` and `now` are the database's. */
  function SendMessage(db: Store, req: SendRequest, sender: UserId, newId: MessageId, now: int): (r: (Store, Reply))
    ensures SendRejected(req) ==> r == (db, Error(400, MissingFields))
    ensures !SendRejected(req) && !SchemaAccepts(req) ==> r == (db, Error(500, "Server error"))
    ensures !SendRejected(req) && SchemaAccepts(req) ==>
              && StatusOf(r.1) == 201
              && r.0.messages == db.messages + [NewMessage(req, sender, newId, now)]
              && r.1 == Created(NewMessage(req, sender, newId, now))
    ensures !SendRejected(req) && SchemaAccepts(req) && req.chatId in db.latest ==>
              r.0.latest == db.latest[req.chatId := Some(newId)]
    ensures !SendRejected(req) && SchemaAccepts(req) && req.chatId !in db.latest ==> r.0.latest == db.latest
  {
    if SendRejected(req) then (db, Error(400, MissingFields))
    else if !SchemaAccepts(req) then (db, Error(500, "Server error"))
    else
      var m := NewMessage(req, sender, newId, now);
      var latest := if req.chatId in db.latest then db.latest[req.chatId := Some(newId)] else db.latest;
      (Store(db.messages + [m], latest), Created(m))
  }

  /** What an accepted message looks like: read by exactly its sender, in the
      requested chat, content trimmed of surrounding whitespace, and a null file field
      exactly where the request had none. Content of only whitespace passes the guard
      and is stored empty. */
  lemma SentMessageShape(db: Store, req: SendRequest, sender: UserId, newId: MessageId, now: int)
    requires !SendRejected(req) && SchemaAccepts(req)
    ensures var (db', _) := SendMessage(db, req, sender, newId, now);
            var m := db'.messages[|db'.messages| - 1];
            && m.id == newId && m.sender == sender && m.chat == req.chatId
            && m.readBy == [sender]
            && (m.content == "" <==> IsBlank(req.content))
            && (m.fileUrl.None? <==> req.fileUrl == "")
            && (m.fileType.None? <==> req.fileType == "")
            && (m.fileName.None? <==> req.fileName == "")
            && (req.chatId in db.latest ==> db'.latest[req.chatId] == Some(newId))
  {
    TrimEmptyIffBlank(req.content);
  }

  // ---- markMessagesAsRead ----

  predicate UnreadBy(m: StoredMessage, chatId: ChatId, user: UserId) {
    m.chat == chatId && user !in m.readBy
  }

  /** The number of messages `Message.find` returns: those of the chat whose readers
      do not include the user. */
  function UnreadCount(msgs: seq<StoredMessage>, chatId: ChatId, user: UserId): nat {
    |Filter(msgs, (m: StoredMessage) => UnreadBy(m, chatId, user))|
  }

  /** `$addToSet`: append unless already present. */
  function AddToSet(s: seq<UserId>, x: UserId): (r: seq<UserId>)
    ensures x in r && forall y | y in s :: y in r
    ensures forall y | y in r :: y in s || y == x
    ensures NoDuplicates(s) ==> NoDuplicates(r)
  {
    if x in s then s else s + [x]
  }

  /** Every unread message of the chat gets the user added to its readers. */
  function MarkAll(msgs: seq<StoredMessage>, chatId: ChatId, user: UserId): (r: seq<StoredMessage>)
    ensures |r| == |msgs|
    ensures forall i | 0 <= i < |msgs| && UnreadBy(msgs[i], chatId, user) ::
              r[i] == msgs[i].(readBy := AddToSet(msgs[i].readBy, user))
    ensures forall i | 0 <= i < |msgs| && !UnreadBy(msgs[i], chatId, user) :: r[i] == msgs[i]
  {
    seq(|msgs|, i requires 0 <= i < |msgs| =>
      if UnreadBy(msgs[i], chatId, user) then msgs[i].(readBy := AddToSet(msgs[i].readBy, user)) else msgs[i])
  }

  /** `markMessagesAsRead`: 'No unread messages' and nothing written when the count of
      unread messages is 0; otherwise all of them are marked and the count reported. */
  function MarkMessagesAsRead(db: Store, chatId: ChatId, user: UserId): (r: (Store, Reply))
    ensures UnreadCount(db.messages, chatId, user) == 0 ==> r == (db, Done("No unread messages"))
    ensures UnreadCount(db.messages, chatId, user) > 0 ==>
              r.1 == Marked("Messages marked as read", UnreadCount(db.messages, chatId, user))
    ensures UnreadCount(db.messages, chatId, user) > 0 ==> r.0.messages == MarkAll(db.messages, chatId, user)
    ensures r.0.latest == db.latest
  {
    var n := UnreadCount(db.messages, chatId, user);
    if n == 0 then (db, Done("No unread messages"))
    else (Store(MarkAll(db.messages, chatId, user), db.latest), Marked("Messages marked as read", n))
  }

  /** A count of 0 means no message of the chat is unread by the user. */
  lemma UnreadCountZero(msgs: seq<StoredMessage>, chatId: ChatId, user: UserId)
    ensures UnreadCount(msgs, chatId, user) == 0 <==>
            forall i | 0 <= i < |msgs| :: !UnreadBy(msgs[i], chatId, user)
  {
    var f := Filter(msgs, (m: StoredMessage) => UnreadBy(m, chatId, user));
    if f != [] {
      assert f[0] in msgs;
      var i :| 0 <= i < |msgs| && msgs[i] == f[0];
      assert UnreadBy(msgs[i], chatId, user);
    }
  }

  /** After marking, nothing in the chat is unread by the user, every earlier reader is
      still a reader, reader lists stay free of duplicates, and only reader lists of
      that chat's messages change. */
  lemma MarkReadFacts(db: Store, chatId: ChatId, user: UserId)
    ensures var (db', _) := MarkMessagesAsRead(db, chatId, user);
            && UnreadCount(db'.messages, chatId, user) == 0
            && |db'.messages| == |db.messages|
            && (forall i | 0 <= i < |db.messages| ::
                  db'.messages[i].(readBy := db.messages[i].readBy) == db.messages[i])
            && (forall i | 0 <= i < |db.messages| && db.messages[i].chat != chatId ::
                  db'.messages[i] == db.messages[i])
            && (forall i | 0 <= i < |db.messages| && NoDuplicates(db.messages[i].readBy) ::
                  NoDuplicates(db'.messages[i].readBy))
            && (forall i, y | 0 <= i < |db.messages| && y in db.messages[i].readBy :: y in db'.messages[i].readBy)
  {
    var (db', _) := MarkMessagesAsRead(db, chatId, user);
    UnreadCountZero(db.messages, chatId, user);
    UnreadCountZero(db'.messages, chatId, user);
  }

  /** A second call finds nothing to mark and writes nothing. */
  lemma MarkReadTwice(db: Store, chatId: ChatId, user: UserId)
    ensures var (db', _) := MarkMessagesAsRead(db, chatId, user);
            MarkMessagesAsRead(db', chatId, user) == (db', Done("No unread messages"))
  {
    MarkReadFacts(db, chatId, user);
  }

  /** A sent message counts as unread for every other user of the chat and not for the
      sender. */
  lemma SendThenUnread(db: Store, req: SendRequest, sender: UserId, newId: MessageId, now: int, user: UserId)
    requires !SendRejected(req) && SchemaAccepts(req)
    ensures var (db', _) := SendMessage(db, req, sender, newId, now);
            UnreadCount(db'.messages, req.chatId, user)
              == UnreadCount(db.messages, req.chatId, user) + (if user == sender then 0 else 1)
  {
    var m := NewMessage(req, sender, newId, now);
    var p := (x: StoredMessage) => UnreadBy(x, req.chatId, user);
    FilterAppend(db.messages, [m], p);
    assert Filter([m], p) == (if p(m) then [m] else []) + Filter([m][1..], p);
  }

  // ---- uploadFile ----

  /** What multer hands the handler. */
  datatype UploadedFile = UploadedFile(mimetype: string, originalname: string, filename: string)

  predicate StartsWith(s: string, prefix: string) {
    |prefix| <= |s| && s[..|prefix|] == prefix
  }

  /** The `fileType` if-chain: image before audio, everything else a document. */
  function FileTypeOf(mimetype: string): (t: string)
    ensures t == "image" <==> StartsWith(mimetype, "image")
    ensures t == "audio" <==> !StartsWith(mimetype, "image") && StartsWith(mimetype, "audio")
    ensures t == "document" <==> !StartsWith(mimetype, "image") && !StartsWith(mimetype, "audio")
  {
    if StartsWith(mimetype, "image") then "image"
    else if StartsWith(mimetype, "audio") then "audio"
    else "document"
  }

  /** `uploadFile`: 400 without a file; otherwise the public URL under `/uploads/`, the
      classified type and the original name. */
  function UploadFile(file: Option<UploadedFile>, protocol: string, host: string): (r: Reply)
    ensures file.None? <==> r == Error(400, "No file uploaded")
    ensures file.Some? ==> r.Uploaded? && r.fileName == file.value.originalname
                           && r.fileType == FileTypeOf(file.value.mimetype)
                           && r.fileUrl == protocol + "://" + host + "/uploads/" + file.value.filename
  {
    match file
    case None => Error(400, "No file uploaded")
    case Some(f) => Uploaded(protocol + "://" + host + "/uploads/" + f.filename, FileTypeOf(f.mimetype), f.originalname)
  }

  // ---- deleteMessage ----

  /** The ids of the documents, in store order. */
  function MessageIds(msgs: seq<StoredMessage>): (r: seq<MessageId>)
    ensures |r| == |msgs| && forall k | 0 <= k < |msgs| :: r[k] == msgs[k].id
  {
    seq(|msgs|, k requires 0 <= k < |msgs| => msgs[k].id)
  }

  /** `Message.findById`: the first message with that id. */
  function FindMessage(msgs: seq<StoredMessage>, id: MessageId): (r: Option<nat>)
    ensures r.Some? ==> r.value < |msgs| && msgs[r.value].id == id
                        && forall k | 0 <= k < r.value :: msgs[k].id != id
    ensures r.None? ==> forall k | 0 <= k < |msgs| :: msgs[k].id != id
  {
    var i := FirstIndex(MessageIds(msgs), id);
    if i < |msgs| then Some(i) else None
  }

  function CreatedAt(m: StoredMessage): int {
    m.createdAt
  }

  /** `Message.findOne({ chat }).sort({ createdAt: -1 })`, ties going to the earlier
      document. */
  function NewestOfChat(msgs: seq<StoredMessage>, chat: ChatId): Option<StoredMessage> {
    NewestBy(Filter(msgs, (m: StoredMessage) => m.chat == chat), CreatedAt)
  }

  /** `deleteMessage`: 404 for an unknown id. Otherwise the document is deleted first;
      then a missing chat document makes `chat.latestMessage` throw, so the reply is
      500 with the message already gone; and when the chat's latest message was the
      deleted one it becomes the newest remaining message of the chat, or null. */
  function DeleteMessage(db: Store, messageId: MessageId): (r: (Store, Reply))
    ensures r.0.latest.Keys == db.latest.Keys
    ensures |r.0.messages| == |db.messages| - (if FindMessage(db.messages, messageId).Some? then 1 else 0)
    ensures StatusOf(r.1) in {200, 404, 500}
  {
    match FindMessage(db.messages, messageId)
    case None => (db, Error(404, "Message not found"))
    case Some(k) =>
      var m := db.messages[k];
      var rest := db.messages[..k] + db.messages[k + 1..];
      if m.chat !in db.latest then (Store(rest, db.latest), Error(500, "Server error"))
      else if db.latest[m.chat] == Some(messageId) then
        var newest := NewestOfChat(rest, m.chat);
        var ref := if newest.Some? then Some(newest.value.id) else None;
        (Store(rest, db.latest[m.chat := ref]), Done("Message deleted successfully"))
      else (Store(rest, db.latest), Done("Message deleted successfully"))
  }

  ghost predicate UniqueIds(msgs: seq<StoredMessage>) {
    forall i, j | 0 <= i < j < |msgs| :: msgs[i].id != msgs[j].id
  }

  /** An unknown id is exactly the 404 case, and it changes nothing. */
  lemma DeleteUnknown(db: Store, messageId: MessageId)
    ensures var (db', reply) := DeleteMessage(db, messageId);
            && (StatusOf(reply) == 404 <==> forall k | 0 <= k < |db.messages| :: db.messages[k].id != messageId)
            && (StatusOf(reply) == 404 ==> db' == db)
  {
  }

  /** A known id loses exactly its first document, whatever follows; the reply is 500
      exactly when the message's chat has no document, else 200; no chat but the
      message's own changes its reference, and that one only if it named the deleted id. */
  lemma DeleteKnown(db: Store, messageId: MessageId)
    requires FindMessage(db.messages, messageId).Some?
    ensures var (db', reply) := DeleteMessage(db, messageId);
            var k := FindMessage(db.messages, messageId).value;
            && db'.messages == db.messages[..k] + db.messages[k + 1..]
            && (StatusOf(reply) == 500 <==> db.messages[k].chat !in db.latest)
            && (StatusOf(reply) != 500 ==> StatusOf(reply) == 200)
            && db'.latest.Keys == db.latest.Keys
            && (forall c | c in db.latest && c != db.messages[k].chat :: db'.latest[c] == db.latest[c])
            && (db.messages[k].chat in db.latest && db.latest[db.messages[k].chat] != Some(messageId) ==>
                  db'.latest == db.latest)
  {
  }

  /** With unique ids, no document with the deleted id remains. */
  lemma DeleteRemovesId(db: Store, messageId: MessageId)
    requires UniqueIds(db.messages)
    ensures forall k | 0 <= k < |DeleteMessage(db, messageId).0.messages| ::
              DeleteMessage(db, messageId).0.messages[k].id != messageId
  {
    match FindMessage(db.messages, messageId)
    case None =>
    case Some(k) =>
      var rest := db.messages[..k] + db.messages[k + 1..];
      assert DeleteMessage(db, messageId).0.messages == rest;
      forall j | 0 <= j < |rest| ensures rest[j].id != messageId {
        if j < k {
          assert rest[j] == db.messages[j];
        } else {
          assert rest[j] == db.messages[j + 1];
        }
      }
  }

  /** The newest message of a chat, if any, is one of its messages with the greatest
      creation time; there is none exactly when the chat has no messages. */
  lemma NewestOfChatFacts(msgs: seq<StoredMessage>, c: ChatId)
    ensures NewestOfChat(msgs, c).None? <==> forall k | 0 <= k < |msgs| :: msgs[k].chat != c
    ensures NewestOfChat(msgs, c).Some? ==>
              exists k | 0 <= k < |msgs| ::
                && msgs[k] == NewestOfChat(msgs, c).value && msgs[k].chat == c
                && forall j | 0 <= j < |msgs| && msgs[j].chat == c :: msgs[j].createdAt <= msgs[k].createdAt
  {
    var f := Filter(msgs, (m: StoredMessage) => m.chat == c);
    var newest := NewestBy(f, CreatedAt);
    if newest.Some? {
      var n := newest.value;
      assert n in f;
      var i :| 0 <= i < |msgs| && msgs[i] == n;
      forall j | 0 <= j < |msgs| && msgs[j].chat == c ensures msgs[j].createdAt <= msgs[i].createdAt {
        assert msgs[j] in f;
        var t :| 0 <= t < |f| && f[t] == msgs[j];
        assert CreatedAt(f[t]) <= CreatedAt(n);
      }
    }
  }

  /** When the deleted message was its chat's latest, the chat now points at a remaining
      message of that chat with the greatest creation time, or at nothing exactly when
      none remains. */
  lemma DeleteRecomputesLatest(db: Store, messageId: MessageId)
    requires FindMessage(db.messages, messageId).Some?
    requires var m := db.messages[FindMessage(db.messages, messageId).value];
             m.chat in db.latest && db.latest[m.chat] == Some(messageId)
    ensures var db' := DeleteMessage(db, messageId).0;
            var c := db.messages[FindMessage(db.messages, messageId).value].chat;
            && (db'.latest[c].None? <==> forall k | 0 <= k < |db'.messages| :: db'.messages[k].chat != c)
            && (db'.latest[c].Some? ==>
                  exists k | 0 <= k < |db'.messages| ::
                    && db'.messages[k].id == db'.latest[c].value && db'.messages[k].chat == c
                    && forall j | 0 <= j < |db'.messages| && db'.messages[j].chat == c ::
                         db'.messages[j].createdAt <= db'.messages[k].createdAt)
  {
    var k := FindMessage(db.messages, messageId).value;
    var c := db.messages[k].chat;
    var rest := db.messages[..k] + db.messages[k + 1..];
    var newest := NewestOfChat(rest, c);
    var db' := DeleteMessage(db, messageId).0;
    assert db'.messages == rest;
    assert db'.latest[c] == if newest.Some? then Some(newest.value.id) else None;
    NewestOfChatFacts(rest, c);
  }
}
