/** The browser's call log: a per-user history list in local storage, newest first
    and capped at 50 entries, the start time of the running call, and the small
    decisions made when a call ends or is rejected. */
module CallLog {
  import opened Wrappers

  type UserId = string

  /** One history entry. `duration` is in seconds, None when not yet known;
      `startTime` and `endTime` are in milliseconds. `direction` and `status` keep the strings the
      client writes ('incoming'/'outgoing'; 'dialing', 'completed', 'rejected', ...). */
  datatype CallRecord = CallRecord(
    id: string, userId: UserId, userName: string, callType: string,
    direction: string, status: string, timestamp: int,
    startTime: Option<int>, endTime: Option<int>, duration: Option<int>)

  const HistoryCap: nat := 50

  /** A JavaScript truthiness test on an optional number: missing and 0 are falsy. */
  predicate Truthy(x: Option<int>) {
    x.Some? && x.value != 0
  }

  /** `[record, ...history].slice(0, 50)`. */
  function PrependCapped(rec: CallRecord, history: seq<CallRecord>): (r: seq<CallRecord>)
    ensures |r| == if |history| + 1 < HistoryCap then |history| + 1 else HistoryCap
    ensures r[0] == rec
    ensures r[1..] == history[..|r| - 1]
  {
    var all := [rec] + history;
    assert all[1..] == history;
    if |all| <= HistoryCap then all else all[..HistoryCap]
  }

  /** A history list of at most 50 entries stays so, and the previous newest record
      is now second unless the list was empty. */
  lemma PrependCappedKeepsCap(rec: CallRecord, history: seq<CallRecord>)
    requires |history| <= HistoryCap
    ensures |PrependCapped(rec, history)| <= HistoryCap
    ensures history != [] ==> PrependCapped(rec, history)[1] == history[0]
    ensures |history| < HistoryCap ==> PrependCapped(rec, history) == [rec] + history
  {
    var r := PrependCapped(rec, history);
    if history != [] {
      assert r[1..][0] == history[0];
    }
    if |history| < HistoryCap {
      assert r == [r[0]] + r[1..];
    }
  }

  /** `Math.round((now - start) / 1000)`: halves round up. */
  function RoundedSeconds(now: int, start: int): int {
    (now - start + 500) / 1000
  }

  lemma RoundedSecondsNearest(now: int, start: int)
    ensures var d := RoundedSeconds(now, start);
            1000 * d - 500 <= now - start < 1000 * d + 500
  {
  }

  /** `Math.floor((now - start) / 1000)` or 0 without a truthy start: the duration
      written for a rejected call. */
  function RejectedDuration(now: int, startTime: Option<int>): (d: int)
    ensures !Truthy(startTime) ==> d == 0
    ensures Truthy(startTime) ==> 1000 * d <= now - startTime.value < 1000 * d + 1000
  {
    if Truthy(startTime) then (now - startTime.value) / 1000 else 0
  }

  /** The history map applied to a finished call: only the newest entry, and only when
      it is with that participant and has no (truthy) duration yet, becomes completed
      with the duration. */
  function CompleteNewest(history: seq<CallRecord>, participant: UserId, duration: int): (r: seq<CallRecord>)
    ensures |r| == |history|
    ensures history != [] ==> r[1..] == history[1..]
    ensures history != [] && history[0].userId == participant && !Truthy(history[0].duration) ==>
              r[0] == history[0].(duration := Some(duration), status := "completed")
    ensures history != [] && (history[0].userId != participant || Truthy(history[0].duration)) ==> r == history
  {
    if history != [] && history[0].userId == participant && !Truthy(history[0].duration)
    then [history[0].(duration := Some(duration), status := "completed")] + history[1..]
    else history
  }

  /** Completing twice is completing once, provided the duration written is truthy. */
  lemma CompleteNewestIdempotent(history: seq<CallRecord>, participant: UserId, duration: int)
    requires duration != 0
    ensures CompleteNewest(CompleteNewest(history, participant, duration), participant, duration)
         == CompleteNewest(history, participant, duration)
  {
  }

  /** `callerId || recipientId`: the participant an ended call is filed under. */
  function Participant(callerId: UserId, recipientId: UserId): (p: UserId)
    ensures callerId != "" ==> p == callerId
    ensures callerId == "" ==> p == recipientId
  {
    if callerId != "" then callerId else recipientId
  }

  /** What `notifyCallEnded` emits: `callEnded` (a name the server does not listen
      for) to the recipient when known, else to the caller. */
  datatype CallEndedEmit = CallEndedEmit(to: UserId)

  function NotifyCallEnded(hasSocket: bool, recipientId: UserId, callerId: UserId): (r: Option<CallEndedEmit>)
    ensures r.None? <==> !hasSocket || (recipientId == "" && callerId == "")
    ensures r.Some? && recipientId != "" ==> r.value.to == recipientId
    ensures r.Some? && recipientId == "" ==> r.value.to == callerId
  {
    if !hasSocket then None
    else
      var target := if recipientId != "" then recipientId else callerId;
      if target != "" then Some(CallEndedEmit(target)) else None
  }

  /** A chat participant as the call code sees it. */
  datatype ChatParticipant = ChatParticipant(id: UserId, username: string, name: string)

  /** The first participant with that id, if any. */
  function FindParticipant(ps: seq<ChatParticipant>, targetId: UserId): (r: Option<nat>)
    ensures r.Some? ==> r.value < |ps| && ps[r.value].id == targetId
                        && forall k | 0 <= k < r.value :: ps[k].id != targetId
    ensures r.None? ==> forall k | 0 <= k < |ps| :: ps[k].id != targetId
    decreases |ps|
  {
    if ps == [] then None
    else if ps[0].id == targetId then Some(0)
    else
      match FindParticipant(ps[1..], targetId)
      case None => None
      case Some(k) => Some(k + 1)
  }

  /** `findRecipientName`: the first matching participant's username, else its name,
      else 'User'; 'User' as well without a participant list or a match. */
  function FindRecipientName(participants: Option<seq<ChatParticipant>>, targetId: UserId): (r: string)
    ensures r != ""
    ensures participants.None? ==> r == "User"
    ensures participants.Some? ==>
              match FindParticipant(participants.value, targetId)
              case None => r == "User"
              case Some(k) =>
                var p := participants.value[k];
                r == if p.username != "" then p.username else if p.name != "" then p.name else "User"
  {
    if participants.None? then "User"
    else
      match FindParticipant(participants.value, targetId)
      case None => "User"
      case Some(k) =>
        var p := participants.value[k];
        if p.username != "" then p.username else if p.name != "" then p.name else "User"
  }

  /** As the provider is wired, `currentChat` is read from the chat context, which
      offers no such value (its chats carry `users`, not `participants`); the list is
      therefore always missing and every outgoing call is recorded under 'User'. */
  lemma RecipientNameAsWired(targetId: UserId)
    ensures FindRecipientName(None, targetId) == "User"
  {
  }

  /** The incoming-call display name. */
  function DisplayName(callerName: string): (r: string)
    ensures r != ""
    ensures callerName != "" ==> r == callerName
    ensures callerName == "" ==> r == "Unknown Caller"
  {
    if callerName != "" then callerName else "Unknown Caller"
  }

  /** What `rejectCall` sends: `callRejected` addressed to the caller's `userId`
      field. The caller object is built as `{_id, name}`, so the field is absent. */
  datatype RejectEmit = RejectEmit(to: Option<UserId>)

  /** The caller object stored when a call arrives. */
  datatype CallerInfo = CallerInfo(id: UserId, name: string)

  /** As written: the target read from the caller object has no `userId` field. */
  function RejectTargetAsWritten(caller: CallerInfo): RejectEmit {
    RejectEmit(None)
  }

  /** Whatever the caller, the as-written emit is addressed to nobody. */
  lemma RejectTargetAsWrittenIsUndefined(caller: CallerInfo)
    ensures RejectTargetAsWritten(caller).to != Some(caller.id)
  {
  }

  /** Corrected: address the rejection to the caller's id. */
  function RejectTarget(caller: CallerInfo): (r: RejectEmit)
    ensures r.to == Some(caller.id)
  {
    RejectEmit(Some(caller.id))
  }

  /** The local-storage history and `window.callStartTime`. */
  class CallStore {
    /** `callHistory_<userId>` for each user id that has one. */
    var storage: map<UserId, seq<CallRecord>>
    var callStartTime: Option<int>

    constructor ()
      ensures storage == map[] && callStartTime == None
    {
      storage, callStartTime := map[], None;
    }

    /** The stored history of u, `[]` when nothing is stored. */
    function HistoryOf(u: UserId): seq<CallRecord>
      reads this
    {
      if u in storage then storage[u] else []
    }

    /** `saveCallToHistory`: nothing without a user id; otherwise the record goes in
        front of the stored history, of which at most 49 entries are kept. */
    method SaveCallToHistory(userId: UserId, rec: CallRecord)
      modifies this
      ensures userId == "" ==> storage == old(storage)
      ensures userId != "" ==> storage == old(storage)[userId := PrependCapped(rec, old(HistoryOf(userId)))]
      ensures callStartTime == old(callStartTime)
    {
      if userId == "" {
        return;
      }
      var existing := HistoryOf(userId);
      storage := storage[userId := PrependCapped(rec, existing)];
    }

    /** `updateCallHistory`: nothing at all without a truthy start time. Otherwise,
        with a participant and a user id, the user's stored history (written back even
        when it was empty) gets its newest entry completed with the rounded duration;
        the start time is cleared in every case that got past the first check. */
    method UpdateCallHistory(now: int, userId: UserId, callerId: UserId, recipientId: UserId)
      modifies this
      ensures !Truthy(old(callStartTime)) ==> storage == old(storage) && callStartTime == old(callStartTime)
      ensures Truthy(old(callStartTime)) ==> callStartTime == None
      ensures Truthy(old(callStartTime)) && Participant(callerId, recipientId) != "" && userId != "" ==>
                storage == old(storage)[userId := CompleteNewest(old(HistoryOf(userId)),
                                                                  Participant(callerId, recipientId),
                                                                  RoundedSeconds(now, old(callStartTime).value))]
      ensures Truthy(old(callStartTime)) && (Participant(callerId, recipientId) == "" || userId == "") ==>
                storage == old(storage)
    {
      if !Truthy(callStartTime) {
        return;
      }
      var duration := RoundedSeconds(now, callStartTime.value);
      var participantId := Participant(callerId, recipientId);
      if participantId != "" && userId != "" {
        var existing := HistoryOf(userId);
        storage := storage[userId := CompleteNewest(existing, participantId, duration)];
      }
      callStartTime := None;
    }

    /** The `call_rejected` listener's bookkeeping: with a current call record, save a
        copy marked rejected with its end time and floor-second duration. */
    method OnCallRejected(userId: UserId, currentCall: Option<CallRecord>, now: int)
      modifies this
      ensures currentCall.None? || userId == "" ==> storage == old(storage)
      ensures currentCall.Some? && userId != "" ==>
                storage == old(storage)[userId := PrependCapped(
                  currentCall.value.(status := "rejected", endTime := Some(now),
                                     duration := Some(RejectedDuration(now, currentCall.value.startTime))),
                  old(HistoryOf(userId)))]
      ensures callStartTime == old(callStartTime)
    {
      if currentCall.Some? {
        var rec := currentCall.value.(status := "rejected", endTime := Some(now),
                                      duration := Some(RejectedDuration(now, currentCall.value.startTime)));
        SaveCallToHistory(userId, rec);
      }
    }
  }
}
