/** Runs of the signaling server on small concrete inputs, stating what each
    connection receives. They pin down the code's behaviour at its less obvious
    points: the sender's other devices get nothing, the per-user fan-out of a message
    as the client sends it reaches no socket, an online broadcast goes out on every
    identify, an unreachable callee still gets a pending call entry, and `end_call`
    leaves the entry behind. */
module SignalingScenarios {
  import opened Wrappers
  import opened Signaling

  /** What one delivery hands to socket s. */
  function Slot(d: Delivery, s: SocketId): (r: seq<OutEvent>)
    ensures r == Received([d], s)
  {
    assert [d][..0] == [];
    if s in d.to then [d.event] else []
  }

  lemma ReceivedTwo(d1: Delivery, d2: Delivery, s: SocketId)
    ensures Received([d1, d2], s) == Slot(d1, s) + Slot(d2, s)
  {
    assert [d1, d2][..1] == [d1];
  }

  lemma ReceivedThree(d1: Delivery, d2: Delivery, d3: Delivery, s: SocketId)
    ensures Received([d1, d2, d3], s) == Slot(d1, s) + Slot(d2, s) + Slot(d3, s)
  {
    assert [d1, d2, d3][..2] == [d1, d2];
    ReceivedTwo(d1, d2, s);
  }

  /** Sockets a1, a2 and b1 are open; a1 and a2 are identified as A. */
  method DevicesOfA() returns (srv: Server)
    ensures fresh(srv) && srv.Valid()
    ensures srv.connected == {"a1", "a2", "b1"}
    ensures srv.userSockets == map["a1" := "A", "a2" := "A"]
    ensures srv.activeUsers == map["A" := {"a1", "a2"}]
    ensures srv.userRooms == map["A" := {"a1", "a2"}]
    ensures srv.activeCalls == map[] && srv.chatRooms == map[]
  {
    srv := new Server();
    srv.Connect("a1");
    srv.Connect("a2");
    srv.Connect("b1");
    var t0: map<UserId, set<SocketId>> := map[];
    assert Members(t0, "A") + {"a1"} == {"a1"};
    var t1 := Join(t0, "A", "a1");
    assert t1 == map["A" := {"a1"}];
    var i1 := srv.Identify("a1", "A");
    assert srv.activeUsers == t1 && srv.userRooms == t1;
    assert Members(t1, "A") + {"a2"} == {"a1", "a2"};
    var t2 := Join(t1, "A", "a2");
    assert t2 == map["A" := {"a1", "a2"}];
    var i2 := srv.Identify("a2", "A");
  }

  /** User A on sockets a1 and a2, user B on b1, no chat rooms, no calls. */
  method TwoDevicesAndOne() returns (srv: Server)
    ensures fresh(srv) && srv.Valid()
    ensures srv.connected == {"a1", "a2", "b1"}
    ensures srv.userSockets == map["a1" := "A", "a2" := "A", "b1" := "B"]
    ensures srv.activeUsers == map["A" := {"a1", "a2"}, "B" := {"b1"}]
    ensures srv.userRooms == map["A" := {"a1", "a2"}, "B" := {"b1"}]
    ensures srv.activeCalls == map[] && srv.chatRooms == map[]
  {
    srv := DevicesOfA();
    var t2: map<UserId, set<SocketId>> := map["A" := {"a1", "a2"}];
    assert Members(t2, "B") + {"b1"} == {"b1"};
    var t3 := Join(t2, "B", "b1");
    assert t3 == map["A" := {"a1", "a2"}, "B" := {"b1"}];
    var i3 := srv.Identify("b1", "B");
  }

  /** B's b1 joins chat R and A sends a message there from a1. */
  method FanOutDeliveries(m: ChatMessage) returns (out: seq<Delivery>)
    requires m == ChatMessage("R", Some(["A", "B"]), "A", "hi")
    ensures out == [Delivery({"b1"}, MessageReceived(m)), Delivery({"b1"}, MessageReceived(m)),
                    Delivery({"b1", "a1"}, StopTyping("R", "A"))]
  {
    var srv := TwoDevicesAndOne();
    srv.JoinChat("b1", "R");
    var c0: map<ChatId, set<SocketId>> := map[];
    assert Members(c0, "R") + {"b1"} == {"b1"};
    assert srv.chatRooms == map["R" := {"b1"}];
    out := srv.NewMessage("a1", m);
    assert Members(srv.chatRooms, "R") == {"b1", "a1"};
    assert Members(srv.userRooms, "B") == {"b1"};
    assert ["A", "B"][..1] == ["A"] && ["A"][..0] == [];
    assert PersonalFanout(["A", "B"], m, srv.userRooms) == [Delivery({"b1"}, MessageReceived(m))];
  }

  /** With id strings in `users`, B (on b1, in chat R) and A's device a1 receive A's
      message: b1 receives it twice (room and personal room), A's other device a2
      receives nothing, and a1 receives only the `stop typing` sent to the whole room. */
  method MessageFanOut() returns (a1: seq<OutEvent>, a2: seq<OutEvent>, b1: seq<OutEvent>)
    ensures var m := ChatMessage("R", Some(["A", "B"]), "A", "hi");
            && b1 == [MessageReceived(m), MessageReceived(m), StopTyping("R", "A")]
            && a2 == []
            && a1 == [StopTyping("R", "A")]
  {
    var m := ChatMessage("R", Some(["A", "B"]), "A", "hi");
    var out := FanOutDeliveries(m);
    ReceivedThree(out[0], out[1], out[2], "a1");
    ReceivedThree(out[0], out[1], out[2], "a2");
    ReceivedThree(out[0], out[1], out[2], "b1");
    a1, a2, b1 := Received(out, "a1"), Received(out, "a2"), Received(out, "b1");
  }

  /** What the room name `user:${userId}` and `userId.toString()` make of a populated
      user object: the client relays the selected chat, whose `users` are user objects
      rather than id strings. */
  const PopulatedUser: UserId := "[object Object]"

  lemma ReceivedFour(d1: Delivery, d2: Delivery, d3: Delivery, d4: Delivery, s: SocketId)
    ensures Received([d1, d2, d3, d4], s) == Slot(d1, s) + Slot(d2, s) + Slot(d3, s) + Slot(d4, s)
  {
    assert [d1, d2, d3, d4][..3] == [d1, d2, d3];
    ReceivedThree(d1, d2, d3, s);
  }

  /** The same message as the client sends it, with two user objects in `users`. */
  method FanOutDeliveriesAsSent(m: ChatMessage) returns (out: seq<Delivery>)
    requires m == ChatMessage("R", Some([PopulatedUser, PopulatedUser]), "A", "hi")
    ensures out == [Delivery({"b1"}, MessageReceived(m)), Delivery({}, MessageReceived(m)),
                    Delivery({}, MessageReceived(m)), Delivery({"b1", "a1"}, StopTyping("R", "A"))]
  {
    var srv := TwoDevicesAndOne();
    srv.JoinChat("b1", "R");
    var c0: map<ChatId, set<SocketId>> := map[];
    assert Members(c0, "R") + {"b1"} == {"b1"};
    assert srv.chatRooms == map["R" := {"b1"}];
    out := srv.NewMessage("a1", m);
    assert Members(srv.chatRooms, "R") == {"b1", "a1"};
    assert Members(srv.userRooms, PopulatedUser) == {};
    var us := [PopulatedUser, PopulatedUser];
    assert us[..1] == [PopulatedUser] && [PopulatedUser][..0] == [];
    var d := Delivery({}, MessageReceived(m));
    assert PersonalFanout([PopulatedUser], m, srv.userRooms) == PersonalFanout([], m, srv.userRooms) + [d];
    assert PersonalFanout(us, m, srv.userRooms) == PersonalFanout([PopulatedUser], m, srv.userRooms) + [d];
  }

  /** As the client sends it, the per-user fan-out reaches no socket: B on b1 gets the
      message once, through the chat room, and neither of A's devices gets it. */
  method MessageFanOutAsSent() returns (a1: seq<OutEvent>, a2: seq<OutEvent>, b1: seq<OutEvent>)
    ensures var m := ChatMessage("R", Some([PopulatedUser, PopulatedUser]), "A", "hi");
            && b1 == [MessageReceived(m), StopTyping("R", "A")]
            && a2 == []
            && a1 == [StopTyping("R", "A")]
  {
    var m := ChatMessage("R", Some([PopulatedUser, PopulatedUser]), "A", "hi");
    var out := FanOutDeliveriesAsSent(m);
    ReceivedFour(out[0], out[1], out[2], out[3], "a1");
    ReceivedFour(out[0], out[1], out[2], out[3], "a2");
    ReceivedFour(out[0], out[1], out[2], out[3], "b1");
    a1, a2, b1 := Received(out, "a1"), Received(out, "a2"), Received(out, "b1");
  }

  /** Identifying an already identified socket again changes no table and still
      broadcasts `online` to every open socket. */
  method ReidentifyBroadcastsAgain() returns (out: seq<Delivery>, same: bool)
    ensures |out| == 2 && out[0] == Delivery({"a1", "a2", "b1"}, UserStatus("A", Online))
    ensures same
  {
    var srv := TwoDevicesAndOne();
    var au, us := srv.activeUsers, srv.userSockets;
    out := srv.Identify("a1", "A");
    same := srv.activeUsers == au && srv.userSockets == us;
  }

  /** The first of A's devices closes: nothing is emitted, and A keeps a2. */
  method CloseFirstDevice(srv: Server) returns (out: seq<Delivery>)
    requires srv.Valid()
    requires srv.connected == {"a1", "a2", "b1"}
    requires "a1" in srv.userSockets && srv.userSockets["a1"] == "A"
    requires "a2" in srv.userSockets && srv.userSockets["a2"] == "A"
    requires "A" in srv.activeUsers && srv.activeUsers["A"] == {"a1", "a2"}
    requires "B" in srv.userRooms && srv.userRooms["B"] == {"b1"}
    modifies srv
    ensures srv.Valid() && out == []
    ensures srv.connected == {"a2", "b1"}
    ensures "a2" in srv.userSockets && srv.userSockets["a2"] == "A"
    ensures "A" in srv.activeUsers && srv.activeUsers["A"] == {"a2"}
    ensures "B" in srv.userRooms && srv.userRooms["B"] == {"b1"}
    ensures srv.activeCalls == old(srv.activeCalls)
  {
    assert srv.activeUsers["A"] - {"a1"} == {"a2"};
    assert !WentOffline(srv.activeUsers, srv.userSockets, "a1");
    out := srv.Disconnect("a1");
  }

  /** The last of A's devices closes: `offline` goes to the sockets still open and,
      when A has a pending call, `call_ended` to its caller's devices. */
  method CloseSecondDevice(srv: Server) returns (out: seq<Delivery>)
    requires srv.Valid()
    requires srv.connected == {"a2", "b1"}
    requires "a2" in srv.userSockets && srv.userSockets["a2"] == "A"
    requires "A" in srv.activeUsers && srv.activeUsers["A"] == {"a2"}
    requires "B" in srv.userRooms && srv.userRooms["B"] == {"b1"}
    modifies srv
    ensures srv.Valid()
    ensures out == [Delivery({"b1"}, UserStatus("A", Offline))]
                   + (if "A" in old(srv.activeCalls)
                      then [Delivery(Members(srv.userRooms, old(srv.activeCalls)["A"].callerId), CallEnded)]
                      else [])
    ensures "A" !in srv.activeCalls
    ensures "B" in srv.userRooms && srv.userRooms["B"] == {"b1"}
  {
    assert WentOffline(srv.activeUsers, srv.userSockets, "a2");
    out := srv.Disconnect("a2");
    assert srv.connected == {"b1"};
  }

  /** Closing A's first device is silent; closing the second broadcasts `offline`
      once, to the sockets still open. */
  method PresenceEdges() returns (firstClose: seq<Delivery>, secondClose: seq<Delivery>)
    ensures firstClose == []
    ensures secondClose == [Delivery({"b1"}, UserStatus("A", Offline))]
  {
    var srv := TwoDevicesAndOne();
    firstClose := CloseFirstDevice(srv);
    secondClose := CloseSecondDevice(srv);
  }

  /** B calls A from b1: both of A's devices ring and a pending call is filed. */
  method RingA(srv: Server, callType: string) returns (out: seq<Delivery>)
    requires srv.Valid() && srv.connected == {"a1", "a2", "b1"}
    requires srv.userSockets == map["a1" := "A", "a2" := "A", "b1" := "B"]
    requires srv.activeUsers == map["A" := {"a1", "a2"}, "B" := {"b1"}]
    requires srv.userRooms == map["A" := {"a1", "a2"}, "B" := {"b1"}]
    requires srv.activeCalls == map[]
    modifies srv
    ensures srv.Valid() && srv.connected == {"a1", "a2", "b1"}
    ensures srv.userSockets == map["a1" := "A", "a2" := "A", "b1" := "B"]
    ensures srv.activeUsers == map["A" := {"a1", "a2"}, "B" := {"b1"}]
    ensures srv.userRooms == map["A" := {"a1", "a2"}, "B" := {"b1"}]
    ensures srv.activeCalls == map["A" := CallInfo("B", callType)]
    ensures out == [Delivery({"a1", "a2"}, IncomingCall("B", "Bea", "offer", callType))]
  {
    assert Members(srv.activeUsers, "A") == {"a1", "a2"};
    out := srv.CallUser("b1", "A", "offer", "B", "Bea", callType);
  }

  /** With B's call to A pending, A closes both devices: b1 receives `offline` and
      then `call_ended`, and the pending entry is gone. */
  method AGoesOffline(srv: Server, callType: string) returns (b1: seq<OutEvent>)
    requires srv.Valid() && srv.connected == {"a1", "a2", "b1"}
    requires srv.userSockets == map["a1" := "A", "a2" := "A", "b1" := "B"]
    requires srv.activeUsers == map["A" := {"a1", "a2"}, "B" := {"b1"}]
    requires srv.userRooms == map["A" := {"a1", "a2"}, "B" := {"b1"}]
    requires srv.activeCalls == map["A" := CallInfo("B", callType)]
    modifies srv
    ensures b1 == [UserStatus("A", Offline), CallEnded]
    ensures "A" !in srv.activeCalls
  {
    var first := CloseFirstDevice(srv);
    var second := CloseSecondDevice(srv);
    assert second == [Delivery({"b1"}, UserStatus("A", Offline)), Delivery({"b1"}, CallEnded)];
    ReceivedTwo(second[0], second[1], "b1");
    b1 := Received(second, "b1");
  }

  /** Calling a user with no socket answers the calling socket alone, and still
      files a pending call for the callee. */
  method CallUnreachable() returns (out: seq<Delivery>, pending: Option<CallInfo>)
    ensures out == [Delivery({"b1"}, CallError("User is offline"))]
    ensures pending == Some(CallInfo("B", "video"))
  {
    var srv := TwoDevicesAndOne();
    assert Members(srv.activeUsers, "C") == {};
    out := srv.CallUser("b1", "C", "offer", "B", "Bea", "video");
    pending := if "C" in srv.activeCalls then Some(srv.activeCalls["C"]) else None;
  }

  /** B calls A: both of A's devices ring. A closes both before answering: B
      receives `offline` and then `call_ended`, once, and the pending entry is gone. */
  method CalleeLeavesWhileRinging() returns (rung: set<SocketId>, b1: seq<OutEvent>, pendingLeft: bool)
    ensures rung == {"a1", "a2"}
    ensures b1 == [UserStatus("A", Offline), CallEnded]
    ensures !pendingLeft
  {
    var srv := TwoDevicesAndOne();
    var ring := RingA(srv, "video");
    rung := ring[0].to;
    b1 := AGoesOffline(srv, "video");
    pendingLeft := "A" in srv.activeCalls;
  }

  /** B calls A and hangs up with `end_call` before A answers: A's devices are
      told, but the pending entry stays, so when A then goes offline B, who already
      hung up, receives `call_ended` for the same call. */
  method EndCallLeavesPendingEntry() returns (a1: seq<OutEvent>, b1: seq<OutEvent>)
    ensures a1 == [IncomingCall("B", "Bea", "offer", "audio"), CallEnded]
    ensures b1 == [UserStatus("A", Offline), CallEnded]
  {
    var srv := TwoDevicesAndOne();
    var ring := RingA(srv, "audio");
    var end := srv.EndCall("b1", "A");
    var toA := ring + end;
    ReceivedTwo(toA[0], toA[1], "a1");
    a1 := Received(toA, "a1");
    b1 := AGoesOffline(srv, "audio");
  }

  /** Sockets s and c1 are open; s is identified as A. */
  method SocketOfA() returns (srv: Server)
    ensures fresh(srv) && srv.Valid()
    ensures srv.connected == {"s", "c1"}
    ensures srv.userSockets == map["s" := "A"]
    ensures srv.activeUsers == map["A" := {"s"}] && srv.userRooms == map["A" := {"s"}]
  {
    srv := new Server();
    srv.Connect("s");
    srv.Connect("c1");
    var t0: map<UserId, set<SocketId>> := map[];
    assert Members(t0, "A") + {"s"} == {"s"};
    var t1 := Join(t0, "A", "s");
    assert t1 == map["A" := {"s"}];
    var i1 := srv.Identify("s", "A");
  }

  /** The same socket s is then identified as B. */
  method ReidentifyAsB(srv: Server)
    requires srv.Valid() && srv.connected == {"s", "c1"}
    requires srv.userSockets == map["s" := "A"]
    requires srv.activeUsers == map["A" := {"s"}] && srv.userRooms == map["A" := {"s"}]
    modifies srv
    ensures srv.Valid() && srv.connected == {"s", "c1"}
    ensures srv.userSockets == map["s" := "B"]
    ensures srv.activeUsers == map["A" := {"s"}, "B" := {"s"}]
    ensures srv.userRooms == map["A" := {"s"}, "B" := {"s"}]
  {
    var t1: map<UserId, set<SocketId>> := map["A" := {"s"}];
    assert Members(t1, "B") + {"s"} == {"s"};
    var t2 := Join(t1, "B", "s");
    assert t2 == map["A" := {"s"}, "B" := {"s"}];
    var i2 := srv.Identify("s", "B");
  }

  /** Socket s is identified as A and then as B; c1 as C. */
  method ReidentifiedSocket() returns (srv: Server)
    ensures fresh(srv) && srv.Valid()
    ensures srv.connected == {"s", "c1"}
    ensures srv.userSockets == map["s" := "B", "c1" := "C"]
    ensures srv.activeUsers == map["A" := {"s"}, "B" := {"s"}, "C" := {"c1"}]
    ensures "A" in srv.userRooms && srv.userRooms["A"] == {"s"}
  {
    srv := SocketOfA();
    ReidentifyAsB(srv);
    var t2: map<UserId, set<SocketId>> := map["A" := {"s"}, "B" := {"s"}];
    assert Members(t2, "C") + {"c1"} == {"c1"};
    var t3 := Join(t2, "C", "c1");
    assert t3 == map["A" := {"s"}, "B" := {"s"}, "C" := {"c1"}];
    var i3 := srv.Identify("c1", "C");
  }

  /** A socket identified as A and then as B stays in A's set; after it closes, A
      is still listed online with no socket left, and a call to A raises no
      `call_error` and rings nobody. */
  method StaleUserAfterReidentify() returns (stillOnline: bool, ring: seq<Delivery>)
    ensures stillOnline
    ensures ring == [Delivery({}, IncomingCall("C", "Cy", "offer", "audio"))]
  {
    var srv := ReidentifiedSocket();
    assert Identified(srv.userSockets, "s");
    var closed := srv.Disconnect("s");
    assert srv.activeUsers["A"] == {"s"};
    stillOnline := "A" in srv.activeUsers;
    assert srv.userRooms["A"] == {};
    ring := srv.CallUser("c1", "A", "offer", "C", "Cy", "audio");
  }
}
