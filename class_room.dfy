/** The live class room on web and mobile: the elapsed-time clock, the local list of
    participants and the maps keyed by socket id that follow it, the chat send guard and
    the mobile "end class" button. WebRTC, sockets and media are outside the model; the
    events they deliver become method calls. */
module ClassRoom {
  import opened Common

  // ---------------------------------------------------------------- timer

  datatype Clock = Clock(hours: nat, minutes: nat, seconds: nat)

  /** The three fields of the timer for `elapsed` milliseconds: whole hours, then the
      whole minutes and seconds left over. */
  function TimerFields(elapsed: nat): (c: Clock)
    ensures c.minutes < 60 && c.seconds < 60
    ensures var shown := c.hours * 3600000 + c.minutes * 60000 + c.seconds * 1000;
      shown <= elapsed < shown + 1000
  {
    ClockArithmetic(elapsed);
    Clock(elapsed / 3600000, (elapsed % 3600000) / 60000, (elapsed % 60000) / 1000)
  }

  lemma ClockArithmetic(e: nat)
    ensures var h, m, s := e / 3600000, (e % 3600000) / 60000, (e % 60000) / 1000;
      && m < 60 && s < 60
      && h * 3600000 + m * 60000 + s * 1000 <= e < h * 3600000 + m * 60000 + s * 1000 + 1000
  {
    var h, r1 := e / 3600000, e % 3600000;
    var m, r2 := r1 / 60000, r1 % 60000;
    assert e == (h * 60 + m) * 60000 + r2;
    assert e % 60000 == r2;
    var s := r2 / 1000;
    assert s * 1000 <= r2 < s * 1000 + 1000;
  }

  /** n.toString().padStart(2, '0'). */
  function Pad(n: nat): (r: string)
    ensures forall i :: 0 <= i < |r| ==> IsDigit(r[i])
    ensures n < 100 ==> |r| == 2
    ensures n >= 100 ==> |r| > 2
  {
    NatToStringLength(n);
    NatToStringLength(n / 10);
    PadStart2(NatToString(n))
  }

  /** Padding never changes the number a field reads as. */
  lemma PadValue(n: nat)
    ensures DigitsValue(Pad(n)) == n
  {
    NatToStringRoundTrip(n);
    var d := NatToString(n);
    NatToStringLength(n);
    if |d| == 1 {
      assert Pad(n) == ['0', d[0]];
      assert ['0', d[0]][..1] == ['0'];
      assert d == [d[0]];
      assert d[..0] == [];
    }
  }

  /** The hh:mm:ss text. */
  function TimerText(elapsed: nat): string {
    var c := TimerFields(elapsed);
    Pad(c.hours) + ":" + Pad(c.minutes) + ":" + Pad(c.seconds)
  }

  /** The timer text reads back as the three fields: the hours take every character
      before the last six (so hours of 100 or more are not cut), minutes and seconds two
      digits each; the text is exactly eight characters below 100 hours. */
  lemma TimerTextReadsBack(elapsed: nat)
    ensures var t := TimerText(elapsed);
      var c := TimerFields(elapsed);
      && |t| >= 8
      && (c.hours < 100 <==> |t| == 8)
      && t[|t| - 6] == ':' && t[|t| - 3] == ':'
      && (forall i :: 0 <= i < |t| && i != |t| - 6 && i != |t| - 3 ==> IsDigit(t[i]))
      && DigitsValue(t[..|t| - 6]) == c.hours
      && DigitsValue(t[|t| - 5..|t| - 3]) == c.minutes
      && DigitsValue(t[|t| - 2..]) == c.seconds
  {
    var c := TimerFields(elapsed);
    var h, m, s := Pad(c.hours), Pad(c.minutes), Pad(c.seconds);
    FieldLayout(h, m, s);
    PadValue(c.hours);
    PadValue(c.minutes);
    PadValue(c.seconds);
  }

  /** Where the three fields sit in `h:mm:ss`. */
  lemma FieldLayout(h: string, m: string, s: string)
    requires |m| == 2 && |s| == 2
    ensures var t := h + ":" + m + ":" + s;
      && |t| == |h| + 6
      && t[|t| - 6] == ':' && t[|t| - 3] == ':'
      && t[..|t| - 6] == h && t[|t| - 5..|t| - 3] == m && t[|t| - 2..] == s
      && (forall i :: 0 <= i < |h| ==> t[i] == h[i])
      && t[|t| - 5] == m[0] && t[|t| - 4] == m[1] && t[|t| - 2] == s[0] && t[|t| - 1] == s[1]
  {
  }

  // ---------------------------------------------------------------- participants

  /** One participant-joined event payload; only the socket id is interpreted. */
  datatype RoomParticipant = RoomParticipant(socketId: string, userId: string, userType: string)

  /** prev.filter(p => p.socketId !== socketId). */
  function WithoutSocket(ps: seq<RoomParticipant>, socketId: string): (r: seq<RoomParticipant>)
    ensures |r| <= |ps|
    ensures forall p :: p in r <==> p in ps && p.socketId != socketId
    ensures (forall i :: 0 <= i < |ps| ==> ps[i].socketId != socketId) ==> r == ps
    decreases |ps|
  {
    if ps == [] then []
    else
      var init := ps[..|ps| - 1];
      assert init + [ps[|ps| - 1]] == ps;
      assert forall p :: p in ps <==> p in init || p == ps[|ps| - 1];
      var rest := WithoutSocket(init, socketId);
      if ps[|ps| - 1].socketId == socketId then rest else rest + [ps[|ps| - 1]]
  }

  /** Removal keeps the order of the others: it works piece by piece over a
      concatenation. */
  lemma {:induction false} WithoutSocketDistributes(a: seq<RoomParticipant>, b: seq<RoomParticipant>, socketId: string)
    ensures WithoutSocket(a + b, socketId) == WithoutSocket(a, socketId) + WithoutSocket(b, socketId)
    decreases |b|
  {
    if b == [] {
      assert a + b == a;
    } else {
      assert (a + b)[..|a + b| - 1] == a + b[..|b| - 1];
      WithoutSocketDistributes(a, b[..|b| - 1], socketId);
    }
  }

  /** A participant who joins and leaves again, on a socket nobody else in the list uses,
      leaves the list exactly as it was. */
  lemma JoinThenLeaveRestores(ps: seq<RoomParticipant>, p: RoomParticipant)
    requires forall i :: 0 <= i < |ps| ==> ps[i].socketId != p.socketId
    ensures WithoutSocket(ps + [p], p.socketId) == ps
  {
    assert (ps + [p])[..|ps|] == ps;
  }

  // ---------------------------------------------------------------- rooms

  /** Who created a peer connection: this client's offer, or an answer to a peer's offer. */
  datatype PeerLink = Offered | Answered

  datatype ChatMessage = ChatMessage(classId: string, message: string, sender: string, userId: string, timestamp: int)

  /** sendMessage's guard: the trimmed draft is non-empty and there is a socket. */
  predicate ShouldSend(draft: string, connected: bool) {
    Trim(draft) != [] && connected
  }

  /** The guard only rejects drafts made of whitespace, and any draft without a socket. */
  lemma ShouldSendIffNotBlank(draft: string, connected: bool)
    ensures ShouldSend(draft, connected) <==> connected && !IsBlank(draft)
  {
    TrimEmptyIffBlank(draft);
  }

  /** The web room (VirtualClass.jsx). */
  class WebRoom {
    const classId: string
    const userId: string
    const userType: string
    var connected: bool
    var participants: seq<RoomParticipant>
    var peers: map<string, PeerLink>
    var messages: seq<ChatMessage>
    var draft: string
    /** What this client emitted on the socket as chat. */
    var outbox: seq<ChatMessage>

    constructor(classId: string, userId: string, userType: string, connected: bool)
      ensures this.classId == classId && this.userId == userId && this.userType == userType
      ensures this.connected == connected
      ensures participants == [] && peers == map[] && messages == [] && draft == "" && outbox == []
    {
      this.classId := classId;
      this.userId := userId;
      this.userType := userType;
      this.connected := connected;
      participants := [];
      peers := map[];
      messages := [];
      draft := "";
      outbox := [];
    }

    /** participant-joined: append; a teacher also opens a connection to the newcomer. */
    method ParticipantJoined(p: RoomParticipant)
      modifies this`participants, this`peers
      ensures participants == old(participants) + [p]
      ensures peers == if userType == "teacher" then old(peers)[p.socketId := Offered] else old(peers)
    {
      participants := participants + [p];
      if userType == "teacher" {
        peers := peers[p.socketId := Offered];
      }
    }

    /** participant-left: drop every entry with that socket and its connection, if any;
        every other key stays. */
    method ParticipantLeft(socketId: string)
      modifies this`participants, this`peers
      ensures participants == WithoutSocket(old(participants), socketId)
      ensures peers == old(peers) - {socketId}
      ensures forall k :: k != socketId ==> (k in peers <==> k in old(peers)) && (k in peers ==> peers[k] == old(peers)[k])
    {
      participants := WithoutSocket(participants, socketId);
      if socketId in peers {
        peers := peers - {socketId};
      }
    }

    /** video-offer: a connection answering the sender is stored under its socket id. */
    method VideoOffer(fromSocketId: string)
      modifies this`peers
      ensures peers == old(peers)[fromSocketId := Answered]
    {
      peers := peers[fromSocketId := Answered];
    }

    /** chat-message: append. */
    method ChatReceived(m: ChatMessage)
      modifies this`messages
      ensures messages == old(messages) + [m]
    {
      messages := messages + [m];
    }

    method Type(text: string)
      modifies this`draft
      ensures draft == text
    {
      draft := text;
    }

    /** sendMessage: when the guard holds, emit the draft as typed (not trimmed) and clear
        it; otherwise nothing changes. */
    method SendMessage(now: int)
      modifies this`draft, this`outbox
      ensures ShouldSend(old(draft), connected) ==>
        outbox == old(outbox) + [ChatMessage(classId, old(draft), userType, userId, now)] && draft == ""
      ensures !ShouldSend(old(draft), connected) ==> outbox == old(outbox) && draft == old(draft)
    {
      if Trim(draft) != [] && connected {
        outbox := outbox + [ChatMessage(classId, draft, userType, userId, now)];
        draft := "";
      }
    }
  }

  /** The mobile room (VirtualClassRoomScreen.js): as on the web, plus the remote streams
      received per socket (a stream is an opaque handle). `webRtc` says whether an
      `RTCPeerConnection` global exists: the screen never imports one (WebRTC is a
      placeholder under Expo Go), so as shipped it is false, every `new RTCPeerConnection`
      throws inside an async handler, and the connection and stream maps stay empty. */
  class MobileRoom {
    const classId: string
    const userId: string
    const role: string
    const webRtc: bool
    var connected: bool
    var participants: seq<RoomParticipant>
    var peers: map<string, PeerLink>
    var remoteStreams: map<string, nat>
    var messages: seq<ChatMessage>
    var draft: string
    var outbox: seq<ChatMessage>

    /** Without WebRTC no connection is ever stored and no stream handler attached. */
    predicate Valid()
      reads this
    {
      !webRtc ==> peers == map[] && remoteStreams == map[]
    }

    constructor(classId: string, userId: string, role: string, connected: bool, webRtc: bool)
      ensures this.classId == classId && this.userId == userId && this.role == role
      ensures this.connected == connected && this.webRtc == webRtc
      ensures participants == [] && peers == map[] && remoteStreams == map[]
      ensures messages == [] && draft == "" && outbox == []
      ensures Valid()
    {
      this.classId := classId;
      this.userId := userId;
      this.role := role;
      this.webRtc := webRtc;
      this.connected := connected;
      participants := [];
      peers := map[];
      remoteStreams := map[];
      messages := [];
      draft := "";
      outbox := [];
    }

    /** handleParticipantJoined: the list grows first; a teacher's offer then stores a
        connection only when the constructor exists, and otherwise the async offer
        fails with the list already updated. */
    method ParticipantJoined(p: RoomParticipant)
      requires Valid()
      modifies this`participants, this`peers
      ensures Valid()
      ensures participants == old(participants) + [p]
      ensures peers == if role == "teacher" && webRtc then old(peers)[p.socketId := Offered] else old(peers)
    {
      participants := participants + [p];
      if role == "teacher" && webRtc {
        peers := peers[p.socketId := Offered];
      }
    }

    /** handleParticipantLeft: the list, the peer map and the stream map all lose that
        socket; nothing else in them changes. */
    method ParticipantLeft(socketId: string)
      requires Valid()
      modifies this`participants, this`peers, this`remoteStreams
      ensures Valid()
      ensures participants == WithoutSocket(old(participants), socketId)
      ensures peers == old(peers) - {socketId}
      ensures remoteStreams == old(remoteStreams) - {socketId}
      ensures forall k :: k != socketId ==> (k in remoteStreams <==> k in old(remoteStreams)) && (k in remoteStreams ==> remoteStreams[k] == old(remoteStreams)[k])
    {
      participants := WithoutSocket(participants, socketId);
      if socketId in peers {
        peers := peers - {socketId};
      }
      remoteStreams := remoteStreams - {socketId};
    }

    /** handleVideoOffer: the answering connection is stored under the sender's id when
        the constructor exists; otherwise the handler fails before storing anything. */
    method VideoOffer(fromSocketId: string)
      requires Valid()
      modifies this`peers
      ensures Valid()
      ensures peers == if webRtc then old(peers)[fromSocketId := Answered] else old(peers)
    {
      if webRtc {
        peers := peers[fromSocketId := Answered];
      }
    }

    /** onaddstream of the connection stored for `socketId`: only that socket's stream is
        replaced or added. The handler exists only on a stored connection. */
    method StreamAdded(socketId: string, stream: nat)
      requires Valid() && socketId in peers
      modifies this`remoteStreams
      ensures Valid()
      ensures remoteStreams == old(remoteStreams)[socketId := stream]
      ensures forall k :: k != socketId ==> (k in remoteStreams <==> k in old(remoteStreams)) && (k in remoteStreams ==> remoteStreams[k] == old(remoteStreams)[k])
    {
      remoteStreams := remoteStreams[socketId := stream];
    }

    method ChatReceived(m: ChatMessage)
      modifies this`messages
      ensures messages == old(messages) + [m]
    {
      messages := messages + [m];
    }

    method Type(text: string)
      modifies this`draft
      ensures draft == text
    {
      draft := text;
    }

    method SendMessage(now: int)
      modifies this`draft, this`outbox
      ensures ShouldSend(old(draft), connected) ==>
        outbox == old(outbox) + [ChatMessage(classId, old(draft), role, userId, now)] && draft == ""
      ensures !ShouldSend(old(draft), connected) ==> outbox == old(outbox) && draft == old(draft)
    {
      if Trim(draft) != [] && connected {
        outbox := outbox + [ChatMessage(classId, draft, role, userId, now)];
        draft := "";
      }
    }
  }

  // ---------------------------------------------------------------- end class

  datatype EndOutcome = EndOutcome(calledEnd: bool, navigatedBack: bool, alerted: bool)

  /** endClass on mobile: only a teacher calls the end endpoint; the screen goes back
      unless that call failed, in which case an alert is shown and the user stays. */
  function EndClass(role: string, requestSucceeds: bool): (o: EndOutcome)
    ensures o.calledEnd <==> role == "teacher"
    ensures o.navigatedBack <==> (role != "teacher" || requestSucceeds)
    ensures o.alerted <==> !o.navigatedBack
  {
    if role == "teacher" then
      if requestSucceeds then EndOutcome(true, true, false) else EndOutcome(true, false, true)
    else EndOutcome(false, true, false)
  }
}
