/** Routing in a shared room: one server and any number of clients hear every frame, and each frame
    reaches only the session it belongs to. */
module Routing {
  import opened Bytes
  import opened EpochHeader

  predicate HasFlag(e: U32) {
    e >= CONTROL_FLAG
  }

  /** `e | controlEpochFlag`. */
  function SetFlag(e: U32): U32 {
    if HasFlag(e) then e else e + CONTROL_FLAG
  }

  /** `e &^ controlEpochFlag`. */
  function ClearFlag(e: U32): U32 {
    if HasFlag(e) then e - CONTROL_FLAG else e
  }

  // ------------------------------------------------------------- one participant

  /** What a transport consults when a frame arrives. */
  datatype Local = Local(serverMode: bool, token: U32, epoch: U32, confirmed: bool, peerEpoch: U32)

  /** The KCP session a payload is delivered to. */
  datatype Target = PeerData(epoch: U32) | PeerControl(epoch: U32) | OwnData | OwnControl

  predicate AcceptsDst(l: Local, dst: U32) {
    dst == 0 || dst == l.epoch || dst == SetFlag(l.epoch)
  }

  function RouteData(l: Local, src: U32): Option<Target> {
    if l.serverMode then Some(PeerData(src))
    else if l.confirmed && src == l.peerEpoch then Some(OwnData)
    else None
  }

  function RouteControl(l: Local, src: U32, dst: U32): Option<Target> {
    if l.serverMode then Some(PeerControl(ClearFlag(src)))
    else if dst == SetFlag(l.epoch) then Some(OwnControl)
    else None
  }

  /** handleIncomingFrame: the session that gets the frame's payload, if any does. */
  function Route(sum: Checksum, l: Local, frame: seq<Byte>): Option<(Target, seq<Byte>)> {
    match Parse(sum, frame)
    case None => None
    case Some(a) =>
      var payload := frame[HDR_LEN..];
      if a.token != l.token || a.src == l.epoch || a.src == SetFlag(l.epoch) || !AcceptsDst(l, a.dst) || payload == []
      then None
      else
        match if HasFlag(a.src) then RouteControl(l, a.src, a.dst) else RouteData(l, a.src)
        case None => None
        case Some(t) => Some((t, payload))
  }

  // -------------------------------------------------------------------- the room

  datatype Node = Server | Client(id: nat)

  datatype Plane = Data | Control

  datatype ClientState = ClientState(epoch: U32, confirmed: bool, peerEpoch: U32, dataDst: U32)

  /** A frame put on the medium, with who meant it for whom; `to` is none for a keepalive and for
      what a client sends. */
  datatype Sent = Sent(sender: Node, to: Option<Node>, plane: Plane, addr: Address, payload: seq<Byte>)

  /** `node` handed the payload of frame number `frame` to `target`. */
  datatype Got = Got(node: Node, target: Target, payload: seq<Byte>, frame: nat)

  /** `owner` records which participant drew each epoch. */
  datatype Room = Room(
    token: U32, serverEpoch: U32, clients: map<nat, ClientState>, owner: map<U32, Node>,
    wire: seq<Sent>, log: seq<Got>)

  datatype Event =
    | ClientEpoch(c: nat, e: U32)
    | ServerEpoch(e: U32)
    | Confirm(c: nat, e: U32)
    | ServerSend(src: U32, dst: U32, plane: Plane, payload: seq<Byte>)
    | ServerKeepalive
    | ClientSend(c: nat, plane: Plane, payload: seq<Byte>)
    | Hear(node: Node, frame: nat)

  function OnPlane(plane: Plane, e: U32): U32 {
    if plane.Control? then SetFlag(e) else e
  }

  function LocalOf(r: Room, n: Node): Local
    requires n.Client? ==> n.id in r.clients
  {
    match n
    case Server => Local(true, r.token, r.serverEpoch, false, 0)
    case Client(c) => Local(false, r.token, r.clients[c].epoch, r.clients[c].confirmed, r.clients[c].peerEpoch)
  }

  predicate FreshEpoch(r: Room, e: U32) {
    0 < e < CONTROL_FLAG && e !in r.owner
  }

  /** A participant draws a fresh epoch when it joins and on every restart. A client confirms only
      an epoch the encrypted handshake proved to be the server's. The server addresses clients by
      the epoch it knows them under, from an epoch it has had. */
  predicate Enabled(r: Room, ev: Event) {
    match ev
    case ClientEpoch(_, e) => FreshEpoch(r, e)
    case ServerEpoch(e) => FreshEpoch(r, e)
    case Confirm(c, e) => c in r.clients && e in r.owner && r.owner[e].Server?
    case ServerSend(src, dst, _, _) =>
      src in r.owner && r.owner[src].Server? && dst in r.owner && r.owner[dst].Client?
    case ServerKeepalive => true
    case ClientSend(c, _, _) => c in r.clients
    case Hear(n, k) => k < |r.wire| && (n.Client? ==> n.id in r.clients)
  }

  function FrameBytes(sum: Checksum, s: Sent): seq<Byte> {
    Build(sum, s.addr) + s.payload
  }

  function Step(sum: Checksum, r: Room, ev: Event): Room
    requires Enabled(r, ev)
  {
    match ev
    case ClientEpoch(c, e) => r.(clients := r.clients[c := ClientState(e, false, 0, 0)], owner := r.owner[e := Client(c)])
    case ServerEpoch(e) => r.(serverEpoch := e, owner := r.owner[e := Server])
    case Confirm(c, e) =>
      r.(clients := r.clients[c := r.clients[c].(confirmed := true, peerEpoch := e, dataDst := e)])
    case ServerSend(src, dst, plane, payload) =>
      var a := Address(r.token, OnPlane(plane, src), OnPlane(plane, dst));
      r.(wire := r.wire + [Sent(Server, Some(r.owner[dst]), plane, a, payload)])
    case ServerKeepalive => r.(wire := r.wire + [Sent(Server, None, Data, Address(r.token, r.serverEpoch, 0), [])])
    case ClientSend(c, plane, payload) =>
      var st := r.clients[c];
      var a := Address(r.token, OnPlane(plane, st.epoch), if plane.Control? then 0 else st.dataDst);
      r.(wire := r.wire + [Sent(Client(c), None, plane, a, payload)])
    case Hear(n, k) =>
      match Route(sum, LocalOf(r, n), FrameBytes(sum, r.wire[k]))
      case None => r
      case Some((t, payload)) => r.(log := r.log + [Got(n, t, payload, k)])
  }

  /** A room opens when the server draws its first epoch. */
  function Open(token: U32, e: U32): Room {
    Room(token, e, map[], map[e := Server], [], [])
  }

  ghost predicate IsRun(sum: Checksum, rooms: seq<Room>, events: seq<Event>) {
    && |rooms| == |events| + 1
    && (exists token, e :: 0 < e < CONTROL_FLAG && rooms[0] == Open(token, e))
    && forall k :: 0 <= k < |events| ==> Enabled(rooms[k], events[k]) && rooms[k + 1] == Step(sum, rooms[k], events[k])
  }

  // ------------------------------------------------------------------ invariants

  ghost predicate OwnedBy(r: Room, e: U32, n: Node) {
    e in r.owner && r.owner[e] == n
  }

  ghost predicate EpochsInRange(r: Room) {
    forall e :: e in r.owner ==> 0 < e < CONTROL_FLAG
  }

  ghost predicate ClientInv(r: Room, c: nat)
    requires c in r.clients
  {
    var st := r.clients[c];
    && OwnedBy(r, st.epoch, Client(c))
    && (st.confirmed ==> OwnedBy(r, st.peerEpoch, Server))
    && (st.dataDst == 0 || OwnedBy(r, st.dataDst, Server))
  }

  /** A frame's source epoch belongs to its sender, and its destination to whom it is meant for. */
  ghost predicate SentInv(r: Room, s: Sent) {
    && s.addr.token == r.token
    && OwnedBy(r, ClearFlag(s.addr.src), s.sender)
    && (HasFlag(s.addr.src) <==> s.plane.Control?)
    && (match s.sender
        case Server =>
          s.payload != [] ==>
            && s.to.Some? && s.to.value.Client? && OwnedBy(r, ClearFlag(s.addr.dst), s.to.value)
            && (HasFlag(s.addr.dst) <==> s.plane.Control?)
        case Client(c) =>
          s.addr.dst == 0 || (s.plane.Data? && OwnedBy(r, s.addr.dst, Server)))
  }

  /** The payload came from the right participant, on the right plane, for the right session. */
  ghost predicate GotInv(r: Room, g: Got) {
    && g.frame < |r.wire|
    && var s := r.wire[g.frame];
       && g.payload == s.payload != []
       && match g.node
          case Client(c) =>
            && s.sender == Server && s.to == Some(Client(c))
            && g.target == if s.plane.Control? then OwnControl else OwnData
          case Server =>
            && s.sender.Client?
            && g.target == (if s.plane.Control? then PeerControl(ClearFlag(s.addr.src)) else PeerData(s.addr.src))
            && OwnedBy(r, ClearFlag(s.addr.src), s.sender)
  }

  ghost predicate Inv(r: Room) {
    && EpochsInRange(r) && OwnedBy(r, r.serverEpoch, Server)
    && (forall c :: c in r.clients ==> ClientInv(r, c))
    && (forall k :: 0 <= k < |r.wire| ==> SentInv(r, r.wire[k]))
    && (forall k :: 0 <= k < |r.log| ==> GotInv(r, r.log[k]))
  }

  lemma RouteParsed(sum: Checksum, l: Local, s: Sent)
    ensures Parse(sum, FrameBytes(sum, s)) == Some(s.addr) && FrameBytes(sum, s)[HDR_LEN..] == s.payload
  {
    HeaderRoundTrip(sum, s.addr, s.payload);
  }

  /** What a client takes from the medium was sent to it by the server, on that plane. */
  lemma ClientHearsOnlyServer(sum: Checksum, r: Room, c: nat, s: Sent)
    requires EpochsInRange(r) && c in r.clients && ClientInv(r, c) && SentInv(r, s)
    requires Route(sum, LocalOf(r, Client(c)), FrameBytes(sum, s)).Some?
    ensures var (t, payload) := Route(sum, LocalOf(r, Client(c)), FrameBytes(sum, s)).value;
            && s.sender == Server && s.to == Some(Client(c)) && payload == s.payload != []
            && t == if s.plane.Control? then OwnControl else OwnData
  {
    RouteParsed(sum, LocalOf(r, Client(c)), s);
  }

  /** What the server takes from the medium came from the client whose session it feeds. */
  lemma ServerHearsOwner(sum: Checksum, r: Room, s: Sent)
    requires EpochsInRange(r) && OwnedBy(r, r.serverEpoch, Server) && SentInv(r, s)
    requires Route(sum, LocalOf(r, Server), FrameBytes(sum, s)).Some?
    ensures var (t, payload) := Route(sum, LocalOf(r, Server), FrameBytes(sum, s)).value;
            && s.sender.Client? && payload == s.payload != []
            && t == if s.plane.Control? then PeerControl(ClearFlag(s.addr.src)) else PeerData(s.addr.src)
  {
    RouteParsed(sum, LocalOf(r, Server), s);
  }

  /** More epochs drawn: everything recorded about epochs stays true. */
  lemma OwnersGrow(r: Room, r': Room)
    requires Inv(r) && r'.token == r.token && r'.log == r.log && r.wire <= r'.wire
    requires forall e :: e in r.owner ==> e in r'.owner && r'.owner[e] == r.owner[e]
    ensures forall k :: 0 <= k < |r.wire| ==> SentInv(r', r.wire[k])
    ensures forall k :: 0 <= k < |r.log| ==> GotInv(r', r.log[k])
  {
    forall k | 0 <= k < |r.wire| ensures SentInv(r', r.wire[k]) {
      assert SentInv(r, r.wire[k]);
    }
    forall k | 0 <= k < |r.log| ensures GotInv(r', r.log[k]) {
      assert GotInv(r, r.log[k]);
    }
  }

  lemma HearKeeps(sum: Checksum, r: Room, n: Node, k: nat)
    requires Inv(r) && Enabled(r, Hear(n, k))
    ensures Inv(Step(sum, r, Hear(n, k)))
  {
    var s := r.wire[k];
    assert SentInv(r, s);
    var r' := Step(sum, r, Hear(n, k));
    if Route(sum, LocalOf(r, n), FrameBytes(sum, s)).Some? {
      if n.Client? {
        ClientHearsOnlyServer(sum, r, n.id, s);
      } else {
        ServerHearsOwner(sum, r, s);
      }
      assert GotInv(r, r'.log[|r.log|]);
      forall j | 0 <= j < |r.log| ensures GotInv(r', r'.log[j]) {
        assert GotInv(r, r.log[j]);
      }
    }
  }

  lemma EpochKeeps(sum: Checksum, r: Room, ev: Event)
    requires Inv(r) && Enabled(r, ev) && (ev.ClientEpoch? || ev.ServerEpoch? || ev.Confirm?)
    ensures Inv(Step(sum, r, ev))
  {
    var r' := Step(sum, r, ev);
    OwnersGrow(r, r');
    forall c | c in r'.clients ensures ClientInv(r', c) {
      assert c in r.clients ==> ClientInv(r, c);
    }
  }

  lemma SendKeeps(sum: Checksum, r: Room, ev: Event)
    requires Inv(r) && Enabled(r, ev) && (ev.ServerSend? || ev.ServerKeepalive? || ev.ClientSend?)
    ensures Inv(Step(sum, r, ev))
  {
    var r' := Step(sum, r, ev);
    OwnersGrow(r, r');
    forall c | c in r'.clients ensures ClientInv(r', c) {
      assert ClientInv(r, c);
    }
    assert ev.ClientSend? ==> ClientInv(r, ev.c);
    assert SentInv(r', r'.wire[|r.wire|]);
  }

  lemma StepKeeps(sum: Checksum, r: Room, ev: Event)
    requires Inv(r) && Enabled(r, ev)
    ensures Inv(Step(sum, r, ev))
  {
    hide Inv, Step;
    if ev.Hear? {
      HearKeeps(sum, r, ev.node, ev.frame);
    } else if ev.ClientEpoch? || ev.ServerEpoch? || ev.Confirm? {
      EpochKeeps(sum, r, ev);
    } else {
      SendKeeps(sum, r, ev);
    }
  }

  lemma {:induction false} RunInv(sum: Checksum, rooms: seq<Room>, events: seq<Event>, k: nat)
    requires IsRun(sum, rooms, events) && k <= |events|
    ensures Inv(rooms[k])
  {
    if k == 0 {
      var token, e :| 0 < e < CONTROL_FLAG && rooms[0] == Open(token, e);
    } else {
      RunInv(sum, rooms, events, k - 1);
      StepKeeps(sum, rooms[k - 1], events[k - 1]);
    }
  }

  /** Routing isolation, over every run with any number of clients, joins, restarts and repeated or
      delayed frames: a client is handed only what the server addressed to it, on the plane it was
      sent on; the server hands what a client sent only to that client's own data or control
      session; and nobody is handed anything else. */
  lemma RoutingIsolation(sum: Checksum, rooms: seq<Room>, events: seq<Event>, k: nat)
    requires IsRun(sum, rooms, events) && k < |rooms[|events|].log|
    ensures GotInv(rooms[|events|], rooms[|events|].log[k])
  {
    RunInv(sum, rooms, events, |events|);
  }

  /** Isolation drops nothing it should not: a nonempty frame reaches the client it is addressed to
      under its current epoch, on the control plane always and on the data plane once the client
      has confirmed the server epoch it comes from. */
  lemma AddressedFrameArrives(sum: Checksum, r: Room, c: nat, src: U32, plane: Plane, payload: seq<Byte>)
    requires Inv(r) && c in r.clients && OwnedBy(r, src, Server) && payload != []
    requires plane.Data? ==> r.clients[c].confirmed && r.clients[c].peerEpoch == src
    ensures var a := Address(r.token, OnPlane(plane, src), OnPlane(plane, r.clients[c].epoch));
            Route(sum, LocalOf(r, Client(c)), Build(sum, a) + payload)
            == Some((if plane.Control? then OwnControl else OwnData, payload))
  {
    assert ClientInv(r, c);
    HeaderRoundTrip(sum, Address(r.token, OnPlane(plane, src), OnPlane(plane, r.clients[c].epoch)), payload);
  }

  /** A client's nonempty frame reaches its own session at the server, unless it is addressed to a
      server epoch that has since been given up. */
  lemma ClientFrameArrives(sum: Checksum, r: Room, c: nat, plane: Plane, payload: seq<Byte>)
    requires Inv(r) && c in r.clients && payload != []
    requires plane.Data? ==> r.clients[c].dataDst == 0 || r.clients[c].dataDst == r.serverEpoch
    ensures var st := r.clients[c];
            var a := Address(r.token, OnPlane(plane, st.epoch), if plane.Control? then 0 else st.dataDst);
            Route(sum, LocalOf(r, Server), Build(sum, a) + payload)
            == Some((if plane.Control? then PeerControl(st.epoch) else PeerData(st.epoch), payload))
  {
    assert ClientInv(r, c);
    var st := r.clients[c];
    HeaderRoundTrip(sum, Address(r.token, OnPlane(plane, st.epoch), if plane.Control? then 0 else st.dataDst), payload);
  }
}
