/**
 * Two endpoints and the two FIFO channels between them. Every step is one handler run of one
 * endpoint: a new connection, a received packet, or a readable or writable fd, with any number
 * of bytes accepted and any failure. The invariant holds in every reachable state.
 */
module StreamRuns {
  import opened Arith
  import opened Lists
  import opened Streams

  datatype Endpoint = Endpoint(nextId: nat, socks: map<nat, Socket>)

  /** ab carries packets from a to b. aToB and bToA are history: which sockets are the two ends of a stream. */
  datatype System = System(a: Endpoint, b: Endpoint, ab: seq<Packet>, ba: seq<Packet>, aToB: map<nat, nat>,
                           bToA: map<nat, nat>)

  /** The same system with the names of the endpoints exchanged. */
  function Flip(y: System): System { System(y.b, y.a, y.ba, y.ab, y.bToA, y.aToB) }

  const INITIAL := System(Endpoint(1, map[]), Endpoint(1, map[]), [], [], map[], map[])

  /** What endpoint a does next; k and stop say how a write to an fd goes. */
  datatype Event =
    | Connect
    | Receive(accept: bool, k: nat, stop: WriteEnd)
    | FdReadable(id: nat, data: seq<Byte>, eof: bool)
    | FdWritable(id: nat, k: nat, stop: WriteEnd)

  /** find_local_socket: sockets on the closing list are not found. */
  predicate Found(e: Endpoint, id: nat) { id in e.socks && e.socks[id].status.Active? }

  predicate Enabled(y: System, ev: Event) {
    match ev
    case Connect => true
    case Receive(_, k, _) => y.ba != [] && (y.ba[0].Wrte? ==> k <= |y.ba[0].data|)
    case FdReadable(id, data, eof) =>
      // select reports only wanted fds, except that a dead fd is faked readable, and that an
      // event pending when the socket moved to the closing list is still delivered
      && id in y.a.socks && |data| <= MAX_PAYLOAD && (eof ==> |data| < MAX_PAYLOAD)
      && (y.a.socks[id].status.Closing?
          || (y.a.socks[id].status.Active? && (y.a.socks[id].wantRead || (data == [] && eof))))
    case FdWritable(id, k, _) =>
      id in y.a.socks && !y.a.socks[id].status.Gone? && y.a.socks[id].wantWrite && k <= |Concat(y.a.socks[id].queue)|
  }

  /** Endpoint a's socket id after a handler, and the packets it sent. */
  function Put(y: System, id: nat, e: Effect): System {
    y.(a := y.a.(socks := y.a.socks[id := e.sock]), ab := y.ab + e.sent)
  }

  /** handle_packet at a for the packets of streams. */
  function Handle(y: System, p: Packet, accept: bool, k: nat, stop: WriteEnd): System
    requires p.Wrte? ==> k <= |p.data|
  {
    match p
    case Open(l) =>
      if accept then
        var id := y.a.nextId;
        y.(a := Endpoint(id + 1, y.a.socks[id := NewSocket(Some(l))]), ab := y.ab + [Okay(id, l)],
           aToB := y.aToB[id := l], bToA := y.bToA[l := id])
      else
        y.(ab := y.ab + [Clse(0, l)])
    case Okay(l, r) => if Found(y.a, r) then Put(y, r, Effect(Ready(y.a.socks[r], l), [])) else y
    case Clse(l, r) => if Found(y.a, r) then Put(y, r, Close(y.a.socks[r])) else y
    case Wrte(l, r, d) => if Found(y.a, r) then Put(y, r, Enqueue(y.a.socks[r], r, l, d, k, stop)) else y
  }

  /** One step of endpoint a. */
  function StepA(y: System, ev: Event): System
    requires Enabled(y, ev)
  {
    match ev
    case Connect =>
      var id := y.a.nextId;
      y.(a := Endpoint(id + 1, y.a.socks[id := NewSocket(None)]), ab := y.ab + [Open(id)])
    case Receive(accept, k, stop) => Handle(y.(ba := y.ba[1..]), y.ba[0], accept, k, stop)
    case FdReadable(id, data, eof) => Put(y, id, Readable(y.a.socks[id], id, data, eof))
    case FdWritable(id, k, stop) => Put(y, id, Writable(y.a.socks[id], id, k, stop))
  }

  datatype Move = AtA(ev: Event) | AtB(ev: Event)

  predicate MoveEnabled(y: System, m: Move) {
    if m.AtA? then Enabled(y, m.ev) else Enabled(Flip(y), m.ev)
  }

  function Step(y: System, m: Move): System
    requires MoveEnabled(y, m)
  {
    if m.AtA? then StepA(y, m.ev) else Flip(StepA(Flip(y), m.ev))
  }

  // ---- packets for one socket -----------------------------------------------------

  predicate Addressed(p: Packet, id: nat) { !p.Open? && p.remote == id }

  /** The packets of a channel addressed to one socket, in order. */
  function For(ch: seq<Packet>, id: nat): seq<Packet> {
    if ch == [] then [] else (if Addressed(ch[0], id) then [ch[0]] else []) + For(ch[1..], id)
  }

  function Opens(ch: seq<Packet>, id: nat): nat {
    if ch == [] then 0 else (if ch[0] == Open(id) then 1 else 0) + Opens(ch[1..], id)
  }

  lemma ForHead(p: Packet, ch: seq<Packet>, id: nat)
    ensures For([p] + ch, id) == (if Addressed(p, id) then [p] else []) + For(ch, id)
    ensures Opens([p] + ch, id) == (if p == Open(id) then 1 else 0) + Opens(ch, id)
  {
    assert ([p] + ch)[1..] == ch;
  }

  lemma {:induction false} ForAppend(ch: seq<Packet>, more: seq<Packet>, id: nat)
    ensures For(ch + more, id) == For(ch, id) + For(more, id)
    ensures Opens(ch + more, id) == Opens(ch, id) + Opens(more, id)
  {
    if ch == [] {
      assert ch + more == more;
    } else {
      ForAppend(ch[1..], more, id);
      ForHead(ch[0], ch[1..] + more, id);
      ForHead(ch[0], ch[1..], id);
      hide For, Opens, Addressed;
      assert ch + more == [ch[0]] + (ch[1..] + more) && ch == [ch[0]] + ch[1..];
    }
  }

  lemma {:induction false} ForSent(sent: seq<Packet>, to: nat, id: nat)
    requires forall k :: 0 <= k < |sent| ==> Addressed(sent[k], to)
    ensures For(sent, id) == if id == to then sent else []
    ensures Opens(sent, id) == 0
  {
    if sent != [] {
      ForSent(sent[1..], to, id);
      assert sent == [sent[0]] + sent[1..];
    }
  }

  lemma {:induction false} OpensMember(ch: seq<Packet>, id: nat, k: nat)
    requires k < |ch| && ch[k] == Open(id)
    ensures Opens(ch, id) >= 1
  {
    if k > 0 { OpensMember(ch[1..], id, k - 1); }
  }

  // ---- the invariant ----------------------------------------------------------------

  ghost predicate Ids(y: System) {
    && 0 < y.a.nextId
    && (forall i :: i in y.a.socks ==> 0 < i < y.a.nextId)
    && (forall i :: i in y.aToB ==> i in y.a.socks && y.aToB[i] in y.bToA && y.bToA[y.aToB[i]] == i)
  }

  /** An opener without an acceptor: its OPEN or the refusal is on the way; neither any more only once it has left. */
  ghost predicate LoneInv(s: Socket, arriving: seq<Packet>, opens: nat) {
    && SocketInv(s) && s.mate.None? && opens + |arriving| <= 1 && (arriving != [] ==> arriving[0].Clse?)
    && (opens > 0 ==> s.status.Active? || s.faultOpen)
    && (s.status.Active? ==> opens + |arriving| == 1)
  }

  ghost predicate Lone(y: System) {
    forall i :: i in y.a.socks && i !in y.aToB ==> LoneInv(y.a.socks[i], For(y.ba, i), Opens(y.ab, i))
  }

  /** Packets name sockets that exist, and an OPEN one that has no acceptor. */
  ghost predicate Wire(y: System) {
    forall k :: 0 <= k < |y.ab| ==>
      if y.ab[k].Open? then y.ab[k].local in y.a.socks && y.ab[k].local !in y.aToB
      else y.ab[k].remote in y.b.socks
  }

  ghost predicate Stream(y: System, i: nat)
    requires i in y.aToB && i in y.a.socks && y.aToB[i] in y.b.socks
  {
    StreamInv(y.a.socks[i], y.b.socks[y.aToB[i]], For(y.ab, y.aToB[i]), For(y.ba, i), i, y.aToB[i])
  }

  ghost predicate AllStreams(y: System)
    requires Ids(y) && Ids(Flip(y))
  {
    forall i :: i in y.aToB ==> Stream(y, i)
  }

  ghost predicate Half(y: System) { Ids(y) && Lone(y) && Wire(y) }

  ghost predicate Inv(y: System) {
    Half(y) && Half(Flip(y)) && AllStreams(y)
  }

  lemma InvFlip(y: System)
    requires Inv(y)
    ensures Inv(Flip(y)) && Flip(Flip(y)) == y
  {
    forall j | j in y.bToA ensures Stream(Flip(y), j) {
      assert Stream(y, y.bToA[j]);
    }
  }

  /** One handler run on socket i of a: it may take the head of ba and sends only to its far end. */
  ghost predicate Touched(y: System, z: System, i: nat, e: Effect, pop: bool) {
    && i in y.a.socks
    && (pop ==> y.ba != [] && Addressed(y.ba[0], i))
    && (e.sent != [] ==> i in y.aToB && forall k :: 0 <= k < |e.sent| ==> Addressed(e.sent[k], y.aToB[i]))
    && z.a.nextId == y.a.nextId && z.a.socks == y.a.socks[i := e.sock]
    && z.b == y.b && z.aToB == y.aToB && z.bToA == y.bToA
    && z.ab == y.ab + e.sent
    && z.ba == if pop then y.ba[1..] else y.ba
  }

  lemma TouchedChannels(y: System, z: System, i: nat, e: Effect, pop: bool, id: nat)
    requires Touched(y, z, i, e, pop)
    ensures For(z.ab, id) == For(y.ab, id) + (if i in y.aToB && id == y.aToB[i] then e.sent else [])
    ensures For(z.ba, id) == if pop && id == i then For(y.ba, id)[1..] else For(y.ba, id)
    ensures Opens(z.ab, id) == Opens(y.ab, id) && Opens(z.ba, id) == Opens(y.ba, id)
  {
    hide Opens, For;
    ForAppend(y.ab, e.sent, id);
    if i in y.aToB {
      ForSent(e.sent, y.aToB[i], id);
    } else {
      ForSent([], 0, id);
    }
    if pop {
      ForHead(y.ba[0], y.ba[1..], id);
      assert y.ba == [y.ba[0]] + y.ba[1..];
      assert ([y.ba[0]] + For(y.ba[1..], id))[1..] == For(y.ba[1..], id);
    }
  }

  lemma TouchedHalf(y: System, z: System, i: nat, e: Effect, pop: bool)
    requires Touched(y, z, i, e, pop) && Half(y) && Ids(Flip(y))
    requires i !in y.aToB ==> LoneInv(e.sock, For(z.ba, i), Opens(z.ab, i))
    ensures Half(z)
  {
    hide LoneInv, For, Opens;
    forall k | k in z.a.socks && k !in z.aToB ensures LoneInv(z.a.socks[k], For(z.ba, k), Opens(z.ab, k)) {
      TouchedChannels(y, z, i, e, pop, k);
    }
    assert Ids(z);
    assert Wire(z);
  }

  lemma TouchedFarHalf(y: System, z: System, i: nat, e: Effect, pop: bool)
    requires Touched(y, z, i, e, pop) && Half(Flip(y)) && Ids(y)
    ensures Half(Flip(z))
  {
    hide LoneInv, For, Opens;
    forall k | k in z.b.socks && k !in z.bToA ensures LoneInv(z.b.socks[k], For(z.ab, k), Opens(z.ba, k)) {
      TouchedChannels(y, z, i, e, pop, k);
      assert For(y.ab, k) + [] == For(y.ab, k);
      assert LoneInv(Flip(y).a.socks[k], For(y.ab, k), Opens(y.ba, k));
    }
    assert Ids(Flip(z));
    assert Wire(Flip(z));
  }

  lemma TouchedStream(y: System, z: System, i: nat, e: Effect, pop: bool, k: nat)
    requires Touched(y, z, i, e, pop) && Ids(y) && Ids(Flip(y)) && k in y.aToB && k != i
    requires Stream(y, k)
    ensures z.aToB == y.aToB && k in z.a.socks && z.aToB[k] in z.b.socks && Stream(z, k)
  {
    hide StreamInv, For, Opens, Addressed;
    TouchedChannels(y, z, i, e, pop, k);
    TouchedChannels(y, z, i, e, pop, y.aToB[k]);
    assert i in y.aToB ==> y.aToB[k] != y.aToB[i];
    assert For(y.ab, y.aToB[k]) + [] == For(y.ab, y.aToB[k]);
  }

  lemma TouchedSelf(y: System, z: System, i: nat, e: Effect, pop: bool)
    requires Touched(y, z, i, e, pop) && Ids(y) && Ids(Flip(y)) && i in y.aToB
    requires pop ==> For(y.ba, i) != []
    requires StreamInv(e.sock, y.b.socks[y.aToB[i]], For(y.ab, y.aToB[i]) + e.sent,
                       if pop then For(y.ba, i)[1..] else For(y.ba, i), i, y.aToB[i])
    ensures z.aToB == y.aToB && i in z.a.socks && z.aToB[i] in z.b.socks && Stream(z, i)
  {
    hide StreamInv, For, Opens, Addressed;
    TouchedChannels(y, z, i, e, pop, i);
    TouchedChannels(y, z, i, e, pop, y.aToB[i]);
  }

  /** A handler of a stream's socket that keeps its StreamInv keeps everything. */
  lemma PutPreserves(y: System, z: System, i: nat, e: Effect, pop: bool)
    requires Inv(y) && Touched(y, z, i, e, pop) && i in y.aToB
    requires pop ==> For(y.ba, i) != []
    requires StreamInv(e.sock, y.b.socks[y.aToB[i]], For(y.ab, y.aToB[i]) + e.sent,
                       if pop then For(y.ba, i)[1..] else For(y.ba, i), i, y.aToB[i])
    ensures Inv(z)
  {
    hide StreamInv, For, Opens, Addressed, Lone, Wire, Stream;
    TouchedHalf(y, z, i, e, pop);
    TouchedFarHalf(y, z, i, e, pop);
    forall k | k in z.aToB ensures Stream(z, k) {
      if k != i {
        TouchedStream(y, z, i, e, pop, k);
      } else {
        TouchedSelf(y, z, i, e, pop);
      }
    }
  }

  /** A socket without an acceptor sends nothing: it can only be closed. */
  lemma LonePreserves(y: System, z: System, i: nat, e: Effect, pop: bool)
    requires Inv(y) && Touched(y, z, i, e, pop) && i !in y.aToB
    requires LoneInv(e.sock, For(z.ba, i), Opens(z.ab, i))
    ensures Inv(z)
  {
    hide StreamInv, For, Opens, Addressed, Lone, Wire, Stream, LoneInv;
    TouchedHalf(y, z, i, e, pop);
    TouchedFarHalf(y, z, i, e, pop);
    forall k | k in z.aToB ensures Stream(z, k) {
      TouchedStream(y, z, i, e, pop, k);
    }
  }

  lemma {:induction false} ForOnly(ch: seq<Packet>, id: nat)
    requires forall k :: 0 <= k < |ch| ==> !Addressed(ch[k], id)
    ensures For(ch, id) == []
  {
    if ch != [] { ForOnly(ch[1..], id); }
  }

  lemma {:induction false} OpensOnly(ch: seq<Packet>, id: nat)
    requires forall k :: 0 <= k < |ch| ==> ch[k] != Open(id)
    ensures Opens(ch, id) == 0
  {
    if ch != [] { OpensOnly(ch[1..], id); }
  }

  /** Nothing is on the way to an id that is not in use. */
  lemma Unaddressed(y: System, id: nat)
    requires Half(y) && Half(Flip(y)) && id == y.a.nextId
    ensures For(y.ba, id) == [] && Opens(y.ab, id) == 0
  {
    hide LoneInv;
    ForOnly(y.ba, id);
    OpensOnly(y.ab, id);
  }

  lemma OpenSent(y: System, k: nat)
    ensures var z := StepA(y, Connect);
            && For(z.ab, k) == For(y.ab, k)
            && Opens(z.ab, k) == Opens(y.ab, k) + (if k == y.a.nextId then 1 else 0)
  {
    ForAppend(y.ab, [Open(y.a.nextId)], k);
    assert [Open(y.a.nextId)][1..] == [];
  }

  lemma ConnectHalf(y: System)
    requires Half(y) && Half(Flip(y))
    ensures Half(StepA(y, Connect)) && Half(Flip(StepA(y, Connect)))
  {
    hide For, Opens;
    var z, id := StepA(y, Connect), y.a.nextId;
    Unaddressed(y, id);
    assert SocketInv(NewSocket(None));
    hide SocketInv;
    assert Ids(z) && Ids(Flip(z)) && Wire(z) && Wire(Flip(z));
    forall k | k in z.a.socks && k !in z.aToB ensures LoneInv(z.a.socks[k], For(z.ba, k), Opens(z.ab, k)) {
      OpenSent(y, k);
    }
    forall k | k in z.b.socks && k !in z.bToA ensures LoneInv(z.b.socks[k], For(z.ab, k), Opens(z.ba, k)) {
      OpenSent(y, k);
      assert LoneInv(Flip(y).a.socks[k], For(y.ab, k), Opens(y.ba, k));
    }
  }

  lemma ConnectPreserves(y: System)
    requires Inv(y)
    ensures Inv(StepA(y, Connect))
  {
    hide StreamInv, For, Opens, Lone, Wire;
    ConnectHalf(y);
    var z := StepA(y, Connect);
    forall k | k in z.aToB ensures Stream(z, k) {
      assert Stream(y, k);
      OpenSent(y, y.aToB[k]);
    }
  }

  // ---- a received OPEN ----------------------------------------------------------------

  lemma Taken(y: System, k: nat)
    requires y.ba != [] && y.ba[0].Open?
    ensures For(y.ba[1..], k) == For(y.ba, k)
    ensures Opens(y.ba[1..], k) == Opens(y.ba, k) - (if k == y.ba[0].local then 1 else 0)
  {}

  lemma Replied(ab: seq<Packet>, p: Packet, k: nat)
    requires !p.Open?
    ensures For(ab + [p], k) == For(ab, k) + (if p.remote == k then [p] else [])
    ensures Opens(ab + [p], k) == Opens(ab, k)
  {
    ForAppend(ab, [p], k);
    assert [p][1..] == [];
  }

  /** The opener of a received OPEN: nothing has been sent to it, and no second OPEN is on the way. */
  lemma OpenerOf(y: System)
    requires Half(y) && Half(Flip(y)) && y.ba != [] && y.ba[0].Open?
    ensures var l := y.ba[0].local;
            && l in y.b.socks && l !in y.bToA && SocketInv(y.b.socks[l]) && y.b.socks[l].mate.None?
            && (y.b.socks[l].status.Active? || y.b.socks[l].faultOpen)
            && For(y.ab, l) == [] && Opens(y.ba, l) == 1
            && forall k :: 1 <= k < |y.ba| ==> y.ba[k] != Open(l)
  {
    var l := y.ba[0].local;
    assert Wire(Flip(y));
    assert LoneInv(Flip(y).a.socks[l], For(y.ab, l), Opens(y.ba, l));
    forall k | 1 <= k < |y.ba| ensures y.ba[k] != Open(l) {
      if y.ba[k] == Open(l) { OpensMember(y.ba[1..], l, k - 1); }
    }
  }

  lemma RejectHalf(y: System)
    requires Half(y) && Half(Flip(y)) && y.ba != [] && y.ba[0].Open?
    ensures var z := y.(ba := y.ba[1..], ab := y.ab + [Clse(0, y.ba[0].local)]);
            Half(z) && Half(Flip(z))
  {
    OpenerOf(y);
    hide For, Opens, SocketInv;
    var l := y.ba[0].local;
    var z := y.(ba := y.ba[1..], ab := y.ab + [Clse(0, l)]);
    assert Ids(z) && Ids(Flip(z)) && Wire(z) && Wire(Flip(z));
    forall k | k in z.a.socks && k !in z.aToB ensures LoneInv(z.a.socks[k], For(z.ba, k), Opens(z.ab, k)) {
      Taken(y, k);
      Replied(y.ab, Clse(0, l), k);
    }
    forall k | k in z.b.socks && k !in z.bToA ensures LoneInv(z.b.socks[k], For(z.ab, k), Opens(z.ba, k)) {
      Taken(y, k);
      Replied(y.ab, Clse(0, l), k);
      assert LoneInv(Flip(y).a.socks[k], For(y.ab, k), Opens(y.ba, k));
    }
  }

  lemma RejectPreserves(y: System)
    requires Inv(y) && y.ba != [] && y.ba[0].Open?
    ensures Inv(y.(ba := y.ba[1..], ab := y.ab + [Clse(0, y.ba[0].local)]))
  {
    hide StreamInv, For, Opens, Lone, Wire, SocketInv;
    var l := y.ba[0].local;
    var z := y.(ba := y.ba[1..], ab := y.ab + [Clse(0, l)]);
    OpenerOf(y);
    RejectHalf(y);
    forall k | k in z.aToB ensures Stream(z, k) {
      assert Stream(y, k);
      Taken(y, k);
      Replied(y.ab, Clse(0, l), y.aToB[k]);
      assert For(y.ab, y.aToB[k]) + [] == For(y.ab, y.aToB[k]);
    }
  }

  function Accepted(y: System): System
    requires y.ba != [] && y.ba[0].Open?
  {
    Handle(y.(ba := y.ba[1..]), y.ba[0], true, 0, Blocked)
  }

  lemma AcceptIds(y: System)
    requires Half(y) && Half(Flip(y)) && y.ba != [] && y.ba[0].Open?
    ensures Ids(Accepted(y)) && Ids(Flip(Accepted(y)))
  {
    hide For, Opens, Lone, SocketInv, Wire;
    OpenerOf(y);
  }

  lemma AcceptWire(y: System)
    requires Half(y) && Half(Flip(y)) && y.ba != [] && y.ba[0].Open?
    ensures Wire(Accepted(y)) && Wire(Flip(Accepted(y)))
  {
    hide For, Opens, Lone, SocketInv;
    OpenerOf(y);
    var z := Accepted(y);
    assert forall k :: 0 <= k < |z.ba| ==> z.ba[k] == y.ba[k + 1];
  }

  lemma AcceptHalf(y: System)
    requires Half(y) && Half(Flip(y)) && y.ba != [] && y.ba[0].Open?
    ensures Half(Accepted(y)) && Half(Flip(Accepted(y)))
  {
    hide For, Opens, SocketInv, Wire;
    OpenerOf(y);
    AcceptIds(y);
    AcceptWire(y);
    var z, l, id := Accepted(y), y.ba[0].local, y.a.nextId;
    forall k | k in z.a.socks && k !in z.aToB ensures LoneInv(z.a.socks[k], For(z.ba, k), Opens(z.ab, k)) {
      Taken(y, k);
      Replied(y.ab, Okay(id, l), k);
    }
    forall k | k in z.b.socks && k !in z.bToA ensures LoneInv(z.b.socks[k], For(z.ab, k), Opens(z.ba, k)) {
      Taken(y, k);
      Replied(y.ab, Okay(id, l), k);
      assert LoneInv(Flip(y).a.socks[k], For(y.ab, k), Opens(y.ba, k));
    }
  }

  /** A new stream: the acceptor may send, and the opener's first credit is on the way. */
  lemma NewStream(s: Socket, id: nat, l: nat)
    requires SocketInv(s) && s.mate.None? && (s.status.Active? || s.faultOpen)
    ensures StreamInv(NewSocket(Some(l)), s, [Okay(id, l)], [], id, l)
  {
    var p := Okay(id, l);
    Sent([], p);
    assert [] + [p] == [p];
  }

  lemma AcceptPreserves(y: System)
    requires Inv(y) && y.ba != [] && y.ba[0].Open?
    ensures Inv(Accepted(y))
  {
    hide StreamInv, For, Opens, Lone, Wire, SocketInv;
    OpenerOf(y);
    AcceptHalf(y);
    var z, l, id := Accepted(y), y.ba[0].local, y.a.nextId;
    Unaddressed(y, id);
    forall k | k in z.aToB ensures Stream(z, k) {
      Taken(y, k);
      Replied(y.ab, Okay(id, l), z.aToB[k]);
      if k == id {
        NewStream(y.b.socks[l], id, l);
        assert [] + [Okay(id, l)] == [Okay(id, l)];
      } else {
        assert Stream(y, k);
        assert For(y.ab, y.aToB[k]) + [] == For(y.ab, y.aToB[k]);
      }
    }
  }

  // ---- events and packets of a stream ---------------------------------------------------

  lemma SentTo(s: Socket, r: Socket, out: seq<Packet>, sent: seq<Packet>, back: seq<Packet>, sid: nat, rid: nat)
    requires StreamInv(s, r, out + sent, back, sid, rid)
    ensures forall k :: 0 <= k < |sent| ==> Addressed(sent[k], rid)
  {
    forall k | 0 <= k < |sent| ensures Addressed(sent[k], rid) {
      assert (out + sent)[|out| + k] == sent[k];
    }
  }

  lemma LoneOf(y: System, id: nat)
    requires Lone(y) && id in y.a.socks && id !in y.aToB
    ensures LoneInv(y.a.socks[id], For(y.ba, id), Opens(y.ab, id))
  {}

  lemma LoneReadable(s: Socket, id: nat, data: seq<Byte>, eof: bool, arriving: seq<Packet>, opens: nat)
    requires LoneInv(s, arriving, opens)
    requires s.status.Closing? || (s.status.Active? && (s.wantRead || (data == [] && eof)))
    ensures var e := Readable(s, id, data, eof); e.sent == [] && LoneInv(e.sock, arriving, opens)
  {}

  lemma FdReadablePreserves(y: System, id: nat, data: seq<Byte>, eof: bool)
    requires Inv(y) && Enabled(y, FdReadable(id, data, eof))
    ensures Inv(StepA(y, FdReadable(id, data, eof)))
  {
    hide For, Opens, Wire, Lone, Readable, StreamInv, LoneInv;
    var s, z := y.a.socks[id], StepA(y, FdReadable(id, data, eof));
    var e := Readable(s, id, data, eof);
    if id in y.aToB {
      hide StreamInv;
      var j := y.aToB[id];
      assert Stream(y, id);
      ReadPreserves(s, y.b.socks[j], For(y.ab, j), For(y.ba, id), id, j, data, eof);
      SentTo(e.sock, y.b.socks[j], For(y.ab, j), e.sent, For(y.ba, id), id, j);
      PutPreserves(y, z, id, e, false);
    } else {
      LoneOf(y, id);
      LoneReadable(s, id, data, eof, For(y.ba, id), Opens(y.ab, id));
      assert z.ab == y.ab;
      LonePreserves(y, z, id, e, false);
    }
  }

  lemma FdWritablePreserves(y: System, id: nat, k: nat, stop: WriteEnd)
    requires Inv(y) && Enabled(y, FdWritable(id, k, stop))
    ensures y.a.socks[id].status.Active? ==> y.a.socks[id].peer.Some?
    ensures Inv(StepA(y, FdWritable(id, k, stop)))
  {
    hide For, Opens, Wire, Lone, Writable, Addressed;
    var s, z := y.a.socks[id], StepA(y, FdWritable(id, k, stop));
    var e := Writable(s, id, k, stop);
    if id in y.aToB {
      hide StreamInv;
      var j := y.aToB[id];
      assert Stream(y, id);
      WritePreserves(s, y.b.socks[j], For(y.ab, j), For(y.ba, id), id, j, k, stop);
      SentTo(e.sock, y.b.socks[j], For(y.ab, j), e.sent, For(y.ba, id), id, j);
      PutPreserves(y, z, id, e, false);
    } else {
      LoneOf(y, id);
      assert false;
    }
  }

  /** The effect of a packet on the socket it is addressed to. */
  function Delivered(s: Socket, p: Packet, k: nat, stop: WriteEnd): Effect
    requires !p.Open? && (p.Wrte? ==> k <= |p.data|)
  {
    if !s.status.Active? then Effect(s, [])
    else match p
      case Okay(l, _) => Effect(Ready(s, l), [])
      case Clse(_, _) => Close(s)
      case Wrte(l, r, d) => Enqueue(s, r, l, d, k, stop)
  }

  lemma DeliveredPreserves(s: Socket, r: Socket, out: seq<Packet>, back: seq<Packet>, sid: nat, rid: nat, k: nat,
                           stop: WriteEnd)
    requires StreamInv(s, r, out, back, sid, rid) && back != [] && !back[0].Open? && back[0].remote == sid
    requires back[0].Wrte? ==> k <= |back[0].data|
    ensures var e := Delivered(s, back[0], k, stop);
            StreamInv(e.sock, r, out + e.sent, back[1..], sid, rid)
  {
    hide StreamInv, Ready, Close, Enqueue;
    if !s.status.Active? {
      IgnoredPreserves(s, r, out, back, sid, rid);
      assert out + [] == out;
    } else if back[0].Okay? {
      OkayPreserves(s, r, out, back, sid, rid);
      assert out + [] == out;
    } else if back[0].Clse? {
      ClsePreserves(s, r, out, back, sid, rid);
    } else {
      WrtePreserves(s, r, out, back, sid, rid, k, stop);
    }
  }

  lemma LoneDelivered(s: Socket, p: Packet, k: nat, stop: WriteEnd, arriving: seq<Packet>, opens: nat)
    requires LoneInv(s, arriving, opens) && arriving != [] && arriving[0] == p
    ensures p.Clse? && Delivered(s, p, k, stop).sent == []
    ensures LoneInv(Delivered(s, p, k, stop).sock, arriving[1..], opens)
  {}

  lemma ReceiveDelivers(y: System, accept: bool, k: nat, stop: WriteEnd)
    requires y.ba != [] && !y.ba[0].Open? && (y.ba[0].Wrte? ==> k <= |y.ba[0].data|)
    requires y.ba[0].remote in y.a.socks
    ensures var z, id := StepA(y, Receive(accept, k, stop)), y.ba[0].remote;
            var e := Delivered(y.a.socks[id], y.ba[0], k, stop);
            && z.a.nextId == y.a.nextId && z.a.socks == y.a.socks[id := e.sock]
            && z.b == y.b && z.aToB == y.aToB && z.bToA == y.bToA
            && z.ab == y.ab + e.sent && z.ba == y.ba[1..]
  {
    hide Ready, Close, Enqueue;
  }

  lemma ReceivedHead(y: System)
    requires Wire(Flip(y)) && y.ba != [] && !y.ba[0].Open?
    ensures var id := y.ba[0].remote;
            && id in y.a.socks && Addressed(y.ba[0], id)
            && For(y.ba, id) == [y.ba[0]] + For(y.ba[1..], id) && For(y.ba, id)[1..] == For(y.ba[1..], id)
  {
    ForHead(y.ba[0], y.ba[1..], y.ba[0].remote);
    assert y.ba == [y.ba[0]] + y.ba[1..];
  }

  lemma ReceivePreserves(y: System, accept: bool, k: nat, stop: WriteEnd)
    requires Inv(y) && y.ba != [] && !y.ba[0].Open? && (y.ba[0].Wrte? ==> k <= |y.ba[0].data|)
    ensures Inv(StepA(y, Receive(accept, k, stop)))
  {
    hide For, Opens, Wire, Lone, Delivered, StreamInv, Handle, Addressed, LoneInv;
    var p, z := y.ba[0], StepA(y, Receive(accept, k, stop));
    var id := p.remote;
    ReceivedHead(y);
    ReceiveDelivers(y, accept, k, stop);
    var s := y.a.socks[id];
    var e := Delivered(s, p, k, stop);
    if id in y.aToB {
      var j := y.aToB[id];
      assert Stream(y, id);
      DeliveredPreserves(s, y.b.socks[j], For(y.ab, j), For(y.ba, id), id, j, k, stop);
      SentTo(e.sock, y.b.socks[j], For(y.ab, j), e.sent, For(y.ba, id)[1..], id, j);
      PutPreserves(y, z, id, e, true);
    } else {
      LoneOf(y, id);
      LoneDelivered(s, p, k, stop, For(y.ba, id), Opens(y.ab, id));
      assert z.ab == y.ab;
      LonePreserves(y, z, id, e, true);
    }
  }

  lemma StepAPreserves(y: System, ev: Event)
    requires Inv(y) && Enabled(y, ev)
    ensures Inv(StepA(y, ev))
  {
    hide Inv;
    match ev {
      case Connect => ConnectPreserves(y);
      case Receive(accept, k, stop) =>
        if !y.ba[0].Open? { ReceivePreserves(y, accept, k, stop); }
        else if accept { AcceptPreserves(y); }
        else { RejectPreserves(y); }
      case FdReadable(id, data, eof) => FdReadablePreserves(y, id, data, eof);
      case FdWritable(id, k, stop) => FdWritablePreserves(y, id, k, stop);
    }
  }

  // ---- every run --------------------------------------------------------------------------

  /** ys is a run: it starts with no sockets and takes the moves ms. */
  ghost predicate IsRun(ys: seq<System>, ms: seq<Move>) {
    && |ys| == |ms| + 1 && ys[0] == INITIAL
    && forall k :: 0 <= k < |ms| ==> MoveEnabled(ys[k], ms[k]) && ys[k + 1] == Step(ys[k], ms[k])
  }

  lemma InitialInv()
    ensures Inv(INITIAL)
  {}

  lemma StepPreserves(y: System, m: Move)
    requires Inv(y) && MoveEnabled(y, m)
    ensures Inv(Step(y, m))
  {
    hide Inv;
    if m.AtA? {
      StepAPreserves(y, m.ev);
    } else {
      InvFlip(y);
      StepAPreserves(Flip(y), m.ev);
      InvFlip(StepA(Flip(y), m.ev));
    }
  }

  lemma {:induction false} RunInv(ys: seq<System>, ms: seq<Move>)
    requires IsRun(ys, ms)
    ensures forall k :: 0 <= k < |ys| ==> Inv(ys[k])
    decreases |ms|
  {
    hide Inv;
    if |ms| == 0 {
      InitialInv();
    } else {
      var n := |ms| - 1;
      RunInv(ys[..n + 1], ms[..n]);
      assert Inv(ys[n]) by { assert ys[..n + 1][n] == ys[n]; }
      StepPreserves(ys[n], ms[n]);
      forall k | 0 <= k < |ys| ensures Inv(ys[k]) {
        if k <= n { assert ys[..n + 1][k] == ys[k]; }
      }
    }
  }

  /**
   * One direction of a stream, from socket s to socket r with the packets out on the way: while r is listed, the
   * bytes read at s are those written at r, then r's queue, then the WRTE payloads on the way, in order; at all
   * times what was written at r is a prefix of what was read at s; and once r is destroyed without its fd having
   * reported EOF or an error, all of it was written.
   */
  ghost predicate Conveyed(s: Socket, r: Socket, out: seq<Packet>) {
    && (r.status.Active? ==> s.taken == r.given + Concat(r.queue) + Payload(out))
    && r.given <= s.taken
    && (r.status.Gone? && !r.faultOpen && !r.faultClosing ==> r.given == s.taken)
  }

  lemma HalfConveyed(s: Socket, r: Socket, out: seq<Packet>, back: seq<Packet>)
    requires SocketInv(r) && DirectionInv(s, r, out, back)
    ensures Conveyed(s, r, out)
  {
    hide Concat, Payload, Writes, Okays;
    if r.status.Active? {
      assert r.given <= r.given + Concat(r.queue) + Payload(out);
    } else if r.status.Closing? {
      assert r.given <= r.given + Concat(r.queue);
    }
  }

  /** Stream integrity: in every state of every run, both directions of every stream. */
  lemma StreamIntegrity(ys: seq<System>, ms: seq<Move>, n: nat, i: nat)
    requires IsRun(ys, ms) && n < |ys| && i in ys[n].aToB
    ensures var y, j := ys[n], ys[n].aToB[i];
            && i in y.a.socks && j in y.b.socks
            && Conveyed(y.a.socks[i], y.b.socks[j], For(y.ab, j))
            && Conveyed(y.b.socks[j], y.a.socks[i], For(y.ba, i))
  {
    hide For, DirectionInv, PacketsInv, SocketInv, Lone, Wire, Conveyed;
    RunInv(ys, ms);
    var y := ys[n];
    var j := y.aToB[i];
    assert Stream(y, i);
    HalfConveyed(y.a.socks[i], y.b.socks[j], For(y.ab, j), For(y.ba, i));
    HalfConveyed(y.b.socks[j], y.a.socks[i], For(y.ba, i), For(y.ab, j));
  }

  /** Every stream is in aToB and in bToA. */
  lemma BothNamed(ys: seq<System>, ms: seq<Move>, n: nat, j: nat)
    requires IsRun(ys, ms) && n < |ys| && j in ys[n].bToA
    ensures ys[n].bToA[j] in ys[n].aToB && ys[n].aToB[ys[n].bToA[j]] == j
  {
    RunInv(ys, ms);
    assert Ids(Flip(ys[n]));
  }

  /**
   * A socket on the closing list owes its fd exactly the queued bytes, and one destroyed has written all it owed
   * when it left the list unless its fd reported EOF or an error after that; and the peer is never null when a
   * listed socket drains its queue.
   */
  ghost predicate Draining(s: Socket) {
    && (s.status.Closing? ==> s.queue != [] && s.wantWrite && s.given + Concat(s.queue) == s.promise)
    && (s.status.Gone? && !s.faultClosing ==> s.given == s.promise)
    && (s.status.Active? && s.wantWrite ==> s.peer.Some?)
  }

  lemma InvDraining(y: System, i: nat)
    requires Inv(y) && i in y.a.socks
    ensures Draining(y.a.socks[i])
  {
    hide For, Payload, Writes, Okays, PacketsInv, Concat, Wire;
    if i in y.aToB {
      assert Stream(y, i);
    } else {
      LoneOf(y, i);
    }
  }

  /** Draining close: in every state of every run, every socket of both endpoints. */
  lemma DrainingClose(ys: seq<System>, ms: seq<Move>, n: nat, i: nat)
    requires IsRun(ys, ms) && n < |ys|
    ensures i in ys[n].a.socks ==> Draining(ys[n].a.socks[i])
    ensures i in ys[n].b.socks ==> Draining(ys[n].b.socks[i])
  {
    hide Inv, Draining;
    RunInv(ys, ms);
    InvFlip(ys[n]);
    if i in ys[n].a.socks { InvDraining(ys[n], i); }
    if i in ys[n].b.socks { InvDraining(Flip(ys[n]), i); }
  }
}
