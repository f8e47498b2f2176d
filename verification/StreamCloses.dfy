/**
 * What an end of a stream tells the other end when it closes, over a whole run: one CLSE if it ever knew the other
 * end, and none otherwise; and one CLSE for an OPEN that is refused.
 */
module StreamCloses {
  import opened Arith
  import opened Lists
  import opened StreamCredits
  import opened StreamRuns
  import opened Streams

  /** The CLSEs for socket j among the packets. */
  function Clses(sent: seq<Packet>, j: nat): nat {
    if sent == [] then 0 else (if sent[0].Clse? && sent[0].remote == j then 1 else 0) + Clses(sent[1..], j)
  }

  /** The CLSEs a has sent to b's socket j in the first n moves. */
  ghost function Closed(ys: seq<System>, ms: seq<Move>, n: nat, j: nat): nat
    requires IsRun(ys, ms) && n < |ys|
  {
    if n == 0 then 0
    else Closed(ys, ms, n - 1, j) + if ms[n - 1].AtA? then Clses(New(ys[n - 1], ys[n]), j) else 0
  }

  /** A socket that has left the list after it knew its peer. */
  predicate Left(s: Socket) { !s.status.Active? && s.mate.Some? }

  /**
   * The CLSEs a has sent to b's socket j: for the end of a stream, one if the other end has left, else none; for an
   * opener without an acceptor, one if its OPEN has been refused, else none.
   */
  ghost predicate Tally(y: System, j: nat, c: nat) {
    if j !in y.b.socks then c == 0
    else if j in y.bToA then
      y.bToA[j] in y.a.socks && c == if Left(y.a.socks[y.bToA[j]]) then 1 else 0
    else c + Opens(y.ba, j) == 1
  }

  // ---- the handlers -------------------------------------------------------------------------

  /** A handler sends a CLSE exactly when its socket leaves the list, to its peer; and it sends no OPEN. */
  ghost predicate Tells(s: Socket, e: Effect) {
    && (forall j: nat :: Clses(e.sent, j) == if s.mate == Some(j) && Left(e.sock) && !Left(s) then 1 else 0)
    && (Left(s) ==> Left(e.sock)) && (s.mate.None? ==> !Left(e.sock))
    && forall k :: 0 <= k < |e.sent| ==> !e.sent[k].Open?
  }

  ghost predicate Linked(s: Socket) { if s.status.Active? then s.peer == s.mate else s.peer.None? }

  lemma OneClse(p: Packet, j: nat)
    ensures Clses([], j) == 0 && Clses([p], j) == if p.Clse? && p.remote == j then 1 else 0
  {
    assert [p][1..] == [];
  }

  lemma NothingTold(s: Socket, e: Effect)
    requires e.sent == [] || (|e.sent| == 1 && !e.sent[0].Clse? && !e.sent[0].Open?)
    requires Left(s) == Left(e.sock) && (s.mate.None? ==> !Left(e.sock))
    ensures Tells(s, e)
  {
    hide Left;
    forall j: nat ensures Clses(e.sent, j) == 0 {
      if e.sent == [] { OneClse(Open(0), j); } else { OneClse(e.sent[0], j); assert e.sent == [e.sent[0]]; }
    }
  }

  lemma CloseTells(s: Socket)
    requires Linked(s)
    ensures Tells(s, Close(s))
  {
    hide Clses, Concat;
    var p := if s.peer.Some? then Clse(0, s.peer.value) else Open(0);
    var e := Close(s);
    forall j: nat ensures Clses(e.sent, j) == if s.mate == Some(j) && Left(e.sock) && !Left(s) then 1 else 0 {
      OneClse(p, j);
    }
  }

  lemma FaultTells(s: Socket)
    requires Linked(s)
    ensures Tells(s, Fault(s))
  {
    hide Close, Clses;
    CloseTells(if s.status.Active? then s.(faultOpen := true) else s.(faultClosing := true));
  }

  lemma SameMate(s: Socket, s1: Socket, e: Effect)
    requires Tells(s1, e) && s.mate == s1.mate && s.status == s1.status
    ensures Tells(s, e)
  {}

  lemma EnqueueTells(s: Socket, id: nat, from: nat, data: seq<Byte>, k: nat, stop: WriteEnd)
    requires Linked(s) && k <= |data|
    ensures Tells(s, Enqueue(s, id, from, data, k, stop))
  {
    hide Fault, Clses, Tells;
    var e := Enqueue(s, id, from, data, k, stop);
    if s.queue == [] && k < |data| && stop.Failed? {
      var s1 := s.(given := s.given + data[..k]);
      FaultTells(s1);
      SameMate(s, s1, e);
    } else {
      NothingTold(s, e);
    }
  }

  lemma WritableTells(s: Socket, id: nat, k: nat, stop: WriteEnd)
    requires Linked(s) && k <= |Concat(s.queue)|
    ensures Tells(s, Writable(s, id, k, stop))
  {
    hide Fault, Close, Clses, Tells, Concat, Drop;
    var e, s1 := Writable(s, id, k, stop), Written(s, k);
    if k == |Concat(s.queue)| && s.status.Closing? {
      CloseTells(s1);
      SameMate(s, s1, e);
    } else if k < |Concat(s.queue)| && stop.Failed? {
      FaultTells(s1);
      SameMate(s, s1, e);
    } else {
      NothingTold(s, e);
    }
  }

  lemma Behind(p: Packet, more: seq<Packet>, j: nat)
    requires !p.Clse?
    ensures Clses([p] + more, j) == Clses(more, j)
  {
    assert ([p] + more)[1..] == more;
  }

  lemma SameCount(s: Socket, f: Effect, e: Effect)
    requires Tells(s, f) && e.sock == f.sock && forall j: nat :: Clses(e.sent, j) == Clses(f.sent, j)
    requires forall k :: 0 <= k < |e.sent| ==> !e.sent[k].Open?
    ensures Tells(s, e)
  {}

  lemma ReadableTells(s: Socket, id: nat, data: seq<Byte>, eof: bool)
    requires Linked(s)
    ensures Tells(s, Readable(s, id, data, eof))
  {
    hide Fault, Clses;
    var half := Readable(s, id, data, false);
    hide Tells;
    if !eof {
      NothingTold(s, half);
    } else {
      var f, e := Fault(half.sock), Readable(s, id, data, true);
      FaultTells(half.sock);
      SameMate(s, half.sock, f);
      forall j: nat ensures Clses(e.sent, j) == Clses(f.sent, j) {
        if half.sent == [] { assert [] + f.sent == f.sent; } else { Behind(half.sent[0], f.sent, j); }
      }
      assert forall k :: 0 <= k < |f.sent| ==> !f.sent[k].Open? by { QuietFault(half.sock); }
      SameCount(s, f, e);
    }
  }

  lemma DeliveredTells(s: Socket, p: Packet, k: nat, stop: WriteEnd)
    requires Linked(s) && !p.Open? && (p.Wrte? ==> k <= |p.data|)
    ensures Tells(s, Delivered(s, p, k, stop))
  {
    hide Close, Enqueue, Clses, Tells;
    if s.status.Active? && p.Clse? {
      CloseTells(s);
    } else if s.status.Active? && p.Wrte? {
      EnqueueTells(s, p.remote, p.local, p.data, k, stop);
    } else {
      NothingTold(s, Delivered(s, p, k, stop));
    }
  }

  // ---- one move -----------------------------------------------------------------------------

  /** A socket knows no peer but the other end of its stream. */
  lemma Mated(y: System, i: nat)
    requires Inv(y) && i in y.a.socks
    ensures Linked(y.a.socks[i])
    ensures y.a.socks[i].mate.Some? ==> i in y.aToB && y.a.socks[i].mate == Some(y.aToB[i])
  {
    hide For, Opens, Wire, PacketsInv, DirectionInv;
    if i in y.aToB { assert Stream(y, i); } else { LoneOf(y, i); }
  }

  /** A handler of a's socket i, which may have taken a packet that is not an OPEN. */
  lemma PutTally(y: System, z: System, i: nat, e: Effect, j: nat, c: nat)
    requires Inv(y) && Tally(y, j, c) && i in y.a.socks && Tells(y.a.socks[i], e)
    requires z.a.socks == y.a.socks[i := e.sock] && z.b == y.b && z.bToA == y.bToA && z.ab == y.ab + e.sent
    requires Opens(z.ba, j) == Opens(y.ba, j)
    ensures Tally(z, j, c + Clses(New(y, z), j))
  {
    hide Clses, Opens, Lone, Wire, AllStreams, Linked;
    Appended(y.ab, e.sent);
    Mated(y, i);
    assert Ids(y) && Ids(Flip(y));
  }

  lemma ReceiveTally(y: System, accept: bool, k: nat, stop: WriteEnd, j: nat, c: nat)
    requires Inv(y) && Tally(y, j, c) && Enabled(y, Receive(accept, k, stop)) && !y.ba[0].Open?
    ensures var z := StepA(y, Receive(accept, k, stop)); Tally(z, j, c + Clses(New(y, z), j))
  {
    hide Handle, Delivered, Clses, For, Opens, Tally, Tells, Linked, Lone, AllStreams;
    var p := y.ba[0];
    ReceivedHead(y);
    ReceiveDelivers(y, accept, k, stop);
    var s, z := y.a.socks[p.remote], StepA(y, Receive(accept, k, stop));
    Mated(y, p.remote);
    DeliveredTells(s, p, k, stop);
    ForHead(p, y.ba[1..], j);
    assert y.ba == [p] + y.ba[1..];
    PutTally(y, z, p.remote, Delivered(s, p, k, stop), j, c);
  }

  lemma FdTally(y: System, ev: Event, j: nat, c: nat)
    requires Inv(y) && Tally(y, j, c) && Enabled(y, ev) && (ev.FdReadable? || ev.FdWritable?)
    ensures var z := StepA(y, ev); Tally(z, j, c + Clses(New(y, z), j))
  {
    hide Readable, Writable, Clses, Opens, Tally, Tells, Linked, Inv, Concat;
    var s, z := y.a.socks[ev.id], StepA(y, ev);
    Mated(y, ev.id);
    match ev
    case FdReadable(id, data, eof) =>
      ReadableTells(s, id, data, eof);
      PutTally(y, z, id, Readable(s, id, data, eof), j, c);
    case FdWritable(id, k, stop) =>
      WritableTells(s, id, k, stop);
      PutTally(y, z, id, Writable(s, id, k, stop), j, c);
  }

  lemma OpenTally(y: System, accept: bool, j: nat, c: nat)
    requires Inv(y) && Tally(y, j, c) && y.ba != [] && y.ba[0].Open?
    ensures var z := StepA(y, Receive(accept, 0, Blocked)); Tally(z, j, c + Clses(New(y, z), j))
  {
    hide Clses, For, Opens, Lone, Wire, AllStreams, SocketInv;
    OpenerOf(y);
    var l := y.ba[0].local;
    var reply := if accept then Okay(y.a.nextId, l) else Clse(0, l);
    Appended(y.ab, [reply]);
    OneClse(reply, j);
    Taken(y, j);
  }

  lemma ConnectTally(y: System, j: nat, c: nat)
    requires Inv(y) && Tally(y, j, c)
    ensures var z := StepA(y, Connect); Tally(z, j, c + Clses(New(y, z), j))
  {
    hide Clses, For, Opens, Lone, Wire, AllStreams;
    Appended(y.ab, [Open(y.a.nextId)]);
    OneClse(Open(y.a.nextId), j);
  }

  lemma OwnTally(y: System, ev: Event, j: nat, c: nat)
    requires Inv(y) && Tally(y, j, c) && Enabled(y, ev)
    ensures var z := StepA(y, ev); Tally(z, j, c + Clses(New(y, z), j))
  {
    hide Inv, Clses, Tally, StepA, Concat;
    match ev {
      case Connect => ConnectTally(y, j, c);
      case Receive(accept, k, stop) =>
        if y.ba[0].Open? {
          SameOpen(y, accept, k, stop);
          OpenTally(y, accept, j, c);
        } else {
          ReceiveTally(y, accept, k, stop, j, c);
        }
      case FdReadable(id, data, eof) => FdTally(y, ev, j, c);
      case FdWritable(id, k, stop) => FdTally(y, ev, j, c);
    }
  }

  lemma PutFar(x: System, z: System, i: nat, e: Effect, j: nat, c: nat)
    requires Tally(Flip(x), j, c) && i in x.a.socks && Tells(x.a.socks[i], e)
    requires z.a.socks == x.a.socks[i := e.sock] && z.b == x.b && z.aToB == x.aToB && z.ab == x.ab + e.sent
    ensures Tally(Flip(z), j, c)
  {
    hide Clses, Opens, For;
    OpensOnly(e.sent, j);
    ForAppend(x.ab, e.sent, j);
  }

  lemma ReceiveFar(x: System, accept: bool, k: nat, stop: WriteEnd, j: nat, c: nat)
    requires Inv(x) && Tally(Flip(x), j, c) && Enabled(x, Receive(accept, k, stop)) && !x.ba[0].Open?
    ensures Tally(Flip(StepA(x, Receive(accept, k, stop))), j, c)
  {
    hide Handle, Delivered, For, Opens, Tally, Tells, Linked, Lone, AllStreams;
    var p := x.ba[0];
    ReceivedHead(x);
    ReceiveDelivers(x, accept, k, stop);
    Mated(x, p.remote);
    DeliveredTells(x.a.socks[p.remote], p, k, stop);
    PutFar(x, StepA(x, Receive(accept, k, stop)), p.remote, Delivered(x.a.socks[p.remote], p, k, stop), j, c);
  }

  lemma FdFar(x: System, ev: Event, j: nat, c: nat)
    requires Inv(x) && Tally(Flip(x), j, c) && Enabled(x, ev) && (ev.FdReadable? || ev.FdWritable?)
    ensures Tally(Flip(StepA(x, ev)), j, c)
  {
    hide Readable, Writable, Opens, Tally, Tells, Linked, Inv, Concat;
    var s, z := x.a.socks[ev.id], StepA(x, ev);
    Mated(x, ev.id);
    match ev
    case FdReadable(id, data, eof) =>
      ReadableTells(s, id, data, eof);
      PutFar(x, z, id, Readable(s, id, data, eof), j, c);
    case FdWritable(id, k, stop) =>
      WritableTells(s, id, k, stop);
      PutFar(x, z, id, Writable(s, id, k, stop), j, c);
  }

  lemma OpenFar(x: System, accept: bool, j: nat, c: nat)
    requires Inv(x) && Tally(Flip(x), j, c) && x.ba != [] && x.ba[0].Open?
    ensures Tally(Flip(StepA(x, Receive(accept, 0, Blocked))), j, c)
  {
    hide For, Opens, Lone, Wire, AllStreams, SocketInv;
    OpenerOf(x);
    var l := x.ba[0].local;
    Replied(x.ab, if accept then Okay(x.a.nextId, l) else Clse(0, l), j);
    assert Ids(x);
  }

  lemma ConnectFar(x: System, j: nat, c: nat)
    requires Inv(x) && Tally(Flip(x), j, c)
    ensures Tally(Flip(StepA(x, Connect)), j, c)
  {
    hide For, Opens, Lone, Wire, AllStreams;
    Unaddressed(x, x.a.nextId);
    OpenSent(x, j);
  }

  /** A move of the endpoint the CLSEs go to. */
  lemma FarTally(x: System, ev: Event, j: nat, c: nat)
    requires Inv(x) && Tally(Flip(x), j, c) && Enabled(x, ev)
    ensures Tally(Flip(StepA(x, ev)), j, c)
  {
    hide Inv, Tally, StepA, Concat;
    match ev {
      case Connect => ConnectFar(x, j, c);
      case Receive(accept, k, stop) =>
        if x.ba[0].Open? {
          SameOpen(x, accept, k, stop);
          OpenFar(x, accept, j, c);
        } else {
          ReceiveFar(x, accept, k, stop, j, c);
        }
      case FdReadable(id, data, eof) => FdFar(x, ev, j, c);
      case FdWritable(id, k, stop) => FdFar(x, ev, j, c);
    }
  }

  // ---- every run ----------------------------------------------------------------------------

  lemma InitialTally(j: nat)
    ensures Tally(INITIAL, j, 0)
  {}

  lemma {:induction false} ClosesTally(ys: seq<System>, ms: seq<Move>, n: nat, j: nat)
    requires IsRun(ys, ms) && n < |ys|
    ensures Tally(ys[n], j, Closed(ys, ms, n, j))
  {
    hide Inv, StepA, Enabled, Tally, Clses;
    if n == 0 {
      InitialTally(j);
    } else {
      ClosesTally(ys, ms, n - 1, j);
      RunInv(ys, ms);
      var y, m, c := ys[n - 1], ms[n - 1], Closed(ys, ms, n - 1, j);
      assert MoveEnabled(y, m) && ys[n] == Step(y, m) && Inv(y);
      if m.AtA? {
        OwnTally(y, m.ev, j, c);
      } else {
        InvFlip(y);
        FarTally(Flip(y), m.ev, j, c);
      }
    }
  }

  /**
   * The close handshake, in every state of every run: an end of a stream that has left the list has sent the other
   * end exactly one CLSE if it ever knew it and none otherwise, a listed end none; and while the other end is listed
   * that CLSE is the last packet on the way to it.
   */
  lemma CloseHandshake(ys: seq<System>, ms: seq<Move>, n: nat, i: nat)
    requires IsRun(ys, ms) && n < |ys| && i in ys[n].aToB
    ensures IsRun(FlipRun(ys), SwapAll(ms))
    ensures var y, j := ys[n], ys[n].aToB[i];
            && i in y.a.socks && j in y.b.socks
            && Told(y.a.socks[i], y.b.socks[j], For(y.ab, j)) && Told(y.b.socks[j], y.a.socks[i], For(y.ba, i))
            && Closed(ys, ms, n, j) == (if Left(y.a.socks[i]) then 1 else 0)
            && Closed(FlipRun(ys), SwapAll(ms), n, i) == (if Left(y.b.socks[j]) then 1 else 0)
  {
    hide For, PacketsInv, DirectionInv, SocketInv, Lone, Wire, Told, Closed, IsRun;
    FlipIsRun(ys, ms);
    RunInv(ys, ms);
    assert Stream(ys[n], i);
    ClosesTally(ys, ms, n, ys[n].aToB[i]);
    ClosesTally(FlipRun(ys), SwapAll(ms), n, i);
    assert FlipRun(ys)[n] == Flip(ys[n]);
  }

  /** The packets on the way to an opener without an acceptor, the OPENs it has on the way, and the CLSEs sent to it. */
  ghost predicate Refused(s: Socket, arriving: seq<Packet>, opens: nat, closes: nat) {
    && closes + opens == 1 && |arriving| <= closes && (arriving != [] ==> arriving[0].Clse?)
    && (s.status.Active? ==> |arriving| == closes)
  }

  lemma LoneRefused(s: Socket, arriving: seq<Packet>, opens: nat, closes: nat)
    requires LoneInv(s, arriving, opens) && closes + opens == 1
    ensures Refused(s, arriving, opens, closes)
  {}

  /**
   * An opener without an acceptor, at either endpoint and in every state of every run: its OPEN is on the way, or it
   * has been sent exactly one CLSE, and while it is listed that CLSE is on the way.
   */
  lemma RefusedOpens(ys: seq<System>, ms: seq<Move>, n: nat, j: nat)
    requires IsRun(ys, ms) && n < |ys|
    ensures IsRun(FlipRun(ys), SwapAll(ms))
    ensures j in ys[n].b.socks && j !in ys[n].bToA ==>
              Refused(ys[n].b.socks[j], For(ys[n].ab, j), Opens(ys[n].ba, j), Closed(ys, ms, n, j))
    ensures j in ys[n].a.socks && j !in ys[n].aToB ==>
              Refused(ys[n].a.socks[j], For(ys[n].ba, j), Opens(ys[n].ab, j), Closed(FlipRun(ys), SwapAll(ms), n, j))
  {
    hide For, Opens, Wire, AllStreams, Closed, IsRun, LoneInv, Refused;
    FlipIsRun(ys, ms);
    RunInv(ys, ms);
    var y, c, d := ys[n], Closed(ys, ms, n, j), Closed(FlipRun(ys), SwapAll(ms), n, j);
    ClosesTally(ys, ms, n, j);
    ClosesTally(FlipRun(ys), SwapAll(ms), n, j);
    assert FlipRun(ys)[n] == Flip(y) && Inv(y);
    if j in y.b.socks && j !in y.bToA {
      LoneOf(Flip(y), j);
      LoneRefused(y.b.socks[j], For(y.ab, j), Opens(y.ba, j), c);
    }
    if j in y.a.socks && j !in y.aToB {
      LoneOf(y, j);
      LoneRefused(y.a.socks[j], For(y.ba, j), Opens(y.ab, j), d);
    }
  }

  /** No socket of either endpoint is ever sent a second CLSE. */
  lemma AtMostOneClse(ys: seq<System>, ms: seq<Move>, n: nat, j: nat)
    requires IsRun(ys, ms) && n < |ys|
    ensures IsRun(FlipRun(ys), SwapAll(ms))
    ensures Closed(ys, ms, n, j) <= 1 && Closed(FlipRun(ys), SwapAll(ms), n, j) <= 1
  {
    hide IsRun, Closed;
    FlipIsRun(ys, ms);
    ClosesTally(ys, ms, n, j);
    ClosesTally(FlipRun(ys), SwapAll(ms), n, j);
  }
}
