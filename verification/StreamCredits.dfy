/**
 * The credits of a stream as an account kept over a whole run: a socket asks with an OPEN or a WRTE, and an OKAY
 * that reaches it answers.
 */
module StreamCredits {
  import opened Arith
  import opened Lists
  import opened Streams
  import opened StreamRuns

  /** The OPENs and WRTEs of socket i among the packets. */
  function Asks(sent: seq<Packet>, i: nat): nat {
    if sent == [] then 0
    else (if (sent[0].Open? || sent[0].Wrte?) && sent[0].local == i then 1 else 0) + Asks(sent[1..], i)
  }

  /** The packets a has added on the way from y to z. */
  function New(y: System, z: System): seq<Packet> { if |y.ab| <= |z.ab| then z.ab[|y.ab|..] else [] }

  /** The OPENs and WRTEs that a's socket i sends in a move. */
  function Asked(y: System, m: Move, i: nat): nat
    requires MoveEnabled(y, m)
  {
    if m.AtA? then Asks(New(y, Step(y, m)), i) else 0
  }

  /** The OKAYs that reach a's socket i in a move. */
  function Answered(y: System, m: Move, i: nat): nat
    requires MoveEnabled(y, m)
  {
    if m.AtA? && m.ev.Receive? && y.ba[0].Okay? && y.ba[0].remote == i && Found(y.a, i) then 1 else 0
  }

  /** The OPENs and WRTEs a's socket i has sent in the first n moves, less the OKAYs that have reached it. */
  ghost function Owed(ys: seq<System>, ms: seq<Move>, n: nat, i: nat): int
    requires IsRun(ys, ms) && n < |ys|
  {
    if n == 0 then 0 else Owed(ys, ms, n - 1, i) + Asked(ys[n - 1], ms[n - 1], i) - Answered(ys[n - 1], ms[n - 1], i)
  }

  /** A socket never owes more than one; a listed one owes one exactly while it does not listen to its fd. */
  ghost predicate Balanced(e: Endpoint, i: nat, c: int) {
    if i !in e.socks then c == 0
    else 0 <= c <= 1 && (e.socks[i].status.Active? ==> (c == 0 <==> e.socks[i].wantRead))
  }

  // ---- one move ---------------------------------------------------------------------------

  lemma NoAsks(sent: seq<Packet>, i: nat)
    requires |sent| <= 1 && (sent != [] ==> !sent[0].Open? && !sent[0].Wrte?)
    ensures Asks(sent, i) == 0
  {}

  lemma OneAsk(p: Packet, more: seq<Packet>, i: nat)
    requires (p.Open? || p.Wrte?) && |more| <= 1 && (more != [] ==> !more[0].Open? && !more[0].Wrte?)
    ensures Asks([p] + more, i) == if p.local == i then 1 else 0
  {
    assert ([p] + more)[1..] == more;
    NoAsks(more, i);
  }

  lemma Appended(ab: seq<Packet>, sent: seq<Packet>)
    ensures (ab + sent)[|ab|..] == sent
  {}

  /** What a handler of socket id does to its account: it sends n WRTEs, and listens no more if that is one. */
  ghost predicate Charged(s: Socket, e: Effect, id: nat, n: nat) {
    && (forall i :: Asks(e.sent, i) == if i == id then n else 0)
    && n <= 1 && (n == 1 ==> s.status.Active? && s.wantRead)
    && (e.sock.status.Active? ==> s.status.Active? && (e.sock.wantRead <==> s.wantRead && n == 0))
  }

  lemma PutStep(y: System, id: nat, e: Effect, n: nat, i: nat, c: int)
    requires id in y.a.socks && Charged(y.a.socks[id], e, id, n) && Balanced(y.a, i, c)
    ensures Balanced(Put(y, id, e).a, i, c + Asks(New(y, Put(y, id, e)), i))
  {
    hide Asks;
    Appended(y.ab, e.sent);
  }

  lemma QuietClose(s: Socket)
    ensures Close(s).sock.status != Active && |Close(s).sent| <= 1
    ensures forall k :: 0 <= k < |Close(s).sent| ==> Close(s).sent[k].Clse?
  {
    hide Concat;
  }

  lemma CloseCharged(s: Socket, id: nat)
    ensures Charged(s, Close(s), id, 0)
  {
    hide Asks, Close;
    QuietClose(s);
    forall i ensures Asks(Close(s).sent, i) == 0 { NoAsks(Close(s).sent, i); }
  }

  lemma QuietFault(s: Socket)
    ensures Fault(s).sock.status != Active && |Fault(s).sent| <= 1
    ensures forall k :: 0 <= k < |Fault(s).sent| ==> Fault(s).sent[k].Clse?
  {
    hide Close;
    QuietClose(if s.status.Active? then s.(faultOpen := true) else s.(faultClosing := true));
  }

  lemma WritableCharged(s: Socket, id: nat, k: nat, stop: WriteEnd)
    requires k <= |Concat(s.queue)| && !s.status.Gone?
    ensures Charged(s, Writable(s, id, k, stop), id, 0)
  {
    hide Asks, Close, Fault, Concat, Drop;
    var e := Writable(s, id, k, stop);
    QuietClose(Written(s, k));
    QuietFault(Written(s, k));
    forall i ensures Asks(e.sent, i) == 0 { NoAsks(e.sent, i); }
  }

  lemma EnqueueCharged(s: Socket, id: nat, from: nat, data: seq<Byte>, k: nat, stop: WriteEnd)
    requires k <= |data| && s.status.Active?
    ensures Charged(s, Enqueue(s, id, from, data, k, stop), id, 0)
  {
    hide Asks, Close, Fault, Concat;
    var e := Enqueue(s, id, from, data, k, stop);
    QuietFault(s.(given := s.given + data[..k]));
    forall i ensures Asks(e.sent, i) == 0 { NoAsks(e.sent, i); }
  }

  lemma ReadableCharged(s: Socket, id: nat, data: seq<Byte>, eof: bool)
    requires s.status.Closing? || (s.status.Active? && (data != [] ==> s.wantRead && s.peer.Some?))
    ensures Charged(s, Readable(s, id, data, eof), id, if s.status.Active? && data != [] then 1 else 0)
  {
    hide Asks, Fault;
    var e, half := Readable(s, id, data, eof), Readable(s, id, data, false);
    QuietFault(half.sock);
    var f := if eof then Fault(half.sock).sent else [];
    forall i ensures Asks(e.sent, i) == if i == id && s.status.Active? && data != [] then 1 else 0 {
      if s.status.Active? && data != [] {
        assert half.sent + [] == half.sent;
        OneAsk(Wrte(id, s.peer.value, data), f, i);
      } else {
        assert [] + f == f;
        NoAsks(f, i);
      }
    }
  }

  lemma ConnectStep(y: System, i: nat, c: int)
    requires Balanced(y.a, i, c) && Ids(y)
    ensures var z := StepA(y, Connect); Balanced(z.a, i, c + Asks(New(y, z), i))
  {
    hide Asks;
    var p := Open(y.a.nextId);
    Appended(y.ab, [p]);
    assert [p] == [p] + [];
    OneAsk(p, [], i);
  }

  /** A listed socket that listens to its fd has a peer. */
  lemma Listening(y: System, id: nat)
    requires Inv(y) && id in y.a.socks
    ensures SocketInv(y.a.socks[id])
    ensures y.a.socks[id].status.Active? && y.a.socks[id].wantRead ==> y.a.socks[id].peer.Some?
  {
    hide For, PacketsInv, DirectionInv, Wire;
    if id in y.aToB { assert Stream(y, id); } else { LoneOf(y, id); }
  }

  /** An OKAY finds its socket not listening. */
  lemma OkayAwaited(y: System)
    requires Inv(y) && y.ba != [] && y.ba[0].Okay? && Found(y.a, y.ba[0].remote)
    ensures !y.a.socks[y.ba[0].remote].wantRead
  {
    hide Wire, PacketsInv, Concat;
    var id := y.ba[0].remote;
    if id in y.aToB { assert Stream(y, id); } else { LoneOf(y, id); }
  }

  lemma OpenStep(y: System, accept: bool, i: nat, c: int)
    requires Ids(y) && Balanced(y.a, i, c) && y.ba != [] && y.ba[0].Open?
    ensures var z := StepA(y, Receive(accept, 0, Blocked)); Balanced(z.a, i, c + Asks(New(y, z), i))
  {
    hide Asks;
    var l := y.ba[0].local;
    var reply := if accept then Okay(y.a.nextId, l) else Clse(0, l);
    Appended(y.ab, [reply]);
    NoAsks([reply], i);
  }

  lemma OkayStep(y: System, accept: bool, k: nat, stop: WriteEnd, i: nat, c: int)
    requires Inv(y) && Balanced(y.a, i, c) && y.ba != [] && y.ba[0].Okay?
    ensures var m, z := AtA(Receive(accept, k, stop)), StepA(y, Receive(accept, k, stop));
            Balanced(z.a, i, c + Asks(New(y, z), i) - Answered(y, m, i))
  {
    hide Asks, Inv;
    Appended(y.ab, []);
    assert y.ab + [] == y.ab;
    NoAsks([], i);
    if Found(y.a, y.ba[0].remote) { OkayAwaited(y); }
  }

  lemma PacketStep(y: System, accept: bool, k: nat, stop: WriteEnd, i: nat, c: int)
    requires Ids(y) && Balanced(y.a, i, c) && Enabled(y, Receive(accept, k, stop)) && (y.ba[0].Clse? || y.ba[0].Wrte?)
    ensures var z := StepA(y, Receive(accept, k, stop)); Balanced(z.a, i, c + Asks(New(y, z), i))
  {
    hide Asks, Close, Enqueue, Charged, Balanced;
    var x, p := y.(ba := y.ba[1..]), y.ba[0];
    var r := p.remote;
    if Found(y.a, r) {
      var s := y.a.socks[r];
      if p.Clse? {
        CloseCharged(s, r);
        PutStep(x, r, Close(s), 0, i, c);
      } else {
        EnqueueCharged(s, r, p.local, p.data, k, stop);
        PutStep(x, r, Enqueue(s, r, p.local, p.data, k, stop), 0, i, c);
      }
    } else {
      assert y.ab[|y.ab|..] == [];
      NoAsks([], i);
    }
  }

  lemma FdStep(y: System, ev: Event, i: nat, c: int)
    requires Inv(y) && Balanced(y.a, i, c) && Enabled(y, ev) && (ev.FdReadable? || ev.FdWritable?)
    ensures var z := StepA(y, ev); Balanced(z.a, i, c + Asks(New(y, z), i))
  {
    hide Asks, Readable, Writable, Inv, Charged, Balanced, SocketInv, Concat;
    var s := y.a.socks[ev.id];
    match ev
    case FdReadable(id, data, eof) =>
      Listening(y, id);
      ReadableCharged(s, id, data, eof);
      PutStep(y, id, Readable(s, id, data, eof), if s.status.Active? && data != [] then 1 else 0, i, c);
    case FdWritable(id, k, stop) =>
      WritableCharged(s, id, k, stop);
      PutStep(y, id, Writable(s, id, k, stop), 0, i, c);
  }

  lemma SameOpen(y: System, accept: bool, k: nat, stop: WriteEnd)
    requires y.ba != [] && y.ba[0].Open?
    ensures StepA(y, Receive(accept, k, stop)) == StepA(y, Receive(accept, 0, Blocked))
  {}

  lemma Numbered(y: System)
    requires Inv(y)
    ensures Ids(y)
  {}

  lemma OwnStep(y: System, ev: Event, i: nat, c: int)
    requires Inv(y) && Balanced(y.a, i, c) && Enabled(y, ev)
    ensures var m, z := AtA(ev), StepA(y, ev); Balanced(z.a, i, c + Asks(New(y, z), i) - Answered(y, m, i))
  {
    hide Inv, Asks, Balanced, Ids, StepA, Concat;
    Numbered(y);
    match ev {
      case Connect => ConnectStep(y, i, c);
      case Receive(accept, k, stop) =>
        if y.ba[0].Open? {
          SameOpen(y, accept, k, stop);
          OpenStep(y, accept, i, c);
        } else if y.ba[0].Okay? {
          OkayStep(y, accept, k, stop, i, c);
        } else {
          PacketStep(y, accept, k, stop, i, c);
        }
      case FdReadable(id, data, eof) => FdStep(y, ev, i, c);
      case FdWritable(id, k, stop) => FdStep(y, ev, i, c);
    }
  }

  /** A move of one endpoint leaves the sockets of the other alone, and only adds to its own packets. */
  lemma OtherEnd(y: System, ev: Event)
    requires Enabled(y, ev)
    ensures StepA(y, ev).b == y.b && y.ab <= StepA(y, ev).ab
  {
    hide Concat, Drop;
  }

  lemma MoveStep(y: System, m: Move, i: nat, c: int)
    requires Inv(y) && MoveEnabled(y, m) && Balanced(y.a, i, c)
    ensures Balanced(Step(y, m).a, i, c + Asked(y, m, i) - Answered(y, m, i))
  {
    hide Inv, Enabled, StepA, Balanced, Asks;
    if m.AtA? {
      OtherEnd(y, m.ev);
      OwnStep(y, m.ev, i, c);
    } else {
      OtherEnd(Flip(y), m.ev);
    }
  }

  // ---- every run --------------------------------------------------------------------------

  lemma {:induction false} Account(ys: seq<System>, ms: seq<Move>, n: nat, i: nat)
    requires IsRun(ys, ms) && n < |ys|
    ensures Balanced(ys[n].a, i, Owed(ys, ms, n, i))
  {
    hide Inv, Step, Asked, Answered, MoveEnabled;
    if n > 0 {
      Account(ys, ms, n - 1, i);
      RunInv(ys, ms);
      assert Inv(ys[n - 1]) && MoveEnabled(ys[n - 1], ms[n - 1]) && ys[n] == Step(ys[n - 1], ms[n - 1]);
      MoveStep(ys[n - 1], ms[n - 1], i, Owed(ys, ms, n - 1, i));
    }
  }

  function Swap(m: Move): Move { if m.AtA? then AtB(m.ev) else AtA(m.ev) }

  /** The same run with the names of the endpoints exchanged. */
  ghost function FlipRun(ys: seq<System>): (zs: seq<System>)
    ensures |zs| == |ys| && forall k :: 0 <= k < |ys| ==> zs[k] == Flip(ys[k])
  {
    seq(|ys|, k requires 0 <= k < |ys| => Flip(ys[k]))
  }

  ghost function SwapAll(ms: seq<Move>): (ns: seq<Move>)
    ensures |ns| == |ms| && forall k :: 0 <= k < |ms| ==> ns[k] == Swap(ms[k])
  {
    seq(|ms|, k requires 0 <= k < |ms| => Swap(ms[k]))
  }

  lemma FlipIsRun(ys: seq<System>, ms: seq<Move>)
    requires IsRun(ys, ms)
    ensures IsRun(FlipRun(ys), SwapAll(ms))
  {
    hide StepA, Enabled;
    var zs, ns := FlipRun(ys), SwapAll(ms);
    forall k | 0 <= k < |ns| ensures MoveEnabled(zs[k], ns[k]) && zs[k + 1] == Step(zs[k], ns[k]) {
      assert MoveEnabled(ys[k], ms[k]) && ys[k + 1] == Step(ys[k], ms[k]);
      assert zs[k] == Flip(ys[k]) && zs[k + 1] == Flip(ys[k + 1]) && ns[k] == Swap(ms[k]);
    }
  }

  /** The credits of the direction from s to r that are not at s: WRTEs on the way, r's queue, OKAYs on the way back. */
  function Away(r: Socket, out: seq<Packet>, back: seq<Packet>): nat {
    Writes(out) + (if r.queue != [] then 1 else 0) + Okays(back)
  }

  /**
   * One direction of a stream and the account of its sender: there is at most one credit, and exactly one while both
   * ends are listed. The sender owes 0 or 1, and while both ends are listed it owes 1 exactly if the credit is away.
   */
  ghost predicate Conserved(s: Socket, r: Socket, out: seq<Packet>, back: seq<Packet>, owed: int) {
    && Tokens(s, r, out, back) <= 1 && |r.queue| <= 1 && 0 <= owed <= 1
    && (s.status.Active? ==> (owed == 1 <==> !s.wantRead))
    && (s.status.Active? && r.status.Active? ==> Tokens(s, r, out, back) == 1 && owed == Away(r, out, back))
  }

  /** Credit conservation: in every state of every run, both directions of every stream. */
  lemma CreditConservation(ys: seq<System>, ms: seq<Move>, n: nat, i: nat)
    requires IsRun(ys, ms) && n < |ys| && i in ys[n].aToB
    ensures IsRun(FlipRun(ys), SwapAll(ms))
    ensures var y, j := ys[n], ys[n].aToB[i];
            && i in y.a.socks && j in y.b.socks
            && Conserved(y.a.socks[i], y.b.socks[j], For(y.ab, j), For(y.ba, i), Owed(ys, ms, n, i))
            && Conserved(y.b.socks[j], y.a.socks[i], For(y.ba, i), For(y.ab, j), Owed(FlipRun(ys), SwapAll(ms), n, j))
  {
    hide For, Payload, Writes, Okays, PacketsInv, Concat, Lone, Wire, Owed, IsRun;
    FlipIsRun(ys, ms);
    RunInv(ys, ms);
    assert Stream(ys[n], i);
    Account(ys, ms, n, i);
    Account(FlipRun(ys), SwapAll(ms), n, ys[n].aToB[i]);
    assert FlipRun(ys)[n] == Flip(ys[n]);
  }
}
