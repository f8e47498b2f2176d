/**
 * Byte streams multiplexed over one packet transport: what sockets.c and handle_packet do to a
 * local socket, and two endpoints running that code over FIFO channels. A remote socket is kept
 * as the far id in the peer field of the local socket it belongs to.
 */
module Streams {
  import opened Arith
  import opened Lists

  const MAX_PAYLOAD := 4096

  datatype Packet =
    | Open(local: nat)
    | Okay(local: nat, remote: nat)
    | Clse(local: nat, remote: nat)
    | Wrte(local: nat, remote: nat, data: seq<Byte>)

  /** On the socket list, on the closing list, or destroyed. */
  datatype Status = Active | Closing | Gone

  /**
   * A local socket. queue holds the unwritten bytes of each queued packet. The last six fields
   * are history: the far id it was ever connected to, the bytes read from its fd and written to
   * it, the bytes it owed its fd when it left the list, and whether its fd reported EOF or an
   * error before or after that.
   */
  datatype Socket = Socket(
    status: Status, peer: Option<nat>, queue: seq<seq<Byte>>, wantRead: bool, wantWrite: bool,
    mate: Option<nat>, taken: seq<Byte>, given: seq<Byte>, promise: seq<Byte>, faultOpen: bool, faultClosing: bool)

  /** What a handler leaves of its socket and the packets it sends. */
  datatype Effect = Effect(sock: Socket, sent: seq<Packet>)

  /** How a write loop ended before its last byte. */
  datatype WriteEnd = Blocked | Failed

  /** The queue after its first k bytes are written: packets written out are freed. */
  function Drop(q: seq<seq<Byte>>, k: nat): seq<seq<Byte>>
    requires k <= |Concat(q)|
    decreases |q|
  {
    if q == [] then [] else if k >= |q[0]| then Drop(q[1..], k - |q[0]|) else [q[0][k..]] + q[1..]
  }

  function NewSocket(mate: Option<nat>): Socket {
    Socket(Active, mate, [], mate.Some?, false, mate, [], [], [], false, false)
  }

  /** local_socket_close_locked: close the peer, then destroy or move to the closing list. */
  function Close(s: Socket): Effect {
    var sent := if s.peer.Some? then [Clse(0, s.peer.value)] else [];
    var s1 := if s.status.Active? then s.(promise := s.given + Concat(s.queue)) else s;
    Effect(if s.status.Closing? || s.queue == []
           then s1.(status := Gone, peer := None, queue := [], wantRead := false, wantWrite := false)
           else s1.(status := Closing, peer := None, wantRead := false),
           sent)
  }

  /** Closing because the fd reported EOF or an error. */
  function Fault(s: Socket): Effect {
    Close(if s.status.Active? then s.(faultOpen := true) else s.(faultClosing := true))
  }

  /** local_socket_enqueue and the OKAY handle_packet sends when it returns 0; k bytes get written at once. */
  function Enqueue(s: Socket, id: nat, from: nat, data: seq<Byte>, k: nat, stop: WriteEnd): Effect
    requires k <= |data|
  {
    if s.queue != [] then
      Effect(s.(queue := s.queue + [data], wantWrite := true), [])
    else if k == |data| then
      Effect(s.(given := s.given + data), [Okay(id, from)])
    else if stop.Failed? then
      Fault(s.(given := s.given + data[..k]))
    else
      Effect(s.(given := s.given + data[..k], queue := [data[k..]], wantWrite := true), [])
  }

  /** The socket after k bytes of its queue are written. */
  function Written(s: Socket, k: nat): Socket
    requires k <= |Concat(s.queue)|
  {
    s.(given := s.given + Concat(s.queue)[..k], queue := Drop(s.queue, k))
  }

  /** local_socket_event_func on FDE_WRITE: k bytes of the queue get written. */
  function Writable(s: Socket, id: nat, k: nat, stop: WriteEnd): Effect
    requires k <= |Concat(s.queue)|
  {
    var s1 := Written(s, k);
    if k == |Concat(s.queue)| then
      if s.status.Closing? then Close(s1)
      else Effect(s1.(wantWrite := false), if s.peer.Some? then [Okay(id, s.peer.value)] else [])
    else if stop.Failed? then
      Fault(s1)
    else
      Effect(s1, [])
  }

  /** local_socket_event_func on FDE_READ: data was read, and then EOF or an error if eof. */
  function Readable(s: Socket, id: nat, data: seq<Byte>, eof: bool): Effect {
    var e := if data == [] || s.status != Active then Effect(s, [])
             else if s.peer.None? then Effect(s.(taken := s.taken + data), [])
             else Effect(s.(taken := s.taken + data, wantRead := false), [Wrte(id, s.peer.value, data)]);
    if eof then var f := Fault(e.sock); Effect(f.sock, e.sent + f.sent) else e
  }

  /** handle_packet on A_OKAY: bind the far id if there is none yet, and listen to the fd. */
  function Ready(s: Socket, from: nat): Socket {
    (if s.peer.None? then s.(peer := Some(from), mate := Some(from)) else s).(wantRead := true)
  }

  // ---- facts about queues ---------------------------------------------------------

  ghost predicate NonEmpty(q: seq<seq<Byte>>) {
    forall i :: 0 <= i < |q| ==> q[i] != []
  }

  lemma {:induction false} DropBytes(q: seq<seq<Byte>>, k: nat)
    requires k <= |Concat(q)| && NonEmpty(q)
    ensures Concat(Drop(q, k)) == Concat(q)[k..] && NonEmpty(Drop(q, k))
    ensures Drop(q, k) == [] <==> k == |Concat(q)|
    ensures |Drop(q, k)| <= |q|
  {
    if q != [] {
      if k >= |q[0]| {
        DropBytes(q[1..], k - |q[0]|);
      } else {
        var d := [q[0][k..]] + q[1..];
        assert d[1..] == q[1..];
        assert Concat(d) == q[0][k..] + Concat(q[1..]);
      }
    }
  }

  lemma EmptyQueue()
    ensures NonEmpty([]) && Concat([]) == []
  {}

  lemma OneQueued(x: seq<Byte>)
    requires x != []
    ensures NonEmpty([x]) && Concat([x]) == x
  {
    assert [x][1..] == [];
  }

  lemma ConcatSome(q: seq<seq<Byte>>)
    requires NonEmpty(q)
    ensures Concat(q) == [] <==> q == []
  {}

  // ---- one stream: two sockets and the packets between them --------------------------

  function Payload(out: seq<Packet>): seq<Byte> {
    if out == [] then [] else (if out[0].Wrte? then out[0].data else []) + Payload(out[1..])
  }

  function Writes(out: seq<Packet>): nat {
    if out == [] then 0 else (if out[0].Wrte? then 1 else 0) + Writes(out[1..])
  }

  function Okays(out: seq<Packet>): nat {
    if out == [] then 0 else (if out[0].Okay? then 1 else 0) + Okays(out[1..])
  }

  lemma SentFirst(h: Packet, out: seq<Packet>)
    ensures Payload([h] + out) == (if h.Wrte? then h.data else []) + Payload(out)
    ensures Writes([h] + out) == (if h.Wrte? then 1 else 0) + Writes(out)
    ensures Okays([h] + out) == (if h.Okay? then 1 else 0) + Okays(out)
  {
    assert ([h] + out)[1..] == out;
  }

  lemma {:induction false} Sent(out: seq<Packet>, p: Packet)
    ensures Payload(out + [p]) == Payload(out) + (if p.Wrte? then p.data else [])
    ensures Writes(out + [p]) == Writes(out) + (if p.Wrte? then 1 else 0)
    ensures Okays(out + [p]) == Okays(out) + (if p.Okay? then 1 else 0)
  {
    if out == [] {
      SentFirst(p, []);
      assert out + [p] == [p] + [];
    } else {
      var h, rest := out[0], out[1..];
      Sent(rest, p);
      SentFirst(h, rest);
      SentFirst(h, rest + [p]);
      hide Payload, Writes, Okays;
      assert out == [h] + rest && out + [p] == [h] + (rest + [p]);
    }
  }

  /** What holds of a socket by itself. */
  ghost predicate SocketInv(s: Socket) {
    && NonEmpty(s.queue) && |s.queue| <= 1
    && (s.status.Active? ==>
          && (s.wantWrite <==> s.queue != []) && s.peer == s.mate
          && !s.faultOpen && !s.faultClosing)
    && (s.status.Closing? ==>
          && s.queue != [] && s.wantWrite && !s.wantRead && s.peer.None?
          && s.given + Concat(s.queue) == s.promise && !s.faultClosing)
    && (s.status.Gone? ==>
          && s.queue == [] && !s.wantWrite && !s.wantRead && s.peer.None?
          && s.given <= s.promise && (!s.faultClosing ==> s.given == s.promise))
    && (s.mate.None? ==> !s.wantRead && s.queue == [] && s.taken == [] && s.given == [] && s.promise == [])
  }

  /** The packets on the way from s to the socket rid of its peer. */
  ghost predicate PacketsInv(s: Socket, out: seq<Packet>, sid: nat, rid: nat) {
    forall k :: 0 <= k < |out| ==>
      && !out[k].Open? && out[k].remote == rid
      && (out[k].Clse? ==> out[k].local == 0 && k == |out| - 1 && !s.status.Active?)
      && (out[k].Okay? || out[k].Wrte? ==> out[k].local == sid)
      && (out[k].Wrte? ==> out[k].data != [])
  }

  /** The credits of the direction from s to r. */
  function Tokens(s: Socket, r: Socket, out: seq<Packet>, back: seq<Packet>): nat {
    (if s.wantRead then 1 else 0) + Writes(out) + (if r.queue != [] then 1 else 0) + Okays(back)
  }

  /** The bytes and the credits of the direction from s to r. */
  ghost predicate DirectionInv(s: Socket, r: Socket, out: seq<Packet>, back: seq<Packet>) {
    && (r.status.Active? ==> s.taken == r.given + Concat(r.queue) + Payload(out))
    && (!r.status.Active? ==> r.promise <= s.taken)
    && (!r.status.Active? && !r.faultOpen ==> !s.status.Active? && s.taken == r.promise)
    && Tokens(s, r, out, back) <= 1
    && (s.status.Active? && r.status.Active? ==> Tokens(s, r, out, back) == 1)
  }

  /** An opener that has not heard from the acceptor: nothing sent, and its OKAY comes first. */
  ghost predicate ConnectInv(s: Socket, out: seq<Packet>, back: seq<Packet>, rid: nat) {
    && (s.mate.None? || s.mate == Some(rid))
    && (s.mate.None? ==> out == [] && (s.status.Active? ==> back != [] && back[0].Okay?))
  }

  /** While r is listed, an s that has left the list has a CLSE on the way if it ever knew r, and only then. */
  ghost predicate Told(s: Socket, r: Socket, out: seq<Packet>) {
    !s.status.Active? && r.status.Active? ==> (s.mate.Some? <==> out != [] && out[|out| - 1].Clse?)
  }

  /** One end of a stream. */
  ghost predicate HalfInv(s: Socket, r: Socket, out: seq<Packet>, back: seq<Packet>, sid: nat, rid: nat) {
    && SocketInv(s) && PacketsInv(s, out, sid, rid) && DirectionInv(s, r, out, back) && ConnectInv(s, out, back, rid)
    && Told(s, r, out)
  }

  ghost predicate StreamInv(s: Socket, r: Socket, out: seq<Packet>, back: seq<Packet>, sid: nat, rid: nat) {
    HalfInv(s, r, out, back, sid, rid) && HalfInv(r, s, back, out, rid, sid)
  }

  lemma PacketsSame(s: Socket, s': Socket, out: seq<Packet>, sid: nat, rid: nat)
    requires PacketsInv(s, out, sid, rid) && (s'.status.Active? ==> s.status.Active?)
    ensures PacketsInv(s', out, sid, rid)
  {}

  lemma PacketsTail(s: Socket, out: seq<Packet>, sid: nat, rid: nat)
    requires PacketsInv(s, out, sid, rid) && out != []
    ensures PacketsInv(s, out[1..], sid, rid)
  {}

  lemma PacketsSnoc(s: Socket, s': Socket, out: seq<Packet>, p: Packet, sid: nat, rid: nat)
    requires PacketsInv(s, out, sid, rid) && s.status.Active?
    requires !p.Open? && p.remote == rid
    requires p.Clse? ==> p.local == 0 && !s'.status.Active?
    requires p.Okay? || p.Wrte? ==> p.local == sid
    requires p.Wrte? ==> p.data != []
    ensures PacketsInv(s', out + [p], sid, rid)
  {}

  /** A listed socket whose fd reports EOF or an error closes its peer. */
  lemma FaultActive(s: Socket, r: Socket, out: seq<Packet>, back: seq<Packet>, sid: nat, rid: nat)
    requires StreamInv(s, r, out, back, sid, rid) && s.status.Active? && s.peer.Some?
    ensures StreamInv(Fault(s).sock, r, out + Fault(s).sent, back, sid, rid)
  {
    hide PacketsInv, Payload, Writes, Okays, Concat, NonEmpty;
    EmptyQueue();
    PacketsSnoc(s, Fault(s).sock, out, Clse(0, rid), sid, rid);
    Sent(out, Clse(0, rid));
  }

  /** Without a peer, or on the closing list, it closes silently. */
  lemma FaultSilent(s: Socket, r: Socket, out: seq<Packet>, back: seq<Packet>, sid: nat, rid: nat)
    requires StreamInv(s, r, out, back, sid, rid) && !s.status.Gone? && s.peer.None?
    ensures StreamInv(Fault(s).sock, r, out + Fault(s).sent, back, sid, rid)
  {
    hide PacketsInv, Payload, Writes, Okays, Concat, NonEmpty;
    EmptyQueue();
    PacketsSame(s, Fault(s).sock, out, sid, rid);
    assert out + [] == out;
  }

  lemma FaultPreserves(s: Socket, r: Socket, out: seq<Packet>, back: seq<Packet>, sid: nat, rid: nat)
    requires StreamInv(s, r, out, back, sid, rid) && !s.status.Gone?
    ensures StreamInv(Fault(s).sock, r, out + Fault(s).sent, back, sid, rid)
  {
    hide PacketsInv, Fault, Concat, Payload, DirectionInv;
    if s.peer.Some? {
      FaultActive(s, r, out, back, sid, rid);
    } else {
      FaultSilent(s, r, out, back, sid, rid);
    }
  }

  /** The bytes read from the fd leave as one WRTE. */
  lemma SendPreserves(s: Socket, r: Socket, out: seq<Packet>, back: seq<Packet>, sid: nat, rid: nat, data: seq<Byte>)
    requires StreamInv(s, r, out, back, sid, rid)
    requires s.status.Active? && s.wantRead && data != []
    ensures var e := Readable(s, sid, data, false);
            StreamInv(e.sock, r, out + e.sent, back, sid, rid)
  {
    Sent(out, Wrte(sid, rid, data));
    assert r.given + Concat(r.queue) + Payload(out) + data == r.given + Concat(r.queue) + (Payload(out) + data);
  }

  lemma ReadPreserves(s: Socket, r: Socket, out: seq<Packet>, back: seq<Packet>, sid: nat, rid: nat,
                      data: seq<Byte>, eof: bool)
    requires StreamInv(s, r, out, back, sid, rid)
    requires s.status.Closing? || (s.status.Active? && (s.wantRead || data == []))
    ensures var e := Readable(s, sid, data, eof);
            StreamInv(e.sock, r, out + e.sent, back, sid, rid)
  {
    hide StreamInv, Fault;
    var e := Readable(s, sid, data, false);
    assert StreamInv(e.sock, r, out + e.sent, back, sid, rid) by {
      if s.status.Active? && data != [] {
        SendPreserves(s, r, out, back, sid, rid, data);
      } else {
        assert out + [] == out;
      }
    }
    if eof {
      FaultPreserves(e.sock, r, out + e.sent, back, sid, rid);
      assert out + (e.sent + Fault(e.sock).sent) == out + e.sent + Fault(e.sock).sent;
    }
  }

  lemma WrittenBytes(s: Socket, k: nat)
    requires k <= |Concat(s.queue)| && NonEmpty(s.queue)
    ensures Written(s, k).given + Concat(Written(s, k).queue) == s.given + Concat(s.queue)
    ensures NonEmpty(Written(s, k).queue)
    ensures Written(s, k).queue == [] <==> k == |Concat(s.queue)|
    ensures |Written(s, k).queue| <= |s.queue|
  {
    DropBytes(s.queue, k);
    var c := Concat(s.queue);
    assert c == c[..k] + c[k..];
  }

  /** Writing part of the queue only moves bytes from the queue to the fd. */
  lemma PartPreserves(s: Socket, r: Socket, out: seq<Packet>, back: seq<Packet>, sid: nat, rid: nat, k: nat)
    requires StreamInv(s, r, out, back, sid, rid)
    requires !s.status.Gone? && k < |Concat(s.queue)|
    ensures StreamInv(Written(s, k), r, out, back, sid, rid)
  {
    hide Concat, Payload, Writes, Okays, Drop;
    WrittenBytes(s, k);
    ConcatSome(s.queue);
  }

  /** The last byte of the queue returns the credit, or ends a closing socket. */
  lemma DrainedPreserves(s: Socket, r: Socket, out: seq<Packet>, back: seq<Packet>, sid: nat, rid: nat)
    requires StreamInv(s, r, out, back, sid, rid)
    requires !s.status.Gone? && s.wantWrite
    ensures s.status.Active? ==> s.peer == Some(rid)
    ensures var e := Writable(s, sid, |Concat(s.queue)|, Blocked);
            StreamInv(e.sock, r, out + e.sent, back, sid, rid)
  {
    hide Concat, Payload, Writes, Okays, Drop;
    WrittenBytes(s, |Concat(s.queue)|);
    ConcatSome([]);
    ConcatSome(s.queue);
    if s.status.Active? {
      Sent(out, Okay(sid, rid));
    } else {
      assert out + [] == out;
    }
  }

  /** A writable fd takes bytes in order, and the credit returns with the last of them. */
  lemma WritePreserves(s: Socket, r: Socket, out: seq<Packet>, back: seq<Packet>, sid: nat, rid: nat, k: nat,
                       stop: WriteEnd)
    requires StreamInv(s, r, out, back, sid, rid)
    requires !s.status.Gone? && s.wantWrite && k <= |Concat(s.queue)|
    ensures s.status.Active? ==> s.peer == Some(rid)
    ensures var e := Writable(s, sid, k, stop);
            StreamInv(e.sock, r, out + e.sent, back, sid, rid)
  {
    hide StreamInv, Fault, Concat, Drop;
    DrainedPreserves(s, r, out, back, sid, rid);
    if k < |Concat(s.queue)| {
      PartPreserves(s, r, out, back, sid, rid, k);
      if stop.Failed? {
        FaultPreserves(Written(s, k), r, out, back, sid, rid);
      } else {
        assert out + [] == out;
      }
    }
  }

  /** A WRTE finds the queue empty: the sender had no credit for another. */
  lemma WrteCredit(s: Socket, r: Socket, out: seq<Packet>, back: seq<Packet>, sid: nat, rid: nat)
    requires StreamInv(s, r, out, back, sid, rid)
    requires s.status.Active? && back != [] && back[0].Wrte?
    ensures s.queue == [] && back[0].local == rid && s.peer == Some(rid) && back[0].data != []
    ensures !r.wantRead && Writes(back[1..]) == 0 && Okays(out) == 0
    ensures Payload(back) == back[0].data + Payload(back[1..])
    ensures Okays(back) == Okays(back[1..])
  {
    hide Concat;
  }

  lemma SplitAt(g: seq<Byte>, d: seq<Byte>, k: nat, rest: seq<Byte>)
    requires k <= |d|
    ensures (g + d[..k]) + d[k..] + rest == g + [] + (d + rest)
  {
    assert d == d[..k] + d[k..];
  }

  /** The part of a WRTE the fd takes at once; the rest is queued. */
  lemma WrteTaken(s: Socket, r: Socket, out: seq<Packet>, back: seq<Packet>, sid: nat, rid: nat, k: nat)
    requires StreamInv(s, r, out, back, sid, rid)
    requires s.status.Active? && back != [] && back[0].Wrte? && k < |back[0].data|
    ensures var s1 := s.(given := s.given + back[0].data[..k], queue := [back[0].data[k..]], wantWrite := true);
            StreamInv(s1, r, out, back[1..], sid, rid)
  {
    hide Payload, Writes, Okays, PacketsInv, Concat, NonEmpty;
    WrteCredit(s, r, out, back, sid, rid);
    EmptyQueue();
    var d := back[0].data;
    OneQueued(d[k..]);
    PacketsTail(r, back, rid, sid);
    PacketsSame(s, s.(given := s.given + d[..k], queue := [d[k..]], wantWrite := true), out, sid, rid);
    SplitAt(s.given, d, k, Payload(back[1..]));
  }

  lemma WrteWhole(s: Socket, r: Socket, out: seq<Packet>, back: seq<Packet>, sid: nat, rid: nat)
    requires StreamInv(s, r, out, back, sid, rid)
    requires s.status.Active? && back != [] && back[0].Wrte?
    ensures StreamInv(s.(given := s.given + back[0].data), r, out + [Okay(sid, rid)], back[1..], sid, rid)
  {
    hide Payload, Writes, Okays, PacketsInv, Concat, NonEmpty;
    WrteCredit(s, r, out, back, sid, rid);
    EmptyQueue();
    var d := back[0].data;
    PacketsTail(r, back, rid, sid);
    PacketsSnoc(s, s.(given := s.given + d), out, Okay(sid, rid), sid, rid);
    Sent(out, Okay(sid, rid));
    assert s.given + d + [] + Payload(back[1..]) == s.given + [] + (d + Payload(back[1..]));
  }

  lemma PartIsPrefix(g: seq<Byte>, d: seq<Byte>, k: nat, rest: seq<Byte>)
    requires k <= |d|
    ensures (g + d[..k]) + [] <= g + [] + (d + rest)
  {}

  lemma WrteFailed(s: Socket, r: Socket, out: seq<Packet>, back: seq<Packet>, sid: nat, rid: nat, k: nat)
    requires StreamInv(s, r, out, back, sid, rid)
    requires s.status.Active? && back != [] && back[0].Wrte? && k < |back[0].data|
    ensures var e := Fault(s.(given := s.given + back[0].data[..k]));
            StreamInv(e.sock, r, out + e.sent, back[1..], sid, rid)
  {
    hide Payload, Writes, Okays, PacketsInv, Concat, NonEmpty;
    WrteCredit(s, r, out, back, sid, rid);
    EmptyQueue();
    var d := back[0].data;
    PacketsTail(r, back, rid, sid);
    PacketsSnoc(s, Fault(s.(given := s.given + d[..k])).sock, out, Clse(0, rid), sid, rid);
    Sent(out, Clse(0, rid));
    PartIsPrefix(s.given, d, k, Payload(back[1..]));
  }

  lemma WrtePreserves(s: Socket, r: Socket, out: seq<Packet>, back: seq<Packet>, sid: nat, rid: nat, k: nat,
                      stop: WriteEnd)
    requires StreamInv(s, r, out, back, sid, rid)
    requires s.status.Active? && back != [] && back[0].Wrte? && k <= |back[0].data|
    ensures s.queue == [] && back[0].local == rid && s.peer == Some(rid)
    ensures var e := Enqueue(s, sid, back[0].local, back[0].data, k, stop);
            StreamInv(e.sock, r, out + e.sent, back[1..], sid, rid)
  {
    hide StreamInv, Fault;
    WrteCredit(s, r, out, back, sid, rid);
    if k == |back[0].data| {
      WrteWhole(s, r, out, back, sid, rid);
    } else if stop.Failed? {
      WrteFailed(s, r, out, back, sid, rid, k);
    } else {
      WrteTaken(s, r, out, back, sid, rid, k);
      assert out + [] == out;
    }
  }

  lemma OkayCounts(back: seq<Packet>)
    requires back != [] && back[0].Okay?
    ensures Payload(back) == Payload(back[1..]) && Writes(back) == Writes(back[1..])
            && Okays(back) == 1 + Okays(back[1..])
  {}

  lemma OkayPreserves(s: Socket, r: Socket, out: seq<Packet>, back: seq<Packet>, sid: nat, rid: nat)
    requires StreamInv(s, r, out, back, sid, rid)
    requires s.status.Active? && back != [] && back[0].Okay?
    ensures StreamInv(Ready(s, back[0].local), r, out, back[1..], sid, rid)
  {
    hide Payload, Writes, Okays, Concat, NonEmpty;
    assert back[0].local == rid;
    hide PacketsInv;
    PacketsTail(r, back, rid, sid);
    PacketsSame(s, Ready(s, rid), out, sid, rid);
    OkayCounts(back);
  }

  /** A CLSE is the last packet: everything the far socket read has arrived. */
  lemma ClsePreserves(s: Socket, r: Socket, out: seq<Packet>, back: seq<Packet>, sid: nat, rid: nat)
    requires StreamInv(s, r, out, back, sid, rid)
    requires s.status.Active? && back != [] && back[0].Clse?
    ensures s.given + Concat(s.queue) == r.taken
    ensures StreamInv(Close(s).sock, r, out + Close(s).sent, back[1..], sid, rid)
  {
    assert |back| == 1 && back[1..] == [] && Payload(back[1..]) == [] && Payload(back) == [];
    assert s.given + Concat(s.queue) + [] == s.given + Concat(s.queue);
    assert s.peer == Some(rid);
    Sent(out, Clse(0, rid));
  }

  /** Packets for a socket that left the list are dropped. */
  lemma IgnoredPreserves(s: Socket, r: Socket, out: seq<Packet>, back: seq<Packet>, sid: nat, rid: nat)
    requires StreamInv(s, r, out, back, sid, rid)
    requires !s.status.Active? && back != []
    ensures StreamInv(s, r, out, back[1..], sid, rid)
  {
  }
}
