/**
 * The handlers of a local socket with their loops over the fd, proved to have the effects that
 * Streams gives them.
 */
module SocketHandlers {
  import opened Arith
  import opened Lists
  import opened Streams

  /** What adb_write returns: bytes taken, EAGAIN, EINTR, or 0 or another error. */
  datatype WriteResult = Wrote(n: nat) | WouldBlock | WriteInterrupted | WriteError

  /** What adb_read returns: bytes, EAGAIN, EINTR, or EOF or another error. */
  datatype ReadResult = Got(bytes: seq<Byte>) | NothingYet | ReadInterrupted | EndOfFile

  /** An fd whose answers are given in advance; with none left it would block. */
  class Fd {
    var writeScript: seq<WriteResult>
    var readScript: seq<ReadResult>
    var written: seq<Byte>
    var consumed: seq<Byte>

    method Write(p: seq<Byte>) returns (r: WriteResult)
      requires p != []
      modifies this
      ensures r.Wrote? ==> 1 <= r.n <= |p| && written == old(written) + p[..r.n]
      ensures !r.Wrote? ==> written == old(written)
      ensures r.WriteInterrupted? ==> |writeScript| < |old(writeScript)|
      ensures |writeScript| <= |old(writeScript)| && readScript == old(readScript) && consumed == old(consumed)
    {
      if writeScript == [] { return WouldBlock; }
      r := writeScript[0];
      writeScript := writeScript[1..];
      if r.Wrote? {
        r := Wrote(if r.n == 0 then 1 else if r.n > |p| then |p| else r.n);
        written := written + p[..r.n];
      }
    }

    method Read(avail: nat) returns (r: ReadResult)
      requires avail > 0
      modifies this
      ensures r.Got? ==> 1 <= |r.bytes| <= avail && consumed == old(consumed) + r.bytes
      ensures !r.Got? ==> consumed == old(consumed)
      ensures r.ReadInterrupted? ==> |readScript| < |old(readScript)|
      ensures |readScript| <= |old(readScript)| && writeScript == old(writeScript) && written == old(written)
    {
      if readScript == [] { return NothingYet; }
      r := readScript[0];
      readScript := readScript[1..];
      if r.Got? {
        if r.bytes == [] { return NothingYet; }
        r := Got(if |r.bytes| > avail then r.bytes[..avail] else r.bytes);
        consumed := consumed + r.bytes;
      }
    }
  }

  lemma DropNone(q: seq<seq<Byte>>)
    requires NonEmpty(q)
    ensures Drop(q, 0) == q
  {
    if q != [] { assert [q[0][0..]] + q[1..] == q; }
  }

  lemma WrittenNone(s: Socket)
    requires NonEmpty(s.queue)
    ensures Written(s, 0) == s
  {
    DropNone(s.queue);
  }

  lemma WrittenAll(s: Socket, k: nat)
    requires k <= |Concat(s.queue)| && NonEmpty(s.queue) && Written(s, k).queue == []
    ensures k == |Concat(s.queue)|
  {
    DropBytes(s.queue, k);
  }

  lemma HeadBytes(s: Socket, k: nat, head: seq<Byte>, rest: seq<seq<Byte>>)
    requires k <= |Concat(s.queue)| && NonEmpty(s.queue) && Written(s, k).queue == [head] + rest
    ensures Concat(s.queue)[k..] == head + Concat(rest) && k + |head| <= |Concat(s.queue)| && head != []
  {
    DropBytes(s.queue, k);
    assert ([head] + rest)[0] == head && ([head] + rest)[1..] == rest;
    assert Concat([head] + rest) == head + Concat(rest);
  }

  /** The bytes of the head packet follow those already written. */
  lemma TakeMore(c: seq<Byte>, k: nat, head: seq<Byte>, rest: seq<Byte>, n: nat)
    requires n <= |head| && k + |head| <= |c| && c[k..] == head + rest
    ensures c[..k + n] == c[..k] + head[..n]
  {
    assert c[k..k + n] == c[k..][..n] == head[..n];
    assert c[..k + n] == c[..k] + c[k..k + n];
  }

  lemma {:induction false} DropAt(q: seq<seq<Byte>>, k0: nat, k: nat, head: seq<Byte>, rest: seq<seq<Byte>>)
    requires k0 <= k <= |Concat(q)| && NonEmpty(q) && Drop(q, k0) == [head] + rest && k < k0 + |head|
    ensures Drop(q, k) == [head[k - k0..]] + rest && k < |Concat(q)|
    decreases |q|
  {
    DropBytes(q, k0);
    if k0 >= |q[0]| {
      DropAt(q[1..], k0 - |q[0]|, k - |q[0]|, head, rest);
    } else {
      assert ([q[0][k0..]] + q[1..])[0] == q[0][k0..] == head;
      assert ([q[0][k0..]] + q[1..])[1..] == q[1..] && ([head] + rest)[1..] == rest;
    }
  }

  lemma {:induction false} DropAll(q: seq<seq<Byte>>, k0: nat, head: seq<Byte>, rest: seq<seq<Byte>>)
    requires k0 <= |Concat(q)| && NonEmpty(q) && Drop(q, k0) == [head] + rest && k0 + |head| <= |Concat(q)|
    ensures Drop(q, k0 + |head|) == rest
    decreases |q|
  {
    DropBytes(q, k0);
    if k0 >= |q[0]| {
      DropAll(q[1..], k0 - |q[0]|, head, rest);
    } else {
      assert ([q[0][k0..]] + q[1..])[0] == q[0][k0..] == head;
      assert ([q[0][k0..]] + q[1..])[1..] == q[1..] && ([head] + rest)[1..] == rest;
      DropNone(q[1..]);
    }
  }

  lemma WrittenMore(s: Socket, k: nat, head: seq<Byte>, rest: seq<seq<Byte>>, n: nat)
    requires k <= |Concat(s.queue)| && NonEmpty(s.queue) && Written(s, k).queue == [head] + rest && n <= |head|
    ensures k + n <= |Concat(s.queue)| && (n < |head| ==> k + n < |Concat(s.queue)|)
    ensures Written(s, k + n) == Written(s, k).(given := Written(s, k).given + head[..n],
                                                queue := if n == |head| then rest else [head[n..]] + rest)
  {
    hide Concat, Drop, NonEmpty;
    HeadBytes(s, k, head, rest);
    var c := Concat(s.queue);
    TakeMore(c, k, head, Concat(rest), n);
    assert s.given + (c[..k] + head[..n]) == s.given + c[..k] + head[..n];
    if n == |head| {
      DropAll(s.queue, k, head, rest);
    } else {
      DropAt(s.queue, k, k + n, head, rest);
    }
  }

  class LocalSocket {
    const id: nat
    var status: Status
    var peer: Option<nat>
    var queue: seq<seq<Byte>>
    var wantRead: bool
    var wantWrite: bool
    /** The packets given to send_packet. */
    var out: seq<Packet>
    ghost var mate: Option<nat>
    ghost var taken: seq<Byte>
    ghost var given: seq<Byte>
    ghost var promise: seq<Byte>
    ghost var faultOpen: bool
    ghost var faultClosing: bool

    ghost function State(): Socket
      reads this
    {
      Socket(status, peer, queue, wantRead, wantWrite, mate, taken, given, promise, faultOpen, faultClosing)
    }

    /** The socket changed from s as the effect e says. */
    ghost predicate Became(e: Effect, sentBefore: seq<Packet>)
      reads this
    {
      State() == e.sock && out == sentBefore + e.sent
    }

    /** local_socket_close_locked */
    method CloseLocked()
      modifies this
      ensures Became(Close(old(State())), old(out))
    {
      hide Concat;
      if status.Active? { promise := given + Concat(queue); }
      if peer.Some? {
        out := out + [Clse(0, peer.value)];
        peer := None;
      }
      if status.Closing? || queue == [] {
        status, queue, wantRead, wantWrite := Gone, [], false, false;
        return;
      }
      status := Closing;
      wantRead := false;
    }

    /** The close of a socket whose fd reported EOF or an error. */
    method CloseOnFault()
      modifies this
      ensures Became(Fault(old(State())), old(out))
    {
      if status.Active? { faultOpen := true; } else { faultClosing := true; }
      CloseLocked();
    }

    /** The write loop of local_socket_enqueue: p is what is left when the fd takes no more. */
    method WriteNow(fd: Fd, data: seq<Byte>) returns (p: seq<Byte>, failed: bool, ghost k: nat)
      modifies this`given, fd
      ensures k <= |data| && p == data[k..] && (failed ==> p != [])
      ensures given == old(given) + data[..k] && fd.written == old(fd.written) + data[..k]
    {
      p, failed, k := data, false, 0;
      while |p| > 0
        invariant k <= |data| && p == data[k..]
        invariant given == old(given) + data[..k] && fd.written == old(fd.written) + data[..k]
        decreases |p|
      {
        var w := fd.Write(p);
        if w.Wrote? {
          assert data[..k] + p[..w.n] == data[..k + w.n];
          given := given + p[..w.n];
          k := k + w.n;
          p := p[w.n..];
        } else {
          failed := !w.WouldBlock?;
          return;
        }
      }
    }

    /** local_socket_enqueue; 0 means ready for more data. */
    method Enqueue(fd: Fd, data: seq<Byte>) returns (r: int, ghost k: nat, ghost stop: WriteEnd)
      modifies this, fd
      ensures k <= |data| && (r == 0 <==> old(queue) == [] && k == |data|)
      ensures forall from :: var e := Streams.Enqueue(old(State()), id, from, data, k, stop);
                State() == e.sock && out == old(out) + (if r == 0 then [] else e.sent)
      ensures old(queue) == [] ==> fd.written == old(fd.written) + data[..k]
    {
      hide Fault;
      k, stop := 0, Blocked;
      if queue == [] {
        var p, failed;
        p, failed, k := WriteNow(fd, data);
        if failed {
          stop := Failed;
          CloseOnFault();
          return 1, k, stop;
        }
        if |p| == 0 {
          assert data[..k] == data;
          return 0, k, stop;
        }
        queue := [p];
      } else {
        queue := queue + [data];
      }
      wantWrite := true;
      return 1, k, stop;
    }

    /** handle_packet on A_WRTE for this socket. */
    method HandleWrte(fd: Fd, from: nat, data: seq<Byte>) returns (ghost k: nat, ghost stop: WriteEnd)
      modifies this, fd
      ensures k <= |data| && Became(Streams.Enqueue(old(State()), id, from, data, k, stop), old(out))
    {
      var r;
      r, k, stop := Enqueue(fd, data);
      ghost var e := Streams.Enqueue(old(State()), id, from, data, k, stop);
      if r == 0 {
        out := out + [Okay(id, from)];
      }
    }

    /** handle_packet on A_OKAY for this socket. */
    method HandleOkay(from: nat)
      modifies this
      ensures State() == Ready(old(State()), from) && out == old(out)
    {
      if peer.None? {
        peer := Some(from);
        mate := Some(from);
      }
      wantRead := true;
    }

    /** The inner loop: write the head packet until it is out, the fd would block, or it fails. */
    method WriteHead(fd: Fd) returns (r: WriteResult, ghost n: nat)
      requires queue != [] && queue[0] != []
      modifies this`queue, this`given, fd
      ensures n <= |old(queue[0])| && (r.Wrote? <==> n == |old(queue[0])|) && !r.WriteInterrupted?
      ensures queue == [old(queue[0])[n..]] + old(queue[1..])
      ensures given == old(given) + old(queue[0])[..n] && fd.written == old(fd.written) + old(queue[0])[..n]
    {
      var p := queue[0];
      ghost var head, rest := queue[0], queue[1..];
      n := 0;
      r := Wrote(0);
      while |p| > 0
        invariant n <= |head| && p == head[n..] && queue == [p] + rest && r.Wrote?
        invariant given == old(given) + head[..n] && fd.written == old(fd.written) + head[..n]
        decreases |p|, |fd.writeScript|
      {
        var w := fd.Write(p);
        if w.Wrote? {
          assert head[..n] + p[..w.n] == head[..n + w.n];
          given := given + p[..w.n];
          n := n + w.n;
          p := p[w.n..];
          queue := [p] + queue[1..];
          continue;
        }
        if w.WriteInterrupted? { continue; }
        return w, n;
      }
    }

    /** The head packet of a queue of which k bytes were written; it is unlinked once it is out. */
    method DrainHead(fd: Fd, ghost s0: Socket, ghost k: nat) returns (r: WriteResult, ghost n: nat)
      requires queue != [] && NonEmpty(s0.queue) && k <= |Concat(s0.queue)| && State() == Written(s0, k)
      modifies this`queue, this`given, fd
      ensures k + n <= |Concat(s0.queue)| && State() == Written(s0, k + n) && !r.WriteInterrupted?
      ensures if r.Wrote? then n > 0 else k + n < |Concat(s0.queue)|
      ensures fd.written == old(fd.written) + Concat(s0.queue)[k..k + n]
    {
      hide Concat, Drop, Written, NonEmpty;
      ghost var head, rest := queue[0], queue[1..];
      HeadBytes(s0, k, head, rest);
      r, n := WriteHead(fd);
      WrittenMore(s0, k, head, rest, n);
      TakeMore(Concat(s0.queue), k, head, Concat(rest), n);
      if r.Wrote? { queue := queue[1..]; }
    }

    /** local_socket_event_func, the FDE_WRITE part. */
    method OnWritable(fd: Fd) returns (ghost k: nat, ghost stop: WriteEnd)
      requires NonEmpty(queue) && (status.Closing? || peer.Some?)
      modifies this, fd
      ensures k <= |Concat(old(queue))|
      ensures Became(Writable(old(State()), id, k, stop), old(out))
      ensures fd.written == old(fd.written) + Concat(old(queue))[..k]
    {
      hide Concat, Drop, Fault, Close, Written, NonEmpty;
      ghost var q, s0 := queue, State();
      k, stop := 0, Blocked;
      WrittenNone(s0);
      while queue != []
        invariant k <= |Concat(q)| && State() == Written(s0, k) && out == old(out)
        invariant status == s0.status && peer == s0.peer
        invariant fd.written == old(fd.written) + Concat(q)[..k]
        decreases |Concat(q)| - k
      {
        var r;
        ghost var n;
        r, n := DrainHead(fd, s0, k);
        k := k + n;
        if !r.Wrote? {
          if r.WouldBlock? { return; }
          stop := Failed;
          CloseOnFault();
          return;
        }
      }
      WrittenAll(s0, k);
      if status.Closing? {
        CloseLocked();
        return;
      }
      wantWrite := false;
      out := out + [Okay(id, peer.value)];
    }

    /** local_socket_event_func, the FDE_READ part. */
    method OnReadable(fd: Fd) returns (ghost data: seq<Byte>, ghost eof: bool)
      requires status.Active? || (status.Closing? && peer.None?)
      modifies this, fd
      ensures |data| <= MAX_PAYLOAD && (eof ==> |data| < MAX_PAYLOAD)
      ensures fd.consumed == old(fd.consumed) + data
      ensures Became(Readable(old(State()), id, data, eof), old(out))
    {
      var x: seq<Byte> := [];
      var isEof := false;
      while |x| < MAX_PAYLOAD
        invariant |x| <= MAX_PAYLOAD && fd.consumed == old(fd.consumed) + x && !isEof
        invariant State() == old(State()) && out == old(out)
        decreases MAX_PAYLOAD - |x|, |fd.readScript|
      {
        var r := fd.Read(MAX_PAYLOAD - |x|);
        if r.Got? {
          x := x + r.bytes;
          continue;
        }
        if r.NothingYet? { break; }
        if r.ReadInterrupted? { continue; }
        isEof := true;
        break;
      }
      data, eof := x, isEof;
      if x != [] {
        if status.Active? { taken := taken + x; }
        if peer.Some? {
          out := out + [Wrte(id, peer.value, x)];
          wantRead := false;
        }
      }
      if isEof { CloseOnFault(); }
    }
  }
}
