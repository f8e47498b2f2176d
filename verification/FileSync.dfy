/**
 * The file sync protocol: a client that pushes or pulls a file over a byte stream, and the service that
 * answers it. What the file systems and the connection do is given by parameters.
 */
module FileSync {
  import opened Arith
  import opened Lists
  import opened LittleEndian
  import opened SyncMessages

  // ---- writing to a connection that may break ----------------------------------------------------

  /** What a connection takes of s if it takes n bytes more. */
  function Cut(s: seq<Byte>, n: nat): seq<Byte> { if |s| <= n then s else s[..n] }

  /** Writing s took the output from before to out, and the room from room0 to room. */
  ghost predicate Wrote(before: seq<Byte>, room0: nat, out: seq<Byte>, room: nat, s: seq<Byte>) {
    out == before + Cut(s, room0) && room == if |s| <= room0 then room0 - |s| else 0
  }

  lemma WroteMore(before: seq<Byte>, room0: nat, mid: seq<Byte>, room1: nat, a: seq<Byte>, out: seq<Byte>, room: nat,
                  b: seq<Byte>)
    requires Wrote(before, room0, mid, room1, a) && |a| <= room0 && Wrote(mid, room1, out, room, b)
    ensures Wrote(before, room0, out, room, a + b) && (|b| <= room1 <==> |a + b| <= room0)
  {}

  /** Output that breaks off in a breaks off at the same byte of what begins with a. */
  lemma WroteCut(before: seq<Byte>, room0: nat, out: seq<Byte>, room: nat, a: seq<Byte>, s: seq<Byte>)
    requires Wrote(before, room0, out, room, a) && |a| > room0 && a <= s
    ensures Wrote(before, room0, out, room, s) && |s| > room0
  {}

  // ---- an end of the connection --------------------------------------------------------------

  /** Writing w from the start over an old content, which is not cut off. */
  function Overlay(base: seq<Byte>, w: seq<Byte>): seq<Byte> {
    if |base| > |w| then w + base[|w|..] else w
  }

  /** The files other than that at path are the same. */
  ghost predicate SameElsewhere(f: Files, g: Files, path: Path) {
    forall p :: p != path ==> (p in f <==> p in g) && (p in f ==> f[p] == g[p])
  }

  /**
   * How the far end behaves: what its connection back takes, how its files open, write and read, whether it makes
   * symbolic links, what its buffer holds, and what it says to STAT, to LIST and on failure.
   */
  datatype Far = Far(
    room: nat, opens: bool, writes: seq<bool>, gives: seq<Option<nat>>, symlinks: bool, scratch: seq<Byte>,
    reason: seq<Byte>, other: seq<Byte>)

  /** The whole file can be served. */
  ghost predicate Served(files: Files, far: Far, path: Path) {
    far.opens && path in files && ReadsAll(|files[path]|, far.gives)
  }

  /** The pieces of a file that can be served, and their bytes. */
  function OfferedPieces(files: Files, far: Far, path: Path): seq<seq<Byte>> {
    if far.opens && path in files then ReadPieces(files[path], far.gives) else []
  }

  function Offered(files: Files, far: Far, path: Path): seq<Byte> {
    if far.opens && path in files then ReadBytes(files[path], far.gives) else []
  }

  /** The answer to RECV, and how it ends. */
  ghost function ReplyEnd(files: Files, far: Far, path: Path): End {
    if Served(files, far, path) then EndDone(0) else EndFail(|far.reason|, far.reason)
  }

  ghost function Reply(files: Files, far: Far, path: Path): seq<Byte> {
    EncodeChunks(OfferedPieces(files, far, path)) + EndBytes(ReplyEnd(files, far, path))
  }

  /** One adb_read or adb_write. */
  datatype Transfer = Moved(n: nat) | Interrupted | Ended

  /** How much of a reason the client reads. */
  function FailRead(size: nat): nat { if size > 256 then 256 else size }

  /** The first n writes go well. */
  ghost predicate AllGood(writes: seq<bool>, n: nat) { forall i :: 0 <= i < |writes| && i < n ==> writes[i] }

  lemma NoneGood(writes: seq<bool>)
    ensures AllGood(writes, 0)
  {}

  lemma NextGood(writes: seq<bool>, k: nat)
    requires AllGood(writes, k)
    ensures AllGood(writes, k + 1) <==> (k < |writes| ==> writes[k])
  {}

  lemma NotGood(writes: seq<bool>, k: nat, n: nat)
    requires k < n && k < |writes| && !writes[k]
    ensures !AllGood(writes, n)
  {}

  /** The file at path was replaced by the content, or nothing was done. */
  ghost predicate Holds(was: Files, path: Path, made: bool, content: seq<Byte>, files: Files) {
    files == if made then was[path := content] else was
  }

  /** The local files after a transfer that came to its end: a failed one is unlinked, if that can be done. */
  ghost function Received(lpath: Path, stuck: set<Path>, local: Files, done: bool, cs: seq<seq<Byte>>): Files {
    if done then local[lpath := Concat(cs)]
    else if lpath !in stuck then local - {lpath}
    else if cs == [] then local
    else local[lpath := Concat(cs)]
  }

  lemma HoldsElsewhere(was: Files, path: Path, made: bool, content: seq<Byte>, files: Files, stuck: set<Path>,
                       done: bool,
                      cs: seq<seq<Byte>>)
    requires Holds(was, path, made, content, files) && content == Concat(cs) && (made <==> cs != [] || done)
    ensures SameElsewhere(was, files, path) && SameElsewhere(was, files - {path}, path)
    ensures Received(path, stuck, was, done, cs) == if done || path in stuck then files else files - {path}
  {
    hide Concat;
    assert was[path := content] - {path} == was - {path};
  }

  /** A header behind chunks. */
  lemma Arrived(input: seq<Byte>, start: nat, p: nat, pos: nat, cs: seq<seq<Byte>>, plan: Option<seq<seq<Byte>>>,
                end: End, id: nat, size: nat)
    requires So(input, start, p, cs, plan, end) && p <= pos <= |input| && input[p..pos] == Header(id, size)
    ensures EncodeChunks(cs) + Header(id, size) <= input[start..] && p == start + |EncodeChunks(cs)|
  {
    hide EncodeChunks, Header, Planned, ChunksFit;
    Joined(input, start, p, pos);
    assert input[start..pos] <= input[start..];
  }

  /** The path a SEND request is for. */
  function PathOf(name: seq<Byte>): Path { SplitName(CString(name)).0 }

  /** The mode in the name of a SEND request is that of a symbolic link. */
  predicate LinkNamed(name: seq<Byte>) {
    var mode := ModeOf(SplitName(CString(name)).1);
    mode.Some? && IsLink(mode.value)
  }

  /** Opening and every write to the file, for so many chunks, go well. */
  ghost predicate TakesAll(far: Far, n: nat) {
    far.opens && forall i :: 0 <= i < |far.writes| && i < n ==> far.writes[i]
  }

  /** A SEND of n chunks for a file or link at the path is answered with OKAY. */
  ghost predicate Accepts(path: Path, link: bool, far: Far, n: nat, stuck: set<Path>, files: Files, links: Files) {
    if link then n == 1 && far.symlinks && (path in stuck ==> path !in files && path !in links) else TakesAll(far, n)
  }

  /** What was at the path and could not be unlinked. */
  function Left(path: Path, stuck: set<Path>, files: Files): seq<Byte> {
    if path in stuck && path in files then files[path] else []
  }

  /** What a SEND answered with OKAY leaves: the chunks over what stayed of an old file, or a link in place of it. */
  ghost predicate Stored(path: Path, link: bool, far: Far, cs: seq<seq<Byte>>, stuck: set<Path>, files: Files,
                         files': Files, links': Files)
  {
    if link
    then |cs| == 1 && path !in files' && path in links' && links'[path] == CString(Overlay(far.scratch, cs[0]))
    else path in files' && files'[path] == Overlay(Left(path, stuck, files), Concat(cs))
  }

  /**
   * The local file of a push: its content, how opening and reading it go, whether it was read into memory before,
   * and the target if it is a link that can be read.
   */
  datatype Local = Local(content: seq<Byte>, found: bool, gives: seq<Option<nat>>, apk: bool, target: Option<seq<Byte>>)

  /** A file of a kind that is sent. */
  predicate Kind(l: Local, mode: nat) { l.apk || IsRegular(mode) || IsLink(mode) }

  /** The chunks sent for a file. */
  function SentPieces(l: Local, mode: nat): seq<seq<Byte>> {
    if l.apk then ReadPieces(l.content, [])
    else if IsRegular(mode) then (if l.found then ReadPieces(l.content, l.gives) else [])
    else if l.target.Some? then [l.target.value + [0]]
    else []
  }

  function RequestOf(l: Local, rpath: Path, mode: nat, mtime: nat): Request {
    SendReq(SendName(rpath, mode), SentPieces(l, mode), mtime)
  }

  function NameBytes(name: seq<Byte>): seq<Byte> { Header(ID_SEND, |name|) + name }

  lemma RequestParts(l: Local, rpath: Path, mode: nat, mtime: nat)
    ensures var name := SendName(rpath, mode);
            && RequestBytes(RequestOf(l, rpath, mode, mtime))
               == NameBytes(name) + EncodeChunks(SentPieces(l, mode)) + Header(ID_DONE, mtime)
            && NameBytes(name) <= RequestBytes(RequestOf(l, rpath, mode, mtime))
  {
    hide Header, EncodeChunks, SendName, SentPieces;
  }

  lemma NothingMore(before: seq<Byte>, room0: nat, mid: seq<Byte>, room1: nat, a: seq<Byte>, out: seq<Byte>, room: nat,
                    b: seq<Byte>)
    requires Wrote(before, room0, mid, room1, a) && |a| > room0 && Wrote(mid, room1, out, room, b) && b != []
    ensures out == mid && room == room1 && |b| > room1
  {}

  /** Chunks and an end that are within their bounds. */
  ghost predicate Fit(cs: seq<seq<Byte>>, time: nat) { ChunksFit(cs) && time < 0x1_0000_0000 }

  /** A SEND request for the name stands at p. */
  ghost predicate NamedAt(input: seq<Byte>, p: nat, name: seq<Byte>) {
    |name| <= 1024 && p + 8 + |name| <= |input| && input[p..p + 8 + |name|] == Header(ID_SEND, |name|) + name
  }

  lemma NameRead(input: seq<Byte>, p: nat, pos: nat, id: nat, name: seq<Byte>)
    requires p + 8 <= pos <= |input| && input[p..p + 8] == Header(id, |name|) && input[p + 8..pos] == name
    requires pos == p + 8 + |name| && |name| <= 1024
    ensures input[p..pos] == Header(id, |name|) + name && (id == ID_SEND ==> NamedAt(input, p, name))
  {
    hide Header;
    Joined(input, p, p + 8, pos);
  }

  lemma WroteAll(before: seq<Byte>, room0: nat, out: seq<Byte>, room: nat, s: seq<Byte>)
    requires Wrote(before, room0, out, room, s)
    ensures |s| <= room0 ==> out == before + s
  {}

  lemma WroteNone(out: seq<Byte>, room: nat)
    ensures Wrote(out, room, out, room, [])
  {}

  lemma NoPieces(f: seq<Byte>, gives: seq<Option<nat>>)
    ensures Pieces(f, gives, 0) == [] && Taken(|f|, gives, 0) == 0
  {}

  lemma ElsewhereTrans(f: Files, g: Files, h: Files, path: Path)
    requires SameElsewhere(f, g, path) && SameElsewhere(g, h, path)
    ensures SameElsewhere(f, h, path)
  {}

  lemma ElsewhereHere(f: Files, g: Files, path: Path, content: seq<Byte>)
    requires f == g || SameElsewhere(f, g, path)
    ensures SameElsewhere(f, g, path) && SameElsewhere(f, g - {path}, path)
            && SameElsewhere(f, g[path := content], path)
  {}

  /** The answer to a SEND that reached its end. */
  function Status(okay: bool, reason: seq<Byte>): seq<Byte> {
    if okay then Header(ID_OKAY, 0) else FailMessage(reason)
  }

  /** These bytes do not begin with an OKAY status. */
  ghost predicate NotOkay(s: seq<Byte>) { |s| < 8 || Read(s, 0, 4) == ID_FAIL }

  /** A failure, or part of one, does not begin with an OKAY; nor does what follows a whole one. */
  lemma FailedStatus(before: seq<Byte>, room0: nat, out: seq<Byte>, room: nat, reason: seq<Byte>)
    requires Wrote(before, room0, out, room, FailMessage(reason)) && |reason| < 0x1_0000_0000
    ensures before <= out && NotOkay(out[|before|..])
  {
    hide Header, Read;
    var s := out[|before|..];
    assert s == Cut(FailMessage(reason), room0);
    if |s| >= 8 {
      assert s[0..0 + 8] == Header(ID_FAIL, |reason|);
      HeaderAt(s, 0, ID_FAIL, |reason|);
    }
  }

  lemma StillFailed(before: seq<Byte>, room0: nat, sent: seq<Byte>, left: nat, out: seq<Byte>, room: nat,
                    reason: seq<Byte>, first: bool, lost: bool)
    requires |reason| < 0x1_0000_0000
    requires if first then sent == before && left == room0
             else Wrote(before, room0, sent, left, FailMessage(reason)) && |FailMessage(reason)| <= room0
    requires if lost then out == sent else Wrote(sent, left, out, room, FailMessage(reason))
    ensures before <= out && NotOkay(out[|before|..])
  {
    hide Header, Read;
    var s := out[|before|..];
    if first && lost {
      assert s == [];
    } else if first {
      FailedStatus(before, room0, out, room, reason);
    } else {
      assert FailMessage(reason) <= s;
      assert s[0..0 + 8] == Header(ID_FAIL, |reason|);
      HeaderAt(s, 0, ID_FAIL, |reason|);
    }
  }

  lemma StatusSent(before: seq<Byte>, room0: nat, out: seq<Byte>, room: nat, okay: bool, reason: seq<Byte>)
    requires Wrote(before, room0, out, room, Status(okay, reason)) && |reason| < 0x1_0000_0000
    ensures before <= out && (|Status(okay, reason)| <= room0 ==> out == before + Status(okay, reason))
    ensures !(okay && |Status(okay, reason)| <= room0) ==> NotOkay(out[|before|..])
  {
    hide Header, Read;
    if !okay { FailedStatus(before, room0, out, room, reason); }
  }

  /**
   * One process: the bytes it is sent and how far it has read them, the bytes it has sent and how many more
   * the connection takes, its files and links and those of them that cannot be unlinked. arrivals and accepts
   * say how single reads and writes go: so many bytes, or interrupted.
   */
  class Endpoint {
    const input: seq<Byte>
    const stuck: set<Path>
    var pos: nat
    var arrivals: seq<Option<nat>>
    var output: seq<Byte>
    var room: nat
    var accepts: seq<Option<nat>>
    var files: Files
    var links: Files

    constructor (input: seq<Byte>, arrivals: seq<Option<nat>>, room: nat, accepts: seq<Option<nat>>,
                 files: Files, links: Files, stuck: set<Path>)
      ensures this.input == input && this.room == room && this.files == files && this.links == links
              && this.stuck == stuck
      ensures pos == 0 && output == []
    {
      this.input, this.arrivals, this.room, this.accepts := input, arrivals, room, accepts;
      this.files, this.links, this.stuck := files, links, stuck;
      pos, output := 0, [];
    }

    /** adb_read of up to len bytes: some, an interruption, or the end of what was sent. */
    method Recv(len: nat) returns (r: Transfer)
      requires len > 0 && pos <= |input|
      modifies `pos, `arrivals
      ensures |arrivals| <= |old(arrivals)| && old(pos) <= pos <= |input|
      ensures r.Moved? ==> 0 < r.n <= len && pos == old(pos) + r.n
      ensures r.Interrupted? ==> pos == old(pos) && |arrivals| < |old(arrivals)|
      ensures r.Ended? ==> pos == old(pos) == |input|
    {
      if arrivals != [] && arrivals[0].None? {
        arrivals := arrivals[1..];
        return Interrupted;
      }
      if pos == |input| { return Ended; }
      var n := if len < |input| - pos then len else |input| - pos;
      if arrivals != [] {
        if 0 < arrivals[0].value < n { n := arrivals[0].value; }
        arrivals := arrivals[1..];
      }
      pos := pos + n;
      r := Moved(n);
    }

    /** adb_write of data: some of it, an interruption, or a failure for good. */
    method Send(data: seq<Byte>) returns (r: Transfer)
      requires data != []
      modifies `output, `room, `accepts
      ensures |accepts| <= |old(accepts)|
      ensures r.Moved? ==>
                0 < r.n <= |data| && r.n <= old(room) && output == old(output) + data[..r.n] && room == old(room) - r.n
      ensures r.Interrupted? ==> output == old(output) && room == old(room) && |accepts| < |old(accepts)|
      ensures r.Ended? ==> output == old(output) && room == old(room) == 0
    {
      if accepts != [] && accepts[0].None? {
        accepts := accepts[1..];
        return Interrupted;
      }
      if room == 0 { return Ended; }
      var n := if |data| < room then |data| else room;
      if accepts != [] {
        if 0 < accepts[0].value < n { n := accepts[0].value; }
        accepts := accepts[1..];
      }
      output, room := output + data[..n], room - n;
      r := Moved(n);
    }

    /** readx: whatever the single reads give, all n bytes or failure at the end of what was sent. */
    method ReadX(n: nat) returns (ok: bool, data: seq<Byte>)
      requires pos <= |input|
      modifies `pos, `arrivals
      ensures old(pos) <= pos <= |input| && (ok <==> old(pos) + n <= |input|)
      ensures ok ==> pos == old(pos) + n && data == input[old(pos)..pos]
      ensures !ok ==> pos == |input|
    {
      data := [];
      var len := n;
      while len > 0
        invariant 0 <= len <= n && pos == old(pos) + (n - len) <= |input| && data == input[old(pos)..pos]
        decreases len, |arrivals|
      {
        var p := pos;
        var r := Recv(len);
        match r
        case Moved(k) =>
          data := data + input[p..pos];
          len := len - k;
        case Interrupted =>
        case Ended => return false, data;
      }
      ok := true;
    }

    /** writex: whatever the single writes take, all of data or as much as the connection takes at all. */
    method WriteX(data: seq<Byte>) returns (ok: bool)
      modifies `output, `room, `accepts
      ensures Wrote(old(output), old(room), output, room, data) && (ok <==> |data| <= old(room))
    {
      var p := 0;
      while p < |data|
        invariant 0 <= p <= |data| && p <= old(room) && output == old(output) + data[..p] && room == old(room) - p
        decreases |data| - p, |accepts|
      {
        var r := Send(data[p..]);
        match r
        case Moved(k) =>
          assert data[..p] + data[p..][..k] == data[..p + k];
          p := p + k;
        case Interrupted =>
        case Ended => return false;
      }
      assert data[..p] == data;
      ok := true;
    }

    /** A header, read with readx. */
    method ReadHeader() returns (ok: bool, id: nat, size: nat)
      requires pos <= |input|
      modifies `pos, `arrivals
      ensures old(pos) <= pos <= |input| && (ok <==> old(pos) + 8 <= |input|) && id < 0x1_0000_0000
              && size < 0x1_0000_0000
      ensures ok ==> pos == old(pos) + 8 && input[old(pos)..pos] == Header(id, size)
      ensures ok ==> id == Read(input, old(pos), 4) && size == Read(input, old(pos) + 4, 4)
    {
      hide Read, Header;
      id, size := 0, 0;
      ghost var p := pos;
      var data;
      ok, data := ReadX(8);
      if ok {
        HeaderOf(input, p);
        assert data[0..4] == input[p..p + 4] && data[4..8] == input[p + 4..p + 8];
        Same(data, input, p);
        id, size := Read(data, 0, 4), Read(data, 4, 4);
      }
    }

    /** fail_message */
    method SendFail(reason: seq<Byte>) returns (ok: bool)
      modifies `output, `room, `accepts
      ensures Wrote(old(output), old(room), output, room, FailMessage(reason))
              && (ok <==> |FailMessage(reason)| <= old(room))
    {
      hide Header, Wrote;
      var h := Header(ID_FAIL, |reason|);
      ok := WriteX(h);
      ghost var mid, left := output, room;
      if ok {
        ok := WriteX(reason);
        WroteMore(old(output), old(room), mid, left, h, output, room, reason);
      } else {
        WroteCut(old(output), old(room), output, room, h, FailMessage(reason));
      }
    }

    /** adb_unlink, of a file or a link. */
    method Unlink(path: Path)
      modifies `files, `links
      ensures files == (if path in stuck then old(files) else old(files) - {path})
      ensures links == if path in stuck then old(links) else old(links) - {path}
    {
      if path !in stuck { files, links := files - {path}, links - {path}; }
    }

    /**
     * One message of a transfer in either direction: a chunk, the end, or anything else. If the chunks of plan and
     * then the given end are what was sent, it is the next of those.
     */
    method ReadMessage(ghost plan: Option<seq<seq<Byte>>>, ghost k: nat, ghost end: End) returns (m: Message)
      requires pos <= |input| && EndFits(end)
      requires plan.Some? ==> ChunksFit(plan.value) && Planned(input, pos, plan.value, k, EndBytes(end))
      modifies `pos, `arrivals
      ensures old(pos) <= pos <= |input| && (m.Chunk? || m.Done? ==> old(pos) < pos)
      ensures m.Chunk? ==> |m.data| <= 65536 && input[old(pos)..pos] == Header(ID_DATA, |m.data|) + m.data
      ensures m.Done? ==> input[old(pos)..pos] == Header(ID_DONE, m.time) && m.time < 0x1_0000_0000
      ensures plan.Some? && k < |plan.value| ==>
                m == Chunk(plan.value[k]) && Planned(input, pos, plan.value, k + 1, EndBytes(end))
      ensures plan.Some? && k == |plan.value| ==>
                m == if end.EndDone? then Done(end.time) else Invalid(ID_FAIL, end.size)
    {
      hide Header, Planned, At, Read, EndBytes;
      ghost var p := pos;
      if plan.Some? { AsPlanned(input, pos, plan.value, k, end); }
      var ok, id, size := ReadHeader();
      if !ok { return Lost; }
      if id == ID_DONE { return Done(size); }
      if id != ID_DATA { return Invalid(id, size); }
      if size > 65536 { return Oversize; }
      var data;
      ok, data := ReadX(size);
      if !ok { return Lost; }
      assert input[p..pos] == input[p..p + 8] + input[p + 8..pos];
      m := Chunk(data);
    }

    /** A chunk for an open file: it is written behind the others, or the file is given up and the client told. */
    method StoreChunk(path: Path, base: seq<Byte>, written: seq<Byte>, data: seq<Byte>, good: bool, reason: seq<Byte>)
      returns (ok: bool)
      modifies `files, `links, `output, `room, `accepts
      ensures good ==> files == old(files)[path := Overlay(base, written + data)] && links == old(links)
      ensures !good ==> files == if path in stuck then old(files) else old(files) - {path}
      ensures !good ==> links == if path in stuck then old(links) else old(links) - {path}
      ensures good ==> ok && output == old(output) && room == old(room)
      ensures !good ==>
                Wrote(old(output), old(room), output, room, FailMessage(reason))
                && (ok <==> |FailMessage(reason)| <= old(room))
    {
      ok := true;
      if good {
        files := files[path := Overlay(base, written + data)];
      } else {
        Unlink(path);
        ok := SendFail(reason);
      }
    }

    /** Opening the file to be sent, or telling the client that this failed. */
    method OpenToSend(path: Path, opens: bool, reason: seq<Byte>) returns (ok: bool, base: seq<Byte>)
      modifies `files, `output, `room, `accepts
      ensures SameElsewhere(old(files), files, path) && base == if path in old(files) then old(files)[path] else []
      ensures opens ==>
                ok && output == old(output) && room == old(room) && path in files && files[path] == Overlay(base, [])
      ensures !opens ==> files == old(files) && Wrote(old(output), old(room), output, room, FailMessage(reason))
      ensures !opens ==> (ok <==> |FailMessage(reason)| <= old(room))
    {
      hide FailMessage, Wrote;
      ok, base := true, if path in files then files[path] else [];
      if opens {
        files := files[path := base];
      } else {
        ok := SendFail(reason);
      }
    }

    /** The status behind the end, unless a failure was reported already. */
    method FinishSend(fd: bool, ghost before: seq<Byte>, ghost room0: nat, reason: seq<Byte>) returns (ok: bool)
      requires fd ==> output == before && room == room0
      requires !fd ==> Wrote(before, room0, output, room, FailMessage(reason)) && |FailMessage(reason)| <= room0
      modifies `output, `room, `accepts
      ensures Wrote(before, room0, output, room, Status(fd, reason)) && (ok <==> |Status(fd, reason)| <= room0)
    {
      hide Header, Wrote;
      ok := true;
      if fd { ok := WriteX(Header(ID_OKAY, 0)); }
    }

    /**
     * handle_send_file. opens and writes say how opening the file and each write to it go. If it succeeds, it has
     * read chunks and their end and sent one status; an OKAY only with all chunks written. On a planned stream it
     * sends the status, OKAY exactly if opening and all writes went well, and fails only if that does not get through.
     */
    method HandleSendFile(path: Path, far: Far, ghost plan: Option<seq<seq<Byte>>>, ghost t: nat)
      returns (ok: bool, ghost okay: bool, ghost cs: seq<seq<Byte>>, ghost time: nat)
      requires pos <= |input| && t < 0x1_0000_0000 && |far.reason| < 0x1_0000_0000
      requires plan.Some? ==> ChunksFit(plan.value) && Planned(input, pos, plan.value, 0, EndBytes(EndDone(t)))
      modifies this
      ensures old(pos) <= pos <= |input| && SameElsewhere(old(files), files, path)
              && SameElsewhere(old(links), links, path)
      ensures ok || okay ==> input[old(pos)..pos] == EncodeChunks(cs) + Header(ID_DONE, time) && Fit(cs, time)
      ensures ok ==> output == old(output) + Status(okay, far.reason)
      ensures okay ==> links == old(links) && path in files
      ensures okay ==> files[path] == Overlay(if path in old(files) then old(files)[path] else [], Concat(cs))
      ensures !okay && path !in stuck && path !in old(files) ==> path !in files
      ensures plan.Some? && (ok || okay) ==> cs == plan.value && time == t
      ensures plan.Some? ==>
                (okay <==> TakesAll(far, |plan.value|)) && (ok <==> |Status(okay, far.reason)| <= old(room))
      ensures plan.Some? ==> Wrote(old(output), old(room), output, room, Status(okay, far.reason))
      ensures old(output) <= output && (!(ok && okay) ==> NotOkay(output[|old(output)|..]))
    {
      hide Header, Planned, EncodeChunks, Concat, ChunksFit, FailMessage, Overlay, SameElsewhere, So, EndBytes,
        NotOkay, Wrote;
      var reason := far.reason;
      cs, time, okay := [], 0, far.opens;
      NoneEncoded();
      ghost var end, start := EndDone(t), pos;
      Nothing(input, pos, plan, end);
      ElsewhereHere(links, links, path, []);
      var fd := far.opens;
      var base;
      ok, base := OpenToSend(path, far.opens, reason);
      if !ok {
        FailedStatus(old(output), old(room), output, room, reason);
        return;
      }
      var written: seq<Byte>, k := [], 0;
      while true
        invariant start <= pos <= |input| && So(input, start, pos, cs, plan, end) && ChunksFit(cs) && fd == okay
        invariant fd ==> output == old(output) && room == old(room)
        invariant !fd ==>
                    Wrote(old(output), old(room), output, room, FailMessage(reason))
                    && |FailMessage(reason)| <= old(room)
        invariant SameElsewhere(old(files), files, path) && SameElsewhere(old(links), links, path)
        invariant fd ==>
                    written == Concat(cs) && path in files && files[path] == Overlay(base, written)
                    && links == old(links)
        invariant !fd && path !in stuck && path !in old(files) ==> path !in files
        invariant fd ==> k == |cs| && far.opens && forall i :: 0 <= i < k && i < |far.writes| ==> far.writes[i]
        invariant !fd ==> !far.opens || exists i :: 0 <= i < |cs| && i < |far.writes| && !far.writes[i]
        decreases |input| - pos
      {
        ghost var p := pos;
        Next(input, start, pos, cs, plan, end);
        ElsewhereHere(old(files), files, path, []);
        ElsewhereHere(old(links), links, path, []);
        var m := ReadMessage(plan, |cs|, end);
        if m.Done? {
          Last(input, start, p, pos, cs, plan, end, m.time);
          time := m.time;
          break;
        }
        if !m.Chunk? {
          ghost var sent, left := output, room;
          if m.Invalid? || m.Oversize? { var told := SendFail(reason); }
          StillFailed(old(output), old(room), sent, left, output, room, reason, fd, m.Lost?);
          Unlink(path);
          return false, false, cs, time;
        }
        More(input, start, p, pos, cs, plan, end, m.data);
        FitsMore(cs, m.data);
        cs := cs + [m.data];
        if fd {
          fd := k >= |far.writes| || far.writes[k];
          okay := fd;
          ElsewhereHere(old(files), files, path, Overlay(base, written + m.data));
          ok := StoreChunk(path, base, written, m.data, fd, reason);
          if !ok {
            FailedStatus(old(output), old(room), output, room, reason);
            return;
          }
          written := written + m.data;
          k := k + 1;
        }
      }
      ok := FinishSend(fd, old(output), old(room), reason);
      StatusSent(old(output), old(room), output, room, fd, reason);
    }

    /**
     * handle_send_link: one chunk names the target, which is the text in the buffer, and the end follows. On a planned
     * stream the status is OKAY exactly if there is one chunk and the link can be made.
     */
    method HandleSendLink(path: Path, far: Far, ghost plan: Option<seq<seq<Byte>>>, ghost t: nat)
      returns (ok: bool, ghost okay: bool, ghost cs: seq<seq<Byte>>, ghost time: nat)
      requires pos <= |input| && t < 0x1_0000_0000 && |far.reason| < 0x1_0000_0000
      requires plan.Some? ==> ChunksFit(plan.value) && Planned(input, pos, plan.value, 0, EndBytes(EndDone(t)))
      modifies this
      ensures old(pos) <= pos <= |input| && files == old(files) && SameElsewhere(old(links), links, path)
      ensures ok ==> okay && output == old(output) + Status(okay, far.reason)
      ensures okay ==> input[old(pos)..pos] == EncodeChunks(cs) + Header(ID_DONE, time) && Fit(cs, time)
      ensures okay ==> |cs| == 1 && path !in files && links == old(links)[path := CString(Overlay(far.scratch, cs[0]))]
      ensures plan.Some? && okay ==> cs == plan.value && time == t
      ensures plan.Some? ==> (okay <==> |plan.value| == 1 && far.symlinks && path !in old(files) && path !in old(links))
      ensures plan.Some? ==> Wrote(old(output), old(room), output, room, Status(okay, far.reason))
      ensures plan.Some? ==> (ok <==> okay && 8 <= old(room))
      ensures old(output) <= output && (!(ok && okay) ==> NotOkay(output[|old(output)|..]))
    {
      hide Header, Planned, EncodeChunks, ChunksFit, FailMessage, Overlay, SameElsewhere, So, EndBytes, CString,
        NotOkay, Wrote, Concat;
      var reason := far.reason;
      cs, time, okay := [], 0, false;
      ghost var end, start := EndDone(t), pos;
      Nothing(input, pos, plan, end);
      Next(input, start, pos, cs, plan, end);
      ElsewhereHere(links, links, path, []);
      var m := ReadMessage(plan, 0, end);
      if !m.Chunk? {
        if !m.Lost? { ok := SendFail(reason); }
        StillFailed(old(output), old(room), old(output), old(room), output, room, reason, true, m.Lost?);
        return false, okay, cs, time;
      }
      More(input, start, start, pos, cs, plan, end, m.data);
      NoneEncoded();
      FitsMore([], m.data);
      cs := [m.data];
      assert [] + [m.data] == cs;
      if !far.symlinks || path in files || path in links {
        ok := SendFail(reason);
        FailedStatus(old(output), old(room), output, room, reason);
        return false, okay, cs, time;
      }
      var target := CString(Overlay(far.scratch, m.data));
      ElsewhereHere(links, links, path, target);
      links := links[path := target];
      ghost var p := pos;
      Ending(input, start, pos, cs, plan, end);
      var got, id, size := ReadHeader();
      if !got {
        StillFailed(old(output), old(room), old(output), old(room), output, room, reason, true, true);
        return false, okay, cs, time;
      }
      if id != ID_DONE {
        ok := SendFail(reason);
        FailedStatus(old(output), old(room), output, room, reason);
        return false, okay, cs, time;
      }
      okay, time := true, size;
      Last(input, start, p, pos, cs, plan, end, size);
      ok := WriteX(Header(ID_OKAY, 0));
      StatusSent(old(output), old(room), output, room, true, reason);
    }

    /** do_send: the path in front of the last comma, unlinked first; the mode behind it says file or link. */
    method DoSend(name: seq<Byte>, far: Far, ghost plan: Option<seq<seq<Byte>>>, ghost t: nat)
      returns (ok: bool, ghost okay: bool, ghost cs: seq<seq<Byte>>, ghost time: nat)
      requires pos <= |input| && t < 0x1_0000_0000 && |far.reason| < 0x1_0000_0000
      requires plan.Some? ==> ChunksFit(plan.value) && Planned(input, pos, plan.value, 0, EndBytes(EndDone(t)))
      modifies this
      ensures var path := PathOf(name);
              && old(pos) <= pos <= |input|
              && SameElsewhere(old(files), files, path) && SameElsewhere(old(links), links, path)
      ensures ok || okay ==> input[old(pos)..pos] == EncodeChunks(cs) + Header(ID_DONE, time) && Fit(cs, time)
      ensures ok ==> output == old(output) + Status(okay, far.reason)
      ensures okay ==> Stored(PathOf(name), LinkNamed(name), far, cs, stuck, old(files), files, links)
      ensures !okay && PathOf(name) !in stuck ==> PathOf(name) !in files
      ensures plan.Some? && (ok || okay) ==> cs == plan.value && time == t
      ensures plan.Some? ==>
                (okay <==> Accepts(PathOf(name), LinkNamed(name), far, |plan.value|, stuck, old(files), old(links)))
      ensures plan.Some? ==> Wrote(old(output), old(room), output, room, Status(okay, far.reason))
      ensures plan.Some? && !LinkNamed(name) ==> (ok <==> |Status(okay, far.reason)| <= old(room))
      ensures plan.Some? && LinkNamed(name) ==> (ok <==> okay && 8 <= old(room))
      ensures old(output) <= output && (!(ok && okay) ==> NotOkay(output[|old(output)|..]))
    {
      hide Header, Planned, EncodeChunks, Concat, ChunksFit, Overlay, NotOkay, CString, PathOf, LinkNamed,
        SameElsewhere, EndBytes, Status, Wrote;
      var path := PathOf(name);
      ghost var f, l := files, links;
      Unlink(path);
      ElsewhereHere(f, f, path, []);
      ElsewhereHere(l, l, path, []);
      ghost var f', l' := files, links;
      if LinkNamed(name) {
        ok, okay, cs, time := HandleSendLink(path, far, plan, t);
        ElsewhereHere(f', files, path, []);
      } else {
        ok, okay, cs, time := HandleSendFile(path, far, plan, t);
      }
      ElsewhereTrans(f, f', files, path);
      ElsewhereTrans(l, l', links, path);
    }

    /** A chunk written with its header. */
    method SendChunk(data: seq<Byte>) returns (ok: bool)
      modifies `output, `room, `accepts
      ensures Wrote(old(output), old(room), output, room, Header(ID_DATA, |data|) + data)
      ensures ok <==> |Header(ID_DATA, |data|) + data| <= old(room)
    {
      hide Header, Wrote;
      var h := Header(ID_DATA, |data|);
      ok := WriteX(h);
      ghost var mid, left := output, room;
      if ok {
        ok := WriteX(data);
        WroteMore(old(output), old(room), mid, left, h, output, room, data);
      } else {
        WroteCut(old(output), old(room), output, room, h, h + data);
      }
    }

    /**
     * do_recv: the pieces of the file that can be read and its end, or a failure, as far as the connection takes
     * them.
     */
    method DoRecv(path: Path, far: Far) returns (ok: bool)
      modifies `output, `room, `accepts
      ensures Wrote(old(output), old(room), output, room, Reply(files, far, path))
      ensures ok <==> |Reply(files, far, path)| <= old(room)
    {
      hide Header, EncodeChunks, Wrote, Taken, Stop, Pieces, ReadsAll, ReadPieces;
      ghost var o, r, reply := output, room, Reply(files, far, path);
      NoneEncoded();
      if !far.opens || path !in files {
        ok := SendFail(far.reason);
        assert [] + FailMessage(far.reason) == FailMessage(far.reason);
        return;
      }
      var f, gives := files[path], far.gives;
      var off, k := 0, 0;
      NoPieces(f, gives);
      WroteNone(output, room);
      while off < |f|
        invariant off == Taken(|f|, gives, k) <= |f| && Stop(|f|, gives, k) == Stop(|f|, gives, 0)
        invariant Wrote(o, r, output, room, EncodeChunks(Pieces(f, gives, k)))
                  && |EncodeChunks(Pieces(f, gives, k))| <= r
      {
        ghost var sent, mid, left := EncodeChunks(Pieces(f, gives, k)), output, room;
        if k < |gives| && gives[k].None? {
          AtStop(f, gives, k);
          ok := SendFail(far.reason);
          WroteMore(o, r, mid, left, sent, output, room, FailMessage(far.reason));
          return;
        }
        NextPiece(f, gives, k);
        var n := ReadSize(if k < |gives| then gives[k].value else 65536, |f| - off);
        ok := SendChunk(f[off..off + n]);
        WroteMore(o, r, mid, left, sent, output, room, Header(ID_DATA, n) + f[off..off + n]);
        if !ok {
          WroteCut(o, r, output, room, EncodeChunks(Pieces(f, gives, k + 1)), reply);
          return;
        }
        off, k := off + n, k + 1;
      }
      AtStop(f, gives, k);
      ghost var sent, mid, left := EncodeChunks(Pieces(f, gives, k)), output, room;
      ok := WriteX(Header(ID_DONE, 0));
      WroteMore(o, r, mid, left, sent, output, room, Header(ID_DONE, 0));
    }

    /**
     * One request of file_sync_service; next says whether the service goes on to another. For any input it then stands
     * behind exactly one whole request, and a SEND has had exactly one status. A planned request is answered as far as
     * the connection takes the answer.
     */
    method Serve(far: Far, ghost plan: Option<Request>)
      returns (next: bool, id: nat, name: seq<Byte>, ghost okay: bool, ghost cs: seq<seq<Byte>>, ghost time: nat)
      requires pos <= |input| && |far.reason| < 0x1_0000_0000
      requires plan.Some? ==> RequestFits(plan.value) && At(input, pos, RequestBytes(plan.value))
      modifies this
      ensures old(pos) <= pos <= |input|
      ensures okay ==> id == ID_SEND && NamedAt(input, old(pos), name)
      ensures next || okay ==>
                input[old(pos)..pos]
                == Header(id, |name|) + name + if id == ID_SEND then EncodeChunks(cs) + Header(ID_DONE, time) else []
      ensures id == ID_SEND && next ==> output == old(output) + Status(okay, far.reason)
      ensures id == ID_SEND ==> old(output) <= output && (!(next && okay) ==> NotOkay(output[|old(output)|..]))
      ensures okay ==> Stored(PathOf(name), LinkNamed(name), far, cs, stuck, old(files), files, links) && Fit(cs, time)
      ensures || (!okay && files == old(files) && links == old(links))
              || (&& id == ID_SEND && NamedAt(input, old(pos), name) && SameElsewhere(old(files), files, PathOf(name))
                  && SameElsewhere(old(links), links, PathOf(name))
                  && (!okay && PathOf(name) !in stuck ==> PathOf(name) !in files))
      ensures id == ID_RECV && next ==> output == old(output) + Reply(files, far, CString(name))
      ensures plan.Some? ==> id == if plan.value.SendReq? then ID_SEND else ID_RECV
      ensures plan.Some? && |plan.value.name| > 1024 ==>
                && !next && !okay && files == old(files) && links == old(links)
                && Wrote(old(output), old(room), output, room, FailMessage(far.reason))
      ensures plan.Some? && |plan.value.name| <= 1024 ==> name == plan.value.name
      ensures plan.Some? && plan.value.SendReq? && |plan.value.name| <= 1024 ==>
                && Wrote(old(output), old(room), output, room, Status(okay, far.reason))
                && (okay <==>
                    Accepts(PathOf(name), LinkNamed(name), far, |plan.value.cs|, stuck, old(files), old(links)))
                && (next || okay ==> cs == plan.value.cs && time == plan.value.t)
                && (!LinkNamed(name) ==> (next <==> |Status(okay, far.reason)| <= old(room)))
                && (LinkNamed(name) ==> (next <==> okay && 8 <= old(room)))
      ensures plan.Some? && plan.value.RecvReq? && |plan.value.name| <= 1024 ==>
                && Wrote(old(output), old(room), output, room, Reply(files, far, CString(name)))
                && (next <==> |Reply(files, far, CString(name))| <= old(room))
    {
      hide Header, EncodeChunks, Concat, FailMessage, At, Read, Planned, ChunksFit, PathOf, LinkNamed, CString,
        RequestBytes, NotOkay, SameElsewhere, Stored, Accepts, Status, Reply, Wrote, NamedAt, Fit;
      next, id, name, okay, cs, time := false, 0, [], false, [], 0;
      ghost var p, was, left, reason := pos, output, room, far.reason;
      ghost var chunks, t := None, 0;
      if plan.Some? { RequestAt(input, pos, plan.value); }
      var ok, rid, n := ReadHeader();
      if !ok {
        ok := SendFail(far.reason);
        return;
      }
      id := rid;
      if n > 1024 {
        ok := SendFail(far.reason);
        FailedStatus(was, left, output, room, reason);
        return;
      }
      ok, name := ReadX(n);
      if !ok {
        name := [];
        ok := SendFail(far.reason);
        FailedStatus(was, left, output, room, reason);
        return;
      }
      NameRead(input, p, pos, id, name);
      if id == ID_SEND {
        ghost var q := pos;
        if plan.Some? { chunks, t := Some(plan.value.cs), plan.value.t; }
        next, okay, cs, time := DoSend(name, far, chunks, t);
        Joined(input, p, q, pos);
      } else if id == ID_RECV {
        next := DoRecv(CString(name), far);
        WroteAll(was, left, output, room, Reply(files, far, CString(name)));
      } else if id == ID_STAT || id == ID_LIST {
        next := WriteX(far.other);
      } else if id != ID_QUIT {
        ok := SendFail(far.reason);
      }
      assert Header(id, |name|) + name + [] == Header(id, |name|) + name;
    }

    /** write_data_file: the pieces that can be read, as far as the connection takes them; a failing read ends them. */
    method WriteDataFile(content: seq<Byte>, found: bool, gives: seq<Option<nat>>) returns (ok: bool)
      modifies `output, `room, `accepts
      ensures !found ==> !ok && output == old(output) && room == old(room)
      ensures found ==> Wrote(old(output), old(room), output, room, EncodeChunks(ReadPieces(content, gives)))
      ensures found ==> (ok <==> |EncodeChunks(ReadPieces(content, gives))| <= old(room))
    {
      hide Header, EncodeChunks, Wrote, Taken, Stop, Pieces, ReadsAll, ReadPieces;
      if !found { return false; }
      ghost var o, r := output, room;
      var off, k := 0, 0;
      NoPieces(content, gives);
      NoneEncoded();
      WroteNone(output, room);
      ok := true;
      while off < |content|
        invariant ok && off == Taken(|content|, gives, k) <= |content|
                  && Stop(|content|, gives, k) == Stop(|content|, gives, 0)
        invariant Wrote(o, r, output, room, EncodeChunks(Pieces(content, gives, k)))
                  && |EncodeChunks(Pieces(content, gives, k))| <= r
      {
        ghost var sent, mid, left := EncodeChunks(Pieces(content, gives, k)), output, room;
        if k < |gives| && gives[k].None? { break; }
        NextPiece(content, gives, k);
        var n := ReadSize(if k < |gives| then gives[k].value else 65536, |content| - off);
        ok := WriteX(Header(ID_DATA, n) + content[off..off + n]);
        WroteMore(o, r, mid, left, sent, output, room, Header(ID_DATA, n) + content[off..off + n]);
        if !ok {
          WroteCut(o, r, output, room, EncodeChunks(Pieces(content, gives, k + 1)),
                   EncodeChunks(ReadPieces(content, gives)));
          return;
        }
        off, k := off + n, k + 1;
      }
      AtStop(content, gives, k);
    }

    /** write_data_buffer: the same for a file that is in memory, in pieces as large as may be. */
    method WriteDataBuffer(content: seq<Byte>) returns (ok: bool)
      modifies `output, `room, `accepts
      ensures Wrote(old(output), old(room), output, room, EncodeChunks(ReadPieces(content, [])))
      ensures ok <==> |EncodeChunks(ReadPieces(content, []))| <= old(room)
    {
      hide Header, EncodeChunks, Wrote, Taken, Stop, Pieces, ReadsAll, ReadPieces;
      ghost var o, r := output, room;
      var total := 0;
      ghost var k := 0;
      NoPieces(content, []);
      NoneEncoded();
      WroteNone(output, room);
      ok := true;
      while total < |content|
        invariant ok && total == Taken(|content|, [], k) <= |content|
                  && Stop(|content|, [], k) == Stop(|content|, [], 0)
        invariant Wrote(o, r, output, room, EncodeChunks(Pieces(content, [], k)))
                  && |EncodeChunks(Pieces(content, [], k))| <= r
      {
        ghost var sent, mid, left := EncodeChunks(Pieces(content, [], k)), output, room;
        NextPiece(content, [], k);
        var count := |content| - total;
        if count > 65536 { count := 65536; }
        ok := WriteX(Header(ID_DATA, count) + content[total..total + count]);
        WroteMore(o, r, mid, left, sent, output, room, Header(ID_DATA, count) + content[total..total + count]);
        if !ok {
          WroteCut(o, r, output, room, EncodeChunks(Pieces(content, [], k + 1)), EncodeChunks(ReadPieces(content, [])));
          return;
        }
        total, k := total + count, k + 1;
      }
      AtStop(content, [], k);
    }

    /** write_data_link: the target and a NUL, if the link can be read. */
    method WriteDataLink(target: Option<seq<Byte>>) returns (ok: bool)
      modifies `output, `room, `accepts
      ensures target.None? ==> !ok && output == old(output) && room == old(room)
      ensures target.Some? ==> Wrote(old(output), old(room), output, room, EncodeChunks([target.value + [0]]))
      ensures target.Some? ==> (ok <==> |EncodeChunks([target.value + [0]])| <= old(room))
    {
      hide Header, Wrote, EncodeChunks;
      if target.None? { return false; }
      var data := target.value + [0];
      NoneEncoded();
      Snoc([], data);
      assert [] + [data] == [data] && [] + (Header(ID_DATA, |data|) + data) == Header(ID_DATA, |data|) + data;
      ok := WriteX(Header(ID_DATA, |data|) + data);
    }

    /** sync_send up to the end of the data. Whether the data could be read or written is not looked at. */
    method SyncSend(local: Local, rpath: Path, mode: nat, mtime: nat) returns (ok: bool)
      modifies `output, `room, `accepts
      ensures |rpath| > 1024 ==> !ok && output == old(output)
      ensures |rpath| <= 1024 && Kind(local, mode) ==>
                && Wrote(old(output), old(room), output, room, RequestBytes(RequestOf(local, rpath, mode, mtime)))
                && (ok <==> |RequestBytes(RequestOf(local, rpath, mode, mtime))| <= old(room))
      ensures |rpath| <= 1024 && !Kind(local, mode) ==>
                !ok && Wrote(old(output), old(room), output, room, NameBytes(SendName(rpath, mode)))
    {
      hide Header, EncodeChunks, SendName, Decimal, Wrote, ReadPieces, IsRegular, IsLink;
      if |rpath| > 1024 { return false; }
      ghost var o, r, req := output, room, RequestBytes(RequestOf(local, rpath, mode, mtime));
      ghost var cs := SentPieces(local, mode);
      var tmp := [44] + Decimal(mode);
      NameIs(rpath, mode);
      ghost var nb := NameBytes(SendName(rpath, mode));
      RequestParts(local, rpath, mode, mtime);
      ok := SendName3(Header(ID_SEND, |rpath| + |tmp|), rpath, tmp);
      if !ok {
        WroteCut(o, r, output, room, nb, req);
        return;
      }
      ghost var mid, left := output, room;
      var written;
      NoneEncoded();
      WroteNone(mid, left);
      if local.apk {
        written := WriteDataBuffer(local.content);
      } else if IsRegular(mode) {
        written := WriteDataFile(local.content, local.found, local.gives);
      } else if IsLink(mode) {
        written := WriteDataLink(local.target);
      } else {
        return false;
      }
      ghost var data, mid2, left2 := EncodeChunks(cs), output, room;
      WroteMore(o, r, mid, left, nb, mid2, left2, data);
      ok := WriteX(Header(ID_DONE, mtime));
      if |data| <= left {
        WroteMore(o, r, mid2, left2, nb + data, output, room, Header(ID_DONE, mtime));
      } else {
        NothingMore(mid, left, mid2, left2, data, output, room, Header(ID_DONE, mtime));
        WroteCut(o, r, output, room, nb + data, req);
      }
    }

    /** The request header and the two parts of the name. */
    method SendName3(h: seq<Byte>, a: seq<Byte>, b: seq<Byte>) returns (ok: bool)
      modifies `output, `room, `accepts
      ensures Wrote(old(output), old(room), output, room, h + (a + b)) && (ok <==> |h + (a + b)| <= old(room))
    {
      hide Wrote;
      ghost var o, r := output, room;
      ok := WriteX(h);
      if !ok {
        WroteCut(o, r, output, room, h, h + (a + b));
        return;
      }
      ghost var mid, left := output, room;
      ok := WriteX(a);
      WroteMore(o, r, mid, left, h, output, room, a);
      assert h + a + b == h + (a + b);
      if !ok {
        WroteCut(o, r, output, room, h + a, h + (a + b));
        return;
      }
      mid, left := output, room;
      ok := WriteX(b);
      WroteMore(o, r, mid, left, h + a, output, room, b);
    }

    /** The rest of sync_send: the status. */
    method ReadStatus() returns (ret: int)
      requires pos <= |input|
      modifies `pos, `arrivals
      ensures ret == 0 <==> old(pos) + 8 <= |input| && Read(input, old(pos), 4) == ID_OKAY
    {
      hide Read, Header;
      var ok, id, size := ReadHeader();
      if !ok { return -1; }
      if id != ID_OKAY {
        if id == ID_FAIL {
          var text;
          ok, text := ReadX(if size > 256 then 256 else size);
        }
        return -1;
      }
      ret := 0;
    }

    /**
     * sync_recv behind the request. creates and writes say how creating and writing the local file go. It returns 0
     * only behind chunks and an end, and the local file is then as these have it. If plan and end are what the far
     * side sent, it does so exactly if the file is not needed or can be created, and all writes go well.
     */
    method SyncRecv(lpath: Path, creates: bool, writes: seq<bool>, ghost plan: Option<seq<seq<Byte>>>, ghost end: End)
      returns (ret: int, ghost id': nat, ghost size: nat, ghost cs: seq<seq<Byte>>)
      requires pos <= |input| && EndFits(end)
      requires plan.Some? ==> ChunksFit(plan.value) && Planned(input, pos, plan.value, 0, EndBytes(end))
      requires plan.Some? && end.EndFail? ==> FailRead(end.size) <= |end.text|
      modifies `pos, `arrivals, `files, `links
      ensures old(pos) <= pos <= |input| && SameElsewhere(old(files), files, lpath)
      ensures ret == 0 ==> id' != ID_DATA && id' < 0x1_0000_0000 && Fit(cs, size)
      ensures ret == 0 ==> EncodeChunks(cs) + Header(id', size) <= input[old(pos)..]
      ensures ret == 0 && id' == ID_FAIL ==> |EncodeChunks(cs)| + 8 + FailRead(size) <= |input| - old(pos)
      ensures ret == 0 ==> files == Received(lpath, stuck, old(files), id' == ID_DONE, cs)
      ensures plan.Some? ==>
                (ret == 0 <==> (end.EndDone? || plan.value != [] ==> creates) && AllGood(writes, |plan.value|))
    {
      hide Header, EncodeChunks, Concat, SameElsewhere, So, Read, Planned, EndBytes, ChunksFit, Holds, Received,
        AllGood;
      cs, id', size := [], 0, 0;
      NoneEncoded();
      ghost var start := pos;
      Nothing(input, pos, plan, end);
      Ending(input, start, pos, cs, plan, end);
      var ok, id, len := CreateLocal(lpath, creates);
      if !ok { return -1, id', size, cs; }
      ghost var p := start;
      var k := 0;
      NoneGood(writes);
      while id == ID_DATA
        invariant start <= p && p + 8 == pos <= |input| && So(input, start, p, cs, plan, end) && ChunksFit(cs)
        invariant input[p..pos] == Header(id, len) && id == Read(input, p, 4) && len == Read(input, p + 4, 4)
        invariant id < 0x1_0000_0000 && len < 0x1_0000_0000
        invariant Holds(old(files), lpath, cs != [] || id == ID_DATA || id == ID_DONE, Concat(cs), files)
        invariant k == |cs| && AllGood(writes, k) && (cs != [] || id == ID_DATA || id == ID_DONE ==> creates)
        decreases |input| - pos
      {
        ghost var data := [];
        Ending(input, start, p, cs, plan, end);
        NextGood(writes, k);
        ok, id, len, data := TakeChunk(lpath, len, k >= |writes| || writes[k], old(files), start, p, cs, plan, end);
        if !ok {
          if plan.Some? { NotGood(writes, k, |plan.value|); }
          return -1, id', size, cs;
        }
        FitsMore(cs, data);
        cs := cs + [data];
        k := k + 1;
        p := pos - 8;
      }
      Ending(input, start, p, cs, plan, end);
      Arrived(input, start, p, pos, cs, plan, end, id, len);
      HoldsElsewhere(old(files), lpath, cs != [] || id == ID_DONE, Concat(cs), files, stuck, id == ID_DONE, cs);
      id', size := id, len;
      ret := 0;
      if id != ID_DONE { ret := DropLocal(lpath, id, len); }
    }

    /** The first header of sync_recv; with data or the end to come the local file is created. */
    method CreateLocal(lpath: Path, creates: bool) returns (ok: bool, id: nat, len: nat)
      requires pos <= |input|
      modifies `pos, `arrivals, `files, `links
      ensures old(pos) <= pos <= |input| && SameElsewhere(old(files), files, lpath)
      ensures ok ==>
                pos == old(pos) + 8 && input[old(pos)..pos] == Header(id, len) && id < 0x1_0000_0000
                && len < 0x1_0000_0000
      ensures ok ==> id == Read(input, old(pos), 4) && len == Read(input, old(pos) + 4, 4)
      ensures ok ==> Holds(old(files), lpath, id == ID_DATA || id == ID_DONE, [], files)
      ensures old(pos) + 8 <= |input| ==>
                var first := Read(input, old(pos), 4);
                ok <==> (first == ID_DATA || first == ID_DONE ==> creates)
      ensures ok ==> (id == ID_DATA || id == ID_DONE ==> creates)
    {
      hide Header, Read;
      ok, id, len := ReadHeader();
      if ok && (id == ID_DATA || id == ID_DONE) {
        Unlink(lpath);
        if !creates { return false, id, len; }
        files := files[lpath := []];
        assert files == old(files)[lpath := []];
      }
    }

    /** One chunk of sync_recv into the local file, and the header behind it. */
    method TakeChunk(lpath: Path, size: nat, good: bool, ghost was: Files, ghost start: nat, ghost p: nat,
                     ghost cs: seq<seq<Byte>>, ghost plan: Option<seq<seq<Byte>>>, ghost end: End)
      returns (ok: bool, id: nat, len: nat, ghost data: seq<Byte>)
      requires start <= p && p + 8 == pos <= |input| && So(input, start, p, cs, plan, end) && EndFits(end)
      requires input[p..pos] == Header(ID_DATA, size) && Read(input, p, 4) == ID_DATA && size == Read(input, p + 4, 4)
      requires Holds(was, lpath, true, Concat(cs), files)
      modifies `pos, `arrivals, `files
      ensures p + 8 <= pos <= |input| && SameElsewhere(was, files, lpath)
      ensures ok ==> good && |data| <= 65536 && p + 16 <= pos && Holds(was, lpath, true, Concat(cs + [data]), files)
      ensures ok ==> So(input, start, pos - 8, cs + [data], plan, end)
      ensures ok ==> input[pos - 8..pos] == Header(id, len) && id < 0x1_0000_0000 && len < 0x1_0000_0000
      ensures ok ==> id == Read(input, pos - 8, 4) && len == Read(input, pos - 4, 4)
      ensures plan.Some? && good ==> ok
    {
      hide Header, EncodeChunks, Concat, So, Read, Planned, EndBytes;
      ok, id, len, data := false, 0, 0, [];
      Ending(input, start, p, cs, plan, end);
      if size > 65536 { return; }
      var bytes;
      ghost var q := pos;
      ok, bytes := ReadX(size);
      if !ok { return; }
      data := bytes;
      Joined(input, p, q, pos);
      if !good { return false, id, len, data; }
      files := files[lpath := files[lpath] + bytes];
      More(input, start, p, pos, cs, plan, end, bytes);
      assert files == was[lpath := Concat(cs + [data])];
      Ending(input, start, pos, cs + [bytes], plan, end);
      ok, id, len := ReadHeader();
    }

    /** The remote_error part: the local file goes, and a reason is read if there is one. */
    method DropLocal(lpath: Path, id: nat, len: nat) returns (ret: int)
      requires pos <= |input|
      modifies `pos, `arrivals, `files, `links
      ensures files == (if lpath in stuck then old(files) else old(files) - {lpath}) && old(pos) <= pos <= |input|
      ensures ret == 0 <==> id != ID_FAIL || old(pos) + FailRead(len) <= |input|
    {
      Unlink(lpath);
      if id == ID_FAIL {
        var ok, text := ReadX(FailRead(len));
        if !ok { return -1; }
      }
      ret := 0;
    }
  }
}
