/**
 * Pushing and pulling a file: the client of the file sync protocol against its service, over connections that may
 * break at any byte.
 */
module PushPull {
  import opened Arith
  import opened Lists
  import opened LittleEndian
  import opened SyncMessages
  import opened FileSync

  /** How single writes and reads go at both ends, there and back. */
  datatype Pace = Pace(
    asking: seq<Option<nat>>, serving: seq<Option<nat>>, answering: seq<Option<nat>>, receiving: seq<Option<nat>>)

  ghost predicate NoNul(path: Path) { forall i :: 0 <= i < |path| ==> path[i] != 0 }

  // ---- push ----------------------------------------------------------------------------------------

  /** What is sent of a file: a failing read ends it, and an apk has been read before. */
  function SentBytes(l: Local): (b: seq<Byte>)
    ensures b <= l.content
  {
    if l.apk then l.content else if l.found then ReadBytes(l.content, l.gives) else []
  }

  /** No read fails before the end of the file. */
  ghost predicate Whole(l: Local) {
    l.apk || (if l.found then ReadsAll(|l.content|, l.gives) else l.content == [])
  }

  /** Less than the file is sent exactly if a read fails before its end, or it cannot be opened and is not empty. */
  lemma SentExact(l: Local, mode: nat)
    requires l.apk || IsRegular(mode)
    ensures Concat(SentPieces(l, mode)) == SentBytes(l) && ChunksFit(SentPieces(l, mode))
    ensures SentBytes(l) == l.content <==> Whole(l)
  {
    hide ReadPieces, ReadBytes, ReadsAll, Concat, ChunksFit;
    NoneEncoded();
    ReadExact(l.content, l.gives);
    ReadExact(l.content, []);
    AllGivenReads(|l.content|, []);
  }

  /** The file at the far end is the local one. base is what was there and could not be unlinked. */
  ghost predicate Exact(base: seq<Byte>, l: Local) {
    var n := |SentBytes(l)|;
    if Whole(l) then |base| <= |l.content| else |base| == |l.content| && base[n..] == l.content[n..]
  }

  /**
   * What a push leaves is the local file exactly if all of it was sent and nothing longer was in the way, or what was
   * in the way makes up for what was not sent.
   */
  lemma PushExact(base: seq<Byte>, l: Local)
    ensures Overlay(base, SentBytes(l)) == l.content <==> Exact(base, l)
  {
    hide ReadsAll, ReadBytes;
    var b, c := SentBytes(l), l.content;
    var n := |b|;
    SentExact(l, 0x8000);
    var o := Overlay(base, b);
    assert |o| == if |base| > n then |base| else n;
    assert c == b + c[n..];
    if |base| > n {
      assert o[n..] == base[n..];
    }
  }

  /** A push returns 0. */
  ghost predicate PushGoes(l: Local, rpath: Path, mode: nat, mtime: nat, room: nat, files: Files, links: Files,
                           stuck: set<Path>, far: Far)
  {
    && |rpath| <= 1024 && Kind(l, mode) && |RequestBytes(RequestOf(l, rpath, mode, mtime))| <= room
    && |SendName(rpath, mode)| <= 1024 && 8 <= far.room
    && Accepts(rpath, IsLink(mode), far, |SentPieces(l, mode)|, stuck, files, links)
  }

  lemma PiecesFit(l: Local, mode: nat)
    requires l.target.Some? ==> |l.target.value| < 65536
    ensures ChunksFit(SentPieces(l, mode))
  {
    hide ReadPieces, ReadBytes, ReadsAll;
    ReadExact(l.content, l.gives);
    ReadExact(l.content, []);
  }

  /** What the service gets of the request: all of it, or a proper part. */
  lemma UpTo(input: seq<Byte>, l: Local, rpath: Path, mode: nat, mtime: nat, room: nat, left: nat, ok: bool)
    requires NoNul(rpath) && |rpath| <= 1024 && mode < 0x8000_0000 && mtime < 0x1_0000_0000
    requires l.target.Some? ==> |l.target.value| < 65536
    requires Kind(l, mode) ==> Wrote([], room, input, left, RequestBytes(RequestOf(l, rpath, mode, mtime)))
    requires Kind(l, mode) ==> (ok <==> |RequestBytes(RequestOf(l, rpath, mode, mtime))| <= room)
    requires !Kind(l, mode) ==> !ok && Wrote([], room, input, left, NameBytes(SendName(rpath, mode)))
    ensures RequestFits(RequestOf(l, rpath, mode, mtime)) && input <= RequestBytes(RequestOf(l, rpath, mode, mtime))
    ensures ok ==> At(input, 0, RequestBytes(RequestOf(l, rpath, mode, mtime)))
    ensures !ok ==> input != RequestBytes(RequestOf(l, rpath, mode, mtime))
    ensures PathOf(SendName(rpath, mode)) == rpath && LinkNamed(SendName(rpath, mode)) == IsLink(mode)
  {
    hide Header, EncodeChunks, SendName, CString, SplitName, ModeOf, IsLink, IsRegular, Read, RequestBytes, Decimal,
      ReadPieces, ChunksFit, SentPieces;
    NameRoundTrip(rpath, mode);
    NameIs(rpath, mode);
    ModeShort(mode);
    RequestParts(l, rpath, mode, mtime);
    PiecesFit(l, mode);
    assert input[0..0 + |input|] == input;
  }

  lemma Behind(h: seq<Byte>, a: seq<Byte>, b: seq<Byte>)
    requires h + a <= h + b
    ensures a <= b
  {
    assert a == (h + a)[|h|..] && b == (h + b)[|h|..];
  }

  /** A request that comes to its end is there in full. */
  lemma Ended(input: seq<Byte>, r: Request, pos: nat, cs: seq<seq<Byte>>, time: nat)
    requires r.SendReq? && RequestFits(r) && input <= RequestBytes(r) && pos <= |input| && Fit(cs, time)
    requires input[0..pos] == Header(ID_SEND, |r.name|) + r.name + (EncodeChunks(cs) + Header(ID_DONE, time))
    ensures input == RequestBytes(r) && cs == r.cs && time == r.t
  {
    hide Header, EncodeChunks, ChunksFit;
    var sent, got := EncodeChunks(r.cs) + Header(ID_DONE, r.t), EncodeChunks(cs) + Header(ID_DONE, time);
    var h := Header(ID_SEND, |r.name|) + r.name;
    assert RequestBytes(r) == h + sent;
    assert input[0..pos] <= RequestBytes(r);
    Behind(h, got, sent);
    OneReading(cs, ID_DONE, time, r.cs, EndDone(r.t), sent);
  }

  lemma SameName(input: seq<Byte>, r: Request, name: seq<Byte>)
    requires r.SendReq? && RequestFits(r) && input <= RequestBytes(r) && NamedAt(input, 0, name)
    ensures name == r.name
  {
    hide Header, EncodeChunks, ChunksFit, Read;
    var b := RequestBytes(r);
    var h := Header(ID_SEND, |name|);
    assert input[0..8 + |name|] == h + name;
    assert b[0..8 + |name|] == input[0..8 + |name|];
    assert b[..8] == h;
    Leads(b, ID_SEND, |name|);
    Leads(b, ID_SEND, |r.name|);
    assert b[8..8 + |name|] == (h + name)[8..];
  }

  /** A request that breaks off names no other file, and does not come to its end. */
  lemma Broken(input: seq<Byte>, r: Request, pos: nat, id: nat, name: seq<Byte>, okay: bool, cs: seq<seq<Byte>>,
               time: nat)
    requires r.SendReq? && RequestFits(r) && input < RequestBytes(r) && pos <= |input|
    requires okay ==> id == ID_SEND && NamedAt(input, 0, name) && Fit(cs, time)
    requires okay ==> input[0..pos] == Header(id, |name|) + name + (EncodeChunks(cs) + Header(ID_DONE, time))
    ensures NamedAt(input, 0, name) ==> name == r.name
    ensures !okay
  {
    hide Header, EncodeChunks, ChunksFit, RequestBytes, NamedAt;
    if NamedAt(input, 0, name) {
      SameName(input, r, name);
      if okay { Ended(input, r, pos, cs, time); }
    }
  }

  /** The client takes for an OKAY what is one. */
  lemma Answered(reply: seq<Byte>, okay: bool, reason: seq<Byte>)
    requires okay ==> reply == [] + Status(true, reason)
    requires !okay ==> NotOkay(reply[0..])
    ensures okay <==> |reply| >= 8 && Read(reply, 0, 4) == ID_OKAY
    ensures |Status(true, reason)| == 8
  {
    if okay {
      assert reply == Header(ID_OKAY, 0) && reply[0..8] == reply;
      HeaderAt(reply, 0, ID_OKAY, 0);
    } else {
      assert reply[0..] == reply;
    }
  }

  /** The exchange of a push; okay says that the service has taken all of it. */
  method Upload(local: Local, rpath: Path, mode: nat, mtime: nat, room: nat, files: Files, links: Files,
                stuck: set<Path>, far: Far, pace: Pace)
    returns (ret: int, files': Files, links': Files, ghost okay: bool)
    requires NoNul(rpath) && mode < 0x8000_0000 && mtime < 0x1_0000_0000 && |far.reason| < 0x1_0000_0000
    requires local.target.Some? ==> |local.target.value| < 65536
    ensures SameElsewhere(files, files', rpath) && SameElsewhere(links, links', rpath)
    ensures ret == 0 <==> PushGoes(local, rpath, mode, mtime, room, files, links, stuck, far)
    ensures ret == 0 ==> okay
    ensures okay ==>
              && Kind(local, mode)
              && Stored(rpath, IsLink(mode), far, SentPieces(local, mode), stuck, files, files', links')
    ensures !okay && rpath !in stuck && rpath in files' ==> files' == files
  {
    hide Header, EncodeChunks, SendName, Overlay, SameElsewhere, CString, SplitName, ModeOf, IsLink, IsRegular,
      At, Read, RequestBytes, NotOkay, ReadPieces, Decimal, Status, FailMessage, PathOf, LinkNamed,
      Accepts, ChunksFit, NamedAt, NameBytes, Wrote, Stored, Left, SentPieces, Fit;
    okay := false;
    ElsewhereHere(files, files, rpath, []);
    ElsewhereHere(links, links, rpath, []);
    var up := new Endpoint([], [], room, pace.asking, map[], map[], {});
    var ok := up.SyncSend(local, rpath, mode, mtime);
    if |rpath| > 1024 { return -1, files, links, okay; }
    ghost var request := RequestOf(local, rpath, mode, mtime);
    UpTo(up.output, local, rpath, mode, mtime, room, up.room, ok);
    var service := new Endpoint(up.output, pace.serving, far.room, pace.answering, files, links, stuck);
    ghost var plan := if ok then Some(request) else None;
    var next, id, name, taken, cs, time := service.Serve(far, plan);
    files', links', okay := service.files, service.links, taken;
    if !ok {
      Broken(service.input, request, service.pos, id, name, okay, cs, time);
      return -1, files', links', okay;
    }
    var down := new Endpoint(service.output, pace.receiving, 0, [], map[], map[], {});
    ret := down.ReadStatus();
    Answered(down.input, next && okay, far.reason);
  }

  lemma {:induction false} StopsAtNul(t: seq<Byte>, rest: seq<Byte>)
    ensures CString(t + ([0] + rest)) == CString(t)
  {
    var s := t + ([0] + rest);
    if t != [] && t[0] != 0 {
      StopsAtNul(t[1..], rest);
      assert s[1..] == t[1..] + ([0] + rest);
    }
  }

  /** The target is read up to its NUL, whatever the buffer held. */
  lemma TargetRead(t: seq<Byte>, scratch: seq<Byte>)
    ensures CString(Overlay(scratch, t + [0])) == CString(t) && (NoNul(t) ==> CString(t) == t)
  {
    hide CString;
    var w := t + [0];
    var rest := if |scratch| > |w| then scratch[|w|..] else [];
    assert Overlay(scratch, w) == t + ([0] + rest);
    StopsAtNul(t, rest);
    if NoNul(t) { CStringWhole(t); }
  }

  /** What an OKAY means for the file that was pushed. */
  lemma Settled(l: Local, rpath: Path, mode: nat, far: Far, stuck: set<Path>, files: Files, files': Files,
                links': Files)
    requires Kind(l, mode) && Stored(rpath, IsLink(mode), far, SentPieces(l, mode), stuck, files, files', links')
    ensures !IsLink(mode) ==>
              && rpath in files' && files'[rpath] == Overlay(Left(rpath, stuck, files), SentBytes(l))
              && (rpath !in stuck ==> files'[rpath] == SentBytes(l))
              && (files'[rpath] == l.content <==> Exact(Left(rpath, stuck, files), l))
    ensures !IsLink(mode) && Whole(l) ==>
              (files'[rpath] == l.content <==> !(rpath in stuck && rpath in files && |files[rpath]| > |l.content|))
    ensures IsLink(mode) ==> rpath !in files'
    ensures IsLink(mode) && !l.apk ==>
              && l.target.Some? && rpath in links' && links'[rpath] == CString(l.target.value)
              && (NoNul(l.target.value) ==> links'[rpath] == l.target.value)
  {
    hide Concat, CString, ReadsAll, ReadBytes, ReadPieces;
    if l.apk || IsRegular(mode) { SentExact(l, mode); }
    PushExact(Left(rpath, stuck, files), l);
    if l.target.Some? { TargetRead(l.target.value, far.scratch); }
  }

  /**
   * A push: sync_send against the service, which gets as much of the request as the connection takes. It returns 0
   * exactly if the whole request gets through, the far file system takes it and the status gets back. The far file
   * then holds what was sent, over what could not be unlinked; a far link has the target. Whatever happens, nothing
   * else changes, and a path that can be unlinked never holds part of what was sent.
   */
  method Push(local: Local, rpath: Path, mode: nat, mtime: nat, room: nat, files: Files, links: Files, stuck: set<Path>,
              far: Far, pace: Pace)
    returns (ret: int, files': Files, links': Files)
    requires NoNul(rpath) && mode < 0x8000_0000 && mtime < 0x1_0000_0000 && |far.reason| < 0x1_0000_0000
    requires local.target.Some? ==> |local.target.value| < 65536
    ensures SameElsewhere(files, files', rpath) && SameElsewhere(links, links', rpath)
    ensures ret == 0 <==> PushGoes(local, rpath, mode, mtime, room, files, links, stuck, far)
    ensures ret == 0 && !IsLink(mode) ==>
              rpath in files' && files'[rpath] == Overlay(Left(rpath, stuck, files), SentBytes(local))
    ensures ret == 0 && !IsLink(mode) ==> (files'[rpath] == local.content <==> Exact(Left(rpath, stuck, files), local))
    ensures ret == 0 && !IsLink(mode) && Whole(local) ==>
              (files'[rpath] == local.content
               <==> !(rpath in stuck && rpath in files && |files[rpath]| > |local.content|))
    ensures ret == 0 && IsLink(mode) && !local.apk ==>
              && rpath !in files' && rpath in links' && local.target.Some?
              && links'[rpath] == CString(local.target.value)
              && (NoNul(local.target.value) ==> links'[rpath] == local.target.value)
    ensures rpath !in stuck && rpath in files' ==>
              files' == files || (!IsLink(mode) && files'[rpath] == SentBytes(local))
  {
    hide SendName, Overlay, SameElsewhere, CString, IsLink, IsRegular, RequestBytes, ReadsAll, ReadBytes, ReadPieces,
      SentBytes, Exact, Stored, Left, Whole, SentPieces, PushGoes;
    ghost var okay;
    ret, files', links', okay := Upload(local, rpath, mode, mtime, room, files, links, stuck, far, pace);
    if okay { Settled(local, rpath, mode, far, stuck, files, files', links'); }
  }

  /** A far end whose files open and take every write. */
  function Willing(room: nat): Far { Far(room, true, [], [], true, [], [], []) }

  const NO_PAUSE: Pace := Pace([], [], [], [])

  /** A push returns 0 over a longer file that cannot be unlinked, and the end of that file stays. */
  method PushOverStuck() returns (ret: int, files': Files)
    ensures ret == 0 && [1] in files' && files'[[1]] == [9, 2, 3]
  {
    hide SendName, Decimal, Header, EncodeChunks, ReadPieces, ReadBytes, ReadsAll;
    var local := Local([9], true, [], true, None);
    ModeShort(0x8000);
    NameIs([1], 0x8000);
    var room := |RequestBytes(RequestOf(local, [1], 0x8000, 0))|;
    var links';
    ret, files', links' := Push(local, [1], 0x8000, 0, room, map[[1] := [1, 2, 3]], map[], {[1]}, Willing(8), NO_PAUSE);
  }

  /** A push returns 0 for a file that cannot be opened, or not be read at all, and leaves an empty one. */
  method PushUnread(content: seq<Byte>, found: bool) returns (ret: int, files': Files)
    ensures ret == 0 && [1] in files' && files'[[1]] == []
  {
    hide SendName, Decimal, Header, EncodeChunks, ReadPieces, ReadsAll;
    var local := Local(content, found, [None], false, None);
    ModeShort(0x8000);
    NameIs([1], 0x8000);
    var room := |RequestBytes(RequestOf(local, [1], 0x8000, 0))|;
    var links';
    ret, files', links' := Push(local, [1], 0x8000, 0, room, map[], map[], {}, Willing(8), NO_PAUSE);
    assert ReadBytes(content, [None]) == [];
  }

  // ---- pull ----------------------------------------------------------------------------------------

  /**
   * A pull returns 0: the request gets through, and as much of the answer as is looked at; the local file can be
   * kept.
   */
  ghost predicate PullGoes(rpath: Path, room: nat, files: Files, far: Far, creates: bool, writes: seq<bool>) {
    var cs, all := OfferedPieces(files, far, rpath), Served(files, far, rpath);
    && |rpath| <= 1024 && 8 + |rpath| <= room
    && |EncodeChunks(cs)| + 8 + (if all then 0 else FailRead(|far.reason|)) <= far.room
    && (all || Offered(files, far, rpath) != [] ==> creates) && AllGood(writes, |cs|)
  }

  /** The local files after a pull that returns 0. */
  ghost function Pulled(files: Files, far: Far, rpath: Path, lpath: Path, local: Files, stuck: set<Path>): Files {
    if Served(files, far, rpath) then local[lpath := files[rpath]]
    else if lpath !in stuck then local - {lpath}
    else if Offered(files, far, rpath) == [] then local
    else local[lpath := Offered(files, far, rpath)]
  }

  lemma OfferExact(files: Files, far: Far, path: Path)
    ensures Concat(OfferedPieces(files, far, path)) == Offered(files, far, path)
            && ChunksFit(OfferedPieces(files, far, path))
    ensures OfferedPieces(files, far, path) == [] <==> Offered(files, far, path) == []
    ensures Served(files, far, path) <==> far.opens && path in files && Offered(files, far, path) == files[path]
  {
    hide ReadsAll, ReadBytes, ReadPieces, Concat, ChunksFit;
    NoneEncoded();
    if path in files { ReadExact(files[path], far.gives); }
  }

  /**
   * After a pull that returns 0 the local file is the remote one exactly if that could be served, or stood there
   * before with nothing of it served and cannot be unlinked. After a failure the local file is gone, unless it
   * cannot be unlinked and was there or had been begun.
   */
  lemma PullExact(files: Files, far: Far, rpath: Path, lpath: Path, local: Files, stuck: set<Path>)
    ensures var after, sent := Pulled(files, far, rpath, lpath, local, stuck), Offered(files, far, rpath);
            && (rpath in files && lpath in after && after[lpath] == files[rpath]
                <==> || Served(files, far, rpath)
                     || (lpath in stuck && lpath in local && rpath in files && sent == []
                         && local[lpath] == files[rpath]))
            && (!Served(files, far, rpath) ==> (lpath in after <==> lpath in stuck && (lpath in local || sent != [])))
  {
    hide ReadsAll, ReadBytes;
    OfferExact(files, far, rpath);
  }

  /** What the client is sent, as a plan if it is as much as the client looks at. */
  lemma Delivered(input: seq<Byte>, files: Files, far: Far, rpath: Path, left: nat)
    returns (pieces: seq<seq<Byte>>, end: End, plan: Option<seq<seq<Byte>>>)
    requires Wrote([], far.room, input, left, Reply(files, far, rpath)) && |far.reason| < 0x1_0000_0000
    ensures pieces == OfferedPieces(files, far, rpath) && EndFits(end) && (end.EndDone? <==> Served(files, far, rpath))
    ensures pieces == [] <==> Offered(files, far, rpath) == []
    ensures plan == if |EncodeChunks(pieces)| + 8 + (if end.EndDone? then 0 else FailRead(|far.reason|)) <= far.room
                    then Some(pieces) else None
    ensures plan.Some? ==> ChunksFit(pieces) && Planned(input, 0, pieces, 0, EndBytes(end))
    ensures plan.Some? && end.EndFail? ==> FailRead(end.size) <= |end.text|
  {
    hide EncodeChunks, Header, ChunksFit, Concat, Served, OfferedPieces, Offered;
    OfferExact(files, far, rpath);
    pieces := OfferedPieces(files, far, rpath);
    var n := |EncodeChunks(pieces)| + 8;
    end := ReplyEnd(files, far, rpath);
    plan := None;
    if n + (if end.EndDone? then 0 else FailRead(|far.reason|)) <= far.room {
      plan := Some(pieces);
      if end.EndFail? { end := EndFail(|far.reason|, Cut(far.reason, far.room - n)); }
      assert input == EncodeChunks(pieces) + EndBytes(end);
      assert pieces[0..] == pieces && input[0..|input|] == input;
    }
  }

  /** What the client makes of a whole or broken answer is what was meant. */
  lemma Understood(input: seq<Byte>, files: Files, far: Far, rpath: Path, left: nat, id: nat, size: nat,
                   cs: seq<seq<Byte>>)
    requires Wrote([], far.room, input, left, Reply(files, far, rpath)) && |far.reason| < 0x1_0000_0000
    requires id != ID_DATA && id < 0x1_0000_0000 && Fit(cs, size) && EncodeChunks(cs) + Header(id, size) <= input[0..]
    requires id == ID_FAIL ==> |EncodeChunks(cs)| + 8 + FailRead(size) <= |input|
    ensures cs == OfferedPieces(files, far, rpath) && (id == ID_DONE <==> Served(files, far, rpath))
    ensures Concat(cs) == Offered(files, far, rpath) && (cs == [] <==> Concat(cs) == [])
    ensures Served(files, far, rpath) ==> rpath in files && Concat(cs) == files[rpath]
    ensures |EncodeChunks(cs)| + 8 + (if id == ID_DONE then 0 else FailRead(|far.reason|)) <= far.room
  {
    hide EncodeChunks, Header, ChunksFit, Concat, Served, OfferedPieces, Offered, EndBytes;
    OfferExact(files, far, rpath);
    var reply := Reply(files, far, rpath);
    assert input <= reply && input[0..] == input;
    OneReading(cs, id, size, OfferedPieces(files, far, rpath), ReplyEnd(files, far, rpath), reply);
  }

  lemma Asked(out: seq<Byte>, room: nat, left: nat, rpath: Path)
    requires Wrote([], room, out, left, Header(ID_RECV, |rpath|) + rpath) && 8 + |rpath| <= room && |rpath| <= 1024
    ensures RequestFits(RecvReq(rpath)) && At(out, 0, RequestBytes(RecvReq(rpath)))
  {
    hide Header;
    assert out == RequestBytes(RecvReq(rpath)) && out[0..0 + |out|] == out;
  }

  /**
   * A pull: sync_recv against the service, over connections that may break. When it returns 0 is told by PullGoes, and
   * what it leaves then by Pulled; other local files stay as they are.
   */
  method Pull(rpath: Path, room: nat, files: Files, far: Far, lpath: Path, creates: bool, writes: seq<bool>,
              local: Files, stuck: set<Path>, pace: Pace)
    returns (ret: int, local': Files)
    requires NoNul(rpath) && |far.reason| < 0x1_0000_0000
    ensures SameElsewhere(local, local', lpath)
    ensures ret == 0 <==> PullGoes(rpath, room, files, far, creates, writes)
    ensures ret == 0 ==> local' == Pulled(files, far, rpath, lpath, local, stuck)
    ensures |rpath| > 1024 || 8 + |rpath| > room ==> local' == local
  {
    hide Header, EncodeChunks, Concat, SameElsewhere, CString, At, Read, RequestBytes, Planned, EndBytes, Wrote,
      Served, OfferedPieces, Offered, ChunksFit, AllGood, FailMessage;
    ElsewhereHere(local, local, lpath, []);
    if |rpath| > 1024 { return -1, local; }
    var up := new Endpoint([], [], room, pace.asking, map[], map[], {});
    var ok := up.WriteX(Header(ID_RECV, |rpath|));
    ghost var mid, left := up.output, up.room;
    if !ok { return -1, local; }
    ok := up.WriteX(rpath);
    WroteMore([], room, mid, left, Header(ID_RECV, |rpath|), up.output, up.room, rpath);
    if !ok { return -1, local; }
    Asked(up.output, room, up.room, rpath);
    var service := new Endpoint(up.output, pace.serving, far.room, pace.answering, files, map[], {});
    var next, id, name, okay, cs, time := service.Serve(far, Some(RecvReq(rpath)));
    CStringWhole(rpath);
    var down := new Endpoint(service.output, pace.receiving, 0, [], local, map[], stuck);
    ghost var pieces, end, plan := Delivered(down.input, files, far, rpath, service.room);
    ghost var id', size, cs';
    ret, id', size, cs' := down.SyncRecv(lpath, creates, writes, plan, end);
    local' := down.files;
    if ret == 0 { Understood(down.input, files, far, rpath, service.room, id', size, cs'); }
  }

  /** A pull of a file that is not there returns 0, and a local file that cannot be unlinked stays as it was. */
  method PullOverStuck() returns (ret: int, local': Files)
    ensures ret == 0 && local' == map[[1] := [7]]
  {
    hide Header;
    NoneEncoded();
    ret, local' := Pull([2], 9, map[], Willing(8), [1], true, [], map[[1] := [7]], {[1]}, NO_PAUSE);
  }
}
