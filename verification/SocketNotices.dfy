/**
 * What the far side is told when sockets close, and which of them are kept for their backlog, for every event that
 * changes the graph of sockets.
 */
module SocketNotices {
  import opened Lists
  import opened SocketGraph

  // ---- remote sockets ---------------------------------------------------------------------------

  /** A CLSE to the far end of a remote socket. */
  predicate Names(m: Packet, s: Socket) { m.Clse? && s.Remote? && m.transport == s.transport && m.arg1 == s.id }

  /** freed are the remote sockets of h that g has no more, and each has its own CLSE among the packets. */
  ghost predicate Told(h: map<Ptr, Socket>, g: map<Ptr, Socket>, freed: seq<Ptr>, news: seq<Packet>) {
    && Distinct(freed) && |news| == |freed|
    && (forall p :: p in freed <==> p in h && h[p].Remote? && p !in g)
    && (forall k :: 0 <= k < |freed| ==> freed[k] in h && Names(news[k], h[freed[k]]))
    && (forall p :: p in h && h[p].Remote? && p in g ==> g[p] == h[p])
    && (forall p :: p in g && g[p].Remote? ==> p in h && h[p].Remote?)
  }

  lemma NoneTold(h: map<Ptr, Socket>, g: map<Ptr, Socket>)
    requires forall p :: p in h && h[p].Remote? ==> p in g && g[p] == h[p]
    requires forall p :: p in g && g[p].Remote? ==> p in h && h[p].Remote?
    ensures Told(h, g, [], [])
  {}

  lemma OneTold(h: map<Ptr, Socket>, g: map<Ptr, Socket>, r: Ptr, m: Packet)
    requires r in h && r !in g && Names(m, h[r])
    requires forall p :: p in h && h[p].Remote? && p != r ==> p in g && g[p] == h[p]
    requires forall p :: p in g && g[p].Remote? ==> p in h && h[p].Remote?
    ensures Told(h, g, [r], [m])
  {}

  lemma ToldTrans(h: map<Ptr, Socket>, g: map<Ptr, Socket>, f: map<Ptr, Socket>, freed: seq<Ptr>, news: seq<Packet>,
                  freed': seq<Ptr>, news': seq<Packet>)
    requires Told(h, g, freed, news) && Told(g, f, freed', news') && forall p :: p in f ==> p in g
    ensures Told(h, f, freed + freed', news + news')
  {
    var q := freed + freed';
    forall i, j | 0 <= i < j < |q| ensures q[i] != q[j] {
      if i < |freed| <= j {
        assert freed[i] in freed && freed'[j - |freed|] in freed';
      }
    }
    forall p ensures p in q <==> p in h && h[p].Remote? && p !in f {
      assert p in q <==> p in freed || p in freed';
    }
    forall k | 0 <= k < |q| ensures q[k] in h && Names((news + news')[k], h[q[k]]) {
      if k >= |freed| { assert freed'[k - |freed|] in freed'; }
    }
  }

  lemma CloseTold(st: State, p: Ptr) returns (freed: seq<Ptr>, news: seq<Packet>)
    requires Valid(st) && p in st.heap && st.heap[p].Local?
    ensures Followable(st.heap, p) && Close(st, p).sent == st.sent + news
    ensures Told(st.heap, Close(st, p).heap, freed, news)
    ensures forall x :: x in Close(st, p).heap ==> x in st.heap
  {
    hide Without, Told, ListOk, IdsOk, DisconnectsOk;
    assert PeerOk(st.heap, p);
    var q, g := st.heap[p].peer, Close(st, p).heap;
    if q == 0 || st.heap[q].Local? {
      freed, news := [], [];
      NoneTold(st.heap, g);
    } else {
      news := [Clse(st.heap[q].transport, 0, st.heap[q].id)];
      freed := [q];
      OneTold(st.heap, g, q, news[0]);
    }
  }

  lemma CloseRemoteTold(st: State, p: Ptr) returns (news: seq<Packet>)
    requires Valid(st) && p in st.heap && st.heap[p].Remote?
    ensures Followable(st.heap, p) && st.heap[p].peer != 0 && st.heap[st.heap[p].peer].Local?
    ensures CloseRemote(st, p).sent == st.sent + news && Told(st.heap, CloseRemote(st, p).heap, [p], news)
    ensures news[0].arg0 == st.heap[st.heap[p].peer].id
  {
    hide Without, Told, ListOk, IdsOk, DisconnectsOk;
    assert PeerOk(st.heap, p);
    var q := st.heap[p].peer;
    news := [Clse(st.heap[p].transport, st.heap[q].id, st.heap[p].id)];
    OneTold(st.heap, CloseRemote(st, p).heap, p, news[0]);
  }

  lemma {:induction false} CloseAllTold(st: State, t: Tid) returns (freed: seq<Ptr>, news: seq<Packet>)
    requires Valid(st)
    ensures CloseAll(st, t).sent == st.sent + news && Told(st.heap, CloseAll(st, t).heap, freed, news)
    ensures forall x :: x in CloseAll(st, t).heap ==> x in st.heap
    decreases |st.list|
  {
    hide Valid, Close, Told;
    var p := FirstTouched(st, st.list, t);
    if p == 0 {
      freed, news := [], [];
      NoneTold(st.heap, st.heap);
    } else {
      CloseShrinks(st, p);
      CloseValid(st, p);
      var one, say := CloseTold(st, p);
      var more, then' := CloseAllTold(Close(st, p), t);
      freed, news := one + more, say + then';
      ToldTrans(st.heap, Close(st, p).heap, CloseAll(st, t).heap, one, say, more, then');
      assert st.sent + say + then' == st.sent + news;
    }
  }

  lemma {:induction false} OfflineSilent(st: State, t: Tid)
    requires Valid(st) && t in st.disconnects
    ensures RunAll(st, t).sent == st.sent
    decreases |st.disconnects[t]|
  {
    hide Valid;
    if st.disconnects[t] != [] {
      HeadRuns(st, t);
      OfflineSilent(Disconnect(st, st.disconnects[t][0]), t);
    }
  }

  /**
   * Every event: the remote sockets it frees and the CLSEs it sends match one to one, in transport and far id, except
   * that a transport that has gone offline is told nothing. An OPEN frees nothing and sends nothing here.
   */
  lemma ClosesTell(st: State, e: Event) returns (freed: seq<Ptr>, news: seq<Packet>)
    requires Valid(st) && Enabled(st, e)
    ensures Apply(st, e).sent == st.sent + news
    ensures !e.WentOffline? && !e.Opened? ==> Told(st.heap, Apply(st, e).heap, freed, news)
    ensures e.WentOffline? || e.Opened? ==> news == []
    ensures e.RemoteClosed? ==> freed == [e.p]
  {
    hide Valid, Close, CloseRemote, RunAll, CloseAll, Told, Without;
    freed, news := [], [];
    match e
    case Created(p) => NoneTold(st.heap, Apply(st, e).heap);
    case Opened(p, r, id, t) =>
    case Joined(p, q) => NoneTold(st.heap, Apply(st, e).heap);
    case Queued(p) => NoneTold(st.heap, Apply(st, e).heap);
    case Assigned(p, t) => NoneTold(st.heap, Apply(st, e).heap);
    case Emptied(p) =>
      DrainedKeeps(st, p);
      if st.heap[p].closing { freed, news := CloseTold(st, p); } else { NoneTold(st.heap, Apply(st, e).heap); }
    case Closed(p) => freed, news := CloseTold(st, p);
    case RemoteClosed(p) =>
      news := CloseRemoteTold(st, p);
      freed := [p];
    case AllClosed(t) => freed, news := CloseAllTold(st, t);
    case WentOffline(t) =>
      ValidSends(st, st.(online := st.online - {t}));
      OfflineSilent(st.(online := st.online - {t}), t);
  }

  // ---- local sockets ----------------------------------------------------------------------------

  /**
   * From h to g sockets only go: closing ones stay as they are, and of the listed ones that do not stay listed
   * exactly those with a backlog are kept, to drain.
   */
  ghost predicate Ended(h: map<Ptr, Socket>, g: map<Ptr, Socket>) {
    && (forall x :: x in h && h[x].Local? && h[x].closing ==> x in g && g[x] == h[x])
    && (forall x :: x in h && h[x].Local? && !h[x].closing ==>
          if x in g && g[x].Local? && !g[x].closing then g[x].pending == h[x].pending else x in g <==> h[x].pending)
    && (forall x :: x in g ==> x in h && g[x].Local? == h[x].Local?)
  }

  lemma EndedTrans(h: map<Ptr, Socket>, g: map<Ptr, Socket>, f: map<Ptr, Socket>)
    requires Ended(h, g) && Ended(g, f)
    ensures Ended(h, f)
  {}

  lemma CloseEnds(st: State, p: Ptr)
    requires Valid(st) && p in st.heap && st.heap[p].Local? && !st.heap[p].closing
    ensures Followable(st.heap, p) && Ended(st.heap, Close(st, p).heap)
    ensures p in Close(st, p).heap ==> Close(st, p).heap[p].closing
    ensures var q, g := st.heap[p].peer, Close(st, p).heap; q != 0 && q in g ==> g[q].Local? && g[q].closing
  {
    hide Without, ListOk, IdsOk, DisconnectsOk;
    assert PeerOk(st.heap, p);
    if st.heap[p].peer != 0 { assert PeerOk(st.heap, st.heap[p].peer); }
  }

  lemma RemoteEnds(st: State, p: Ptr)
    requires Valid(st) && p in st.heap && st.heap[p].Remote?
    ensures PeerOk(st.heap, p) && Ended(st.heap, CloseRemote(st, p).heap) && Ended(st.heap, Disconnect(st, p).heap)
  {
    hide Without, ListOk, IdsOk, DisconnectsOk;
    assert PeerOk(st.heap, p);
    assert PeerOk(st.heap, st.heap[p].peer);
  }

  lemma NothingEnds(h: map<Ptr, Socket>)
    ensures Ended(h, h)
  {}

  lemma {:induction false} CloseAllEnds(st: State, t: Tid)
    requires Valid(st)
    ensures Ended(st.heap, CloseAll(st, t).heap)
    decreases |st.list|
  {
    hide Valid, Close, Ended;
    var p := FirstTouched(st, st.list, t);
    if p == 0 {
      NothingEnds(st.heap);
    } else {
      CloseShrinks(st, p);
      CloseValid(st, p);
      ListedLocal(st, p);
      CloseEnds(st, p);
      CloseAllEnds(Close(st, p), t);
      EndedTrans(st.heap, Close(st, p).heap, CloseAll(st, t).heap);
    }
  }

  lemma {:induction false} OfflineEnds(st: State, t: Tid)
    requires Valid(st) && t in st.disconnects
    ensures Ended(st.heap, RunAll(st, t).heap)
    decreases |st.disconnects[t]|
  {
    hide Valid, Disconnect, Ended;
    if st.disconnects[t] == [] {
      NothingEnds(st.heap);
    } else {
      HeadRuns(st, t);
      var p := st.disconnects[t][0];
      RemoteEnds(st, p);
      OfflineEnds(Disconnect(st, p), t);
      EndedTrans(st.heap, Disconnect(st, p).heap, RunAll(st, t).heap);
    }
  }

  /**
   * Every event: a listed socket that it takes off the list is kept exactly if it has a backlog, and a closing socket
   * goes only when its backlog is written.
   */
  lemma BacklogKept(st: State, e: Event, x: Ptr)
    requires Valid(st) && Enabled(st, e) && x in st.heap && st.heap[x].Local?
    ensures var s, g := st.heap[x], Apply(st, e).heap;
            && (s.closing ==> (x in g <==> e != Emptied(x) && e != Closed(x)))
            && (!s.closing && (x in g ==> g[x].Local? && g[x].closing) ==> (x in g <==> s.pending))
  {
    hide Valid, RunAll, CloseAll, Without, ListOk, IdsOk, DisconnectsOk;
    ValidPlaces(st, x);
    match e
    case Created(p) =>
    case Opened(p, r, id, t) =>
    case Joined(p, q) =>
    case Queued(p) =>
    case Assigned(p, t) =>
    case Emptied(p) =>
      DrainedKeeps(st, p);
      ValidPlaces(st, p);
    case Closed(p) =>
      ValidPlaces(st, p);
      if !st.heap[p].closing { CloseEnds(st, p); }
    case RemoteClosed(p) => RemoteEnds(st, p);
    case AllClosed(t) => CloseAllEnds(st, t);
    case WentOffline(t) =>
      ValidSends(st, st.(online := st.online - {t}));
      OfflineEnds(st.(online := st.online - {t}), t);
  }
}
