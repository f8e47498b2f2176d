/**
 * The graph of local and remote sockets: the lists that hold them, their peer pointers, closing
 * with its cascade over the peer, and the disconnect callbacks of a transport. The heap is a map
 * from addresses, so that reading or writing a freed socket is not possible in a verified body.
 */
module SocketGraph {
  import opened Lists

  /** A transport; 0 is NULL. */
  type Tid = nat

  /** pending says that packets are queued. A local socket has a transport only if one was given to it. */
  datatype Socket =
    | Local(id: nat, peer: Ptr, transport: Tid, closing: bool, pending: bool)
    | Remote(id: nat, peer: Ptr, transport: Tid)

  datatype Packet = Okay(transport: Tid, arg0: nat, arg1: nat) | Clse(transport: Tid, arg0: nat, arg1: nat)

  /** heap holds the live sockets; ran records the disconnect callbacks, in the order they ran. */
  datatype State = State(
    heap: map<Ptr, Socket>, list: seq<Ptr>, closing: seq<Ptr>, disconnects: map<Tid, seq<Ptr>>,
    online: set<Tid>, nextId: nat, sent: seq<Packet>, ran: seq<Ptr>)

  // ---- the invariant ----------------------------------------------------------------------

  /** A peer is live and points back; a remote socket always has one, a closing one never. */
  ghost predicate PeerOk(h: map<Ptr, Socket>, p: Ptr)
    requires p in h
  {
    && p != 0
    && (h[p].Remote? ==> h[p].peer != 0)
    && (h[p].Local? && h[p].closing ==> h[p].peer == 0 && h[p].pending && h[p].id == 0)
    && (h[p].peer != 0 ==>
          && h[p].peer in h && h[p].peer != p && h[h[p].peer].peer == p
          && (h[p].Remote? ==> h[h[p].peer].Local?))
  }

  ghost predicate PeersOk(h: map<Ptr, Socket>) {
    forall p :: p in h ==> PeerOk(h, p)
  }

  ghost predicate ListOk(h: map<Ptr, Socket>, q: seq<Ptr>, closing: bool) {
    Distinct(q) && forall p :: p in q <==> p in h && h[p].Local? && h[p].closing == closing
  }

  /** Listed ids are nonzero, below the counter, and distinct. */
  ghost predicate IdsOk(h: map<Ptr, Socket>, nextId: nat) {
    && (forall p :: p in h && h[p].Local? && !h[p].closing ==> 0 < h[p].id < nextId)
    && (forall p, q :: p in h && q in h && p != q && h[p].Local? && !h[p].closing && h[q].Local? && !h[q].closing ==>
          h[p].id != h[q].id)
  }

  /** A transport's list holds exactly the live remote sockets on it, once each. */
  ghost predicate OwnOk(h: map<Ptr, Socket>, q: seq<Ptr>, t: Tid) {
    Distinct(q) && forall p :: p in q <==> p in h && h[p].Remote? && h[p].transport == t
  }

  ghost predicate DisconnectsOk(h: map<Ptr, Socket>, d: map<Tid, seq<Ptr>>) {
    && (forall p :: p in h && h[p].Remote? ==> h[p].transport in d)
    && (forall t :: t in d ==> OwnOk(h, d[t], t))
  }

  ghost predicate Valid(st: State) {
    && PeersOk(st.heap) && ListOk(st.heap, st.list, false) && ListOk(st.heap, st.closing, true)
    && IdsOk(st.heap, st.nextId) && st.nextId > 0 && DisconnectsOk(st.heap, st.disconnects)
  }

  // ---- what each operation does to the state -------------------------------------------------

  /** A local socket without its peer: freed, or kept on the closing list until it has drained. */
  function Retire(st: State, p: Ptr): State
    requires p in st.heap && st.heap[p].Local?
  {
    var s := st.heap[p];
    if s.closing || !s.pending then
      st.(heap := st.heap - {p}, list := Without(st.list, p), closing := Without(st.closing, p))
    else
      st.(heap := st.heap[p := s.(peer := 0, closing := true, id := 0)], list := Without(st.list, p),
          closing := st.closing + [p])
  }

  function FreeRemote(st: State, p: Ptr): State
    requires p in st.heap && st.heap[p].Remote?
  {
    var t := st.heap[p].transport;
    st.(heap := st.heap - {p},
        disconnects := if t in st.disconnects
                       then st.disconnects[t := Without(st.disconnects[t], p)] else st.disconnects)
  }

  /** The peer pointer may be followed. */
  predicate Followable(h: map<Ptr, Socket>, p: Ptr)
    requires p in h
  {
    h[p].peer != 0 ==> h[p].peer in h && h[p].peer != p
  }

  /** Closing a local socket takes its peer with it, and tells the far side if the peer is remote. */
  function Close(st: State, p: Ptr): State
    requires p in st.heap && st.heap[p].Local? && Followable(st.heap, p)
  {
    var q := st.heap[p].peer;
    if q == 0 then Retire(st, p)
    else if st.heap[q].Local? then Retire(Retire(st, q), p)
    else
      var r := st.heap[q];
      Retire(FreeRemote(st.(sent := st.sent + [Clse(r.transport, 0, r.id)]), q), p)
  }

  /** Closing a remote socket tells the far side, and takes a peer that is still there with it. */
  function CloseRemote(st: State, p: Ptr): State
    requires p in st.heap && st.heap[p].Remote? && Followable(st.heap, p)
    requires st.heap[p].peer != 0 ==> st.heap[st.heap[p].peer].Local?
  {
    var r := st.heap[p];
    if r.peer == 0 then FreeRemote(st.(sent := st.sent + [Clse(r.transport, 0, r.id)]), p)
    else
      var cut := Retire(st, r.peer);
      FreeRemote(cut.(sent := cut.sent + [Clse(r.transport, st.heap[r.peer].id, r.id)]), p)
  }

  /** remote_socket_disconnect: the transport is gone, so nothing is sent. */
  function Disconnect(st: State, p: Ptr): State
    requires p in st.heap && st.heap[p].Remote? && Followable(st.heap, p)
    requires st.heap[p].peer != 0 ==> st.heap[st.heap[p].peer].Local?
  {
    var cut := if st.heap[p].peer == 0 then st else Retire(st, st.heap[p].peer);
    FreeRemote(cut.(ran := cut.ran + [p]), p)
  }

  /** create_local_socket at an unused address p. */
  function Install(st: State, p: Ptr): State {
    st.(heap := st.heap[p := Local(st.nextId, 0, 0, false, false)], list := st.list + [p], nextId := st.nextId + 1)
  }

  /** create_remote_socket at an unused address r, as the peer of p. */
  function Attach(st: State, p: Ptr, r: Ptr, id: nat, t: Tid): State
    requires p in st.heap && t in st.disconnects
  {
    st.(heap := st.heap[p := st.heap[p].(peer := r)][r := Remote(id, p, t)],
        disconnects := st.disconnects[t := st.disconnects[t] + [r]])
  }

  /** Two local sockets become peers. */
  function Join(st: State, p: Ptr, q: Ptr): State
    requires p in st.heap && q in st.heap
  {
    st.(heap := st.heap[p := st.heap[p].(peer := q)][q := st.heap[q].(peer := p)])
  }

  function Assign(st: State, p: Ptr, t: Tid): State
    requires p in st.heap && st.heap[p].Local?
  {
    st.(heap := st.heap[p := st.heap[p].(transport := t)])
  }

  function Backlog(st: State, p: Ptr, b: bool): State
    requires p in st.heap && st.heap[p].Local?
  {
    st.(heap := st.heap[p := st.heap[p].(pending := b)])
  }

  /** Sockets other than p and q keep their state, and what is said of them. */
  lemma OthersKeep(h: map<Ptr, Socket>, g: map<Ptr, Socket>, p: Ptr, q: Ptr)
    requires PeersOk(h) && p in h && h[p].peer == q && (q != 0 ==> q in h)
    requires forall x :: x in g ==> x in h
    requires forall x :: x in h && x != p && x != q ==> x in g && g[x] == h[x]
    requires (p in g ==> PeerOk(g, p)) && (q in g && q != 0 ==> PeerOk(g, q))
    ensures PeersOk(g)
  {
    forall x | x in g ensures PeerOk(g, x) {
      if x != p && x != q {
        assert PeerOk(h, x) && PeerOk(h, p);
        var y := h[x].peer;
        if y != 0 { assert h[y].peer == x && PeerOk(h, y); }
      }
    }
  }

  lemma RetireIds(st: State, p: Ptr)
    requires p in st.heap && st.heap[p].Local? && IdsOk(st.heap, st.nextId) && DisconnectsOk(st.heap, st.disconnects)
    ensures IdsOk(Retire(st, p).heap, st.nextId) && DisconnectsOk(Retire(st, p).heap, st.disconnects)
  {
    hide Without, Distinct;
  }

  lemma RetireLists(st: State, p: Ptr)
    requires p in st.heap && st.heap[p].Local?
    requires ListOk(st.heap, st.list, false) && ListOk(st.heap, st.closing, true) && IdsOk(st.heap, st.nextId)
    requires DisconnectsOk(st.heap, st.disconnects)
    ensures var st' := Retire(st, p);
            && ListOk(st'.heap, st'.list, false) && ListOk(st'.heap, st'.closing, true) && IdsOk(st'.heap, st'.nextId)
            && DisconnectsOk(st'.heap, st'.disconnects)
  {
    hide Without, Distinct, IdsOk, DisconnectsOk;
    RetireIds(st, p);
    Removed(st.list, p);
    Removed(st.closing, p);
    if !st.heap[p].closing { Added(st.closing, p); }
  }

  lemma FreeRemoteLists(st: State, p: Ptr)
    requires p in st.heap && st.heap[p].Remote?
    requires ListOk(st.heap, st.list, false) && ListOk(st.heap, st.closing, true) && IdsOk(st.heap, st.nextId)
    requires DisconnectsOk(st.heap, st.disconnects)
    ensures var st' := FreeRemote(st, p);
            && ListOk(st'.heap, st'.list, false) && ListOk(st'.heap, st'.closing, true) && IdsOk(st'.heap, st'.nextId)
            && DisconnectsOk(st'.heap, st'.disconnects)
  {
    hide Without, Distinct;
    Removed(st.disconnects[st.heap[p].transport], p);
  }

  lemma DisconnectValid(st: State, p: Ptr)
    requires Valid(st) && p in st.heap && st.heap[p].Remote?
    ensures Valid(Disconnect(st, p))
  {
    hide Without, Distinct, ListOk, IdsOk, DisconnectsOk;
    assert PeerOk(st.heap, p);
    var q := st.heap[p].peer;
    assert PeerOk(st.heap, q);
    var cut := Retire(st, q);
    RetireLists(st, q);
    FreeRemoteLists(cut.(ran := cut.ran + [p]), p);
    OthersKeep(st.heap, Disconnect(st, p).heap, p, q);
  }

  lemma HeadRuns(st: State, t: Tid)
    requires Valid(st) && t in st.disconnects && st.disconnects[t] != []
    ensures var p := st.disconnects[t][0];
            && p in st.heap && st.heap[p].Remote? && st.heap[p].transport == t && PeerOk(st.heap, p)
            && Valid(Disconnect(st, p))
            && Disconnect(st, p).disconnects == st.disconnects[t := st.disconnects[t][1..]]
            && Disconnect(st, p).ran == st.ran + [p]
            && Disconnect(st, p).online == st.online
  {
    var p := st.disconnects[t][0];
    assert p in st.disconnects[t];
    DisconnectValid(st, p);
  }

  /** All callbacks of a transport, in list order. */
  ghost function RunAll(st: State, t: Tid): State
    requires Valid(st) && t in st.disconnects
    decreases |st.disconnects[t]|
  {
    if st.disconnects[t] == [] then st
    else
      HeadRuns(st, t);
      RunAll(Disconnect(st, st.disconnects[t][0]), t)
  }

  // ---- each keeps the invariant ---------------------------------------------------------------

  lemma CloseValid(st: State, p: Ptr)
    requires Valid(st) && p in st.heap && st.heap[p].Local?
    ensures Valid(Close(st, p))
  {
    hide Without, Distinct, ListOk, IdsOk, DisconnectsOk;
    assert PeerOk(st.heap, p);
    var q := st.heap[p].peer;
    if q == 0 {
      RetireLists(st, p);
    } else if st.heap[q].Local? {
      assert PeerOk(st.heap, q);
      RetireLists(st, q);
      RetireLists(Retire(st, q), p);
    } else {
      var r := st.heap[q];
      var told := st.(sent := st.sent + [Clse(r.transport, 0, r.id)]);
      FreeRemoteLists(told, q);
      RetireLists(FreeRemote(told, q), p);
    }
    OthersKeep(st.heap, Close(st, p).heap, p, q);
  }

  lemma CloseRemoteValid(st: State, p: Ptr)
    requires Valid(st) && p in st.heap && st.heap[p].Remote?
    ensures Followable(st.heap, p) && st.heap[st.heap[p].peer].Local? && Valid(CloseRemote(st, p))
  {
    hide Without, Distinct, ListOk, IdsOk, DisconnectsOk;
    assert PeerOk(st.heap, p);
    var q := st.heap[p].peer;
    assert PeerOk(st.heap, q);
    var cut := Retire(st, q);
    RetireLists(st, q);
    FreeRemoteLists(cut.(sent := cut.sent + [Clse(st.heap[p].transport, st.heap[q].id, st.heap[p].id)]), p);
    OthersKeep(st.heap, CloseRemote(st, p).heap, p, q);
  }

  /** g differs from h at most in peers, backlogs and the transports of local sockets. */
  ghost predicate SameShape(h: map<Ptr, Socket>, g: map<Ptr, Socket>) {
    && (forall x :: x in g <==> x in h)
    && (forall x :: x in h ==> g[x].Local? == h[x].Local? && g[x].id == h[x].id
                               && if h[x].Local? then g[x].closing == h[x].closing
                                  else g[x].transport == h[x].transport)
  }

  lemma ShapeKeeps(st: State, g: map<Ptr, Socket>)
    requires ListOk(st.heap, st.list, false) && ListOk(st.heap, st.closing, true) && IdsOk(st.heap, st.nextId)
    requires DisconnectsOk(st.heap, st.disconnects) && SameShape(st.heap, g)
    ensures ListOk(g, st.list, false) && ListOk(g, st.closing, true) && IdsOk(g, st.nextId)
            && DisconnectsOk(g, st.disconnects)
  {
    hide Distinct;
  }

  lemma AddedLocal(st: State, p: Ptr)
    requires ListOk(st.heap, st.list, false) && ListOk(st.heap, st.closing, true) && IdsOk(st.heap, st.nextId)
    requires DisconnectsOk(st.heap, st.disconnects) && p !in st.heap && st.nextId > 0
    ensures var st' := Install(st, p);
            && ListOk(st'.heap, st'.list, false) && ListOk(st'.heap, st'.closing, true) && IdsOk(st'.heap, st'.nextId)
            && DisconnectsOk(st'.heap, st'.disconnects)
  {
    hide Distinct;
    Added(st.list, p);
  }

  lemma AddedRemote(st: State, r: Ptr, p: Ptr, id: nat, t: Tid)
    requires ListOk(st.heap, st.list, false) && ListOk(st.heap, st.closing, true) && IdsOk(st.heap, st.nextId)
    requires DisconnectsOk(st.heap, st.disconnects) && r !in st.heap && t in st.disconnects
    ensures var h := st.heap[r := Remote(id, p, t)];
            && ListOk(h, st.list, false) && ListOk(h, st.closing, true) && IdsOk(h, st.nextId)
            && DisconnectsOk(h, st.disconnects[t := st.disconnects[t] + [r]])
  {
    hide Distinct;
    Added(st.disconnects[t], r);
  }

  /** The peers of h stay right when p and q change and no other socket points at them. */
  lemma PeersStay(h: map<Ptr, Socket>, g: map<Ptr, Socket>, p: Ptr, q: Ptr)
    requires PeersOk(h) && (p in h ==> h[p].peer == 0 || h[p].peer == q)
             && (q in h ==> h[q].peer == 0 || h[q].peer == p)
    requires forall x :: x in g <==> x in h || ((x == p || x == q) && x in g)
    requires forall x :: x in h && x != p && x != q ==> g[x] == h[x]
    requires (p in g ==> PeerOk(g, p)) && (q in g ==> PeerOk(g, q))
    ensures PeersOk(g)
  {
    forall x | x in g ensures PeerOk(g, x) {
      if x != p && x != q {
        assert PeerOk(h, x);
        var y := h[x].peer;
        if y != 0 { assert h[y].peer == x && PeerOk(h, y); }
      }
    }
  }

  lemma InstallValid(st: State, p: Ptr)
    requires Valid(st) && p !in st.heap && p != 0
    ensures Valid(Install(st, p))
  {
    hide ListOk, IdsOk, DisconnectsOk;
    AddedLocal(st, p);
    PeersStay(st.heap, Install(st, p).heap, p, p);
  }

  lemma AttachValid(st: State, p: Ptr, r: Ptr, id: nat, t: Tid)
    requires Valid(st) && p in st.heap && st.heap[p].Local? && !st.heap[p].closing && st.heap[p].peer == 0
    requires r !in st.heap && r != 0 && t in st.disconnects
    ensures Valid(Attach(st, p, r, id, t))
  {
    hide ListOk, IdsOk, DisconnectsOk;
    var one := st.(heap := st.heap[p := st.heap[p].(peer := r)]);
    ShapeKeeps(st, one.heap);
    AddedRemote(one, r, p, id, t);
    PeersStay(st.heap, Attach(st, p, r, id, t).heap, p, r);
  }

  lemma JoinValid(st: State, p: Ptr, q: Ptr)
    requires Valid(st) && p in st.heap && q in st.heap && p != q && st.heap[p].peer == 0 && st.heap[q].peer == 0
    requires st.heap[p].Local? && st.heap[q].Local? && !st.heap[p].closing && !st.heap[q].closing
    ensures Valid(Join(st, p, q))
  {
    hide ListOk, IdsOk, DisconnectsOk;
    ShapeKeeps(st, Join(st, p, q).heap);
    assert PeerOk(st.heap, p) && PeerOk(st.heap, q);
    PeersStay(st.heap, Join(st, p, q).heap, p, q);
  }

  lemma BacklogPeers(st: State, p: Ptr, b: bool)
    requires PeersOk(st.heap) && p in st.heap && st.heap[p].Local? && (b || !st.heap[p].closing)
    ensures PeersOk(Backlog(st, p, b).heap)
  {
    forall x | x in st.heap ensures PeerOk(Backlog(st, p, b).heap, x) {
      assert PeerOk(st.heap, x);
      if st.heap[x].peer != 0 { assert PeerOk(st.heap, st.heap[x].peer); }
    }
  }

  lemma BacklogValid(st: State, p: Ptr, b: bool)
    requires Valid(st) && p in st.heap && st.heap[p].Local? && (b || !st.heap[p].closing)
    ensures Valid(Backlog(st, p, b))
  {
    hide ListOk, IdsOk, DisconnectsOk, PeersOk;
    ShapeKeeps(st, Backlog(st, p, b).heap);
    BacklogPeers(st, p, b);
  }

  lemma AssignPeers(st: State, p: Ptr, t: Tid)
    requires PeersOk(st.heap) && p in st.heap && st.heap[p].Local?
    ensures PeersOk(Assign(st, p, t).heap)
  {
    forall x | x in st.heap ensures PeerOk(Assign(st, p, t).heap, x) {
      assert PeerOk(st.heap, x);
      if st.heap[x].peer != 0 { assert PeerOk(st.heap, st.heap[x].peer); }
    }
  }

  lemma AssignValid(st: State, p: Ptr, t: Tid)
    requires Valid(st) && p in st.heap && st.heap[p].Local?
    ensures Valid(Assign(st, p, t))
  {
    hide ListOk, IdsOk, DisconnectsOk, PeersOk;
    ShapeKeeps(st, Assign(st, p, t).heap);
    AssignPeers(st, p, t);
  }

  /** The socket is a remote one on t, or its peer is. */
  predicate OnTransport(h: map<Ptr, Socket>, p: Ptr, t: Tid)
    requires p in h
  {
    || (h[p].Remote? && h[p].transport == t)
    || (h[p].peer in h && h[h[p].peer].Remote? && h[h[p].peer].transport == t)
  }

  /** No live socket is on the transport or has its peer there. */
  ghost predicate Cleared(h: map<Ptr, Socket>, t: Tid) {
    forall p :: p in h ==> !OnTransport(h, p, t)
  }

  /** Sockets of h that have nothing to do with the transport are as they were. */
  ghost predicate Spared(h: map<Ptr, Socket>, g: map<Ptr, Socket>, t: Tid) {
    && (forall p :: p in g ==> p in h)
    && (forall p :: p in h && !OnTransport(h, p, t) ==> p in g && g[p] == h[p] && !OnTransport(g, p, t))
  }

  lemma SparedTrans(h: map<Ptr, Socket>, g: map<Ptr, Socket>, f: map<Ptr, Socket>, t: Tid)
    requires Spared(h, g, t) && Spared(g, f, t)
    ensures Spared(h, f, t)
  {
    hide OnTransport;
  }

  /** One callback spares the sockets that have nothing to do with the transport. */
  lemma DisconnectSpares(st: State, p: Ptr)
    requires Valid(st) && p in st.heap && st.heap[p].Remote?
    ensures PeerOk(st.heap, p) && Spared(st.heap, Disconnect(st, p).heap, st.heap[p].transport)
  {
    hide ListOk, IdsOk, DisconnectsOk, Without;
    assert PeerOk(st.heap, p);
    var q, t, g := st.heap[p].peer, st.heap[p].transport, Disconnect(st, p).heap;
    assert PeerOk(st.heap, q);
    forall x | x in st.heap && !OnTransport(st.heap, x, t)
      ensures x in g && g[x] == st.heap[x] && !OnTransport(g, x, t)
    {
      assert PeerOk(st.heap, x);
    }
  }

  lemma NoneLeft(st: State, t: Tid)
    requires Valid(st) && t in st.disconnects && st.disconnects[t] == []
    ensures Cleared(st.heap, t) && Spared(st.heap, st.heap, t)
  {
    hide Distinct, ListOk, IdsOk, PeersOk;
    assert OwnOk(st.heap, st.disconnects[t], t);
  }

  /**
   * A transport gone offline: every callback on its list has run, once and in order; the list is
   * empty; no live socket has a peer on that transport; and sockets without a peer there are untouched.
   */
  lemma {:induction false} OfflineRuns(st: State, t: Tid)
    requires Valid(st) && t in st.disconnects
    ensures var off := RunAll(st, t);
            && Valid(off) && off.disconnects == st.disconnects[t := []] && off.ran == st.ran + st.disconnects[t]
            && Cleared(off.heap, t) && Spared(st.heap, off.heap, t)
    decreases |st.disconnects[t]|
  {
    hide Spared, Cleared, Disconnect, Valid;
    if st.disconnects[t] == [] {
      assert st.disconnects == st.disconnects[t := []];
      NoneLeft(st, t);
    } else {
      HeadRuns(st, t);
      var p := st.disconnects[t][0];
      DisconnectSpares(st, p);
      OfflineRuns(Disconnect(st, p), t);
      SparedTrans(st.heap, Disconnect(st, p).heap, RunAll(st, t).heap, t);
      assert st.disconnects[t] == [p] + st.disconnects[t][1..];
    }
  }

  // ---- the operations in place -------------------------------------------------------------------

  /** A local socket is on the list its closing flag names. */
  predicate Placed(h: map<Ptr, Socket>, list: seq<Ptr>, closing: seq<Ptr>, p: Ptr)
    requires p in h && h[p].Local?
  {
    if h[p].closing then p in closing else p in list && p !in closing
  }

  lemma ValidPlaces(st: State, p: Ptr)
    requires Valid(st) && p in st.heap
    ensures st.heap[p].Local? ==> Placed(st.heap, st.list, st.closing, p)
    ensures PeerOk(st.heap, p) && Followable(st.heap, p)
    ensures st.heap[p].peer != 0 ==> PeerOk(st.heap, st.heap[p].peer)
    ensures st.heap[p].peer != 0 && st.heap[st.heap[p].peer].Local? ==>
              Placed(st.heap, st.list, st.closing, st.heap[p].peer)
  {
    hide Distinct;
  }

  /** Closing a listed socket leaves fewer listed sockets, and changes no other than it and its peer. */
  lemma CloseShrinks(st: State, p: Ptr)
    requires Valid(st) && p in st.list
    ensures p in st.heap && st.heap[p].Local? && Followable(st.heap, p) && |Close(st, p).list| < |st.list|
    ensures Close(st, p).disconnects.Keys == st.disconnects.Keys && 0 !in st.heap
    ensures var h, g := st.heap, Close(st, p).heap;
            && (forall x :: x in g ==> x in h)
            && (forall x :: x in h && x != p && x != h[p].peer ==> x in g && g[x] == h[x])
            && (forall x :: x in g && (x == p || x == h[p].peer) ==> g[x].Local? && g[x].closing)
  {
    hide Distinct, Without;
    var q := st.heap[p].peer;
    ValidPlaces(st, p);
    Removed(st.list, p);
    Removed(st.list, q);
    Removed(Without(st.list, q), p);
  }

  /** What close_all_sockets looks for. */
  predicate Touches(h: map<Ptr, Socket>, p: Ptr, t: Tid)
    requires p in h && Followable(h, p)
  {
    h[p].transport == t || (h[p].peer != 0 && h[h[p].peer].transport == t)
  }

  lemma Inhabited(q: seq<Ptr>)
    ensures q == [] || exists p :: p in q
  {
    if q != [] { assert q[0] in q; }
  }

  lemma NoneTouch(st: State, t: Tid)
    requires Valid(st) && t in st.disconnects
    requires forall p :: p in st.list ==> p in st.heap && Followable(st.heap, p) && !Touches(st.heap, p, t)
    ensures Cleared(st.heap, t) && st.disconnects[t] == []
  {
    hide Distinct, IdsOk;
    forall p | p in st.heap && st.heap[p].Remote? ensures st.heap[p].transport != t {
      ValidPlaces(st, p);
      assert st.heap[p].peer in st.list;
    }
    assert OwnOk(st.heap, st.disconnects[t], t);
    Inhabited(st.disconnects[t]);
  }

  ghost predicate Touched(st: State, p: Ptr, t: Tid) {
    p in st.heap && Followable(st.heap, p) && Touches(st.heap, p, t)
  }

  /** The first of the sockets that close_all_sockets closes, or 0. */
  ghost function FirstTouched(st: State, q: seq<Ptr>, t: Tid): (p: Ptr)
    ensures p == 0 || (p in q && Touched(st, p, t))
  {
    if q == [] then 0 else if Touched(st, q[0], t) then q[0] else FirstTouched(st, q[1..], t)
  }

  lemma {:induction false} FirstIs(st: State, q: seq<Ptr>, t: Tid, i: nat)
    requires i <= |q| && forall j :: 0 <= j < i ==> !Touched(st, q[j], t)
    ensures i == |q| ==> FirstTouched(st, q, t) == 0
    ensures i < |q| && Touched(st, q[i], t) ==> FirstTouched(st, q, t) == q[i]
  {
    if i > 0 { FirstIs(st, q[1..], t, i - 1); }
  }

  /** close_all_sockets: the first listed socket that touches the transport is closed, until there is none. */
  ghost function CloseAll(st: State, t: Tid): State
    requires Valid(st)
    decreases |st.list|
  {
    var p := FirstTouched(st, st.list, t);
    if p == 0 then st else
      CloseShrinks(st, p);
      CloseValid(st, p);
      CloseAll(Close(st, p), t)
  }

  lemma {:induction false} CloseAllValid(st: State, t: Tid)
    requires Valid(st)
    ensures Valid(CloseAll(st, t)) && FirstTouched(CloseAll(st, t), CloseAll(st, t).list, t) == 0
    decreases |st.list|
  {
    hide Valid, Close;
    var p := FirstTouched(st, st.list, t);
    if p != 0 {
      CloseShrinks(st, p);
      CloseValid(st, p);
      CloseAllValid(Close(st, p), t);
    }
  }

  /** g has no sockets but those of h, and those that did not touch t as they were. */
  ghost predicate Remains(h: map<Ptr, Socket>, g: map<Ptr, Socket>, t: Tid) {
    && (forall x :: x in g ==> x in h && (g[x] == h[x] || (g[x].Local? && g[x].closing)))
    && (forall x :: x in h && Followable(h, x) && !Touches(h, x, t) ==> x in g && g[x] == h[x])
  }

  lemma RemainsAll(h: map<Ptr, Socket>, t: Tid)
    ensures Remains(h, h, t)
  {}

  /** A listed socket that touches t did so from the start, and so did its peer. */
  lemma ClosedTouch(st: State, h: map<Ptr, Socket>, p: Ptr, t: Tid)
    requires Valid(st) && p in st.list && (forall x :: x in h ==> Followable(h, x))
    requires forall x :: x in st.heap ==> x in h && (st.heap[x] == h[x] || (st.heap[x].Local? && st.heap[x].closing))
    requires p in st.heap && Followable(st.heap, p) && Touches(st.heap, p, t)
    ensures p in h && Touches(h, p, t) && (h[p].peer != 0 ==> Touches(h, h[p].peer, t)) && st.heap[p].peer == h[p].peer
  {
    hide Distinct;
    ValidPlaces(st, p);
  }

  lemma RemainsMore(h: map<Ptr, Socket>, st: State, p: Ptr, t: Tid)
    requires Valid(st) && p in st.list && Remains(h, st.heap, t) && Touched(st, p, t)
    requires forall x :: x in h ==> Followable(h, x)
    ensures p in st.heap && st.heap[p].Local? && Remains(h, Close(st, p).heap, t)
  {
    hide Valid, Close;
    CloseShrinks(st, p);
    ClosedTouch(st, h, p, t);
  }

  lemma TouchedIs(st: State, p: Ptr, t: Tid)
    requires p in st.heap && Followable(st.heap, p)
    ensures Touched(st, p, t) <==> Touches(st.heap, p, t)
  {}

  lemma {:induction false} NoneFirst(st: State, q: seq<Ptr>, x: Ptr, t: Tid)
    requires FirstTouched(st, q, t) == 0 && x in q && 0 !in st.heap
    ensures !Touched(st, x, t)
  {
    if x != q[0] { NoneFirst(st, q[1..], x, t); }
  }

  /** Nothing that touches the transport is left, and the rest is as it was. */
  lemma {:induction false} CloseAllClears(h: map<Ptr, Socket>, st: State, t: Tid)
    requires Valid(st) && t in st.disconnects && Remains(h, st.heap, t) && forall x :: x in h ==> Followable(h, x)
    ensures var c := CloseAll(st, t);
            Valid(c) && Cleared(c.heap, t) && t in c.disconnects && c.disconnects[t] == [] && Remains(h, c.heap, t)
    decreases |st.list|
  {
    hide Valid, Close, Remains, Cleared, Touched;
    var p := FirstTouched(st, st.list, t);
    if p != 0 {
      CloseShrinks(st, p);
      CloseValid(st, p);
      RemainsMore(h, st, p, t);
      CloseAllClears(h, Close(st, p), t);
    } else {
      forall x | x in st.list ensures x in st.heap && Followable(st.heap, x) && !Touches(st.heap, x, t) {
        CloseShrinks(st, x);
        TouchedIs(st, x, t);
        NoneFirst(st, st.list, x, t);
      }
      NoneTouch(st, t);
    }
  }

  /** The peer of a socket that is going away no longer matters. */
  lemma PeerForgotten(st: State, p: Ptr)
    requires p in st.heap
    ensures var cut := st.(heap := st.heap[p := st.heap[p].(peer := 0)]);
            && (st.heap[p].Local? ==> Retire(cut, p) == Retire(st, p))
            && (st.heap[p].Remote? ==> forall m :: FreeRemote(cut.(sent := m), p) == FreeRemote(st.(sent := m), p))
  {
    hide Without;
    var cut := st.(heap := st.heap[p := st.heap[p].(peer := 0)]);
    assert cut.heap - {p} == st.heap - {p};
  }

  /** A callback list without its sentinel: its first entry, or 0. */
  function First(q: seq<Ptr>): Ptr { if q == [] then 0 else q[0] }

  /** The entry behind p, or 0 at the end. */
  function Successor(q: seq<Ptr>, p: Ptr): Ptr {
    if q == [] then 0 else if q[0] == p then First(q[1..]) else Successor(q[1..], p)
  }

  lemma NonNull(st: State, t: Tid)
    requires Valid(st) && t in st.disconnects
    ensures First(st.disconnects[t]) == 0 <==> st.disconnects[t] == []
  {
    hide Disconnect, Valid;
    if st.disconnects[t] != [] { HeadRuns(st, t); }
  }

  lemma ListedLocal(st: State, p: Ptr)
    requires Valid(st) && p in st.list
    ensures p in st.heap && st.heap[p].Local? && !st.heap[p].closing
  {}

  lemma DrainedKeeps(st: State, p: Ptr)
    requires Valid(st) && p in st.heap && st.heap[p].Local?
    ensures var now := st.(heap := st.heap[p := st.heap[p].(pending := false)]);
            && now == Backlog(st, p, false) && Followable(st.heap, p)
            && if st.heap[p].closing
               then && now.heap[p].peer == 0 && Placed(now.heap, now.list, now.closing, p)
                    && Close(now, p) == Close(st, p) && Valid(Close(st, p))
               else Valid(now)
  {
    hide Valid, Without;
    ValidPlaces(st, p);
    CloseValid(st, p);
    if !st.heap[p].closing {
      BacklogValid(st, p, false);
    } else {
      assert st.heap[p := st.heap[p].(pending := false)] - {p} == st.heap - {p};
    }
  }

  lemma ValidSends(st: State, st': State)
    requires Valid(st) && st' == st.(sent := st'.sent, online := st'.online)
    ensures Valid(st')
  {}

  lemma AllFollowable(st: State)
    requires Valid(st)
    ensures forall p :: p in st.heap ==> Followable(st.heap, p)
  {
    hide ListOk, IdsOk, DisconnectsOk;
    forall p | p in st.heap ensures Followable(st.heap, p) { assert PeerOk(st.heap, p); }
  }

  class SocketTable {
    var heap: map<Ptr, Socket>
    var list: seq<Ptr>
    var closing: seq<Ptr>
    var disconnects: map<Tid, seq<Ptr>>
    var online: set<Tid>
    var nextId: nat
    var sent: seq<Packet>
    ghost var ran: seq<Ptr>

    ghost function Now(): State
      reads this
    {
      State(heap, list, closing, disconnects, online, nextId, sent, ran)
    }

    constructor (transports: set<Tid>)
      ensures Valid(Now()) && Now() == State(map[], [], [], map t | t in transports :: [], {}, 1, [], [])
    {
      heap, list, closing, online, nextId, sent, ran := map[], [], [], {}, 1, [], [];
      disconnects := map t | t in transports :: [];
    }

    /** find_local_socket */
    method FindLocalSocket(id: nat) returns (p: Ptr)
      requires Valid(Now())
      ensures p != 0 ==> p in list && p in heap && heap[p].id == id
      ensures p == 0 ==> forall x :: x in list ==> x in heap && heap[x].id != id
    {
      hide IdsOk, DisconnectsOk, Distinct;
      for i := 0 to |list|
        invariant forall j :: 0 <= j < i ==> list[j] in heap && heap[list[j]].id != id
      {
        assert list[i] in list;
        assert PeerOk(heap, list[i]);
        if heap[list[i]].id == id { return list[i]; }
      }
      p := 0;
    }

    /** remove_socket */
    method RemoveSocket(p: Ptr)
      requires p in heap && heap[p].Local?
      modifies `heap, `list, `closing
      ensures p in old(list) || p in old(closing) ==> heap == old(heap)[p := old(heap)[p].(id := 0)]
      ensures p !in old(list) && p !in old(closing) ==> heap == old(heap)
      ensures list == Without(old(list), p) && closing == Without(old(closing), p)
    {
      Kept(list, p, p);
      Kept(closing, p, p);
      if p in list || p in closing {
        list := Without(list, p);
        closing := Without(closing, p);
        heap := heap[p := heap[p].(id := 0)];
      }
    }

    /** local_socket_close_locked */
    method LocalClose(p: Ptr)
      requires p in heap && heap[p].Local? && Followable(heap, p) && Placed(heap, list, closing, p)
      requires heap[p].peer != 0 && heap[heap[p].peer].Local? ==> Placed(heap, list, closing, heap[p].peer)
      modifies this
      ensures Now() == Close(old(Now()), p)
      decreases if heap[p].peer == 0 then 0 else 1
    {
      hide Without, Retire, FreeRemote;
      ghost var was, q := Now(), heap[p].peer;
      if heap[p].peer != 0 {
        DropPeer(p);
        ghost var cut := Now();
        heap := heap[p := heap[p].(peer := 0)];
        PeerForgotten(cut, p);
      }
      Leave(p);
    }

    /** Closing the peer of p, which is told first that it has none. */
    method DropPeer(p: Ptr)
      requires p in heap && heap[p].Local? && heap[p].peer != 0 && Followable(heap, p) && Placed(heap, list, closing, p)
      requires heap[heap[p].peer].Local? ==> Placed(heap, list, closing, heap[p].peer)
      modifies this
      ensures var st, q := old(Now()), old(heap)[p].peer;
              Now() == if st.heap[q].Local? then Retire(st, q)
                       else FreeRemote(st.(sent := st.sent + [Clse(st.heap[q].transport, 0, st.heap[q].id)]), q)
      ensures p in heap && heap[p] == old(heap)[p] && Placed(heap, list, closing, p)
      decreases 1, 0
    {
      var q := heap[p].peer;
      ghost var was := Now();
      heap := heap[q := heap[q].(peer := 0)];
      PeerForgotten(was, q);
      Kept(list, q, p);
      Kept(closing, q, p);
      if heap[q].Local? {
        LocalClose(q);
      } else {
        RemoteClose(q);
      }
    }

    /** The rest of local_socket_close_locked, once there is no peer. */
    method Leave(p: Ptr)
      requires p in heap && heap[p].Local? && heap[p].peer == 0 && Placed(heap, list, closing, p)
      modifies this
      ensures Now() == Retire(old(Now()), p)
    {
      hide Without;
      Kept(closing, p, p);
      if heap[p].closing || !heap[p].pending {
        RemoveSocket(p);
        heap := heap - {p};
        return;
      }
      heap := heap[p := heap[p].(closing := true)];
      RemoveSocket(p);
      closing := closing + [p];
    }

    /** remote_socket_close */
    method RemoteClose(p: Ptr)
      requires p in heap && heap[p].Remote? && Followable(heap, p)
      requires heap[p].peer != 0 ==> heap[heap[p].peer].Local? && Placed(heap, list, closing, heap[p].peer)
      modifies this
      ensures Now() == CloseRemote(old(Now()), p)
      decreases if heap[p].peer == 0 then 0 else 1
    {
      hide Without;
      var q, arg0 := heap[p].peer, 0;
      if q != 0 {
        arg0 := heap[q].id;
        heap := heap[q := heap[q].(peer := 0)];
        LocalClose(q);
      }
      sent := sent + [Clse(heap[p].transport, arg0, heap[p].id)];
      RemoveTransportDisconnect(heap[p].transport, p);
      heap := heap - {p};
    }

    method RemoveTransportDisconnect(t: Tid, p: Ptr)
      modifies `disconnects
      ensures disconnects == if t in old(disconnects)
                             then old(disconnects)[t := Without(old(disconnects)[t], p)] else old(disconnects)
    {
      if t in disconnects { disconnects := disconnects[t := Without(disconnects[t], p)]; }
    }

    /** remote_socket_disconnect */
    method RemoteDisconnect(p: Ptr)
      requires p in heap && heap[p].Remote? && Followable(heap, p)
      requires heap[p].peer != 0 ==> heap[heap[p].peer].Local? && Placed(heap, list, closing, heap[p].peer)
      modifies this
      ensures Now() == Disconnect(old(Now()), p)
    {
      hide Without;
      var q := heap[p].peer;
      if q != 0 {
        heap := heap[q := heap[q].(peer := 0)];
        LocalClose(q);
      }
      ran := ran + [p];
      RemoveTransportDisconnect(heap[p].transport, p);
      heap := heap - {p};
    }

    /** create_local_socket */
    method CreateLocalSocket(p: Ptr)
      requires Valid(Now()) && p !in heap && p != 0
      modifies this
      ensures Now() == Install(old(Now()), p) && Valid(Now())
    {
      hide Valid;
      InstallValid(Now(), p);
      heap := heap[p := Local(nextId, 0, 0, false, false)];
      nextId := nextId + 1;
      list := list + [p];
    }

    /** create_remote_socket, and its peer pointers as both callers set them. */
    method CreateRemoteSocket(p: Ptr, r: Ptr, id: nat, t: Tid)
      requires Valid(Now()) && p in heap && heap[p].Local? && !heap[p].closing && heap[p].peer == 0
      requires r !in heap && r != 0 && t in disconnects
      modifies this
      ensures Now() == Attach(old(Now()), p, r, id, t) && Valid(Now())
    {
      hide Valid;
      AttachValid(Now(), p, r, id, t);
      heap := heap[r := Remote(id, 0, t)];
      disconnects := disconnects[t := disconnects[t] + [r]];
      heap := heap[p := heap[p].(peer := r)];
      heap := heap[r := Remote(id, p, t)];
    }

    /** handle_packet on OPEN; p and r are the addresses the allocator would give. */
    method HandleOpen(t: Tid, arg0: nat, served: bool, p: Ptr, r: Ptr)
      requires Valid(Now()) && t in disconnects && p !in heap && r !in heap && p != 0 && r != 0 && p != r
      modifies this
      ensures Valid(Now())
      ensures t !in online ==> Now() == old(Now())
      ensures t in online && !served ==> Now() == old(Now()).(sent := old(sent) + [Clse(t, 0, arg0)])
      ensures t in online && served ==>
                Now()
                == Attach(Install(old(Now()), p), p, r, arg0, t).(sent := old(sent) + [Okay(t, old(nextId), arg0)])
    {
      hide Valid;
      ghost var st := Now();
      if t in online {
        if !served {
          sent := sent + [Clse(t, 0, arg0)];
          ValidSends(st, Now());
        } else {
          CreateLocalSocket(p);
          CreateRemoteSocket(p, r, arg0, t);
          st := Now();
          sent := sent + [Okay(t, heap[p].id, heap[r].id)];
          ValidSends(st, Now());
        }
      }
    }

    /** handle_packet on OKAY: a connecting socket gets its peer. */
    method HandleOkay(t: Tid, arg0: nat, arg1: nat, r: Ptr) returns (ghost p: Ptr)
      requires Valid(Now()) && t in disconnects && r !in heap && r != 0
      modifies this
      ensures Valid(Now())
      ensures p != 0 ==> p in old(list) && p in old(heap) && old(heap)[p].id == arg1
      ensures Now() == if p != 0 && old(heap)[p].peer == 0
                       then Attach(old(Now()), p, r, arg0, t) else old(Now())
      ensures t in online && p == 0 ==> forall x :: x in old(list) ==> x in old(heap) && old(heap)[x].id != arg1
    {
      hide Valid;
      p := 0;
      if t in online {
        var s := FindLocalSocket(arg1);
        p := s;
        if s != 0 {
          ListedLocal(Now(), s);
          if heap[s].peer == 0 { CreateRemoteSocket(s, r, arg0, t); }
        }
      }
    }

    /** handle_packet on CLSE. */
    method HandleClse(t: Tid, arg1: nat) returns (ghost p: Ptr)
      requires Valid(Now())
      modifies this
      ensures Valid(Now())
      ensures p != 0 ==> p in old(heap) && old(heap)[p].Local? && old(heap)[p].id == arg1
      ensures p != 0 ==> Followable(old(heap), p) && Now() == Close(old(Now()), p)
      ensures p == 0 ==>
                Now() == old(Now()) && (t in online ==> forall x :: x in list ==> x in heap && heap[x].id != arg1)
    {
      hide Valid, Close;
      p := 0;
      if t in online {
        var s := FindLocalSocket(arg1);
        p := s;
        if s != 0 {
          ListedLocal(Now(), s);
          ValidPlaces(Now(), s);
          CloseValid(Now(), s);
          LocalClose(s);
        }
      }
    }

    /** The queue of p has been written out: a closing socket is now destroyed. */
    method Drained(p: Ptr)
      requires Valid(Now()) && p in heap && heap[p].Local?
      modifies this
      ensures Valid(Now())
      ensures Now() == if old(heap)[p].closing then Close(old(Now()), p) else Backlog(old(Now()), p, false)
    {
      hide Valid, Close, Backlog;
      DrainedKeeps(Now(), p);
      heap := heap[p := heap[p].(pending := false)];
      if heap[p].closing { LocalClose(p); }
    }

    /** handle_offline with run_transport_disconnects: each successor is read before its predecessor's callback runs. */
    method HandleOffline(t: Tid)
      requires Valid(Now()) && t in disconnects
      modifies this
      ensures Now() == RunAll(old(Now()).(online := old(online) - {t}), t)
      ensures Valid(Now()) && t in disconnects && disconnects[t] == [] && ran == old(ran) + old(disconnects)[t]
      ensures Cleared(heap, t) && Spared(old(heap), heap, t) && t !in online
    {
      hide Valid, Disconnect, Cleared, Spared;
      online := online - {t};
      ghost var st := Now();
      ValidSends(old(Now()), st);
      OfflineRuns(st, t);
      var dis := First(disconnects[t]);
      while dis != 0
        invariant Valid(Now()) && t in disconnects && dis == First(disconnects[t]) && RunAll(Now(), t) == RunAll(st, t)
        invariant online == st.online
        decreases |disconnects[t]|
      {
        NonNull(Now(), t);
        HeadRuns(Now(), t);
        ValidPlaces(Now(), dis);
        var next := Successor(disconnects[t], dis);
        RemoteDisconnect(dis);
        dis := next;
      }
      NonNull(Now(), t);
    }

    /** close_all_sockets: start over after every socket closed. */
    method CloseAllSockets(t: Tid)
      requires Valid(Now()) && t in disconnects && t != 0
      modifies this
      ensures Valid(old(Now())) && Now() == CloseAll(old(Now()), t)
      ensures Valid(Now()) && Cleared(heap, t) && t in disconnects && disconnects[t] == []
      ensures Remains(old(heap), heap, t)
    {
      hide Valid, Close, Cleared, Remains, Touched, FirstTouched;
      ghost var st := Now();
      var i := 0;
      while i < |list|
        invariant Valid(Now()) && i <= |list| && CloseAll(Now(), t) == CloseAll(st, t)
        invariant forall j :: 0 <= j < i ==> !Touched(Now(), list[j], t)
        decreases |list|, |list| - i
      {
        var s := list[i];
        CloseShrinks(Now(), s);
        TouchedIs(Now(), s, t);
        if heap[s].transport == t || (heap[s].peer != 0 && heap[heap[s].peer].transport == t) {
          FirstIs(Now(), list, t, i);
          CloseValid(Now(), s);
          ValidPlaces(Now(), s);
          LocalClose(s);
          i := 0;
        } else {
          i := i + 1;
        }
      }
      FirstIs(Now(), list, t, i);
      AllFollowable(st);
      RemainsAll(st.heap, t);
      CloseAllClears(st.heap, st, t);
    }
  }

  // ---- every run -----------------------------------------------------------------------------------

  /** The events that change the graph, between two passes of the event loop. */
  datatype Event =
    | Created(p: Ptr)
    | Opened(p: Ptr, r: Ptr, id: nat, t: Tid)
    | Joined(p: Ptr, q: Ptr)
    | Queued(p: Ptr)
    | Emptied(p: Ptr)
    | Closed(p: Ptr)
    | Assigned(p: Ptr, t: Tid)
    | RemoteClosed(p: Ptr)
    | WentOffline(t: Tid)
    | AllClosed(t: Tid)

  predicate Idle(st: State, p: Ptr) {
    p in st.heap && st.heap[p].Local? && !st.heap[p].closing && st.heap[p].peer == 0
  }

  ghost predicate Enabled(st: State, e: Event) {
    match e
    case Created(p) => p !in st.heap && p != 0
    case Opened(p, r, _, t) => Idle(st, p) && r !in st.heap && r != 0 && t in st.disconnects
    case Joined(p, q) => Idle(st, p) && Idle(st, q) && p != q
    case Queued(p) => p in st.heap && st.heap[p].Local?
    case Emptied(p) => p in st.heap && st.heap[p].Local?
    case Closed(p) => p in st.heap && st.heap[p].Local?
    case Assigned(p, _) => p in st.heap && st.heap[p].Local?
    case RemoteClosed(p) => p in st.heap && st.heap[p].Remote?
    case WentOffline(t) => t in st.disconnects
    case AllClosed(t) => true
  }

  ghost function Apply(st: State, e: Event): State
    requires Valid(st) && Enabled(st, e)
  {
    match e
    case Created(p) => Install(st, p)
    case Opened(p, r, id, t) => Attach(st, p, r, id, t)
    case Joined(p, q) => Join(st, p, q)
    case Queued(p) => Backlog(st, p, true)
    case Emptied(p) => DrainedKeeps(st, p); if st.heap[p].closing then Close(st, p) else Backlog(st, p, false)
    case Closed(p) => ValidPlaces(st, p); Close(st, p)
    case Assigned(p, t) => Assign(st, p, t)
    case RemoteClosed(p) => ValidPlaces(st, p); CloseRemote(st, p)
    case WentOffline(t) => RunAll(st.(online := st.online - {t}), t)
    case AllClosed(t) => CloseAll(st, t)
  }

  lemma ApplyValid(st: State, e: Event)
    requires Valid(st) && Enabled(st, e)
    ensures Valid(Apply(st, e))
  {
    hide Valid, Close, CloseRemote, Install, Attach, Join, Backlog, RunAll, Assign, CloseAll;
    match e
    case Created(p) => InstallValid(st, p);
    case Opened(p, r, id, t) => AttachValid(st, p, r, id, t);
    case Joined(p, q) => JoinValid(st, p, q);
    case Queued(p) => BacklogValid(st, p, true);
    case Emptied(p) => DrainedKeeps(st, p);
    case Closed(p) => CloseValid(st, p);
    case Assigned(p, t) => AssignValid(st, p, t);
    case RemoteClosed(p) => CloseRemoteValid(st, p);
    case AllClosed(t) => CloseAllValid(st, t);
    case WentOffline(t) =>
      ValidSends(st, st.(online := st.online - {t}));
      OfflineRuns(st.(online := st.online - {t}), t);
  }

  ghost predicate Follows(st: State, st': State) {
    Valid(st) ==> exists e :: Enabled(st, e) && Apply(st, e) == st'
  }

  /** A run: every state follows from the one before it by an event. */
  ghost predicate IsRun(run: seq<State>) {
    && run != [] && run[0].heap == map[] && run[0].list == [] && run[0].closing == [] && run[0].nextId == 1
    && (forall t :: t in run[0].disconnects ==> run[0].disconnects[t] == [])
    && forall i :: 0 <= i < |run| - 1 ==> Follows(run[i], run[i + 1])
  }

  /**
   * In every reachable state peers are live and point back to each other, listed ids are distinct and
   * nonzero, and every remote socket is on its transport's disconnect list exactly once.
   */
  lemma {:induction false} GraphInvariant(run: seq<State>, i: nat)
    requires IsRun(run) && i < |run|
    ensures Valid(run[i])
  {
    if i > 0 {
      hide Valid, Apply, Enabled;
      GraphInvariant(run, i - 1);
      assert Follows(run[i - 1], run[i]);
      var e :| Enabled(run[i - 1], e) && Apply(run[i - 1], e) == run[i];
      ApplyValid(run[i - 1], e);
    }
  }
}
