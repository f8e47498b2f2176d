/**
 * The select event loop: the table of registered descriptors, the descriptor sets given to select,
 * and the list of pending events, under any sequence of calls, also from within callbacks.
 */
module FdEvent {
  import opened Lists

  /** The events and features of one descriptor; all of them lie inside FDE_EVENTMASK. */
  datatype Flag = Read | Write | Error | Timeout | DontClose

  /** An installed fdevent. wanted are the event bits of its state, events those to be reported. */
  datatype Fde = Fde(fd: nat, wanted: set<Flag>, pending: bool, events: set<Flag>)

  /** A callback made, and a descriptor closed. */
  datatype Trace = Called(fd: nat, events: set<Flag>) | Closed(fd: nat)

  /** What select reported. */
  datatype Selected = Ready(r: set<nat>, w: set<nat>, e: set<nat>) | BadFd | Interrupted

  // ---- counting the bits of a set ---------------------------------------------------------

  ghost function Count(s: set<nat>, lo: nat, hi: nat): nat
    decreases hi - lo
  {
    if lo >= hi then 0 else (if lo in s then 1 else 0) + Count(s, lo + 1, hi)
  }

  lemma {:induction false} CountSame(s: set<nat>, t: set<nat>, lo: nat, hi: nat)
    requires forall i :: lo <= i < hi ==> (i in s <==> i in t)
    ensures Count(s, lo, hi) == Count(t, lo, hi)
    decreases hi - lo
  {
    if lo < hi { CountSame(s, t, lo + 1, hi); }
  }

  lemma {:induction false} CountAll(s: set<nat>, lo: nat, hi: nat)
    requires forall i :: i in s ==> lo <= i < hi
    ensures |s| == Count(s, lo, hi)
    decreases hi - lo
  {
    if lo >= hi {
      assert s == {};
    } else {
      var t := s - {lo};
      CountAll(t, lo + 1, hi);
      CountSame(s, t, lo + 1, hi);
      if lo in s { assert s == t + {lo}; } else { assert s == t; }
    }
  }

  lemma {:induction false} CountNone(s: set<nat>, lo: nat, hi: nat, i: nat)
    requires Count(s, lo, hi) == 0 && lo <= i < hi
    ensures i !in s
    decreases hi - lo
  {
    if i > lo { CountNone(s, lo + 1, hi, i); }
  }

  /** The events reported for one descriptor. */
  function Reported(r: set<nat>, w: set<nat>, e: set<nat>, i: nat): set<Flag> {
    (if i in r then {Read} else {}) + (if i in w then {Write} else {}) + if i in e then {Error} else {}
  }

  // ---- the invariant -------------------------------------------------------------------------

  ghost predicate TableOk(fdes: map<Ptr, Fde>, table: seq<Ptr>) {
    forall i :: 0 <= i < |table| && table[i] != 0 ==> table[i] in fdes && fdes[table[i]].fd == i
  }

  /** Registered below selectN, in the sets it wants to be in, and linked exactly if an event is pending. */
  ghost predicate FdeOk(p: Ptr, f: Fde, table: seq<Ptr>, r: set<nat>, w: set<nat>, e: set<nat>, selectN: nat,
                        list: seq<Ptr>) {
    && p != 0 && f.fd < selectN <= |table| && table[f.fd] == p
    && (f.fd in r <==> Read in f.wanted) && (f.fd in w <==> Write in f.wanted) && (f.fd in e <==> Error in f.wanted)
    && (f.pending <==> p in list) && (f.pending <==> f.events != {})
  }

  ghost predicate SetOk(s: set<nat>, table: seq<Ptr>) {
    forall i :: i in s ==> i < |table| && table[i] != 0
  }

  lemma Registered(p: Ptr, f: Fde, table: seq<Ptr>, r: set<nat>, w: set<nat>, e: set<nat>, n: nat, list: seq<Ptr>)
    requires FdeOk(p, f, table, r, w, e, n, list)
    ensures p != 0 && f.fd < n <= |table| && table[f.fd] == p && (f.pending <==> p in list)
            && (f.pending <==> f.events != {})
  {}

  /** Another descriptor stays right when fd leaves the table. */
  lemma OtherStays(x: Ptr, f: Fde, p: Ptr, fd: nat, t: seq<Ptr>, r: set<nat>, w: set<nat>, e: set<nat>, n: nat,
                   list: seq<Ptr>, n': nat, list': seq<Ptr>)
    requires FdeOk(x, f, t, r, w, e, n, list) && x != p && fd < |t| && t[fd] == p && n' <= n
    requires (x in list' <==> x in list) && forall i :: n' <= i < n ==> t[i] == 0
    ensures FdeOk(x, f, t[fd := 0], r - {fd}, w - {fd}, e - {fd}, n', list')
  {}

  lemma TableWithout(fdes: map<Ptr, Fde>, t: seq<Ptr>, p: Ptr, fd: nat)
    requires TableOk(fdes, t) && p in fdes && fd < |t| && t[fd] == p && fdes[p].fd == fd
    ensures TableOk(fdes - {p}, t[fd := 0])
  {}

  lemma SetWithout(s: set<nat>, t: seq<Ptr>, fd: nat)
    requires SetOk(s, t) && fd < |t|
    ensures SetOk(s - {fd}, t[fd := 0])
  {}

  lemma SetGrown(s: set<nat>, t: seq<Ptr>, t': seq<Ptr>, fd: nat)
    requires SetOk(s, t) && |t| <= |t'| && fd < |t'| && t'[fd] != 0
    requires forall i :: 0 <= i < |t| && i != fd ==> t'[i] == t[i]
    ensures SetOk(s, t') && ((fd < |t| ==> t[fd] == 0) ==> fd !in s)
  {}

  // ---- the calls made --------------------------------------------------------------------------

  /** The calls in a trace, in order. */
  function Calls(t: seq<Trace>): seq<Trace> {
    if t == [] then [] else Calls(t[..|t| - 1]) + (if t[|t| - 1].Called? then [t[|t| - 1]] else [])
  }

  lemma CallsNext(t: seq<Trace>, c: Trace)
    ensures Calls(t + [c]) == Calls(t) + (if c.Called? then [c] else [])
  {
    assert (t + [c])[..|t|] == t;
  }

  /** The listed fdevents are those they were, with no further events. */
  ghost predicate Fewer(was: map<Ptr, Fde>, l: seq<Ptr>, fdes: map<Ptr, Fde>, list: seq<Ptr>) {
    && |list| <= |l|
    && forall x :: x in list ==>
         x in l && x in was && x in fdes && fdes[x].fd == was[x].fd && fdes[x].events <= was[x].events
  }

  /** The call c is one for p, with some of the events recorded for it. */
  ghost predicate CallFor(noted: map<Ptr, Fde>, p: Ptr, c: Trace) {
    p in noted && noted[p].pending && c.Called? && c.fd == noted[p].fd && {} != c.events <= noted[p].events
  }

  /** The calls behind the first n are those of called, in order. */
  ghost predicate Matched(noted: map<Ptr, Fde>, called: seq<Ptr>, before: seq<Trace>, calls: seq<Trace>) {
    && before <= calls && |calls| == |before| + |called|
    && forall i :: 0 <= i < |called| ==> CallFor(noted, called[i], calls[|before| + i])
  }

  lemma MatchedNext(noted: map<Ptr, Fde>, called: seq<Ptr>, before: seq<Trace>, calls: seq<Trace>, p: Ptr, c: Trace)
    requires Matched(noted, called, before, calls) && CallFor(noted, p, c)
    ensures Matched(noted, called + [p], before, calls + [c])
  {}

  /**
   * As long as callbacks make no calls: those called and those on the list are the pending ones, called with their
   * events.
   */
  ghost predicate Quiet(noted: map<Ptr, Fde>, fdes: map<Ptr, Fde>, list: seq<Ptr>, called: seq<Ptr>,
                        before: seq<Trace>, trace: seq<Trace>) {
    && (forall p :: p in noted && noted[p].pending ==> p in called || p in list)
    && (forall p :: p in list ==> p in noted && p in fdes && fdes[p] == noted[p])
    && |trace| == |before| + |called|
    && (forall i :: 0 <= i < |called| ==>
          called[i] in noted && trace[|before| + i] == Called(noted[called[i]].fd, noted[called[i]].events))
  }

  /** What a pass makes of select: what it reported, or the registered descriptors that are bad. */
  ghost predicate Seen(sel: Selected, bad: set<nat>, table: seq<Ptr>, n: nat, r: set<nat>, w: set<nat>, e: set<nat>) {
    if sel.Interrupted? then r == w == e == {}
    else if sel.Ready? && sel.r + sel.w + sel.e != {} then r == sel.r && w == sel.w && e == sel.e
    else w == e == {} && forall i :: i in r <==> i in bad && i < n <= |table| && table[i] != 0
  }

  ghost predicate OnePerFd(fdes: map<Ptr, Fde>) {
    forall p, q :: p in fdes && q in fdes && p != q ==> fdes[p].fd != fdes[q].fd
  }

  lemma Begun(noted: map<Ptr, Fde>, list: seq<Ptr>, trace: seq<Trace>)
    requires forall p :: p in noted && noted[p].pending ==> p in list
    requires forall p :: p in list ==> p in noted
    ensures Fewer(noted, list, noted, list) && Matched(noted, [], Calls(trace), Calls(trace)) && Distinct([])
    ensures Quiet(noted, noted, list, [], trace, trace)
  {}

  lemma OneEach(noted: map<Ptr, Fde>, called: seq<Ptr>)
    requires OnePerFd(noted) && Distinct(called) && forall x :: x in called ==> x in noted
    ensures forall i, j :: 0 <= i < j < |called| ==> noted[called[i]].fd != noted[called[j]].fd
  {}

  lemma QuietEnd(noted: map<Ptr, Fde>, fdes: map<Ptr, Fde>, called: seq<Ptr>, before: seq<Trace>, trace: seq<Trace>)
    requires Quiet(noted, fdes, [], called, before, trace)
    ensures (forall p :: p in noted && noted[p].pending ==> p in called) && |trace| == |before| + |called|
    ensures forall i :: 0 <= i < |called| ==>
              called[i] in noted && trace[|before| + i] == Called(noted[called[i]].fd, noted[called[i]].events)
  {}

  /** The call for the head of the list, and the list behind it. */
  lemma Called1(noted: map<Ptr, Fde>, first: seq<Ptr>, was: map<Ptr, Fde>, l: seq<Ptr>, fdes: map<Ptr, Fde>,
                list: seq<Ptr>, called: seq<Ptr>, p: Ptr, c: Trace)
    requires Fewer(noted, first, was, l) && Fewer(was, l, fdes, list) && l != [] && p == l[0] && p in was && p !in list
    requires (forall x :: x in first ==> x in noted && noted[x].pending) && (forall x :: x in l ==> x !in called)
    requires c == Called(was[p].fd, was[p].events) && c.events != {}
    ensures CallFor(noted, p, c) && Fewer(noted, first, fdes, list) && p !in called
    ensures forall x :: x in list ==> x !in called + [p]
  {
    assert p in l;
  }

  lemma QuietStep(noted: map<Ptr, Fde>, was: map<Ptr, Fde>, fdes: map<Ptr, Fde>, list: seq<Ptr>, called: seq<Ptr>,
                  start: seq<Trace>, before: seq<Trace>, trace: seq<Trace>, p: Ptr)
    requires Quiet(noted, was, list, called, start, before) && list != [] && p == list[0] && p !in list[1..] && p in was
    requires fdes == was[p := was[p].(pending := false, events := {})]
             && trace == before + [Called(was[p].fd, was[p].events)]
    ensures Quiet(noted, fdes, list[1..], called + [p], start, trace)
  {
    assert forall x :: x in list <==> x == p || x in list[1..];
    assert p in list;
  }

  /** The calls a callback may make. */
  datatype Api =
    | Install(p: Ptr, fd: int) | Remove(p: Ptr)
    | Set(p: Ptr, events: set<Flag>) | Add(p: Ptr, events: set<Flag>) | Del(p: Ptr, events: set<Flag>)

  /** An fdevent with further events recorded. */
  function Noted(f: Fde, got: set<Flag>): Fde {
    f.(events := f.events + got, pending := f.pending || got != {})
  }

  /** select failed on a bad descriptor or reported nothing: a READ is faked for the bad descriptors. */
  predicate Faked(sel: Selected) { sel.BadFd? || (sel.Ready? && sel.r == sel.w == sel.e == {}) }

  /**
   * What a pass records for an fdevent f, which it leaves as g: each event for which select has its descriptor in the
   * set of that event, and it wants all of these; or, if the pass fakes a READ, just that, for a bad descriptor.
   */
  ghost predicate Recorded(f: Fde, g: Fde, sel: Selected, bad: set<nat>) {
    && g == f.(events := g.events, pending := g.events != {})
    && (Read in g.events <==> Read in f.events || if Faked(sel) then f.fd in bad else sel.Ready? && f.fd in sel.r)
    && (Write in g.events <==> Write in f.events || (sel.Ready? && f.fd in sel.w))
    && (Error in g.events <==> Error in f.events || (sel.Ready? && f.fd in sel.e))
    && (Timeout in g.events <==> Timeout in f.events) && (DontClose in g.events <==> DontClose in f.events)
    && (!Faked(sel) ==> g.events - f.events <= f.wanted)
  }

  lemma NotedIsRecorded(p: Ptr, f: Fde, table: seq<Ptr>, rs: set<nat>, ws: set<nat>, es: set<nat>, n: nat,
                        list: seq<Ptr>, sel: Selected, bad: set<nat>, r: set<nat>, w: set<nat>, e: set<nat>)
    requires FdeOk(p, f, table, rs, ws, es, n, list) && Seen(sel, bad, table, n, r, w, e)
    requires sel.Ready? ==> sel.r <= rs && sel.w <= ws && sel.e <= es
    ensures Recorded(f, Noted(f, Reported(r, w, e, f.fd)), sel, bad)
  {}

  lemma NothingNoted(fdes: map<Ptr, Fde>)
    ensures forall p :: p in fdes ==> fdes[p] == Noted(fdes[p], Reported({}, {}, {}, fdes[p].fd))
  {}

  lemma NothingMore()
    ensures forall f :: Noted(f, {}) == f
  {
    assert forall f: Fde :: f.events + {} == f.events;
  }

  /** The bits from descriptor i on. */
  ghost function Bits(r: set<nat>, w: set<nat>, e: set<nat>, i: nat, n: nat): nat {
    Count(r, i, n) + Count(w, i, n) + Count(e, i, n)
  }

  lemma NextBits(r: set<nat>, w: set<nat>, e: set<nat>, i: nat, n: nat)
    requires i < n
    ensures Bits(r, w, e, i, n)
            == Bits(r, w, e, i + 1, n) + (if i in r then 1 else 0) + (if i in w then 1 else 0) + if i in e then 1 else 0
    ensures Reported(r, w, e, i) != {} ==> i in r || i in w || i in e
  {}

  /** Once no bits are left, nothing is reported for the descriptors that follow. */
  lemma NoBits(r: set<nat>, w: set<nat>, e: set<nat>, i: nat, n: nat, f: Fde)
    requires i <= f.fd < n && (i == n || Bits(r, w, e, i, n) == 0)
    ensures Noted(f, Reported(r, w, e, f.fd)) == f
  {
    CountNone(r, i, n, f.fd);
    CountNone(w, i, n, f.fd);
    CountNone(e, i, n, f.fd);
    assert Reported(r, w, e, f.fd) == {};
    NothingMore();
  }

  lemma TableEntry(fdes: map<Ptr, Fde>, table: seq<Ptr>, i: nat)
    requires TableOk(fdes, table) && i < |table| && table[i] != 0
    ensures table[i] in fdes && fdes[table[i]].fd == i
  {}

  /** Only the registered fdevent has descriptor i. */
  lemma OneAt(fdes: map<Ptr, Fde>, table: seq<Ptr>, r: set<nat>, w: set<nat>, e: set<nat>, n: nat, list: seq<Ptr>,
              i: nat)
    requires forall p :: p in fdes ==> FdeOk(p, fdes[p], table, r, w, e, n, list)
    requires i < |table|
    ensures forall p :: p in fdes && fdes[p].fd == i ==> p == table[i]
  {}

  /** The sets given to select hold only descriptors below selectN. */
  lemma BelowSelect(fdes: map<Ptr, Fde>, table: seq<Ptr>, rs: set<nat>, ws: set<nat>, es: set<nat>, n: nat,
                    list: seq<Ptr>, r: set<nat>, w: set<nat>, e: set<nat>)
    requires TableOk(fdes, table) && n <= |table| && SetOk(rs, table) && SetOk(ws, table) && SetOk(es, table)
    requires forall p :: p in fdes ==> FdeOk(p, fdes[p], table, rs, ws, es, n, list)
    requires (r <= rs || forall i :: i in r ==> i < n && table[i] != 0) && w <= ws && e <= es
    ensures forall i :: i in r || i in w || i in e ==> i < n && table[i] != 0
  {
    forall i | i in r || i in w || i in e ensures i < n && table[i] != 0 {
      assert i < |table| && table[i] != 0;
      assert FdeOk(table[i], fdes[table[i]], table, rs, ws, es, n, list);
    }
  }

  lemma LinkStays(x: Ptr, g: Fde, p: Ptr, got: set<Flag>, t: seq<Ptr>, r: set<nat>, w: set<nat>, e: set<nat>, n: nat,
                  list: seq<Ptr>, list': seq<Ptr>)
    requires FdeOk(x, g, t, r, w, e, n, list) && got != {} && (forall y :: y in list' <==> y in list || y == p)
    ensures FdeOk(x, if x == p then Noted(g, got) else g, t, r, w, e, n, list')
  {
    if x == p {
      var f :| f in got;
      assert f in g.events + got;
    }
  }

  lemma UnlinkStays(x: Ptr, g: Fde, p: Ptr, t: seq<Ptr>, r: set<nat>, w: set<nat>, e: set<nat>, n: nat,
                    list: seq<Ptr>, list': seq<Ptr>)
    requires FdeOk(x, g, t, r, w, e, n, list) && p !in list' && (x != p ==> (x in list' <==> x in list))
    ensures FdeOk(x, if x == p then g.(pending := false, events := {}) else g, t, r, w, e, n, list')
  {}

  function Toggled(s: set<nat>, fd: nat, on: bool): set<nat> { if on then s + {fd} else s - {fd} }

  /** A descriptor stays right when the wanted events of p become events. */
  lemma SetStays(x: Ptr, g: Fde, p: Ptr, f: Fde, t: seq<Ptr>, r: set<nat>, w: set<nat>, e: set<nat>, n: nat,
                 list: seq<Ptr>, events: set<Flag>, f': Fde, list': seq<Ptr>)
    requires FdeOk(x, g, t, r, w, e, n, list) && FdeOk(p, f, t, r, w, e, n, list) && (x == p ==> g == f)
    requires f'.fd == f.fd && f'.wanted == events && f'.pending == (f'.events != {}) == (p in list')
    requires x != p ==> (x in list' <==> x in list)
    ensures FdeOk(x, if x == p then f' else g, t, Toggled(r, f.fd, Read in events), Toggled(w, f.fd, Write in events),
                  Toggled(e, f.fd, Error in events), n, list')
  {}

  lemma TableSame(fdes: map<Ptr, Fde>, t: seq<Ptr>, p: Ptr, f: Fde)
    requires TableOk(fdes, t) && p in fdes && f.fd == fdes[p].fd
    ensures TableOk(fdes[p := f], t)
  {}

  lemma SetWith(s: set<nat>, t: seq<Ptr>, fd: nat, on: bool)
    requires SetOk(s, t) && fd < |t| && t[fd] != 0
    ensures SetOk(Toggled(s, fd, on), t)
  {}

  class EventLoop {
    var fdes: map<Ptr, Fde>
    var table: seq<Ptr>
    var readFds: set<nat>
    var writeFds: set<nat>
    var errorFds: set<nat>
    var selectN: nat
    var list: seq<Ptr>
    var trace: seq<Trace>

    ghost predicate Valid()
      reads this
    {
      && TableOk(fdes, table) && selectN <= |table|
      && (forall p :: p in fdes ==> FdeOk(p, fdes[p], table, readFds, writeFds, errorFds, selectN, list))
      && SetOk(readFds, table) && SetOk(writeFds, table) && SetOk(errorFds, table)
      && Distinct(list) && forall p :: p in list ==> p in fdes
    }

    constructor ()
      ensures Valid() && fdes == map[] && list == [] && trace == []
    {
      fdes, table, readFds, writeFds, errorFds, selectN, list, trace := map[], [], {}, {}, {}, 0, [], [];
    }

    /** fdevent_register with the growth of the table; false where it aborts. */
    method Register(p: Ptr, fd: int) returns (ok: bool)
      modifies `table
      ensures ok <==> 0 <= fd && (fd < old(|table|) || fd <= 32000)
      ensures !ok ==> table == old(table)
      ensures ok ==> fd < |table| && old(|table|) <= |table| && table[fd] == p
      ensures ok ==>
                forall i :: 0 <= i < |table| && i != fd ==> table[i] == if i < old(|table|) then old(table)[i] else 0
    {
      if fd < 0 { return false; }
      if fd >= |table| {
        if fd > 32000 { return false; }
        var max := if |table| == 0 then 256 else |table|;
        while max <= fd
          invariant max >= |table| && max > 0
        {
          max := max * 2;
        }
        table := table + seq(max - |table|, _ => 0);
      }
      table := table[fd := p];
      ok := true;
    }

    /**
     * fdevent_install of an fdevent that is not installed; false where it aborts. It keeps the invariant exactly if
     * the descriptor was not registered: otherwise the fdevent that had it is no longer in the table.
     */
    method Install(p: Ptr, fd: int) returns (ok: bool)
      requires Valid() && p != 0 && p !in fdes
      modifies this
      ensures ok <==> 0 <= fd && (fd < old(|table|) || fd <= 32000)
      ensures list == old(list) && trace == old(trace)
      ensures fdes == if ok then old(fdes)[p := Fde(fd, {}, false, {})] else old(fdes)
      ensures Valid() <==> !(ok && fd < old(|table|) && old(table)[fd] != 0)
      ensures ok && fd < old(|table|) && old(table)[fd] != 0 ==>
                var q := old(table)[fd];
                q in fdes && q != p && fdes[q].fd == fd < |table| && table[fd] == p
    {
      hide SetOk, Distinct;
      ghost var t := table;
      ok := Register(p, fd);
      if ok {
        fdes := fdes[p := Fde(fd, {}, false, {})];
        if fd >= selectN { selectN := fd + 1; }
        if fd < |t| && t[fd] != 0 {
          assert t[fd] in fdes && t[fd] != p && fdes[t[fd]].fd == fd;
          assert !FdeOk(t[fd], fdes[t[fd]], table, readFds, writeFds, errorFds, selectN, list);
        } else {
          SetGrown(readFds, t, table, fd);
          SetGrown(writeFds, t, table, fd);
          SetGrown(errorFds, t, table, fd);
        }
      }
    }

    /** fdevent_disconnect: leave the sets, and shrink selectN to the highest registered descriptor. */
    method Disconnect(fd: nat)
      requires selectN <= |table| && fd < selectN && table[fd] != 0
      modifies `readFds, `writeFds, `errorFds, `selectN
      ensures readFds == old(readFds) - {fd} && writeFds == old(writeFds) - {fd} && errorFds == old(errorFds) - {fd}
      ensures 0 < selectN <= old(selectN) && table[selectN - 1] != 0
      ensures forall i :: selectN <= i < old(selectN) ==> table[i] == 0
    {
      readFds, writeFds, errorFds := readFds - {fd}, writeFds - {fd}, errorFds - {fd};
      var n := 0;
      for i := 0 to selectN
        invariant n < selectN && n <= i && (i > fd ==> table[n] != 0) && (n < i || i == 0)
        invariant forall j :: n < j < i ==> table[j] == 0
        invariant n > 0 ==> table[n] != 0
        invariant selectN == old(selectN)
      {
        if table[i] != 0 { n := i; }
      }
      selectN := n + 1;
    }

    /** fdevent_remove. The aborts of fdevent_unregister are not reached. */
    method Remove(p: Ptr)
      requires Valid() && p in fdes
      modifies this
      ensures Valid() && fdes == old(fdes) - {p}
      ensures list == Without(old(list), p)
      ensures trace == old(trace) + if DontClose in old(fdes)[p].wanted then [] else [Closed(old(fdes)[p].fd)]
    {
      hide Without, Distinct, FdeOk, TableOk, SetOk;
      ghost var t, r, w, e, n, l := table, readFds, writeFds, errorFds, selectN, list;
      Kept(list, p, p);
      Removed(list, p);
      var f := fdes[p];
      Registered(p, f, table, r, w, e, n, l);
      if f.pending { list := Without(list, p); }
      Disconnect(f.fd);
      assert f.fd < |table| && table[f.fd] == p;
      table := table[f.fd := 0];
      if DontClose !in f.wanted { trace := trace + [Closed(f.fd)]; }
      fdes := fdes - {p};
      forall x | x in fdes ensures FdeOk(x, fdes[x], table, readFds, writeFds, errorFds, selectN, list) {
        OtherStays(x, fdes[x], p, f.fd, t, r, w, e, n, l, selectN, list);
      }
      TableWithout(old(fdes), t, p, f.fd);
      SetWithout(r, t, f.fd);
      SetWithout(w, t, f.fd);
      SetWithout(e, t, f.fd);
    }

    /** fdevent_update: the sets follow the wanted events. */
    method Update(fd: nat, events: set<Flag>)
      modifies `readFds, `writeFds, `errorFds
      ensures readFds == Toggled(old(readFds), fd, Read in events)
      ensures writeFds == Toggled(old(writeFds), fd, Write in events)
      ensures errorFds == Toggled(old(errorFds), fd, Error in events)
    {
      readFds := if Read in events then readFds + {fd} else readFds - {fd};
      writeFds := if Write in events then writeFds + {fd} else writeFds - {fd};
      errorFds := if Error in events then errorFds + {fd} else errorFds - {fd};
    }

    /**
     * fdevent_set. A pending event is dropped if it is among the events now wanted. So none is left that is not wanted
     * exactly if there was none.
     */
    method Set(p: Ptr, events: set<Flag>)
      requires Valid() && p in fdes
      modifies this
      ensures Valid() && trace == old(trace)
      ensures var f := old(fdes)[p];
              var left := if f.wanted == events then f.events else f.events - events;
              && fdes == old(fdes)[p := Fde(f.fd, events, left != {}, left)]
              && list == if left == {} then Without(old(list), p) else old(list)
      ensures fdes[p].events <= events <==> old(fdes)[p].events <= events
    {
      hide Without, Distinct, FdeOk, TableOk, SetOk, Toggled;
      ghost var r, w, e, l := readFds, writeFds, errorFds, list;
      Kept(list, p, p);
      Removed(list, p);
      var f := fdes[p];
      Registered(p, f, table, r, w, e, selectN, l);
      if f.wanted == events { return; }
      Update(f.fd, events);
      var left := f.events;
      if f.pending {
        left := f.events - events;
        if left == {} { list := Without(list, p); }
      }
      fdes := fdes[p := Fde(f.fd, events, left != {}, left)];
      forall x | x in fdes ensures FdeOk(x, fdes[x], table, readFds, writeFds, errorFds, selectN, list) {
        SetStays(x, old(fdes)[x], p, f, table, r, w, e, selectN, l, events, fdes[p], list);
      }
      TableSame(old(fdes), table, p, fdes[p]);
      SetWith(r, table, f.fd, Read in events);
      SetWith(w, table, f.fd, Write in events);
      SetWith(e, table, f.fd, Error in events);
    }

    /** fdevent_add */
    method Add(p: Ptr, events: set<Flag>)
      requires Valid() && p in fdes
      modifies this
      ensures Valid() && trace == old(trace) && fdes.Keys == old(fdes).Keys
              && fdes[p].wanted == old(fdes)[p].wanted + events
      ensures fdes[p].fd == old(fdes)[p].fd && fdes[p].events <= old(fdes)[p].events
      ensures fdes[p].events <= fdes[p].wanted <==> old(fdes)[p].events <= fdes[p].wanted
      ensures forall x :: x in fdes && x != p ==> fdes[x] == old(fdes)[x]
      ensures list == old(list) || list == Without(old(list), p)
    {
      Set(p, fdes[p].wanted + events);
    }

    /** fdevent_del */
    method Del(p: Ptr, events: set<Flag>)
      requires Valid() && p in fdes
      modifies this
      ensures Valid() && trace == old(trace) && fdes.Keys == old(fdes).Keys
              && fdes[p].wanted == old(fdes)[p].wanted - events
      ensures fdes[p].fd == old(fdes)[p].fd && fdes[p].events <= old(fdes)[p].events
      ensures fdes[p].events <= fdes[p].wanted <==> old(fdes)[p].events <= fdes[p].wanted
      ensures forall x :: x in fdes && x != p ==> fdes[x] == old(fdes)[x]
      ensures list == old(list) || list == Without(old(list), p)
    {
      Set(p, fdes[p].wanted - events);
    }

    /** fdevent_fd_check on an empty set; bad are the descriptors fcntl rejects. */
    method Check(bad: set<nat>) returns (fds: set<nat>, n: nat)
      requires Valid()
      ensures n == |fds| && forall i :: i in fds <==> i in bad && i < selectN && table[i] != 0
    {
      fds, n := {}, 0;
      for i := 0 to selectN
        invariant n == |fds| && forall j :: j in fds <==> j in bad && j < i && table[j] != 0
      {
        if table[i] != 0 && i in bad { fds, n := fds + {i}, n + 1; }
      }
    }

    lemma RecordedAll(was: map<Ptr, Fde>, l: seq<Ptr>, sel: Selected, bad: set<nat>, r: set<nat>, w: set<nat>,
                      e: set<nat>)
      requires forall p :: p in was ==> FdeOk(p, was[p], table, readFds, writeFds, errorFds, selectN, l)
      requires sel.Ready? ==> sel.r <= readFds && sel.w <= writeFds && sel.e <= errorFds
      requires Seen(sel, bad, table, selectN, r, w, e) && fdes.Keys == was.Keys
      requires forall p :: p in fdes ==> fdes[p] == Noted(was[p], Reported(r, w, e, fdes[p].fd))
      ensures forall p :: p in fdes ==> Recorded(was[p], fdes[p], sel, bad)
    {
      hide FdeOk, Recorded, Reported, Seen;
      forall p | p in fdes ensures Recorded(was[p], fdes[p], sel, bad) {
        NotedIsRecorded(p, was[p], table, readFds, writeFds, errorFds, selectN, l, sel, bad, r, w, e);
      }
    }

    /** fdevent_process behind its select call. The abort for a missing fde is not reached. */
    method Process(sel: Selected, bad: set<nat>) returns (r: set<nat>, w: set<nat>, e: set<nat>)
      requires Valid() && (sel.Ready? ==> sel.r <= readFds && sel.w <= writeFds && sel.e <= errorFds)
      modifies `fdes, `list
      ensures Valid() && fdes.Keys == old(fdes).Keys && old(list) <= list
      ensures forall p :: p in fdes ==> fdes[p] == Noted(old(fdes)[p], Reported(r, w, e, fdes[p].fd))
      ensures Seen(sel, bad, table, selectN, r, w, e)
      ensures forall p :: p in fdes ==> Recorded(old(fdes)[p], fdes[p], sel, bad)
    {
      hide TableOk, FdeOk, SetOk, Distinct, Noted, Recorded;
      ghost var was, l := fdes, list;
      r, w, e := {}, {}, {};
      NothingNoted(fdes);
      if sel.Interrupted? {
        RecordedAll(was, l, sel, bad, r, w, e);
        return;
      }
      if sel.Ready? { r, w, e := sel.r, sel.w, sel.e; }
      var n := |r| + |w| + |e|;
      if n <= 0 {
        r, n := Check(bad);
      }
      BelowSelect(fdes, table, readFds, writeFds, errorFds, selectN, list, r, w, e);
      CountAll(r, 0, selectN);
      CountAll(w, 0, selectN);
      CountAll(e, 0, selectN);
      Note(r, w, e, n);
      RecordedAll(was, l, sel, bad, r, w, e);
    }

    /** The loop over the descriptors reported, which stops when all bits have been seen. */
    method Note(r: set<nat>, w: set<nat>, e: set<nat>, bits: nat)
      requires Valid() && bits == Bits(r, w, e, 0, selectN)
      requires forall i :: i in r || i in w || i in e ==> i < selectN && table[i] != 0
      modifies `fdes, `list
      ensures Valid() && fdes.Keys == old(fdes).Keys && old(list) <= list
      ensures forall p :: p in fdes ==> fdes[p] == Noted(old(fdes)[p], Reported(r, w, e, fdes[p].fd))
    {
      hide TableOk, FdeOk, SetOk, Distinct, Count, Reported, Noted, Bits;
      var i: nat, n: int := 0, bits;
      while i < selectN && n > 0
        invariant Valid() && i <= selectN && fdes.Keys == old(fdes).Keys && old(list) <= list
        invariant n == Bits(r, w, e, i, selectN)
        invariant forall p :: p in fdes ==> fdes[p].fd == old(fdes)[p].fd
        invariant forall p :: p in fdes && fdes[p].fd < i ==>
                    fdes[p] == Noted(old(fdes)[p], Reported(r, w, e, fdes[p].fd))
        invariant forall p :: p in fdes && fdes[p].fd >= i ==> fdes[p] == old(fdes)[p]
      {
        NextBits(r, w, e, i, selectN);
        if i in r { n := n - 1; }
        if i in w { n := n - 1; }
        if i in e { n := n - 1; }
        NoteOne(i, Reported(r, w, e, i));
        i := i + 1;
      }
      forall p | p in fdes && fdes[p].fd >= i ensures fdes[p] == Noted(old(fdes)[p], Reported(r, w, e, fdes[p].fd)) {
        Registered(p, fdes[p], table, readFds, writeFds, errorFds, selectN, list);
        NoBits(r, w, e, i, selectN, fdes[p]);
      }
    }

    /** One descriptor of that loop. */
    method NoteOne(i: nat, got: set<Flag>)
      requires Valid() && i < selectN && (got != {} ==> table[i] != 0)
      modifies `fdes, `list
      ensures Valid() && fdes.Keys == old(fdes).Keys && old(list) <= list
      ensures forall p :: p in fdes ==>
                fdes[p] == if old(fdes)[p].fd == i then Noted(old(fdes)[p], got) else old(fdes)[p]
      ensures forall p :: p in fdes ==> fdes[p].fd == old(fdes)[p].fd
    {
      hide TableOk, FdeOk, SetOk, Distinct;
      if got != {} {
        var p := table[i];
        TableEntry(fdes, table, i);
        OneAt(fdes, table, readFds, writeFds, errorFds, selectN, list, i);
        Raise(p, got);
      } else {
        NothingMore();
      }
    }

    /** Record events for p and link it unless it is linked already. */
    method Raise(p: Ptr, got: set<Flag>)
      requires Valid() && p in fdes && got != {}
      modifies `fdes, `list
      ensures Valid() && old(list) <= list
      ensures fdes == old(fdes)[p := Noted(old(fdes)[p], got)]
    {
      hide TableOk, FdeOk, SetOk, Distinct;
      ghost var was, l := fdes, list;
      var f := fdes[p];
      Registered(p, f, table, readFds, writeFds, errorFds, selectN, list);
      TableSame(fdes, table, p, Noted(f, got));
      if f.pending {
        fdes := fdes[p := f.(events := f.events + got)];
      } else {
        fdes := fdes[p := f.(events := f.events + got, pending := true)];
        Added(list, p);
        list := list + [p];
      }
      forall x | x in fdes ensures FdeOk(x, fdes[x], table, readFds, writeFds, errorFds, selectN, list) {
        LinkStays(x, was[x], p, got, table, readFds, writeFds, errorFds, selectN, l, list);
      }
    }

    /** fdevent_plist_dequeue and fdevent_call_fdfunc, up to the call itself. */
    method Dispatch() returns (p: Ptr)
      requires Valid() && list != []
      modifies `fdes, `list, `trace
      ensures Valid() && p == old(list)[0] && list == old(list)[1..] && p in old(fdes) && p !in list
      ensures fdes == old(fdes)[p := old(fdes)[p].(pending := false, events := {})]
      ensures trace == old(trace) + [Called(old(fdes)[p].fd, old(fdes)[p].events)] && old(fdes)[p].events != {}
    {
      hide TableOk, FdeOk, SetOk, Distinct;
      ghost var was, l := fdes, list;
      Popped(list);
      p := list[0];
      var f := fdes[p];
      Registered(p, f, table, readFds, writeFds, errorFds, selectN, list);
      TableSame(fdes, table, p, f.(pending := false, events := {}));
      list := list[1..];
      fdes := fdes[p := f.(events := {})];
      if f.pending {
        fdes := fdes[p := fdes[p].(pending := false)];
        trace := trace + [Called(f.fd, f.events)];
      }
      assert fdes == was[p := f.(pending := false, events := {})];
      forall x | x in fdes ensures FdeOk(x, fdes[x], table, readFds, writeFds, errorFds, selectN, list) {
        UnlinkStays(x, was[x], p, table, readFds, writeFds, errorFds, selectN, l, list);
      }
    }

    /** One call a callback may make; calls the interface does not allow are not made. */
    method Apply(a: Api)
      requires Valid()
      modifies this
      ensures Valid() && Fewer(old(fdes), old(list), fdes, list)
      ensures old(trace) <= trace && Calls(trace) == Calls(old(trace))
    {
      hide TableOk, FdeOk, SetOk, Distinct, Without, Calls;
      match a
      case Install(p, fd) =>
        if p != 0 && p !in fdes && (0 <= fd < |table| ==> table[fd] == 0) {
          var ok := Install(p, fd);
        }
      case Remove(p) =>
        Removed(list, p);
        if p in fdes {
          CallsNext(trace, Closed(fdes[p].fd));
          assert trace + [] == trace;
          Remove(p);
        }
      case Set(p, events) =>
        Removed(list, p);
        if p in fdes { Set(p, events); }
      case Add(p, events) =>
        Removed(list, p);
        if p in fdes { Add(p, events); }
      case Del(p, events) =>
        Removed(list, p);
        if p in fdes { Del(p, events); }
    }

    /** What is pending is on the list, and each descriptor has one fdevent. */
    lemma AllLinked()
      requires Valid()
      ensures forall p :: p in fdes && fdes[p].pending ==> p in list
      ensures forall p :: p in list ==> p in fdes && fdes[p].pending
      ensures OnePerFd(fdes)
    {
      forall p, q | p in fdes && q in fdes && p != q ensures fdes[p].fd != fdes[q].fd {
        assert table[fdes[p].fd] == p && table[fdes[q].fd] == q;
      }
    }

    lemma Wired(p: Ptr)
      requires Valid() && p in fdes
      ensures (fdes[p].fd in readFds <==> Read in fdes[p].wanted) && (p in list <==> fdes[p].events != {})
    {}

    lemma Listed()
      requires Valid() && list != []
      ensures list[0] in fdes
      ensures forall x :: x in list[1..] ==> x in list && x in fdes
    {
      assert list[0] in list;
    }

    /** One turn of the inner loop: the head is called, and its callback makes the given calls. */
    method CallOne(calls: seq<Api>) returns (p: Ptr, ghost c: Trace)
      requires Valid() && list != []
      modifies this
      ensures Valid() && p == old(list)[0] && p in old(fdes) && p !in list && |list| < |old(list)|
      ensures Fewer(old(fdes), old(list), fdes, list) && old(trace) <= trace
      ensures c == Called(old(fdes)[p].fd, old(fdes)[p].events) && c.events != {}
              && Calls(trace) == Calls(old(trace)) + [c]
      ensures calls == [] ==> fdes == old(fdes)[p := old(fdes)[p].(pending := false, events := {})]
      ensures calls == [] ==> list == old(list)[1..] && trace == old(trace) + [c]
    {
      hide Valid, Calls;
      Listed();
      c := Called(fdes[list[0]].fd, fdes[list[0]].events);
      CallsNext(trace, c);
      p := Dispatch();
      for i := 0 to |calls|
        invariant Valid() && Fewer(old(fdes), old(list), fdes, list) && p !in list && |list| < |old(list)|
        invariant old(trace) <= trace && Calls(trace) == Calls(old(trace)) + [c]
        invariant i == 0 ==> fdes == old(fdes)[p := old(fdes)[p].(pending := false, events := {})]
        invariant i == 0 ==> list == old(list)[1..] && trace == old(trace) + [c]
      {
        Apply(calls[i]);
      }
    }

    /**
     * One pass of fdevent_loop: select, then the callbacks of what is pending, each making any calls
     * at all. It ends with nothing pending. The calls it makes are those of called, in order: no fdevent and no
     * descriptor twice, each with some of the events recorded for it. If the callbacks make no calls, exactly the
     * fdevents with recorded events are called, with those.
     */
    method Round(sel: Selected, bad: set<nat>, script: seq<seq<Api>>)
      returns (ghost called: seq<Ptr>, ghost noted: map<Ptr, Fde>, ghost r: set<nat>, ghost w: set<nat>,
               ghost e: set<nat>)
      requires Valid() && (sel.Ready? ==> sel.r <= readFds && sel.w <= writeFds && sel.e <= errorFds)
      modifies this
      ensures Valid() && list == [] && old(trace) <= trace && Distinct(called)
      ensures noted.Keys == old(fdes).Keys && Seen(sel, bad, old(table), old(selectN), r, w, e)
      ensures forall p :: p in noted ==> noted[p] == Noted(old(fdes)[p], Reported(r, w, e, noted[p].fd))
      ensures forall p :: p in noted ==> Recorded(old(fdes)[p], noted[p], sel, bad)
      ensures Matched(noted, called, Calls(old(trace)), Calls(trace))
      ensures forall i, j :: 0 <= i < j < |called| ==> noted[called[i]].fd != noted[called[j]].fd
      ensures (forall k :: 0 <= k < |script| ==> script[k] == []) ==>
                && (forall p :: p in noted && noted[p].pending ==> p in called) && |trace| == |old(trace)| + |called|
                && (forall i :: 0 <= i < |called| ==>
                      && called[i] in noted
                      && trace[|old(trace)| + i] == Called(noted[called[i]].fd, noted[called[i]].events))
    {
      hide Valid, Calls, Matched, Quiet, Distinct, CallFor, Seen, Noted, Reported, Recorded, Fewer;
      var ready, written, failed := Process(sel, bad);
      r, w, e := ready, written, failed;
      called, noted := [], fdes;
      AllLinked();
      Begun(noted, list, trace);
      ghost var first := list;
      ghost var quiet := forall k :: 0 <= k < |script| ==> script[k] == [];
      var k := 0;
      while list != []
        invariant Valid() && old(trace) <= trace && Distinct(called) && Fewer(noted, first, fdes, list)
        invariant (forall x :: x in list ==> x !in called) && forall x :: x in called ==> x in noted
        invariant Matched(noted, called, Calls(old(trace)), Calls(trace))
        invariant quiet ==> Quiet(noted, fdes, list, called, old(trace), trace)
        decreases |list|
      {
        ghost var was, before, l := fdes, trace, list;
        var calls := if k < |script| then script[k] else [];
        var p, c := CallOne(calls);
        Called1(noted, first, was, l, fdes, list, called, p, c);
        MatchedNext(noted, called, Calls(old(trace)), Calls(before), p, c);
        Added(called, p);
        if quiet { QuietStep(noted, was, fdes, l, called, old(trace), before, trace, p); }
        called := called + [p];
        k := k + 1;
      }
      OneEach(noted, called);
      if quiet { QuietEnd(noted, fdes, called, old(trace), trace); }
    }

    /** fdevent_loop for any number of passes, whatever select reports within the sets it was given. */
    method Loop(rounds: seq<Selected>, bad: seq<set<nat>>, script: seq<seq<seq<Api>>>)
      requires Valid() && list == [] && |script| == |bad| == |rounds|
      modifies this
      ensures Valid() && list == [] && old(trace) <= trace
    {
      hide Valid;
      for i := 0 to |rounds|
        invariant Valid() && list == [] && old(trace) <= trace
      {
        var sel := match rounds[i] {
          case Ready(r, w, e) => Ready(r * readFds, w * writeFds, e * errorFds)
          case other => other
        };
        var called, noted, r, w, e := Round(sel, bad[i], script[i]);
      }
    }
  }

  /** A READ is pending and then no longer wanted: it stays recorded, and the fdevent is called with it. */
  method UnwantedCall() returns (e: EventLoop)
    ensures e.trace == [Called(0, {Read})] && 1 in e.fdes && e.fdes[1].wanted == {}
  {
    e := new EventLoop();
    hide EventLoop.Valid;
    var ok := e.Install(1, 0);
    e.Add(1, {Read});
    e.Wired(1);
    var r, w, x := e.Process(Ready({0}, {}, {}), {});
    assert e.fdes[1].events == {Read};
    e.Del(1, {Read});
    assert e.fdes[1].events == {Read};
    e.Wired(1);
    e.Listed();
    var p := e.Dispatch();
  }
}
