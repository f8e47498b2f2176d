/**
 * The life of a transport on the device build: the main loop, the input thread and the output thread
 * of one transport, in any interleaving, from their start to the freeing of the transport.
 */
module TransportLife {
  datatype Packet = Sync(arg0: nat, arg1: nat) | Other(content: nat)

  /** The way out of a thread: kick_transport step by step, then transport_unref. */
  datatype Exit = Test | Lock | Kick | Kicking | Unref | Gone

  datatype OutPc = Start | Pump | Offline | OutExit(x: Exit)

  datatype InPc = Reading | InExit(x: Exit)

  /** kicks and kicksDone count the calls of kick begun and returned. */
  datatype Life = Life(kicked: bool, refs: int, kicks: nat, kicksDone: nat, closes: nat, removals: nat, freed: bool)

  /**
   * toMain carries packets from the output thread to the main loop, toInput from the main loop to the
   * input thread. The last five fields are histories: written by the output thread, read and sent by
   * main, read and passed on to the remote side by the input thread.
   */
  datatype Wire = Wire(
    active: bool, token: nat, toMain: seq<Packet>, toInput: seq<Packet>,
    outSent: seq<Packet>, mainRead: seq<Packet>, mainSent: seq<Packet>, consumed: seq<Packet>, remote: seq<Packet>)

  datatype State = State(out: OutPc, inp: InPc, life: Life, wire: Wire)

  ghost predicate Initial(s: State) {
    && s.out == Start && s.inp == Reading && s.life == Life(false, 2, 0, 0, 0, 0, false)
    && s.wire == Wire(false, s.wire.token, [], [], [], [], [], [], [])
  }

  /** written says whether a write to the socket pair succeeded; replies are what main sends for a packet. */
  datatype Event =
    | OutStart(written: bool)
    | OutForward(p: Packet, written: bool)
    | OutReadFailed
    | OutOffline(written: bool)
    | OutLeave
    | InRead(closing: seq<Packet>)
    | InReadFailed(closing: seq<Packet>)
    | InLeave
    | MainRead(replies: seq<Packet>)
    | MainSend(p: Packet)
    | MainRemove

  ghost predicate Plain(ps: seq<Packet>) { forall i :: 0 <= i < |ps| ==> ps[i].Other? }

  ghost predicate Enabled(s: State, e: Event) {
    match e
    case OutStart(_) => s.out == Start
    case OutForward(_, _) => s.out == Pump
    case OutReadFailed => s.out == Pump
    case OutOffline(_) => s.out == Offline
    case OutLeave => s.out.OutExit? && s.out.x != Gone
    case InRead(closing) => s.inp == Reading && s.wire.toInput != [] && Plain(closing)
    case InReadFailed(closing) => s.inp == Reading && Plain(closing)
    case InLeave => s.inp.InExit? && s.inp.x != Gone
    case MainRead(replies) => !s.life.freed && s.wire.toMain != [] && Plain(replies)
    case MainSend(p) => !s.life.freed && p.Other?
    case MainRemove => !s.life.freed && s.life.removals > 0
  }

  function OutWrites(w: Wire, p: Packet): Wire { w.(toMain := w.toMain + [p], outSent := w.outSent + [p]) }

  function MainSends(w: Wire, ps: seq<Packet>): Wire { w.(toInput := w.toInput + ps, mainSent := w.mainSent + ps) }

  /** The main loop takes the next packet: it echoes a SYNC, and may answer any other. */
  function MainTakes(w: Wire, replies: seq<Packet>): Wire
    requires w.toMain != []
  {
    var p := w.toMain[0];
    MainSends(w.(toMain := w.toMain[1..], mainRead := w.mainRead + [p]), if p.Sync? then [p] else replies)
  }

  /** The input thread takes the next packet. */
  function Consume(w: Wire): Wire
    requires w.toInput != []
  {
    var p := w.toInput[0];
    var v := w.(toInput := w.toInput[1..], consumed := w.consumed + [p]);
    if p.Sync? then (if p.arg0 != 0 && p.arg1 == w.token then v.(active := true) else v)
    else if w.active then v.(remote := w.remote + [p])
    else v
  }

  /** transport_unref_locked behind the decrement. */
  function Drop(l: Life): Life {
    if l.refs != 0 then l
    else
      var k := if l.kicked then l else l.(kicked := true, kicks := l.kicks + 1, kicksDone := l.kicksDone + 1);
      k.(closes := k.closes + 1, removals := k.removals + 1)
  }

  /** One step of kick_transport or transport_unref for a thread at x. */
  function Leave(l: Life, x: Exit): (Life, Exit) {
    match x
    case Test => (l, if l.kicked then Unref else Lock)
    case Lock => if l.kicked then (l, Unref) else (l.(kicked := true), Kick)
    case Kick => (l.(kicks := l.kicks + 1), Kicking)
    case Kicking => (l.(kicksDone := l.kicksDone + 1), Unref)
    case Unref => (Drop(l.(refs := l.refs - 1)), Gone)
    case Gone => (l, Gone)
  }

  ghost function Step(s: State, e: Event): State
    requires Enabled(s, e)
  {
    match e
    case OutStart(written) =>
      var w := s.wire.(token := s.wire.token + 1);
      if written then s.(out := Pump, wire := OutWrites(w, Sync(1, w.token))) else s.(out := OutExit(Test), wire := w)
    case OutForward(p, written) => if written then s.(wire := OutWrites(s.wire, p)) else s.(out := OutExit(Test))
    case OutReadFailed => s.(out := Offline)
    case OutOffline(written) =>
      s.(out := OutExit(Test), wire := if written then OutWrites(s.wire, Sync(0, 0)) else s.wire)
    case OutLeave => s.(out := OutExit(Leave(s.life, s.out.x).1), life := Leave(s.life, s.out.x).0)
    case InRead(closing) =>
      var p := s.wire.toInput[0];
      if p.Sync? && p.arg0 == 0 then s.(inp := InExit(Test), wire := MainSends(Consume(s.wire), closing))
      else s.(wire := Consume(s.wire))
    case InReadFailed(closing) => s.(inp := InExit(Test), wire := MainSends(s.wire, closing))
    case InLeave => s.(inp := InExit(Leave(s.life, s.inp.x).1), life := Leave(s.life, s.inp.x).0)
    case MainRead(replies) => s.(wire := MainTakes(s.wire, replies))
    case MainSend(p) => s.(wire := MainSends(s.wire, [p]))
    case MainRemove => s.(life := s.life.(freed := true))
  }

  // ---- kick, close, remove ---------------------------------------------------------------------

  function One(b: bool): nat { if b then 1 else 0 }

  /** Where a thread is: Test until it is past the test. */
  function OutPoint(s: State): Exit { if s.out.OutExit? then s.out.x else Test }

  function InPoint(s: State): Exit { if s.inp.InExit? then s.inp.x else Test }

  /** The threads at point x. */
  function At(a: Exit, b: Exit, x: Exit): nat { One(a == x) + One(b == x) }

  /**
   * Every thread not gone holds a reference; at most one thread has the kick to do, and it does not let go
   * before the kick has returned; close and remove come with the last reference.
   */
  ghost predicate LifeAt(l: Life, a: Exit, b: Exit) {
    && l.refs == 2 - At(a, b, Gone)
    && (!l.kicked ==>
          && l.kicks == l.kicksDone == 0
          && At(a, b, Kick) == At(a, b, Kicking) == At(a, b, Unref) == At(a, b, Gone) == 0)
    && (l.kicked ==> l.kicks + At(a, b, Kick) == 1 && l.kicksDone + At(a, b, Kick) + At(a, b, Kicking) == 1)
    && l.closes == l.removals == One(At(a, b, Gone) == 2)
    && (l.freed ==> l.removals == 1)
  }

  ghost predicate LifeInv(s: State) { LifeAt(s.life, OutPoint(s), InPoint(s)) }

  lemma TestKeeps(l: Life, b: Exit)
    requires LifeAt(l, Test, b)
    ensures LifeAt(l, if l.kicked then Unref else Lock, b)
  {}

  /** The threads at each point, by where the first of them is. */
  lemma AtFirst(a: Exit, b: Exit)
    ensures At(a, b, Kick) == One(a == Kick) + One(b == Kick)
            && At(a, b, Kicking) == One(a == Kicking) + One(b == Kicking)
    ensures At(a, b, Unref) == One(a == Unref) + One(b == Unref) && At(a, b, Gone) == One(a == Gone) + One(b == Gone)
  {}

  /** Under the lock, one thread only finds the transport not yet kicked. */
  lemma LockKeeps(l: Life, b: Exit)
    requires LifeAt(l, Lock, b)
    ensures if l.kicked then LifeAt(l, Unref, b) else LifeAt(l.(kicked := true), Kick, b)
  {
    hide At;
    AtFirst(Lock, b);
    AtFirst(Unref, b);
    AtFirst(Kick, b);
  }

  lemma KickKeeps(l: Life, b: Exit)
    requires LifeAt(l, Kick, b)
    ensures LifeAt(l.(kicks := l.kicks + 1), Kicking, b)
  {}

  lemma KickingKeeps(l: Life, b: Exit)
    requires LifeAt(l, Kicking, b)
    ensures LifeAt(l.(kicksDone := l.kicksDone + 1), Unref, b)
  {}

  lemma UnrefKeeps(l: Life, b: Exit)
    requires LifeAt(l, Unref, b)
    ensures LifeAt(Drop(l.(refs := l.refs - 1)), Gone, b)
  {
    assert l.kicked;
    if b == Gone {
      assert At(Unref, b, Gone) == 1 && At(Gone, b, Gone) == 2;
    }
  }

  lemma LeaveKeeps(l: Life, a: Exit, b: Exit)
    requires LifeAt(l, a, b) && a != Gone
    ensures LifeAt(Leave(l, a).0, Leave(l, a).1, b)
  {
    hide LifeAt;
    match a
    case Test => TestKeeps(l, b);
    case Lock => LockKeeps(l, b);
    case Kick => KickKeeps(l, b);
    case Kicking => KickingKeeps(l, b);
    case Unref => UnrefKeeps(l, b);
  }

  lemma Symmetric(l: Life, a: Exit, b: Exit)
    ensures LifeAt(l, a, b) <==> LifeAt(l, b, a)
  {}

  lemma FreedKeeps(l: Life, a: Exit, b: Exit)
    requires LifeAt(l, a, b) && l.removals > 0
    ensures LifeAt(l.(freed := true), a, b)
  {}

  lemma LifeStep(s: State, e: Event)
    requires LifeInv(s) && Enabled(s, e)
    ensures LifeInv(Step(s, e))
  {
    hide LifeAt, Leave, OutWrites, MainSends, MainTakes, Consume;
    var a, b := OutPoint(s), InPoint(s);
    if e.OutLeave? {
      LeaveKeeps(s.life, a, b);
    } else if e.InLeave? {
      Symmetric(s.life, a, b);
      LeaveKeeps(s.life, b, a);
      Symmetric(Leave(s.life, b).0, Leave(s.life, b).1, a);
    } else if e.MainRemove? {
      FreedKeeps(s.life, a, b);
    }
  }

  // ---- what reaches the remote side -----------------------------------------------------------

  function Syncs(ps: seq<Packet>): seq<Packet> {
    if ps == [] then []
    else if ps[|ps| - 1].Sync? then Syncs(ps[..|ps| - 1]) + [ps[|ps| - 1]]
    else Syncs(ps[..|ps| - 1])
  }

  /** The packets behind the first SYNC that are not SYNC themselves. */
  function AfterSync(ps: seq<Packet>): seq<Packet> {
    if ps == [] then []
    else
      var front, p := ps[..|ps| - 1], ps[|ps| - 1];
      if p.Other? && Syncs(front) != [] then AfterSync(front) + [p] else AfterSync(front)
  }

  lemma Snoc(ps: seq<Packet>, p: Packet)
    ensures Syncs(ps + [p]) == if p.Sync? then Syncs(ps) + [p] else Syncs(ps)
    ensures AfterSync(ps + [p]) == if p.Other? && Syncs(ps) != [] then AfterSync(ps) + [p] else AfterSync(ps)
  {
    assert (ps + [p])[..|ps|] == ps;
  }

  lemma {:induction false} PlainAdds(ps: seq<Packet>, more: seq<Packet>)
    requires Plain(more)
    ensures Syncs(ps + more) == Syncs(ps)
    decreases |more|
  {
    if more == [] {
      assert ps + more == ps;
    } else {
      var front, p := more[..|more| - 1], more[|more| - 1];
      PlainAdds(ps, front);
      Snoc(ps + front, p);
      assert ps + more == ps + front + [p];
    }
  }

  lemma {:induction false} SyncsPrefix(ps: seq<Packet>, more: seq<Packet>)
    ensures Syncs(ps) <= Syncs(ps + more)
    decreases |more|
  {
    if more == [] {
      assert ps + more == ps;
    } else {
      var front, p := more[..|more| - 1], more[|more| - 1];
      SyncsPrefix(ps, front);
      Snoc(ps + front, p);
      assert ps + more == ps + front + [p];
    }
  }

  lemma {:induction false} FirstSync(ps: seq<Packet>)
    requires ps != [] && ps[0].Sync?
    ensures Syncs(ps) != [] && Syncs(ps)[0] == ps[0]
    decreases |ps|
  {
    if |ps| == 1 {
      assert ps[..0] == [] && ps[|ps| - 1] == ps[0];
    } else {
      FirstSync(ps[..|ps| - 1]);
    }
  }

  lemma {:induction false} NothingBefore(ps: seq<Packet>)
    ensures Syncs(ps) == [] ==> AfterSync(ps) == []
  {
    if ps != [] { NothingBefore(ps[..|ps| - 1]); }
  }

  /** SYNC packets come to the input thread as the output thread wrote them, the first with the token. */
  ghost predicate WireInv(w: Wire) {
    && w.outSent == w.mainRead + w.toMain && w.mainSent == w.consumed + w.toInput
       && Syncs(w.mainSent) == Syncs(w.mainRead)
    && (w.outSent != [] ==> w.outSent[0] == Sync(1, w.token))
    && w.remote == AfterSync(w.consumed) && (w.active <==> Syncs(w.consumed) != [])
  }

  ghost predicate DataInv(s: State) {
    && WireInv(s.wire) && (s.out == Start ==> s.wire.outSent == [])
    && (s.wire.outSent == [] ==> s.out == Start || s.out.OutExit?)
  }

  /** The first SYNC of the main loop is the token's. */
  lemma TokenFirst(w: Wire)
    requires WireInv(w)
    ensures Syncs(w.mainSent) != [] ==> Syncs(w.mainSent)[0] == Sync(1, w.token)
  {
    hide AfterSync;
    if w.mainRead != [] {
      assert w.mainRead[0] == w.outSent[0];
      FirstSync(w.mainRead);
    }
  }

  lemma ConsumeKeeps(w: Wire)
    requires WireInv(w) && w.toInput != []
    ensures WireInv(Consume(w))
  {
    hide Syncs, AfterSync;
    var p := w.toInput[0];
    assert w.mainSent == w.consumed + [p] + w.toInput[1..];
    Snoc(w.consumed, p);
    if p.Sync? && !w.active {
      SyncsPrefix(w.consumed + [p], w.toInput[1..]);
      TokenFirst(w);
    }
  }

  lemma SendsKeep(w: Wire, ps: seq<Packet>)
    requires WireInv(w) && Plain(ps)
    ensures WireInv(MainSends(w, ps))
  {
    hide Syncs, AfterSync;
    PlainAdds(w.mainSent, ps);
    assert w.consumed + w.toInput + ps == w.consumed + (w.toInput + ps);
  }

  lemma TakesKeep(w: Wire, replies: seq<Packet>)
    requires WireInv(w) && w.toMain != [] && Plain(replies)
    ensures WireInv(MainTakes(w, replies))
  {
    hide Syncs, AfterSync;
    var p := w.toMain[0];
    Snoc(w.mainRead, p);
    assert w.mainRead + w.toMain == w.mainRead + [p] + w.toMain[1..];
    if p.Sync? {
      Snoc(w.mainSent, p);
      assert w.consumed + w.toInput + [p] == w.consumed + (w.toInput + [p]);
    } else {
      PlainAdds(w.mainSent, replies);
      assert w.consumed + w.toInput + replies == w.consumed + (w.toInput + replies);
    }
  }

  lemma WritesKeep(w: Wire, p: Packet)
    requires WireInv(w) && (w.outSent == [] ==> p == Sync(1, w.token))
    ensures WireInv(OutWrites(w, p))
  {
    hide Syncs, AfterSync;
    assert w.mainRead + w.toMain + [p] == w.mainRead + (w.toMain + [p]);
  }

  lemma OutSame(w: Wire, v: Wire, ps: seq<Packet>)
    requires v == w || (w.toInput != [] && v == Consume(w))
    ensures v.outSent == w.outSent == MainSends(v, ps).outSent
  {}

  lemma TakesSame(w: Wire, replies: seq<Packet>)
    requires w.toMain != []
    ensures MainTakes(w, replies).outSent == w.outSent
  {}

  lemma TokenMoves(w: Wire)
    requires WireInv(w) && w.outSent == []
    ensures WireInv(w.(token := w.token + 1))
  {
    hide Syncs, AfterSync;
  }

  predicate IsOffline(p: Packet) { p.Sync? && p.arg0 == 0 }

  /** Behind a SYNC with arg0 0 the input thread reads no more. */
  ghost predicate OfflineInv(s: State) {
    forall k :: 0 <= k < |s.wire.consumed| && IsOffline(s.wire.consumed[k]) ==>
      k == |s.wire.consumed| - 1 && s.inp != Reading
  }

  lemma OfflineStep(s: State, e: Event)
    requires OfflineInv(s) && Enabled(s, e)
    ensures OfflineInv(Step(s, e))
  {}

  lemma DataStep(s: State, e: Event)
    requires DataInv(s) && Enabled(s, e)
    ensures DataInv(Step(s, e))
  {
    hide WireInv, Leave, MainSends, MainTakes, Consume;
    match e
    case InRead(closing) =>
      ConsumeKeeps(s.wire);
      SendsKeep(Consume(s.wire), closing);
      OutSame(s.wire, Consume(s.wire), closing);
    case InReadFailed(closing) =>
      SendsKeep(s.wire, closing);
      OutSame(s.wire, s.wire, closing);
    case MainRead(replies) =>
      TakesKeep(s.wire, replies);
      TakesSame(s.wire, replies);
    case MainSend(p) =>
      SendsKeep(s.wire, [p]);
      OutSame(s.wire, s.wire, [p]);
    case OutStart(_) =>
      TokenMoves(s.wire);
      WritesKeep(s.wire.(token := s.wire.token + 1), Sync(1, s.wire.token + 1));
    case OutForward(p, _) => WritesKeep(s.wire, p);
    case OutOffline(_) => WritesKeep(s.wire, Sync(0, 0));
    case OutReadFailed =>
    case OutLeave =>
    case InLeave =>
    case MainRemove =>
  }

  // ---- every run --------------------------------------------------------------------------------

  ghost predicate Follows(s: State, s': State) {
    exists e :: Enabled(s, e) && Step(s, e) == s'
  }

  ghost predicate IsRun(run: seq<State>) {
    && run != [] && Initial(run[0])
    && forall i :: 0 <= i < |run| - 1 ==> Follows(run[i], run[i + 1])
  }

  lemma {:induction false} RunInv(run: seq<State>, i: nat)
    requires IsRun(run) && i < |run|
    ensures LifeInv(run[i]) && DataInv(run[i]) && OfflineInv(run[i])
  {
    if i > 0 {
      hide LifeInv, DataInv, OfflineInv, Step, Enabled;
      RunInv(run, i - 1);
      assert Follows(run[i - 1], run[i]);
      var e :| Enabled(run[i - 1], e) && Step(run[i - 1], e) == run[i];
      LifeStep(run[i - 1], e);
      DataStep(run[i - 1], e);
      OfflineStep(run[i - 1], e);
    }
  }

  /**
   * Over every interleaving: kick runs at most once, and exactly once and to its end before close; close
   * and remove happen at most once, and exactly when both threads have dropped their reference; the
   * transport is freed only after that.
   */
  lemma KickCloseRemove(run: seq<State>, i: nat)
    requires IsRun(run) && i < |run|
    ensures var s := run[i];
            && s.life.kicksDone <= s.life.kicks <= 1 && s.life.closes == s.life.removals <= 1
            && (s.life.closes == 1 <==> s.out == OutExit(Gone) && s.inp == InExit(Gone))
            && (s.life.closes == 1 ==> s.life.kicks == s.life.kicksDone == 1) && (s.life.freed ==> s.life.closes == 1)
            && (s.out == OutExit(Unref) || s.inp == InExit(Unref) ==> s.life.kicked)
  {
    hide WireInv, Follows;
    RunInv(run, i);
  }

  /**
   * What the input thread hands to the remote side are the packets the main loop sent behind its first
   * SYNC, all of them as far as they were read and in order; and that SYNC is the echo of the token.
   */
  lemma ForwardedAfterSync(run: seq<State>, i: nat)
    requires IsRun(run) && i < |run|
    ensures var w := run[i].wire;
            && w.consumed <= w.mainSent && w.remote == AfterSync(w.consumed)
            && (w.remote != [] ==> Syncs(w.consumed) != [] && Syncs(w.consumed)[0] == Sync(1, w.token))
  {
    hide LifeInv, Follows, Syncs, AfterSync;
    RunInv(run, i);
    var w := run[i].wire;
    NothingBefore(w.consumed);
    SyncsPrefix(w.consumed, w.toInput);
    TokenFirst(w);
  }

  /**
   * A SYNC with arg0 0 ends the input thread: while it reads, none is among the packets it has read, and one that is
   * stays the last.
   */
  lemma OfflineEnds(run: seq<State>, i: nat)
    requires IsRun(run) && i < |run|
    ensures var c := run[i].wire.consumed;
            && (run[i].inp == Reading ==> forall k :: 0 <= k < |c| && c[k].Sync? ==> c[k].arg0 != 0)
            && forall k :: 0 <= k < |c| - 1 && c[k].Sync? ==> c[k].arg0 != 0
  {
    hide LifeInv, DataInv, Follows;
    RunInv(run, i);
  }
}
