/**
 * Bluetooth firmware download, version 2: a patch file is parsed into a queue ordered by
 * priority, and the queued payloads followed by the configuration are cut into fragments of
 * 252 bytes that cross payload boundaries.
 */
module PatchV2 {
  import opened Arith
  import opened Lists
  import opened LittleEndian
  import opened PatchIndex
  import opened PatchWire

  // ---- the file format ------------------------------------------------------------

  datatype Entry = Entry(eco: Byte, priority: Byte, keyId: Byte, reserve: Byte, payload: seq<Byte>)

  /** A section of snippets (1), dummy headers (2) or security headers (3), or of another opcode. */
  datatype Section =
    | Patch(opcode: nat, reserve: seq<Byte>, entries: seq<Entry>, slack: seq<Byte>)
    | Other(opcode: nat, body: seq<Byte>)

  function EncodeEntry(e: Entry): seq<Byte> {
    [e.eco] + [e.priority] + [e.keyId] + [e.reserve] + LeBytes(|e.payload|, 4) + e.payload
  }

  function EncodeEntries(es: seq<Entry>): seq<Byte> {
    if es == [] then [] else EncodeEntry(es[0]) + EncodeEntries(es[1..])
  }

  function Body(s: Section): seq<Byte> {
    match s
    case Patch(_, reserve, entries, slack) => LeBytes(|entries|, 2) + reserve + EncodeEntries(entries) + slack
    case Other(_, body) => body
  }

  function EncodeSection(s: Section): seq<Byte> {
    LeBytes(s.opcode, 4) + LeBytes(|Body(s)|, 4) + Body(s)
  }

  function EncodeSections(ss: seq<Section>): seq<Byte> {
    if ss == [] then [] else EncodeSection(ss[0]) + EncodeSections(ss[1..])
  }

  /** Every count and length fits its field. */
  ghost predicate SectionFits(s: Section) {
    && s.opcode < 0x1_0000_0000 && |Body(s)| < 0x1_0000_0000
    && (s.Patch? <==> 1 <= s.opcode <= 3)
    && (s.Patch? ==> |s.reserve| == 2 && |s.entries| < 0x1_0000
                     && forall i :: 0 <= i < |s.entries| ==> |s.entries[i].payload| < 0x1_0000_0000)
  }

  /** The file: a signature and two version numbers, the section count, the sections, and possibly more. */
  ghost predicate WellFormed(buf: seq<Byte>, ss: seq<Section>) {
    && |ss| < 0x1_0000_0000 && (forall i :: 0 <= i < |ss| ==> SectionFits(ss[i]))
    && 16 <= |buf| && At(buf, 16, LeBytes(|ss|, 4) + EncodeSections(ss))
  }

  // ---- what is selected and how it is queued --------------------------------------------

  /** A queued entry. kind is the opcode of its section, kept as history. */
  datatype Node = Node(kind: nat, eco: Byte, priority: Byte, keyId: Byte, payload: seq<Byte>, sent: nat)

  function NodeOf(kind: nat, e: Entry): Node {
    Node(kind, e.eco, e.priority, if kind == 3 then e.keyId else 0, e.payload, 0)
  }

  predicate Wanted(kind: nat, e: Entry, chip: Byte, key: Byte) {
    e.eco == chip && (kind == 3 ==> e.keyId == key)
  }

  function Pick(kind: nat, es: seq<Entry>, chip: Byte, key: Byte): seq<Node> {
    if es == [] then [] else
      (if Wanted(kind, es[0], chip, key) then [NodeOf(kind, es[0])] else []) + Pick(kind, es[1..], chip, key)
  }

  /** What the first pass takes of a section: snippets; dummy headers without a key, security headers with one. */
  function FirstOf(s: Section, chip: Byte, key: Byte): seq<Node> {
    if s.Patch? && (s.opcode == 2 ==> key == 0) && (s.opcode == 3 ==> key != 0)
    then Pick(s.opcode, s.entries, chip, key) else []
  }

  /** What the second pass takes: dummy headers. */
  function SecondOf(s: Section, chip: Byte, key: Byte): seq<Node> {
    if s.Patch? && s.opcode == 2 then Pick(2, s.entries, chip, key) else []
  }

  function FirstPass(ss: seq<Section>, chip: Byte, key: Byte): seq<Node> {
    if ss == [] then [] else FirstOf(ss[0], chip, key) + FirstPass(ss[1..], chip, key)
  }

  function SecondPass(ss: seq<Section>, chip: Byte, key: Byte): seq<Node> {
    if ss == [] then [] else SecondOf(ss[0], chip, key) + SecondPass(ss[1..], chip, key)
  }

  predicate HasKind(ns: seq<Node>, kind: nat) { exists i :: 0 <= i < |ns| && ns[i].kind == kind }

  /** The nodes in the order they are queued. */
  function Selected(ss: seq<Section>, chip: Byte, key: Byte): seq<Node> {
    var first := FirstPass(ss, chip, key);
    if key != 0 && !HasKind(first, 3) then first + SecondPass(ss, chip, key) else first
  }

  function Insert(q: seq<Node>, n: Node): seq<Node> {
    if q == [] || q[0].priority >= n.priority then [n] + q else [q[0]] + Insert(q[1..], n)
  }

  /** The queue after inserting ns in order into q. */
  function InsertAll(q: seq<Node>, ns: seq<Node>): seq<Node>
    decreases |ns|
  {
    if ns == [] then q else InsertAll(Insert(q, ns[0]), ns[1..])
  }

  function Payloads(q: seq<Node>): seq<Byte> {
    if q == [] then [] else q[0].payload + Payloads(q[1..])
  }

  function PayloadSum(q: seq<Node>): nat {
    if q == [] then 0 else |q[0].payload| + PayloadSum(q[1..])
  }

  // ---- properties of the queue ------------------------------------------------------------

  ghost predicate Sorted(q: seq<Node>) {
    forall i, j :: 0 <= i < j < |q| ==> q[i].priority <= q[j].priority
  }

  function OfPriority(q: seq<Node>, p: Byte): seq<Node> {
    if q == [] then [] else (if q[0].priority == p then [q[0]] else []) + OfPriority(q[1..], p)
  }

  ghost predicate AtLeast(q: seq<Node>, p: Byte) {
    forall i :: 0 <= i < |q| ==> p <= q[i].priority
  }

  lemma {:induction false} InsertAtLeast(q: seq<Node>, n: Node, p: Byte)
    requires AtLeast(q, p) && p <= n.priority
    ensures AtLeast(Insert(q, n), p)
  {
    if q == [] || q[0].priority >= n.priority {
    } else {
      InsertAtLeast(q[1..], n, p);
    }
  }

  lemma SortedCons(x: Node, q: seq<Node>)
    ensures Sorted([x] + q) <==> AtLeast(q, x.priority) && Sorted(q)
  {
    var r := [x] + q;
    if Sorted(r) {
      forall i | 0 <= i < |q| ensures x.priority <= q[i].priority { assert r[0].priority <= r[i + 1].priority; }
      forall i, j | 0 <= i < j < |q| ensures q[i].priority <= q[j].priority {
        assert r[i + 1].priority <= r[j + 1].priority;
      }
    }
  }

  lemma {:induction false} InsertSorted(q: seq<Node>, n: Node)
    requires Sorted(q)
    ensures Sorted(Insert(q, n)) && multiset(Insert(q, n)) == multiset(q) + multiset{n}
  {
    hide Sorted;
    if q == [] {
      SortedCons(n, q);
      assert Sorted(q);
    } else {
      assert q == [q[0]] + q[1..];
      SortedCons(q[0], q[1..]);
      if q[0].priority >= n.priority {
        SortedCons(n, q);
        assert AtLeast(q, n.priority);
      } else {
        InsertSorted(q[1..], n);
        InsertAtLeast(q[1..], n, q[0].priority);
        SortedCons(q[0], Insert(q[1..], n));
      }
    }
  }

  lemma OfHead(x: Node, q: seq<Node>, p: Byte)
    ensures OfPriority([x] + q, p) == (if x.priority == p then [x] else []) + OfPriority(q, p)
  {
    assert ([x] + q)[1..] == q;
  }

  lemma {:induction false} InsertOrder(q: seq<Node>, n: Node, p: Byte)
    requires Sorted(q)
    ensures OfPriority(Insert(q, n), p) == (if n.priority == p then [n] else []) + OfPriority(q, p)
  {
    hide OfPriority;
    if q == [] || q[0].priority >= n.priority {
      OfHead(n, q, p);
    } else {
      InsertOrder(q[1..], n, p);
      OfHead(q[0], Insert(q[1..], n), p);
      OfHead(q[0], q[1..], p);
      assert q == [q[0]] + q[1..];
    }
  }

  lemma OfNone(p: Byte)
    ensures OfPriority([], p) == []
  {}

  /** The queue and, within each priority, the order of insertion reversed. */
  lemma {:induction false} InsertAllOrder(q: seq<Node>, ns: seq<Node>, p: Byte)
    requires Sorted(q)
    ensures Sorted(InsertAll(q, ns)) && multiset(InsertAll(q, ns)) == multiset(q) + multiset(ns)
    ensures OfPriority(InsertAll(q, ns), p) == Reverse(OfPriority(ns, p)) + OfPriority(q, p)
    decreases |ns|
  {
    hide OfPriority, Reverse, Insert;
    if ns == [] {
      OfNone(p);
      ReverseOne<Node>([], []);
    } else {
      InsertSorted(q, ns[0]);
      InsertOrder(q, ns[0], p);
      InsertAllOrder(Insert(q, ns[0]), ns[1..], p);
      OfHead(ns[0], ns[1..], p);
      assert ns == [ns[0]] + ns[1..];
      if ns[0].priority == p { ReverseOne([ns[0]], OfPriority(ns[1..], p)); }
      else { ReverseOne([], OfPriority(ns[1..], p)); }
    }
  }

  lemma {:induction false} InsertSum(q: seq<Node>, n: Node)
    ensures PayloadSum(Insert(q, n)) == |n.payload| + PayloadSum(q)
  {
    if q == [] || q[0].priority >= n.priority {
      assert ([n] + q)[1..] == q;
    } else {
      InsertSum(q[1..], n);
      assert ([q[0]] + Insert(q[1..], n))[1..] == Insert(q[1..], n);
    }
  }

  lemma {:induction false} InsertAllSum(q: seq<Node>, ns: seq<Node>)
    ensures PayloadSum(InsertAll(q, ns)) == PayloadSum(q) + PayloadSum(ns)
    decreases |ns|
  {
    if ns != [] {
      InsertSum(q, ns[0]);
      InsertAllSum(Insert(q, ns[0]), ns[1..]);
    }
  }

  lemma {:induction false} PayloadsLength(q: seq<Node>)
    ensures |Payloads(q)| == PayloadSum(q)
  {
    if q != [] { PayloadsLength(q[1..]); }
  }

  /**
   * The parsed queue: sorted by priority, a rearrangement of what was selected, with equal
   * priorities in reverse order of insertion, and as many payload bytes as were counted.
   */
  lemma QueueProperties(ss: seq<Section>, chip: Byte, key: Byte, p: Byte)
    ensures var sel := Selected(ss, chip, key);
            var q := InsertAll([], sel);
            && Sorted(q) && multiset(q) == multiset(sel)
            && OfPriority(q, p) == Reverse(OfPriority(sel, p))
            && PayloadSum(q) == PayloadSum(sel) == |Payloads(q)|
  {
    var sel := Selected(ss, chip, key);
    InsertAllOrder([], sel, p);
    InsertAllSum([], sel);
    PayloadsLength(InsertAll([], sel));
    OfNone(p);
  }

  lemma {:induction false} PickKinds(kind: nat, es: seq<Entry>, chip: Byte, key: Byte)
    ensures forall i :: 0 <= i < |Pick(kind, es, chip, key)| ==> Pick(kind, es, chip, key)[i].kind == kind
  {
    if es != [] { PickKinds(kind, es[1..], chip, key); }
  }

  lemma {:induction false} FirstPassKinds(ss: seq<Section>, chip: Byte, key: Byte)
    ensures HasKind(FirstPass(ss, chip, key), 2) ==> key == 0
    ensures HasKind(FirstPass(ss, chip, key), 3) ==> key != 0
  {
    if ss != [] {
      FirstPassKinds(ss[1..], chip, key);
      if ss[0].Patch? { PickKinds(ss[0].opcode, ss[0].entries, chip, key); }
    }
  }

  lemma {:induction false} SecondPassKinds(ss: seq<Section>, chip: Byte, key: Byte)
    ensures forall i :: 0 <= i < |SecondPass(ss, chip, key)| ==> SecondPass(ss, chip, key)[i].kind == 2
  {
    if ss != [] {
      SecondPassKinds(ss[1..], chip, key);
      if ss[0].Patch? { PickKinds(2, ss[0].entries, chip, key); }
    }
  }

  /** Section i has entry j. */
  predicate HasEntry(ss: seq<Section>, i: int, j: int) {
    0 <= i < |ss| && ss[i].Patch? && 0 <= j < |ss[i].entries|
  }

  /** A security header for this chip and key. */
  ghost predicate HasSecurity(ss: seq<Section>, chip: Byte, key: Byte) {
    exists i, j :: HasEntry(ss, i, j) && ss[i].opcode == 3 && ss[i].entries[j].eco == chip
                   && ss[i].entries[j].keyId == key
  }

  /**
   * The entry is for this chip; a security header for its key, if there is one; a dummy header only where there is
   * no key, or no security header for it.
   */
  ghost predicate Chosen(ss: seq<Section>, chip: Byte, key: Byte, i: int, j: int)
    requires HasEntry(ss, i, j)
  {
    && ss[i].entries[j].eco == chip
    && (ss[i].opcode == 3 ==> key != 0 && ss[i].entries[j].keyId == key)
    && (ss[i].opcode == 2 ==> key == 0 || !HasSecurity(ss, chip, key))
  }

  lemma {:induction false} PickMember(kind: nat, es: seq<Entry>, chip: Byte, key: Byte, n: Node)
    ensures n in Pick(kind, es, chip, key)
            <==> exists j :: 0 <= j < |es| && n == NodeOf(kind, es[j]) && Wanted(kind, es[j], chip, key)
  {
    hide NodeOf, Wanted;
    if es != [] {
      PickMember(kind, es[1..], chip, key, n);
      if j :| 0 <= j < |es[1..]| && n == NodeOf(kind, es[1..][j]) && Wanted(kind, es[1..][j], chip, key) {
        assert es[j + 1] == es[1..][j];
      }
      if j :| 0 <= j < |es| && n == NodeOf(kind, es[j]) && Wanted(kind, es[j], chip, key) {
        assert j > 0 ==> es[1..][j - 1] == es[j];
      }
    }
  }

  lemma {:induction false} FirstMember(ss: seq<Section>, chip: Byte, key: Byte, n: Node)
    ensures n in FirstPass(ss, chip, key) <==> exists i :: 0 <= i < |ss| && n in FirstOf(ss[i], chip, key)
  {
    hide FirstOf;
    if ss != [] {
      FirstMember(ss[1..], chip, key, n);
      if i :| 0 <= i < |ss[1..]| && n in FirstOf(ss[1..][i], chip, key) { assert ss[i + 1] == ss[1..][i]; }
      if i :| 0 <= i < |ss| && n in FirstOf(ss[i], chip, key) { assert i > 0 ==> ss[1..][i - 1] == ss[i]; }
    }
  }

  lemma {:induction false} SecondMember(ss: seq<Section>, chip: Byte, key: Byte, n: Node)
    ensures n in SecondPass(ss, chip, key) <==> exists i :: 0 <= i < |ss| && n in SecondOf(ss[i], chip, key)
  {
    hide SecondOf;
    if ss != [] {
      SecondMember(ss[1..], chip, key, n);
      if i :| 0 <= i < |ss[1..]| && n in SecondOf(ss[1..][i], chip, key) { assert ss[i + 1] == ss[1..][i]; }
      if i :| 0 <= i < |ss| && n in SecondOf(ss[i], chip, key) { assert i > 0 ==> ss[1..][i - 1] == ss[i]; }
    }
  }

  lemma SecurityFound(ss: seq<Section>, chip: Byte, key: Byte)
    requires key != 0
    ensures HasKind(FirstPass(ss, chip, key), 3) <==> HasSecurity(ss, chip, key)
  {
    hide FirstPass, SecondPass, Pick;
    var first := FirstPass(ss, chip, key);
    if k :| 0 <= k < |first| && first[k].kind == 3 {
      FirstMember(ss, chip, key, first[k]);
      var i :| 0 <= i < |ss| && first[k] in FirstOf(ss[i], chip, key);
      PickMember(ss[i].opcode, ss[i].entries, chip, key, first[k]);
      var j :| 0 <= j < |ss[i].entries| && first[k] == NodeOf(ss[i].opcode, ss[i].entries[j])
               && Wanted(ss[i].opcode, ss[i].entries[j], chip, key);
      assert HasEntry(ss, i, j);
    }
    if HasSecurity(ss, chip, key) {
      var i, j :| HasEntry(ss, i, j) && ss[i].opcode == 3 && ss[i].entries[j].eco == chip
                  && ss[i].entries[j].keyId == key;
      var n := NodeOf(3, ss[i].entries[j]);
      PickMember(3, ss[i].entries, chip, key, n);
      assert n in FirstOf(ss[i], chip, key);
      FirstMember(ss, chip, key, n);
      assert n.kind == 3;
    }
  }

  /** A chosen entry is queued. */
  lemma ChosenQueued(ss: seq<Section>, chip: Byte, key: Byte, i: int, j: int)
    requires HasEntry(ss, i, j) && Chosen(ss, chip, key, i, j)
    ensures NodeOf(ss[i].opcode, ss[i].entries[j]) in Selected(ss, chip, key)
  {
    hide FirstPass, SecondPass, Pick, HasSecurity, HasKind, NodeOf;
    var n := NodeOf(ss[i].opcode, ss[i].entries[j]);
    PickMember(ss[i].opcode, ss[i].entries, chip, key, n);
    FirstMember(ss, chip, key, n);
    SecondMember(ss, chip, key, n);
    if key != 0 { SecurityFound(ss, chip, key); }
    if ss[i].opcode == 2 && key != 0 {
      assert n in SecondOf(ss[i], chip, key);
    } else {
      assert n in FirstOf(ss[i], chip, key);
    }
  }

  /** What is queued is a chosen entry. */
  lemma QueuedChosen(ss: seq<Section>, chip: Byte, key: Byte, n: Node) returns (i: int, j: int)
    requires n in Selected(ss, chip, key)
    ensures HasEntry(ss, i, j) && Chosen(ss, chip, key, i, j) && n == NodeOf(ss[i].opcode, ss[i].entries[j])
  {
    hide FirstPass, SecondPass, Pick, HasSecurity, HasKind, NodeOf;
    FirstMember(ss, chip, key, n);
    SecondMember(ss, chip, key, n);
    if key != 0 { SecurityFound(ss, chip, key); }
    if k :| 0 <= k < |ss| && n in FirstOf(ss[k], chip, key) {
      i := k;
    } else {
      var l :| 0 <= l < |ss| && n in SecondOf(ss[l], chip, key);
      i := l;
    }
    PickMember(ss[i].opcode, ss[i].entries, chip, key, n);
    j :| 0 <= j < |ss[i].entries| && n == NodeOf(ss[i].opcode, ss[i].entries[j])
         && Wanted(ss[i].opcode, ss[i].entries[j], chip, key);
  }

  /** Exactly the chosen entries are queued. */
  lemma SelectedExactly(ss: seq<Section>, chip: Byte, key: Byte, n: Node)
    ensures n in InsertAll([], Selected(ss, chip, key))
            <==> exists i, j :: HasEntry(ss, i, j) && Chosen(ss, chip, key, i, j)
                                && n == NodeOf(ss[i].opcode, ss[i].entries[j])
  {
    hide Selected, InsertAll, Chosen, NodeOf;
    var sel := Selected(ss, chip, key);
    QueueProperties(ss, chip, key, 0);
    assert n in InsertAll([], sel) <==> n in multiset(sel);
    if n in sel { var i, j := QueuedChosen(ss, chip, key, n); }
    if i, j :| HasEntry(ss, i, j) && Chosen(ss, chip, key, i, j) && n == NodeOf(ss[i].opcode, ss[i].entries[j]) {
      ChosenQueued(ss, chip, key, i, j);
    }
  }

  /** Header nodes come from security sections or from dummy sections, never from both. */
  lemma HeadersExclusive(ss: seq<Section>, chip: Byte, key: Byte)
    ensures !(HasKind(Selected(ss, chip, key), 2) && HasKind(Selected(ss, chip, key), 3))
  {
    hide FirstPass, SecondPass;
    FirstPassKinds(ss, chip, key);
    SecondPassKinds(ss, chip, key);
    var first, second := FirstPass(ss, chip, key), SecondPass(ss, chip, key);
    assert forall i :: 0 <= i < |first + second| ==>
      (first + second)[i] == if i < |first| then first[i] else second[i - |first|];
  }

  // ---- parsing ----------------------------------------------------------------------------

  lemma EntryAt(buf: seq<Byte>, p: nat, es: seq<Entry>)
    requires es != [] && At(buf, p, EncodeEntries(es)) && |es[0].payload| < 0x1_0000_0000
    ensures var n := |es[0].payload|;
            && p + 8 + n <= |buf| && buf[p] == es[0].eco && buf[p + 1] == es[0].priority && buf[p + 2] == es[0].keyId
            && Read(buf, p + 4, 4) == n && buf[p + 8..p + 8 + n] == es[0].payload
            && At(buf, p + 8 + n, EncodeEntries(es[1..]))
  {
    hide LeBytes, Read, At;
    var e := es[0];
    var h1 := [e.eco] + [e.priority];
    var h2, h3 := h1 + [e.keyId], h1 + [e.keyId] + [e.reserve];
    var len := LeBytes(|e.payload|, 4);
    LePowers();
    AtSplit(buf, p, EncodeEntry(e), EncodeEntries(es[1..]));
    AtSplit(buf, p, h3 + len, e.payload);
    AtSplit(buf, p, h3, len);
    AtSplit(buf, p, h2, [e.reserve]);
    AtSplit(buf, p, h1, [e.keyId]);
    AtSplit(buf, p, [e.eco], [e.priority]);
    AtByte(buf, p, e.eco);
    AtByte(buf, p + 1, e.priority);
    AtByte(buf, p + 2, e.keyId);
    AtNumber(buf, p + 4, |e.payload|, 4);
    AtSlice(buf, p + 8, e.payload);
  }

  lemma SectionAt(buf: seq<Byte>, p: nat, ss: seq<Section>)
    requires ss != [] && At(buf, p, EncodeSections(ss)) && SectionFits(ss[0])
    ensures var n := |Body(ss[0])|;
            && p + 8 + n <= |buf| && Read(buf, p, 4) == ss[0].opcode && Read(buf, p + 4, 4) == n
            && At(buf, p + 8, Body(ss[0])) && At(buf, p + 8 + n, EncodeSections(ss[1..]))
  {
    hide LeBytes, Read, Body, At;
    var s := ss[0];
    LePowers();
    AtSplit(buf, p, EncodeSection(s), EncodeSections(ss[1..]));
    AtSplit(buf, p, LeBytes(s.opcode, 4) + LeBytes(|Body(s)|, 4), Body(s));
    AtSplit(buf, p, LeBytes(s.opcode, 4), LeBytes(|Body(s)|, 4));
    AtNumber(buf, p, s.opcode, 4);
    AtNumber(buf, p + 4, |Body(s)|, 4);
    AtSlice(buf, p + 8, Body(s));
  }

  lemma BodyAt(buf: seq<Byte>, p: nat, s: Section)
    requires s.Patch? && SectionFits(s) && At(buf, p, Body(s))
    ensures p + 4 <= |buf| && Read(buf, p, 2) == |s.entries| && At(buf, p + 4, EncodeEntries(s.entries))
  {
    hide LeBytes, Read, EncodeEntries, At;
    LePowers();
    AtSplit(buf, p, LeBytes(|s.entries|, 2) + s.reserve + EncodeEntries(s.entries), s.slack);
    AtSplit(buf, p, LeBytes(|s.entries|, 2) + s.reserve, EncodeEntries(s.entries));
    AtSplit(buf, p, LeBytes(|s.entries|, 2), s.reserve);
    AtNumber(buf, p, |s.entries|, 2);
    AtSlice(buf, p + 4, EncodeEntries(s.entries));
  }

  /** Queueing ns on top of a state is queueing more on top of the later state. */
  ghost predicate Queued(q0: seq<Node>, fw0: nat, ns: seq<Node>, q: seq<Node>, fw: nat) {
    q == InsertAll(q0, ns) && fw == (fw0 + PayloadSum(ns)) % 0x1_0000_0000
  }

  lemma {:induction false} InsertAllAppend(q: seq<Node>, ns: seq<Node>, ms: seq<Node>)
    ensures InsertAll(q, ns + ms) == InsertAll(InsertAll(q, ns), ms)
    ensures PayloadSum(ns + ms) == PayloadSum(ns) + PayloadSum(ms)
    decreases |ns|
  {
    if ns == [] {
      assert ns + ms == ms;
    } else {
      InsertAllAppend(Insert(q, ns[0]), ns[1..], ms);
      assert (ns + ms)[0] == ns[0] && (ns + ms)[1..] == ns[1..] + ms;
    }
  }

  lemma QueuedMore(q0: seq<Node>, fw0: nat, ns: seq<Node>, q: seq<Node>, fw: nat, ms: seq<Node>, q': seq<Node>,
                   fw': nat)
    requires Queued(q0, fw0, ns, q, fw) && Queued(q, fw, ms, q', fw')
    ensures Queued(q0, fw0, ns + ms, q', fw')
  {
    hide InsertAll, PayloadSum;
    InsertAllAppend(q0, ns, ms);
  }

  lemma QueuedNone(q: seq<Node>, fw: nat)
    requires fw < 0x1_0000_0000
    ensures Queued(q, fw, [], q, fw)
  {}

  lemma SectionsAt(buf: seq<Byte>, ss: seq<Section>)
    requires WellFormed(buf, ss)
    ensures 20 <= |buf| && Read(buf, 16, 4) == |ss| && At(buf, 20, EncodeSections(ss))
    ensures forall i :: 0 <= i < |ss| ==> SectionFits(ss[i])
  {
    hide LeBytes, Read, EncodeSections, At, SectionFits;
    LePowers();
    AtSplit(buf, 16, LeBytes(|ss|, 4), EncodeSections(ss));
    AtNumber(buf, 16, |ss|, 4);
  }

  lemma PassStart(ss: seq<Section>, chip: Byte, key: Byte)
    ensures ss == [] ==> FirstPass(ss, chip, key) == [] && SecondPass(ss, chip, key) == []
    ensures [] + FirstPass(ss, chip, key) == FirstPass(ss, chip, key)
    ensures [] + SecondPass(ss, chip, key) == SecondPass(ss, chip, key)
    ensures !HasKind([], 3)
  {}

  lemma PassNext(ss: seq<Section>, chip: Byte, key: Byte)
    requires ss != []
    ensures FirstPass(ss, chip, key) == FirstOf(ss[0], chip, key) + FirstPass(ss[1..], chip, key)
    ensures SecondPass(ss, chip, key) == SecondOf(ss[0], chip, key) + SecondPass(ss[1..], chip, key)
  {}

  lemma KindsOf(s: Section)
    requires SectionFits(s)
    ensures s.Patch? <==> 1 <= s.opcode <= 3
  {}

  lemma FirstOfKinds(s: Section, chip: Byte, key: Byte)
    ensures HasKind(FirstOf(s, chip, key), 3) <==> s.opcode == 3 && FirstOf(s, chip, key) != []
  {
    if s.Patch? { PickKinds(s.opcode, s.entries, chip, key); }
    var ns := FirstOf(s, chip, key);
    if ns != [] { assert ns[0].kind == s.opcode; }
  }

  lemma KindAppend(ns: seq<Node>, ms: seq<Node>)
    ensures HasKind(ns + ms, 3) <==> HasKind(ns, 3) || HasKind(ms, 3)
  {
    assert forall i :: 0 <= i < |ns| ==> (ns + ms)[i] == ns[i];
    assert forall i :: 0 <= i < |ms| ==> (ns + ms)[|ns| + i] == ms[i];
  }

  lemma QueuedBound(q0: seq<Node>, fw0: nat, ns: seq<Node>, q: seq<Node>, fw: nat)
    requires Queued(q0, fw0, ns, q, fw)
    ensures fw < 0x1_0000_0000
  {}

  lemma {:induction false} InsertAt(q: seq<Node>, n: Node, i: nat)
    requires i <= |q| && (i < |q| ==> q[i].priority >= n.priority)
    requires forall j :: 0 <= j < i ==> q[j].priority < n.priority
    ensures Insert(q, n) == q[..i] + [n] + q[i..]
  {
    if i > 0 {
      var h, t := [q[0]], q[1..];
      InsertAt(t, n, i - 1);
      assert h + t[..i - 1] == q[..i] && t[i - 1..] == q[i..];
      assert h + (t[..i - 1] + [n] + t[i - 1..]) == (h + t[..i - 1]) + [n] + t[i - 1..];
    }
  }

  lemma QueuedOne(q: seq<Node>, fw: nat, n: Node)
    requires fw < 0x1_0000_0000
    ensures Queued(q, fw, [n], Insert(q, n), (fw + |n.payload|) % 0x1_0000_0000)
  {
    assert [n][1..] == [];
    assert InsertAll(q, [n]) == InsertAll(Insert(q, n), []);
    assert PayloadSum([n]) == |n.payload| + PayloadSum([]);
  }

  lemma EntriesFit(s: Section)
    requires s.Patch? && SectionFits(s)
    ensures forall i :: 0 <= i < |s.entries| ==> |s.entries[i].payload| < 0x1_0000_0000
  {}

  lemma PickStart(kind: nat, es: seq<Entry>, chip: Byte, key: Byte)
    ensures es == [] ==> Pick(kind, es, chip, key) == []
    ensures [] + Pick(kind, es, chip, key) == Pick(kind, es, chip, key)
  {}

  lemma PickNext(kind: nat, es: seq<Entry>, chip: Byte, key: Byte)
    requires es != []
    ensures Pick(kind, es, chip, key)
            == (if Wanted(kind, es[0], chip, key) then [NodeOf(kind, es[0])] else []) + Pick(kind, es[1..], chip, key)
  {}

  class PatchParser {
    const chip: Byte
    const key: Byte
    var nodes: seq<Node>
    var fwLen: nat

    constructor (chip: Byte, key: Byte)
      ensures nodes == [] && fwLen == 0 && this.chip == chip && this.key == key
    {
      this.chip, this.key, nodes, fwLen := chip, key, [], 0;
    }

    /** _insert_patch_queue: before the first node of the same or a higher priority. */
    method InsertPatchQueue(n: Node)
      modifies this`nodes
      ensures nodes == Insert(old(nodes), n)
    {
      var i := 0;
      while i < |nodes|
        invariant 0 <= i <= |nodes| && nodes == old(nodes)
        invariant forall j :: 0 <= j < i ==> nodes[j].priority < n.priority
      {
        if nodes[i].priority >= n.priority { break; }
        i := i + 1;
      }
      InsertAt(nodes, n, i);
      nodes := nodes[..i] + [n] + nodes[i..];
    }

    /** _parse_patch_section; found tells whether a security header was queued. */
    method ParsePatchSection(buf: seq<Byte>, p: nat, kind: nat, ghost s: Section) returns (found: bool)
      requires s.Patch? && SectionFits(s) && At(buf, p, Body(s)) && fwLen < 0x1_0000_0000
      modifies this`nodes, this`fwLen
      ensures Queued(old(nodes), old(fwLen), Pick(kind, s.entries, chip, key), nodes, fwLen)
      ensures found <==> kind == 3 && Pick(kind, s.entries, chip, key) != []
    {
      hide At, EncodeEntries, Insert, InsertAll, PayloadSum, Read, SectionFits, Body, Queued, Pick;
      BodyAt(buf, p, s);
      var number := Read(buf, p, 2);
      var position: nat := p + 4;
      ghost var es := s.entries;
      ghost var done: seq<Node> := [];
      QueuedNone(nodes, fwLen);
      PickStart(kind, es, chip, key);
      EntriesFit(s);
      found := false;
      var i := 0;
      while i < number
        invariant 0 <= i <= number == |s.entries| && es == s.entries[i..]
        invariant At(buf, position, EncodeEntries(es)) && fwLen < 0x1_0000_0000
        invariant Queued(old(nodes), old(fwLen), done, nodes, fwLen)
        invariant Pick(kind, s.entries, chip, key) == done + Pick(kind, es, chip, key)
        invariant found <==> kind == 3 && done != []
      {
        EntryAt(buf, position, es);
        PickNext(kind, es, chip, key);
        var eco := buf[position];
        var payloadLen := Read(buf, position + 4, 4);
        ghost var q1, fw1, more := nodes, fwLen, if Wanted(kind, es[0], chip, key) then [NodeOf(kind, es[0])] else [];
        if eco == chip {
          var n := Node(kind, eco, buf[position + 1], if kind == 3 then buf[position + 2] else 0,
                        buf[position + 8..position + 8 + payloadLen], 0);
          if kind != 3 || n.keyId == key {
            InsertPatchQueue(n);
            fwLen := (fwLen + payloadLen) % 0x1_0000_0000;
            if kind == 3 { found := true; }
            QueuedOne(q1, fw1, n);
          } else {
            QueuedNone(nodes, fwLen);
          }
        } else {
          QueuedNone(nodes, fwLen);
        }
        assert Queued(q1, fw1, more, nodes, fwLen);
        QueuedMore(old(nodes), old(fwLen), done, q1, fw1, more, nodes, fwLen);
        done := done + more;
        position := position + 8 + payloadLen;
        es := es[1..];
        i := i + 1;
      }
      PickStart(kind, es, chip, key);
      assert done + [] == done;
    }

    /** _parse_patch: one pass, and a second one for dummy headers if the key has no security header. */
    method ParsePatch(buf: seq<Byte>, ghost ss: seq<Section>)
      requires WellFormed(buf, ss) && nodes == [] && fwLen == 0
      modifies this`nodes, this`fwLen
      ensures Queued([], 0, Selected(ss, chip, key), nodes, fwLen)
    {
      hide At, EncodeSections, Insert, InsertAll, PayloadSum, Read, SectionFits, Body, Queued, Pick, FirstPass,
        SecondPass, HasKind;
      SectionsAt(buf, ss);
      QueuedNone(nodes, fwLen);
      PassStart(ss, chip, key);
      var sectionNum := Read(buf, 16, 4);
      if sectionNum == 0 { return; }
      var position: nat := 20;
      var foundSecurityHeader := false;
      ghost var rest := ss;
      ghost var done: seq<Node> := [];
      var i := 0;
      while i < sectionNum
        invariant 0 <= i <= sectionNum == |ss| && rest == ss[i..]
        invariant At(buf, position, EncodeSections(rest)) && fwLen < 0x1_0000_0000
        invariant Queued([], 0, done, nodes, fwLen)
        invariant FirstPass(ss, chip, key) == done + FirstPass(rest, chip, key)
        invariant foundSecurityHeader <==> HasKind(done, 3)
      {
        SectionAt(buf, position, rest);
        PassNext(rest, chip, key);
        var opcode := Read(buf, position, 4);
        var length := Read(buf, position + 4, 4);
        ghost var q1, fw1 := nodes, fwLen;
        ghost var more := FirstOf(rest[0], chip, key);
        KindsOf(rest[0]);
        if opcode == 1 || (opcode == 2 && key == 0) || (opcode == 3 && key != 0) {
          var f := ParsePatchSection(buf, position + 8, opcode, rest[0]);
          FirstOfKinds(rest[0], chip, key);
          if f { foundSecurityHeader := true; }
        } else {
          QueuedNone(nodes, fwLen);
        }
        KindAppend(done, more);
        QueuedMore([], 0, done, q1, fw1, more, nodes, fwLen);
        QueuedBound([], 0, done + more, nodes, fwLen);
        done := done + more;
        position := position + 8 + length;
        rest := rest[1..];
        i := i + 1;
      }
      PassStart(rest, chip, key);
      assert done + [] == done;
      if key != 0 && !foundSecurityHeader {
        ghost var first := done;
        position := 20;
        rest := ss;
        done := [];
        ghost var q1, fw1 := nodes, fwLen;
        QueuedNone(nodes, fwLen);
        i := 0;
        while i < sectionNum
          invariant 0 <= i <= sectionNum == |ss| && rest == ss[i..]
          invariant At(buf, position, EncodeSections(rest)) && fwLen < 0x1_0000_0000
          invariant Queued(q1, fw1, done, nodes, fwLen)
          invariant SecondPass(ss, chip, key) == done + SecondPass(rest, chip, key)
        {
          SectionAt(buf, position, rest);
          PassNext(rest, chip, key);
          var opcode := Read(buf, position, 4);
          var length := Read(buf, position + 4, 4);
          ghost var q2, fw2 := nodes, fwLen;
          ghost var more := SecondOf(rest[0], chip, key);
          KindsOf(rest[0]);
          if opcode == 2 {
            var f := ParsePatchSection(buf, position + 8, 2, rest[0]);
          } else {
            QueuedNone(nodes, fwLen);
          }
          QueuedMore(q1, fw1, done, q2, fw2, more, nodes, fwLen);
          QueuedBound(q1, fw1, done + more, nodes, fwLen);
          done := done + more;
          position := position + 8 + length;
          rest := rest[1..];
          i := i + 1;
        }
        PassStart(rest, chip, key);
        assert done + [] == done;
        QueuedMore([], 0, first, q1, fw1, done, nodes, fwLen);
      }
    }
  }

  // ---- fragments ---------------------------------------------------------------------------

  /** end_index and last_pkt as the code computes them, in 16 and 8 bits. */
  function EndIndex(fw: nat, config: nat): nat {
    ((fw + config - 1) % 0x1_0000_0000) / 252 % 0x1_0000
  }

  function LastPkt(fw: nat, config: nat): nat {
    var r := (fw + config) % 0x1_0000_0000 % 252;
    if r == 0 then 252 else r
  }

  function FragLen(i: nat, end: nat, last: nat): nat { if i == end then last else 252 }

  /** The HCI command of fragment i: opcode 0xfc20, parameter length, index, data. */
  function Frame(all: seq<Byte>, i: nat, end: nat, last: nat): seq<Byte>
    requires 252 * i + FragLen(i, end, last) <= |all| && last <= 252
  {
    [0x01, 0x20, 0xfc, FragLen(i, end, last) + 1, if i == end then Index(i) + 0x80 else Index(i)]
      + all[252 * i..252 * i + FragLen(i, end, last)]
  }

  /** The data of a sequence of commands. */
  function Data(trace: seq<seq<Byte>>): seq<Byte> {
    if trace == [] then [] else
      Data(trace[..|trace| - 1]) + (var f := trace[|trace| - 1]; if |f| >= 5 then f[5..] else [])
  }

  lemma FrameReads(all: seq<Byte>, i: nat, end: nat, last: nat)
    requires i <= end && last <= 252 && 252 * i + FragLen(i, end, last) <= |all|
    ensures IsFragment(Frame(all, i, end, last), if i == end then Index(i) + 0x80 else Index(i),
                       all[252 * i..252 * i + FragLen(i, end, last)])
  {
    hide Index, Read;
    ReadTwo(Frame(all, i, end, last), 1);
  }

  /** All fragments of the bytes: ceil(|all| / 252) of them, the last marked. */
  function Frames(all: seq<Byte>): seq<seq<Byte>>
    requires 0 < |all|
  {
    var end := (|all| - 1) / 252;
    seq(end + 1, i requires 0 <= i <= end => Frame(all, i, end, |all| - 252 * end))
  }

  ghost predicate FragmentReads(cmd: seq<Byte>, all: seq<Byte>, i: nat, last: bool) {
    if last then 252 * i <= |all| && IsFragment(cmd, Index(i) + 0x80, all[252 * i..])
    else 252 * i + 252 <= |all| && IsFragment(cmd, Index(i), all[252 * i..252 * i + 252])
  }

  /** The fragments carry 252 bytes each or what is left, in order, under their index; the last has bit 7 set. */
  ghost predicate FragmentsRead(cmds: seq<seq<Byte>>, all: seq<Byte>) {
    && |cmds| == (|all| + 251) / 252
    && forall i :: 0 <= i < |cmds| ==> FragmentReads(cmds[i], all, i, i == |cmds| - 1)
  }

  lemma FramesRead(all: seq<Byte>)
    requires 0 < |all|
    ensures FragmentsRead(Frames(all), all)
  {
    hide Frame, IsFragment, Index;
    var cmds, end := Frames(all), (|all| - 1) / 252;
    assert (|all| + 251) / 252 == end + 1;
    forall i | 0 <= i < |cmds| ensures FragmentReads(cmds[i], all, i, i == |cmds| - 1) {
      FrameReads(all, i, end, |all| - 252 * end);
      assert cmds[i] == Frame(all, i, end, |all| - 252 * end);
      if i == end { assert all[252 * i..] == all[252 * i..|all|]; }
    }
  }

  /** The first s bytes of the payloads have been sent, node by node. */
  ghost predicate SentUpTo(q: seq<Node>, s: nat) {
    q != [] ==>
      && q[0].sent == (if s < |q[0].payload| then s else |q[0].payload|)
      && SentUpTo(q[1..], if s < |q[0].payload| then 0 else s - |q[0].payload|)
  }

  lemma {:induction false} SentNone(q: seq<Node>)
    requires forall i :: 0 <= i < |q| ==> q[i].sent == 0
    ensures SentUpTo(q, 0)
  {
    if q != [] { SentNone(q[1..]); }
  }

  lemma SumHead(q: seq<Node>, m: nat)
    requires 0 < m <= |q|
    ensures PayloadSum(q[..m]) == |q[0].payload| + PayloadSum(q[1..][..m - 1])
  {
    assert q[..m][0] == q[0] && q[..m][1..] == q[1..][..m - 1];
  }

  lemma {:induction false} SentAt(q: seq<Node>, s: nat, m: nat)
    requires m < |q| && SentUpTo(q, s)
    requires PayloadSum(q[..m]) <= s <= PayloadSum(q[..m]) + |q[m].payload|
    ensures q[m].sent == s - PayloadSum(q[..m])
  {
    if m == 0 {
      assert q[..0] == [];
    } else {
      SumHead(q, m);
      SentAt(q[1..], s - |q[0].payload|, m - 1);
    }
  }

  lemma InFront(h: seq<Byte>, t: seq<Byte>, i: nat, j: nat)
    requires i <= j <= |h|
    ensures (h + t)[i..j] == h[i..j]
  {}

  lemma Behind(h: seq<Byte>, t: seq<Byte>, i: nat, j: nat)
    requires i <= j <= |t|
    ensures (h + t)[|h| + i..|h| + j] == t[i..j]
  {}

  lemma {:induction false} SliceAt(q: seq<Node>, m: nat, x: nat, d: nat)
    requires m < |q| && x + d <= |q[m].payload|
    ensures var p := PayloadSum(q[..m]);
            p + x + d <= |Payloads(q)| && Payloads(q)[p + x..p + x + d] == q[m].payload[x..x + d]
  {
    if m == 0 {
      assert q[..0] == [] && PayloadSum([]) == 0;
      assert Payloads(q) == q[0].payload + Payloads(q[1..]);
      InFront(q[0].payload, Payloads(q[1..]), x, x + d);
    } else {
      SumHead(q, m);
      SliceAt(q[1..], m - 1, x, d);
      var h, t, p := q[0].payload, Payloads(q[1..]), PayloadSum(q[1..][..m - 1]);
      Behind(h, t, p + x, p + x + d);
      assert Payloads(q) == h + t && q[1..][m - 1] == q[m];
    }
  }

  lemma {:induction false} SamePayloads(q: seq<Node>, m: nat, n: Node)
    requires m < |q| && n.payload == q[m].payload
    ensures Payloads(q[m := n]) == Payloads(q)
  {
    if m == 0 {
      assert q[0 := n][1..] == q[1..];
    } else {
      SamePayloads(q[1..], m - 1, n);
      assert q[m := n][1..] == q[1..][m - 1 := n];
    }
  }

  lemma {:induction false} Advance(q: seq<Node>, s: nat, m: nat, d: nat)
    requires m < |q| && SentUpTo(q, s)
    requires PayloadSum(q[..m]) <= s && s + d <= PayloadSum(q[..m]) + |q[m].payload|
    ensures SentUpTo(q[m := q[m].(sent := q[m].sent + d)], s + d)
  {
    var q' := q[m := q[m].(sent := q[m].sent + d)];
    if m == 0 {
      assert q[..0] == [] && q'[1..] == q[1..];
    } else {
      SumHead(q, m);
      Advance(q[1..], s - |q[0].payload|, m - 1, d);
      assert q'[1..] == q[1..][m - 1 := q[m].(sent := q[m].sent + d)];
    }
  }

  /** Node m holds the bytes from the sum of the payloads before it; sending d of them there sends the next d. */
  lemma SendFromNode(q: seq<Node>, s: nat, m: nat, d: nat)
    requires m < |q| && SentUpTo(q, s)
    requires PayloadSum(q[..m]) <= s && s + d <= PayloadSum(q[..m]) + |q[m].payload|
    ensures q[m].sent == s - PayloadSum(q[..m])
    ensures s + d <= |Payloads(q)| && Payloads(q)[s..s + d] == q[m].payload[q[m].sent..q[m].sent + d]
    ensures var q' := q[m := q[m].(sent := q[m].sent + d)];
            SentUpTo(q', s + d) && Payloads(q') == Payloads(q)
  {
    hide SentUpTo, Payloads, PayloadSum;
    SentAt(q, s, m);
    SliceAt(q, m, s - PayloadSum(q[..m]), d);
    SamePayloads(q, m, q[m].(sent := q[m].sent + d));
    Advance(q, s, m, d);
  }

  lemma SumNext(q: seq<Node>, m: nat)
    requires m < |q|
    ensures PayloadSum(q[..m + 1]) == PayloadSum(q[..m]) + |q[m].payload|
  {
    assert q[..m + 1] == q[..m] + [q[m]];
    InsertAllAppend([], q[..m], [q[m]]);
    assert PayloadSum([q[m]]) == |q[m].payload| + PayloadSum([q[m]][1..]);
  }

  lemma {:induction false} SameSum(q: seq<Node>, m: nat, n: Node, k: nat)
    requires m < |q| && n.payload == q[m].payload && k <= |q|
    ensures PayloadSum(q[m := n][..k]) == PayloadSum(q[..k])
  {
    if k > 0 {
      SameSum(q, m, n, k - 1);
      SumNext(q, k - 1);
      SumNext(q[m := n], k - 1);
    }
  }

  lemma Extended(fw: seq<Byte>, i: nat, j: nat, k: nat)
    requires i <= j <= k <= |fw|
    ensures fw[i..k] == fw[i..j] + fw[j..k]
  {}

  lemma NoSum(q: seq<Node>)
    ensures PayloadSum(q[..0]) == 0 && PayloadSum([]) == 0
  {}

  lemma WholeSum(q: seq<Node>)
    ensures PayloadSum(q[..|q|]) == PayloadSum(q)
  {
    assert q[..|q|] == q;
  }

  lemma SumKept(q: seq<Node>, m: nat, d: nat)
    requires m < |q|
    ensures var q' := q[m := q[m].(sent := q[m].sent + d)];
            && PayloadSum(q') == PayloadSum(q)
            && PayloadSum(q'[..m + 1]) == PayloadSum(q[..m + 1]) && PayloadSum(q'[..m]) == PayloadSum(q[..m])
  {
    var n := q[m].(sent := q[m].sent + d);
    SameSum(q, m, n, m);
    SameSum(q, m, n, m + 1);
    SameSum(q, m, n, |q|);
    WholeSum(q);
    WholeSum(q[m := n]);
  }

  lemma FragmentBytes(fw: seq<Byte>, config: seq<Byte>, s0: nat, s1: nat, c0: nat, c1: nat)
    requires s0 <= s1 <= |fw| && c0 <= c1 <= |config| && (c1 > 0 ==> s1 == |fw|) && (c0 > 0 ==> s0 == |fw|)
    ensures (fw + config)[s0 + c0..s1 + c1] == fw[s0..s1] + config[c0..c1]
  {
    var all, n := fw + config, |fw|;
    if c1 == 0 {
      InFront(fw, config, s0, s1);
    } else if c0 == 0 {
      InFront(fw, config, s0, n);
      Behind(fw, config, 0, c1);
      Extended(all, s0, n, n + c1);
    } else {
      Behind(fw, config, c0, c1);
    }
  }

  lemma ModBelow(sum: nat)
    requires 0x1_0000_0000 <= sum < 0x1_0001_0000
    ensures (sum - 1) % 0x1_0000_0000 == if sum == 0x1_0000_0000 then 0xffff_ffff else sum - 1 - 0x1_0000_0000
  {
    if sum == 0x1_0000_0000 {
      ModSmall(0xffff_ffff, 0x1_0000_0000);
    } else {
      ModShift(sum - 1 - 0x1_0000_0000, 1, 0x1_0000_0000);
      ModSmall(sum - 1 - 0x1_0000_0000, 0x1_0000_0000);
    }
  }

  /** The fragment arithmetic, with t and u the sum and its predecessor in 32 bits. */
  lemma Fragments(t: int, u: int, sum: int)
    requires 0 <= u && 0 < sum < 0x1_0001_0000
    requires if sum < 0x1_0000_0000 then t == sum && u == sum - 1
             else t == sum - 0x1_0000_0000 && u == if t == 0 then 0xffff_ffff else t - 1
    ensures var end, last := u / 252 % 0x1_0000, if t % 252 == 0 then 252 else t % 252;
            && 0 < last <= 252 && 0 <= end < 0x1_0000 && 252 * end + last <= sum
            && (sum <= 252 * 0x1_0000 ==> end == (sum - 1) / 252 && 252 * end + last == sum)
  {
    var q := u / 252;
    DivMod(u, 252);
    DivMod(t, 252);
    DivMod(q, 0x1_0000);
    if sum <= 252 * 0x1_0000 { ModSmall(q, 0x1_0000); }
  }

  /** The fragments asked for never reach past the bytes, and cover them all up to the limit. */
  lemma Limits(fw: nat, config: nat)
    requires 0 < fw < 0x1_0000_0000 && config < 0x1_0000
    ensures var end, last := EndIndex(fw, config), LastPkt(fw, config);
            && 0 < last <= 252 && end < 0x1_0000 && 252 * end + last <= fw + config
            && (fw + config <= 252 * 0x1_0000 ==> end == (fw + config - 1) / 252 && 252 * end + last == fw + config)
  {
    var sum := fw + config;
    var t, u := sum % 0x1_0000_0000, (sum - 1) % 0x1_0000_0000;
    if sum < 0x1_0000_0000 {
      ModSmall(sum, 0x1_0000_0000);
      ModSmall(sum - 1, 0x1_0000_0000);
    } else {
      ModShift(sum - 0x1_0000_0000, 1, 0x1_0000_0000);
      ModSmall(sum - 0x1_0000_0000, 0x1_0000_0000);
      ModBelow(sum);
    }
    Fragments(t, u, sum);
  }

  class PatchSender {
    const fwLen: nat
    const config: seq<Byte>
    const endIndex: nat
    const lastPkt: nat
    var nodes: seq<Node>
    var sentFwLen: nat
    var sentConfigLen: nat
    var curIndex: nat
    /** The queued payloads in order, then the configuration. */
    ghost const all: seq<Byte>

    ghost predicate Valid()
      reads this
    {
      && fwLen == PayloadSum(nodes) && Payloads(nodes) + config == all && |all| == fwLen + |config|
      && SentUpTo(nodes, sentFwLen) && sentFwLen <= fwLen
      && sentConfigLen <= |config| && (sentConfigLen > 0 ==> sentFwLen == fwLen)
    }

    ghost function Position(): nat
      reads this
    {
      sentFwLen + sentConfigLen
    }

    /** The end of _get_patch_info. */
    constructor (q: seq<Node>, config: seq<Byte>)
      requires forall i :: 0 <= i < |q| ==> q[i].sent == 0
      ensures Valid() && Position() == 0 && curIndex == 0
      ensures fwLen == PayloadSum(q) && this.config == config && all == Payloads(q) + config
      ensures endIndex == EndIndex(fwLen, |config|) && lastPkt == LastPkt(fwLen, |config|)
    {
      nodes, sentFwLen, sentConfigLen, curIndex := q, 0, 0, 0;
      fwLen := PayloadSum(q);
      this.config := config;
      all := Payloads(q) + config;
      endIndex := EndIndex(PayloadSum(q), |config|);
      lastPkt := LastPkt(PayloadSum(q), |config|);
      SentNone(q);
      PayloadsLength(q);
    }

    /** Copying n bytes of node m: the next n of all payloads, since what is before them has been sent. */
    method TakeFromNode(m: nat, n: nat) returns (piece: seq<Byte>)
      requires m < |nodes| && SentUpTo(nodes, sentFwLen)
      requires PayloadSum(nodes[..m]) <= sentFwLen && sentFwLen + n <= PayloadSum(nodes[..m]) + |nodes[m].payload|
      modifies this`nodes, this`sentFwLen
      ensures |nodes| == |old(nodes)| && SentUpTo(nodes, sentFwLen) && Payloads(nodes) == Payloads(old(nodes))
      ensures sentFwLen == old(sentFwLen) + n <= |Payloads(nodes)|
              && piece == Payloads(nodes)[old(sentFwLen)..sentFwLen]
      ensures PayloadSum(nodes) == PayloadSum(old(nodes)) && PayloadSum(nodes[..m]) == PayloadSum(old(nodes)[..m])
      ensures nodes[m].payload == old(nodes)[m].payload && nodes[m].sent == sentFwLen - PayloadSum(nodes[..m])
      ensures PayloadSum(nodes[..m + 1]) == PayloadSum(old(nodes)[..m + 1])
    {
      hide Payloads, PayloadSum, SentUpTo;
      SendFromNode(nodes, sentFwLen, m, n);
      SumKept(nodes, m, n);
      piece := nodes[m].payload[nodes[m].sent..nodes[m].sent + n];
      sentFwLen := sentFwLen + n;
      nodes := nodes[m := nodes[m].(sent := nodes[m].sent + n)];
    }

    /** The loop over the queue: fill up to dataLen bytes from the nodes not sent yet. */
    method FillFromNodes(dataLen: nat) returns (ok: bool, data: seq<Byte>)
      requires Valid()
      modifies this`nodes, this`sentFwLen
      ensures ok && Valid() && old(sentFwLen) <= sentFwLen
      ensures data == Payloads(old(nodes))[old(sentFwLen)..sentFwLen] && Payloads(nodes) == Payloads(old(nodes))
      ensures |data| <= dataLen && (|data| < dataLen ==> sentFwLen == fwLen)
    {
      hide Payloads, PayloadSum, SentUpTo;
      ghost var fw := Payloads(nodes);
      PayloadsLength(nodes);
      data := [];
      var remainLen := dataLen;
      var totalNodeLen := 0;
      var m := 0;
      NoSum(nodes);
      while m < |nodes|
        invariant 0 <= m <= |nodes| && totalNodeLen == PayloadSum(nodes[..m]) <= sentFwLen <= fwLen
        invariant old(sentFwLen) <= sentFwLen && Payloads(nodes) == fw
        invariant PayloadSum(nodes) == fwLen == |fw| && SentUpTo(nodes, sentFwLen)
        invariant 0 <= remainLen && remainLen + (sentFwLen - old(sentFwLen)) == dataLen
                  && data == fw[old(sentFwLen)..sentFwLen]
      {
        SumNext(nodes, m);
        ghost var before := sentFwLen;
        totalNodeLen := totalNodeLen + |nodes[m].payload|;
        if sentFwLen < totalNodeLen {
          SentAt(nodes, sentFwLen, m);
          var last := sentFwLen + remainLen < totalNodeLen;
          var sendingLen: nat := if last then remainLen else |nodes[m].payload| - nodes[m].sent;
          var piece := TakeFromNode(m, sendingLen);
          Extended(fw, old(sentFwLen), before, sentFwLen);
          data := data + piece;
          remainLen := remainLen - sendingLen;
          if last {
            break;
          } else if |nodes[m].payload| != nodes[m].sent {
            return false, data;
          }
        }
        m := m + 1;
      }
      WholeSum(nodes);
      ok := true;
    }

    /**
     * hci_get_patch_cmd_len after the first call has parsed the file: room for the index byte and all that is left, or
     * a full fragment if more is left, as long as the fragments are within the 16 bits of their index.
     */
    method GetCmdLen() returns (cmdLen: nat)
      requires Valid() && 0 < fwLen < 0x1_0000_0000 && |config| < 0x1_0000
      requires endIndex == EndIndex(fwLen, |config|) && lastPkt == LastPkt(fwLen, |config|)
      requires curIndex <= endIndex && Position() == 252 * curIndex
      ensures cmdLen == FragLen(curIndex, endIndex, lastPkt) + 1
      ensures 1 < cmdLen <= 253 && Position() + (cmdLen - 1) <= |all|
      ensures |all| <= 252 * 0x1_0000 ==> cmdLen - 1 == if |all| - Position() <= 252 then |all| - Position() else 252
    {
      hide EndIndex, LastPkt, SentUpTo, PayloadSum, Payloads;
      Limits(fwLen, |config|);
      if curIndex == endIndex { return lastPkt + 1; }
      return 252 + 1;
    }

    /** hci_get_patch_cmd_buf: index byte and data; ok is false exactly when the last check finds configuration left. */
    method GetCmdBuf(cmdLen: nat) returns (ok: bool, cmd: seq<Byte>)
      requires Valid() && 1 <= cmdLen <= 253 && Position() + (cmdLen - 1) <= |all|
      modifies this
      ensures Valid() && Position() == old(Position()) + (cmdLen - 1)
      ensures cmd == [if old(curIndex) == endIndex then Index(old(curIndex)) + 0x80 else Index(old(curIndex))]
                     + all[old(Position())..Position()]
      ensures ok <==> (old(curIndex) == endIndex ==> sentConfigLen == |config|)
      ensures curIndex == if old(curIndex) == endIndex then endIndex else old(curIndex) + 1
    {
      hide Payloads, PayloadSum, SentUpTo, Index;
      IndexSuccessor(curIndex);
      var dataLen := cmdLen - 1;
      var index: Byte := if curIndex == endIndex then Index(curIndex) + 0x80 else Index(curIndex);
      ghost var fw, p0, c0 := Payloads(nodes), Position(), sentConfigLen;
      PayloadsLength(nodes);
      var data;
      ok, data := FillFromNodes(dataLen);
      if !ok { return false, [index] + data; }
      var remainLen := dataLen - |data|;
      if remainLen > 0 {
        if fwLen != sentFwLen { return false, [index] + data; }
        data := data + config[sentConfigLen..sentConfigLen + remainLen];
        sentConfigLen := sentConfigLen + remainLen;
      }
      FragmentBytes(fw, config, old(sentFwLen), sentFwLen, c0, sentConfigLen);
      cmd := [index] + data;
      if curIndex == endIndex {
        ok := |config| == sentConfigLen;
      } else {
        curIndex := curIndex + 1;
      }
    }
  }

  datatype Status = HciFail | HciSuccess | HciIgnore

  lemma FragLens(i: nat, end: nat, last: nat)
    requires i <= end && 0 < last <= 252
    ensures 252 * i + FragLen(i, end, last) <= 252 * end + last && FragLen(i, end, last) <= 252
    ensures i < end ==> FragLen(i, end, last) == 252
    ensures i == end ==> FragLen(i, end, last) == last
  {}

  lemma FrameIs(all: seq<Byte>, i: nat, end: nat, last: nat, cmd: seq<Byte>)
    requires i <= end && 0 < last <= 252 && 252 * end + last <= |all|
    requires cmd == [if i == end then Index(i) + 0x80 else Index(i)] + all[252 * i..252 * i + FragLen(i, end, last)]
    ensures 252 * i + FragLen(i, end, last) <= |all|
    ensures [0x01, 0x20, 0xfc, FragLen(i, end, last) + 1] + cmd == Frame(all, i, end, last)
  {
    hide Index;
  }

  lemma NoData()
    ensures Data([]) == []
  {}

  lemma MoreData(trace: seq<seq<Byte>>, all: seq<Byte>, i: nat, end: nat, last: nat)
    requires |trace| == i <= end && 0 < last <= 252 && 252 * end + last <= |all| && Data(trace) == all[..252 * i]
    ensures Data(trace + [Frame(all, i, end, last)]) == all[..252 * i + FragLen(i, end, last)]
  {
    var t := trace + [Frame(all, i, end, last)];
    assert t[..|t| - 1] == trace;
    assert Frame(all, i, end, last)[5..] == all[252 * i..252 * i + FragLen(i, end, last)];
  }

  /** The last check fails only when the fragment index was cut short. */
  lemma CutShort(all: seq<Byte>, fw: nat, config: seq<Byte>, i: nat, end: nat, last: nat, s: nat, c: nat)
    requires |config| < 0x1_0000 && 0 < fw < 0x1_0000_0000 && |all| == fw + |config|
    requires end == EndIndex(fw, |config|) && last == LastPkt(fw, |config|) && i == end
    requires s + c == 252 * end + last && s <= fw && c < |config|
    ensures |all| > 252 * 0x1_0000 && all[..252 * i] < all
  {
    Limits(fw, |config|);
  }

  lemma AllFrames(all: seq<Byte>, trace: seq<seq<Byte>>, end: nat, last: nat)
    requires 0 < |all| && end == (|all| - 1) / 252 && last == |all| - 252 * end && |trace| == end + 1
    requires forall j :: 0 <= j <= end ==> trace[j] == Frame(all, j, end, last)
    ensures trace == Frames(all)
  {
    hide Frame;
  }

  lemma ProperPrefix(all: seq<Byte>, n: nat)
    requires n < |all|
    ensures all[..n] < all
  {}

  lemma Finished(all: seq<Byte>, fw: nat, config: nat, trace: seq<seq<Byte>>, end: nat, last: nat)
    requires config < 0x1_0000 && 0 < fw < 0x1_0000_0000 && |all| == fw + config
    requires end == EndIndex(fw, config) && last == LastPkt(fw, config) && |trace| == end + 1
    requires 252 * end + last <= |all| && Data(trace) == all[..252 * end + last]
    requires forall j :: 0 <= j <= end ==> trace[j] == Frame(all, j, end, last)
    ensures |all| <= 252 * 0x1_0000 ==> trace == Frames(all)
    ensures |all| > 252 * 0x1_0000 ==> Data(trace) < all
  {
    hide Frame, Data, EndIndex, LastPkt, Frames;
    Limits(fw, config);
    if |all| <= 252 * 0x1_0000 {
      assert last == |all| - 252 * end && end == (|all| - 1) / 252;
      AllFrames(all, trace, end, last);
    } else {
      ProperPrefix(all, 252 * end + last);
    }
  }

  /** The download loop from the first fragment on. */
  method SendAll(sender: PatchSender) returns (ret: Status, trace: seq<seq<Byte>>)
    requires sender.Valid() && sender.Position() == 0 && sender.curIndex == 0
    requires 0 < sender.fwLen < 0x1_0000_0000 && |sender.config| < 0x1_0000
    requires sender.endIndex == EndIndex(sender.fwLen, |sender.config|)
             && sender.lastPkt == LastPkt(sender.fwLen, |sender.config|)
    modifies sender
    ensures |sender.all| <= 252 * 0x1_0000 ==> ret.HciSuccess? && trace == Frames(sender.all)
    ensures |sender.all| > 252 * 0x1_0000 ==> Data(trace) < sender.all && (ret.HciSuccess? <==> sender.config == [])
  {
    hide Payloads, PayloadSum, SentUpTo, Index, Data, EndIndex, LastPkt, Frame;
    ghost var all, end, last := sender.all, sender.endIndex, sender.lastPkt;
    Limits(sender.fwLen, |sender.config|);
    NoData();
    trace := [];
    ret := HciSuccess;
    var i := 0;
    while true
      invariant 0 <= i <= end && sender.Valid() && sender.curIndex == i && sender.Position() == 252 * i
      invariant |trace| == i && Data(trace) == all[..252 * i]
      invariant forall j :: 0 <= j < i ==> trace[j] == Frame(all, j, end, last)
      decreases end - i
    {
      FragLens(i, end, last);
      var cmdLen := sender.GetCmdLen();
      var ok, cmd := sender.GetCmdBuf(cmdLen);
      if !ok {
        CutShort(all, sender.fwLen, sender.config, i, end, last, sender.sentFwLen, sender.sentConfigLen);
        return HciFail, trace;
      }
      IndexSuccessor(i);
      FrameIs(all, i, end, last, cmd);
      MoreData(trace, all, i, end, last);
      trace := trace + [[0x01, 0x20, 0xfc, cmdLen] + cmd];
      if cmd[0] >= 0x80 { break; }
      i := i + 1;
    }
    Finished(all, sender.fwLen, |sender.config|, trace, end, last);
  }

  lemma QueuedTotal(sel: seq<Node>, q: seq<Node>, fw: nat)
    requires Queued([], 0, sel, q, fw) && PayloadSum(sel) < 0x1_0000_0000
    ensures q == InsertAll([], sel) && fw == PayloadSum(sel)
  {}

  lemma {:induction false} PickBytes(kind: nat, es: seq<Entry>, chip: Byte, key: Byte)
    ensures PayloadSum(Pick(kind, es, chip, key)) <= |EncodeEntries(es)|
  {
    if es != [] {
      PickBytes(kind, es[1..], chip, key);
      PickNext(kind, es, chip, key);
      PickStart(kind, es[1..], chip, key);
      if Wanted(kind, es[0], chip, key) {
        InsertAllAppend([], [NodeOf(kind, es[0])], Pick(kind, es[1..], chip, key));
        assert PayloadSum([NodeOf(kind, es[0])]) == |es[0].payload| by { assert [NodeOf(kind, es[0])][1..] == []; }
      }
    }
  }

  lemma {:induction false} PassBytes(ss: seq<Section>, chip: Byte, key: Byte)
    ensures PayloadSum(FirstPass(ss, chip, key)) + (if key != 0 then PayloadSum(SecondPass(ss, chip, key)) else 0)
            <= |EncodeSections(ss)|
  {
    if ss != [] {
      hide Pick, EncodeEntries, PayloadSum;
      PassBytes(ss[1..], chip, key);
      InsertAllAppend([], FirstOf(ss[0], chip, key), FirstPass(ss[1..], chip, key));
      InsertAllAppend([], SecondOf(ss[0], chip, key), SecondPass(ss[1..], chip, key));
      NoSum([]);
      if ss[0].Patch? { PickBytes(ss[0].opcode, ss[0].entries, chip, key); }
    } else {
      NoSum([]);
    }
  }

  /** No byte of the file is selected twice, so the counted length fits its 32 bits. */
  lemma SelectedFits(buf: seq<Byte>, ss: seq<Section>, chip: Byte, key: Byte)
    requires WellFormed(buf, ss) && |buf| < 0x1_0000_0000
    ensures PayloadSum(Selected(ss, chip, key)) < 0x1_0000_0000
  {
    hide FirstPass, SecondPass, PayloadSum, SectionFits, LeBytes, HasKind;
    PassBytes(ss, chip, key);
    SectionsAt(buf, ss);
    InsertAllAppend([], FirstPass(ss, chip, key), SecondPass(ss, chip, key));
  }

  lemma {:induction false} UnsentPick(kind: nat, es: seq<Entry>, chip: Byte, key: Byte)
    ensures forall i :: 0 <= i < |Pick(kind, es, chip, key)| ==> Pick(kind, es, chip, key)[i].sent == 0
  {
    if es != [] { UnsentPick(kind, es[1..], chip, key); }
  }

  lemma {:induction false} UnsentFirst(ss: seq<Section>, chip: Byte, key: Byte)
    ensures forall i :: 0 <= i < |FirstPass(ss, chip, key)| ==> FirstPass(ss, chip, key)[i].sent == 0
  {
    if ss != [] {
      UnsentFirst(ss[1..], chip, key);
      if ss[0].Patch? { UnsentPick(ss[0].opcode, ss[0].entries, chip, key); }
    }
  }

  lemma {:induction false} UnsentSecond(ss: seq<Section>, chip: Byte, key: Byte)
    ensures forall i :: 0 <= i < |SecondPass(ss, chip, key)| ==> SecondPass(ss, chip, key)[i].sent == 0
  {
    if ss != [] {
      UnsentSecond(ss[1..], chip, key);
      if ss[0].Patch? { UnsentPick(2, ss[0].entries, chip, key); }
    }
  }

  /** No selected node has been sent yet. */
  lemma Unsent(ss: seq<Section>, chip: Byte, key: Byte)
    ensures var q := InsertAll([], Selected(ss, chip, key));
            forall i :: 0 <= i < |q| ==> q[i].sent == 0
  {
    var sel := Selected(ss, chip, key);
    UnsentFirst(ss, chip, key);
    UnsentSecond(ss, chip, key);
    InsertAllOrder([], sel, 0);
    var q := InsertAll([], sel);
    forall i | 0 <= i < |q| ensures q[i].sent == 0 {
      assert q[i] in multiset(q);
      assert q[i] in multiset(sel);
    }
  }

  /**
   * hci_download_patch_v2 with a controller that accepts every command and echoes the index byte. The length of the
   * configuration file is taken in 16 bits. Up to 252 * 65536 bytes the commands carry the queued payloads in order
   * and then the configuration; beyond that the 16-bit fragment index loses some of them, and this is reported as
   * success exactly if there is no configuration.
   */
  method Download(buf: seq<Byte>, ghost ss: seq<Section>, file: seq<Byte>, chip: Byte, key: Byte)
    returns (ret: Status, trace: seq<seq<Byte>>)
    requires WellFormed(buf, ss) && |buf| < 0x1_0000_0000
    ensures var config := ConfigOf(file);
            var fw := PayloadSum(Selected(ss, chip, key));
            var all := Payloads(InsertAll([], Selected(ss, chip, key))) + config;
            && |all| == fw + |config|
            && (fw == 0 ==> ret.HciIgnore? && trace == [])
            && (fw > 0 && |all| <= 252 * 0x1_0000 ==>
                  ret.HciSuccess? && trace == Frames(all) && FragmentsRead(trace, all))
            && (fw > 0 && |all| > 252 * 0x1_0000 ==>
                  Data(trace) < all && (ret.HciSuccess? <==> config == []))
  {
    hide WellFormed, Selected, Payloads, PayloadSum, InsertAll, Index, Data, SentUpTo, Frames, Queued, FragmentsRead;
    ghost var sel := Selected(ss, chip, key);
    var parser := new PatchParser(chip, key);
    parser.ParsePatch(buf, ss);
    QueueProperties(ss, chip, key, 0);
    SelectedFits(buf, ss, chip, key);
    QueuedTotal(sel, parser.nodes, parser.fwLen);
    if parser.fwLen == 0 { return HciIgnore, []; }
    Unsent(ss, chip, key);
    var sender := new PatchSender(parser.nodes, ConfigOf(file));
    ret, trace := SendAll(sender);
    FramesRead(sender.all);
  }

  lemma {:induction false} FramesPrefix(all: seq<Byte>, n: nat)
    requires 0 < |all| && n <= (|all| - 1) / 252
    ensures Data(Frames(all)[..n]) == all[..252 * n]
  {
    hide Data, Frame;
    NoData();
    if n > 0 {
      FramesPrefix(all, n - 1);
      var end := (|all| - 1) / 252;
      assert Frames(all)[..n] == Frames(all)[..n - 1] + [Frames(all)[n - 1]];
      MoreData(Frames(all)[..n - 1], all, n - 1, end, |all| - 252 * end);
    }
  }

  /** A complete trace carries every byte once and in order. */
  lemma FramesData(all: seq<Byte>)
    requires 0 < |all|
    ensures Data(Frames(all)) == all && |Frames(all)| == (|all| + 251) / 252
  {
    hide Data, Frame;
    var end := (|all| - 1) / 252;
    NoData();
    FramesPrefix(all, end);
    assert Frames(all)[..end] + [Frames(all)[end]] == Frames(all);
    MoreData(Frames(all)[..end], all, end, end, |all| - 252 * end);
  }

  // ---- a download that loses bytes -------------------------------------------------------------

  /** A file with one snippet for chip 1. */
  function OneSnippet(payload: seq<Byte>): Section { Patch(1, [0, 0], [Entry(1, 0, 0, 0, payload)], []) }

  function FileOf(s: Section): seq<Byte> { seq(16, _ => 0) + (LeBytes(1, 4) + EncodeSections([s])) }

  lemma OneSnippetFile(payload: seq<Byte>)
    requires |payload| < 0x8000_0000
    ensures WellFormed(FileOf(OneSnippet(payload)), [OneSnippet(payload)])
            && |FileOf(OneSnippet(payload))| < 0x1_0000_0000
    ensures PayloadSum(Selected([OneSnippet(payload)], 1, 0)) == |payload|
    ensures Payloads(InsertAll([], Selected([OneSnippet(payload)], 1, 0))) == payload
  {
    hide LeBytes;
    var s := OneSnippet(payload);
    var e := s.entries[0];
    assert s.entries[1..] == [] && [s][1..] == [];
    assert |EncodeEntries([e])| == |payload| + 8;
    assert |Body(s)| == |payload| + 12;
    assert |EncodeSections([s])| == |payload| + 20;
    var buf := FileOf(s);
    assert buf[16..16 + |buf| - 16] == LeBytes(1, 4) + EncodeSections([s]);
    var n := NodeOf(1, e);
    assert Pick(1, [e], 1, 0) == [n] + [];
    assert FirstPass([s], 1, 0) == Pick(1, s.entries, 1, 0) + FirstPass([s][1..], 1, 0);
    assert Selected([s], 1, 0) == [n];
    assert [n][1..] == [] && Insert([], n) == [n];
    assert InsertAll([], [n]) == InsertAll([n], []);
  }

  /** One byte more than 65536 fragments hold, and no configuration: bytes are lost and success is reported. */
  method OverLimit() returns (buf: seq<Byte>, ret: Status, trace: seq<seq<Byte>>)
    ensures ret.HciSuccess? && |Data(trace)| <= 252 * 0x1_0000
    ensures var payload := seq(252 * 0x1_0000 + 1, _ => 0);
            buf == FileOf(OneSnippet(payload)) && WellFormed(buf, [OneSnippet(payload)])
  {
    hide Data, Frames, WellFormed, Selected, Payloads, PayloadSum, InsertAll, FileOf;
    var payload: seq<Byte> := seq(252 * 0x1_0000 + 1, _ => 0);
    OneSnippetFile(payload);
    buf := FileOf(OneSnippet(payload));
    ret, trace := Download(buf, [OneSnippet(payload)], [], 1, 0);
    assert payload + [] == payload;
  }
}
