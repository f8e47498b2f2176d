/**
 * Bluetooth firmware download, version 3: every accepted image section is announced by register
 * writes and sent in its own fragments, the configuration behind the image parsed first, and a
 * final packet ends the download.
 */
module PatchV3 {
  import opened Arith
  import opened Lists
  import opened LittleEndian
  import opened PatchIndex
  import opened PatchWire

  // ---- the file format ---------------------------------------------------------------

  /** An image section: identification, two registers with 64-bit fields, priority and image. */
  datatype Image = Image(
    chipId: nat, icCut: Byte, keyId: Byte, otaEn: Byte, filler: seq<Byte>,
    addr0: nat, value0: nat, addr1: nat, value1: nat, priority: Byte, data: seq<Byte>, slack: seq<Byte>)

  datatype Section = Patch(image: Image) | Other(opcode: nat, body: seq<Byte>)

  /** The 1024 bytes of information in front of the image length. */
  function Info(m: Image): seq<Byte> {
    LeBytes(m.chipId, 2) + [m.icCut] + [m.keyId] + [m.otaEn] + m.filler
      + LeBytes(m.addr0, 8) + LeBytes(m.value0, 8) + LeBytes(m.addr1, 8) + LeBytes(m.value1, 8) + [m.priority]
  }

  function Body(s: Section): seq<Byte> {
    match s
    case Patch(m) => Info(m) + LeBytes(|m.data|, 8) + m.data + m.slack
    case Other(_, body) => body
  }

  function Opcode(s: Section): nat { if s.Patch? then 1 else s.opcode }

  function EncodeSection(s: Section): seq<Byte> {
    LeBytes(Opcode(s), 4) + LeBytes(|Body(s)|, 8) + Body(s)
  }

  function EncodeSections(ss: seq<Section>): seq<Byte> {
    if ss == [] then [] else EncodeSection(ss[0]) + EncodeSections(ss[1..])
  }

  ghost predicate SectionFits(s: Section) {
    && Opcode(s) < 0x1_0000_0000 && |Body(s)| < 0x1_0000_0000
    && (s.Other? ==> s.opcode != 1)
    && (s.Patch? ==>
          && s.image.chipId < 0x1_0000 && |s.image.filler| == 986
          && s.image.addr0 < 0x1_0000_0000_0000_0000 && s.image.value0 < 0x1_0000_0000_0000_0000
          && s.image.addr1 < 0x1_0000_0000_0000_0000 && s.image.value1 < 0x1_0000_0000_0000_0000)
  }

  /** The file: a signature, two version numbers and a reserved word, then the sections. */
  ghost predicate WellFormed(buf: seq<Byte>, ss: seq<Section>) {
    && |ss| < 0x1_0000_0000 && (forall i :: 0 <= i < |ss| ==> SectionFits(ss[i]))
    && 20 <= |buf| && At(buf, 20, LeBytes(|ss|, 4) + EncodeSections(ss))
  }

  // ---- the queue ----------------------------------------------------------------------

  /** A queued section. first marks the one parsed first, which carries the configuration. */
  datatype Node = Node(
    priority: Byte, addr0: nat, value0: nat, addr1: nat, value1: nat, image: seq<Byte>, first: bool,
    end: nat, last: nat, checked: bool, cur: nat, sent: nat)

  /** The fragments the bytes of a section take. */
  function Count(total: nat): nat { (total + 251) / 252 }

  /** end_index and last_pkt as computed from a 32-bit length, in 16 and 8 bits. */
  function EndOf(total: nat): nat { ((total - 1) % 0x1_0000_0000 / 252 + 1) % 0x1_0000 }

  function LastOf(total: nat): nat {
    var r := total % 0x1_0000_0000 % 252;
    if r == 0 then 252 else r
  }

  function NodeOf(m: Image, first: bool, configLen: nat): Node {
    var total := if first then |m.data| + configLen else |m.data|;
    Node(m.priority, m.addr0 % 0x1_0000_0000, m.value0 % 0x1_0000_0000, m.addr1 % 0x1_0000_0000,
         m.value1 % 0x1_0000_0000, m.data, first, EndOf(total), LastOf(total), false, 1, 0)
  }

  /** The section is for this chip and key, and has data. */
  predicate Accepts(s: Section, chip: Byte, key: Byte) {
    && s.Patch? && s.image.chipId == 0x28 && s.image.icCut == chip && s.image.keyId == key && s.image.otaEn == 0
    && s.image.data != []
  }

  /** The nodes of the accepted sections in file order, n being queued already and at most 64 in all. */
  function Accepted(ss: seq<Section>, n: nat, chip: Byte, key: Byte, configLen: nat): seq<Node> {
    if ss == [] then []
    else if Accepts(ss[0], chip, key) && n < 64 then
      [NodeOf(ss[0].image, n == 0, configLen)] + Accepted(ss[1..], n + 1, chip, key, configLen)
    else Accepted(ss[1..], n, chip, key, configLen)
  }

  function Insert(q: seq<Node>, n: Node): seq<Node> {
    if q == [] || q[0].priority >= n.priority then [n] + q else [q[0]] + Insert(q[1..], n)
  }

  function InsertAll(q: seq<Node>, ns: seq<Node>): seq<Node>
    decreases |ns|
  {
    if ns == [] then q else InsertAll(Insert(q, ns[0]), ns[1..])
  }

  predicate Qualifies(n: Node) { n.value1 != 0 && n.addr1 != 0 && n.addr1 != 0xffff_ffff }

  /** _select_security_section_node */
  function Select(sec: Option<Node>, n: Node): Option<Node> {
    if Qualifies(n) && (sec.None? || n.priority > sec.value.priority) then Some(n) else sec
  }

  function SelectAll(sec: Option<Node>, ns: seq<Node>): Option<Node>
    decreases |ns|
  {
    if ns == [] then sec else SelectAll(Select(sec, ns[0]), ns[1..])
  }

  lemma {:induction false} SelectSnoc(sec: Option<Node>, ns: seq<Node>, n: Node)
    ensures SelectAll(sec, ns + [n]) == Select(SelectAll(sec, ns), n)
    decreases |ns|
  {
    hide Select;
    if ns == [] {
      assert ns + [n] == [n] && [n][1..] == [];
      assert SelectAll(sec, [n]) == SelectAll(Select(sec, n), []);
    } else {
      SelectSnoc(Select(sec, ns[0]), ns[1..], n);
      assert (ns + [n])[0] == ns[0] && (ns + [n])[1..] == ns[1..] + [n];
    }
  }

  lemma {:induction false} SelectIndex(ns: seq<Node>, n: nat) returns (i: nat)
    requires n <= |ns|
    ensures var sec := SelectAll(None, ns[..n]);
            if sec.None? then forall j :: 0 <= j < n ==> !Qualifies(ns[j])
            else i < n && ns[i] == sec.value && Qualifies(ns[i])
                 && (forall j :: 0 <= j < n && Qualifies(ns[j]) ==> ns[j].priority <= ns[i].priority)
                 && (forall j :: 0 <= j < i && Qualifies(ns[j]) ==> ns[j].priority < ns[i].priority)
  {
    i := 0;
    if n > 0 {
      i := SelectIndex(ns, n - 1);
      assert ns[..n] == ns[..n - 1] + [ns[n - 1]];
      SelectSnoc(None, ns[..n - 1], ns[n - 1]);
      var sec := SelectAll(None, ns[..n - 1]);
      if Qualifies(ns[n - 1]) && (sec.None? || ns[n - 1].priority > sec.value.priority) { i := n - 1; }
    }
  }

  /** The selected node qualifies, has the highest qualifying priority, and is the first such in file order. */
  lemma SelectedSecurity(ns: seq<Node>)
    ensures SelectAll(None, ns).None? ==> forall i :: 0 <= i < |ns| ==> !Qualifies(ns[i])
    ensures SelectAll(None, ns).Some? ==>
              exists i :: 0 <= i < |ns| && ns[i] == SelectAll(None, ns).value && Qualifies(ns[i])
                          && (forall j :: 0 <= j < |ns| && Qualifies(ns[j]) ==> ns[j].priority <= ns[i].priority)
                          && (forall j :: 0 <= j < i && Qualifies(ns[j]) ==> ns[j].priority < ns[i].priority)
  {
    var k := SelectIndex(ns, |ns|);
    assert ns[..|ns|] == ns;
  }

  // ---- parsing -------------------------------------------------------------------------

  function ImageSum(q: seq<Node>): nat {
    if q == [] then 0 else |q[0].image| + ImageSum(q[1..])
  }

  lemma InfoAt(buf: seq<Byte>, p: nat, m: Image)
    requires SectionFits(Patch(m)) && At(buf, p, Info(m))
    ensures p + 1024 <= |buf| && |Info(m)| == 1024
    ensures Read(buf, p, 2) == m.chipId && buf[p + 2] == m.icCut && buf[p + 3] == m.keyId && buf[p + 4] == m.otaEn
    ensures Read(buf, p + 991, 8) == m.addr0 && Read(buf, p + 999, 8) == m.value0
    ensures Read(buf, p + 1007, 8) == m.addr1 && Read(buf, p + 1015, 8) == m.value1 && buf[p + 1023] == m.priority
  {
    hide LeBytes, Read, At, Body;
    LePowers();
    var i0 := LeBytes(m.chipId, 2);
    var i1, i2, i3 := i0 + [m.icCut], i0 + [m.icCut] + [m.keyId], i0 + [m.icCut] + [m.keyId] + [m.otaEn];
    var i4 := i3 + m.filler;
    var i5 := i4 + LeBytes(m.addr0, 8);
    var i6 := i5 + LeBytes(m.value0, 8);
    var i7 := i6 + LeBytes(m.addr1, 8);
    var i8 := i7 + LeBytes(m.value1, 8);
    AtSplit(buf, p, i8, [m.priority]);
    AtSplit(buf, p, i7, LeBytes(m.value1, 8));
    AtSplit(buf, p, i6, LeBytes(m.addr1, 8));
    AtSplit(buf, p, i5, LeBytes(m.value0, 8));
    AtSplit(buf, p, i4, LeBytes(m.addr0, 8));
    AtSplit(buf, p, i3, m.filler);
    AtSplit(buf, p, i2, [m.otaEn]);
    AtSplit(buf, p, i1, [m.keyId]);
    AtSplit(buf, p, i0, [m.icCut]);
    AtNumber(buf, p, m.chipId, 2);
    AtByte(buf, p + 2, m.icCut);
    AtByte(buf, p + 3, m.keyId);
    AtByte(buf, p + 4, m.otaEn);
    AtNumber(buf, p + 991, m.addr0, 8);
    AtNumber(buf, p + 999, m.value0, 8);
    AtNumber(buf, p + 1007, m.addr1, 8);
    AtNumber(buf, p + 1015, m.value1, 8);
    AtByte(buf, p + 1023, m.priority);
  }

  lemma ImageAt(buf: seq<Byte>, p: nat, m: Image)
    requires SectionFits(Patch(m)) && At(buf, p, Body(Patch(m)))
    ensures At(buf, p, Info(m)) && |Info(m)| == 1024
    ensures p + 1032 + |m.data| <= |buf| && Read(buf, p + 1024, 8) == |m.data| && |m.data| < 0x1_0000_0000
    ensures buf[p + 1032..p + 1032 + |m.data|] == m.data
  {
    hide LeBytes, Read, At;
    LePowers();
    var len := LeBytes(|m.data|, 8);
    AtSplit(buf, p, Info(m) + len + m.data, m.slack);
    AtSplit(buf, p, Info(m) + len, m.data);
    AtSplit(buf, p, Info(m), len);
    InfoAt(buf, p, m);
    AtNumber(buf, p + 1024, |m.data|, 8);
    AtSlice(buf, p + 1032, m.data);
  }

  lemma SectionAt(buf: seq<Byte>, p: nat, ss: seq<Section>)
    requires ss != [] && At(buf, p, EncodeSections(ss)) && SectionFits(ss[0])
    ensures var n := |Body(ss[0])|;
            && p + 12 + n <= |buf| && Read(buf, p, 4) == Opcode(ss[0]) && Read(buf, p + 4, 8) == n
            && At(buf, p + 12, Body(ss[0])) && At(buf, p + 12 + n, EncodeSections(ss[1..]))
  {
    hide LeBytes, Read, Body, At, Opcode;
    var s := ss[0];
    LePowers();
    AtSplit(buf, p, EncodeSection(s), EncodeSections(ss[1..]));
    AtSplit(buf, p, LeBytes(Opcode(s), 4) + LeBytes(|Body(s)|, 8), Body(s));
    AtSplit(buf, p, LeBytes(Opcode(s), 4), LeBytes(|Body(s)|, 8));
    AtNumber(buf, p, Opcode(s), 4);
    AtNumber(buf, p + 4, |Body(s)|, 8);
    AtSlice(buf, p + 12, Body(s));
  }

  lemma SectionsAt(buf: seq<Byte>, ss: seq<Section>)
    requires WellFormed(buf, ss)
    ensures 24 <= |buf| && Read(buf, 20, 4) == |ss| && At(buf, 24, EncodeSections(ss))
    ensures forall i :: 0 <= i < |ss| ==> SectionFits(ss[i])
  {
    hide LeBytes, Read, EncodeSections, At, SectionFits;
    LePowers();
    AtSplit(buf, 20, LeBytes(|ss|, 4), EncodeSections(ss));
    AtNumber(buf, 20, |ss|, 4);
  }

  lemma {:induction false} InsertAt(q: seq<Node>, n: Node, i: nat)
    requires i <= |q| && (i < |q| ==> q[i].priority >= n.priority)
    requires forall j :: 0 <= j < i ==> q[j].priority < n.priority
    ensures Insert(q, n) == q[..i] + [n] + q[i..]
  {
    if i > 0 {
      var h, t := [q[0]], q[1..];
      InsertAt(t, n, i - 1);
      assert h + t[..i - 1] == q[..i] && t[i - 1..] == q[i..];
      assert h + (t[..i - 1] + [n] + t[i - 1..]) == (h + t[..i - 1]) + [n] + t[i - 1..];
    }
  }

  lemma OpcodeOne(s: Section)
    requires SectionFits(s)
    ensures Opcode(s) == 1 <==> s.Patch?
    ensures !s.Patch? ==> forall n, chip, key, configLen :: Accepted([s], n, chip, key, configLen) == []
  {
    if !s.Patch? {
      forall n: nat, chip: Byte, key: Byte, configLen: nat ensures Accepted([s], n, chip, key, configLen) == [] {
        assert [s][1..] == [];
        assert Accepted([s], n, chip, key, configLen) == Accepted([], n, chip, key, configLen);
      }
    }
  }

  lemma NoneQueued(ss: seq<Section>, chip: Byte, key: Byte, configLen: nat)
    ensures InsertAll([], []) == [] && SelectAll(None, []) == None && ImageSum([]) == 0
    ensures ss == [] ==> forall n :: Accepted(ss, n, chip, key, configLen) == []
    ensures [] + Accepted(ss, 0, chip, key, configLen) == Accepted(ss, 0, chip, key, configLen)
  {}

  lemma AcceptedOne(m: Image, n: nat, chip: Byte, key: Byte, configLen: nat)
    ensures var a := Accepted([Patch(m)], n, chip, key, configLen);
            && a == (if Accepts(Patch(m), chip, key) && n < 64 then [NodeOf(m, n == 0, configLen)] else [])
            && (forall q :: InsertAll(q, a) == if a == [] then q else Insert(q, a[0]))
            && (forall sec :: SelectAll(sec, a) == if a == [] then sec else Select(sec, a[0]))
            && ImageSum(a) == if a == [] then 0 else |a[0].image|
  {
    hide Insert, Select, NodeOf, Accepts;
    assert [Patch(m)][1..] == [];
    assert forall k :: Accepted([], k, chip, key, configLen) == [];
    var a := Accepted([Patch(m)], n, chip, key, configLen);
    if a != [] {
      var one := NodeOf(m, n == 0, configLen);
      assert a == [one] + Accepted([], n + 1, chip, key, configLen) == [one];
      assert a[1..] == [];
    }
  }

  lemma AcceptedNext(ss: seq<Section>, n: nat, chip: Byte, key: Byte, configLen: nat)
    requires ss != []
    ensures var a := Accepted([ss[0]], n, chip, key, configLen);
            Accepted(ss, n, chip, key, configLen) == a + Accepted(ss[1..], n + |a|, chip, key, configLen)
  {
    assert [ss[0]][1..] == [];
    assert Accepted([], n + 1, chip, key, configLen) == [] && Accepted([], n, chip, key, configLen) == [];
  }

  lemma {:induction false} QueueAppend(q: seq<Node>, sec: Option<Node>, ns: seq<Node>, ms: seq<Node>)
    ensures InsertAll(q, ns + ms) == InsertAll(InsertAll(q, ns), ms)
    ensures SelectAll(sec, ns + ms) == SelectAll(SelectAll(sec, ns), ms)
    ensures ImageSum(ns + ms) == ImageSum(ns) + ImageSum(ms)
    decreases |ns|
  {
    if ns == [] {
      assert ns + ms == ms;
    } else {
      QueueAppend(Insert(q, ns[0]), Select(sec, ns[0]), ns[1..], ms);
      assert (ns + ms)[0] == ns[0] && (ns + ms)[1..] == ns[1..] + ms;
    }
  }

  lemma QueueMore(done: seq<Node>, more: seq<Node>)
    ensures InsertAll([], done + more) == InsertAll(InsertAll([], done), more)
    ensures SelectAll(None, done + more) == SelectAll(SelectAll(None, done), more)
    ensures (ImageSum(done) % 0x1_0000_0000 + ImageSum(more)) % 0x1_0000_0000 == ImageSum(done + more) % 0x1_0000_0000
  {
    hide InsertAll, SelectAll, ImageSum;
    QueueAppend([], None, done, more);
  }

  class PatchParser {
    const chip: Byte
    const key: Byte
    const configLen: nat
    var nodes: seq<Node>
    var security: Option<Node>
    var sectionCnt: nat

    constructor (chip: Byte, key: Byte, configLen: nat)
      ensures nodes == [] && security.None? && sectionCnt == 0
      ensures this.chip == chip && this.key == key && this.configLen == configLen
    {
      this.chip, this.key, this.configLen := chip, key, configLen;
      nodes, security, sectionCnt := [], None, 0;
    }

    /** _insert_patch_queue */
    method InsertPatchQueue(n: Node)
      modifies this`nodes
      ensures nodes == Insert(old(nodes), n)
    {
      var i := 0;
      while i < |nodes|
        invariant 0 <= i <= |nodes| && nodes == old(nodes)
        invariant forall j :: 0 <= j < i ==> nodes[j].priority < n.priority
      {
        if nodes[i].priority >= n.priority { break; }
        i := i + 1;
      }
      InsertAt(nodes, n, i);
      nodes := nodes[..i] + [n] + nodes[i..];
    }

    /** _parse_patch_image: queue an accepted image and return its length, else 0. */
    method ParsePatchImage(buf: seq<Byte>, p: nat, ghost m: Image) returns (len: nat)
      requires SectionFits(Patch(m)) && At(buf, p, Body(Patch(m)))
      modifies this
      ensures var a := Accepted([Patch(m)], old(sectionCnt), chip, key, configLen);
              && nodes == InsertAll(old(nodes), a) && security == SelectAll(old(security), a)
              && sectionCnt == old(sectionCnt) + |a| && len == ImageSum(a)
    {
      hide At, Body, SectionFits, Info, Read, LeBytes, Insert, EndOf, LastOf, Select;
      ImageAt(buf, p, m);
      InfoAt(buf, p, m);
      AcceptedOne(m, sectionCnt, chip, key, configLen);
      var chipId := Read(buf, p, 2);
      var icCut, keyId, otaEn := buf[p + 2], buf[p + 3], buf[p + 4];
      if chipId != 0x28 || icCut != chip || keyId != key || otaEn != 0 { return 0; }
      if sectionCnt >= 64 { return 0; }
      var imageLen := Read(buf, p + 1024, 8);
      if imageLen == 0 { return 0; }
      sectionCnt := sectionCnt + 1;
      var total := if sectionCnt == 1 then imageLen + configLen else imageLen;
      var n := Node(
        buf[p + 1023], Read(buf, p + 991, 8) % 0x1_0000_0000, Read(buf, p + 999, 8) % 0x1_0000_0000,
        Read(buf, p + 1007, 8) % 0x1_0000_0000, Read(buf, p + 1015, 8) % 0x1_0000_0000,
        buf[p + 1032..p + 1032 + imageLen], sectionCnt == 1, EndOf(total), LastOf(total), false, 1, 0);
      assert n == NodeOf(m, old(sectionCnt) == 0, configLen);
      InsertPatchQueue(n);
      security := Select(security, n);
      len := imageLen;
    }

    /** _parse_sections */
    method ParseSections(buf: seq<Byte>, ghost ss: seq<Section>) returns (fwLen: nat)
      requires WellFormed(buf, ss) && nodes == [] && security.None? && sectionCnt == 0
      modifies this
      ensures var a := Accepted(ss, 0, chip, key, configLen);
              && nodes == InsertAll([], a) && security == SelectAll(None, a) && fwLen == ImageSum(a) % 0x1_0000_0000
    {
      hide At, Body, SectionFits, Read, Insert, EncodeSections, InsertAll, SelectAll, ImageSum, Accepted;
      SectionsAt(buf, ss);
      NoneQueued(ss, chip, key, configLen);
      var sectionNum := Read(buf, 20, 4);
      fwLen := 0;
      if sectionNum == 0 { return; }
      var position: nat := 24;
      ghost var rest := ss;
      ghost var done: seq<Node> := [];
      var i := 0;
      while i < sectionNum
        invariant 0 <= i <= sectionNum == |ss| && rest == ss[i..] && sectionCnt == |done|
        invariant At(buf, position, EncodeSections(rest))
        invariant nodes == InsertAll([], done) && security == SelectAll(None, done)
                  && fwLen == ImageSum(done) % 0x1_0000_0000
        invariant Accepted(ss, 0, chip, key, configLen) == done + Accepted(rest, |done|, chip, key, configLen)
      {
        SectionAt(buf, position, rest);
        AcceptedNext(rest, |done|, chip, key, configLen);
        OpcodeOne(rest[0]);
        var opcode := Read(buf, position, 4);
        var payloadLen := Read(buf, position + 4, 8);
        ghost var more := Accepted([rest[0]], |done|, chip, key, configLen);
        QueueMore(done, more);
        if opcode == 1 {
          var n := ParsePatchImage(buf, position + 12, rest[0].image);
          fwLen := (fwLen + n) % 0x1_0000_0000;
        } else {
          assert done + [] == done;
        }
        done := done + more;
        position := position + 12 + payloadLen;
        rest := rest[1..];
        i := i + 1;
      }
      NoneQueued(rest, chip, key, configLen);
      assert done + [] == done;
    }
  }

  // ---- what the queue holds ------------------------------------------------------------

  /** Exactly one queued section, the one parsed first, carries the configuration. */
  ghost predicate OneFirst(q: seq<Node>) {
    exists i :: 0 <= i < |q| && q[i].first && forall j :: 0 <= j < |q| && j != i ==> !q[j].first
  }

  ghost predicate Ascending(q: seq<Node>) {
    forall i, j :: 0 <= i < j < |q| ==> q[i].priority <= q[j].priority
  }

  lemma {:induction false} Inserted(q: seq<Node>, n: Node) returns (i: nat)
    ensures i <= |q| && Insert(q, n) == q[..i] + [n] + q[i..]
    ensures i < |q| ==> q[i].priority >= n.priority
    ensures forall j :: 0 <= j < i ==> q[j].priority < n.priority
  {
    i := 0;
    while i < |q| && q[i].priority < n.priority
      invariant i <= |q| && forall j :: 0 <= j < i ==> q[j].priority < n.priority
    {
      i := i + 1;
    }
    InsertAt(q, n, i);
  }

  lemma InsertedAscending(q: seq<Node>, n: Node, i: nat)
    requires i <= |q| && (i < |q| ==> q[i].priority >= n.priority)
    requires forall j :: 0 <= j < i ==> q[j].priority < n.priority
    ensures Ascending(q) ==> Ascending(q[..i] + [n] + q[i..])
  {
    var r := q[..i] + [n] + q[i..];
    assert forall j :: 0 <= j < |r| ==> r[j] == if j < i then q[j] else if j == i then n else q[j - 1];
  }

  lemma ShiftedFirst(q: seq<Node>, r: seq<Node>, n: Node, i: nat, k: nat)
    requires i <= |q| && k < |q| && q[k].first && !n.first && |r| == |q| + 1
    requires r[i] == n && forall j :: 0 <= j < |q| ==> q[j] == r[if j < i then j else j + 1]
    requires forall j :: 0 <= j < |q| && j != k ==> !q[j].first
    ensures OneFirst(r)
  {
    var l := if k < i then k else k + 1;
    assert q[k] == r[l];
    forall j | 0 <= j < |r| && j != l ensures !r[j].first {
      if j != i {
        var m := if j < i then j else j - 1;
        assert q[m] == r[j];
      }
    }
  }

  lemma InsertedFirst(q: seq<Node>, n: Node, i: nat)
    requires i <= |q|
    ensures OneFirst(q) && !n.first ==> OneFirst(q[..i] + [n] + q[i..])
  {
    if OneFirst(q) && !n.first {
      var r := q[..i] + [n] + q[i..];
      var k :| 0 <= k < |q| && q[k].first && forall j :: 0 <= j < |q| && j != k ==> !q[j].first;
      ShiftedFirst(q, r, n, i, k);
    }
  }

  lemma ImageSumOne(n: Node)
    ensures ImageSum([n]) == |n.image|
  {
    assert [n][1..] == [];
  }

  lemma {:induction false} ImageSumAppend(q: seq<Node>, r: seq<Node>)
    ensures ImageSum(q + r) == ImageSum(q) + ImageSum(r)
  {
    if q == [] {
      assert q + r == r;
    } else {
      ImageSumAppend(q[1..], r);
      assert (q + r)[1..] == q[1..] + r && (q + r)[0] == q[0];
    }
  }

  lemma InsertKeeps(q: seq<Node>, n: Node)
    ensures multiset(Insert(q, n)) == multiset(q) + multiset{n}
    ensures Ascending(q) ==> Ascending(Insert(q, n))
    ensures OneFirst(q) && !n.first ==> OneFirst(Insert(q, n))
    ensures ImageSum(Insert(q, n)) == ImageSum(q) + |n.image|
  {
    hide Insert, ImageSum, OneFirst, Ascending;
    var i := Inserted(q, n);
    assert q == q[..i] + q[i..];
    InsertedFirst(q, n, i);
    InsertedAscending(q, n, i);
    ImageSumAppend(q[..i], q[i..]);
    ImageSumAppend(q[..i] + [n], q[i..]);
    ImageSumAppend(q[..i], [n]);
    ImageSumOne(n);
  }

  lemma {:induction false} InsertAllKeeps(q: seq<Node>, ns: seq<Node>)
    ensures multiset(InsertAll(q, ns)) == multiset(q) + multiset(ns)
    ensures Ascending(q) ==> Ascending(InsertAll(q, ns))
    ensures OneFirst(q) && (forall i :: 0 <= i < |ns| ==> !ns[i].first) ==> OneFirst(InsertAll(q, ns))
    ensures ImageSum(InsertAll(q, ns)) == ImageSum(q) + ImageSum(ns)
    decreases |ns|
  {
    hide Insert, OneFirst, Ascending;
    if ns == [] {
    } else {
      InsertKeeps(q, ns[0]);
      InsertAllKeeps(Insert(q, ns[0]), ns[1..]);
      assert ns == [ns[0]] + ns[1..];
    }
  }

  function OfPriority(q: seq<Node>, p: Byte): seq<Node> {
    if q == [] then [] else (if q[0].priority == p then [q[0]] else []) + OfPriority(q[1..], p)
  }

  lemma OfHead(x: Node, q: seq<Node>, p: Byte)
    ensures OfPriority([x] + q, p) == (if x.priority == p then [x] else []) + OfPriority(q, p)
            && OfPriority([], p) == []
  {
    assert ([x] + q)[1..] == q;
  }

  lemma {:induction false} InsertOrder(q: seq<Node>, n: Node, p: Byte)
    ensures OfPriority(Insert(q, n), p) == (if n.priority == p then [n] else []) + OfPriority(q, p)
  {
    hide OfPriority;
    if q == [] || q[0].priority >= n.priority {
      OfHead(n, q, p);
    } else {
      InsertOrder(q[1..], n, p);
      OfHead(q[0], Insert(q[1..], n), p);
      OfHead(q[0], q[1..], p);
      assert q == [q[0]] + q[1..];
    }
  }

  lemma OfNone(p: Byte)
    ensures OfPriority([], p) == []
  {}

  /** Within each priority the order of insertion is reversed. */
  lemma {:induction false} InsertAllOrder(q: seq<Node>, ns: seq<Node>, p: Byte)
    ensures OfPriority(InsertAll(q, ns), p) == Reverse(OfPriority(ns, p)) + OfPriority(q, p)
    decreases |ns|
  {
    hide OfPriority, Reverse, Insert;
    ReverseOne<Node>([], []);
    if ns == [] {
      OfNone(p);
    } else {
      var x, rest := ns[0], ns[1..];
      InsertOrder(q, x, p);
      InsertAllOrder(Insert(q, x), rest, p);
      OfHead(x, rest, p);
      assert ns == [x] + rest;
      ReverseOne(if x.priority == p then [x] else [], OfPriority(rest, p));
    }
  }

  lemma NoneOrdered()
    ensures Ascending([]) && ImageSum([]) == 0
  {}

  lemma OneInserted(n: Node)
    ensures Insert([], n) == [n] && (n.first ==> OneFirst([n]))
  {
    if n.first { assert [n][0].first; }
  }

  ghost predicate FirstAt(a: seq<Node>, n: nat) {
    forall i :: 0 <= i < |a| ==> (a[i].first <==> n == 0 && i == 0)
  }

  lemma {:induction false} AcceptedFirst(ss: seq<Section>, n: nat, chip: Byte, key: Byte, configLen: nat)
    ensures FirstAt(Accepted(ss, n, chip, key, configLen), n)
    decreases |ss|
  {
    hide EndOf, LastOf;
    if ss != [] {
      if Accepts(ss[0], chip, key) && n < 64 {
        AcceptedFirst(ss[1..], n + 1, chip, key, configLen);
      } else {
        AcceptedFirst(ss[1..], n, chip, key, configLen);
      }
    }
  }

  /**
   * The queue holds the accepted sections, in ascending priority and with equal priorities in reverse order of
   * insertion, and exactly one of them carries the configuration.
   */
  lemma QueueProperties(ss: seq<Section>, chip: Byte, key: Byte, configLen: nat, p: Byte)
    ensures var a := Accepted(ss, 0, chip, key, configLen);
            var q := InsertAll([], a);
            && multiset(q) == multiset(a) && Ascending(q) && ImageSum(q) == ImageSum(a)
            && OfPriority(q, p) == Reverse(OfPriority(a, p))
            && (a != [] ==> OneFirst(q) && a[0].first)
  {
    hide Insert, OneFirst, Ascending, Accepts, NodeOf, OfPriority, Reverse;
    var a := Accepted(ss, 0, chip, key, configLen);
    NoneOrdered();
    OfNone(p);
    InsertAllKeeps([], a);
    InsertAllOrder([], a, p);
    if a != [] {
      AcceptedFirst(ss, 0, chip, key, configLen);
      OneInserted(a[0]);
      InsertAllKeeps([a[0]], a[1..]);
      assert InsertAll([], a) == InsertAll(Insert([], a[0]), a[1..]);
    }
  }

  // ---- the commands a download sends -----------------------------------------------------

  /** The bytes of a section: its image, and behind the first-parsed one the configuration. */
  function Bytes(n: Node, config: seq<Byte>): (b: seq<Byte>)
    ensures |b| >= |n.image|
  {
    if n.first then n.image + config else n.image
  }

  /** What the fragments numbered 1 to end carry. */
  function Planned(n: Node): nat { if n.end == 0 then 0 else 252 * (n.end - 1) + n.last }

  /** The section has few enough fragments for a 16-bit index that must pass the last one. */
  predicate Fits(n: Node, config: seq<Byte>) { Count(|Bytes(n, config)|) <= 65534 }

  function Fresh(n: Node): Node { n.(checked := false, cur := 1, sent := 0) }

  /** end and last are those of the bytes of the section, and nothing of it has been sent. */
  ghost predicate Planful(n: Node, config: seq<Byte>) {
    && 0 < |n.image| && |Bytes(n, config)| < 0x1_0000_0000
    && n.end == EndOf(|Bytes(n, config)|) && n.last == LastOf(|Bytes(n, config)|) && n == Fresh(n)
  }

  lemma CountIs(t: nat)
    requires 0 < t < 0x1_0000_0000
    ensures var l := LastOf(t); 1 <= l <= 252 && t == 252 * (Count(t) - 1) + l && 1 <= Count(t)
    ensures EndOf(t) == Count(t) % 0x1_0000
  {
    var c := (t - 1) / 252;
    assert t - 1 == 252 * c + (t - 1) % 252;
    assert t + 251 == 252 * (c + 1) + (t - 1) % 252;
    assert Count(t) == c + 1;
  }

  lemma Plan(n: Node, config: seq<Byte>)
    requires Planful(n, config)
    ensures 1 <= n.last <= 252 && 0 <= n.end < 0x1_0000
    ensures var t := |Bytes(n, config)|; Planned(n) <= t && (Planned(n) == t <==> Count(t) <= 65535)
    ensures Count(|Bytes(n, config)|) <= 65535 ==> n.end == Count(|Bytes(n, config)|)
    ensures n.end == 0 || n.end == 65535 ==> !Fits(n, config)
    ensures Planned(n) == |Bytes(n, config)| && n.end < 65535 ==> Fits(n, config)
  {
    hide Bytes, Fresh;
    CountIs(|Bytes(n, config)|);
  }

  function Min(x: nat, y: nat): nat { if x < y then x else y }

  /** Fragment i of a section, from 1. */
  function Frame(n: Node, config: seq<Byte>, i: nat): seq<Byte>
    requires 1 <= i
  {
    var b := Bytes(n, config);
    var d := b[Min(252 * (i - 1), |b|)..Min(252 * i, |b|)];
    [1, 0x20, 0xfc, |d| + 1, Index(i)] + d
  }

  function Frames(n: Node, config: seq<Byte>, k: nat): seq<seq<Byte>> {
    if k == 0 then [] else Frames(n, config, k - 1) + [Frame(n, config, k)]
  }

  /** hci_vendor_write */
  function WriteRegister(addr: nat, value: nat): seq<Byte> {
    [1, 0x62, 0xfc, 9, 0x21] + LeBytes(addr, 4) + LeBytes(value, 4)
  }

  predicate Usable(addr: nat) { addr != 0 && addr != 0xffff_ffff }

  datatype Registers = Registers(addr0: nat, value0: nat, addr1: nat, value1: nat)

  /** The register writes made for two pairs of address and value. */
  function Writes(regs: Registers): seq<seq<Byte>> {
    (if Usable(regs.addr0) then [WriteRegister(regs.addr0, regs.value0)] else [])
    + if Usable(regs.addr1) then [WriteRegister(regs.addr1, regs.value1)] else []
  }

  function RegistersOf(n: Node): Registers { Registers(n.addr0, n.value0, n.addr1, n.value1) }

  /** A whole section on the wire. */
  function SectionTrace(n: Node, config: seq<Byte>): seq<seq<Byte>> {
    Writes(RegistersOf(n)) + Frames(n, config, Count(|Bytes(n, config)|))
  }

  function QueueTrace(q: seq<Node>, config: seq<Byte>): seq<seq<Byte>> {
    if q == [] then []
    else QueueTrace(q[..|q| - 1], config) + SectionTrace(q[|q| - 1], config)
  }

  const FINAL: seq<Byte> := [1, 0x20, 0xfc, 1, 0x80]

  function SecurityWrite(security: Option<Node>): seq<seq<Byte>> {
    if security.None? then []
    else
      var n := security.value;
      [WriteRegister(n.addr0, (n.value0 + |n.image| - n.value1) % 0x1_0000_0000)]
  }

  /** The complete download of a queue. */
  function Expected(q: seq<Node>, security: Option<Node>, config: seq<Byte>): seq<seq<Byte>> {
    QueueTrace(q, config) + SecurityWrite(security) + [FINAL]
  }

  // ---- the commands as the controller reads them ---------------------------------------------

  lemma WriteRegisterReads(addr: nat, value: nat)
    requires addr < 0x1_0000_0000 && value < 0x1_0000_0000
    ensures IsRegisterWrite(WriteRegister(addr, value), addr, value)
  {
    hide LeBytes, LeVal, Read;
    var c := WriteRegister(addr, value);
    ReadTwo(c, 1);
    LePowers();
    assert c[5..9] == LeBytes(addr, 4) && c[9..13] == LeBytes(value, 4);
    AtNumber(c, 5, addr, 4);
    AtNumber(c, 9, value, 4);
  }

  lemma FrameReads(n: Node, config: seq<Byte>, i: nat)
    requires 1 <= i
    ensures var b := Bytes(n, config);
            && 0 <= Min(252 * (i - 1), |b|) <= Min(252 * i, |b|) <= |b|
            && IsFragment(Frame(n, config, i), Index(i), b[Min(252 * (i - 1), |b|)..Min(252 * i, |b|)])
  {
    hide Bytes, Index, Read;
    ReadTwo(Frame(n, config, i), 1);
  }

  lemma FinalReads()
    ensures IsFragment(FINAL, 0x80, [])
  {
    ReadTwo(FINAL, 1);
  }

  lemma {:induction false} FramesAt(n: Node, config: seq<Byte>, k: nat)
    ensures |Frames(n, config, k)| == k
    ensures forall i :: 0 <= i < k ==> Frames(n, config, k)[i] == Frame(n, config, i + 1)
  {
    hide Frame;
    if k > 0 { FramesAt(n, config, k - 1); }
  }

  /** The sections accepted, in file order. */
  function Matching(ss: seq<Section>, chip: Byte, key: Byte): seq<Image> {
    if ss == [] then []
    else (if Accepts(ss[0], chip, key) then [ss[0].image] else []) + Matching(ss[1..], chip, key)
  }

  /** The images queued: the first 64 accepted. */
  function Images(ss: seq<Section>, chip: Byte, key: Byte): seq<Image> {
    var ms := Matching(ss, chip, key);
    ms[..Min(64, |ms|)]
  }

  /** a holds the nodes of the first of ms, of which n are queued already. */
  ghost predicate NodesOf(a: seq<Node>, ms: seq<Image>, n: nat, configLen: nat) {
    && n <= 64 && |a| == Min(64 - n, |ms|)
    && forall i :: 0 <= i < |a| ==> a[i] == NodeOf(ms[i], n == 0 && i == 0, configLen)
  }

  lemma NodesCons(a: seq<Node>, ms: seq<Image>, m: Image, n: nat, configLen: nat)
    requires n < 64 && NodesOf(a, ms, n + 1, configLen)
    ensures NodesOf([NodeOf(m, n == 0, configLen)] + a, [m] + ms, n, configLen)
  {
    hide NodeOf;
  }

  lemma AcceptedStep(ss: seq<Section>, n: nat, chip: Byte, key: Byte, configLen: nat)
    requires ss != []
    ensures Accepts(ss[0], chip, key) ==> ss[0].Patch? && Matching(ss, chip, key)
                                                         == [ss[0].image] + Matching(ss[1..], chip, key)
    ensures !Accepts(ss[0], chip, key) ==> Matching(ss, chip, key) == Matching(ss[1..], chip, key)
    ensures Accepts(ss[0], chip, key) && n < 64 ==>
              Accepted(ss, n, chip, key, configLen)
              == [NodeOf(ss[0].image, n == 0, configLen)] + Accepted(ss[1..], n + 1, chip, key, configLen)
    ensures !(Accepts(ss[0], chip, key) && n < 64) ==>
              Accepted(ss, n, chip, key, configLen) == Accepted(ss[1..], n, chip, key, configLen)
  {
    hide NodeOf;
  }

  lemma {:induction false} AcceptedImages(ss: seq<Section>, n: nat, chip: Byte, key: Byte, configLen: nat)
    requires n <= 64
    ensures NodesOf(Accepted(ss, n, chip, key, configLen), Matching(ss, chip, key), n, configLen)
    decreases |ss|
  {
    hide Accepts, NodeOf;
    if ss != [] {
      hide Accepted, Matching;
      AcceptedStep(ss, n, chip, key, configLen);
      if Accepts(ss[0], chip, key) && n < 64 {
        hide NodesOf;
        var a, ms := Accepted(ss[1..], n + 1, chip, key, configLen), Matching(ss[1..], chip, key);
        AcceptedImages(ss[1..], n + 1, chip, key, configLen);
        NodesCons(a, ms, ss[0].image, n, configLen);
      } else {
        AcceptedImages(ss[1..], n, chip, key, configLen);
      }
    }
  }

  /** The bytes that go out for image i of those queued: behind the first, the configuration. */
  function Payload(ms: seq<Image>, i: nat, config: seq<Byte>): seq<Byte>
    requires i < |ms|
  {
    if i == 0 then ms[i].data + config else ms[i].data
  }

  function Low32(x: nat): nat { x % 0x1_0000_0000 }

  /** Fragment i of the bytes, 252 of them or what is left; the numbers on the wire begin with 1. */
  ghost predicate FragmentReads(cmd: seq<Byte>, bytes: seq<Byte>, i: nat) {
    252 * i <= |bytes| && IsFragment(cmd, Index(i + 1), bytes[252 * i..Min(252 * (i + 1), |bytes|)])
  }

  ghost predicate FragmentsRead(cmds: seq<seq<Byte>>, bytes: seq<Byte>) {
    |cmds| == Count(|bytes|) && forall i :: 0 <= i < |cmds| ==> FragmentReads(cmds[i], bytes, i)
  }

  /** A register write for each usable address of the image, in order, and then its bytes. */
  ghost predicate SectionReads(cmds: seq<seq<Byte>>, m: Image, bytes: seq<Byte>) {
    var w0 := if Usable(Low32(m.addr0)) then 1 else 0;
    var w := if Usable(Low32(m.addr1)) then w0 + 1 else w0;
    && w <= |cmds|
    && (w0 == 1 ==> IsRegisterWrite(cmds[0], Low32(m.addr0), Low32(m.value0)))
    && (w == w0 + 1 ==> IsRegisterWrite(cmds[w0], Low32(m.addr1), Low32(m.value1)))
    && FragmentsRead(cmds[w..], bytes)
  }

  lemma FragmentStarts(t: nat, i: nat)
    requires i < Count(t)
    ensures Min(252 * i, t) == 252 * i <= Min(252 * (i + 1), t) <= t
  {}

  lemma FramesRead(n: Node, config: seq<Byte>)
    ensures FragmentsRead(Frames(n, config, Count(|Bytes(n, config)|)), Bytes(n, config))
  {
    hide Bytes, Index, Frame, IsFragment, Count, Min;
    var b := Bytes(n, config);
    var f := Frames(n, config, Count(|b|));
    FramesAt(n, config, Count(|b|));
    forall i | 0 <= i < |f| ensures FragmentReads(f[i], b, i) {
      FragmentStarts(|b|, i);
      FrameReads(n, config, i + 1);
    }
  }

  lemma SectionTraceReads(m: Image, first: bool, config: seq<Byte>)
    ensures SectionReads(SectionTrace(NodeOf(m, first, |config|), config), m, if first then m.data + config else m.data)
  {
    hide EndOf, LastOf, WriteRegister, Frames, FragmentsRead, IsRegisterWrite, Count;
    var n := NodeOf(m, first, |config|);
    FramesRead(n, config);
    WriteRegisterReads(n.addr0, n.value0);
    WriteRegisterReads(n.addr1, n.value1);
    var w := Writes(RegistersOf(n));
    assert SectionTrace(n, config)[|w|..] == Frames(n, config, Count(|Bytes(n, config)|));
  }

  // ---- the whole download as the controller reads it -----------------------------------------

  /** Image i goes out before image j: lower priorities first, and of equal ones the later in the file. */
  predicate Before(ms: seq<Image>, i: nat, j: nat)
    requires i < |ms| && j < |ms|
  {
    ms[i].priority < ms[j].priority || (ms[i].priority == ms[j].priority && i > j)
  }

  ghost predicate Numbers(order: seq<nat>, n: nat) {
    forall k :: 0 <= k < |order| ==> order[k] < n
  }

  ghost predicate Sorted(ms: seq<Image>, order: seq<nat>)
    requires Numbers(order, |ms|)
  {
    forall k, l :: 0 <= k < l < |order| ==> Before(ms, order[k], order[l])
  }

  ghost function Place(ms: seq<Image>, order: seq<nat>, i: nat): (r: seq<nat>)
    requires i < |ms| && Numbers(order, |ms|)
    ensures |r| == |order| + 1 && Numbers(r, |ms|) && forall x :: x in r <==> x == i || x in order
  {
    if order == [] || ms[order[0]].priority >= ms[i].priority then [i] + order
    else [order[0]] + Place(ms, order[1..], i)
  }

  lemma {:induction false} PlaceSorted(ms: seq<Image>, order: seq<nat>, i: nat)
    requires i < |ms| && Numbers(order, i) && Sorted(ms, order)
    ensures Sorted(ms, Place(ms, order, i))
  {
    var r := Place(ms, order, i);
    if order == [] {
    } else if ms[order[0]].priority >= ms[i].priority {
      forall k, l | 0 <= k < l < |r| ensures Before(ms, r[k], r[l]) {
        if k > 0 {
          assert Before(ms, order[k - 1], order[l - 1]);
        } else {
          assert l == 1 || Before(ms, order[0], order[l - 1]);
        }
      }
    } else {
      PlaceSorted(ms, order[1..], i);
      var rest := Place(ms, order[1..], i);
      forall k, l | 0 <= k < l < |r| ensures Before(ms, r[k], r[l]) {
        if k > 0 {
          assert Before(ms, rest[k - 1], rest[l - 1]);
        } else {
          assert rest[l - 1] in rest;
        }
      }
    }
  }

  /** The nodes of images in a given order. */
  ghost function Nodes(ms: seq<Image>, order: seq<nat>, configLen: nat): (q: seq<Node>)
    requires Numbers(order, |ms|)
    ensures |q| == |order|
    ensures forall k :: 0 <= k < |q| ==> q[k] == NodeOf(ms[order[k]], order[k] == 0, configLen)
  {
    seq(|order|, k requires 0 <= k < |order| => NodeOf(ms[order[k]], order[k] == 0, configLen))
  }

  lemma {:induction false} InsertPlaces(ms: seq<Image>, order: seq<nat>, i: nat, configLen: nat)
    requires i < |ms| && Numbers(order, |ms|)
    ensures Insert(Nodes(ms, order, configLen), NodeOf(ms[i], i == 0, configLen))
            == Nodes(ms, Place(ms, order, i), configLen)
  {
    hide EndOf, LastOf;
    var q, n := Nodes(ms, order, configLen), NodeOf(ms[i], i == 0, configLen);
    if order != [] && ms[order[0]].priority < ms[i].priority {
      InsertPlaces(ms, order[1..], i, configLen);
      assert q[1..] == Nodes(ms, order[1..], configLen);
    }
  }

  lemma InsertLast(a: seq<Node>, n: nat)
    requires n < |a|
    ensures InsertAll([], a[..n + 1]) == Insert(InsertAll([], a[..n]), a[n])
  {
    hide Insert, ImageSum, SelectAll;
    assert a[..n + 1] == a[..n] + [a[n]];
    QueueAppend([], None, a[..n], [a[n]]);
    var q := InsertAll([], a[..n]);
    assert [a[n]][1..] == [];
    assert InsertAll(q, [a[n]]) == InsertAll(Insert(q, a[n]), []);
  }

  /** The queue is the images in an order that is sorted, the first n of them. */
  lemma {:induction false} QueueOrder(ms: seq<Image>, a: seq<Node>, n: nat, configLen: nat) returns (order: seq<nat>)
    requires n <= |ms| == |a|
    requires forall i :: 0 <= i < |a| ==> a[i] == NodeOf(ms[i], i == 0, configLen)
    ensures |order| == n && Numbers(order, n) && Sorted(ms, order)
    ensures InsertAll([], a[..n]) == Nodes(ms, order, configLen)
  {
    hide Insert, NodeOf;
    if n == 0 {
      order := [];
      assert a[..0] == [];
    } else {
      var before := QueueOrder(ms, a, n - 1, configLen);
      order := Place(ms, before, n - 1);
      PlaceSorted(ms, before, n - 1);
      InsertPlaces(ms, before, n - 1, configLen);
      InsertLast(a, n - 1);
      forall k | 0 <= k < |order| ensures order[k] < n {
        assert order[k] in order;
      }
    }
  }

  /** Where the commands of each section begin, and where those of the last end. */
  ghost function Starts(q: seq<Node>, config: seq<Byte>): (starts: seq<nat>)
    ensures |starts| == |q| + 1 && forall k :: 0 <= k <= |q| ==> starts[k] == |QueueTrace(q[..k], config)|
  {
    seq(|q| + 1, k requires 0 <= k <= |q| => |QueueTrace(q[..k], config)|)
  }

  lemma TraceNext(q: seq<Node>, config: seq<Byte>, k: nat)
    requires k < |q|
    ensures QueueTrace(q[..k + 1], config) == QueueTrace(q[..k], config) + SectionTrace(q[k], config)
  {
    hide SectionTrace;
    assert q[..k + 1][..k] == q[..k];
  }

  lemma {:induction false} TracePrefix(q: seq<Node>, config: seq<Byte>, k: nat, n: nat)
    requires k <= n <= |q|
    ensures QueueTrace(q[..k], config) <= QueueTrace(q[..n], config)
    decreases n
  {
    hide QueueTrace, SectionTrace;
    if k < n {
      TracePrefix(q, config, k, n - 1);
      TraceNext(q, config, n - 1);
    }
  }

  lemma SectionSlice(q: seq<Node>, config: seq<Byte>, k: nat)
    requires k < |q|
    ensures var t, starts := QueueTrace(q, config), Starts(q, config);
            starts[k] <= starts[k + 1] <= |t| && t[starts[k]..starts[k + 1]] == SectionTrace(q[k], config)
  {
    hide QueueTrace, SectionTrace;
    TraceNext(q, config, k);
    TracePrefix(q, config, k + 1, |q|);
    assert q[..|q|] == q;
  }

  /** The image has a size of what remains of the security header buffer, and an address for it. */
  predicate Limited(m: Image) { Low32(m.value1) != 0 && Usable(Low32(m.addr1)) }

  /** The first of the limited images of highest priority. */
  ghost predicate SecurityImage(ms: seq<Image>, sec: Option<nat>) {
    match sec
    case None => forall j :: 0 <= j < |ms| ==> !Limited(ms[j])
    case Some(i) =>
      && i < |ms| && Limited(ms[i])
      && forall j :: 0 <= j < |ms| && Limited(ms[j]) ==>
           ms[j].priority < ms[i].priority || (ms[j].priority == ms[i].priority && j >= i)
  }

  /** The image starts at value0, and what remains of the header buffer is cut off its end. */
  ghost predicate SecurityReads(cmds: seq<seq<Byte>>, ms: seq<Image>, sec: Option<nat>) {
    match sec
    case None => cmds == []
    case Some(i) =>
      && i < |ms| && |cmds| == 1
      && IsRegisterWrite(cmds[0], Low32(ms[i].addr0),
                         (ms[i].value0 + |ms[i].data| - ms[i].value1) % 0x1_0000_0000)
  }

  ghost predicate SliceReads(trace: seq<seq<Byte>>, starts: seq<nat>, k: nat, m: Image, bytes: seq<Byte>) {
    && k + 1 < |starts| && starts[k] <= starts[k + 1] <= |trace|
    && SectionReads(trace[starts[k]..starts[k + 1]], m, bytes)
  }

  /** The sections in order, each as SectionReads has it, then the security write and the final fragment. */
  ghost predicate DownloadReads(trace: seq<seq<Byte>>, ms: seq<Image>, config: seq<Byte>, order: seq<nat>,
                                starts: seq<nat>, sec: Option<nat>) {
    && |order| == |ms| && Numbers(order, |ms|) && Sorted(ms, order)
    && |starts| == |ms| + 1 && starts[0] == 0 && starts[|ms|] < |trace|
    && (forall k :: 0 <= k < |ms| ==> SliceReads(trace, starts, k, ms[order[k]], Payload(ms, order[k], config)))
    && SecurityImage(ms, sec) && SecurityReads(trace[starts[|ms|]..|trace| - 1], ms, sec)
    && IsFragment(trace[|trace| - 1], 0x80, [])
  }

  /** trace is the download of the images ms. */
  ghost predicate CompleteDownload(trace: seq<seq<Byte>>, ms: seq<Image>, config: seq<Byte>) {
    exists order: seq<nat>, starts: seq<nat>, sec: Option<nat> :: DownloadReads(trace, ms, config, order, starts, sec)
  }

  lemma SecurityValue(v: nat, len: nat, r: nat)
    ensures (Low32(v) + len - Low32(r)) % 0x1_0000_0000 == (v + len - r) % 0x1_0000_0000
  {
    var m := 0x1_0000_0000;
    DivMod(v, m);
    DivMod(r, m);
    ModShift(Low32(v) + len - Low32(r), v / m - r / m, m);
  }

  lemma SecurityWriteReads(m: Image, first: bool, configLen: nat, i: nat, ms: seq<Image>)
    requires i < |ms| && ms[i] == m
    ensures SecurityReads(SecurityWrite(Some(NodeOf(m, first, configLen))), ms, Some(i))
  {
    hide EndOf, LastOf, IsRegisterWrite, WriteRegister;
    var n := NodeOf(m, first, configLen);
    SecurityValue(m.value0, |m.data|, m.value1);
    WriteRegisterReads(n.addr0, (n.value0 + |n.image| - n.value1) % 0x1_0000_0000);
  }

  lemma SecuritySelected(ms: seq<Image>, a: seq<Node>, configLen: nat) returns (sec: Option<nat>)
    requires |ms| == |a| && forall i :: 0 <= i < |a| ==> a[i] == NodeOf(ms[i], i == 0, configLen)
    ensures SecurityImage(ms, sec) && SecurityReads(SecurityWrite(SelectAll(None, a)), ms, sec)
  {
    hide EndOf, LastOf, SelectAll, WriteRegister, IsRegisterWrite;
    var k := SelectIndex(a, |a|);
    assert a[..|a|] == a;
    if SelectAll(None, a).None? {
      sec := None;
      forall j | 0 <= j < |ms| ensures !Limited(ms[j]) { assert !Qualifies(a[j]); }
    } else {
      sec := Some(k);
      SecurityWriteReads(ms[k], k == 0, configLen, k, ms);
      forall j | 0 <= j < |ms| && Limited(ms[j])
        ensures ms[j].priority < ms[k].priority || (ms[j].priority == ms[k].priority && j >= k)
      {
        assert Qualifies(a[j]);
      }
    }
  }

  lemma SliceOf(t: seq<seq<Byte>>, tail: seq<seq<Byte>>, starts: seq<nat>, k: nat, m: Image, bytes: seq<Byte>)
    requires k + 1 < |starts| && starts[k] <= starts[k + 1] <= |t|
    requires SectionReads(t[starts[k]..starts[k + 1]], m, bytes)
    ensures SliceReads(t + tail, starts, k, m, bytes)
  {
    hide SectionReads;
    assert (t + tail)[starts[k]..starts[k + 1]] == t[starts[k]..starts[k + 1]];
  }

  lemma SectionsRead(ms: seq<Image>, order: seq<nat>, config: seq<Byte>, tail: seq<seq<Byte>>, k: nat)
    requires Numbers(order, |ms|) && k < |order|
    ensures var q := Nodes(ms, order, |config|);
            var trace, starts := QueueTrace(q, config) + tail, Starts(q, config);
            SliceReads(trace, starts, k, ms[order[k]], Payload(ms, order[k], config))
  {
    hide QueueTrace, SectionTrace, SectionReads, SliceReads, NodeOf;
    var q := Nodes(ms, order, |config|);
    SectionSlice(q, config, k);
    SectionTraceReads(ms[order[k]], order[k] == 0, config);
    SliceOf(QueueTrace(q, config), tail, Starts(q, config), k, ms[order[k]], Payload(ms, order[k], config));
  }

  lemma TailReads(t: seq<seq<Byte>>, w: seq<seq<Byte>>, last: seq<Byte>)
    ensures var trace := t + (w + [last]);
            trace[|t|..|trace| - 1] == w && trace[|trace| - 1] == last && t + w + [last] == trace
  {}

  lemma StartsEnds(q: seq<Node>, config: seq<Byte>)
    ensures Starts(q, config)[0] == 0 && Starts(q, config)[|q|] == |QueueTrace(q, config)|
  {
    hide SectionTrace;
    assert q[..0] == [] && q[..|q|] == q;
  }

  lemma Joined(t: seq<seq<Byte>>, w: seq<seq<Byte>>, ms: seq<Image>, config: seq<Byte>, order: seq<nat>,
               starts: seq<nat>, sec: Option<nat>)
    requires |order| == |ms| && Numbers(order, |ms|) && Sorted(ms, order)
    requires |starts| == |ms| + 1 && starts[0] == 0 && starts[|ms|] == |t|
    requires SecurityImage(ms, sec) && SecurityReads(w, ms, sec)
    requires forall k :: 0 <= k < |ms| ==>
               SliceReads(t + (w + [FINAL]), starts, k, ms[order[k]], Payload(ms, order[k], config))
    ensures CompleteDownload(t + w + [FINAL], ms, config)
  {
    hide IsFragment, SliceReads, SecurityReads, SecurityImage, Sorted, Payload, Numbers;
    TailReads(t, w, FINAL);
    FinalReads();
    assert DownloadReads(t + (w + [FINAL]), ms, config, order, starts, sec);
  }

  lemma Assembled(ms: seq<Image>, order: seq<nat>, config: seq<Byte>, w: seq<seq<Byte>>, sec: Option<nat>)
    requires |order| == |ms| && Numbers(order, |ms|) && Sorted(ms, order)
    requires SecurityImage(ms, sec) && SecurityReads(w, ms, sec)
    ensures CompleteDownload(QueueTrace(Nodes(ms, order, |config|), config) + w + [FINAL], ms, config)
  {
    hide NodeOf, SliceReads, SecurityReads, SecurityImage, QueueTrace, Sorted, Payload, CompleteDownload;
    var q := Nodes(ms, order, |config|);
    StartsEnds(q, config);
    var t, starts := QueueTrace(q, config), Starts(q, config);
    forall k | 0 <= k < |ms|
      ensures SliceReads(t + (w + [FINAL]), starts, k, ms[order[k]], Payload(ms, order[k], config))
    {
      SectionsRead(ms, order, config, w + [FINAL], k);
    }
    Joined(t, w, ms, config, order, starts, sec);
  }

  /** The complete download of a queue is the download of its images. */
  lemma ExpectedReads(ss: seq<Section>, chip: Byte, key: Byte, config: seq<Byte>)
    ensures var a := Accepted(ss, 0, chip, key, |config|);
            CompleteDownload(Expected(InsertAll([], a), SelectAll(None, a), config), Images(ss, chip, key), config)
  {
    hide Accepted, Matching, InsertAll, SelectAll, NodeOf, SecurityWrite, SecurityReads, SecurityImage, QueueTrace,
      Sorted, CompleteDownload;
    var a, ms := Accepted(ss, 0, chip, key, |config|), Images(ss, chip, key);
    AcceptedImages(ss, 0, chip, key, |config|);
    var order := QueueOrder(ms, a, |a|, |config|);
    assert a[..|a|] == a;
    var sec := SecuritySelected(ms, a, |config|);
    Assembled(ms, order, config, SecurityWrite(SelectAll(None, a)), sec);
  }

  // ---- sending -----------------------------------------------------------------------------

  datatype Out = Fragment | Final | Fail | Overrun

  /** Bytes of a section that went out, given those of the configuration. */
  function Pos(n: Node, cfg: nat): nat { if n.first then n.sent + cfg else n.sent }

  /** The image goes out before the configuration. */
  ghost predicate Split(n: Node, cfg: nat) {
    n.sent <= |n.image| && (n.first && cfg > 0 ==> n.sent == |n.image|)
  }

  ghost predicate Done(n: Node, cfg: nat) {
    n.checked && n.cur > n.end && n.end < 65535 && Pos(n, cfg) == Planned(n)
  }

  ghost predicate Untouched(n: Node, cfg: nat) { n == Fresh(n) && Pos(n, cfg) == 0 }

  ghost predicate Under(n: Node, cfg: nat) {
    n.checked && 1 <= n.cur <= n.end < 65535 && Pos(n, cfg) == 252 * (n.cur - 1)
  }

  /** The image bytes still to be sent. */
  function Left(q: seq<Node>): int {
    if q == [] then 0 else |q[0].image| - q[0].sent + Left(q[1..])
  }

  lemma {:induction false} LeftUpdate(q: seq<Node>, m: nat, n: Node)
    requires m < |q| && n.image == q[m].image
    ensures Left(q[m := n]) == Left(q) + q[m].sent - n.sent
  {
    if m > 0 {
      LeftUpdate(q[1..], m - 1, n);
      assert q[m := n][1..] == q[1..][m - 1 := n];
    } else {
      assert q[m := n][1..] == q[1..];
    }
  }

  lemma {:induction false} LeftZero(q: seq<Node>)
    requires forall j :: 0 <= j < |q| ==> q[j].sent <= |q[j].image|
    ensures Left(q) >= 0
    ensures Left(q) == 0 <==> forall j :: 0 <= j < |q| ==> q[j].sent == |q[j].image|
  {
    if q != [] {
      LeftZero(q[1..]);
      assert forall j :: 0 < j < |q| ==> q[j] == q[1..][j - 1];
      assert forall j :: 0 <= j < |q| - 1 ==> q[1..][j] == q[j + 1];
    }
  }

  lemma {:induction false} LeftFresh(q: seq<Node>)
    requires forall j :: 0 <= j < |q| ==> q[j].sent == 0
    ensures Left(q) == ImageSum(q)
  {
    if q != [] { LeftFresh(q[1..]); }
  }

  /** Sending len bytes of a section at its position sends those bytes of it. */
  lemma SentBytes(n: Node, config: seq<Byte>, cfg: nat, len: nat)
    requires Split(n, cfg) && cfg <= |config| && Pos(n, cfg) + len <= |Bytes(n, config)|
    ensures var a := Min(len, |n.image| - n.sent);
            && cfg + (len - a) <= |config| && (!n.first ==> a == len)
            && n.image[n.sent..n.sent + a] + config[cfg..cfg + (len - a)]
               == Bytes(n, config)[Pos(n, cfg)..Pos(n, cfg) + len]
            && Split(n.(sent := n.sent + a), cfg + (len - a))
            && Pos(n.(sent := n.sent + a), cfg + (len - a)) == Pos(n, cfg) + len
  {
    var a := Min(len, |n.image| - n.sent);
    if !n.first || a == len {
      assert n.image[n.sent..n.sent + a] == Bytes(n, config)[n.sent..n.sent + a];
    }
  }

  /** Facts about every queued section, in whatever state of the download. */
  ghost predicate Matches(q: seq<Node>, nodes: seq<Node>, config: seq<Byte>, cfg: nat, at: nat) {
    && |nodes| == |q| && at <= |nodes| && cfg <= |config|
    && (forall j :: 0 <= j < |nodes| ==> Fresh(nodes[j]) == q[j] && nodes[j].sent <= |nodes[j].image|)
    && (forall j :: 0 <= j < at ==> nodes[j].checked && nodes[j].cur > nodes[j].end)
  }

  ghost predicate AllPlanful(q: seq<Node>, config: seq<Byte>) {
    forall j :: 0 <= j < |q| ==> Planful(q[j], config)
  }

  /** Sections before at are done, at is under way or next, the others untouched. */
  ghost predicate InOrder(nodes: seq<Node>, cfg: nat, at: nat) {
    && (forall j :: 0 <= j < |nodes| ==> Split(nodes[j], cfg))
    && (forall j :: 0 <= j < at && j < |nodes| ==> Done(nodes[j], cfg))
    && (at < |nodes| ==> Untouched(nodes[at], cfg) || Under(nodes[at], cfg))
    && (forall j :: at < j < |nodes| ==> Untouched(nodes[j], cfg))
  }

  /** Section at has 65535 as its end and so can never be passed. */
  ghost predicate Stuck(nodes: seq<Node>, at: nat) {
    at < |nodes| && nodes[at].checked && nodes[at].end == 65535 && nodes[at].cur <= 65535
  }

  /** The sections begun so far all fit. */
  ghost predicate Good(q: seq<Node>, nodes: seq<Node>, config: seq<Byte>, at: nat) {
    forall j :: 0 <= j < |q| && (j < at || (j == at < |nodes| && nodes[at].checked)) ==> Fits(q[j], config)
  }

  /** What has been sent by then, if they do. */
  ghost function Progress(q: seq<Node>, nodes: seq<Node>, config: seq<Byte>, at: nat): seq<seq<Byte>>
    requires at <= |q| == |nodes|
  {
    QueueTrace(q[..at], config)
    + if at < |nodes| && nodes[at].checked && nodes[at].cur > 0
      then Writes(RegistersOf(q[at])) + Frames(q[at], config, nodes[at].cur - 1) else []
  }

  /** A section without fragments is passed at once. */
  lemma PassEmpty(q: seq<Node>, nodes: seq<Node>, config: seq<Byte>, cfg: nat, at: nat)
    requires Matches(q, nodes, config, cfg, at) && InOrder(nodes, cfg, at)
    requires at < |nodes| && !nodes[at].checked && nodes[at].end == 0
    ensures var n := nodes[at].(checked := true);
            && Matches(q, nodes[at := n], config, cfg, at + 1) && InOrder(nodes[at := n], cfg, at + 1) && n.cur > n.end
  {
    hide Bytes;
  }

  /** The section met next becomes the one under way. */
  lemma BeginSection(q: seq<Node>, nodes: seq<Node>, config: seq<Byte>, cfg: nat, at: nat)
    requires Matches(q, nodes, config, cfg, at) && InOrder(nodes, cfg, at)
    requires at < |nodes| && !nodes[at].checked && 0 < nodes[at].end <= 65535
    ensures var n := nodes[at].(checked := true);
            && Matches(q, nodes[at := n], config, cfg, at) && n.cur <= n.end && n.cur == 1
            && (InOrder(nodes[at := n], cfg, at) || Stuck(nodes[at := n], at))
  {
    hide Bytes;
  }

  /** The fragment length as the code takes it. */
  function FragmentLen(n: Node): nat { if n.cur == n.end then n.last else 252 }

  /** A section after one more fragment, a bytes of it from the image. */
  function Advanced(n: Node, a: nat): Node { n.(sent := n.sent + a, cur := (n.cur + 1) % 0x1_0000) }

  lemma UnderRoom(n: Node, config: seq<Byte>, cfg: nat)
    requires Under(n, cfg) && Planful(Fresh(n), config)
    ensures 1 <= FragmentLen(n) <= 252 && Pos(n, cfg) + FragmentLen(n) <= |Bytes(n, config)|
    ensures n.cur < n.end ==> Pos(n, cfg) + FragmentLen(n) == 252 * n.cur
    ensures n.cur == n.end ==> Pos(n, cfg) + FragmentLen(n) == Planned(n)
  {
    hide EndOf, LastOf;
    Plan(Fresh(n), config);
    assert Bytes(Fresh(n), config) == Bytes(n, config) && Planned(Fresh(n)) == Planned(n);
    if n.cur < n.end { assert 252 * n.cur <= 252 * (n.end - 1); }
  }

  lemma PlannedAdvanced(n: Node, a: nat)
    ensures Planned(Advanced(n, a)) == Planned(n)
  {}

  /** The section under way after a fragment: still under way, or done. */
  lemma FragmentOne(n: Node, config: seq<Byte>, cfg: nat)
    requires Under(n, cfg) && Planful(Fresh(n), config) && Split(n, cfg) && cfg <= |config|
    ensures var len := FragmentLen(n);
            var a := Min(len, |n.image| - n.sent);
            var next := Advanced(n, a);
            && cfg + (len - a) <= |config| && 1 <= len <= 252 && Pos(n, cfg) + len <= |Bytes(n, config)|
            && (!n.first ==> a == len) && Split(next, cfg + (len - a)) && Fresh(next) == Fresh(n)
            && if n.cur == n.end then Done(next, cfg + (len - a)) else Under(next, cfg + (len - a))
  {
    hide Bytes, EndOf, LastOf, Planned, Count;
    UnderRoom(n, config, cfg);
    SentBytes(n, config, cfg, FragmentLen(n));
    var a := Min(FragmentLen(n), |n.image| - n.sent);
    assert Planned(Advanced(n, a)) == Planned(n) by { PlannedAdvanced(n, a); }
  }

  lemma SplitDone(n: Node, cfg: nat)
    ensures Split(n, cfg) ==> n.sent <= |n.image|
    ensures Done(n, cfg) ==> n.checked && n.cur > n.end
  {}

  lemma OtherKeeps(n: Node, cfg: nat, cfg': nat)
    requires !n.first || cfg' == cfg
    ensures (Split(n, cfg) ==> Split(n, cfg')) && (Done(n, cfg) ==> Done(n, cfg'))
            && (Untouched(n, cfg) ==> Untouched(n, cfg'))
  {}

  lemma OnlyFirst(q: seq<Node>, at: nat)
    requires OneFirst(q) && at < |q| && q[at].first
    ensures forall j :: 0 <= j < |q| && j != at ==> !q[j].first
  {}

  /** One fragment keeps the order. */
  lemma FragmentKeeps(q: seq<Node>, nodes: seq<Node>, config: seq<Byte>, cfg: nat, at: nat, next: seq<Node>,
                      cfg': nat, k: nat)
    requires Matches(q, nodes, config, cfg, at) && InOrder(nodes, cfg, at) && OneFirst(q)
    requires at < |nodes| && nodes[at].checked
    requires |next| == |nodes| && (forall j :: 0 <= j < |nodes| && j != at ==> next[j] == nodes[j])
    requires Fresh(next[at]) == Fresh(nodes[at]) && Split(next[at], cfg') && cfg' <= |config|
             && (!nodes[at].first ==> cfg' == cfg)
    requires if k == at then Under(next[at], cfg') else k == at + 1 && Done(next[at], cfg')
    ensures Matches(q, next, config, cfg', k) && InOrder(next, cfg', k)
  {
    hide Bytes, EndOf, LastOf, OneFirst, Planned, Count, Under, Done, Untouched, Split, Pos;
    if nodes[at].first { OnlyFirst(q, at); }
    forall j | 0 <= j < |nodes| && j != at
      ensures (Split(nodes[j], cfg) ==> Split(nodes[j], cfg')) && (Done(nodes[j], cfg) ==> Done(nodes[j], cfg'))
      ensures Untouched(nodes[j], cfg) ==> Untouched(nodes[j], cfg')
    {
      assert Fresh(nodes[j]) == q[j] && Fresh(nodes[at]) == q[at];
      OtherKeeps(nodes[j], cfg, cfg');
    }
    SplitDone(next[at], cfg');
  }

  ghost predicate AllFit(q: seq<Node>, config: seq<Byte>) {
    forall j :: 0 <= j < |q| ==> Fits(q[j], config)
  }

  lemma SameBytes(n: Node, config: seq<Byte>)
    ensures Bytes(Fresh(n), config) == Bytes(n, config) && Planned(Fresh(n)) == Planned(n)
  {}

  /** The fragment built is the section's fragment of that number. */
  lemma FrameIs(n: Node, config: seq<Byte>, cfg: nat)
    requires Under(n, cfg) && Planful(Fresh(n), config) && Fits(Fresh(n), config)
    ensures var len := FragmentLen(n);
            var p := Pos(n, cfg);
            && p + len <= |Bytes(n, config)| && 1 <= len <= 252
            && [1, 0x20, 0xfc, len + 1, Index(n.cur)] + Bytes(n, config)[p..p + len] == Frame(Fresh(n), config, n.cur)
  {
    hide EndOf, LastOf, Index, Bytes, Pos, Planned;
    UnderRoom(n, config, cfg);
    Plan(Fresh(n), config);
    SameBytes(n, config);
    var t := |Bytes(n, config)|;
    CountIs(t);
    if n.cur < n.end { assert 252 * n.cur <= 252 * (Count(t) - 1); }
  }

  lemma ProgressBegin(q: seq<Node>, nodes: seq<Node>, config: seq<Byte>, at: nat)
    requires at < |q| == |nodes| && !nodes[at].checked && nodes[at].cur == 1
    ensures var next := nodes[at := nodes[at].(checked := true)];
            Progress(q, next, config, at) == Progress(q, nodes, config, at) + Writes(RegistersOf(q[at]))
  {
    hide QueueTrace, Writes;
    assert Frames(q[at], config, 0) == [];
  }

  lemma ProgressNext(q: seq<Node>, nodes: seq<Node>, config: seq<Byte>, at: nat, next: seq<Node>, k: nat)
    requires at < |q| == |nodes| == |next| && nodes[at].checked && 1 <= nodes[at].cur
    requires next[at].checked && next[at].cur == nodes[at].cur + 1
    requires k == at || k == at + 1
    requires k == at + 1 ==> nodes[at].cur == Count(|Bytes(q[at], config)|) && (k < |next| ==> !next[k].checked)
    ensures Progress(q, next, config, k) == Progress(q, nodes, config, at) + [Frame(q[at], config, nodes[at].cur)]
  {
    hide Writes, Count, Bytes, Frame;
    if k == at + 1 {
      assert q[..k][..at] == q[..at];
      assert q[..k] != [] && q[..k][|q[..k]| - 1] == q[at];
      assert QueueTrace(q[..k], config) == QueueTrace(q[..at], config) + SectionTrace(q[at], config);
    }
  }

  lemma SizesAgree(q: seq<Node>, nodes: seq<Node>, config: seq<Byte>, cfg: nat, at: nat)
    requires Matches(q, nodes, config, cfg, at)
    ensures |q| == |nodes| && at <= |nodes| && cfg <= |config|
  {}

  lemma GoodBefore(q: seq<Node>, was: seq<Node>, nodes: seq<Node>, config: seq<Byte>, begin: nat, m: nat, at: nat)
    requires |was| == |nodes| == |q| && begin <= m <= at <= |q| && m < |q| && Good(q, nodes, config, at)
    requires at > m || nodes[at].checked
    requires m > begin ==> !Fits(q[begin], config)
    ensures m == begin && Good(q, was, config, begin) && Fits(q[m], config)
  {
    hide Fits;
  }

  lemma FirstIndex(q: seq<Node>) returns (i: nat)
    requires OneFirst(q)
    ensures i < |q| && q[i].first
  {
    i :| 0 <= i < |q| && q[i].first;
  }

  lemma FitsIf(n: Node, config: seq<Byte>)
    ensures Fits(n, config) ==> Count(|Bytes(n, config)|) <= 65535
  {}

  lemma DoneFits(q: seq<Node>, nodes: seq<Node>, config: seq<Byte>, cfg: nat, j: nat)
    requires Matches(q, nodes, config, cfg, |nodes|) && AllPlanful(q, config) && InOrder(nodes, cfg, |nodes|) && j < |q|
    ensures Fits(q[j], config) <==> Pos(nodes[j], cfg) == |Bytes(q[j], config)|
  {
    hide EndOf, LastOf, Bytes, Count, Planful;
    assert Done(nodes[j], cfg) && Fresh(nodes[j]) == q[j];
    assert Planned(Fresh(nodes[j])) == Planned(nodes[j]);
    FitsIf(q[j], config);
    Plan(q[j], config);
  }

  /** With every section passed, all has been sent exactly if every section fits. */
  lemma AtEnd(q: seq<Node>, nodes: seq<Node>, config: seq<Byte>, cfg: nat)
    requires Matches(q, nodes, config, cfg, |nodes|) && AllPlanful(q, config) && OneFirst(q)
    requires InOrder(nodes, cfg, |nodes|) || Stuck(nodes, |nodes|)
    ensures Left(nodes) == 0 && cfg == |config| <==> AllFit(q, config)
    ensures Good(q, nodes, config, |nodes|) <==> AllFit(q, config)
    ensures Progress(q, nodes, config, |nodes|) == QueueTrace(q, config)
  {
    hide OneFirst, Left, QueueTrace, AllPlanful, Done, Fits;
    assert q[..|q|] == q;
    LeftZero(nodes);
    forall j | 0 <= j < |q| ensures Fits(q[j], config) <==> Pos(nodes[j], cfg) == |Bytes(q[j], config)| {
      DoneFits(q, nodes, config, cfg, j);
    }
    if Left(nodes) == 0 && cfg == |config| {
      forall j | 0 <= j < |q| ensures Fits(q[j], config) {
        assert nodes[j].sent == |nodes[j].image| && Fresh(nodes[j]) == q[j];
      }
    }
    if AllFit(q, config) {
      forall j | 0 <= j < |q| ensures nodes[j].sent == |nodes[j].image| && (q[j].first ==> cfg == |config|) {
        assert Fits(q[j], config) && Fresh(nodes[j]) == q[j] && Split(nodes[j], cfg);
      }
      var f := FirstIndex(q);
    }
  }

  lemma NodeAt(q: seq<Node>, nodes: seq<Node>, config: seq<Byte>, cfg: nat, at: nat, m: nat)
    requires Matches(q, nodes, config, cfg, at) && m < |nodes|
    ensures |q| == |nodes| && at <= |nodes| && cfg <= |config|
    ensures Fresh(nodes[m]) == q[m] && nodes[m].sent <= |nodes[m].image|
  {}

  lemma StuckStays(q: seq<Node>, nodes: seq<Node>, config: seq<Byte>, cfg: nat, at: nat, next: seq<Node>, cfg': nat)
    requires Matches(q, nodes, config, cfg, at) && Stuck(nodes, at) && cfg' <= |config|
    requires |next| == |nodes| && next == nodes[at := next[at]]
    requires Fresh(next[at]) == Fresh(nodes[at]) && next[at].sent <= |next[at].image|
    requires next[at].checked && next[at].cur <= 65535
    ensures Matches(q, next, config, cfg', at) && Stuck(next, at)
  {}

  lemma NotBegun(nodes: seq<Node>, cfg: nat, at: nat, k: nat)
    requires InOrder(nodes, cfg, at) && at < k < |nodes|
    ensures !nodes[k].checked
  {}

  lemma CheckedUnder(q: seq<Node>, nodes: seq<Node>, config: seq<Byte>, cfg: nat, at: nat)
    requires Matches(q, nodes, config, cfg, at) && InOrder(nodes, cfg, at) && AllPlanful(q, config)
    requires at < |nodes| && nodes[at].checked
    ensures Under(nodes[at], cfg) && Split(nodes[at], cfg) && Fresh(nodes[at]) == q[at] && Planful(q[at], config)
    ensures cfg <= |config| && |q| == |nodes|
  {
    hide EndOf, LastOf, Bytes, Count;
  }

  /** The step of SendFragment on an orderly queue, with the fragment it sends. */
  lemma FragmentStep(q: seq<Node>, nodes: seq<Node>, config: seq<Byte>, cfg: nat, at: nat)
    requires Matches(q, nodes, config, cfg, at) && InOrder(nodes, cfg, at) && OneFirst(q) && AllPlanful(q, config)
    requires at < |nodes| && nodes[at].checked
    ensures var n := nodes[at];
            var len := FragmentLen(n);
            var a := Min(len, |n.image| - n.sent);
            var next := nodes[at := Advanced(n, a)];
            var k := if Advanced(n, a).cur > n.end then at + 1 else at;
            && cfg + (len - a) <= |config| && 1 <= len <= 252
            && Matches(q, next, config, cfg + (len - a), k) && InOrder(next, cfg + (len - a), k)
            && (Fits(q[at], config) ==>
                  Progress(q, next, config, k) == Progress(q, nodes, config, at)
                    + [[1, 0x20, 0xfc]
                       + ([len + 1, Index(n.cur)] + (n.image[n.sent..n.sent + a] + config[cfg..cfg + (len - a)]))])
  {
    hide OneFirst, Progress, Index, Bytes, Count, Planned, EndOf, LastOf, Frame, Matches, InOrder;
    var n := nodes[at];
    CheckedUnder(q, nodes, config, cfg, at);
    FragmentOne(n, config, cfg);
    var len := FragmentLen(n);
    var a := Min(len, |n.image| - n.sent);
    var next := nodes[at := Advanced(n, a)];
    var k := if n.cur == n.end then at + 1 else at;
    FragmentKeeps(q, nodes, config, cfg, at, next, cfg + (len - a), k);
    if Fits(q[at], config) {
      FrameIs(n, config, cfg);
      SentBytes(n, config, cfg, len);
      SameBytes(n, config);
      Plan(q[at], config);
      if k < |next| && k == at + 1 { NotBegun(nodes, cfg, at, k); }
      ProgressNext(q, nodes, config, at, next, k);
      var d := n.image[n.sent..n.sent + a] + config[cfg..cfg + (len - a)];
      assert [1, 0x20, 0xfc] + ([len + 1, Index(n.cur)] + d) == [1, 0x20, 0xfc, len + 1, Index(n.cur)] + d;
    }
  }

  lemma StartInOrder(q: seq<Node>, config: seq<Byte>)
    requires AllPlanful(q, config)
    ensures Matches(q, q, config, 0, 0) && InOrder(q, 0, 0) && Left(q) == ImageSum(q) && Progress(q, q, config, 0) == []
  {
    hide EndOf, LastOf, Bytes;
    forall j | 0 <= j < |q| ensures q[j] == Fresh(q[j]) && q[j].sent == 0 {
      assert Planful(q[j], config);
    }
    LeftFresh(q);
    assert q[..0] == [];
  }

  lemma PlanOf(q: seq<Node>, config: seq<Byte>, m: nat)
    requires AllPlanful(q, config) && m < |q|
    ensures 1 <= q[m].last <= 252 && 0 <= q[m].end < 0x1_0000
    ensures q[m].end == 0 || q[m].end == 65535 ==> !Fits(q[m], config)
  {
    hide Planful, Fits;
    Plan(q[m], config);
  }

  lemma NextUp(nodes: seq<Node>, cfg: nat, at: nat)
    requires at < |nodes| && (InOrder(nodes, cfg, at) || Stuck(nodes, at))
    ensures nodes[at].checked ==> nodes[at].cur <= nodes[at].end
    ensures !nodes[at].checked ==> nodes[at].cur == 1 && InOrder(nodes, cfg, at)
  {}

  class PatchSender {
    const config: seq<Byte>
    const fwLen: nat
    ghost const queue: seq<Node>
    var nodes: seq<Node>
    var sentFwLen: nat
    var sentConfigLen: nat
    ghost var at: nat

    ghost predicate Valid()
      reads this
    {
      && at <= |queue| == |nodes|
      && Matches(queue, nodes, config, sentConfigLen, at) && AllPlanful(queue, config) && OneFirst(queue)
      && (InOrder(nodes, sentConfigLen, at) || Stuck(nodes, at))
      && sentFwLen + Left(nodes) == ImageSum(queue) == fwLen
    }

    constructor (queue: seq<Node>, fwLen: nat, config: seq<Byte>)
      requires AllPlanful(queue, config) && OneFirst(queue) && fwLen == ImageSum(queue)
      ensures Valid() && this.queue == queue == nodes && this.config == config && at == 0 && sentConfigLen == 0
      ensures Progress(queue, nodes, config, at) == []
    {
      this.queue, this.nodes, this.fwLen, this.config := queue, queue, fwLen, config;
      sentFwLen, sentConfigLen, at := 0, 0, 0;
      new;
      StartInOrder(queue, config);
    }

    /** The list walk: take up the sections met, pass the complete ones, stop at one with a fragment to send. */
    method Scan() returns (m: nat, newSection: bool, regs: Registers)
      requires Valid()
      modifies `nodes, `at
      ensures Valid() && Left(nodes) == old(Left(nodes)) && m <= |nodes| && old(at) <= at
      ensures m == at && (m < |nodes| ==> nodes[m].checked && nodes[m].cur <= nodes[m].end)
      ensures at > old(at) ==> !Fits(queue[old(at)], config)
      ensures !newSection ==> nodes == old(nodes) && at == old(at)
      ensures newSection && at == old(at) ==>
                && m < |nodes| && !old(nodes)[m].checked && old(nodes)[m].cur == 1 && regs == RegistersOf(queue[m])
                && nodes == old(nodes)[m := old(nodes)[m].(checked := true)]
    {
      hide InOrder, OneFirst, ImageSum, Left, Planful, Fits;
      m, newSection, regs := 0, false, Registers(0, 0, 0, 0);
      while m < |nodes|
        invariant Valid() && m <= at <= |nodes| && old(at) <= at && Left(nodes) == old(Left(nodes))
        invariant at > old(at) ==> !Fits(queue[old(at)], config) && m == at
        invariant !newSection ==> nodes == old(nodes) && at == old(at)
        invariant newSection ==> at > old(at)
      {
        assert Fresh(nodes[m]) == queue[m];
        PlanOf(queue, config, m);
        if m < at {
          assert nodes[m].checked && nodes[m].cur > nodes[m].end;
        } else {
          NextUp(nodes, sentConfigLen, at);
        }
        if !nodes[m].checked {
          regs := RegistersOf(nodes[m]);
          LeftUpdate(nodes, m, nodes[m].(checked := true));
          if nodes[m].end == 0 {
            PassEmpty(queue, nodes, config, sentConfigLen, at);
            at := at + 1;
          } else {
            BeginSection(queue, nodes, config, sentConfigLen, at);
          }
          nodes := nodes[m := nodes[m].(checked := true)];
          newSection := true;
        }
        if nodes[m].cur <= nodes[m].end { break; }
        m := m + 1;
      }
    }

    /** Copying len bytes: from the image, then from the configuration; None where that would read past its end. */
    method Fill(m: nat, len: nat) returns (data: Option<seq<Byte>>)
      requires m < |nodes| && nodes[m].sent <= |nodes[m].image| && sentConfigLen <= |config|
      modifies `nodes, `sentFwLen, `sentConfigLen
      ensures var n := old(nodes)[m];
              var a := Min(len, |n.image| - n.sent);
              if old(sentConfigLen) + (len - a) > |config| then data.None?
              else && data
                      == Some(n.image[n.sent..n.sent + a] + config[old(sentConfigLen)..old(sentConfigLen) + (len - a)])
                   && nodes == old(nodes)[m := n.(sent := n.sent + a)]
                   && sentFwLen == old(sentFwLen) + a && sentConfigLen == old(sentConfigLen) + (len - a)
    {
      var n := nodes[m];
      if n.sent + len <= |n.image| {
        data := Some(n.image[n.sent..n.sent + len] + config[sentConfigLen..sentConfigLen]);
        sentFwLen := sentFwLen + len;
        nodes := nodes[m := n.(sent := n.sent + len)];
      } else {
        var sending := |n.image| - n.sent;
        var remain := len - sending;
        if sentConfigLen + remain > |config| { return None; }
        data := Some(n.image[n.sent..n.sent + sending] + config[sentConfigLen..sentConfigLen + remain]);
        sentFwLen := sentFwLen + sending;
        nodes := nodes[m := n.(sent := n.sent + sending)];
        sentConfigLen := sentConfigLen + remain;
      }
    }

    /** One fragment of the section under way. */
    method SendFragment(m: nat) returns (out: Out, cmd: seq<Byte>)
      requires Valid() && m == at < |nodes| && nodes[at].checked && nodes[at].cur <= nodes[at].end
      modifies `nodes, `sentFwLen, `sentConfigLen, `at
      ensures out.Fragment? || out.Overrun?
      ensures out.Overrun? ==> !Fits(queue[old(at)], config)
      ensures out.Fragment? ==> Valid() && old(at) <= at && |cmd| > 2
      ensures out.Fragment? ==> Left(nodes) - sentConfigLen < old(Left(nodes) - sentConfigLen)
      ensures out.Fragment? ==> at > old(at) || nodes[at].checked
      ensures out.Fragment? && Fits(queue[old(at)], config) ==>
                Progress(queue, nodes, config, at) == old(Progress(queue, nodes, config, at)) + [[1, 0x20, 0xfc] + cmd]
    {
      hide InOrder, OneFirst, ImageSum, Left, Fits, Progress, Index, Matches, AllPlanful, Pos;
      cmd := [];
      ghost var was, cfg := nodes, sentConfigLen;
      var n := nodes[m];
      NodeAt(queue, nodes, config, cfg, m, m);
      PlanOf(queue, config, at);
      var len := FragmentLen(n);
      var a := Min(len, |n.image| - n.sent);
      if InOrder(nodes, sentConfigLen, at) { FragmentStep(queue, nodes, config, sentConfigLen, at); }
      var data := Fill(m, len);
      if data.None? { return Overrun, []; }
      cmd := [len + 1, Index(n.cur)] + data.value;
      var next := nodes[m].(cur := (n.cur + 1) % 0x1_0000);
      nodes := nodes[m := next];
      if next.cur > next.end { at := at + 1; }
      out := Fragment;
      assert nodes == was[m := Advanced(n, a)];
      LeftUpdate(was, m, Advanced(n, a));
      if !InOrder(was, cfg, m) { StuckStays(queue, was, config, cfg, m, nodes, sentConfigLen); }
    }

    /** hci_patch_get_cmd_buf: the next fragment, or the final packet once all has gone out. */
    method GetCmdBuf() returns (out: Out, newSection: bool, regs: Registers, cmd: seq<Byte>)
      requires Valid()
      modifies `nodes, `sentFwLen, `sentConfigLen, `at
      ensures out.Fragment? ==> Valid() && |cmd| > 2 && Left(nodes) - sentConfigLen < old(Left(nodes) - sentConfigLen)
      ensures out.Fragment? && Good(queue, nodes, config, at) ==>
                && old(Good(queue, nodes, config, at))
                && Progress(queue, nodes, config, at)
                   == old(Progress(queue, nodes, config, at)) + (if newSection then Writes(regs) else [])
                      + [[1, 0x20, 0xfc] + cmd]
      ensures out.Final? ==> !newSection && cmd == [1, 0x80] && AllFit(queue, config)
      ensures out.Final? ==>
                old(Good(queue, nodes, config, at) && Progress(queue, nodes, config, at) == QueueTrace(queue, config))
      ensures out.Fail? || out.Overrun? ==> !AllFit(queue, config)
    {
      hide InOrder, OneFirst, ImageSum, Left, Fits, Progress, Matches, AllPlanful, Pos, Writes;
      ghost var was, begin, cfg := nodes, at, sentConfigLen;
      SizesAgree(queue, was, config, cfg, begin);
      cmd := [];
      var m;
      m, newSection, regs := Scan();
      ghost var q, met := queue, nodes;
      SizesAgree(q, nodes, config, cfg, at);
      if m < |nodes| {
        if newSection && m == begin { ProgressBegin(q, was, config, begin); }
        out, cmd := SendFragment(m);
        if out.Fragment? && Good(q, nodes, config, at) {
          SizesAgree(q, nodes, config, sentConfigLen, at);
          GoodBefore(q, was, nodes, config, begin, m, at);
        }
      } else {
        cmd := [1, 0x80];
        AtEnd(q, nodes, config, cfg);
        if sentFwLen != fwLen { return Fail, newSection, regs, cmd; }
        if sentConfigLen != |config| { return Fail, newSection, regs, cmd; }
        out := Final;
      }
    }
  }

  // ---- the download ---------------------------------------------------------------------------

  datatype Ret = Success | Failure | Ignore | Undefined

  lemma NodeImage(m: Image, first: bool, configLen: nat)
    ensures NodeOf(m, first, configLen).image == m.data
  {}

  lemma EncodedLonger(ss: seq<Section>)
    requires ss != []
    ensures |EncodeSections(ss)| == |EncodeSection(ss[0])| + |EncodeSections(ss[1..])|
    ensures ss[0].Patch? ==> |ss[0].image.data| <= |EncodeSection(ss[0])|
  {
    hide LeBytes, Info;
  }

  /** The file is at least as long as its images. */
  lemma {:induction false} ImagesFit(ss: seq<Section>, n: nat, chip: Byte, key: Byte, configLen: nat)
    ensures ImageSum(Accepted(ss, n, chip, key, configLen)) <= |EncodeSections(ss)|
    decreases |ss|
  {
    hide NodeOf, EncodeSections, EncodeSection;
    if ss != [] {
      EncodedLonger(ss);
      if Accepts(ss[0], chip, key) && n < 64 {
        NodeImage(ss[0].image, n == 0, configLen);
        ImagesFit(ss[1..], n + 1, chip, key, configLen);
        var a, rest := Accepted(ss, n, chip, key, configLen), Accepted(ss[1..], n + 1, chip, key, configLen);
        assert a[1..] == rest && a[0].image == ss[0].image.data;
      } else {
        ImagesFit(ss[1..], n, chip, key, configLen);
      }
    }
  }

  lemma NodePlanful(m: Image, first: bool, config: seq<Byte>)
    requires m.data != [] && |m.data| + |config| < 0x1_0000_0000
    ensures Planful(NodeOf(m, first, |config|), config)
  {
    hide EndOf, LastOf;
  }

  lemma {:induction false} AcceptedPlanful(ss: seq<Section>, n: nat, chip: Byte, key: Byte, config: seq<Byte>)
    requires |EncodeSections(ss)| + |config| < 0x1_0000_0000
    ensures AllPlanful(Accepted(ss, n, chip, key, |config|), config)
    decreases |ss|
  {
    hide NodeOf, Planful, EncodeSections, EncodeSection;
    if ss != [] {
      EncodedLonger(ss);
      if Accepts(ss[0], chip, key) && n < 64 {
        AcceptedPlanful(ss[1..], n + 1, chip, key, config);
        NodePlanful(ss[0].image, n == 0, config);
      } else {
        AcceptedPlanful(ss[1..], n, chip, key, config);
      }
    }
  }

  lemma QueuePlanful(a: seq<Node>, q: seq<Node>, config: seq<Byte>)
    requires AllPlanful(a, config) && multiset(q) == multiset(a)
    ensures AllPlanful(q, config)
  {
    hide Planful;
    forall j | 0 <= j < |q| ensures Planful(q[j], config) {
      assert q[j] in multiset(q);
      assert q[j] in a;
    }
  }

  lemma ImageSumPositive(a: seq<Node>, config: seq<Byte>)
    requires AllPlanful(a, config)
    ensures ImageSum(a) == 0 <==> a == []
  {
    hide Bytes, EndOf, LastOf;
    if a != [] { assert Planful(a[0], config); }
  }

  /** The two register writes in front of a new section. */
  method WriteRegisters(regs: Registers) returns (sent: seq<seq<Byte>>)
    ensures sent == Writes(regs)
    ensures forall c :: c in sent ==> |c| == 13
  {
    sent := [];
    if Usable(regs.addr0) { sent := sent + [WriteRegister(regs.addr0, regs.value0)]; }
    if Usable(regs.addr1) { sent := sent + [WriteRegister(regs.addr1, regs.value1)]; }
  }

  lemma MeasureBounded(q: seq<Node>, nodes: seq<Node>, config: seq<Byte>, cfg: nat, at: nat)
    requires Matches(q, nodes, config, cfg, at)
    ensures Left(nodes) + |config| - cfg >= 0
  {
    hide Left;
    LeftZero(nodes);
  }

  /** The sending loop, for a controller that acknowledges every command. */
  method SendQueue(sender: PatchSender, security: Option<Node>) returns (ret: Ret, trace: seq<seq<Byte>>)
    requires sender.Valid() && sender.at == 0 && sender.nodes == sender.queue
    requires Progress(sender.queue, sender.nodes, sender.config, sender.at) == []
    modifies sender
    ensures ret.Success? <==> AllFit(sender.queue, sender.config)
    ensures ret.Success? ==> trace == Expected(sender.queue, security, sender.config)
    ensures !ret.Success? ==> FINAL !in trace
  {
    hide Good, Progress, AllFit, QueueTrace, Matches, AllPlanful, InOrder, Stuck, OneFirst, ImageSum, Left,
      Writes, WriteRegister;
    ghost var q, config := sender.queue, sender.config;
    trace := [];
    while true
      invariant sender.Valid()
      invariant Good(q, sender.nodes, config, sender.at) ==> trace == Progress(q, sender.nodes, config, sender.at)
      invariant forall c :: c in trace ==> |c| > 5
      decreases Left(sender.nodes) + |config| - sender.sentConfigLen
    {
      MeasureBounded(q, sender.nodes, config, sender.sentConfigLen, sender.at);
      var out, newSection, regs, cmd := sender.GetCmdBuf();
      if out.Fail? { return Failure, trace; }
      if out.Overrun? { return Undefined, trace; }
      if newSection {
        var writes := WriteRegisters(regs);
        trace := trace + writes;
      }
      if out.Final? {
        if security.Some? {
          var n := security.value;
          trace := trace + [WriteRegister(n.addr0, (n.value0 + |n.image| - n.value1) % 0x1_0000_0000)];
        }
        assert [1, 0x20, 0xfc] + cmd == FINAL;
        trace := trace + [[1, 0x20, 0xfc] + cmd];
        assert trace == QueueTrace(q, config) + SecurityWrite(security) + [FINAL];
        return Success, trace;
      }
      trace := trace + [[1, 0x20, 0xfc] + cmd];
    }
  }

  lemma SectionsFit(buf: seq<Byte>, ss: seq<Section>)
    requires WellFormed(buf, ss)
    ensures |EncodeSections(ss)| < |buf|
  {
    hide EncodeSections, LeBytes;
  }

  /**
   * hci_download_patch_v3 on a well-formed file: the download succeeds exactly if every queued section
   * has at most 65534 fragments, and then the wire carries the complete download and nothing else.
   * The length of the configuration file is taken in 16 bits.
   */
  method Download(buf: seq<Byte>, file: seq<Byte>, chip: Byte, keyId: nat, ghost ss: seq<Section>)
    returns (ret: Ret, trace: seq<seq<Byte>>)
    requires WellFormed(buf, ss) && |buf| + |ConfigOf(file)| < 0x1_0000_0000
    ensures keyId != 0 ==> ret.Failure? && trace == []
    ensures keyId == 0 ==>
              var config := ConfigOf(file);
              var a := Accepted(ss, 0, chip, 0, |config|);
              var q := InsertAll([], a);
              if a == [] then ret.Ignore? && trace == []
              else && (ret.Success? <==> AllFit(q, config))
                   && (ret.Success? ==> trace == Expected(q, SelectAll(None, a), config))
                   && (ret.Success? ==> CompleteDownload(trace, Images(ss, chip, 0), config))
                   && (!ret.Success? ==> FINAL !in trace)
  {
    hide Accepted, InsertAll, SelectAll, ImageSum, AllFit, Expected, Progress, Planful, OneFirst, Ascending,
      EncodeSections, AllPlanful, CompleteDownload, Images;
    if keyId != 0 { return Failure, []; }
    var config := ConfigOf(file);
    var parser := new PatchParser(chip, 0, |config|);
    var fwLen := parser.ParseSections(buf, ss);
    ghost var a := Accepted(ss, 0, chip, 0, |config|);
    SectionsFit(buf, ss);
    ImagesFit(ss, 0, chip, 0, |config|);
    AcceptedPlanful(ss, 0, chip, 0, config);
    ImageSumPositive(a, config);
    QueueProperties(ss, chip, 0, |config|, 0);
    if fwLen == 0 { return Ignore, []; }
    QueuePlanful(a, parser.nodes, config);
    var sender := new PatchSender(parser.nodes, fwLen, config);
    ret, trace := SendQueue(sender, parser.security);
    ExpectedReads(ss, chip, 0, config);
  }

  /** The data of a sequence of fragments, behind the five bytes in front of each. */
  ghost function Data(frames: seq<seq<Byte>>): seq<Byte> {
    if frames == [] then []
    else
      var f := frames[|frames| - 1];
      Data(frames[..|frames| - 1]) + if |f| >= 5 then f[5..] else []
  }

  lemma MinFacts(k: nat, t: nat)
    ensures Min(252 * k, t) <= t && Min(0, t) == 0 && (k > 0 ==> Min(252 * (k - 1), t) <= Min(252 * k, t))
  {}

  lemma FrameData(n: Node, config: seq<Byte>, k: nat)
    requires k > 0
    ensures var b := Bytes(n, config); var f := Frame(n, config, k);
            |f| >= 5 && f[5..] == b[Min(252 * (k - 1), |b|)..Min(252 * k, |b|)]
  {
    hide Bytes, Index;
  }

  /** The fragments of a section carry its bytes once each and in order. */
  lemma {:induction false} FramesData(n: Node, config: seq<Byte>, k: nat)
    ensures Data(Frames(n, config, k)) == Bytes(n, config)[..Min(252 * k, |Bytes(n, config)|)]
  {
    hide Bytes, Index, Frame, Min;
    var b := Bytes(n, config);
    MinFacts(k, |b|);
    if k > 0 {
      FramesData(n, config, k - 1);
      FrameData(n, config, k);
      var fs, f := Frames(n, config, k), Frame(n, config, k);
      assert fs[..|fs| - 1] == Frames(n, config, k - 1) && fs[|fs| - 1] == f;
      var i, j := Min(252 * (k - 1), |b|), Min(252 * k, |b|);
      MinFacts(k - 1, |b|);
      assert b[..j] == b[..i] + b[i..j];
    }
  }

  lemma SectionData(n: Node, config: seq<Byte>)
    ensures Data(Frames(n, config, Count(|Bytes(n, config)|))) == Bytes(n, config)
  {
    hide Bytes, Frames;
    var b := Bytes(n, config);
    FramesData(n, config, Count(|b|));
    assert b[..|b|] == b;
  }

  // ---- a section that cannot be sent -------------------------------------------------------------

  /** An image for cut 1 without registers, and a file with just this. */
  function PlainImage(data: seq<Byte>): Image { Image(0x28, 1, 0, 0, seq(986, _ => 0), 0, 0, 0, 0, 0, data, []) }

  function FileOf(s: Section): seq<Byte> { seq(20, _ => 0) + (LeBytes(1, 4) + EncodeSections([s])) }

  lemma OneImageFile(data: seq<Byte>)
    requires 0 < |data| < 0x8000_0000
    ensures var s := Patch(PlainImage(data));
            && WellFormed(FileOf(s), [s]) && |FileOf(s)| < 0x8100_0000
            && Accepted([s], 0, 1, 0, 0) == [NodeOf(s.image, true, 0)]
            && InsertAll([], Accepted([s], 0, 1, 0, 0)) == [NodeOf(s.image, true, 0)]
  {
    hide LeBytes, EndOf, LastOf;
    var s := Patch(PlainImage(data));
    assert [s][1..] == [];
    assert |Info(s.image)| == 1024 && |Body(s)| == |data| + 1032;
    assert |EncodeSections([s])| == |data| + 1044;
    var buf := FileOf(s);
    assert buf[20..20 + |buf| - 20] == LeBytes(1, 4) + EncodeSections([s]);
    var n := NodeOf(s.image, true, 0);
    assert Accepted([s], 0, 1, 0, 0) == [n] + Accepted([s][1..], 1, 1, 0, 0);
    assert [n][1..] == [] && InsertAll([], [n]) == InsertAll(Insert([], n), []);
  }

  /**
   * The download of one image succeeds exactly if 65534 fragments hold it: with one byte more no final packet is
   * sent, although the file is well-formed.
   */
  method OneImage(data: seq<Byte>) returns (buf: seq<Byte>, ret: Ret, trace: seq<seq<Byte>>)
    requires 0 < |data| < 0x8000_0000
    ensures WellFormed(buf, [Patch(PlainImage(data))])
    ensures ret.Success? <==> |data| <= 252 * 65534
    ensures !ret.Success? ==> FINAL !in trace
  {
    hide WellFormed, Accepted, InsertAll, SelectAll, Expected, FileOf, EndOf, LastOf;
    OneImageFile(data);
    buf := FileOf(Patch(PlainImage(data)));
    ghost var n := NodeOf(PlainImage(data), true, 0);
    assert Fits(n, []) <==> |data| <= 252 * 65534;
    assert AllFit([n], []) <==> Fits(n, []) by { assert [n][0] == n; }
    ret, trace := Download(buf, [], 1, 0, [Patch(PlainImage(data))]);
  }

  /** One byte more than 65534 fragments hold. */
  method TooLong() returns (buf: seq<Byte>, ret: Ret, trace: seq<seq<Byte>>)
    ensures !ret.Success? && FINAL !in trace
    ensures WellFormed(buf, [Patch(PlainImage(seq(252 * 65534 + 1, _ => 0)))])
  {
    hide WellFormed;
    buf, ret, trace := OneImage(seq(252 * 65534 + 1, _ => 0));
  }
}
