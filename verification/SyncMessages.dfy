/**
 * The messages of the file sync protocol: headers, data in chunks, names, requests, and how a stream of them
 * is read back.
 */
module SyncMessages {
  import opened Arith
  import opened Lists
  import opened LittleEndian

  const ID_DATA: nat := 0x41544144
  const ID_DONE: nat := 0x454e4f44
  const ID_OKAY: nat := 0x59414b4f
  const ID_FAIL: nat := 0x4c494146
  const ID_SEND: nat := 0x444e4553
  const ID_RECV: nat := 0x56434552
  const ID_STAT: nat := 0x54415453
  const ID_LIST: nat := 0x5453494c
  const ID_QUIT: nat := 0x54495551

  function Ascii(s: string): (b: seq<Byte>)
    requires forall i :: 0 <= i < |s| ==> s[i] < 128 as char
    ensures |b| == |s|
  {
    seq(|s|, i requires 0 <= i < |s| => s[i] as int)
  }

  /** The number of four bytes is written as these. */
  lemma FourBytes(x: nat, b0: Byte, b1: Byte, b2: Byte, b3: Byte)
    requires x == b0 as int + 256 * (b1 as int + 256 * (b2 as int + 256 * b3 as int))
    ensures LeBytes(x, 4) == [b0, b1, b2, b3]
  {
    var y, z := b1 as int + 256 * (b2 as int + 256 * b3 as int), b2 as int + 256 * b3 as int;
    assert x % 256 == b0 && x / 256 == y && y % 256 == b1 && y / 256 == z && z % 256 == b2 && z / 256 == b3;
    assert LeBytes(b3, 1) == [b3] + LeBytes(0, 0);
    assert LeBytes(z, 2) == [b2] + LeBytes(b3, 1);
    assert LeBytes(y, 3) == [b1] + LeBytes(z, 2);
  }

  /** On the wire an id is its name. */
  lemma IdNames()
    ensures LeBytes(ID_DATA, 4) == Ascii("DATA") && LeBytes(ID_DONE, 4) == Ascii("DONE")
    ensures LeBytes(ID_OKAY, 4) == Ascii("OKAY") && LeBytes(ID_FAIL, 4) == Ascii("FAIL")
    ensures LeBytes(ID_SEND, 4) == Ascii("SEND") && LeBytes(ID_RECV, 4) == Ascii("RECV")
    ensures LeBytes(ID_STAT, 4) == Ascii("STAT") && LeBytes(ID_LIST, 4) == Ascii("LIST")
    ensures LeBytes(ID_QUIT, 4) == Ascii("QUIT")
  {
    hide LeBytes;
    FourBytes(ID_DATA, 'D' as int, 'A' as int, 'T' as int, 'A' as int);
    FourBytes(ID_DONE, 'D' as int, 'O' as int, 'N' as int, 'E' as int);
    FourBytes(ID_OKAY, 'O' as int, 'K' as int, 'A' as int, 'Y' as int);
    FourBytes(ID_FAIL, 'F' as int, 'A' as int, 'I' as int, 'L' as int);
    FourBytes(ID_SEND, 'S' as int, 'E' as int, 'N' as int, 'D' as int);
    FourBytes(ID_RECV, 'R' as int, 'E' as int, 'C' as int, 'V' as int);
    FourBytes(ID_STAT, 'S' as int, 'T' as int, 'A' as int, 'T' as int);
    FourBytes(ID_LIST, 'L' as int, 'I' as int, 'S' as int, 'T' as int);
    FourBytes(ID_QUIT, 'Q' as int, 'U' as int, 'I' as int, 'T' as int);
  }

  type Path = seq<Byte>
  type Files = map<Path, seq<Byte>>

  // ---- messages ---------------------------------------------------------------------------

  /** A message header: an id and a size, 32 bits each. */
  function Header(id: nat, size: nat): (h: seq<Byte>)
    ensures |h| == 8
  {
    LeBytes(id, 4) + LeBytes(size, 4)
  }

  function EncodeChunks(cs: seq<seq<Byte>>): seq<Byte> {
    if cs == [] then [] else EncodeChunks(cs[..|cs| - 1]) + (Header(ID_DATA, |cs[|cs| - 1]|) + cs[|cs| - 1])
  }

  ghost predicate ChunksFit(cs: seq<seq<Byte>>) {
    forall i :: 0 <= i < |cs| ==> |cs[i]| <= 65536
  }

  function FailMessage(reason: seq<Byte>): seq<Byte> { Header(ID_FAIL, |reason|) + reason }

  lemma Snoc(cs: seq<seq<Byte>>, c: seq<Byte>)
    ensures EncodeChunks(cs + [c]) == EncodeChunks(cs) + (Header(ID_DATA, |c|) + c)
            && Concat(cs + [c]) == Concat(cs) + c
  {
    assert (cs + [c])[..|cs|] == cs;
    ConcatAppend(cs, c);
  }

  lemma HeaderAt(buf: seq<Byte>, p: nat, id: nat, size: nat)
    requires At(buf, p, Header(id, size)) && id < 0x1_0000_0000 && size < 0x1_0000_0000
    ensures p + 8 <= |buf| && Read(buf, p, 4) == id && Read(buf, p + 4, 4) == size
  {
    hide LeBytes, Read, At;
    LePowers();
    AtSplit(buf, p, LeBytes(id, 4), LeBytes(size, 4));
    AtNumber(buf, p, id, 4);
    AtNumber(buf, p + 4, size, 4);
  }

  /** Eight bytes are always a header. */
  lemma HeaderOf(buf: seq<Byte>, p: nat)
    requires p + 8 <= |buf|
    ensures Read(buf, p, 4) < 0x1_0000_0000 && Read(buf, p + 4, 4) < 0x1_0000_0000
    ensures buf[p..p + 8] == Header(Read(buf, p, 4), Read(buf, p + 4, 4))
  {
    LePowers();
    LeInverse(buf[p..p + 4]);
    LeInverse(buf[p + 4..p + 8]);
    assert buf[p..p + 8] == buf[p..p + 4] + buf[p + 4..p + 8];
  }

  /** The rest of a planned stream of chunks, from chunk k on. */
  ghost predicate Planned(buf: seq<Byte>, p: nat, cs: seq<seq<Byte>>, k: nat, tail: seq<Byte>) {
    k <= |cs| && At(buf, p, EncodeChunks(cs[k..]) + tail)
  }

  lemma NoneEncoded()
    ensures EncodeChunks([]) == [] && Concat([]) == [] && ChunksFit([])
  {}

  lemma {:induction false} EncodeCons(c: seq<Byte>, cs: seq<seq<Byte>>)
    ensures EncodeChunks([c] + cs) == Header(ID_DATA, |c|) + c + EncodeChunks(cs)
    decreases |cs|
  {
    hide Header, EncodeChunks, Concat;
    if cs == [] {
      NoneEncoded();
      assert [c] + cs == [] + [c];
      Snoc([], c);
    } else {
      var front, d := cs[..|cs| - 1], cs[|cs| - 1];
      EncodeCons(c, front);
      assert cs == front + [d] && [c] + cs == ([c] + front) + [d];
      Snoc([c] + front, d);
      Snoc(front, d);
    }
  }

  /** The next chunk of a planned stream stands at its position. */
  lemma NextPlanned(buf: seq<Byte>, p: nat, cs: seq<seq<Byte>>, k: nat, tail: seq<Byte>)
    requires Planned(buf, p, cs, k, tail) && k < |cs| && ChunksFit(cs)
    ensures p + 8 + |cs[k]| <= |buf| && Read(buf, p, 4) == ID_DATA && Read(buf, p + 4, 4) == |cs[k]|
    ensures buf[p + 8..p + 8 + |cs[k]|] == cs[k] && Planned(buf, p + 8 + |cs[k]|, cs, k + 1, tail)
  {
    hide EncodeChunks, At, Header, Read;
    var c := cs[k];
    assert cs[k..] == [c] + cs[k + 1..];
    EncodeCons(c, cs[k + 1..]);
    var rest := EncodeChunks(cs[k + 1..]) + tail;
    assert EncodeChunks(cs[k..]) + tail == Header(ID_DATA, |c|) + (c + rest);
    AtSplit(buf, p, Header(ID_DATA, |c|), c + rest);
    AtSplit(buf, p + 8, c, rest);
    HeaderAt(buf, p, ID_DATA, |c|);
    AtSlice(buf, p + 8, c);
  }

  lemma LastPlanned(buf: seq<Byte>, p: nat, cs: seq<seq<Byte>>, tail: seq<Byte>)
    requires Planned(buf, p, cs, |cs|, tail)
    ensures At(buf, p, tail)
  {
    assert cs[|cs|..] == [];
    assert EncodeChunks([]) + tail == tail;
  }

  lemma FitsMore(cs: seq<seq<Byte>>, c: seq<Byte>)
    requires ChunksFit(cs) && |c| <= 65536
    ensures ChunksFit(cs + [c])
  {}

  /** What a reader makes of the next message. */
  datatype Message = Chunk(data: seq<Byte>) | Done(time: nat) | Invalid(id: nat, size: nat) | Oversize | Lost

  /** How a planned transfer ends: a failure of so many bytes may have lost some of them. */
  datatype End = EndDone(time: nat) | EndFail(size: nat, text: seq<Byte>)

  function EndBytes(e: End): seq<Byte> {
    match e
    case EndDone(t) => Header(ID_DONE, t)
    case EndFail(size, text) => Header(ID_FAIL, size) + text
  }

  predicate EndFits(e: End) { (if e.EndDone? then e.time else e.size) < 0x1_0000_0000 }

  lemma AsPlanned(buf: seq<Byte>, p: nat, cs: seq<seq<Byte>>, k: nat, end: End)
    requires Planned(buf, p, cs, k, EndBytes(end)) && ChunksFit(cs) && EndFits(end)
    ensures k <= |cs| && p + 8 <= |buf|
    ensures if k < |cs|
            then && Read(buf, p, 4) == ID_DATA && Read(buf, p + 4, 4) == |cs[k]| <= 65536 && p + 8 + |cs[k]| <= |buf|
                 && buf[p + 8..p + 8 + |cs[k]|] == cs[k] && Planned(buf, p + 8 + |cs[k]|, cs, k + 1, EndBytes(end))
            else if end.EndDone? then Read(buf, p, 4) == ID_DONE && Read(buf, p + 4, 4) == end.time
            else Read(buf, p, 4) == ID_FAIL && Read(buf, p + 4, 4) == end.size && p + 8 + |end.text| <= |buf|
  {
    hide Read, Header, EncodeChunks, At;
    if k < |cs| {
      NextPlanned(buf, p, cs, k, EndBytes(end));
    } else {
      LastPlanned(buf, p, cs, EndBytes(end));
      if end.EndDone? {
        HeaderAt(buf, p, ID_DONE, end.time);
      } else {
        AtSplit(buf, p, Header(ID_FAIL, end.size), end.text);
        HeaderAt(buf, p, ID_FAIL, end.size);
        AtSlice(buf, p + 8, end.text);
      }
    }
  }

  // ---- reading a planned stream -----------------------------------------------------------------

  /** The chunks cs were read from start to pos, and they are the first of the plan if there is one. */
  ghost predicate So(input: seq<Byte>, start: nat, pos: nat, cs: seq<seq<Byte>>, plan: Option<seq<seq<Byte>>>,
                     end: End) {
    && start <= pos <= |input| && input[start..pos] == EncodeChunks(cs)
    && (plan.Some? ==>
          && |cs| <= |plan.value| && cs == plan.value[..|cs|] && ChunksFit(plan.value)
          && Planned(input, pos, plan.value, |cs|, EndBytes(end)))
  }

  lemma Joined(input: seq<Byte>, start: nat, p: nat, pos: nat)
    requires start <= p <= pos <= |input|
    ensures input[start..pos] == input[start..p] + input[p..pos]
  {}

  lemma TakeOne(cs: seq<seq<Byte>>, k: nat)
    requires k < |cs|
    ensures cs[..k + 1] == cs[..k] + [cs[k]]
  {}

  lemma Nothing(input: seq<Byte>, start: nat, plan: Option<seq<seq<Byte>>>, end: End)
    requires start <= |input|
    requires plan.Some? ==> ChunksFit(plan.value) && Planned(input, start, plan.value, 0, EndBytes(end))
    ensures So(input, start, start, [], plan, end) && Concat([]) == []
  {
    hide Planned, Header;
  }

  lemma Next(input: seq<Byte>, start: nat, pos: nat, cs: seq<seq<Byte>>, plan: Option<seq<seq<Byte>>>, end: End)
    requires So(input, start, pos, cs, plan, end)
    ensures plan.Some? ==>
              ChunksFit(plan.value) && Planned(input, pos, plan.value, |cs|, EndBytes(end)) && |cs| <= |plan.value|
  {}

  /** What stands at the position of a planned stream. */
  lemma Ending(input: seq<Byte>, start: nat, p: nat, cs: seq<seq<Byte>>, plan: Option<seq<seq<Byte>>>, end: End)
    requires So(input, start, p, cs, plan, end) && EndFits(end)
    ensures plan.Some? ==> p + 8 <= |input| && |cs| <= |plan.value|
    ensures plan.Some? && |cs| < |plan.value| ==>
              var c := plan.value[|cs|];
              && Read(input, p, 4) == ID_DATA && Read(input, p + 4, 4) == |c| <= 65536 && p + 8 + |c| <= |input|
              && input[p + 8..p + 8 + |c|] == c && Planned(input, p + 8 + |c|, plan.value, |cs| + 1, EndBytes(end))
    ensures plan.Some? && |cs| == |plan.value| && end.EndDone? ==>
              Read(input, p, 4) == ID_DONE && Read(input, p + 4, 4) == end.time
    ensures plan.Some? && |cs| == |plan.value| && end.EndFail? ==>
              Read(input, p, 4) == ID_FAIL && Read(input, p + 4, 4) == end.size && p + 8 + |end.text| <= |input|
  {
    hide Planned, Read, EndBytes, EncodeChunks;
    if plan.Some? { AsPlanned(input, p, plan.value, |cs|, end); }
  }

  lemma More(input: seq<Byte>, start: nat, p: nat, pos: nat, cs: seq<seq<Byte>>, plan: Option<seq<seq<Byte>>>,
             end: End, c: seq<Byte>)
    requires So(input, start, p, cs, plan, end) && p <= pos <= |input| && input[p..pos] == Header(ID_DATA, |c|) + c
    requires plan.Some? && |cs| < |plan.value| ==>
               c == plan.value[|cs|] && Planned(input, pos, plan.value, |cs| + 1, EndBytes(end))
    requires plan.Some? ==> |cs| < |plan.value|
    ensures So(input, start, pos, cs + [c], plan, end) && Concat(cs + [c]) == Concat(cs) + c
  {
    hide Planned, Header, EncodeChunks, ChunksFit, Concat, EndBytes;
    Joined(input, start, p, pos);
    Snoc(cs, c);
    assert input[start..pos] == EncodeChunks(cs + [c]);
    if plan.Some? { TakeOne(plan.value, |cs|); }
  }

  lemma Last(input: seq<Byte>, start: nat, p: nat, pos: nat, cs: seq<seq<Byte>>, plan: Option<seq<seq<Byte>>>,
             end: End, time: nat)
    requires So(input, start, p, cs, plan, end) && p <= pos <= |input| && input[p..pos] == Header(ID_DONE, time)
    ensures input[start..pos] == EncodeChunks(cs) + Header(ID_DONE, time)
    ensures plan.Some? && |cs| == |plan.value| ==> cs == plan.value
  {
    hide Planned, Header, EncodeChunks, ChunksFit;
    Joined(input, start, p, pos);
    if plan.Some? && |cs| == |plan.value| { assert plan.value[..|plan.value|] == plan.value; }
  }

  lemma Same(data: seq<Byte>, input: seq<Byte>, p: nat)
    requires |data| == 8 && p + 8 <= |input| && data[0..4] == input[p..p + 4] && data[4..8] == input[p + 4..p + 8]
    ensures Read(data, 0, 4) == Read(input, p, 4) && Read(data, 4, 4) == Read(input, p + 4, 4)
  {}

  // ---- names ---------------------------------------------------------------------------------

  function Digit(d: nat): Byte
    requires d < 10
  {
    48 + d
  }

  /** The decimal digits of n, as %d prints them. */
  function Decimal(n: nat): seq<Byte> {
    if n < 10 then [Digit(n)] else Decimal(n / 10) + [Digit(n % 10)]
  }

  /** The value of a letter or digit, and more than any base for another byte. */
  function DigitOf(b: Byte): nat {
    if 48 <= b <= 57 then b - 48
    else if 97 <= b <= 122 then b - 87
    else if 65 <= b <= 90 then b - 55
    else 99
  }

  /** The digits in front, as strtoul takes them. */
  function Digits(s: seq<Byte>, base: nat): seq<Byte> {
    if s == [] || DigitOf(s[0]) >= base then [] else [s[0]] + Digits(s[1..], base)
  }

  function DigitsValue(s: seq<Byte>, base: nat): nat {
    if s == [] then 0 else base * DigitsValue(s[..|s| - 1], base) + DigitOf(s[|s| - 1])
  }

  function SkipSpaces(s: seq<Byte>): seq<Byte> {
    if s != [] && (s[0] == 32 || 9 <= s[0] <= 13) then SkipSpaces(s[1..]) else s
  }

  /** One more than the largest unsigned long. */
  const ULONG: nat := 0x1_0000_0000_0000_0000

  /** strtoul with base 0: spaces, a sign, and a number in hexadecimal, octal or decimal; None is ERANGE. */
  function ModeOf(s: seq<Byte>): Option<nat> {
    var t := SkipSpaces(s);
    var u := if t != [] && (t[0] == 43 || t[0] == 45) then t[1..] else t;
    var hex := |u| >= 3 && u[0] == 48 && (u[1] == 120 || u[1] == 88) && DigitOf(u[2]) < 16;
    var base := if hex then 16 else if u != [] && u[0] == 48 then 8 else 10;
    var v := DigitsValue(Digits(if hex then u[2..] else u, base), base);
    if v >= ULONG then None
    else if t != [] && t[0] == 45 then Some((ULONG - v) % ULONG)
    else Some(v)
  }

  predicate IsLink(mode: int) { mode / 0x1000 % 16 == 10 }

  predicate IsRegular(mode: int) { mode / 0x1000 % 16 == 8 }

  /** The type of a file is in the bits of the octal mask 170000: 120000 for a link, 100000 for a regular file. */
  lemma FileTypes(mode: nat)
    ensures IsLink(mode) <==> 0xa000 <= mode % 0x1_0000 < 0xb000
    ensures IsRegular(mode) <==> 0x8000 <= mode % 0x1_0000 < 0x9000
  {
    var q, r := mode / 0x1_0000, mode % 0x1_0000;
    var h, l := r / 0x1000, r % 0x1000;
    DivMod(mode, 0x1_0000);
    DivMod(r, 0x1000);
    DivUnique(mode, 16 * q + h, l, 0x1000);
    ModShift(h, q, 16);
    ModSmall(h, 16);
  }

  ghost predicate AllDigits(s: seq<Byte>) { forall i :: 0 <= i < |s| ==> 48 <= s[i] <= 57 }

  lemma {:induction false} DecimalValue(n: nat)
    ensures AllDigits(Decimal(n)) && DigitsValue(Decimal(n), 10) == n
    ensures Decimal(n) != [] && (n > 0 ==> Decimal(n)[0] != 48)
  {
    if n < 10 {
      assert [Digit(n)][..0] == [];
      assert DigitsValue([Digit(n)], 10) == 10 * DigitsValue([], 10) + n;
    } else {
      DecimalValue(n / 10);
      var s := Decimal(n);
      assert s[..|s| - 1] == Decimal(n / 10) && s[|s| - 1] == Digit(n % 10);
    }
  }

  lemma {:induction false} DigitsAll(s: seq<Byte>)
    requires AllDigits(s)
    ensures Digits(s, 10) == s
  {
    if s != [] { DigitsAll(s[1..]); }
  }

  /** The decimal digits of a mode are read as that mode. */
  lemma ModeRead(mode: nat)
    ensures ModeOf(Decimal(mode)) == if mode < ULONG then Some(mode) else None
  {
    DecimalValue(mode);
    var d := Decimal(mode);
    assert SkipSpaces(d) == d && d[0] != 43 && d[0] != 45;
    if mode == 0 {
      assert d == [48] && Digits([48], 8) == [48] + Digits([48][1..], 8) && [48][..0] == [];
      assert DigitsValue([48], 8) == 8 * DigitsValue([], 8) + 0;
    } else {
      DigitsAll(d);
    }
  }

  /** A C string ends at its first NUL. */
  function CString(s: seq<Byte>): seq<Byte> {
    if s == [] || s[0] == 0 then [] else [s[0]] + CString(s[1..])
  }

  /** A string ends at its first zero byte. */
  lemma {:induction false} CStringEnds(s: seq<Byte>, rest: seq<Byte>)
    requires forall i :: 0 <= i < |s| ==> s[i] != 0
    ensures CString(s + [0] + rest) == s
  {
    if s != [] {
      CStringEnds(s[1..], rest);
      assert (s + [0] + rest)[1..] == s[1..] + [0] + rest;
    }
  }

  lemma {:induction false} CStringWhole(s: seq<Byte>)
    requires forall i :: 0 <= i < |s| ==> s[i] != 0
    ensures CString(s) == s
  {
    if s != [] { CStringWhole(s[1..]); }
  }

  predicate HasComma(s: seq<Byte>) { 44 in s }

  /** The part in front of the last comma and that behind it; all and nothing without a comma. */
  function SplitName(s: seq<Byte>): (Path, seq<Byte>) {
    if s == [] then ([], [])
    else if s[|s| - 1] == 44 then (s[..|s| - 1], [])
    else
      var (path, mode) := SplitName(s[..|s| - 1]);
      if HasComma(s[..|s| - 1]) then (path, mode + [s[|s| - 1]]) else (s, [])
  }

  /** The name a client makes: the path, a comma, and the mode in decimal. */
  function SendName(path: Path, mode: nat): seq<Byte> { path + ([44] + Decimal(mode)) }

  lemma {:induction false} SplitLast(path: Path, mode: seq<Byte>)
    requires AllDigits(mode)
    ensures SplitName(path + ([44] + mode)) == (path, mode)
    decreases |mode|
  {
    var s := path + ([44] + mode);
    if mode == [] {
      assert s[|s| - 1] == 44 && s[..|s| - 1] == path;
    } else {
      var front := mode[..|mode| - 1];
      SplitLast(path, front);
      var t := path + ([44] + front);
      assert s[..|s| - 1] == t && s[|s| - 1] == mode[|mode| - 1];
      assert t[|path|] == 44;
      assert mode == front + [mode[|mode| - 1]];
    }
  }

  /** The service recovers the path and the mode from the client's name, whatever commas the path has. */
  lemma NameRoundTrip(path: Path, mode: nat)
    requires forall i :: 0 <= i < |path| ==> path[i] != 0
    ensures CString(SendName(path, mode)) == SendName(path, mode)
    ensures SplitName(SendName(path, mode)) == (path, Decimal(mode))
    ensures ModeOf(Decimal(mode)) == if mode < ULONG then Some(mode) else None
  {
    DecimalValue(mode);
    ModeRead(mode);
    CStringWhole(SendName(path, mode));
    SplitLast(path, Decimal(mode));
  }

  lemma {:induction false} DecimalShort(n: nat, k: nat)
    requires 1 <= k <= 10 && n < Pow(10, k)
    ensures |Decimal(n)| <= k
  {
    if n >= 10 {
      assert Pow(10, k) == 10 * Pow(10, k - 1) && Pow(10, 0) == 1;
      DecimalShort(n / 10, k - 1);
    }
  }

  /** A mode takes at most ten digits. */
  lemma ModeShort(mode: nat)
    requires mode < 0x8000_0000
    ensures |Decimal(mode)| <= 10
  {
    DecimalShort(mode, 10);
  }

  lemma NameIs(path: Path, mode: nat)
    ensures SendName(path, mode) == path + ([44] + Decimal(mode))
            && |SendName(path, mode)| == |path| + |[44] + Decimal(mode)|
  {}

  // ---- requests ---------------------------------------------------------------------------------

  /** What a client asks for. */
  datatype Request = SendReq(name: seq<Byte>, cs: seq<seq<Byte>>, t: nat) | RecvReq(name: seq<Byte>)

  function RequestBytes(r: Request): seq<Byte> {
    match r
    case SendReq(name, cs, t) => Header(ID_SEND, |name|) + (name + (EncodeChunks(cs) + Header(ID_DONE, t)))
    case RecvReq(name) => Header(ID_RECV, |name|) + name
  }

  ghost predicate RequestFits(r: Request) {
    |r.name| < 0x1_0000_0000 && (r.SendReq? ==> ChunksFit(r.cs) && r.t < 0x1_0000_0000)
  }

  lemma RequestAt(buf: seq<Byte>, p: nat, r: Request)
    requires At(buf, p, RequestBytes(r)) && RequestFits(r)
    ensures p + 8 + |r.name| <= |buf| && Read(buf, p + 4, 4) == |r.name|
    ensures Read(buf, p, 4) == if r.SendReq? then ID_SEND else ID_RECV
    ensures buf[p + 8..p + 8 + |r.name|] == r.name
    ensures r.SendReq? ==> Planned(buf, p + 8 + |r.name|, r.cs, 0, EndBytes(EndDone(r.t)))
  {
    hide Header, EncodeChunks, At, Read;
    match r
    case SendReq(name, cs, t) =>
      var rest := EncodeChunks(cs) + Header(ID_DONE, t);
      AtSplit(buf, p, Header(ID_SEND, |name|), name + rest);
      AtSplit(buf, p + 8, name, rest);
      HeaderAt(buf, p, ID_SEND, |name|);
      AtSlice(buf, p + 8, name);
      assert cs[0..] == cs;
    case RecvReq(name) =>
      AtSplit(buf, p, Header(ID_RECV, |name|), name);
      HeaderAt(buf, p, ID_RECV, |name|);
      AtSlice(buf, p + 8, name);
  }

  /** A header in front is what is read there. */
  lemma Leads(sent: seq<Byte>, id: nat, size: nat)
    requires |sent| >= 8 && sent[..8] == Header(id, size) && id < 0x1_0000_0000 && size < 0x1_0000_0000
    ensures Read(sent, 0, 4) == id && Read(sent, 4, 4) == size
  {
    hide Header, Read;
    assert sent[0..0 + 8] == sent[..8];
    HeaderAt(sent, 0, id, size);
  }

  lemma EndLeads(end: End, sent: seq<Byte>)
    requires EndFits(end) && sent == [] + EndBytes(end)
    ensures |sent| >= 8 && Read(sent, 0, 4) == if end.EndDone? then ID_DONE else ID_FAIL
    ensures Read(sent, 4, 4) == if end.EndDone? then end.time else end.size
  {
    hide Header, Read;
    if end.EndDone? { Leads(sent, ID_DONE, end.time); } else { Leads(sent, ID_FAIL, end.size); }
  }

  /** The first chunk of a nonempty stream. */
  lemma FirstOf(b: seq<seq<Byte>>, tail: seq<Byte>, sent: seq<Byte>)
    requires b != [] && ChunksFit(b) && sent == EncodeChunks(b) + tail
    ensures |sent| >= 8 + |b[0]| && sent[..8] == Header(ID_DATA, |b[0]|) && sent[8..8 + |b[0]|] == b[0]
    ensures sent[8 + |b[0]|..] == EncodeChunks(b[1..]) + tail && Read(sent, 0, 4) == ID_DATA
            && Read(sent, 4, 4) == |b[0]|
  {
    hide Header, EncodeChunks, Read;
    EncodeCons(b[0], b[1..]);
    assert b == [b[0]] + b[1..];
    assert sent == Header(ID_DATA, |b[0]|) + (b[0] + (EncodeChunks(b[1..]) + tail));
    Leads(sent, ID_DATA, |b[0]|);
  }

  /** A stream of chunks and an end reads in one way only. */
  lemma {:induction false} OneReading(a: seq<seq<Byte>>, id: nat, size: nat, b: seq<seq<Byte>>, end: End,
                                      sent: seq<Byte>)
    requires ChunksFit(a) && ChunksFit(b) && size < 0x1_0000_0000 && EndFits(end)
    requires id < 0x1_0000_0000 && id != ID_DATA
    requires sent == EncodeChunks(b) + EndBytes(end) && EncodeChunks(a) + Header(id, size) <= sent
    ensures a == b && id == (if end.EndDone? then ID_DONE else ID_FAIL)
            && size == if end.EndDone? then end.time else end.size
    decreases |a|
  {
    hide Header, EncodeChunks, Read, At, EndBytes;
    if b == [] { NoneEncoded(); }
    if a == [] {
      NoneEncoded();
      Leads(sent, id, size);
      if b != [] {
        FirstOf(b, EndBytes(end), sent);
      } else {
        EndLeads(end, sent);
      }
    } else {
      var c := a[0];
      FirstOf(a, Header(id, size), EncodeChunks(a) + Header(id, size));
      assert sent[..8] == Header(ID_DATA, |c|);
      Leads(sent, ID_DATA, |c|);
      if b == [] {
        EndLeads(end, sent);
      } else {
        FirstOf(b, EndBytes(end), sent);
        assert sent[8..8 + |c|] == c;
        OneReading(a[1..], id, size, b[1..], end, sent[8 + |c|..]);
        assert a == [a[0]] + a[1..] && b == [b[0]] + b[1..];
      }
    }
  }

  // ---- a file read piece by piece ----------------------------------------------------------------

  /** What a read of up to 65536 bytes may give when some are left: at least one. */
  function ReadSize(want: nat, left: nat): (n: nat)
    requires left > 0
    ensures 0 < n <= left && n <= 65536
  {
    var most := if left < 65536 then left else 65536;
    if 0 < want < most then want else most
  }

  /** Read k fails. Where nothing is said of a read, it succeeds and gives as much as it can. */
  predicate Fails(gives: seq<Option<nat>>, k: nat) { k < |gives| && gives[k].None? }

  /** How many bytes of a file of n bytes the first k reads give. */
  function Taken(n: nat, gives: seq<Option<nat>>, k: nat): (t: nat)
    ensures t <= n
  {
    if k == 0 then 0
    else
      var t := Taken(n, gives, k - 1);
      if t == n then n
      else t + ReadSize(if k <= |gives| && gives[k - 1].Some? then gives[k - 1].value else 65536, n - t)
  }

  /** The number of reads, from k on, until the end of the file or a failure. */
  function Stop(n: nat, gives: seq<Option<nat>>, k: nat): nat
    decreases n - Taken(n, gives, k)
  {
    if Taken(n, gives, k) == n || Fails(gives, k) then k else Stop(n, gives, k + 1)
  }

  /** The whole file can be read: a read that fails comes only behind the end. */
  ghost predicate ReadsAll(n: nat, gives: seq<Option<nat>>) {
    forall k :: 0 <= k < |gives| && Fails(gives, k) ==> Taken(n, gives, k) == n
  }

  /** The pieces the first k reads give. */
  function Pieces(content: seq<Byte>, gives: seq<Option<nat>>, k: nat): seq<seq<Byte>> {
    if k == 0 then []
    else
      var i, j := Taken(|content|, gives, k - 1), Taken(|content|, gives, k);
      Pieces(content, gives, k - 1) + [content[i..j]]
  }

  /** All pieces that can be read, and their bytes. */
  function ReadPieces(content: seq<Byte>, gives: seq<Option<nat>>): seq<seq<Byte>> {
    Pieces(content, gives, Stop(|content|, gives, 0))
  }

  function ReadBytes(content: seq<Byte>, gives: seq<Option<nat>>): (b: seq<Byte>)
    ensures b <= content
  {
    content[..Taken(|content|, gives, Stop(|content|, gives, 0))]
  }

  lemma {:induction false} PiecesConcat(content: seq<Byte>, gives: seq<Option<nat>>, k: nat)
    ensures Concat(Pieces(content, gives, k)) == content[..Taken(|content|, gives, k)]
    ensures ChunksFit(Pieces(content, gives, k)) && |Pieces(content, gives, k)| == k
  {
    hide Concat;
    if k == 0 {
      NoneEncoded();
    } else {
      PiecesConcat(content, gives, k - 1);
      var i, j := Taken(|content|, gives, k - 1), Taken(|content|, gives, k);
      ConcatAppend(Pieces(content, gives, k - 1), content[i..j]);
      assert content[..j] == content[..i] + content[i..j];
    }
  }

  lemma {:induction false} TakenGrows(n: nat, gives: seq<Option<nat>>, i: nat, j: nat)
    requires i <= j
    ensures Taken(n, gives, i) <= Taken(n, gives, j) && (n > 0 && j > 0 ==> Taken(n, gives, j) > 0)
    decreases j - i, j
  {
    if i < j {
      TakenGrows(n, gives, i, j - 1);
    } else if j > 0 {
      TakenGrows(n, gives, j - 1, j - 1);
    }
  }

  /** Nothing has failed when the reads stop, and then the end is reached or the next read fails. */
  lemma {:induction false} Stopped(n: nat, gives: seq<Option<nat>>, k: nat)
    ensures var s := Stop(n, gives, k);
            && k <= s && (Taken(n, gives, s) == n || Fails(gives, s))
            && forall i :: k <= i < s ==> !Fails(gives, i) && Taken(n, gives, i) < n
    decreases n - Taken(n, gives, k)
  {
    if Taken(n, gives, k) < n && !Fails(gives, k) { Stopped(n, gives, k + 1); }
  }

  lemma NoReads(n: nat, gives: seq<Option<nat>>)
    ensures Taken(n, gives, 0) == 0
  {}

  /** The bytes that can be read are a prefix of the file, and all of it exactly if every failure is behind the end. */
  lemma ReadExact(content: seq<Byte>, gives: seq<Option<nat>>)
    ensures Concat(ReadPieces(content, gives)) == ReadBytes(content, gives) && ChunksFit(ReadPieces(content, gives))
    ensures ReadBytes(content, gives) == content <==> ReadsAll(|content|, gives)
    ensures ReadPieces(content, gives) == [] <==> ReadBytes(content, gives) == []
  {
    hide Taken, Stop, Pieces;
    var n := |content|;
    var s := Stop(n, gives, 0);
    PiecesConcat(content, gives, s);
    Stopped(n, gives, 0);
    if Taken(n, gives, s) == n {
      forall k | 0 <= k < |gives| && Fails(gives, k) ensures Taken(n, gives, k) == n {
        TakenGrows(n, gives, s, k);
      }
    }
    assert |content[..Taken(n, gives, s)]| == Taken(n, gives, s);
    NoReads(n, gives);
    if s > 0 {
      assert Taken(n, gives, 0) < n;
      TakenGrows(n, gives, s, s);
    }
  }

  lemma {:induction false} PiecesPrefix(content: seq<Byte>, gives: seq<Option<nat>>, k: nat, s: nat)
    requires k <= s
    ensures EncodeChunks(Pieces(content, gives, k)) <= EncodeChunks(Pieces(content, gives, s))
    decreases s - k
  {
    hide Header, EncodeChunks;
    if k < s {
      PiecesPrefix(content, gives, k, s - 1);
      Snoc(Pieces(content, gives, s - 1), content[Taken(|content|, gives, s - 1)..Taken(|content|, gives, s)]);
    }
  }

  /** The next read of a file and the message that carries it. */
  lemma NextPiece(content: seq<Byte>, gives: seq<Option<nat>>, k: nat)
    requires var n := |content|;
             Taken(n, gives, k) < n && !Fails(gives, k) && Stop(n, gives, k) == Stop(n, gives, 0)
    ensures var n := |content|;
            var i, j := Taken(n, gives, k), Taken(n, gives, k + 1);
            && j == i + ReadSize(if k < |gives| then gives[k].value else 65536, n - i)
               && Stop(n, gives, k + 1) == Stop(n, gives, 0)
            && EncodeChunks(Pieces(content, gives, k + 1))
               == EncodeChunks(Pieces(content, gives, k)) + (Header(ID_DATA, j - i) + content[i..j])
            && EncodeChunks(Pieces(content, gives, k + 1)) <= EncodeChunks(ReadPieces(content, gives))
  {
    hide EncodeChunks, Header;
    var n := |content|;
    var i, j := Taken(n, gives, k), Taken(n, gives, k + 1);
    Snoc(Pieces(content, gives, k), content[i..j]);
    Stopped(n, gives, k + 1);
    PiecesPrefix(content, gives, k + 1, Stop(n, gives, 0));
  }

  /** At the end, or where a read fails, all pieces have been read. */
  lemma AtStop(content: seq<Byte>, gives: seq<Option<nat>>, k: nat)
    requires var n := |content|;
             (Taken(n, gives, k) == n || Fails(gives, k)) && Stop(n, gives, k) == Stop(n, gives, 0)
    ensures Pieces(content, gives, k) == ReadPieces(content, gives)
    ensures ReadsAll(|content|, gives) <==> Taken(|content|, gives, k) == |content|
  {
    ReadExact(content, gives);
    assert |content[..Taken(|content|, gives, k)]| == Taken(|content|, gives, k);
  }

  /** With no failing read at all the whole file is read. */
  lemma AllGivenReads(n: nat, gives: seq<Option<nat>>)
    requires forall k :: 0 <= k < |gives| ==> gives[k].Some?
    ensures ReadsAll(n, gives)
  {}
}
