/** The service frame of a client connection: four hexadecimal digits and the service string, in any pieces. */
module SmartSocket {
  import opened Arith
  import opened Lists

  datatype Result = Wait | Failed | Service(name: seq<Byte>)

  // ---- hexadecimal ---------------------------------------------------------------------------

  predicate IsHex(c: Byte) { 48 <= c <= 57 || 97 <= c <= 102 || 65 <= c <= 70 }

  function HexDigit(c: Byte): nat
    requires IsHex(c)
  {
    if c <= 57 then c - 48 else if c >= 97 then c - 87 else c - 55
  }

  /** The digits in both cases, each in its place. */
  lemma HexDigits(c: Byte)
    ensures IsHex(c) <==> c as char in "0123456789abcdef" || c as char in "0123456789ABCDEF"
    ensures IsHex(c) ==>
              var d := HexDigit(c);
              d < 16 && (c as char == "0123456789abcdef"[d] || c as char == "0123456789ABCDEF"[d])
  {
    var lower, upper := "0123456789abcdef", "0123456789ABCDEF";
    if IsHex(c) {
      var d := HexDigit(c);
      assert c as char == lower[d] || c as char == upper[d];
    }
    if i :| 0 <= i < 16 && c as char == lower[i] { assert IsHex(c); }
    if i :| 0 <= i < 16 && c as char == upper[i] { assert IsHex(c); }
  }

  ghost predicate AllHex(s: seq<Byte>) { forall i :: 0 <= i < |s| ==> IsHex(s[i]) }

  /** The number the digits stand for. */
  ghost function HexValue(s: seq<Byte>): nat
    requires AllHex(s)
  {
    if s == [] then 0 else 16 * HexValue(s[..|s| - 1]) + HexDigit(s[|s| - 1])
  }

  lemma Shifted(v: nat, c: nat)
    ensures (v % 0x1_0000_0000 * 16 + c) % 0x1_0000_0000 == (16 * v + c) % 0x1_0000_0000
  {
    var q, r := v / 0x1_0000_0000, v % 0x1_0000_0000;
    assert 16 * v + c == (r * 16 + c) + 0x1_0000_0000 * (16 * q);
  }

  /** unhex: the value in 32 bits, or all ones for a character that is no digit. */
  method Unhex(s: seq<Byte>) returns (n: nat)
    ensures n == if AllHex(s) then HexValue(s) % 0x1_0000_0000 else 0xffff_ffff
  {
    n := 0;
    var i := 0;
    while i < |s|
      invariant 0 <= i <= |s| && AllHex(s[..i]) && n == HexValue(s[..i]) % 0x1_0000_0000
    {
      if !IsHex(s[i]) { return 0xffff_ffff; }
      assert s[..i + 1][..i] == s[..i];
      Shifted(HexValue(s[..i]), HexDigit(s[i]));
      n := (n * 16 + HexDigit(s[i])) % 0x1_0000_0000;
      i := i + 1;
    }
    assert s[..|s|] == s;
  }

  /** The digit "%x" prints. */
  function Printed(d: nat): Byte
    requires d < 16
  {
    if d < 10 then 48 + d else 87 + d
  }

  /** "%04x" of a number of at most four digits. */
  function Hex4(n: nat): seq<Byte>
    requires n < 0x1_0000
  {
    [Printed(n / 4096), Printed(n / 256 % 16), Printed(n / 16 % 16), Printed(n % 16)]
  }

  lemma PrintedDigit(d: nat)
    requires d < 16
    ensures IsHex(Printed(d)) && HexDigit(Printed(d)) == d
  {}

  lemma HexSnoc(s: seq<Byte>, c: Byte)
    requires AllHex(s) && IsHex(c)
    ensures AllHex(s + [c]) && HexValue(s + [c]) == 16 * HexValue(s) + HexDigit(c)
  {
    assert (s + [c])[..|s|] == s;
  }

  lemma FourDigits(n: int)
    requires 0 <= n < 0x1_0000
    ensures 0 <= n / 4096 < 16 && 16 * (n / 4096) + n / 256 % 16 == n / 256
    ensures 16 * (n / 256) + n / 16 % 16 == n / 16 && 16 * (n / 16) + n % 16 == n
  {}

  lemma NoDigits()
    ensures AllHex([]) && HexValue([]) == 0
  {}

  /** unhex inverts "%04x". */
  lemma HexRoundTrip(n: nat)
    requires n < 0x1_0000
    ensures AllHex(Hex4(n)) && HexValue(Hex4(n)) == n
  {
    hide HexValue, HexDigit, IsHex, Printed;
    FourDigits(n);
    var a, b, c, d := n / 4096, n / 256 % 16, n / 16 % 16, n % 16;
    PrintedDigit(a);
    PrintedDigit(b);
    PrintedDigit(c);
    PrintedDigit(d);
    NoDigits();
    var s: seq<Byte> := [];
    HexSnoc(s, Printed(a));
    HexSnoc(s + [Printed(a)], Printed(b));
    HexSnoc(s + [Printed(a)] + [Printed(b)], Printed(c));
    HexSnoc(s + [Printed(a)] + [Printed(b)] + [Printed(c)], Printed(d));
    assert Hex4(n) == s + [Printed(a)] + [Printed(b)] + [Printed(c)] + [Printed(d)];
  }

  // ---- the frame -------------------------------------------------------------------------------

  function Frame(service: seq<Byte>): seq<Byte>
    requires |service| < 0x1_0000
  {
    Hex4(|service|) + service
  }

  /** What the bytes collected so far amount to. */
  ghost function Decided(data: seq<Byte>): Result {
    if |data| < 4 then Wait
    else
      var len := if AllHex(data[..4]) then HexValue(data[..4]) % 0x1_0000_0000 else 0xffff_ffff;
      if len < 1 || len > 1024 then Failed
      else if len + 4 > |data| then Wait
      else Service(data[4..4 + len])
  }

  lemma FourBytes(n: nat)
    requires n < 0x1_0000
    ensures |Hex4(n)| == 4
  {}

  /** A prefix of a frame is waited on, and only the whole of it recognised, as the service. */
  lemma FrameDecides(service: seq<Byte>, data: seq<Byte>)
    requires 1 <= |service| <= 1024 && data <= Frame(service)
    ensures Decided(data) == if data == Frame(service) then Service(service) else Wait
  {
    hide HexValue, AllHex, Hex4;
    var f := Frame(service);
    HexRoundTrip(|service|);
    FourBytes(|service|);
    if |data| >= 4 {
      assert data[..4] == f[..4] == Hex4(|service|);
      if data == f { assert f[4..4 + |service|] == service; } else { assert |data| < |f|; }
    } else {
      assert |data| < |f|;
    }
  }

  class SmartSocket {
    /** The data of the first packet, to which the others are added. */
    var data: seq<Byte>
    var started: bool

    constructor ()
      ensures data == [] && !started
    {
      data, started := [], false;
    }

    /** smart_socket_enqueue up to the service string. */
    method Enqueue(p: seq<Byte>) returns (r: Result)
      modifies this
      ensures started
      ensures old(started) && |old(data)| + |p| > 4096 ==> r == Failed && data == old(data)
      ensures !(old(started) && |old(data)| + |p| > 4096) ==>
                data == (if old(started) then old(data) + p else p) && r == Decided(data)
    {
      if !started {
        data, started := p, true;
      } else {
        if |data| + |p| > 4096 { return Failed; }
        data := data + p;
      }
      if |data| < 4 { return Wait; }
      var len := Unhex(data[..4]);
      if len < 1 || len > 1024 { return Failed; }
      if len + 4 > |data| { return Wait; }
      r := Service(data[4..4 + len]);
    }
  }

  lemma Empty(service: seq<Byte>)
    requires |service| <= 1024
    ensures Concat([]) == [] && Frame(service) != []
  {}

  lemma Longer(cs: seq<seq<Byte>>)
    requires cs != [] && forall i :: 0 <= i < |cs| ==> cs[i] != []
    ensures Concat(cs) != []
  {}

  /** The first pieces are a prefix of the frame, and the whole of it only together with the last. */
  lemma Piece(service: seq<Byte>, pieces: seq<seq<Byte>>, k: nat)
    requires 1 <= |service| <= 1024 && Concat(pieces) == Frame(service) && k < |pieces|
    requires forall i :: 0 <= i < |pieces| ==> pieces[i] != []
    ensures Concat(pieces[..k + 1]) == Concat(pieces[..k]) + pieces[k] && Concat(pieces[..k + 1]) <= Frame(service)
    ensures Concat(pieces[..k + 1]) == Frame(service) <==> k == |pieces| - 1
    ensures |Concat(pieces[..k])| + |pieces[k]| <= 4096 && (k == 0 ==> [] + pieces[0] == pieces[0])
  {
    hide Hex4;
    FourBytes(|service|);
    assert pieces[..k + 1] == pieces[..k] + [pieces[k]];
    ConcatAppend(pieces[..k], pieces[k]);
    assert pieces == pieces[..k + 1] + pieces[k + 1..];
    ConcatSplit(pieces[..k + 1], pieces[k + 1..]);
    if k < |pieces| - 1 { Longer(pieces[k + 1..]); } else { assert pieces[..k + 1] == pieces; }
  }

  /**
   * A client's frame in any pieces, none of them empty: the socket waits on every piece but the last, and
   * with the last recognises exactly the service that was sent.
   */
  method Deliver(service: seq<Byte>, pieces: seq<seq<Byte>>) returns (results: seq<Result>)
    requires 1 <= |service| <= 1024 && Concat(pieces) == Frame(service)
    requires forall i :: 0 <= i < |pieces| ==> pieces[i] != []
    ensures |results| == |pieces| > 0
    ensures forall i :: 0 <= i < |pieces| ==> results[i] == if i == |pieces| - 1 then Service(service) else Wait
  {
    hide Frame, Concat, Decided;
    var s := new SmartSocket();
    results := [];
    Empty(service);
    for k := 0 to |pieces|
      invariant s.data == Concat(pieces[..k]) && (s.started <==> k > 0) && |results| == k
      invariant forall i :: 0 <= i < k ==> results[i] == if i == |pieces| - 1 then Service(service) else Wait
    {
      Piece(service, pieces, k);
      FrameDecides(service, Concat(pieces[..k + 1]));
      var r := s.Enqueue(pieces[k]);
      results := results + [r];
    }
    assert pieces[..|pieces|] == pieces;
  }
}
