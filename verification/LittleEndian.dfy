/** Little-endian numbers in a byte string, and reading them at a position. */
module LittleEndian {
  import opened Arith

  /** The number a little-endian byte string stands for; LE_TO_UINT16/32/64 on 2, 4 or 8 bytes. */
  function LeVal(s: seq<Byte>): nat {
    if s == [] then 0 else s[0] + 256 * LeVal(s[1..])
  }

  /** The k-byte little-endian form of x. */
  function LeBytes(x: nat, k: nat): (s: seq<Byte>)
    ensures |s| == k
  {
    if k == 0 then [] else [x % 256] + LeBytes(x / 256, k - 1)
  }

  lemma {:induction false} LeRoundTrip(x: nat, k: nat)
    requires x < Pow(256, k)
    ensures LeVal(LeBytes(x, k)) == x
  {
    if k > 0 {
      LeRoundTrip(x / 256, k - 1);
      assert LeBytes(x, k)[1..] == LeBytes(x / 256, k - 1);
    }
  }

  lemma LowByte(b: int, v: int, m: int)
    requires 0 <= b < 256 && 0 <= v < m
    ensures (b + 256 * v) % 256 == b && (b + 256 * v) / 256 == v && b + 256 * v < 256 * m
  {}

  lemma {:induction false} LeInverse(s: seq<Byte>)
    ensures LeVal(s) < Pow(256, |s|) && LeBytes(LeVal(s), |s|) == s
  {
    if s != [] {
      LeInverse(s[1..]);
      LowByte(s[0], LeVal(s[1..]), Pow(256, |s| - 1));
      assert s == [s[0]] + s[1..];
    }
  }

  lemma LePowers()
    ensures Pow(256, 2) == 0x1_0000 && Pow(256, 4) == 0x1_0000_0000 && Pow(256, 8) == 0x1_0000_0000_0000_0000
  {
    assert Pow(256, 2) == 256 * Pow(256, 1);
    assert Pow(256, 4) == 256 * (256 * Pow(256, 2));
    assert Pow(256, 6) == 256 * (256 * Pow(256, 4));
    assert Pow(256, 8) == 256 * (256 * Pow(256, 6));
  }

  /** part stands in buf at position p. */
  ghost predicate At(buf: seq<Byte>, p: nat, part: seq<Byte>) {
    p + |part| <= |buf| && buf[p..p + |part|] == part
  }

  /** Reading k bytes at p. */
  function Read(buf: seq<Byte>, p: nat, k: nat): nat
    requires p + k <= |buf|
  {
    LeVal(buf[p..p + k])
  }

  lemma AtSplit(buf: seq<Byte>, p: nat, x: seq<Byte>, y: seq<Byte>)
    ensures At(buf, p, x + y) <==> At(buf, p, x) && At(buf, p + |x|, y)
  {
    if At(buf, p, x + y) {
      assert buf[p..p + |x|] == buf[p..p + |x + y|][..|x|] == x;
      assert buf[p + |x|..p + |x| + |y|] == buf[p..p + |x + y|][|x|..] == y;
    }
    if At(buf, p, x) && At(buf, p + |x|, y) {
      assert buf[p..p + |x + y|] == buf[p..p + |x|] + buf[p + |x|..p + |x| + |y|];
    }
  }

  lemma AtSlice(buf: seq<Byte>, p: nat, part: seq<Byte>)
    requires At(buf, p, part)
    ensures p + |part| <= |buf| && buf[p..p + |part|] == part
  {}

  lemma AtByte(buf: seq<Byte>, p: nat, b: Byte)
    requires At(buf, p, [b])
    ensures p < |buf| && buf[p] == b
  {
    assert buf[p..p + 1][0] == b;
  }

  lemma AtNumber(buf: seq<Byte>, p: nat, x: nat, k: nat)
    requires At(buf, p, LeBytes(x, k)) && x < Pow(256, k)
    ensures p + k <= |buf| && Read(buf, p, k) == x
  {
    LeRoundTrip(x, k);
  }
}
