/**
 * SHA-1 as libmincrypt computes it, in both of its builds: the unrolled one that rotates the
 * names of the registers and swaps bytes by word, and the plain one. Both are proved against
 * sections 5.1.1, 6.1.1 and 6.1.2 of FIPS 180-4.
 */
module Sha1 {
  import opened Arith

  // ---- FIPS 180-4 -------------------------------------------------------------

  function Rotl1(x: bv32): bv32 { (x << 1) | (x >> 31) }
  function Rotl5(x: bv32): bv32 { (x << 5) | (x >> 27) }
  function Rotl30(x: bv32): bv32 { (x << 30) | (x >> 2) }

  function Ch(x: bv32, y: bv32, z: bv32): bv32 { (x & y) ^ (!x & z) }
  function Parity(x: bv32, y: bv32, z: bv32): bv32 { x ^ y ^ z }
  function Maj(x: bv32, y: bv32, z: bv32): bv32 { (x & y) ^ (x & z) ^ (y & z) }

  function F(t: nat, x: bv32, y: bv32, z: bv32): bv32 {
    if t < 20 then Ch(x, y, z) else if t < 40 then Parity(x, y, z) else if t < 60 then Maj(x, y, z) else Parity(x, y, z)
  }

  function K(t: nat): bv32 {
    if t < 20 then 0x5A827999 else if t < 40 then 0x6ED9EBA1 else if t < 60 then 0x8F1BBCDC else 0xCA62C1D6
  }

  datatype Regs = Regs(a: bv32, b: bv32, c: bv32, d: bv32, e: bv32)

  const INITIAL: Regs := Regs(0x67452301, 0xEFCDAB89, 0x98BADCFE, 0x10325476, 0xC3D2E1F0)

  function Xor4(x: bv32, y: bv32, z: bv32, w: bv32): bv32 { x ^ y ^ z ^ w }
  function Add(x: bv32, y: bv32): bv32 { x + y }

  /** The new first word of a round. */
  function Temp(rot: bv32, f: bv32, e: bv32, k: bv32, w: bv32): bv32 { rot + f + e + k + w }

  /** The message schedule of a block of sixteen words. */
  function Schedule(block: seq<bv32>, t: nat): bv32
    requires |block| == 16
  {
    if t < 16 then block[t] else
      Rotl1(Xor4(Schedule(block, t - 3), Schedule(block, t - 8), Schedule(block, t - 14), Schedule(block, t - 16)))
  }

  function Round(r: Regs, t: nat, w: bv32): Regs {
    Regs(Temp(Rotl5(r.a), F(t, r.b, r.c, r.d), r.e, K(t), w), r.a, Rotl30(r.b), r.c, r.d)
  }

  function Rounds(h: Regs, block: seq<bv32>, t: nat): Regs
    requires |block| == 16
  {
    if t == 0 then h else Round(Rounds(h, block, t - 1), t - 1, Schedule(block, t - 1))
  }

  function Sum(h: Regs, r: Regs): Regs {
    Regs(Add(h.a, r.a), Add(h.b, r.b), Add(h.c, r.c), Add(h.d, r.d), Add(h.e, r.e))
  }

  function Compress(h: Regs, block: seq<bv32>): Regs
    requires |block| == 16
  {
    Sum(h, Rounds(h, block, 80))
  }

  function BeWord(b0: bv8, b1: bv8, b2: bv8, b3: bv8): bv32 {
    ((b0 as bv32) << 24) | ((b1 as bv32) << 16) | ((b2 as bv32) << 8) | (b3 as bv32)
  }

  function Bits(b: Byte): bv8 { b as bv8 }

  function WordOf(s: seq<Byte>, t: nat): bv32
    requires 4 * t + 3 < |s|
  {
    BeWord(Bits(s[4 * t]), Bits(s[4 * t + 1]), Bits(s[4 * t + 2]), Bits(s[4 * t + 3]))
  }

  function Words(s: seq<Byte>): (w: seq<bv32>)
    requires |s| == 64
    ensures |w| == 16
  {
    seq(16, t requires 0 <= t < 16 => WordOf(s, t))
  }

  /** The hash value after the first k blocks of m. */
  function Chain(m: seq<Byte>, k: nat): Regs
    requires 64 * k <= |m|
  {
    if k == 0 then INITIAL else Compress(Chain(m, k - 1), Words(m[64 * (k - 1)..64 * k]))
  }

  function Zeros(k: nat): seq<Byte> { seq(k, _ => 0) }

  /** Byte i of a 64-bit number, most significant first. */
  function LengthByte(x: nat, i: nat): Byte
    requires i < 8
  {
    PowPositive(256, 7 - i);
    x / Pow(256, 7 - i) % 256
  }

  function Be64(x: nat): seq<Byte> {
    seq(8, i requires 0 <= i < 8 => LengthByte(x, i))
  }

  /** Section 5.1.1: a 1 bit, zeros up to 448 bits modulo 512, and the bit length in 64 bits. */
  function Padded(m: seq<Byte>): seq<Byte> {
    m + [0x80] + Zeros((119 - |m| % 64) % 64) + Be64(8 * |m| % 0x1_0000_0000_0000_0000)
  }

  /** Byte k of a word, 0 being the least significant. */
  function LeByte(x: bv32, k: nat): bv8
    requires k < 4
  {
    match k
    case 0 => (x & 0xff) as bv8
    case 1 => ((x >> 8) & 0xff) as bv8
    case 2 => ((x >> 16) & 0xff) as bv8
    case _ => ((x >> 24) & 0xff) as bv8
  }

  function DigestByte(x: bv32, k: nat): Byte
    requires k < 4
  {
    LeByte(x, 3 - k) as int
  }

  function RegAt(r: Regs, i: nat): bv32
    requires i < 5
  {
    match i case 0 => r.a case 1 => r.b case 2 => r.c case 3 => r.d case _ => r.e
  }

  function DigestOf(r: Regs): (d: seq<Byte>)
    ensures |d| == 20
  {
    seq(20, j requires 0 <= j < 20 => DigestByte(RegAt(r, j / 4), j % 4))
  }

  lemma PadLength(len: nat, q: nat, r: nat)
    requires len == 64 * q + r && r < 64
    ensures (len + 1 + (119 - r) % 64 + 8) % 64 == 0
  {
    if r <= 55 {
      assert len + 1 + (119 - r) % 64 + 8 == 64 * (q + 1);
    } else {
      assert len + 1 + (119 - r) % 64 + 8 == 64 * (q + 2);
    }
  }

  lemma PaddedBlocks(m: seq<Byte>)
    ensures |Padded(m)| % 64 == 0
  {
    hide Pow, LengthByte;
    assert |Be64(8 * |m| % 0x1_0000_0000_0000_0000)| == 8;
    PadLength(|m|, |m| / 64, |m| % 64);
  }

  /** Section 6.1.2. */
  function Sha1(m: seq<Byte>): seq<Byte> {
    PaddedBlocks(m);
    DigestOf(Chain(Padded(m), |Padded(m)| / 64))
  }

  // ---- the code's forms of the bit operations -----------------------------------

  function ChCode(b: bv32, c: bv32, d: bv32): bv32 { d ^ (b & (c ^ d)) }
  function MajCode(b: bv32, c: bv32, d: bv32): bv32 { (b & c) | (d & (b | c)) }

  /** E += rot + w + f + k, as the macros SHA_F1 to SHA_F4 write it. */
  function Mix(e: bv32, rot: bv32, w: bv32, f: bv32, k: bv32): bv32 { e + (rot + w + f + k) }

  /** tmp = rot + e + w; tmp += f + k, as the plain loop writes it. */
  function MixPlain(rot: bv32, e: bv32, w: bv32, f: bv32, k: bv32): bv32 { (rot + e + w) + (f + k) }

  lemma ChForm(b: bv32, c: bv32, d: bv32)
    ensures ChCode(b, c, d) == Ch(b, c, d)
  {
    assert d ^ (b & (c ^ d)) == (b & c) ^ (!b & d);
  }

  lemma MajForm(b: bv32, c: bv32, d: bv32)
    ensures MajCode(b, c, d) == Maj(b, c, d)
  {
    assert (b & c) | (d & (b | c)) == (b & c) ^ (b & d) ^ (c & d);
  }

  lemma MixForm(e: bv32, rot: bv32, w: bv32, f: bv32, k: bv32)
    ensures Mix(e, rot, w, f, k) == MixPlain(rot, e, w, f, k) == Temp(rot, f, e, k, w)
  {}

  function Bswap32(x: bv32): bv32 {
    (x << 24) | ((x & 0xff00) << 8) | ((x >> 8) & 0xff00) | (x >> 24)
  }

  function LeWord(b0: bv8, b1: bv8, b2: bv8, b3: bv8): bv32 {
    (b0 as bv32) | ((b1 as bv32) << 8) | ((b2 as bv32) << 16) | ((b3 as bv32) << 24)
  }

  lemma SwapLoad(b0: bv8, b1: bv8, b2: bv8, b3: bv8)
    ensures Bswap32(LeWord(b0, b1, b2, b3)) == BeWord(b0, b1, b2, b3)
  {}

  lemma SwapStore(x: bv32)
    ensures (Bswap32(x) & 0xff) == (x >> 24) & 0xff
    ensures ((Bswap32(x) >> 8) & 0xff) == (x >> 16) & 0xff
    ensures ((Bswap32(x) >> 16) & 0xff) == (x >> 8) & 0xff
    ensures ((Bswap32(x) >> 24) & 0xff) == x & 0xff
  {}

  // ---- the unrolled rounds ------------------------------------------------------

  /** W[0..t] holds the schedule. */
  ghost predicate Filled(W: seq<bv32>, block: seq<bv32>, t: nat)
    requires |block| == 16 && |W| == 80 && t <= 80
  {
    forall j :: 0 <= j < t ==> W[j] == Schedule(block, j)
  }

  /** SHA_F1 for t < 16: load a byte-swapped word and mix it in. */
  method ShaLoad(W: array<bv32>, buf: array<Byte>, ghost h: Regs, A: bv32, B: bv32, C: bv32, D: bv32, E: bv32, t: nat)
    returns (E': bv32, B': bv32)
    requires W.Length == 80 && buf.Length == 64 && t < 16
    requires Filled(W[..], Words(buf[..]), t)
    requires Regs(A, B, C, D, E) == Rounds(h, Words(buf[..]), t)
    modifies W
    ensures Filled(W[..], Words(buf[..]), t + 1)
    ensures Regs(E', A, B', C, D) == Rounds(h, Words(buf[..]), t + 1)
  {
    hide Bswap32, LeWord, BeWord, Rotl5, Rotl30, Ch, ChCode, Bits, Mix, Temp;
    var b0, b1, b2, b3 := Bits(buf[4 * t]), Bits(buf[4 * t + 1]), Bits(buf[4 * t + 2]), Bits(buf[4 * t + 3]);
    SwapLoad(b0, b1, b2, b3);
    W[t] := Bswap32(LeWord(b0, b1, b2, b3));
    ChForm(B, C, D);
    MixForm(E, Rotl5(A), W[t], ChCode(B, C, D), 0x5A827999);
    E' := Mix(E, Rotl5(A), W[t], ChCode(B, C, D), 0x5A827999);
    B' := Rotl30(B);
  }

  /** One step of the schedule: W[t] = ror31(W[t-3] ^ W[t-8] ^ W[t-14] ^ W[t-16]). */
  method ShaSchedule(W: array<bv32>, ghost block: seq<bv32>, t: nat)
    requires W.Length == 80 && |block| == 16 && 16 <= t < 80 && Filled(W[..], block, t)
    modifies W
    ensures Filled(W[..], block, t + 1)
  {
    hide Rotl1, Xor4;
    W[t] := Rotl1(Xor4(W[t - 3], W[t - 8], W[t - 14], W[t - 16]));
  }

  /** SHA_F1 for 16 <= t < 20, and SHA_F2, SHA_F3, SHA_F4 by the range of t. */
  method ShaStep(W: array<bv32>, ghost block: seq<bv32>, ghost h: Regs, A: bv32, B: bv32, C: bv32, D: bv32, E: bv32,
                 t: nat)
    returns (E': bv32, B': bv32)
    requires W.Length == 80 && |block| == 16 && 16 <= t < 80 && Filled(W[..], block, t)
    requires Regs(A, B, C, D, E) == Rounds(h, block, t)
    modifies W
    ensures Filled(W[..], block, t + 1)
    ensures Regs(E', A, B', C, D) == Rounds(h, block, t + 1)
  {
    hide Rotl1, Xor4, Rotl5, Rotl30, Ch, ChCode, Maj, MajCode, Parity, Mix, Temp, Schedule;
    ShaSchedule(W, block, t);
    if t < 20 {
      ChForm(B, C, D);
      MixForm(E, Rotl5(A), W[t], ChCode(B, C, D), 0x5A827999);
      E' := Mix(E, Rotl5(A), W[t], ChCode(B, C, D), 0x5A827999);
    } else if t < 40 {
      MixForm(E, Rotl5(A), W[t], Parity(B, C, D), 0x6ED9EBA1);
      E' := Mix(E, Rotl5(A), W[t], Parity(B, C, D), 0x6ED9EBA1);
    } else if t < 60 {
      MajForm(B, C, D);
      MixForm(E, Rotl5(A), W[t], MajCode(B, C, D), 0x8F1BBCDC);
      E' := Mix(E, Rotl5(A), W[t], MajCode(B, C, D), 0x8F1BBCDC);
    } else {
      MixForm(E, Rotl5(A), W[t], Parity(B, C, D), 0xCA62C1D6);
      E' := Mix(E, Rotl5(A), W[t], Parity(B, C, D), 0xCA62C1D6);
    }
    B' := Rotl30(B);
  }

  lemma RoundsStart(h: Regs, block: seq<bv32>)
    requires |block| == 16
    ensures Rounds(h, block, 0) == h
  {}

  lemma FilledStart(W: seq<bv32>, block: seq<bv32>)
    requires |block| == 16 && |W| == 80
    ensures Filled(W, block, 0)
  {}

  /** Rounds 0 to 19, five a turn, the registers renamed instead of moved. */
  method UnrolledFirst(W: array<bv32>, buf: array<Byte>, h: Regs) returns (A: bv32, B: bv32, C: bv32, D: bv32, E: bv32)
    requires W.Length == 80 && buf.Length == 64
    modifies W
    ensures Filled(W[..], Words(buf[..]), 20)
    ensures Regs(A, B, C, D, E) == Rounds(h, Words(buf[..]), 20)
  {
    hide Rounds, Schedule, Words, Filled;
    ghost var block := Words(buf[..]);
    RoundsStart(h, block);
    FilledStart(W[..], block);
    A, B, C, D, E := h.a, h.b, h.c, h.d, h.e;
    var t := 0;
    while t < 15
      invariant 0 <= t <= 15 && t % 5 == 0
      invariant Words(buf[..]) == block && Filled(W[..], block, t)
      invariant Regs(A, B, C, D, E) == Rounds(h, block, t)
    {
      E, B := ShaLoad(W, buf, h, A, B, C, D, E, t);
      D, A := ShaLoad(W, buf, h, E, A, B, C, D, t + 1);
      C, E := ShaLoad(W, buf, h, D, E, A, B, C, t + 2);
      B, D := ShaLoad(W, buf, h, C, D, E, A, B, t + 3);
      A, C := ShaLoad(W, buf, h, B, C, D, E, A, t + 4);
      t := t + 5;
    }
    E, B := ShaLoad(W, buf, h, A, B, C, D, E, t);
    D, A := ShaStep(W, block, h, E, A, B, C, D, t + 1);
    C, E := ShaStep(W, block, h, D, E, A, B, C, t + 2);
    B, D := ShaStep(W, block, h, C, D, E, A, B, t + 3);
    A, C := ShaStep(W, block, h, B, C, D, E, A, t + 4);
  }

  /** Rounds 20 to 79. */
  method UnrolledRest(W: array<bv32>, ghost block: seq<bv32>, ghost h: Regs, a: bv32, b: bv32, c: bv32, d: bv32,
                      e: bv32)
    returns (A: bv32, B: bv32, C: bv32, D: bv32, E: bv32)
    requires W.Length == 80 && |block| == 16 && Filled(W[..], block, 20)
    requires Regs(a, b, c, d, e) == Rounds(h, block, 20)
    modifies W
    ensures Regs(A, B, C, D, E) == Rounds(h, block, 80)
  {
    hide Rounds, Schedule, Filled;
    A, B, C, D, E := a, b, c, d, e;
    var t := 20;
    while t < 80
      invariant 20 <= t <= 80 && t % 5 == 0
      invariant Filled(W[..], block, t)
      invariant Regs(A, B, C, D, E) == Rounds(h, block, t)
    {
      E, B := ShaStep(W, block, h, A, B, C, D, E, t);
      D, A := ShaStep(W, block, h, E, A, B, C, D, t + 1);
      C, E := ShaStep(W, block, h, D, E, A, B, C, t + 2);
      B, D := ShaStep(W, block, h, C, D, E, A, B, t + 3);
      A, C := ShaStep(W, block, h, B, C, D, E, A, t + 4);
      t := t + 5;
    }
  }

  // ---- the chain over a growing message ------------------------------------------

  /** st and the first bytes of b are the context after the message m. */
  ghost predicate Holds(m: seq<Byte>, st: Regs, b: seq<Byte>) {
    && |b| == 64
    && st == Chain(m, |m| / 64)
    && b[..|m| % 64] == m[|m| - |m| % 64..]
  }

  lemma {:induction false} ChainPrefix(m: seq<Byte>, x: seq<Byte>, k: nat)
    requires 64 * k <= |m|
    ensures Chain(m + x, k) == Chain(m, k)
  {
    hide Compress, Words;
    if k > 0 {
      ChainPrefix(m, x, k - 1);
      assert (m + x)[64 * (k - 1)..64 * k] == m[64 * (k - 1)..64 * k];
    }
  }

  /** Bytes that do not complete the block only enter the buffer. */
  lemma Buffered(m: seq<Byte>, x: seq<Byte>, st: Regs, b: seq<Byte>, b': seq<Byte>)
    requires Holds(m, st, b) && |m| % 64 + |x| < 64
    requires |b'| == 64 && b'[..|m| % 64 + |x|] == b[..|m| % 64] + x
    ensures Holds(m + x, st, b')
  {
    hide Chain;
    ChainPrefix(m, x, |m| / 64);
    assert (m + x)[|m| - |m| % 64..] == m[|m| - |m| % 64..] + x;
  }

  /** Bytes that complete the block are compressed with what was buffered. */
  lemma Completed(m: seq<Byte>, x: seq<Byte>, st: Regs, b: seq<Byte>, b': seq<Byte>)
    requires Holds(m, st, b) && |m| % 64 + |x| == 64
    requires |b'| == 64 && b' == b[..|m| % 64] + x
    ensures Holds(m + x, Compress(st, Words(b')), b')
    ensures |m + x| % 64 == 0
  {
    hide Compress, Words;
    var k := |m| / 64;
    ChainPrefix(m, x, k);
    assert |m + x| == 64 * (k + 1);
    assert (m + x)[64 * k..64 * (k + 1)] == b';
    assert b'[..0] == (m + x)[|m + x|..];
  }

  lemma LoadWord(s: seq<Byte>, t: nat)
    requires |s| == 64 && t < 16
    ensures Schedule(Words(s), t) == BeWord(Bits(s[4 * t]), Bits(s[4 * t + 1]), Bits(s[4 * t + 2]), Bits(s[4 * t + 3]))
  {
    hide BeWord, Bits;
  }

  lemma NotYet(len: nat)
    requires len % 64 < 63
    ensures (len + 1) % 64 == len % 64 + 1
  {}

  lemma CountGrows(len: nat, more: nat)
    ensures (len % 0x1_0000_0000_0000_0000 + more) % 0x1_0000_0000_0000_0000 == (len + more) % 0x1_0000_0000_0000_0000
    ensures (len % 0x1_0000_0000_0000_0000) % 64 == len % 64
  {
    var q, r := len / 0x1_0000_0000_0000_0000, len % 0x1_0000_0000_0000_0000;
    ModShift(r + more, q, 0x1_0000_0000_0000_0000);
    ModShift(r, q * 0x400_0000_0000_0000, 64);
    assert len == r + q * 0x1_0000_0000_0000_0000 == r + q * 0x400_0000_0000_0000 * 64;
  }

  lemma LengthWraps(len: nat)
    ensures (len % 0x1_0000_0000_0000_0000) * 8 % 0x1_0000_0000_0000_0000 == 8 * len % 0x1_0000_0000_0000_0000
  {
    var q, r := len / 0x1_0000_0000_0000_0000, len % 0x1_0000_0000_0000_0000;
    ModShift(r * 8, 8 * q, 0x1_0000_0000_0000_0000);
    assert 8 * len == r * 8 + 8 * q * 0x1_0000_0000_0000_0000;
  }

  /** While the padding zeros are not complete the count is not 56 modulo 64, and then it is. */
  lemma ZerosLeft(len: nat, z: nat, total: nat, count: nat)
    requires total == len + 1 + z && z <= (119 - len % 64) % 64 && count == total % 0x1_0000_0000_0000_0000
    ensures count % 64 == 56 <==> z == (119 - len % 64) % 64
  {
    var q, r := len / 64, len % 64;
    CountGrows(total, 0);
    ModShift(r + 1 + z, q, 64);
    assert total == r + 1 + z + q * 64;
    if r <= 55 {
      ModShift(55 - r, 1, 64);
      ModSmall(55 - r, 64);
      assert 119 - r == 55 - r + 1 * 64;
      ModSmall(r + 1 + z, 64);
    } else {
      ModSmall(119 - r, 64);
      if r + 1 + z < 64 {
        ModSmall(r + 1 + z, 64);
      } else {
        ModShift(r + 1 + z - 64, 1, 64);
        ModSmall(r + 1 + z - 64, 64);
      }
    }
  }

  lemma FullBlocks(m: seq<Byte>, st: Regs, b: seq<Byte>)
    requires Holds(m, st, b) && |m| % 64 == 0
    ensures st == Chain(m, |m| / 64)
  {
    hide Chain;
  }

  lemma DigestWord(r: Regs, i: nat)
    requires i < 5
    ensures var x := RegAt(r, i);
            DigestOf(r)[4 * i..4 * (i + 1)] == [DigestByte(x, 0), DigestByte(x, 1), DigestByte(x, 2), DigestByte(x, 3)]
  {
    hide DigestByte, RegAt;
  }

  lemma SwapStoreBytes(x: bv32)
    ensures LeByte(Bswap32(x), 0) as int == DigestByte(x, 0)
    ensures LeByte(Bswap32(x), 1) as int == DigestByte(x, 1)
    ensures LeByte(Bswap32(x), 2) as int == DigestByte(x, 2)
    ensures LeByte(Bswap32(x), 3) as int == DigestByte(x, 3)
  {
    hide Bswap32;
    SwapStore(x);
  }

  class ShaCtx {
    /** Which of the two builds: HAVE_ENDIAN_H && HAVE_LITTLE_ENDIAN selects the unrolled one. */
    const unrolled: bool
    var count: nat
    var state: Regs
    const buf: array<Byte>
    /** The message absorbed so far. */
    ghost var msg: seq<Byte>

    ghost predicate Valid()
      reads this, buf
    {
      && buf.Length == 64
      && count == |msg| % 0x1_0000_0000_0000_0000
      && Holds(msg, state, buf[..])
    }

    constructor (unrolled: bool)
      ensures Valid() && msg == [] && fresh(buf) && this.unrolled == unrolled
    {
      this.unrolled := unrolled;
      state := INITIAL;
      count := 0;
      buf := new Byte[64];
      msg := [];
    }

    /** The unrolled transform. */
    method TransformUnrolled()
      requires buf.Length == 64
      modifies this`state
      ensures state == Compress(old(state), Words(buf[..]))
    {
      hide Rounds, Schedule, Words, Filled;
      var W := new bv32[80];
      var A, B, C, D, E := UnrolledFirst(W, buf, state);
      A, B, C, D, E := UnrolledRest(W, Words(buf[..]), state, A, B, C, D, E);
      state := Sum(state, Regs(A, B, C, D, E));
    }

    /** The plain transform: the schedule first, then eighty rounds moving the registers. */
    method TransformPlain()
      requires buf.Length == 64
      modifies this`state
      ensures state == Compress(old(state), Words(buf[..]))
    {
      hide Schedule, Words, Rotl1, Rotl5, Rotl30, Ch, ChCode, Maj, MajCode, Parity, MixPlain, Temp, BeWord, Bits;
      var W := new bv32[80];
      ghost var h, block := state, Words(buf[..]);
      var t := 0;
      while t < 16
        invariant 0 <= t <= 16 && Words(buf[..]) == block && state == h && Filled(W[..], block, t)
      {
        LoadWord(buf[..], t);
        W[t] := BeWord(Bits(buf[4 * t]), Bits(buf[4 * t + 1]), Bits(buf[4 * t + 2]), Bits(buf[4 * t + 3]));
        t := t + 1;
      }
      while t < 80
        invariant 16 <= t <= 80 && Words(buf[..]) == block && state == h && Filled(W[..], block, t)
      {
        ShaSchedule(W, block, t);
        t := t + 1;
      }
      var A, B, C, D, E := state.a, state.b, state.c, state.d, state.e;
      t := 0;
      while t < 80
        invariant 0 <= t <= 80 && Words(buf[..]) == block && state == h && Filled(W[..], block, 80)
        invariant Regs(A, B, C, D, E) == Rounds(h, block, t)
      {
        var f, k: bv32;
        if t < 20 {
          ChForm(B, C, D);
          f, k := ChCode(B, C, D), 0x5A827999;
        } else if t < 40 {
          f, k := Parity(B, C, D), 0x6ED9EBA1;
        } else if t < 60 {
          MajForm(B, C, D);
          f, k := MajCode(B, C, D), 0x8F1BBCDC;
        } else {
          f, k := Parity(B, C, D), 0xCA62C1D6;
        }
        MixForm(E, Rotl5(A), W[t], f, k);
        var tmp := MixPlain(Rotl5(A), E, W[t], f, k);
        E := D;
        D := C;
        C := Rotl30(B);
        B := A;
        A := tmp;
        t := t + 1;
      }
      state := Sum(state, Regs(A, B, C, D, E));
    }

    method Transform()
      requires buf.Length == 64
      modifies this`state
      ensures state == Compress(old(state), Words(buf[..]))
    {
      if unrolled { TransformUnrolled(); } else { TransformPlain(); }
    }

    /** As many bytes as fill the buffer, and the buffer into the state. */
    method PutBlock(data: seq<Byte>, p: nat, i: nat, ghost m: seq<Byte>)
      requires buf.Length == 64 && i < 64 && i == |m| % 64 && p + (64 - i) <= |data| && Holds(m, state, buf[..])
      modifies this`state, buf
      ensures Holds(m + data[p..p + (64 - i)], state, buf[..]) && |m + data[p..p + (64 - i)]| % 64 == 0
    {
      hide Chain, Compress, Words, Holds;
      ghost var b, x := buf[..], data[p..p + (64 - i)];
      CopyInto(data, p, i);
      Completed(m, x, state, b, buf[..]);
      Transform();
    }

    /** One byte into the buffer, and a full buffer into the state. */
    method PutByte(b: Byte, i: nat, ghost m: seq<Byte>) returns (i': nat)
      requires buf.Length == 64 && i < 64 && i == |m| % 64 && Holds(m, state, buf[..])
      modifies this`state, buf
      ensures Holds(m + [b], state, buf[..]) && i' < 64 && i' == |m + [b]| % 64
    {
      hide Chain, Compress, Words, Holds;
      ghost var was, x := buf[..], [b];
      buf[i] := b;
      assert buf[..i + 1] == was[..i] + x;
      i' := i + 1;
      if i' == 64 {
        assert buf[..] == was[..63] + x;
        Completed(m, x, state, was, buf[..]);
        Transform();
        i' := 0;
      } else {
        Buffered(m, x, state, was, buf[..]);
        NotYet(|m|);
      }
    }

    /** SHA_update: whole blocks first in the unrolled build, then byte by byte. */
    method Update(data: seq<Byte>)
      requires Valid()
      modifies this, buf
      ensures Valid() && msg == old(msg) + data
    {
      hide Chain, Compress, Words, Holds;
      var i := count % 64;
      var p := 0;
      CountGrows(|msg|, |data|);
      count := (count + |data|) % 0x1_0000_0000_0000_0000;
      ghost var m, c := msg, count;
      assert m + data[..0] == m;
      if unrolled {
        while |data| - p > 64 - i
          invariant 0 <= p <= |data| && 0 <= i < 64 && i == |m| % 64
          invariant m == msg + data[..p] && msg == old(msg)
          invariant Holds(m, state, buf[..])
          invariant count == c
        {
          ghost var x := data[p..p + (64 - i)];
          assert data[..p + (64 - i)] == data[..p] + x;
          PutBlock(data, p, i, m);
          m := m + x;
          p := p + (64 - i);
          i := 0;
        }
      }
      while p < |data|
        invariant 0 <= p <= |data| && 0 <= i < 64 && i == |m| % 64
        invariant m == msg + data[..p] && msg == old(msg)
        invariant Holds(m, state, buf[..])
        invariant count == c
      {
        assert data[..p + 1] == data[..p] + [data[p]];
        i := PutByte(data[p], i, m);
        m := m + [data[p]];
        p := p + 1;
      }
      assert data[..p] == data;
      msg := m;
    }

    method CopyInto(data: seq<Byte>, p: nat, i: nat)
      requires buf.Length == 64 && i < 64 && p + (64 - i) <= |data|
      modifies buf
      ensures buf[..] == old(buf[..i]) + data[p..p + (64 - i)]
    {
      forall j | i <= j < 64 { buf[j] := data[p + j - i]; }
    }

    /** SHA_final: pad, absorb the length, and leave the digest at the front of the buffer. */
    method Final()
      requires Valid()
      modifies this, buf
      ensures buf[..20] == Sha1(old(msg))
    {
      hide Chain, Compress, Words, Holds, DigestOf, LengthByte;
      ghost var m := msg;
      var cnt := count * 8 % 0x1_0000_0000_0000_0000;
      LengthWraps(|m|);
      Update([0x80]);
      ghost var z := 0;
      while count % 64 != 56
        invariant Valid()
        invariant 0 <= z <= (119 - |m| % 64) % 64 && msg == m + [0x80] + Zeros(z)
        decreases (119 - |m| % 64) % 64 - z
      {
        ZerosLeft(|m|, z, |msg|, count);
        Update([0]);
        assert Zeros(z) + [0] == Zeros(z + 1);
        z := z + 1;
      }
      ZerosLeft(|m|, z, |msg|, count);
      ghost var m1 := msg;
      var i := 0;
      while i < 8
        invariant 0 <= i <= 8 && Valid()
        invariant msg == m1 + Be64(cnt)[..i]
      {
        var tmp := LengthByte(cnt, i);
        Update([tmp]);
        assert Be64(cnt)[..i + 1] == Be64(cnt)[..i] + [tmp];
        i := i + 1;
      }
      assert Be64(cnt)[..8] == Be64(cnt);
      assert msg == Padded(m);
      PaddedBlocks(m);
      FullBlocks(msg, state, buf[..]);
      i := 0;
      while i < 5
        invariant 0 <= i <= 5 && DigestOf(state) == Sha1(m)
        invariant buf[..4 * i] == DigestOf(state)[..4 * i]
      {
        StoreWord(i);
        i := i + 1;
      }
    }

    /** One word of the digest, swapped and stored whole in the unrolled build, else byte by byte. */
    method StoreWord(i: nat)
      requires buf.Length == 64 && i < 5
      modifies buf
      ensures buf[..4 * (i + 1)] == old(buf[..4 * i]) + DigestOf(state)[4 * i..4 * (i + 1)]
    {
      var x := RegAt(state, i);
      ghost var d := DigestOf(state)[4 * i..4 * (i + 1)];
      DigestWord(state, i);
      hide DigestOf, DigestByte, RegAt, LeByte, Bswap32;
      if unrolled {
        SwapStoreBytes(x);
        var w := Bswap32(x);
        Put4(4 * i, LeByte(w, 0) as int, LeByte(w, 1) as int, LeByte(w, 2) as int, LeByte(w, 3) as int);
      } else {
        Put4(4 * i, DigestByte(x, 0), DigestByte(x, 1), DigestByte(x, 2), DigestByte(x, 3));
      }
    }

    method Put4(p: nat, b0: Byte, b1: Byte, b2: Byte, b3: Byte)
      requires p + 4 <= buf.Length
      modifies buf
      ensures buf[..p + 4] == old(buf[..p]) + [b0, b1, b2, b3]
    {
      buf[p] := b0;
      buf[p + 1] := b1;
      buf[p + 2] := b2;
      buf[p + 3] := b3;
    }
  }

  /** SHA: the digest of data, in either build. */
  method Digest(unrolled: bool, data: seq<Byte>) returns (digest: seq<Byte>)
    ensures digest == Sha1(data)
  {
    var ctx := new ShaCtx(unrolled);
    ctx.Update(data);
    assert [] + data == data;
    ctx.Final();
    digest := ctx.buf[..20];
  }
}
