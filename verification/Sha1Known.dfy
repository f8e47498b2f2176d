/**
 * Where the constants of SHA-1 come from, and two messages whose digests are known: "abc", the example of FIPS 180,
 * and the padding block whose digest RSA_e_f4_verify has as a constant. Their schedules and the words their rounds
 * compute are written out, sixteen at a time.
 */
module Sha1Known {
  import opened Arith
  import opened Sha1

  // ---- the constants ----------------------------------------------------------------------------

  /** The constants of the rounds are the square roots of 2, 3, 5 and 10, in units of 2^-30, rounded down. */
  lemma RoundConstants(t: nat)
    requires t < 80
    ensures var k, c := K(t) as int, if t < 20 then 2 else if t < 40 then 3 else if t < 60 then 5 else 10;
            k * k <= c * 0x1000_0000_0000_0000 < (k + 1) * (k + 1)
  {}

  function WordBytes(x: bv32): seq<bv8> { [LeByte(x, 0), LeByte(x, 1), LeByte(x, 2), LeByte(x, 3)] }

  /** The initial words count up and down in hexadecimal digits, least significant byte first. */
  lemma InitialBytes()
    ensures WordBytes(INITIAL.a) + WordBytes(INITIAL.b) == [0x01, 0x23, 0x45, 0x67, 0x89, 0xab, 0xcd, 0xef]
    ensures WordBytes(INITIAL.c) + WordBytes(INITIAL.d) == [0xfe, 0xdc, 0xba, 0x98, 0x76, 0x54, 0x32, 0x10]
    ensures WordBytes(INITIAL.e) == [0xf0, 0xe1, 0xd2, 0xc3]
  {
    assert WordBytes(INITIAL.a) == [0x01, 0x23, 0x45, 0x67] && WordBytes(INITIAL.b) == [0x89, 0xab, 0xcd, 0xef];
    assert WordBytes(INITIAL.c) == [0xfe, 0xdc, 0xba, 0x98] && WordBytes(INITIAL.d) == [0x76, 0x54, 0x32, 0x10];
  }

  lemma ShiftsAsProducts(x: bv32)
    ensures x << 1 == x * 2 && x << 5 == x * 32 && x << 30 == x * 0x4000_0000
    ensures x >> 31 == x / 0x8000_0000 && x >> 27 == x / 0x800_0000 && x >> 2 == x / 4
  {}

  lemma RotationsAsSums(x: bv32)
    ensures Rotl1(x) == Add(x << 1, x >> 31)
    ensures Rotl5(x) == Add(x << 5, x >> 27)
    ensures Rotl30(x) == Add(x << 30, x >> 2)
  {}

  /** A rotation by s multiplies by 2^s modulo 2^32 and adds what went over, the quotient by 2^(32 - s). */
  lemma Rotations(x: bv32)
    ensures Rotl1(x) == Add(x * 2, x / 0x8000_0000)
    ensures Rotl5(x) == Add(x * 32, x / 0x800_0000)
    ensures Rotl30(x) == Add(x * 0x4000_0000, x / 4)
  {
    hide Rotl1, Rotl5, Rotl30, Add;
    ShiftsAsProducts(x);
    RotationsAsSums(x);
  }

  // ---- rounds written out -----------------------------------------------------------------------

  /** w is the word of a schedule that stands 3, 8, 14 and 16 words behind these. */
  predicate Mixes(w3: bv32, w8: bv32, w14: bv32, w16: bv32, w: bv32) {
    w == ((w3 ^ w8 ^ w14 ^ w16) << 1) | ((w3 ^ w8 ^ w14 ^ w16) >> 31)
  }

  /** Round t makes z of registers a to e, a being rotated by 5 bits already. */
  predicate Sums(t: nat, w: bv32, a: bv32, b: bv32, c: bv32, d: bv32, e: bv32, z: bv32) {
    && (t < 20 ==> z == Temp(a, (b & c) ^ (!b & d), e, 0x5A827999, w))
    && (20 <= t < 40 ==> z == Temp(a, b ^ c ^ d, e, 0x6ED9EBA1, w))
    && (40 <= t < 60 ==> z == Temp(a, (b & c) ^ (b & d) ^ (c & d), e, 0x8F1BBCDC, w))
    && (60 <= t ==> z == Temp(a, b ^ c ^ d, e, 0xCA62C1D6, w))
  }

  /** Round t computes z where the five rounds before it computed e, d, c, b and a, in that order. */
  predicate Puts(t: nat, w: bv32, e: bv32, d: bv32, c: bv32, b: bv32, a: bv32, z: bv32) {
    Sums(t, w, (a << 5) | (a >> 27), b, (c << 30) | (c >> 2), (d << 30) | (d >> 2), (e << 30) | (e >> 2), z)
  }

  lemma MixesIs(w3: bv32, w8: bv32, w14: bv32, w16: bv32, w: bv32)
    requires Mixes(w3, w8, w14, w16, w)
    ensures w == Rotl1(Xor4(w3, w8, w14, w16))
  {}

  lemma SumsIs(t: nat, w: bv32, a: bv32, b: bv32, c: bv32, d: bv32, e: bv32, z: bv32)
    requires Sums(t, w, a, b, c, d, e, z)
    ensures z == Temp(a, F(t, b, c, d), e, K(t), w)
  {
    hide Temp;
  }

  lemma PutsIs(t: nat, w: bv32, e: bv32, d: bv32, c: bv32, b: bv32, a: bv32, z: bv32)
    requires Puts(t, w, e, d, c, b, a, z)
    ensures z == Temp(Rotl5(a), F(t, b, Rotl30(c), Rotl30(d)), Rotl30(e), K(t), w)
  {
    hide Temp, F, K, Sums;
    SumsIs(t, w, Rotl5(a), b, Rotl30(c), Rotl30(d), Rotl30(e), z);
  }

  /** The registers behind rounds that computed these words, e being the first. */
  function History(e: bv32, d: bv32, c: bv32, b: bv32, a: bv32): Regs { Regs(a, b, Rotl30(c), Rotl30(d), Rotl30(e)) }

  lemma OneRound(h: Regs, block: seq<bv32>, t: nat, w: bv32, e: bv32, d: bv32, c: bv32, b: bv32, a: bv32, z: bv32)
    requires |block| == 16 && Schedule(block, t) == w && Puts(t, w, e, d, c, b, a, z)
    requires Rounds(h, block, t) == History(e, d, c, b, a)
    ensures Rounds(h, block, t + 1) == History(d, c, b, a, z)
  {
    hide Rotl5, Rotl30, F, K, Temp, Schedule, Puts;
    PutsIs(t, w, e, d, c, b, a, z);
  }

  lemma OneWord(block: seq<bv32>, t: nat, w3: bv32, w8: bv32, w14: bv32, w16: bv32, w: bv32)
    requires |block| == 16 && t >= 16 && Mixes(w3, w8, w14, w16, w)
    requires Schedule(block, t - 3) == w3 && Schedule(block, t - 8) == w8
    requires Schedule(block, t - 14) == w14 && Schedule(block, t - 16) == w16
    ensures Schedule(block, t) == w
  {
    hide Rotl1, Xor4, Mixes;
    MixesIs(w3, w8, w14, w16, w);
  }

  /** These are the words of the schedule from t on. */
  ghost predicate Scheduled(block: seq<bv32>, t: nat,
                            w0: bv32, w1: bv32, w2: bv32, w3: bv32, w4: bv32, w5: bv32, w6: bv32, w7: bv32,
                            w8: bv32, w9: bv32, w10: bv32, w11: bv32, w12: bv32, w13: bv32, w14: bv32, w15: bv32)
    requires |block| == 16
  {
    && Schedule(block, t + 0) == w0
    && Schedule(block, t + 1) == w1
    && Schedule(block, t + 2) == w2
    && Schedule(block, t + 3) == w3
    && Schedule(block, t + 4) == w4
    && Schedule(block, t + 5) == w5
    && Schedule(block, t + 6) == w6
    && Schedule(block, t + 7) == w7
    && Schedule(block, t + 8) == w8
    && Schedule(block, t + 9) == w9
    && Schedule(block, t + 10) == w10
    && Schedule(block, t + 11) == w11
    && Schedule(block, t + 12) == w12
    && Schedule(block, t + 13) == w13
    && Schedule(block, t + 14) == w14
    && Schedule(block, t + 15) == w15
  }

  lemma FirstWord(block: seq<bv32>, t: nat)
    requires |block| == 16 && t < 16
    ensures Schedule(block, t) == block[t]
  {}

  lemma Started(h: Regs, block: seq<bv32>,
                w0: bv32, w1: bv32, w2: bv32, w3: bv32, w4: bv32, w5: bv32, w6: bv32, w7: bv32,
                w8: bv32, w9: bv32, w10: bv32, w11: bv32, w12: bv32, w13: bv32, w14: bv32, w15: bv32)
    requires block == [w0, w1, w2, w3, w4, w5, w6, w7, w8, w9, w10, w11, w12, w13, w14, w15]
    ensures Rounds(h, block, 0) == h
    ensures Scheduled(block, 0, w0, w1, w2, w3, w4, w5, w6, w7, w8, w9, w10, w11, w12, w13, w14, w15)
  {
    hide Schedule;
    FirstWord(block, 0);
    FirstWord(block, 1);
    FirstWord(block, 2);
    FirstWord(block, 3);
    FirstWord(block, 4);
    FirstWord(block, 5);
    FirstWord(block, 6);
    FirstWord(block, 7);
    FirstWord(block, 8);
    FirstWord(block, 9);
    FirstWord(block, 10);
    FirstWord(block, 11);
    FirstWord(block, 12);
    FirstWord(block, 13);
    FirstWord(block, 14);
    FirstWord(block, 15);
  }

  /** Sixteen rounds from t on, on the words w. */
  lemma Sixteen(h: Regs, block: seq<bv32>, t: nat, x0: bv32, x1: bv32, x2: bv32, x3: bv32, x4: bv32,
                w0: bv32, w1: bv32, w2: bv32, w3: bv32, w4: bv32, w5: bv32, w6: bv32, w7: bv32,
                w8: bv32, w9: bv32, w10: bv32, w11: bv32, w12: bv32, w13: bv32, w14: bv32, w15: bv32,
                y0: bv32, y1: bv32, y2: bv32, y3: bv32, y4: bv32, y5: bv32, y6: bv32, y7: bv32,
                y8: bv32, y9: bv32, y10: bv32, y11: bv32, y12: bv32, y13: bv32, y14: bv32, y15: bv32)
    requires |block| == 16 && Scheduled(block, t, w0, w1, w2, w3, w4, w5, w6, w7, w8, w9, w10, w11, w12, w13, w14, w15)
    requires Rounds(h, block, t) == History(x0, x1, x2, x3, x4)
    requires Puts(t + 0, w0, x0, x1, x2, x3, x4, y0)
    requires Puts(t + 1, w1, x1, x2, x3, x4, y0, y1)
    requires Puts(t + 2, w2, x2, x3, x4, y0, y1, y2)
    requires Puts(t + 3, w3, x3, x4, y0, y1, y2, y3)
    requires Puts(t + 4, w4, x4, y0, y1, y2, y3, y4)
    requires Puts(t + 5, w5, y0, y1, y2, y3, y4, y5)
    requires Puts(t + 6, w6, y1, y2, y3, y4, y5, y6)
    requires Puts(t + 7, w7, y2, y3, y4, y5, y6, y7)
    requires Puts(t + 8, w8, y3, y4, y5, y6, y7, y8)
    requires Puts(t + 9, w9, y4, y5, y6, y7, y8, y9)
    requires Puts(t + 10, w10, y5, y6, y7, y8, y9, y10)
    requires Puts(t + 11, w11, y6, y7, y8, y9, y10, y11)
    requires Puts(t + 12, w12, y7, y8, y9, y10, y11, y12)
    requires Puts(t + 13, w13, y8, y9, y10, y11, y12, y13)
    requires Puts(t + 14, w14, y9, y10, y11, y12, y13, y14)
    requires Puts(t + 15, w15, y10, y11, y12, y13, y14, y15)
    ensures Rounds(h, block, t + 16) == History(y11, y12, y13, y14, y15)
  {
    hide Puts, History, Schedule, Rounds;
    OneRound(h, block, t + 0, w0, x0, x1, x2, x3, x4, y0);
    OneRound(h, block, t + 1, w1, x1, x2, x3, x4, y0, y1);
    OneRound(h, block, t + 2, w2, x2, x3, x4, y0, y1, y2);
    OneRound(h, block, t + 3, w3, x3, x4, y0, y1, y2, y3);
    OneRound(h, block, t + 4, w4, x4, y0, y1, y2, y3, y4);
    OneRound(h, block, t + 5, w5, y0, y1, y2, y3, y4, y5);
    OneRound(h, block, t + 6, w6, y1, y2, y3, y4, y5, y6);
    OneRound(h, block, t + 7, w7, y2, y3, y4, y5, y6, y7);
    OneRound(h, block, t + 8, w8, y3, y4, y5, y6, y7, y8);
    OneRound(h, block, t + 9, w9, y4, y5, y6, y7, y8, y9);
    OneRound(h, block, t + 10, w10, y5, y6, y7, y8, y9, y10);
    OneRound(h, block, t + 11, w11, y6, y7, y8, y9, y10, y11);
    OneRound(h, block, t + 12, w12, y7, y8, y9, y10, y11, y12);
    OneRound(h, block, t + 13, w13, y8, y9, y10, y11, y12, y13);
    OneRound(h, block, t + 14, w14, y9, y10, y11, y12, y13, y14);
    OneRound(h, block, t + 15, w15, y10, y11, y12, y13, y14, y15);
  }

  /** The words v of a schedule behind its words w from t on. */
  lemma Behind(block: seq<bv32>, t: nat,
               w0: bv32, w1: bv32, w2: bv32, w3: bv32, w4: bv32, w5: bv32, w6: bv32, w7: bv32,
               w8: bv32, w9: bv32, w10: bv32, w11: bv32, w12: bv32, w13: bv32, w14: bv32, w15: bv32,
               v0: bv32, v1: bv32, v2: bv32, v3: bv32, v4: bv32, v5: bv32, v6: bv32, v7: bv32,
               v8: bv32, v9: bv32, v10: bv32, v11: bv32, v12: bv32, v13: bv32, v14: bv32, v15: bv32)
    requires |block| == 16 && Scheduled(block, t, w0, w1, w2, w3, w4, w5, w6, w7, w8, w9, w10, w11, w12, w13, w14, w15)
    requires Mixes(w13, w8, w2, w0, v0)
    requires Mixes(w14, w9, w3, w1, v1)
    requires Mixes(w15, w10, w4, w2, v2)
    requires Mixes(v0, w11, w5, w3, v3)
    requires Mixes(v1, w12, w6, w4, v4)
    requires Mixes(v2, w13, w7, w5, v5)
    requires Mixes(v3, w14, w8, w6, v6)
    requires Mixes(v4, w15, w9, w7, v7)
    requires Mixes(v5, v0, w10, w8, v8)
    requires Mixes(v6, v1, w11, w9, v9)
    requires Mixes(v7, v2, w12, w10, v10)
    requires Mixes(v8, v3, w13, w11, v11)
    requires Mixes(v9, v4, w14, w12, v12)
    requires Mixes(v10, v5, w15, w13, v13)
    requires Mixes(v11, v6, v0, w14, v14)
    requires Mixes(v12, v7, v1, w15, v15)
    ensures Scheduled(block, t + 16, v0, v1, v2, v3, v4, v5, v6, v7, v8, v9, v10, v11, v12, v13, v14, v15)
  {
    hide Mixes, Schedule;
    OneWord(block, t + 16, w13, w8, w2, w0, v0);
    OneWord(block, t + 17, w14, w9, w3, w1, v1);
    OneWord(block, t + 18, w15, w10, w4, w2, v2);
    OneWord(block, t + 19, v0, w11, w5, w3, v3);
    OneWord(block, t + 20, v1, w12, w6, w4, v4);
    OneWord(block, t + 21, v2, w13, w7, w5, v5);
    OneWord(block, t + 22, v3, w14, w8, w6, v6);
    OneWord(block, t + 23, v4, w15, w9, w7, v7);
    OneWord(block, t + 24, v5, v0, w10, w8, v8);
    OneWord(block, t + 25, v6, v1, w11, w9, v9);
    OneWord(block, t + 26, v7, v2, w12, w10, v10);
    OneWord(block, t + 27, v8, v3, w13, w11, v11);
    OneWord(block, t + 28, v9, v4, w14, w12, v12);
    OneWord(block, t + 29, v10, v5, w15, w13, v13);
    OneWord(block, t + 30, v11, v6, v0, w14, v14);
    OneWord(block, t + 31, v12, v7, v1, w15, v15);
  }

  // ---- blocks written out ------------------------------------------------------------------------

  /** The block of the message abc. */
  lemma AbcBlock(block: seq<bv32>)
    requires block == [0x61626380, 0x00000000, 0x00000000, 0x00000000, 0x00000000, 0x00000000, 0x00000000, 0x00000000,
                       0x00000000, 0x00000000, 0x00000000, 0x00000000, 0x00000000, 0x00000000, 0x00000000, 0x00000018]
    ensures Compress(INITIAL, block)
            == Regs(0xa9993e36, 0x4706816a, 0xba3e2571, 0x7850c26c, 0x9cd0d89d)
  {
    hide Schedule, Rounds, F, K, Rotl1, Rotl5;
    var h := INITIAL;
    Started(h, block, 0x61626380, 0x00000000, 0x00000000, 0x00000000, 0x00000000, 0x00000000, 0x00000000, 0x00000000,
            0x00000000, 0x00000000, 0x00000000, 0x00000000, 0x00000000, 0x00000000, 0x00000000, 0x00000018);
    Sixteen(h, block, 0, 0x0f4b87c3, 0x40c951d8, 0x62eb73fa, 0xefcdab89, 0x67452301,
            0x61626380, 0x00000000, 0x00000000, 0x00000000, 0x00000000, 0x00000000, 0x00000000, 0x00000000,
            0x00000000, 0x00000000, 0x00000000, 0x00000000, 0x00000000, 0x00000000, 0x00000000, 0x00000018,
            0x0116fc33, 0x8990536d, 0xa1390f08, 0xcdd8e11b, 0xcfd499de, 0x3fc7ca40, 0x993e30c1, 0x9e8c07d4,
            0x4b6ae328, 0x8351f929, 0xfbda9e89, 0x63188fe4, 0x4607b664, 0x9128f695, 0x196bee77, 0x20bdd62f);
    Behind(block, 0, 0x61626380, 0x00000000, 0x00000000, 0x00000000, 0x00000000, 0x00000000, 0x00000000, 0x00000000,
           0x00000000, 0x00000000, 0x00000000, 0x00000000, 0x00000000, 0x00000000, 0x00000000, 0x00000018,
           0xc2c4c700, 0x00000000, 0x00000030, 0x85898e01, 0x00000000, 0x00000060, 0x0b131c03, 0x00000030,
           0x85898ec1, 0x16263806, 0x00000000, 0x00000180, 0x2c4c700c, 0x000000f0, 0x93afb507, 0x5898e048);
    Sixteen(h, block, 16, 0x63188fe4, 0x4607b664, 0x9128f695, 0x196bee77, 0x20bdd62f,
            0xc2c4c700, 0x00000000, 0x00000030, 0x85898e01, 0x00000000, 0x00000060, 0x0b131c03, 0x00000030,
            0x85898ec1, 0x16263806, 0x00000000, 0x00000180, 0x2c4c700c, 0x000000f0, 0x93afb507, 0x5898e048,
            0x4e925823, 0x82aa6728, 0xdc64901d, 0xfd9e1d7d, 0x1a37b0ca, 0x33a23bfc, 0x21283486, 0xd541f12d,
            0xc7567dc6, 0x48413ba4, 0xbe35fbd5, 0x4aa84d97, 0x8370b52e, 0xc5fbaf5d, 0x1267b407, 0x3b845d33);
    Behind(block, 16, 0xc2c4c700, 0x00000000, 0x00000030, 0x85898e01, 0x00000000, 0x00000060, 0x0b131c03, 0x00000030,
           0x85898ec1, 0x16263806, 0x00000000, 0x00000180, 0x2c4c700c, 0x000000f0, 0x93afb507, 0x5898e048,
           0x8e9a9202, 0x00000600, 0xb131c0f0, 0x16263bc6, 0x4ebed41e, 0x626380a1, 0x16263806, 0x000018c0,
           0xd2e138c4, 0x00000f00, 0x3afb5079, 0x898e04e5, 0xe2ba3c2b, 0x000060c0, 0x053a37cd, 0x74458547);
    Sixteen(h, block, 32, 0x4aa84d97, 0x8370b52e, 0xc5fbaf5d, 0x1267b407, 0x3b845d33,
            0x8e9a9202, 0x00000600, 0xb131c0f0, 0x16263bc6, 0x4ebed41e, 0x626380a1, 0x16263806, 0x000018c0,
            0xd2e138c4, 0x00000f00, 0x3afb5079, 0x898e04e5, 0xe2ba3c2b, 0x000060c0, 0x053a37cd, 0x74458547,
            0x046faa0a, 0x2c0ebc11, 0x21796ad4, 0xdcbbb0cb, 0x0f511fd8, 0xdc63973f, 0x4c986405, 0x32de1cba,
            0xfc87dedf, 0x970a0d5c, 0x7f193dc5, 0xee1b1aaf, 0x40f28e09, 0x1c51e1f2, 0xa01b846c, 0xbead02ca);
    Behind(block, 32, 0x8e9a9202, 0x00000600, 0xb131c0f0, 0x16263bc6, 0x4ebed41e, 0x626380a1, 0x16263806, 0x000018c0,
           0xd2e138c4, 0x00000f00, 0x3afb5079, 0x898e04e5, 0xe2ba3c2b, 0x000060c0, 0x053a37cd, 0x74458547,
           0xda9415ed, 0x26380a16, 0x626383a1, 0x4ebf54de, 0x3835b44b, 0x0000f600, 0x1e84c7a3, 0x98e04d98,
           0x651d16a0, 0x62658ca1, 0x458544d6, 0x44584cb7, 0x7ba06619, 0x6380aea2, 0x0ae55269, 0x627b49a1);
    Sixteen(h, block, 48, 0xee1b1aaf, 0x40f28e09, 0x1c51e1f2, 0xa01b846c, 0xbead02ca,
            0xda9415ed, 0x26380a16, 0x626383a1, 0x4ebf54de, 0x3835b44b, 0x0000f600, 0x1e84c7a3, 0x98e04d98,
            0x651d16a0, 0x62658ca1, 0x458544d6, 0x44584cb7, 0x7ba06619, 0x6380aea2, 0x0ae55269, 0x627b49a1,
            0xbaf39337, 0x120731c5, 0x641db2ce, 0x3847ad66, 0xe490436d, 0x27e9f1d8, 0x7b71f76d, 0x5e6456af,
            0xc846093f, 0xd262ff50, 0x09d785fd, 0x3f52de5a, 0xd756c147, 0x548c9cb2, 0xb66c020b, 0x6b61c9e1);
    Behind(block, 48, 0xda9415ed, 0x26380a16, 0x626383a1, 0x4ebf54de, 0x3835b44b, 0x0000f600, 0x1e84c7a3, 0x98e04d98,
           0x651d16a0, 0x62658ca1, 0x458544d6, 0x44584cb7, 0x7ba06619, 0x6380aea2, 0x0ae55269, 0x627b49a1,
           0x7cd45c9d, 0x000f0000, 0xfb50753a, 0xec6765e8, 0xba3c2be2, 0x0060c000, 0x3a37cd05, 0x458546f4,
           0xb8599dd6, 0x380a1a26, 0x01e02203, 0xe7cc3456, 0xe6e60b69, 0x00f60a00, 0x5795ef4f, 0x822e0879);
    Sixteen(h, block, 64, 0x3f52de5a, 0xd756c147, 0x548c9cb2, 0xb66c020b, 0x6b61c9e1,
            0x7cd45c9d, 0x000f0000, 0xfb50753a, 0xec6765e8, 0xba3c2be2, 0x0060c000, 0x3a37cd05, 0x458546f4,
            0xb8599dd6, 0x380a1a26, 0x01e02203, 0xe7cc3456, 0xe6e60b69, 0x00f60a00, 0x5795ef4f, 0x822e0879,
            0x19dfa7ac, 0x101655f9, 0x0c3df2b4, 0x78dd4d2b, 0x497093c0, 0x3f2588c2, 0xc199f8c7, 0x39859de7,
            0xedb42de4, 0x11793f6f, 0x5ee76897, 0x63f7dab7, 0xa079b7d9, 0x860d21cc, 0x5738d5e1, 0x42541b35);
  }

  /** The first block of the padding. */
  lemma PadBlock0(block: seq<bv32>)
    requires block == [0x0001ffff, 0xffffffff, 0xffffffff, 0xffffffff, 0xffffffff, 0xffffffff, 0xffffffff, 0xffffffff,
                       0xffffffff, 0xffffffff, 0xffffffff, 0xffffffff, 0xffffffff, 0xffffffff, 0xffffffff, 0xffffffff]
    ensures Compress(INITIAL, block)
            == Regs(0x4003f2f0, 0x75c62e8b, 0x9044a738, 0xdaa81547, 0xe09843a8)
  {
    hide Schedule, Rounds, F, K, Rotl1, Rotl5;
    var h := INITIAL;
    Started(h, block, 0x0001ffff, 0xffffffff, 0xffffffff, 0xffffffff, 0xffffffff, 0xffffffff, 0xffffffff, 0xffffffff,
            0xffffffff, 0xffffffff, 0xffffffff, 0xffffffff, 0xffffffff, 0xffffffff, 0xffffffff, 0xffffffff);
    Sixteen(h, block, 0, 0x0f4b87c3, 0x40c951d8, 0x62eb73fa, 0xefcdab89, 0x67452301,
            0x0001ffff, 0xffffffff, 0xffffffff, 0xffffffff, 0xffffffff, 0xffffffff, 0xffffffff, 0xffffffff,
            0xffffffff, 0xffffffff, 0xffffffff, 0xffffffff, 0xffffffff, 0xffffffff, 0xffffffff, 0xffffffff,
            0x9fb698b2, 0x5d83e35f, 0x1d8b2d41, 0x8dad3729, 0x215f51f6, 0x85bb2a5e, 0x50b48a01, 0x9ac9caee,
            0x9f8f03b2, 0x05e9c6f9, 0x7fcc4601, 0x502c4d31, 0xc82a5369, 0x5922d94b, 0x18332889, 0x14e62e89);
    Behind(block, 0, 0x0001ffff, 0xffffffff, 0xffffffff, 0xffffffff, 0xffffffff, 0xffffffff, 0xffffffff, 0xffffffff,
           0xffffffff, 0xffffffff, 0xffffffff, 0xffffffff, 0xffffffff, 0xffffffff, 0xffffffff, 0xffffffff,
           0xfffc0001, 0x00000000, 0x00000000, 0x0007fffc, 0xffffffff, 0xffffffff, 0xfff00007, 0x00000000,
           0x0007fffc, 0xffe0000f, 0x00000000, 0x00000000, 0x003fffe0, 0xffffffff, 0xffe7fff3, 0xff80003f);
    Sixteen(h, block, 16, 0x502c4d31, 0xc82a5369, 0x5922d94b, 0x18332889, 0x14e62e89,
            0xfffc0001, 0x00000000, 0x00000000, 0x0007fffc, 0xffffffff, 0xffffffff, 0xfff00007, 0x00000000,
            0x0007fffc, 0xffe0000f, 0x00000000, 0x00000000, 0x003fffe0, 0xffffffff, 0xffe7fff3, 0xff80003f,
            0xbd58125a, 0x3d9bf41c, 0x2b667d94, 0x7a9905f2, 0x928ab996, 0xeead8a98, 0x5ad7a35b, 0xa9515bf2,
            0xfd921b06, 0x09efcc76, 0x69f28234, 0xa0bf374f, 0x86432459, 0x2f5b6270, 0x50ba75bd, 0x4709aacc);
    Behind(block, 16, 0xfffc0001, 0x00000000, 0x00000000, 0x0007fffc, 0xffffffff, 0xffffffff, 0xfff00007, 0x00000000,
           0x0007fffc, 0xffe0000f, 0x00000000, 0x00000000, 0x003fffe0, 0xffffffff, 0xffe7fff3, 0xff80003f,
           0x00080004, 0x00000000, 0x00ffff80, 0xffe0000f, 0x00600030, 0x01ffff00, 0xffe0000f, 0x00000000,
           0x03e001f0, 0x00000000, 0x018000c0, 0x07fffc00, 0xff700047, 0x00000000, 0x0fe007f0, 0x01e000f0);
    Sixteen(h, block, 32, 0xa0bf374f, 0x86432459, 0x2f5b6270, 0x50ba75bd, 0x4709aacc,
            0x00080004, 0x00000000, 0x00ffff80, 0xffe0000f, 0x00600030, 0x01ffff00, 0xffe0000f, 0x00000000,
            0x03e001f0, 0x00000000, 0x018000c0, 0x07fffc00, 0xff700047, 0x00000000, 0x0fe007f0, 0x01e000f0,
            0x73437737, 0x51cb8ae4, 0xebd1a132, 0xd9f5ed16, 0xe32d97a5, 0x2ad1250d, 0xccf5f4ba, 0xacf426e7,
            0x30f37cf1, 0xd10b2e52, 0xaff34ef2, 0x12002397, 0x66400972, 0x559a8df8, 0xed50595e, 0xbc93c661);
    Behind(block, 32, 0x00080004, 0x00000000, 0x00ffff80, 0xffe0000f, 0x00600030, 0x01ffff00, 0xffe0000f, 0x00000000,
           0x03e001f0, 0x00000000, 0x018000c0, 0x07fffc00, 0xff700047, 0x00000000, 0x0fe007f0, 0x01e000f0,
           0x062ffce8, 0xe0000fff, 0x01ffff00, 0xff9fffcf, 0xc1e01f0f, 0x00000000, 0x18fff380, 0x80003fff,
           0x089ffbb0, 0xfe0000ff, 0xfe1f80f0, 0xe1fff0ff, 0x9ee0308f, 0xffff0001, 0xe19ff0cf, 0xfe0000ff);
    Sixteen(h, block, 48, 0x12002397, 0x66400972, 0x559a8df8, 0xed50595e, 0xbc93c661,
            0x062ffce8, 0xe0000fff, 0x01ffff00, 0xff9fffcf, 0xc1e01f0f, 0x00000000, 0x18fff380, 0x80003fff,
            0x089ffbb0, 0xfe0000ff, 0xfe1f80f0, 0xe1fff0ff, 0x9ee0308f, 0xffff0001, 0xe19ff0cf, 0xfe0000ff,
            0x8994923e, 0xf8949d7f, 0x642aa177, 0xb988b78d, 0xd75ce499, 0x16261c02, 0x4a4f04d6, 0xa86d7d23,
            0x599c8fea, 0xb70eb96d, 0xcf37c1ea, 0xa0b6e7d1, 0x9ece982c, 0xb954a554, 0x8989dd39, 0xa437152b);
    Behind(block, 48, 0x062ffce8, 0xe0000fff, 0x01ffff00, 0xff9fffcf, 0xc1e01f0f, 0x00000000, 0x18fff380, 0x80003fff,
           0x089ffbb0, 0xfe0000ff, 0xfe1f80f0, 0xe1fff0ff, 0x9ee0308f, 0xffff0001, 0xe19ff0cf, 0xfe0000ff,
           0xe161f0b3, 0x00000000, 0x8000c001, 0xfe03ff07, 0x8fffb800, 0xffffffff, 0x1ff80ff0, 0x1fff0ffe,
           0xd03ce819, 0x000fffe0, 0xfe00ff01, 0x607fcfc0, 0xe11f0f41, 0x00000000, 0xfef38098, 0x01c00080);
    Sixteen(h, block, 64, 0xa0b6e7d1, 0x9ece982c, 0xb954a554, 0x8989dd39, 0xa437152b,
            0xe161f0b3, 0x00000000, 0x8000c001, 0xfe03ff07, 0x8fffb800, 0xffffffff, 0x1ff80ff0, 0x1fff0ffe,
            0xd03ce819, 0x000fffe0, 0xfe00ff01, 0x607fcfc0, 0xe11f0f41, 0x00000000, 0xfef38098, 0x01c00080,
            0x1b446458, 0x42a33e14, 0x5d4c4410, 0x81d19c7e, 0xc8d96173, 0x728a4c63, 0xcc4b4521, 0xabe5fa31,
            0x9ab2e5a8, 0x175b8786, 0x13d08f1d, 0x731586e0, 0x29d70347, 0xde2728eb, 0x85f88302, 0xd8becfef);
  }

  /** The second, all ones. */
  lemma PadBlock1(block: seq<bv32>)
    requires block == [0xffffffff, 0xffffffff, 0xffffffff, 0xffffffff, 0xffffffff, 0xffffffff, 0xffffffff, 0xffffffff,
                       0xffffffff, 0xffffffff, 0xffffffff, 0xffffffff, 0xffffffff, 0xffffffff, 0xffffffff, 0xffffffff]
    ensures Compress(Regs(0x4003f2f0, 0x75c62e8b, 0x9044a738, 0xdaa81547, 0xe09843a8), block)
            == Regs(0x69b147d3, 0x0f655e90, 0xbd4c7e23, 0x3100d38e, 0x2778430e)
  {
    hide Schedule, Rounds, F, K, Rotl1, Rotl5;
    var h := Regs(0x4003f2f0, 0x75c62e8b, 0x9044a738, 0xdaa81547, 0xe09843a8);
    Started(h, block, 0xffffffff, 0xffffffff, 0xffffffff, 0xffffffff, 0xffffffff, 0xffffffff, 0xffffffff, 0xffffffff,
            0xffffffff, 0xffffffff, 0xffffffff, 0xffffffff, 0xffffffff, 0xffffffff, 0xffffffff, 0xffffffff);
    Sixteen(h, block, 0, 0x82610ea3, 0x6aa0551f, 0x41129ce2, 0x75c62e8b, 0x4003f2f0,
            0xffffffff, 0xffffffff, 0xffffffff, 0xffffffff, 0xffffffff, 0xffffffff, 0xffffffff, 0xffffffff,
            0xffffffff, 0xffffffff, 0xffffffff, 0xffffffff, 0xffffffff, 0xffffffff, 0xffffffff, 0xffffffff,
            0xd6055294, 0xc61a6921, 0xc7851ebe, 0x3c98b1cf, 0x6f1e0a44, 0xe54b2259, 0x5554ad07, 0xc2607064,
            0xd18a3d39, 0xa0e44c35, 0x053be73b, 0x07cca845, 0xf528a99e, 0xdd77f810, 0xb3210710, 0x1db47f7d);
    Behind(block, 0, 0xffffffff, 0xffffffff, 0xffffffff, 0xffffffff, 0xffffffff, 0xffffffff, 0xffffffff, 0xffffffff,
           0xffffffff, 0xffffffff, 0xffffffff, 0xffffffff, 0xffffffff, 0xffffffff, 0xffffffff, 0xffffffff,
           0x00000000, 0x00000000, 0x00000000, 0xffffffff, 0xffffffff, 0xffffffff, 0x00000000, 0x00000000,
           0xffffffff, 0x00000000, 0x00000000, 0x00000000, 0xffffffff, 0xffffffff, 0xffffffff, 0x00000000);
    Sixteen(h, block, 16, 0x07cca845, 0xf528a99e, 0xdd77f810, 0xb3210710, 0x1db47f7d,
            0x00000000, 0x00000000, 0x00000000, 0xffffffff, 0xffffffff, 0xffffffff, 0x00000000, 0x00000000,
            0xffffffff, 0x00000000, 0x00000000, 0x00000000, 0xffffffff, 0xffffffff, 0xffffffff, 0x00000000,
            0x9250c1b4, 0x90ae9bd6, 0xd67bf443, 0x9e8e5823, 0xded672cd, 0x3d77798e, 0x8edfde32, 0xedd62237,
            0x87796587, 0x96f8451c, 0xbcfb881c, 0x3e567bb4, 0xadbaaaee, 0x3ce42bca, 0xbe2f4c32, 0xfc21739b);
    Behind(block, 16, 0x00000000, 0x00000000, 0x00000000, 0xffffffff, 0xffffffff, 0xffffffff, 0x00000000, 0x00000000,
           0xffffffff, 0x00000000, 0x00000000, 0x00000000, 0xffffffff, 0xffffffff, 0xffffffff, 0x00000000,
           0x00000000, 0x00000000, 0xffffffff, 0x00000000, 0x00000000, 0xffffffff, 0x00000000, 0x00000000,
           0x00000000, 0x00000000, 0x00000000, 0xffffffff, 0x00000000, 0x00000000, 0x00000000, 0x00000000);
    Sixteen(h, block, 32, 0x3e567bb4, 0xadbaaaee, 0x3ce42bca, 0xbe2f4c32, 0xfc21739b,
            0x00000000, 0x00000000, 0xffffffff, 0x00000000, 0x00000000, 0xffffffff, 0x00000000, 0x00000000,
            0x00000000, 0x00000000, 0x00000000, 0xffffffff, 0x00000000, 0x00000000, 0x00000000, 0x00000000,
            0x9d16ea88, 0x99b991d4, 0x02da9687, 0xbbad071d, 0xe774748e, 0xe223fee7, 0x22f1bdfa, 0xc2ddf289,
            0x129f0d96, 0x65778c7a, 0x4755b997, 0x67472ba3, 0x6e0e9101, 0xa6eb0b95, 0xdfb0dd0f, 0x32d057fc);
    Behind(block, 32, 0x00000000, 0x00000000, 0xffffffff, 0x00000000, 0x00000000, 0xffffffff, 0x00000000, 0x00000000,
           0x00000000, 0x00000000, 0x00000000, 0xffffffff, 0x00000000, 0x00000000, 0x00000000, 0x00000000,
           0xffffffff, 0x00000000, 0xffffffff, 0xffffffff, 0x00000000, 0x00000000, 0xffffffff, 0x00000000,
           0xffffffff, 0x00000000, 0xffffffff, 0xffffffff, 0x00000000, 0xffffffff, 0xffffffff, 0x00000000);
    Sixteen(h, block, 48, 0x67472ba3, 0x6e0e9101, 0xa6eb0b95, 0xdfb0dd0f, 0x32d057fc,
            0xffffffff, 0x00000000, 0xffffffff, 0xffffffff, 0x00000000, 0x00000000, 0xffffffff, 0x00000000,
            0xffffffff, 0x00000000, 0xffffffff, 0xffffffff, 0x00000000, 0xffffffff, 0xffffffff, 0x00000000,
            0x1eab4b8e, 0x34012ac4, 0x97a7f015, 0x80a609b7, 0x3833dc7c, 0x22e267fb, 0x5892e35d, 0x298b0c0b,
            0xe93fb40c, 0x0dc7ce77, 0xdaf4d5c0, 0x4e22fcd0, 0x7cefea3f, 0x5e9e3104, 0xbb753678, 0x01f43b1c);
    Behind(block, 48, 0xffffffff, 0x00000000, 0xffffffff, 0xffffffff, 0x00000000, 0x00000000, 0xffffffff, 0x00000000,
           0xffffffff, 0x00000000, 0xffffffff, 0xffffffff, 0x00000000, 0xffffffff, 0xffffffff, 0x00000000,
           0x00000000, 0x00000000, 0x00000000, 0x00000000, 0xffffffff, 0xffffffff, 0xffffffff, 0xffffffff,
           0xffffffff, 0x00000000, 0x00000000, 0xffffffff, 0x00000000, 0x00000000, 0xffffffff, 0xffffffff);
    Sixteen(h, block, 64, 0x4e22fcd0, 0x7cefea3f, 0x5e9e3104, 0xbb753678, 0x01f43b1c,
            0x00000000, 0x00000000, 0x00000000, 0x00000000, 0xffffffff, 0xffffffff, 0xffffffff, 0xffffffff,
            0xffffffff, 0x00000000, 0x00000000, 0xffffffff, 0x00000000, 0x00000000, 0xffffffff, 0xffffffff,
            0x905c2540, 0xedb25f3a, 0x57529b8d, 0xad6bd9cb, 0x40840f24, 0x42cf9893, 0xddcccbc0, 0x93854dfb,
            0x43c5a5e6, 0xc77e1b96, 0x1b31df3a, 0x1b7ffd99, 0x5962f91d, 0xb41f5bac, 0x999f3005, 0x29ad54e3);
  }

  /** The third, all ones. */
  lemma PadBlock2(block: seq<bv32>)
    requires block == [0xffffffff, 0xffffffff, 0xffffffff, 0xffffffff, 0xffffffff, 0xffffffff, 0xffffffff, 0xffffffff,
                       0xffffffff, 0xffffffff, 0xffffffff, 0xffffffff, 0xffffffff, 0xffffffff, 0xffffffff, 0xffffffff]
    ensures Compress(Regs(0x69b147d3, 0x0f655e90, 0xbd4c7e23, 0x3100d38e, 0x2778430e), block)
            == Regs(0x7bf5ba85, 0xcd86fe7d, 0x3bc37161, 0x0eeece7e, 0x4f86ba5c)
  {
    hide Schedule, Rounds, F, K, Rotl1, Rotl5;
    var h := Regs(0x69b147d3, 0x0f655e90, 0xbd4c7e23, 0x3100d38e, 0x2778430e);
    Started(h, block, 0xffffffff, 0xffffffff, 0xffffffff, 0xffffffff, 0xffffffff, 0xffffffff, 0xffffffff, 0xffffffff,
            0xffffffff, 0xffffffff, 0xffffffff, 0xffffffff, 0xffffffff, 0xffffffff, 0xffffffff, 0xffffffff);
    Sixteen(h, block, 0, 0x9de10c38, 0xc4034e38, 0xf531f88e, 0x0f655e90, 0x69b147d3,
            0xffffffff, 0xffffffff, 0xffffffff, 0xffffffff, 0xffffffff, 0xffffffff, 0xffffffff, 0xffffffff,
            0xffffffff, 0xffffffff, 0xffffffff, 0xffffffff, 0xffffffff, 0xffffffff, 0xffffffff, 0xffffffff,
            0xf5689621, 0xce739104, 0xb93a69f8, 0xe2075243, 0xeb317848, 0x71aa5e7f, 0xafbafffd, 0x38baf25d,
            0x06d1316e, 0x5c5fbd49, 0x321378f9, 0x0b14659c, 0x9ef55602, 0x16e954a4, 0xd18a95aa, 0xdf076af3);
    Behind(block, 0, 0xffffffff, 0xffffffff, 0xffffffff, 0xffffffff, 0xffffffff, 0xffffffff, 0xffffffff, 0xffffffff,
           0xffffffff, 0xffffffff, 0xffffffff, 0xffffffff, 0xffffffff, 0xffffffff, 0xffffffff, 0xffffffff,
           0x00000000, 0x00000000, 0x00000000, 0xffffffff, 0xffffffff, 0xffffffff, 0x00000000, 0x00000000,
           0xffffffff, 0x00000000, 0x00000000, 0x00000000, 0xffffffff, 0xffffffff, 0xffffffff, 0x00000000);
    Sixteen(h, block, 16, 0x0b14659c, 0x9ef55602, 0x16e954a4, 0xd18a95aa, 0xdf076af3,
            0x00000000, 0x00000000, 0x00000000, 0xffffffff, 0xffffffff, 0xffffffff, 0x00000000, 0x00000000,
            0xffffffff, 0x00000000, 0x00000000, 0x00000000, 0xffffffff, 0xffffffff, 0xffffffff, 0x00000000,
            0x65f446a3, 0x5582d8ef, 0x065ad094, 0xcd80443a, 0x20ebc4bc, 0x7f45daf0, 0xbf136182, 0x16fc0aee,
            0xaab44081, 0x74869137, 0xa04d23a5, 0xc3d7bc61, 0x8752125b, 0x3aae97f5, 0x4183443e, 0xb2e5b8cd);
    Behind(block, 16, 0x00000000, 0x00000000, 0x00000000, 0xffffffff, 0xffffffff, 0xffffffff, 0x00000000, 0x00000000,
           0xffffffff, 0x00000000, 0x00000000, 0x00000000, 0xffffffff, 0xffffffff, 0xffffffff, 0x00000000,
           0x00000000, 0x00000000, 0xffffffff, 0x00000000, 0x00000000, 0xffffffff, 0x00000000, 0x00000000,
           0x00000000, 0x00000000, 0x00000000, 0xffffffff, 0x00000000, 0x00000000, 0x00000000, 0x00000000);
    Sixteen(h, block, 32, 0xc3d7bc61, 0x8752125b, 0x3aae97f5, 0x4183443e, 0xb2e5b8cd,
            0x00000000, 0x00000000, 0xffffffff, 0x00000000, 0x00000000, 0xffffffff, 0x00000000, 0x00000000,
            0x00000000, 0x00000000, 0x00000000, 0xffffffff, 0x00000000, 0x00000000, 0x00000000, 0x00000000,
            0x2b8359c4, 0x2d4874fb, 0x3def17fa, 0x082f88b0, 0xdde24c8a, 0x820aa3dc, 0xcc12efc7, 0xb82d7d6a,
            0x3ae9f846, 0x53d812b8, 0xe4aab82f, 0xa611dce0, 0x841cf479, 0x55a756c7, 0x020990ad, 0x2afff7a5);
    Behind(block, 32, 0x00000000, 0x00000000, 0xffffffff, 0x00000000, 0x00000000, 0xffffffff, 0x00000000, 0x00000000,
           0x00000000, 0x00000000, 0x00000000, 0xffffffff, 0x00000000, 0x00000000, 0x00000000, 0x00000000,
           0xffffffff, 0x00000000, 0xffffffff, 0xffffffff, 0x00000000, 0x00000000, 0xffffffff, 0x00000000,
           0xffffffff, 0x00000000, 0xffffffff, 0xffffffff, 0x00000000, 0xffffffff, 0xffffffff, 0x00000000);
    Sixteen(h, block, 48, 0xa611dce0, 0x841cf479, 0x55a756c7, 0x020990ad, 0x2afff7a5,
            0xffffffff, 0x00000000, 0xffffffff, 0xffffffff, 0x00000000, 0x00000000, 0xffffffff, 0x00000000,
            0xffffffff, 0x00000000, 0xffffffff, 0xffffffff, 0x00000000, 0xffffffff, 0xffffffff, 0x00000000,
            0x59a8be75, 0x6626be46, 0x720857c1, 0x56d7d901, 0x06df0a80, 0x1deada0a, 0x3a97c46f, 0x544e32b3,
            0x724fd027, 0xa13c36fd, 0x14252340, 0xb779caa5, 0x2fa97e2e, 0x76660b6d, 0x46f18199, 0x3dee641d);
    Behind(block, 48, 0xffffffff, 0x00000000, 0xffffffff, 0xffffffff, 0x00000000, 0x00000000, 0xffffffff, 0x00000000,
           0xffffffff, 0x00000000, 0xffffffff, 0xffffffff, 0x00000000, 0xffffffff, 0xffffffff, 0x00000000,
           0x00000000, 0x00000000, 0x00000000, 0x00000000, 0xffffffff, 0xffffffff, 0xffffffff, 0xffffffff,
           0xffffffff, 0x00000000, 0x00000000, 0xffffffff, 0x00000000, 0x00000000, 0xffffffff, 0xffffffff);
    Sixteen(h, block, 64, 0xb779caa5, 0x2fa97e2e, 0x76660b6d, 0x46f18199, 0x3dee641d,
            0x00000000, 0x00000000, 0x00000000, 0x00000000, 0xffffffff, 0xffffffff, 0xffffffff, 0xffffffff,
            0xffffffff, 0x00000000, 0x00000000, 0xffffffff, 0x00000000, 0x00000000, 0xffffffff, 0xffffffff,
            0x869014ef, 0x5a1b45f1, 0x03bcf06a, 0x88820949, 0xdebda83a, 0xe2a7b29a, 0xb251fd1f, 0xccb9fcab,
            0x811a5557, 0x3de1461e, 0xddd5c77d, 0xa039dd38, 0x77b7ebc3, 0xf9dbccf9, 0xbe219fed, 0x124472b2);
  }

  /** The fourth, with the end of the padding. */
  lemma PadBlock3(block: seq<bv32>)
    requires block == [0xffffffff, 0xffffffff, 0xffffffff, 0xffffffff, 0xffffffff, 0xffffffff, 0xffffffff, 0x00302130,
                       0x0906052b, 0x0e03021a, 0x05000414, 0x00000000, 0x00000000, 0x00000000, 0x00000000, 0x00000000]
    ensures Compress(Regs(0x7bf5ba85, 0xcd86fe7d, 0x3bc37161, 0x0eeece7e, 0x4f86ba5c), block)
            == Regs(0x1cf8f9a1, 0x46ad33c4, 0xd22449ba, 0x0c6a1830, 0xa008d5e2)
  {
    hide Schedule, Rounds, F, K, Rotl1, Rotl5;
    var h := Regs(0x7bf5ba85, 0xcd86fe7d, 0x3bc37161, 0x0eeece7e, 0x4f86ba5c);
    Started(h, block, 0xffffffff, 0xffffffff, 0xffffffff, 0xffffffff, 0xffffffff, 0xffffffff, 0xffffffff, 0x00302130,
            0x0906052b, 0x0e03021a, 0x05000414, 0x00000000, 0x00000000, 0x00000000, 0x00000000, 0x00000000);
    Sixteen(h, block, 0, 0x3e1ae971, 0x3bbb39f8, 0xef0dc584, 0xcd86fe7d, 0x7bf5ba85,
            0xffffffff, 0xffffffff, 0xffffffff, 0xffffffff, 0xffffffff, 0xffffffff, 0xffffffff, 0x00302130,
            0x0906052b, 0x0e03021a, 0x05000414, 0x00000000, 0x00000000, 0x00000000, 0x00000000, 0x00000000,
            0x34aaf506, 0x7233e4c1, 0x34abf1c0, 0x70511f9e, 0x612cd908, 0x19d55415, 0xfdc05adb, 0xbc2a0a9a,
            0xc9298e03, 0xa477ca05, 0xf449a61c, 0x8e71968f, 0x39cbb1b0, 0xf35f73a7, 0x55274abf, 0x3f509f2e);
    Behind(block, 0, 0xffffffff, 0xffffffff, 0xffffffff, 0xffffffff, 0xffffffff, 0xffffffff, 0xffffffff, 0x00302130,
           0x0906052b, 0x0e03021a, 0x05000414, 0x00000000, 0x00000000, 0x00000000, 0x00000000, 0x00000000,
           0x120c0a56, 0x1c060434, 0x0a000828, 0x241814ac, 0x380c0868, 0xeb9fadcf, 0xa5c3dcf1, 0x6c7e5684,
           0xeb2b4d4d, 0x6f8db5bf, 0xc6fcb570, 0x9e66b3c3, 0xaf037bae, 0x5ac6317e, 0x5352cac8, 0xbef6523d);
    Sixteen(h, block, 16, 0x8e71968f, 0x39cbb1b0, 0xf35f73a7, 0x55274abf, 0x3f509f2e,
            0x120c0a56, 0x1c060434, 0x0a000828, 0x241814ac, 0x380c0868, 0xeb9fadcf, 0xa5c3dcf1, 0x6c7e5684,
            0xeb2b4d4d, 0x6f8db5bf, 0xc6fcb570, 0x9e66b3c3, 0xaf037bae, 0x5ac6317e, 0x5352cac8, 0xbef6523d,
            0x9896bc42, 0x6d9ac57b, 0xe2907506, 0x4c37a960, 0x5d82b325, 0xe0eab2aa, 0x03861388, 0xa946c4a1,
            0x82c7cb66, 0xa05fa7e2, 0xe27e48bb, 0xc8ab1fd5, 0x886b66ca, 0x0fe24d4c, 0x696c7cf3, 0x33d1c184);
    Behind(block, 16, 0x120c0a56, 0x1c060434, 0x0a000828, 0x241814ac, 0x380c0868, 0xeb9fadcf, 0xa5c3dcf1, 0x6c7e5684,
           0xeb2b4d4d, 0x6f8db5bf, 0xc6fcb570, 0x9e66b3c3, 0xaf037bae, 0x5ac6317e, 0x5352cac8, 0xbef6523d,
           0x53c2fc9b, 0x0982dfde, 0x940dce1a, 0x0447ec76, 0x769ce1d2, 0x9254085e, 0x33fb6e04, 0x9732a1a9,
           0xd88219f1, 0x97256f4d, 0xd58142da, 0x30caee74, 0x3bd07ff2, 0x47ca538f, 0x07436c46, 0x372ca770);
    Sixteen(h, block, 32, 0xc8ab1fd5, 0x886b66ca, 0x0fe24d4c, 0x696c7cf3, 0x33d1c184,
            0x53c2fc9b, 0x0982dfde, 0x940dce1a, 0x0447ec76, 0x769ce1d2, 0x9254085e, 0x33fb6e04, 0x9732a1a9,
            0xd88219f1, 0x97256f4d, 0xd58142da, 0x30caee74, 0x3bd07ff2, 0x47ca538f, 0x07436c46, 0x372ca770,
            0x778e16c9, 0xf6accc4a, 0x7d9b5000, 0xa8a230fb, 0xa48543e9, 0xfa29cece, 0xf785826d, 0x8f43c112,
            0x39bfd857, 0x8720e99d, 0x41369770, 0xebfbea08, 0x2fa924a4, 0xfc444551, 0xbb9db24c, 0x853a9cc0);
    Behind(block, 32, 0x53c2fc9b, 0x0982dfde, 0x940dce1a, 0x0447ec76, 0x769ce1d2, 0x9254085e, 0x33fb6e04, 0x9732a1a9,
           0xd88219f1, 0x97256f4d, 0xd58142da, 0x30caee74, 0x3bd07ff2, 0x47ca538f, 0x07436c46, 0x372ca770,
           0xb10ef1fe, 0x3b466147, 0x007994c4, 0x2faff744, 0x8be322c6, 0x85aadd78, 0x872bd9ef, 0x79b096a5,
           0x734eef5a, 0x37047322, 0x2f307e93, 0x57c34bca, 0x00e884a1, 0xb4f8ae29, 0xcd4a1f3a, 0xea65a866);
    Sixteen(h, block, 48, 0xebfbea08, 0x2fa924a4, 0xfc444551, 0xbb9db24c, 0x853a9cc0,
            0xb10ef1fe, 0x3b466147, 0x007994c4, 0x2faff744, 0x8be322c6, 0x85aadd78, 0x872bd9ef, 0x79b096a5,
            0x734eef5a, 0x37047322, 0x2f307e93, 0x57c34bca, 0x00e884a1, 0xb4f8ae29, 0xcd4a1f3a, 0xea65a866,
            0x5e1652b8, 0xc849db27, 0x46282e9d, 0xb4068b81, 0x131f2d95, 0x8033ed25, 0x5fe2dde9, 0x9ab607b8,
            0x0af42192, 0xbc28e51c, 0xaa727c49, 0x33d4cac1, 0x74576df5, 0x0348a3a5, 0x820a4f4e, 0x73573d86);
    Behind(block, 48, 0xb10ef1fe, 0x3b466147, 0x007994c4, 0x2faff744, 0x8be322c6, 0x85aadd78, 0x872bd9ef, 0x79b096a5,
           0x734eef5a, 0x37047322, 0x2f307e93, 0x57c34bca, 0x00e884a1, 0xb4f8ae29, 0xcd4a1f3a, 0xea65a866,
           0xed824892, 0xdd4ff437, 0x9d9ec1ee, 0x208852c8, 0xa2df177f, 0xaaf84835, 0x334ef68e, 0x0c1cb53c,
           0x360922dc, 0x1d8c74a3, 0x7cb51dc1, 0xeb752bef, 0xe5e3f08e, 0x11a0a777, 0xf1e71593, 0xbdaa33c7);
    Sixteen(h, block, 64, 0x33d4cac1, 0x74576df5, 0x0348a3a5, 0x820a4f4e, 0x73573d86,
            0xed824892, 0xdd4ff437, 0x9d9ec1ee, 0x208852c8, 0xa2df177f, 0xaaf84835, 0x334ef68e, 0x0c1cb53c,
            0x360922dc, 0x1d8c74a3, 0x7cb51dc1, 0xeb752bef, 0xe5e3f08e, 0x11a0a777, 0xf1e71593, 0xbdaa33c7,
            0x0f8faac0, 0x89c57047, 0x155aac10, 0x4db68009, 0xb5afc490, 0xd9c8fded, 0xfcd7a1c6, 0x1e9907c0,
            0xcec8ec50, 0xc6578280, 0xfed5b4fb, 0x42086e19, 0xf5ed26cb, 0x59836166, 0x79263547, 0xa1033f1c);
  }

  /** The last, with the length. */
  lemma PadBlock4(block: seq<bv32>)
    requires block == [0x80000000, 0x00000000, 0x00000000, 0x00000000, 0x00000000, 0x00000000, 0x00000000, 0x00000000,
                       0x00000000, 0x00000000, 0x00000000, 0x00000000, 0x00000000, 0x00000000, 0x00000000, 0x00000800]
    ensures Compress(Regs(0x1cf8f9a1, 0x46ad33c4, 0xd22449ba, 0x0c6a1830, 0xa008d5e2), block)
            == Regs(0xdcbdbe42, 0xd5f5a72e, 0x6efcf55d, 0xaf9dea68, 0x7cfbf167)
  {
    hide Schedule, Rounds, F, K, Rotl1, Rotl5;
    var h := Regs(0x1cf8f9a1, 0x46ad33c4, 0xd22449ba, 0x0c6a1830, 0xa008d5e2);
    Started(h, block, 0x80000000, 0x00000000, 0x00000000, 0x00000000, 0x00000000, 0x00000000, 0x00000000, 0x00000000,
            0x00000000, 0x00000000, 0x00000000, 0x00000000, 0x00000000, 0x00000000, 0x00000000, 0x00000800);
    Sixteen(h, block, 0, 0x8023578a, 0x31a860c0, 0x489126eb, 0x46ad33c4, 0x1cf8f9a1,
            0x80000000, 0x00000000, 0x00000000, 0x00000000, 0x00000000, 0x00000000, 0x00000000, 0x00000000,
            0x00000000, 0x00000000, 0x00000000, 0x00000000, 0x00000000, 0x00000000, 0x00000000, 0x00000800,
            0x64108d4e, 0xbbaa8450, 0xf7b29a63, 0x3f954d80, 0xc3110918, 0x93966498, 0x3c27553f, 0xfa3f1b78,
            0xd7304f7e, 0x401a3d07, 0xa0b98a06, 0x7f4b639b, 0x17c34fbf, 0xb0c7741b, 0x0365f4f6, 0x3f405bc9);
    Behind(block, 0, 0x80000000, 0x00000000, 0x00000000, 0x00000000, 0x00000000, 0x00000000, 0x00000000, 0x00000000,
           0x00000000, 0x00000000, 0x00000000, 0x00000000, 0x00000000, 0x00000000, 0x00000000, 0x00000800,
           0x00000001, 0x00000000, 0x00001000, 0x00000002, 0x00000000, 0x00002000, 0x00000004, 0x00001000,
           0x00004002, 0x00000008, 0x00000000, 0x00008000, 0x00000010, 0x00005000, 0x0001000a, 0x00003020);
    Sixteen(h, block, 16, 0x7f4b639b, 0x17c34fbf, 0xb0c7741b, 0x0365f4f6, 0x3f405bc9,
            0x00000001, 0x00000000, 0x00001000, 0x00000002, 0x00000000, 0x00002000, 0x00000004, 0x00001000,
            0x00004002, 0x00000008, 0x00000000, 0x00008000, 0x00000010, 0x00005000, 0x0001000a, 0x00003020,
            0xe712a2b6, 0xc3398173, 0xf5bdf4d2, 0x20db27d7, 0x96c6399a, 0x6ee0225f, 0x1f4c2549, 0x193587c4,
            0xbf0791d3, 0x7adc3a87, 0xa4b33e97, 0xe06606e9, 0x17adff20, 0x2c59cc04, 0x5f642c10, 0x96379fe7);
    Behind(block, 16, 0x00000001, 0x00000000, 0x00001000, 0x00000002, 0x00000000, 0x00002000, 0x00000004, 0x00001000,
           0x00004002, 0x00000008, 0x00000000, 0x00008000, 0x00000010, 0x00005000, 0x0001000a, 0x00003020,
           0x00000006, 0x00020000, 0x00004040, 0x00014008, 0x00040028, 0x00004080, 0x00000008, 0x00084000,
           0x00000108, 0x00050000, 0x001000a0, 0x00032200, 0x00000064, 0x00204000, 0x00044408, 0x0014e088);
    Sixteen(h, block, 32, 0xe06606e9, 0x17adff20, 0x2c59cc04, 0x5f642c10, 0x96379fe7,
            0x00000006, 0x00020000, 0x00004040, 0x00014008, 0x00040028, 0x00004080, 0x00000008, 0x00084000,
            0x00000108, 0x00050000, 0x001000a0, 0x00032200, 0x00000064, 0x00204000, 0x00044408, 0x0014e088,
            0xff808b2c, 0xefd1b8ea, 0x81fc2410, 0xfbf53695, 0xd8fb0f62, 0x2e9a8cf2, 0x849943eb, 0x08e2b4a4,
            0xb12e6402, 0xf4d2b1c6, 0x5656fdc0, 0xdf7fa0e0, 0x3d9f43c4, 0x8ca5bad3, 0x16abf336, 0x8a2cbc87);
    Behind(block, 32, 0x00000006, 0x00020000, 0x00004040, 0x00014008, 0x00040028, 0x00004080, 0x00000008, 0x00084000,
           0x00000108, 0x00050000, 0x001000a0, 0x00032200, 0x00000064, 0x00204000, 0x00044408, 0x0014e088,
           0x0040029c, 0x00040800, 0x00014080, 0x00844028, 0x00001088, 0x00520000, 0x01000a40, 0x00336000,
           0x00040668, 0x02044080, 0x00444088, 0x01464880, 0x040028c8, 0x0045c000, 0x000408a8, 0x08474080);
    Sixteen(h, block, 48, 0xdf7fa0e0, 0x3d9f43c4, 0x8ca5bad3, 0x16abf336, 0x8a2cbc87,
            0x0040029c, 0x00040800, 0x00014080, 0x00844028, 0x00001088, 0x00520000, 0x01000a40, 0x00336000,
            0x00040668, 0x02044080, 0x00444088, 0x01464880, 0x040028c8, 0x0045c000, 0x000408a8, 0x08474080,
            0x13ff2b55, 0xa195fcf4, 0x28b139e9, 0x0c1225eb, 0x1ce135e3, 0x78b8b38f, 0x19bbc5c2, 0xd42cad13,
            0xb6f43d1a, 0x0d0e9b9d, 0xc5cfd738, 0x7ddae928, 0xa9fcb98a, 0xc7e77c72, 0x9293f5cb, 0xc98b99f0);
    Behind(block, 48, 0x0040029c, 0x00040800, 0x00014080, 0x00844028, 0x00001088, 0x00520000, 0x01000a40, 0x00336000,
           0x00040668, 0x02044080, 0x00444088, 0x01464880, 0x040028c8, 0x0045c000, 0x000408a8, 0x08474080,
           0x000108e8, 0x05000000, 0x1004a000, 0x03220080, 0x00006400, 0x20400000, 0x04440800, 0x14e00800,
           0x40029c10, 0x040c0000, 0x01418080, 0x84462820, 0x001088c0, 0x52060000, 0x000e40c1, 0x336f8080);
    Sixteen(h, block, 64, 0x7ddae928, 0xa9fcb98a, 0xc7e77c72, 0x9293f5cb, 0xc98b99f0,
            0x000108e8, 0x05000000, 0x1004a000, 0x03220080, 0x00006400, 0x20400000, 0x04440800, 0x14e00800,
            0x40029c10, 0x040c0000, 0x01418080, 0x84462820, 0x001088c0, 0x52060000, 0x000e40c1, 0x336f8080,
            0xa462c7d6, 0xa311a6aa, 0x613af31e, 0x11f414b7, 0x9c2ece75, 0x3b140458, 0x9a093626, 0x511afe58,
            0xe609b2ca, 0xf00e8196, 0x3106b71f, 0x73cc6e17, 0x8ccf48e2, 0x7362ae8e, 0x8f48736a, 0xbfc4c4a1);
  }

  // ---- bytes to words ----------------------------------------------------------------------------

  /** Four bytes of s make its word t. */
  predicate Spells(s: seq<Byte>, t: nat, b0: Byte, b1: Byte, b2: Byte, b3: Byte)
    requires |s| == 64 && t < 16
  {
    s[4 * t] == b0 && s[4 * t + 1] == b1 && s[4 * t + 2] == b2 && s[4 * t + 3] == b3
  }

  lemma Spelled(s: seq<Byte>, t: nat, b0: Byte, b1: Byte, b2: Byte, b3: Byte)
    requires |s| == 64 && t < 16 && Spells(s, t, b0, b1, b2, b3)
    ensures Words(s)[t] == BeWord(Bits(b0), Bits(b1), Bits(b2), Bits(b3))
  {}

  lemma Repeated(s: seq<Byte>, t: nat, n: nat, b: Byte)
    requires |s| == 64 && t <= n <= 16 && forall i :: 4 * t <= i < 4 * n ==> s[i] == b
    ensures forall j :: t <= j < n ==> Words(s)[j] == BeWord(Bits(b), Bits(b), Bits(b), Bits(b))
  {
    hide Words, BeWord, Bits;
    forall j | t <= j < n ensures Words(s)[j] == BeWord(Bits(b), Bits(b), Bits(b), Bits(b)) {
      Spelled(s, j, b, b, b, b);
    }
  }

  lemma BitsOfBytes()
    ensures Bits(0x00) == 0x00 && Bits(0x01) == 0x01 && Bits(0x02) == 0x02 && Bits(0x03) == 0x03 && Bits(0x04) == 0x04
    ensures Bits(0x05) == 0x05 && Bits(0x06) == 0x06 && Bits(0x08) == 0x08 && Bits(0x09) == 0x09 && Bits(0x0e) == 0x0e
    ensures Bits(0x14) == 0x14 && Bits(0x18) == 0x18 && Bits(0x1a) == 0x1a && Bits(0x21) == 0x21 && Bits(0x2b) == 0x2b
    ensures Bits(0x30) == 0x30 && Bits(0x61) == 0x61 && Bits(0x62) == 0x62 && Bits(0x63) == 0x63 && Bits(0x80) == 0x80
    ensures Bits(0xff) == 0xff
  {}

  lemma Spellings()
    ensures BeWord(Bits(0x61), Bits(0x62), Bits(0x63), Bits(0x80)) == 0x61626380
    ensures BeWord(Bits(0x00), Bits(0x00), Bits(0x00), Bits(0x00)) == 0x00000000
    ensures BeWord(Bits(0x00), Bits(0x00), Bits(0x00), Bits(0x18)) == 0x00000018
    ensures BeWord(Bits(0x00), Bits(0x01), Bits(0xff), Bits(0xff)) == 0x0001ffff
    ensures BeWord(Bits(0xff), Bits(0xff), Bits(0xff), Bits(0xff)) == 0xffffffff
    ensures BeWord(Bits(0x00), Bits(0x30), Bits(0x21), Bits(0x30)) == 0x00302130
    ensures BeWord(Bits(0x09), Bits(0x06), Bits(0x05), Bits(0x2b)) == 0x0906052b
    ensures BeWord(Bits(0x0e), Bits(0x03), Bits(0x02), Bits(0x1a)) == 0x0e03021a
    ensures BeWord(Bits(0x05), Bits(0x00), Bits(0x04), Bits(0x14)) == 0x05000414
    ensures BeWord(Bits(0x80), Bits(0x00), Bits(0x00), Bits(0x00)) == 0x80000000
    ensures BeWord(Bits(0x00), Bits(0x00), Bits(0x08), Bits(0x00)) == 0x00000800
  {
    hide Bits;
    BitsOfBytes();
  }

  lemma LengthBytes()
    ensures Be64(24) == [0, 0, 0, 0, 0, 0, 0, 24] && Be64(2048) == [0, 0, 0, 0, 0, 0, 8, 0]
  {
    assert Pow(256, 0) == 1 && Pow(256, 1) == 256 && Pow(256, 2) == 0x1_0000 && Pow(256, 3) == 0x100_0000;
    assert Pow(256, 4) == 0x1_0000_0000 && Pow(256, 5) == 0x100_0000_0000 && Pow(256, 6) == 0x1_0000_0000_0000;
    assert Pow(256, 7) == 0x100_0000_0000_0000;
  }

  // ---- the message abc ---------------------------------------------------------------------------

  const ABC: seq<Byte> := [0x61, 0x62, 0x63]

  lemma AbcBytes()
    ensures var p := Padded(ABC);
            && |p| == 64 && Spells(p, 0, 0x61, 0x62, 0x63, 0x80) && Spells(p, 15, 0, 0, 0, 24)
            && forall i :: 4 <= i < 60 ==> p[i] == 0
  {
    hide Be64, Pow;
    LengthBytes();
  }

  lemma AbcWords()
    ensures |Padded(ABC)| == 64
    ensures Words(Padded(ABC)) == [0x61626380, 0, 0, 0, 0, 0, 0, 0, 0, 0, 0, 0, 0, 0, 0, 24]
  {
    hide Padded, Words, BeWord, Bits, Spells;
    AbcBytes();
    Spellings();
    var p := Padded(ABC);
    Spelled(p, 0, 0x61, 0x62, 0x63, 0x80);
    Repeated(p, 1, 15, 0);
    Spelled(p, 15, 0, 0, 0, 24);
  }

  /** The example of FIPS 180. */
  lemma AbcDigest()
    ensures Sha1.Sha1(ABC) == [
      0xa9, 0x99, 0x3e, 0x36, 0x47, 0x06, 0x81, 0x6a, 0xba, 0x3e,
      0x25, 0x71, 0x78, 0x50, 0xc2, 0x6c, 0x9c, 0xd0, 0xd8, 0x9d]
  {
    hide Compress, Padded, Words;
    AbcWords();
    AbcBlock(Words(Padded(ABC)));
    var p := Padded(ABC);
    assert p[0..64] == p;
    assert Chain(p, 1) == Compress(Chain(p, 0), Words(p[0..64])) && Chain(p, 0) == INITIAL;
  }

  /** Both builds compute it. */
  method DigestAbc(unrolled: bool) returns (digest: seq<Byte>)
    ensures digest == [
      0xa9, 0x99, 0x3e, 0x36, 0x47, 0x06, 0x81, 0x6a, 0xba, 0x3e,
      0x25, 0x71, 0x78, 0x50, 0xc2, 0x6c, 0x9c, 0xd0, 0xd8, 0x9d]
  {
    hide Sha1.Sha1;
    AbcDigest();
    digest := Digest(unrolled, ABC);
  }

  // ---- the padding block -------------------------------------------------------------------------

  /** The padding of a 2048-bit PKCS #1 v1.5 signature over SHA-1, with zeros for the hash. */
  ghost predicate PaddingBytes(m: seq<Byte>) {
    && |m| == 256 && m[0] == 0 && m[1] == 1 && m[220] == 0
    && (forall i :: 2 <= i < 220 ==> m[i] == 0xff)
    && m[221..236] == [0x30, 0x21, 0x30, 0x09, 0x06, 0x05, 0x2b, 0x0e, 0x03, 0x02, 0x1a, 0x05, 0x00, 0x04, 0x14]
    && (forall i :: 236 <= i < 256 ==> m[i] == 0)
  }

  /** Block k of a padded message. */
  function Part(p: seq<Byte>, k: nat): (s: seq<Byte>)
    requires 64 * k + 64 <= |p|
    ensures |s| == 64
  {
    p[64 * k..64 * k + 64]
  }

  lemma PaddingParts(m: seq<Byte>)
    requires PaddingBytes(m)
    ensures |Padded(m)| == 320
    ensures forall i :: 0 <= i < 256 ==> Padded(m)[i] == m[i]
    ensures Padded(m)[256] == 0x80 && Padded(m)[318] == 8 && Padded(m)[319] == 0
    ensures forall i :: 257 <= i < 318 ==> Padded(m)[i] == 0
  {
    hide Be64, Pow;
    LengthBytes();
  }

  lemma PaddingWords0(p: seq<Byte>)
    requires |p| == 320
    requires Spells(Part(p, 0), 0, 0x00, 0x01, 0xff, 0xff)
    requires forall i :: 4 <= i < 64 ==> p[i] == 0xff
    ensures Words(Part(p, 0))
            == [0x0001ffff, 0xffffffff, 0xffffffff, 0xffffffff, 0xffffffff, 0xffffffff, 0xffffffff, 0xffffffff,
                0xffffffff, 0xffffffff, 0xffffffff, 0xffffffff, 0xffffffff, 0xffffffff, 0xffffffff, 0xffffffff]
  {
    hide Words, BeWord, Bits, Spells;
    Spellings();
    var s := Part(p, 0);
    Spelled(s, 0, 0x00, 0x01, 0xff, 0xff);
    Repeated(s, 1, 16, 0xff);
  }

  lemma PaddingWords1(p: seq<Byte>)
    requires |p| == 320
    requires forall i :: 64 <= i < 128 ==> p[i] == 0xff
    ensures Words(Part(p, 1))
            == [0xffffffff, 0xffffffff, 0xffffffff, 0xffffffff, 0xffffffff, 0xffffffff, 0xffffffff, 0xffffffff,
                0xffffffff, 0xffffffff, 0xffffffff, 0xffffffff, 0xffffffff, 0xffffffff, 0xffffffff, 0xffffffff]
  {
    hide Words, BeWord, Bits, Spells;
    Spellings();
    var s := Part(p, 1);
    Repeated(s, 0, 16, 0xff);
  }

  lemma PaddingWords2(p: seq<Byte>)
    requires |p| == 320
    requires forall i :: 128 <= i < 192 ==> p[i] == 0xff
    ensures Words(Part(p, 2))
            == [0xffffffff, 0xffffffff, 0xffffffff, 0xffffffff, 0xffffffff, 0xffffffff, 0xffffffff, 0xffffffff,
                0xffffffff, 0xffffffff, 0xffffffff, 0xffffffff, 0xffffffff, 0xffffffff, 0xffffffff, 0xffffffff]
  {
    hide Words, BeWord, Bits, Spells;
    Spellings();
    var s := Part(p, 2);
    Repeated(s, 0, 16, 0xff);
  }

  lemma PaddingWords3(p: seq<Byte>)
    requires |p| == 320
    requires forall i :: 192 <= i < 220 ==> p[i] == 0xff
    requires Spells(Part(p, 3), 7, 0x00, 0x30, 0x21, 0x30)
    requires Spells(Part(p, 3), 8, 0x09, 0x06, 0x05, 0x2b)
    requires Spells(Part(p, 3), 9, 0x0e, 0x03, 0x02, 0x1a)
    requires Spells(Part(p, 3), 10, 0x05, 0x00, 0x04, 0x14)
    requires forall i :: 236 <= i < 256 ==> p[i] == 0x00
    ensures Words(Part(p, 3))
            == [0xffffffff, 0xffffffff, 0xffffffff, 0xffffffff, 0xffffffff, 0xffffffff, 0xffffffff, 0x00302130,
                0x0906052b, 0x0e03021a, 0x05000414, 0x00000000, 0x00000000, 0x00000000, 0x00000000, 0x00000000]
  {
    hide Words, BeWord, Bits, Spells;
    Spellings();
    var s := Part(p, 3);
    Repeated(s, 0, 7, 0xff);
    Spelled(s, 7, 0x00, 0x30, 0x21, 0x30);
    Spelled(s, 8, 0x09, 0x06, 0x05, 0x2b);
    Spelled(s, 9, 0x0e, 0x03, 0x02, 0x1a);
    Spelled(s, 10, 0x05, 0x00, 0x04, 0x14);
    Repeated(s, 11, 16, 0x00);
  }

  lemma PaddingWords4(p: seq<Byte>)
    requires |p| == 320
    requires Spells(Part(p, 4), 0, 0x80, 0x00, 0x00, 0x00)
    requires forall i :: 260 <= i < 316 ==> p[i] == 0x00
    requires Spells(Part(p, 4), 15, 0x00, 0x00, 0x08, 0x00)
    ensures Words(Part(p, 4))
            == [0x80000000, 0x00000000, 0x00000000, 0x00000000, 0x00000000, 0x00000000, 0x00000000, 0x00000000,
                0x00000000, 0x00000000, 0x00000000, 0x00000000, 0x00000000, 0x00000000, 0x00000000, 0x00000800]
  {
    hide Words, BeWord, Bits, Spells;
    Spellings();
    var s := Part(p, 4);
    Spelled(s, 0, 0x80, 0x00, 0x00, 0x00);
    Repeated(s, 1, 15, 0x00);
    Spelled(s, 15, 0x00, 0x00, 0x08, 0x00);
  }

  lemma PaddingEnd(m: seq<Byte>, p: seq<Byte>)
    requires PaddingBytes(m) && |p| == 320 && forall i :: 0 <= i < 256 ==> p[i] == m[i]
    ensures Spells(Part(p, 3), 7, 0x00, 0x30, 0x21, 0x30) && Spells(Part(p, 3), 8, 0x09, 0x06, 0x05, 0x2b)
    ensures Spells(Part(p, 3), 9, 0x0e, 0x03, 0x02, 0x1a) && Spells(Part(p, 3), 10, 0x05, 0x00, 0x04, 0x14)
  {
    var e := m[221..236];
    assert p[220] == 0 && p[221] == e[0] && p[222] == e[1] && p[223] == e[2];
    assert p[224] == e[3] && p[225] == e[4] && p[226] == e[5] && p[227] == e[6];
    assert p[228] == e[7] && p[229] == e[8] && p[230] == e[9] && p[231] == e[10];
    assert p[232] == e[11] && p[233] == e[12] && p[234] == e[13] && p[235] == e[14];
  }

  lemma ChainStart(p: seq<Byte>)
    ensures Chain(p, 0) == INITIAL
  {}

  lemma ChainStep(p: seq<Byte>, k: nat)
    requires 64 * k + 64 <= |p|
    ensures Chain(p, k + 1) == Compress(Chain(p, k), Words(Part(p, k)))
  {
    hide Compress, Words;
  }

  lemma PaddingChain(m: seq<Byte>)
    requires PaddingBytes(m)
    ensures |Padded(m)| == 320
    ensures Chain(Padded(m), 5) == Regs(0xdcbdbe42, 0xd5f5a72e, 0x6efcf55d, 0xaf9dea68, 0x7cfbf167)
  {
    hide Compress, Words, Padded, Chain;
    PaddingParts(m);
    var p := Padded(m);
    PaddingEnd(m, p);
    ChainStart(p);
    PaddingWords0(p);
    PadBlock0(Words(Part(p, 0)));
    ChainStep(p, 0);
    PaddingWords1(p);
    PadBlock1(Words(Part(p, 1)));
    ChainStep(p, 1);
    PaddingWords2(p);
    PadBlock2(Words(Part(p, 2)));
    ChainStep(p, 2);
    PaddingWords3(p);
    PadBlock3(Words(Part(p, 3)));
    ChainStep(p, 3);
    PaddingWords4(p);
    PadBlock4(Words(Part(p, 4)));
    ChainStep(p, 4);
  }

  /** The digest RSA_e_f4_verify has as a constant. */
  lemma PaddingDigest(m: seq<Byte>)
    requires PaddingBytes(m)
    ensures Sha1.Sha1(m) == [
      0xdc, 0xbd, 0xbe, 0x42, 0xd5, 0xf5, 0xa7, 0x2e, 0x6e, 0xfc,
      0xf5, 0x5d, 0xaf, 0x9d, 0xea, 0x68, 0x7c, 0xfb, 0xf1, 0x67]
  {
    hide Padded, Chain;
    PaddingChain(m);
  }
}
