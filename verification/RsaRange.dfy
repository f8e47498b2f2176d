/**
 * Signatures at or above the modulus. RFC 8017 rejects them (sections 5.2.2 and 8.2.2); the code does not look at the
 * range. Also the key struct as the host computes it from a modulus.
 */
module RsaRange {
  import opened Arith
  import opened Lists
  import opened Montgomery
  import opened RsaVerify

  /** A signature and the one that is larger by the modulus open alike, and section 8.2.2 rejects the larger one. */
  lemma ShiftedRejected(key: RsaKey, s: seq<Byte>, t: seq<Byte>, sha: seq<Byte>)
    requires MontgomeryKey(key) && key.exponent >= 0 && |s| == |t|
    requires BeVal(t) == BeVal(s) + Modulus(key)
    ensures Opened(key, s) == Opened(key, t) && !RfcAccepts(key, t, sha)
  {
    hide BeVal, Val, Opened, Emsa;
    ModulusPositive(key);
    CongIntro(BeVal(s), BeVal(t), Modulus(key), -1);
    SameOpened(key, s, t);
  }

  /** RSA_e_3_verify accepts both or neither, where section 8.2.2 never accepts the larger one. */
  method VerifyBoth(key: RsaKey, s: seq<Byte>, t: seq<Byte>, sha: seq<Byte>) returns (a: bool, b: bool)
    requires PublicKey(key) && key.len == 64 && key.exponent == 3 && |s| == |t| == 256 && |sha| == 20
    requires BeVal(t) == BeVal(s) + Modulus(key)
    ensures a == b && (a <==> Opened(key, s) == Encoded(sha))
    ensures (RfcAccepts(key, s, sha) <==> a && BeVal(s) < Modulus(key)) && !RfcAccepts(key, t, sha)
  {
    hide BeVal, Modulus, MontgomeryKey, Opened, Encoded, RfcAccepts, Residue;
    ShiftedRejected(key, s, t, sha);
    a := RsaE3Verify(key, s, sha);
    b := RsaE3Verify(key, t, sha);
  }

  // ---- the key struct ----------------------------------------------------------------------

  /** The k low words of x, lowest first. */
  function WordsOf(x: nat, k: nat): (w: seq<Word>)
    ensures |w| == k
  {
    if k == 0 then [] else [x % 0x1_0000_0000] + WordsOf(x / 0x1_0000_0000, k - 1)
  }

  lemma ValEmpty()
    ensures Val([]) == 0
  {}

  lemma {:induction false} WordsValue(x: nat, k: nat)
    requires x < Base(k)
    ensures Val(WordsOf(x, k)) == x
  {
    hide Val;
    if k == 0 {
      ValEmpty();
    } else {
      WordsValue(x / 0x1_0000_0000, k - 1);
      ValCons(x % 0x1_0000_0000, WordsOf(x / 0x1_0000_0000, k - 1));
    }
  }

  /** The struct for a modulus of 64 words: its words, those of 2^4096 modulo it, and -1/n modulo 2^32. */
  function KeyOf(n: nat, n0inv: Word, exponent: int): RsaKey
    requires n > 0
  {
    BasePositive(64);
    var r: nat := Base(64);
    RsaKey(64, n0inv, WordsOf(n, 64), WordsOf(r * r % n, 64), exponent)
  }

  lemma FirstWordOf(x: nat)
    ensures WordsOf(x, 64)[0] == x % 0x1_0000_0000
  {}

  /** A number in the upper half of its length has its top bit set. */
  lemma TopWord(w: seq<Word>)
    requires |w| == 64 && Val(w) >= 0x8000_0000 * Base(63)
    ensures w[63] >= 0x8000_0000
  {
    hide Base;
    ValBound(w[..63]);
    if w[63] < 0x8000_0000 { MulMono(w[63] + 1, 0x8000_0000, Base(63)); }
  }

  /** That struct is what verification relies on. */
  lemma KeyOfFits(n: nat, n0inv: Word, exponent: int)
    requires 0x8000_0000 * Base(63) <= n < Base(64) && (n0inv * (n % 0x1_0000_0000) + 1) % 0x1_0000_0000 == 0
    ensures n > 0 && PublicKey(KeyOf(n, n0inv, exponent)) && Modulus(KeyOf(n, n0inv, exponent)) == n
  {
    hide Val, Base;
    BasePositive(63);
    BasePositive(64);
    var key := KeyOf(n, n0inv, exponent);
    var r: nat := Base(64);
    DivMod(r * r, n);
    WordsValue(n, 64);
    WordsValue(r * r % n, 64);
    FirstWordOf(n);
    TopWord(key.n);
    CongResidue(r * r, n);
  }

  // ---- a signature that only the code accepts ------------------------------------------------

  const HASH: seq<Byte> := [0, 0, 0, 0, 0, 0, 0, 0, 0, 0, 0, 0, 0, 0, 0, 0, 0, 0, 0, 1]

  /** A number whose cube is the encoded hash modulo a number of 64 words. */
  function Root(): nat { BasePositive(21); 1536 * Base(21) }

  lemma {:induction false} BaseAdd(a: nat, b: nat)
    ensures Base(a + b) == Base(a) * Base(b)
  {
    if a > 0 {
      BaseAdd(a - 1, b);
      Assoc(0x1_0000_0000, Base(a - 1), Base(b));
    }
  }

  lemma {:induction false} BaseMono(a: nat, b: nat)
    requires a <= b
    ensures 0 < Base(a) <= Base(b)
    decreases b - a
  {
    BasePositive(a);
    if a < b { BaseMono(a + 1, b); }
  }

  lemma {:induction false} BeValBound(s: seq<Byte>)
    ensures BeVal(s) < Pow(256, |s|)
  {
    if s != [] { BeValBound(s[..|s| - 1]); }
  }

  lemma {:induction false} LeadingZero(s: seq<Byte>)
    ensures BeVal([0] + s) == BeVal(s)
  {
    if s == [] {
      assert ([0] + s)[..0] == [];
    } else {
      LeadingZero(s[..|s| - 1]);
      assert ([0] + s)[..|s|] == [0] + s[..|s| - 1];
    }
  }

  lemma CubeOfRoot()
    ensures Pow(Root(), 3) == 1536 * 1536 * 1536 * Base(63)
  {
    hide Base;
    var b := Base(21);
    BaseAdd(21, 21);
    BaseAdd(42, 21);
    var r := Root();
    assert Pow(r, 3) == r * (r * (r * 1)) by { assert Pow(r, 1) == r * Pow(r, 0) && Pow(r, 2) == r * Pow(r, 1); }
    assert r * r == 1536 * 1536 * (b * b) by { Regroup(1536, b, 1536, b); }
    assert r * (r * r) == 1536 * 1536 * 1536 * (b * b * b) by { Regroup(1536, b, 1536 * 1536, b * b); }
  }

  lemma Cubed()
    ensures Pow(256, 3) == 0x100_0000
  {
    assert Pow(256, 1) == 256 && Pow(256, 2) == 256 * Pow(256, 1) && Pow(256, 3) == 256 * Pow(256, 2);
  }

  /** The encoded hash begins with a zero byte and ends with a one. */
  lemma EncodedValue()
    ensures BeVal(Encoded(HASH)) < 0x100_0000 * Base(63) && BeVal(Encoded(HASH)) % 0x1_0000_0000 == 1
  {
    hide BeVal, Base, Pow;
    var e := Encoded(HASH);
    assert e == [0] + e[1..];
    LeadingZero(e[1..]);
    BeValBound(e[1..]);
    BaseBytes(63);
    PowAdd(256, 3, 252);
    Cubed();
    assert e == e[..252] + [0, 0, 0, 1];
    BeSnoc4(e[..252], 0, 0, 0, 1);
  }

  /** The number modulo which the cube of the root is the encoded hash. */
  function Number(): int { 1536 * 1536 * 1536 * Base(63) - BeVal(Encoded(HASH)) }

  lemma NextBase(e: nat)
    ensures Base(e + 1) == 0x1_0000_0000 * Base(e)
  {}

  lemma NumberFits()
    ensures 0x8000_0000 * Base(63) <= Number() < Base(64) - Root() && Number() % 0x1_0000_0000 == 0xffff_ffff
    ensures Root() < Number() && BeVal(Encoded(HASH)) < Number()
  {
    hide BeVal, Encoded, Base;
    var e := BeVal(Encoded(HASH));
    EncodedValue();
    BaseMono(22, 63);
    NextBase(21);
    NextBase(62);
    NextBase(63);
    DivMod(e, 0x1_0000_0000);
    var q := 1536 * 1536 * 1536 * Base(62) - e / 0x1_0000_0000 - 1;
    assert Number() == q * 0x1_0000_0000 + 0xffff_ffff;
    ModShift(0xffff_ffff, q, 0x1_0000_0000);
  }

  lemma EncodedLength()
    ensures |Encoded(HASH)| == 256
  {}

  lemma RootOpens(key: RsaKey, s: seq<Byte>)
    requires MontgomeryKey(key) && key.exponent == 3 && Modulus(key) == Number()
    requires |s| == 256 && BeVal(s) == Root()
    ensures Opened(key, s) == Encoded(HASH)
  {
    hide BeVal, Base, Pow, Encoded, I2osp, Val, Root;
    var e, n := BeVal(Encoded(HASH)), Number();
    CubeOfRoot();
    NumberFits();
    ModShift(e, 1, n);
    ModSmall(e, n);
    assert PublicPower(key, Root()) == e;
    EncodedLength();
    I2ospOfBytes(Encoded(HASH));
  }

  lemma KeyShape(n: nat)
    requires n > 0
    ensures KeyOf(n, 1, 3).len == 64 && KeyOf(n, 1, 3).exponent == 3
  {}

  /** A key and two byte strings: the code accepts both for the same hash, section 8.2.2 only the smaller. */
  method AcceptedOutOfRange()
    returns (key: RsaKey, s: seq<Byte>, t: seq<Byte>, a: bool, b: bool)
    ensures PublicKey(key) && key.len == 64 && key.exponent == 3 && |s| == |t| == 256
    ensures a && b && RfcAccepts(key, s, HASH) && !RfcAccepts(key, t, HASH)
  {
    hide BeVal, Base, Encoded, I2osp, Val, Pow, Root, Opened, RfcAccepts, MontgomeryKey, KeyOf, Residue;
    NumberFits();
    BasePositive(63);
    var n := Number();
    KeyOfFits(n, 1, 3);
    key := KeyOf(n, 1, 3);
    KeyShape(n);
    s, t := I2osp(Root(), 256), I2osp(Root() + n, 256);
    BaseBytes(64);
    BytesOfI2osp(Root(), 256);
    BytesOfI2osp(Root() + n, 256);
    RootOpens(key, s);
    a, b := VerifyBoth(key, s, t, HASH);
  }
}
