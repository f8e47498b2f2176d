/**
 * Public-key exponentiation with exponents 3 and 65537 and PKCS #1 v1.5 signature checking,
 * as libmincrypt does them, against sections 5.2.2, 8.2.2 and 9.2 of RFC 8017.
 */
module RsaVerify {
  import opened Arith
  import Der
  import opened Lists
  import opened Montgomery
  import Sha1
  import Sha1Known

  /** The precomputed values of a public key agree with its modulus. */
  ghost predicate KeyRelation(key: RsaKey) {
    && MontgomeryKey(key)
    && (ModulusPositive(key); Cong(Val(key.rr), Radix(key) * Radix(key), Modulus(key)))
  }

  /** The modulus has its top bit set, as a 2048-bit modulus in 64 words has. */
  predicate FullLength(key: RsaKey)
    requires Sized(key)
  {
    key.n[key.len - 1] >= 0x8000_0000
  }

  /** s^e mod n, for any s. */
  function PublicPower(key: RsaKey, s: nat): nat
    requires MontgomeryKey(key) && key.exponent >= 0
  {
    ModulusPositive(key);
    Pow(s, key.exponent) % Modulus(key)
  }

  function Reduced(key: RsaKey, v: int): int {
    if v >= Modulus(key) then v - Modulus(key) else v
  }

  /**
   * The comment "at most 1x mod too large": one conditional subtraction reduces every number
   * below the radix exactly when the modulus is at least half the radix.
   */
  lemma OneSubtractionSuffices(key: RsaKey)
    requires MontgomeryKey(key)
    ensures (forall v :: 0 <= v < Radix(key) ==> Reduced(key, v) < Modulus(key)) <==> 2 * Modulus(key) >= Radix(key)
    ensures FullLength(key) ==> 2 * Modulus(key) >= Radix(key)
  {
    if 2 * Modulus(key) < Radix(key) {
      ModulusPositive(key);
      assert Reduced(key, 2 * Modulus(key)) == Modulus(key);
    }
    if FullLength(key) {
      var k := key.len - 1;
      ValBound(key.n[..k]);
      MulMono(0x8000_0000, key.n[k], Base(k));
    }
  }

  /** The Montgomery form of x is x * R modulo n. */
  ghost predicate IsForm(key: RsaKey, form: seq<Word>, x: int)
    requires MontgomeryKey(key)
  {
    ModulusPositive(key);
    Cong(Val(form), x * Radix(key), Modulus(key))
  }

  lemma WordInverse(n0: int, n: int, q: int, inv: int, k: int)
    requires n == n0 + 0x1_0000_0000 * q && (inv * n0 + 1) % 0x1_0000_0000 == 0
    requires k == (n * inv + 1) / 0x1_0000_0000
    ensures 0x1_0000_0000 * k - 1 == inv * n
  {
    assert n * inv + 1 == inv * n0 + 1 + 0x1_0000_0000 * (q * inv);
  }

  lemma LowWord(s: seq<Word>)
    requires s != []
    ensures (Val(s) - s[0]) % 0x1_0000_0000 == 0
  {
    hide Val;
    assert s == [s[0]] + s[1..];
    ValCons(s[0], s[1..]);
  }

  lemma Regroup(w: int, k: int, b: int, r: int)
    ensures (w * k) * (b * r) == (w * b) * (k * r)
  {
    Assoc(w, k, b * r);
    Assoc(k, b, r);
    Assoc(b, k, r);
    Assoc(w, b, k * r);
  }

  lemma {:induction false} BaseInverse(len: nat, k: int, n: int) returns (inv: int)
    requires n > 0 && Cong(0x1_0000_0000 * k, 1, n)
    ensures Cong(Base(len) * inv, 1, n)
  {
    if len == 0 {
      inv := 1;
    } else {
      hide Cong;
      var r := BaseInverse(len - 1, k, n);
      inv := k * r;
      CongMul(0x1_0000_0000 * k, 1, Base(len - 1) * r, 1, n);
      Regroup(0x1_0000_0000, k, Base(len - 1), r);
    }
  }

  /** 2^32 is invertible modulo n, with inverse (n * n0inv + 1) / 2^32, and so is the radix. */
  lemma RadixInvertible(key: RsaKey) returns (inv: int)
    requires MontgomeryKey(key)
    ensures 0 < Modulus(key) && Cong(Radix(key) * inv, 1, Modulus(key))
  {
    ModulusPositive(key);
    var k: int := (Modulus(key) * key.n0inv + 1) / 0x1_0000_0000;
    LowWord(key.n);
    WordInverse(key.n[0], Modulus(key), (Modulus(key) - key.n[0]) / 0x1_0000_0000, key.n0inv, k);
    CongIntro(0x1_0000_0000 * k, 1, Modulus(key), key.n0inv);
    inv := BaseInverse(key.len, k, Modulus(key));
  }

  /** A Montgomery product of two forms is the form of the product. */
  lemma FormProduct(key: RsaKey, x: int, fx: seq<Word>, y: int, fy: seq<Word>, fz: seq<Word>)
    requires MontgomeryKey(key) && IsForm(key, fx, x) && IsForm(key, fy, y)
    requires 0 < Modulus(key) && Cong(Val(fz) * Radix(key), Val(fx) * Val(fy), Modulus(key))
    ensures IsForm(key, fz, x * y)
  {
    hide Val, Base;
    var n, R := Modulus(key), Radix(key);
    var inv := RadixInvertible(key);
    CongMul(Val(fx), x * R, Val(fy), y * R, n);
    Regroup(x, R, y, R);
    Assoc(x * y, R, R);
    CongCancel(Val(fz), x * y * R, R, inv, n);
  }

  /** The Montgomery product of the form of x with a plain y is the plain x * y. */
  lemma FormTimesPlain(key: RsaKey, x: int, fx: seq<Word>, y: int, z: int)
    requires MontgomeryKey(key) && IsForm(key, fx, x)
    requires 0 < Modulus(key) && Cong(z * Radix(key), Val(fx) * y, Modulus(key))
    ensures Cong(z, x * y, Modulus(key))
  {
    hide Val, Base;
    var n, R := Modulus(key), Radix(key);
    var inv := RadixInvertible(key);
    CongScale(Val(fx), x * R, y, n);
    assert x * R * y == x * y * R by { Assoc(x, R, y); Assoc(x, y, R); }
    CongCancel(z, x * y, R, inv, n);
  }

  lemma FormSquare(key: RsaKey, s: int, e: nat, fx: seq<Word>, fz: seq<Word>)
    requires MontgomeryKey(key) && IsForm(key, fx, Pow(s, e))
    requires 0 < Modulus(key) && Cong(Val(fz) * Radix(key), Val(fx) * Val(fx), Modulus(key))
    ensures IsForm(key, fz, Pow(s, 2 * e))
  {
    hide Val, Base, Pow, Cong;
    FormProduct(key, Pow(s, e), fx, Pow(s, e), fx, fz);
    PowAdd(s, e, e);
  }

  lemma PowOne(s: int)
    ensures Pow(s, 1) == s
  {
    assert Pow(s, 0) == 1;
  }

  lemma FormLast(key: RsaKey, s: int, e: nat, fx: seq<Word>, z: int)
    requires MontgomeryKey(key) && IsForm(key, fx, Pow(s, e))
    requires 0 < Modulus(key) && Cong(z * Radix(key), Val(fx) * s, Modulus(key))
    ensures Cong(z, Pow(s, e + 1), Modulus(key))
  {
    hide Val, Base, Pow, Cong;
    FormTimesPlain(key, Pow(s, e), fx, s, z);
    PowAdd(s, e, 1);
    PowOne(s);
  }

  /** The Montgomery product of x with R^2 is the form of x. */
  lemma FormOf(key: RsaKey, x: int, fx: seq<Word>)
    requires KeyRelation(key)
    requires 0 < Modulus(key) && Cong(Val(fx) * Radix(key), x * Val(key.rr), Modulus(key))
    ensures IsForm(key, fx, x)
  {
    hide Val, Base;
    var n, R := Modulus(key), Radix(key);
    var inv := RadixInvertible(key);
    CongMul(x, x, Val(key.rr), R * R, n);
    Assoc(x, R, R);
    CongCancel(Val(fx), x * R, R, inv, n);
  }

  /** The conversion loop: big-endian bytes to little-endian words. */
  method ReadBytes(key: RsaKey, inout: array<Byte>, a: array<Word>)
    requires Sized(key) && a.Length == key.len && inout.Length == 4 * key.len
    modifies a
    ensures Val(a[..]) == BeVal(inout[..])
  {
    ghost var s := inout[..];
    var i := 0;
    while i < key.len
      invariant 0 <= i <= key.len && inout[..] == s
      invariant forall j :: 0 <= j < i ==> a[j] == WordAt(s, key.len - 1 - j)
    {
      var p := (key.len - 1 - i) * 4;
      a[i] := Be32(inout[p], inout[p + 1], inout[p + 2], inout[p + 3]);
      i := i + 1;
    }
    BigEndianValue(s, a[..]);
  }

  /** Byte j of the big-endian form of w. */
  function OutByte(w: seq<Word>, j: nat): Byte
    requires j < 4 * |w|
  {
    ByteOf(w[|w| - 1 - j / 4], j % 4)
  }

  lemma OutBytes(w: seq<Word>, i: nat)
    requires i < |w|
    ensures var p := 4 * (|w| - 1 - i);
            && OutByte(w, p) == ByteOf(w[i], 0) && OutByte(w, p + 1) == ByteOf(w[i], 1)
            && OutByte(w, p + 2) == ByteOf(w[i], 2) && OutByte(w, p + 3) == ByteOf(w[i], 3)
  {
    hide ByteOf;
  }

  lemma OutValue(s: seq<Byte>, w: seq<Word>)
    requires |s| == 4 * |w| && forall j :: 0 <= j < |s| ==> s[j] == OutByte(w, j)
    ensures BeVal(s) == Val(w)
  {
    forall i | 0 <= i < |w| ensures w[i] == WordAt(s, |w| - 1 - i) {
      hide ByteOf, Be32, OutByte;
      OutBytes(w, i);
      Be32OfBytes(w[i]);
    }
    BigEndianValue(s, w);
  }

  /** The conversion loop back: words to big-endian bytes. */
  method WriteBytes(key: RsaKey, a: array<Word>, inout: array<Byte>)
    requires Sized(key) && a.Length == key.len && inout.Length == 4 * key.len
    modifies inout
    ensures BeVal(inout[..]) == Val(a[..])
  {
    hide OutByte, ByteOf, Val, BeVal;
    ghost var w := a[..];
    var i := key.len - 1;
    var p := 0;
    while i >= 0
      invariant -1 <= i < key.len && p == 4 * (key.len - 1 - i) && a[..] == w
      invariant forall j :: 0 <= j < p ==> inout[j] == OutByte(w, j)
    {
      var tmp := a[i];
      OutBytes(w, i);
      inout[p] := ByteOf(tmp, 0);
      p := p + 1;
      inout[p] := ByteOf(tmp, 1);
      p := p + 1;
      inout[p] := ByteOf(tmp, 2);
      p := p + 1;
      inout[p] := ByteOf(tmp, 3);
      p := p + 1;
      i := i - 1;
    }
    OutValue(inout[..], w);
  }

  function Two(i: nat): nat { if i == 0 then 1 else 2 * Two(i - 1) }

  lemma {:induction false} TwoPositive(i: nat)
    ensures Two(i) > 0
  {
    if i > 0 { TwoPositive(i - 1); }
  }

  /** The loop of modpowF4: aR becomes the form of s to the power 2^16. */
  method SquareSixteen(key: RsaKey, aR: array<Word>, aaR: array<Word>, ghost s: nat)
    requires KeyRelation(key) && aR.Length == aaR.Length == key.len && aR != aaR
    requires IsForm(key, aR[..], Pow(s, Two(0)))
    modifies aR, aaR
    ensures IsForm(key, aR[..], Pow(s, Two(16)))
  {
    hide Val, Base, Cong, Pow, IsForm, Modulus, Radix;
    var i := 0;
    while i < 16
      invariant 0 <= i <= 16 && i % 2 == 0
      invariant IsForm(key, aR[..], Pow(s, Two(i)))
    {
      MontMul(key, aaR, aR, aR);
      FormSquare(key, s, Two(i), aR[..], aaR[..]);
      MontMul(key, aR, aaR, aaR);
      FormSquare(key, s, Two(i + 1), aaR[..], aR[..]);
      i := i + 2;
    }
  }

  lemma TwoSixteen()
    ensures Two(16) == 65536
  {
    assert Two(4) == 16;
    assert Two(8) == 16 * Two(4);
    assert Two(12) == 16 * Two(8);
  }

  lemma SmallRem(x: int, y: int, n: int)
    requires 0 <= x < n && Cong(x, y, n)
    ensures x == y % n
  {}

  lemma ReducedIsPower(key: RsaKey, v: int, s: nat)
    requires MontgomeryKey(key) && key.exponent >= 0 && 0 <= v < Radix(key)
    requires 0 < Modulus(key) && Cong(v, Pow(s, key.exponent), Modulus(key))
    ensures 2 * Modulus(key) >= Radix(key) ==> Reduced(key, v) == PublicPower(key, s)
  {
    hide Val, Base, Pow;
    var n := Modulus(key);
    if 2 * n >= Radix(key) {
      if v >= n { CongIntro(v - n, v, n, -1); }
      SmallRem(Reduced(key, v), Pow(s, key.exponent), n);
    }
  }

  /** The final conditional subtraction and the conversion to bytes. */
  method Finish(key: RsaKey, aaa: array<Word>, inout: array<Byte>, ghost s: nat)
    requires MontgomeryKey(key) && key.exponent >= 0
    requires aaa.Length == key.len && inout.Length == 4 * key.len
    requires 0 < Modulus(key) && Cong(Val(aaa[..]), Pow(s, key.exponent), Modulus(key))
    modifies aaa, inout
    ensures 2 * Modulus(key) >= Radix(key) ==> BeVal(inout[..]) == PublicPower(key, s)
  {
    hide Val, BeVal, Base, Pow, Cong, PublicPower;
    ValBound(aaa[..]);
    ReducedIsPower(key, Val(aaa[..]), s);
    var ge := GeM(key, aaa);
    if ge {
      SubM(key, aaa);
    }
    WriteBytes(key, aaa, inout);
  }

  /** In-place exponentiation by 65537. */
  method ModPowF4(key: RsaKey, inout: array<Byte>)
    requires KeyRelation(key) && key.exponent == 65537 && inout.Length == 4 * key.len
    modifies inout
    ensures 2 * Modulus(key) >= Radix(key) ==> BeVal(inout[..]) == PublicPower(key, BeVal(old(inout[..])))
  {
    hide Val, BeVal, Base, Cong, Pow, IsForm, Modulus, Radix, PublicPower;
    ghost var s := BeVal(inout[..]);
    var a, aR, aaR := new Word[key.len], new Word[key.len], new Word[key.len];
    ReadBytes(key, inout, a);
    var rr := new Word[key.len](i requires 0 <= i < key.len => key.rr[i]);
    assert rr[..] == key.rr;
    MontMul(key, aR, a, rr);
    FormOf(key, s, aR[..]);
    PowOne(s);
    SquareSixteen(key, aR, aaR, s);
    var aaa := aaR;
    MontMul(key, aaa, aR, a);
    FormLast(key, s, Two(16), aR[..], Val(aaa[..]));
    TwoSixteen();
    Finish(key, aaa, inout, s);
  }

  /** In-place exponentiation by 3; the last product is written over aR. */
  method ModPow3(key: RsaKey, inout: array<Byte>)
    requires KeyRelation(key) && key.exponent == 3 && inout.Length == 4 * key.len
    modifies inout
    ensures 2 * Modulus(key) >= Radix(key) ==> BeVal(inout[..]) == PublicPower(key, BeVal(old(inout[..])))
  {
    hide Val, BeVal, Base, Cong, Pow, IsForm, Modulus, Radix, PublicPower;
    ghost var s := BeVal(inout[..]);
    var a, aR, aaR := new Word[key.len], new Word[key.len], new Word[key.len];
    ReadBytes(key, inout, a);
    var rr := new Word[key.len](i requires 0 <= i < key.len => key.rr[i]);
    assert rr[..] == key.rr;
    MontMul(key, aR, a, rr);
    FormOf(key, s, aR[..]);
    PowOne(s);
    MontMul(key, aaR, aR, aR);
    FormSquare(key, s, 1, aR[..], aaR[..]);
    var aaa := aR;
    MontMul(key, aaa, aaR, a);
    FormLast(key, s, 2, aaR[..], Val(aaa[..]));
    Finish(key, aaa, inout, s);
  }

  // ---- signature checking ---------------------------------------------------------

  /** I2OSP of RFC 8017: the k-byte big-endian form of x. */
  function I2osp(x: nat, k: nat): (s: seq<Byte>)
    ensures |s| == k
  {
    if k == 0 then [] else I2osp(x / 256, k - 1) + [x % 256]
  }

  lemma {:induction false} I2ospOfBytes(s: seq<Byte>)
    ensures I2osp(BeVal(s), |s|) == s
  {
    if s != [] {
      var k := |s| - 1;
      I2ospOfBytes(s[..k]);
      assert BeVal(s) / 256 == BeVal(s[..k]) && BeVal(s) % 256 == s[k];
      assert s == s[..k] + [s[k]];
    }
  }

  /** The DER prefix of a SHA-1 DigestInfo. */
  const SHA1_PREFIX: seq<Byte> :=
    [0x30, 0x21, 0x30, 0x09, 0x06, 0x05, 0x2b, 0x0e, 0x03, 0x02, 0x1a, 0x05, 0x00, 0x04, 0x14]

  function Ones(k: nat): (s: seq<Byte>)
    ensures |s| == k
  {
    seq(k, _ => 0xff)
  }

  function Padding(): (p: seq<Byte>)
    ensures |p| == 236
  {
    [0x00, 0x01] + Ones(218) + [0x00] + SHA1_PREFIX
  }

  /** EMSA-PKCS1-v1_5 (section 9.2 of RFC 8017) of a SHA-1 hash, in 256 bytes. */
  function Encoded(sha: seq<Byte>): seq<Byte> { Padding() + sha }

  /** What the code makes of a signature under the key, whatever its range. */
  function Opened(key: RsaKey, signature: seq<Byte>): (em: seq<Byte>)
    requires MontgomeryKey(key) && key.exponent >= 0
    ensures |em| == |signature|
  {
    I2osp(PublicPower(key, BeVal(signature)), |signature|)
  }

  // ---- signature checking as RFC 8017 has it ---------------------------------------------

  /** RSAVP1 (section 5.2.2): a signature representative out of range has no message representative. */
  function RsaVp1(key: RsaKey, s: nat): Option<nat>
    requires MontgomeryKey(key) && key.exponent >= 0
  {
    if s < Modulus(key) then Some(PublicPower(key, s)) else None
  }

  /** EMSA-PKCS1-v1_5 (section 9.2) of a SHA-1 hash, in k bytes if these are enough. */
  function Emsa(sha: seq<Byte>, k: nat): Option<seq<Byte>> {
    var t := SHA1_PREFIX + sha;
    if k < |t| + 11 then None else Some([0x00, 0x01] + Ones(k - |t| - 3) + [0x00] + t)
  }

  /** Steps 1 and 2 of section 8.2.2: the encoded message, unless the signature is invalid. */
  function RfcMessage(key: RsaKey, signature: seq<Byte>): (em: Option<seq<Byte>>)
    requires MontgomeryKey(key) && key.exponent >= 0
    ensures em.Some? ==> |em.value| == |signature| == 4 * key.len
  {
    if |signature| != 4 * key.len then None
    else
      match RsaVp1(key, BeVal(signature))
      case None => None
      case Some(m) => Some(I2osp(m, 4 * key.len))
  }

  /** Section 8.2.2 accepts the signature. */
  predicate RfcAccepts(key: RsaKey, signature: seq<Byte>, sha: seq<Byte>)
    requires MontgomeryKey(key) && key.exponent >= 0
  {
    RfcMessage(key, signature).Some? && RfcMessage(key, signature) == Emsa(sha, 4 * key.len)
  }

  lemma EncodedIsEmsa(sha: seq<Byte>)
    requires |sha| == 20
    ensures Emsa(sha, 256) == Some(Encoded(sha))
  {
    var front := [0x00, 0x01] + Ones(218) + [0x00];
    assert front + (SHA1_PREFIX + sha) == front + SHA1_PREFIX + sha;
  }

  /** SHA1_PREFIX and a hash are the DigestInfo of that hash, and nothing else is. */
  lemma PrefixIsDigestInfo(t: seq<Byte>, sha: seq<Byte>)
    requires |sha| == 20
    ensures t == SHA1_PREFIX + sha <==> Der.IsDigestInfo(t, Der.ID_SHA1, sha)
  {
    hide Der.IsDigestInfo;
    Der.DigestInfoBytes(t, sha);
    var d := [Der.SEQUENCE, 9] + Der.SHA1_ALGORITHM + ([Der.OCTET_STRING, |sha|] + sha);
    assert [Der.SEQUENCE, 13 + |sha|] + d == SHA1_PREFIX + sha;
  }

  /** Figure 1 of RFC 8017, section 9.2: 00 01, bytes ff, 00 and the DigestInfo. */
  predicate IsEncoding(em: seq<Byte>, sha: seq<Byte>) {
    && |em| == 256 && em[0] == 0x00 && em[1] == 0x01 && em[220] == 0x00
    && (forall i :: 2 <= i < 220 ==> em[i] == 0xff)
    && Der.IsDigestInfo(em[221..], Der.ID_SHA1, sha)
  }

  lemma EncodedIsEncoding(em: seq<Byte>, sha: seq<Byte>)
    requires |sha| == 20
    ensures em == Encoded(sha) <==> IsEncoding(em, sha)
  {
    hide Der.IsDigestInfo;
    var e := Encoded(sha);
    assert e[221..] == SHA1_PREFIX + sha && e[..221] == [0x00, 0x01] + Ones(218) + [0x00];
    PrefixIsDigestInfo(e[221..], sha);
    if IsEncoding(em, sha) {
      PrefixIsDigestInfo(em[221..], sha);
      assert em[..221] == [0x00, 0x01] + Ones(218) + [0x00];
      assert em == em[..221] + em[221..];
    }
  }

  /** A signature reduced modulo n. */
  function Residue(key: RsaKey, signature: seq<Byte>): (r: seq<Byte>)
    requires MontgomeryKey(key)
    ensures |r| == |signature|
  {
    ModulusPositive(key);
    I2osp(BeVal(signature) % Modulus(key), |signature|)
  }

  /** The code opens signatures that are congruent modulo n alike. */
  lemma SameOpened(key: RsaKey, s: seq<Byte>, t: seq<Byte>)
    requires MontgomeryKey(key) && key.exponent >= 0 && |s| == |t|
    requires 0 < Modulus(key) && Cong(BeVal(s), BeVal(t), Modulus(key))
    ensures Opened(key, s) == Opened(key, t)
  {
    hide BeVal, I2osp, Pow, Val;
    CongPow(BeVal(s), BeVal(t), key.exponent, Modulus(key));
  }

  lemma OpenedIsPower(key: RsaKey, s: seq<Byte>)
    requires MontgomeryKey(key) && key.exponent >= 0
    ensures Opened(key, s) == I2osp(PublicPower(key, BeVal(s)), |s|)
  {}

  lemma CongResidue(x: int, n: int)
    requires n > 0
    ensures Cong(x % n, x, n)
  {
    DivMod(x, n);
    CongIntro(x % n, x, n, -(x / n));
  }

  lemma {:induction false} BytesOfI2osp(x: nat, k: nat)
    requires x < Pow(256, k)
    ensures BeVal(I2osp(x, k)) == x
  {
    if k > 0 {
      BytesOfI2osp(x / 256, k - 1);
      var s := I2osp(x, k);
      assert s[..k - 1] == I2osp(x / 256, k - 1) && s[k - 1] == x % 256;
    }
  }

  lemma {:induction false} BaseBytes(e: nat)
    ensures Base(e) == Pow(256, 4 * e)
  {
    if e > 0 {
      BaseBytes(e - 1);
      var p := Pow(256, 4 * (e - 1));
      PowAdd(256, 4, 4 * (e - 1));
      assert Pow(256, 4) == 0x1_0000_0000 by {
        assert Pow(256, 1) == 256 && Pow(256, 2) == 256 * Pow(256, 1) && Pow(256, 3) == 256 * Pow(256, 2);
      }
    }
  }

  lemma ResidueValue(key: RsaKey, signature: seq<Byte>)
    requires MontgomeryKey(key) && |signature| == 4 * key.len
    ensures 0 < Modulus(key) && BeVal(Residue(key, signature)) == BeVal(signature) % Modulus(key) < Modulus(key)
  {
    hide BeVal, I2osp, Val, Pow, Base;
    ModulusPositive(key);
    DivMod(BeVal(signature), Modulus(key));
    ValBound(key.n);
    BaseBytes(key.len);
    BytesOfI2osp(BeVal(signature) % Modulus(key), |signature|);
  }

  /**
   * What the code opens is the encoded message of section 8.2.2 if the signature is below the modulus. If it is
   * not, that section finds it invalid, and the code opens what it would open for the residue.
   */
  lemma OpenedIsRfc(key: RsaKey, signature: seq<Byte>)
    requires MontgomeryKey(key) && key.exponent >= 0 && |signature| == 4 * key.len
    ensures RfcMessage(key, signature) == if BeVal(signature) < Modulus(key) then Some(Opened(key, signature)) else None
    ensures RfcMessage(key, Residue(key, signature)) == Some(Opened(key, signature))
  {
    hide BeVal, I2osp, Pow, Val, PublicPower, Opened;
    OpenedIsPower(key, signature);
    var r := Residue(key, signature);
    ResidueValue(key, signature);
    OpenedIsPower(key, r);
    CongResidue(BeVal(signature), Modulus(key));
    SameOpened(key, r, signature);
  }

  /** The comparison with the encoded hash is that of section 8.2.2, but for the range. */
  lemma AcceptedIsRfc(key: RsaKey, signature: seq<Byte>, sha: seq<Byte>)
    requires MontgomeryKey(key) && key.exponent >= 0 && key.len == 64 && |sha| == 20
    ensures |signature| != 256 ==> !RfcAccepts(key, signature, sha)
    ensures |signature| == 256 ==>
              && (RfcAccepts(key, signature, sha)
                  <==> BeVal(signature) < Modulus(key) && Opened(key, signature) == Encoded(sha))
              && (RfcAccepts(key, Residue(key, signature), sha) <==> Opened(key, signature) == Encoded(sha))
  {
    hide BeVal, Val, Opened, Emsa, Encoded, Residue;
    if |signature| == 256 {
      hide RfcMessage;
      OpenedIsRfc(key, signature);
      EncodedIsEmsa(sha);
    }
  }

  /** The key struct: 64-word arrays, and precomputed values that fit when len says 64. */
  ghost predicate PublicKey(key: RsaKey) {
    && |key.n| == |key.rr| == 64
    && (key.len == 64 ==> KeyRelation(key) && FullLength(key))
  }

  /** The checks before any arithmetic: key length, signature length and exponent. */
  predicate Admissible(key: RsaKey, signature: seq<Byte>, exponent: int) {
    key.len == 64 && |signature| == 256 && key.exponent == exponent
  }

  /**
   * RSA_e_3_verify. Below the modulus it accepts exactly as section 8.2.2 of RFC 8017 does. It does not test the
   * range, so that it accepts any other signature exactly if its residue modulo n is accepted there.
   */
  method RsaE3Verify(key: RsaKey, signature: seq<Byte>, sha: seq<Byte>) returns (ok: bool)
    requires PublicKey(key) && |sha| == 20
    ensures ok <==> Admissible(key, signature, 3) && Opened(key, signature) == Encoded(sha)
    ensures ok <==> Admissible(key, signature, 3) && IsEncoding(Opened(key, signature), sha)
    ensures key.len == 64 && key.exponent == 3 ==>
              (ok && BeVal(signature) < Modulus(key) <==> RfcAccepts(key, signature, sha))
    ensures Admissible(key, signature, 3) ==> (ok <==> RfcAccepts(key, Residue(key, signature), sha))
  {
    hide BeVal, I2osp, PublicPower, Modulus, Radix, Padding, MontgomeryKey, RfcAccepts, Residue, IsEncoding;
    if key.len != 64 { return false; }
    if key.exponent >= 0 { AcceptedIsRfc(key, signature, sha); }
    if |signature| != 256 { return false; }
    if key.exponent != 3 { return false; }
    var buf := new Byte[256](i requires 0 <= i < 256 => signature[i]);
    assert buf[..] == signature;
    OneSubtractionSuffices(key);
    ModPow3(key, buf);
    I2ospOfBytes(buf[..]);
    var em := buf[..];
    assert em == Opened(key, signature);
    EncodedIsEncoding(em, sha);
    var padding := Padding();
    var i := 0;
    while i < 236
      invariant 0 <= i <= 236 && em[..i] == padding[..i]
    {
      if em[i] != padding[i] { assert Encoded(sha)[i] == padding[i]; return false; }
      i := i + 1;
    }
    while i < 256
      invariant 236 <= i <= 256 && em[..236] == padding && em[236..i] == sha[..i - 236]
    {
      if em[i] != sha[i - 236] { assert Encoded(sha)[i] == sha[i - 236]; return false; }
      i := i + 1;
    }
    assert em == em[..236] + em[236..256];
    return true;
  }

  /** Bitwise exclusive or of the low k bits. */
  function Xor(x: nat, y: nat, k: nat): nat {
    if k == 0 then 0 else (x + y) % 2 + 2 * Xor(x / 2, y / 2, k - 1)
  }

  lemma {:induction false} XorRange(x: nat, y: nat, k: nat)
    ensures 0 <= Xor(x, y, k) < Two(k)
  {
    if k > 0 { XorRange(x / 2, y / 2, k - 1); }
  }

  lemma {:induction false} XorZero(x: nat, y: nat, k: nat)
    requires x < Two(k) && y < Two(k)
    ensures Xor(x, y, k) == 0 <==> x == y
  {
    if k > 0 { XorZero(x / 2, y / 2, k - 1); }
  }

  lemma HalvesOfBit(x: nat, i: nat)
    requires i > 0
    ensures Two(i) > 0 && Two(i - 1) > 0 && x / Two(i) == x / 2 / Two(i - 1)
  {
    TwoPositive(i);
    TwoPositive(i - 1);
    DivHalf(x, Two(i - 1));
  }

  /** Bit i of x. */
  predicate Bit(x: nat, i: nat) {
    TwoPositive(i);
    x / Two(i) % 2 == 1
  }

  lemma BitHalf(x: nat, i: nat)
    ensures Bit(x, 0) == (x % 2 == 1)
    ensures i > 0 ==> Bit(x, i) == Bit(x / 2, i - 1)
  {
    if i > 0 { HalvesOfBit(x, i); }
  }

  lemma XorHalf(x: nat, y: nat, k: nat)
    requires k > 0
    ensures Xor(x, y, k) % 2 == (x + y) % 2 && Xor(x, y, k) / 2 == Xor(x / 2, y / 2, k - 1)
  {}

  /** Bit i of the exclusive or is set where exactly one of the two is. */
  lemma {:induction false} XorBit(x: nat, y: nat, k: nat, i: nat)
    requires i < k
    ensures Bit(Xor(x, y, k), i) <==> Bit(x, i) != Bit(y, i)
  {
    hide Bit, Xor;
    XorHalf(x, y, k);
    BitHalf(x, i);
    BitHalf(y, i);
    BitHalf(Xor(x, y, k), i);
    if i > 0 { XorBit(x / 2, y / 2, k - 1, i - 1); }
  }

  function XorByte(x: Byte, y: Byte): Byte {
    XorRange(x, y, 8);
    assert Two(8) == 256;
    Xor(x, y, 8)
  }

  lemma XorByteZero(x: Byte, y: Byte)
    ensures XorByte(x, y) == 0 <==> x == y
  {
    hide Xor;
    assert Two(8) == 256;
    XorZero(x, y, 8);
  }

  const EXPECTED_PAD_SHA: seq<Byte> := [
    0xdc, 0xbd, 0xbe, 0x42, 0xd5, 0xf5, 0xa7, 0x2e, 0x6e, 0xfc,
    0xf5, 0x5d, 0xaf, 0x9d, 0xea, 0x68, 0x7c, 0xfb, 0xf1, 0x67
  ]

  /** The representative with the hash xored onto its last twenty bytes. */
  function Masked(em: seq<Byte>, sha: seq<Byte>): (r: seq<Byte>)
    requires |em| == 256 && |sha| == 20
    ensures |r| == 256
  {
    em[..236] + seq(20, i requires 0 <= i < 20 => XorByte(em[236 + i], sha[i]))
  }

  /** The test of RSA_e_f4_verify: the masked representative hashes to the constant. */
  predicate HashTest(em: seq<Byte>, sha: seq<Byte>)
    requires |em| == 256 && |sha| == 20
  {
    Sha1.Sha1(Masked(em, sha)) == EXPECTED_PAD_SHA
  }

  /**
   * RSA_e_f4_verify. Below the modulus it accepts exactly if section 8.2.2 of RFC 8017 gets to an encoded message and
   * that passes the hash test; any other signature exactly if its residue modulo n does.
   */
  method RsaEF4Verify(key: RsaKey, signature: seq<Byte>, sha: seq<Byte>, unrolled: bool) returns (ok: bool)
    requires PublicKey(key) && |sha| == 20
    ensures ok <==> Admissible(key, signature, 65537) && HashTest(Opened(key, signature), sha)
    ensures key.len == 64 && key.exponent == 65537 ==>
              (ok && BeVal(signature) < Modulus(key)
               <==> RfcMessage(key, signature).Some? && HashTest(RfcMessage(key, signature).value, sha))
    ensures Admissible(key, signature, 65537) ==>
              var r := Residue(key, signature);
              RfcMessage(key, r).Some? && (ok <==> HashTest(RfcMessage(key, r).value, sha))
  {
    hide BeVal, I2osp, PublicPower, Modulus, Radix, MontgomeryKey, XorByte, Sha1.Sha1, RfcMessage, Residue;
    if key.len != 64 { return false; }
    if |signature| == 256 && key.exponent >= 0 { OpenedIsRfc(key, signature); }
    if |signature| != 256 { return false; }
    if key.exponent != 65537 { return false; }
    var buf := new Byte[256](i requires 0 <= i < 256 => signature[i]);
    assert buf[..] == signature;
    OneSubtractionSuffices(key);
    ModPowF4(key, buf);
    I2ospOfBytes(buf[..]);
    ghost var em := buf[..];
    assert em == Opened(key, signature);
    var i := 236;
    while i < 256
      invariant 236 <= i <= 256
      invariant forall j :: 0 <= j < 256 ==>
        buf[j] == if 236 <= j < i then XorByte(em[j], sha[j - 236]) else em[j]
    {
      buf[i] := XorByte(buf[i], sha[i - 236]);
      i := i + 1;
    }
    assert buf[..] == Masked(em, sha);
    var digest := Sha1.Digest(unrolled, buf[..]);
    return digest == EXPECTED_PAD_SHA;
  }

  lemma MaskedPadding(em: seq<Byte>, sha: seq<Byte>)
    requires |em| == 256 && |sha| == 20
    ensures Masked(em, sha) == Padding() + Sha1.Zeros(20) <==> em == Encoded(sha)
  {
    hide XorByte, Padding;
    var m, z := Masked(em, sha), Padding() + Sha1.Zeros(20);
    if m == z {
      assert em[..236] == m[..236] == z[..236] == Padding();
      forall i | 0 <= i < 20 ensures em[236 + i] == sha[i] {
        assert m[236 + i] == z[236 + i] == 0;
        XorByteZero(em[236 + i], sha[i]);
      }
      assert em[236..] == sha;
      assert em == em[..236] + em[236..];
    }
    if em == Encoded(sha) {
      forall i | 0 <= i < 20 ensures m[236..][i] == 0 {
        XorByteZero(em[236 + i], sha[i]);
      }
      assert m[236..] == Sha1.Zeros(20);
      assert m == m[..236] + m[236..];
    }
  }

  /** The constant is the hash of the padding over twenty zero bytes. */
  lemma ExpectedPadSha()
    ensures Sha1.Sha1(Padding() + Sha1.Zeros(20)) == EXPECTED_PAD_SHA
  {
    hide Sha1.Sha1;
    var m := Padding() + Sha1.Zeros(20);
    assert m[221..236] == SHA1_PREFIX;
    Sha1Known.PaddingDigest(m);
  }

  /**
   * Hashing the masked representative is the padding comparison in disguise: every correctly encoded
   * representative is accepted, and one accepted without being so is a second preimage of the constant.
   */
  lemma HashComparesPadding(em: seq<Byte>, sha: seq<Byte>)
    requires |em| == 256 && |sha| == 20
    ensures em == Encoded(sha) ==> HashTest(em, sha)
    ensures HashTest(em, sha) && em != Encoded(sha)
            ==> Masked(em, sha) != Padding() + Sha1.Zeros(20)
                && Sha1.Sha1(Masked(em, sha)) == Sha1.Sha1(Padding() + Sha1.Zeros(20))
  {
    hide Sha1.Sha1;
    ExpectedPadSha();
    MaskedPadding(em, sha);
  }

  /**
   * RSA_e_f4_verify against section 8.2.2: the message of every signature accepted there passes the hash test, and
   * any other message that passes gives a second preimage.
   */
  lemma HashTestIsRfc(key: RsaKey, signature: seq<Byte>, sha: seq<Byte>)
    requires MontgomeryKey(key) && key.exponent >= 0 && key.len == 64 && |sha| == 20
    requires RfcMessage(key, signature).Some?
    ensures var em := RfcMessage(key, signature).value;
            && (RfcAccepts(key, signature, sha) ==> HashTest(em, sha))
            && (HashTest(em, sha) && !RfcAccepts(key, signature, sha) ==>
                  && Masked(em, sha) != Padding() + Sha1.Zeros(20)
                  && Sha1.Sha1(Masked(em, sha)) == Sha1.Sha1(Padding() + Sha1.Zeros(20)))
  {
    hide RfcMessage, Emsa, Encoded, HashTest, Masked, Padding, Sha1.Sha1;
    EncodedIsEmsa(sha);
    HashComparesPadding(RfcMessage(key, signature).value, sha);
  }
}
