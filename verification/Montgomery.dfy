/**
 * Word-level Montgomery arithmetic of libmincrypt: in-place subtraction of the modulus,
 * comparison with it, one Montgomery step and the full Montgomery product.
 * The modulus may have any number of words.
 */
module Montgomery {
  import opened Arith

  datatype RsaKey = RsaKey(len: int, n0inv: Word, n: seq<Word>, rr: seq<Word>, exponent: int)

  /** The word strings of the key have len words. */
  predicate Sized(key: RsaKey) {
    1 <= key.len == |key.n| == |key.rr|
  }

  /** n0inv is -1/n modulo 2^32. */
  predicate MontgomeryKey(key: RsaKey) {
    && Sized(key)
    && (key.n0inv * key.n[0] + 1) % 0x1_0000_0000 == 0
  }

  function Modulus(key: RsaKey): nat { Val(key.n) }

  /** The Montgomery radix 2^(32 * len). */
  function Radix(key: RsaKey): nat
    requires Sized(key)
  {
    BasePositive(key.len);
    Base(key.len)
  }

  // Conversions to the C types uint64_t, int64_t and uint32_t, and the right shift by 32.
  function U64(x: int): int { x % 0x1_0000_0000_0000_0000 }
  function S64(x: int): int {
    if U64(x) < 0x8000_0000_0000_0000 then U64(x) else U64(x) - 0x1_0000_0000_0000_0000
  }
  function U32(x: int): Word { x % 0x1_0000_0000 }
  function Shr32(x: int): int { x / 0x1_0000_0000 }

  /** The words done and the borrow hold the difference of the words read. */
  ghost predicate SubInv(done: seq<Word>, a0: seq<Word>, n: seq<Word>, borrow: int)
    requires |done| <= |a0| == |n|
  {
    var i := |done|;
    Val(done) - (if borrow < 0 then Base(i) else 0) == Val(a0[..i]) - Val(n[..i])
  }

  lemma SubStart(a0: seq<Word>, n: seq<Word>)
    requires |a0| == |n|
    ensures SubInv([], a0, n, 0)
  {}

  /** The signed accumulator holds the exact word difference, and its borrow is 0 or -1. */
  lemma BorrowFits(borrow: int, x: Word, y: Word)
    requires -1 <= borrow <= 0
    ensures S64(borrow + U64(x as int - y as int)) == borrow + x - y
    ensures -1 <= Shr32(borrow + x - y) <= 0
  {}

  lemma SubAlgebra(carry: int, x: int, y: int, hi: int, lo: int, w: int, p: int)
    requires carry + x - y == hi * w + lo
    ensures lo * p + hi * (w * p) == carry * p + x * p - y * p
  {
    assert (carry + x - y) * p == carry * p + x * p - y * p;
    assert (hi * w + lo) * p == hi * w * p + lo * p;
    Assoc(hi, w, p);
  }

  lemma SubStep(done: seq<Word>, a0: seq<Word>, n: seq<Word>, borrow: int)
    requires |done| < |a0| == |n| && -1 <= borrow <= 0
    requires SubInv(done, a0, n, borrow)
    ensures var A := S64(borrow + U64(a0[|done|] as int - n[|done|] as int));
            -1 <= Shr32(A) <= 0 && SubInv(done + [U32(A)], a0, n, Shr32(A))
  {
    hide Val;
    var i := |done|;
    BorrowFits(borrow, a0[i], n[i]);
    var A: int := borrow + a0[i] - n[i];
    ValSnoc(done, U32(A));
    ValPrefix(a0, i);
    ValPrefix(n, i);
    if borrow == 0 {
      if a0[i] < n[i] { SubAlgebra(0, a0[i], n[i], -1, U32(A), 0x1_0000_0000, Base(i)); }
      else { SubAlgebra(0, a0[i], n[i], 0, U32(A), 0x1_0000_0000, Base(i)); }
    } else {
      if a0[i] <= n[i] { SubAlgebra(-1, a0[i], n[i], -1, U32(A), 0x1_0000_0000, Base(i)); }
      else { SubAlgebra(-1, a0[i], n[i], 0, U32(A), 0x1_0000_0000, Base(i)); }
    }
  }

  lemma SubDone(key: RsaKey, a: seq<Word>, a0: seq<Word>, borrow: int)
    requires Sized(key) && |a| == |a0| == key.len && -1 <= borrow <= 0
    requires SubInv(a, a0, key.n, borrow)
    ensures Val(a) == Val(a0) - Modulus(key) + (if Val(a0) < Modulus(key) then Radix(key) else 0)
  {
    assert a0[..key.len] == a0 && key.n[..key.len] == key.n;
    ValBound(a);
    ValBound(a0);
    ValBound(key.n);
  }

  /** a[] -= mod; the final borrow is discarded. */
  method SubM(key: RsaKey, a: array<Word>)
    requires Sized(key) && a.Length == key.len
    modifies a
    ensures Val(a[..]) == Val(old(a[..])) - Modulus(key) + (if Val(old(a[..])) < Modulus(key) then Radix(key) else 0)
  {
    hide SubInv, U64, S64, U32, Shr32, Val;
    ghost var a0 := a[..];
    SubStart(a0, key.n);
    var A := 0;
    var i := 0;
    while i < key.len
      invariant 0 <= i <= key.len
      invariant -1 <= A <= 0
      invariant a[i..] == a0[i..]
      invariant SubInv(a[..i], a0, key.n, A)
    {
      ghost var done := a[..i];
      assert a[i] == a0[i];
      SubStep(done, a0, key.n, A);
      A := S64(A + U64(a[i] as int - key.n[i] as int));
      a[i] := U32(A);
      assert a[..i + 1] == done + [a[i]];
      A := Shr32(A);
      i := i + 1;
    }
    assert a[..i] == a[..];
    SubDone(key, a[..], a0, A);
  }

  /** The most significant differing word decides the order. */
  lemma {:induction false} LessAt(s: seq<Word>, t: seq<Word>, i: nat)
    requires i < |s| == |t| && s[i] < t[i] && s[i + 1..] == t[i + 1..]
    ensures Val(s) < Val(t)
    decreases |s|
  {
    var k := |s| - 1;
    if i == k {
      ValBound(s[..k]);
      ValBound(t[..k]);
      TopDecides(Val(s[..k]), s[k], Val(t[..k]), t[k], Base(k));
    } else {
      assert s[k] == s[i + 1..][k - i - 1] == t[i + 1..][k - i - 1] == t[k];
      assert s[..k][i + 1..] == s[i + 1..][..k - i - 1] == t[i + 1..][..k - i - 1] == t[..k][i + 1..];
      LessAt(s[..k], t[..k], i);
    }
  }

  /** a[] >= mod */
  method GeM(key: RsaKey, a: array<Word>) returns (ge: bool)
    requires Sized(key) && a.Length == key.len
    ensures ge == (Val(a[..]) >= Modulus(key))
  {
    var i := key.len;
    while i != 0
      invariant 0 <= i <= key.len
      invariant a[i..] == key.n[i..]
    {
      i := i - 1;
      if a[i] < key.n[i] { LessAt(a[..], key.n, i); return false; }
      if a[i] > key.n[i] { LessAt(key.n, a[..], i); return true; }
      assert a[i..] == [a[i]] + a[i + 1..];
      assert key.n[i..] == [key.n[i]] + key.n[i + 1..];
    }
    assert a[..] == a[0..] && key.n == key.n[0..];
    return true;
  }

  /** What one Montgomery step leaves: a number below the radix with c' * 2^32 = c + a*b modulo n. */
  ghost predicate StepDone(key: RsaKey, c': int, c: int, a: int, b: int)
    requires Sized(key)
  {
    && 0 <= c' < Radix(key)
    && 0 < Modulus(key)
    && Cong(c' * 0x1_0000_0000, c + a * b, Modulus(key))
  }

  /** After i words: the sum so far is 2^32 times the words done plus the carries. */
  ghost predicate StepInv(done: seq<Word>, c0: seq<Word>, b: seq<Word>, n: seq<Word>, a: Word, d: Word, A: int,
                          B: int, i: nat)
    requires 1 <= i <= |c0| == |b| == |n|
  {
    && |done| == i - 1
    && 0 <= Shr32(A) <= 0xFFFF_FFFF && 0 <= Shr32(B) <= 0xFFFF_FFFF
    && Val(c0[..i]) + a * Val(b[..i]) + d * Val(n[..i])
       == 0x1_0000_0000 * Val(done) + (Shr32(A) + Shr32(B)) * Base(i)
  }

  /** A word product plus two words never exceeds 64 bits. */
  lemma Fits(hi: int, x: Word, y: Word, z: Word)
    requires 0 <= hi <= 0xFFFF_FFFF
    ensures 0 <= hi + x * y + z < 0x1_0000_0000_0000_0000
    ensures U64(hi + x * y + z) == hi + x * y + z
  {
    MulMono(0, x, y);
    MulMono(x, 0xFFFF_FFFF, y);
  }

  lemma ClearAlgebra(low: int, inv: int, n0: int, d: int, q: int, k: int, w: int)
    requires low * inv == q * w + d && inv * n0 + 1 == k * w
    ensures d * n0 + low == (low * k - q * n0) * w
  {
    assert d * n0 == (low * inv - q * w) * n0 == low * inv * n0 - q * w * n0;
    assert low * inv * n0 == low * (k * w - 1) by { Assoc(low, inv, n0); }
    Assoc(q, w, n0);
    Assoc(q, n0, w);
    Assoc(low, k, w);
  }

  /** The chosen multiplier clears the lowest word. */
  lemma FirstWord(n0: int, inv: int, low: int)
    requires (inv * n0 + 1) % 0x1_0000_0000 == 0
    ensures (U32(low * inv) * n0 + low) % 0x1_0000_0000 == 0
  {
    var q: int := (low * inv) / 0x1_0000_0000;
    var k: int := (inv * n0 + 1) / 0x1_0000_0000;
    ClearAlgebra(low, inv, n0, U32(low * inv), q, k, 0x1_0000_0000);
  }

  lemma FirstStep(key: RsaKey, c0: seq<Word>, b: seq<Word>, a: Word)
    requires MontgomeryKey(key) && |c0| == |b| == key.len
    ensures var A := U64(a * b[0] + c0[0]);
            var d := U32(U32(A) * key.n0inv);
            var B := U64(d * key.n[0] + U32(A));
            StepInv([], c0, b, key.n, a, d, A, B, 1)
  {
    Fits(0, a, b[0], c0[0]);
    var A := a * b[0] + c0[0];
    var d := U32(U32(A) * key.n0inv);
    Fits(0, d, key.n[0], U32(A));
    FirstWord(key.n[0], key.n0inv, U32(A));
    ValPrefix(c0, 0);
    ValPrefix(b, 0);
    ValPrefix(key.n, 0);
    assert Base(0) == 1 && Base(1) == 0x1_0000_0000;
    assert Val(b[..1]) == b[0] && Val(key.n[..1]) == key.n[0] && Val(c0[..1]) == c0[0];
  }

  lemma Swap(x: int, y: int, z: int)
    ensures x * (y * z) == y * (x * z)
  {}

  lemma NextAlgebra(carry: int, c: int, a: int, b: int, d: int, n: int, hi: int, lo: int,
                    vb: int, vn: int, vd: int, w: int, q: int)
    requires carry + c + a * b + d * n == hi * w + lo
    ensures c * (w * q) + a * (vb + b * (w * q)) + d * (vn + n * (w * q)) + carry * (w * q)
            == a * vb + d * vn + w * (vd + lo * q) - w * vd + hi * (w * (w * q))
  {
    var p := w * q;
    assert (carry + c + a * b + d * n) * p == carry * p + c * p + a * b * p + d * n * p;
    assert (hi * w + lo) * p == hi * w * p + lo * p;
    Assoc(a, b, p);
    Assoc(d, n, p);
    Assoc(hi, w, p);
    Swap(lo, w, q);
  }

  lemma NextStep(done: seq<Word>, c0: seq<Word>, b: seq<Word>, n: seq<Word>, a: Word, d: Word, A0: int, B0: int, i: nat)
    requires 1 <= i < |c0| == |b| == |n|
    requires StepInv(done, c0, b, n, a, d, A0, B0, i)
    ensures var A := U64(Shr32(A0) + a * b[i] + c0[i]);
            var B := U64(Shr32(B0) + d * n[i] + U32(A));
            StepInv(done + [U32(B)], c0, b, n, a, d, A, B, i + 1)
  {
    Fits(Shr32(A0), a, b[i], c0[i]);
    var A := Shr32(A0) + a * b[i] + c0[i];
    Fits(Shr32(B0), d, n[i], U32(A));
    var B := Shr32(B0) + d * n[i] + U32(A);
    ValPrefix(c0, i);
    ValPrefix(b, i);
    ValPrefix(n, i);
    ValSnoc(done, U32(B));
    NextAlgebra(Shr32(A0) + Shr32(B0), c0[i], a, b[i], d, n[i], Shr32(A) + Shr32(B), U32(B),
                Val(b[..i]), Val(n[..i]), Val(done), 0x1_0000_0000, Base(i - 1));
  }

  lemma LastCarry(done: seq<Word>, c0: seq<Word>, b: seq<Word>, n: seq<Word>, a: Word, d: Word, A: int, B: int, i: nat)
    requires 1 <= i <= |c0| == |b| == |n|
    requires StepInv(done, c0, b, n, a, d, A, B, i)
    ensures var s := Shr32(A) + Shr32(B);
            |done| + 1 == i && U64(s) == s && 0 <= Shr32(s) <= 1
  {
    hide Val, Base;
  }

  lemma LastAlgebra(s: int, hi: int, lo: int, vd: int, w: int, q: int)
    requires s == hi * w + lo
    ensures w * vd + s * (w * q) == w * (vd + lo * q + hi * (w * q))
  {
    assert (hi * w + lo) * q == hi * w * q + lo * q;
    Assoc(hi, w, q);
    Swap(s, w, q);
  }

  lemma LastValue(key: RsaKey, done: seq<Word>, c0: seq<Word>, b: seq<Word>, a: Word, d: Word, A: int, B: int)
    requires MontgomeryKey(key) && |c0| == |b| == key.len
    requires StepInv(done, c0, b, key.n, a, d, A, B, key.len)
    ensures var s := Shr32(A) + Shr32(B);
            Val(c0) + a * Val(b) + d * Modulus(key)
            == 0x1_0000_0000 * (Val(done + [U32(s)]) + (if Shr32(s) == 1 then Radix(key) else 0))
  {
    hide Val;
    var s := Shr32(A) + Shr32(B);
    var i := key.len;
    assert c0[..i] == c0 && b[..i] == b && key.n[..i] == key.n;
    ValSnoc(done, U32(s));
    if s < 0x1_0000_0000 {
      LastAlgebra(s, 0, s, Val(done), 0x1_0000_0000, Base(i - 1));
    } else {
      LastAlgebra(s, 1, s - 0x1_0000_0000, Val(done), 0x1_0000_0000, Base(i - 1));
    }
  }

  lemma Multiple(x: int, d: int, n: int, w: int, t: int, k: int)
    requires x + d * n == w * t
    ensures (t - k * n) * w - x == (d - k * w) * n
  {
    Assoc(k, n, w);
    Assoc(k, w, n);
  }

  /** The quotient, with or without the modulus subtracted, keeps the congruence. */
  lemma StepCong(x: int, d: int, n: int, t: int, v: int)
    requires n > 0 && x + d * n == 0x1_0000_0000 * t && (v == t || v == t - n)
    ensures Cong(v * 0x1_0000_0000, x, n)
  {
    var k: int := if v == t then 0 else 1;
    Multiple(x, d, n, 0x1_0000_0000, t, k);
    CongIntro(v * 0x1_0000_0000, x, n, d - k * 0x1_0000_0000);
  }

  /** c + a*b + d*n < 2^32 * (R + n), so the quotient exceeds the radix by less than n. */
  lemma StepRange(c: int, a: int, b: int, d: int, n: int, R: int, w: int, t: int)
    requires 0 <= c < R && 0 <= b < R && 0 <= a < w && 0 <= d < w && n > 0
    requires c + a * b + d * n == w * t
    ensures t < R + n
  {
    MulMono(a, w - 1, b);
    MulMono(b, R, w - 1);
    MulMono(d, w - 1, n);
    if t >= R + n { MulMono(R + n, t, w); }
  }

  lemma {:induction false} ValZero(k: nat)
    ensures Val(seq(k, _ => 0)) == 0
  {
    if k > 0 {
      var z: seq<Word> := seq(k, _ => 0);
      var y: seq<Word> := seq(k - 1, _ => 0);
      assert z[..k - 1] == y;
      ValZero(k - 1);
    }
  }

  lemma ModulusPositive(key: RsaKey)
    requires MontgomeryKey(key)
    ensures Modulus(key) > 0
  {
    if Modulus(key) == 0 {
      var zeros: seq<Word> := seq(key.len, _ => 0);
      ValZero(key.len);
      ValInjective(key.n, zeros);
    }
  }

  lemma AtCarry(key: RsaKey, v: int, carry: int, c: int, a: Word, b: int, d: Word)
    requires MontgomeryKey(key) && 0 <= carry <= 1
    requires 0 <= v < Radix(key) && 0 <= c < Radix(key) && 0 <= b < Radix(key)
    requires c + a * b + d * Modulus(key) == 0x1_0000_0000 * (v + (if carry == 1 then Radix(key) else 0))
    ensures carry == 0 ==> StepDone(key, v, c, a, b)
    ensures carry == 1 ==> v < Modulus(key) && StepDone(key, v - Modulus(key) + Radix(key), c, a, b)
  {
    hide Val, Base, Cong;
    ModulusPositive(key);
    ValBound(key.n);
    if carry == 0 {
      StepCong(c + a * b, d, Modulus(key), v, v);
    } else {
      StepRange(c, a, b, d, Modulus(key), Radix(key), 0x1_0000_0000, v + Radix(key));
      StepCong(c + a * b, d, Modulus(key), v + Radix(key), v - Modulus(key) + Radix(key));
    }
  }

  /**
   * The last carry is 0 or 1; with it 0 the words are done, with it 1 the words less the
   * modulus, the borrow discarded, are.
   */
  lemma LastStep(key: RsaKey, done: seq<Word>, c0: seq<Word>, b: seq<Word>, a: Word, d: Word, A: int, B: int)
    requires MontgomeryKey(key) && |c0| == |b| == key.len
    requires StepInv(done, c0, b, key.n, a, d, A, B, key.len)
    ensures var s := U64(Shr32(A) + Shr32(B));
            var c1 := done + [U32(s)];
            && 0 <= Shr32(s) <= 1
            && (Shr32(s) == 0 ==> StepDone(key, Val(c1), Val(c0), a, Val(b)))
            && (Shr32(s) == 1 ==> Val(c1) < Modulus(key)
                                  && StepDone(key, Val(c1) - Modulus(key) + Radix(key), Val(c0), a, Val(b)))
  {
    hide Val, Cong, U64, U32, Shr32, StepInv, StepDone;
    var s := Shr32(A) + Shr32(B);
    var c1 := done + [U32(s)];
    LastCarry(done, c0, b, key.n, a, d, A, B, key.len);
    LastValue(key, done, c0, b, a, d, A, B);
    ValBound(c0);
    ValBound(b);
    ValBound(c1);
    AtCarry(key, Val(c1), Shr32(s), Val(c0), a, Val(b), d);
  }

  /**
   * c[] := (c[] + a * b[]) / 2^32 mod n, kept below the radix but not below n.
   */
  method MontMulAdd(key: RsaKey, c: array<Word>, a: Word, b: array<Word>)
    requires MontgomeryKey(key) && c.Length == b.Length == key.len && c != b
    modifies c
    ensures StepDone(key, Val(c[..]), Val(old(c[..])), a, Val(b[..]))
  {
    hide StepInv, StepDone, U64, U32, Shr32, Val;
    ghost var c0, bs := c[..], b[..];
    FirstStep(key, c0, bs, a);
    var A := U64(a * b[0] + c[0]);
    var d0 := U32(U32(A) * key.n0inv);
    var B := U64(d0 * key.n[0] + U32(A));
    var i := 1;
    while i < key.len
      invariant 1 <= i <= key.len
      invariant c[i..] == c0[i..] && b[..] == bs
      invariant StepInv(c[..i - 1], c0, bs, key.n, a, d0, A, B, i)
    {
      ghost var done := c[..i - 1];
      assert c[i] == c0[i];
      NextStep(done, c0, bs, key.n, a, d0, A, B, i);
      A := U64(Shr32(A) + a * b[i] + c[i]);
      B := U64(Shr32(B) + d0 * key.n[i] + U32(A));
      c[i - 1] := U32(B);
      assert c[..i] == done + [U32(B)];
      i := i + 1;
    }
    ghost var done := c[..i - 1];
    LastStep(key, done, c0, bs, a, d0, A, B);
    A := U64(Shr32(A) + Shr32(B));
    c[i - 1] := U32(A);
    assert c[..] == done + [U32(A)];
    if Shr32(A) != 0 {
      SubM(key, c);
    }
  }

  lemma ProductAlgebra(x: int, y: int, ai: int, b: int, va: int, w: int, p: int, n: int)
    requires n > 0 && Cong(x * p, va * b, n) && Cong(y * w, x + ai * b, n)
    ensures Cong(y * (w * p), (va + ai * p) * b, n)
  {
    CongScale(y * w, x + ai * b, p, n);
    CongAdd(x * p, va * b, ai * b * p, ai * b * p, n);
    assert y * w * p == y * (w * p) by { Assoc(y, w, p); }
    assert (x + ai * b) * p == x * p + ai * b * p;
    assert (va + ai * p) * b == va * b + ai * b * p by { Assoc(ai, p, b); Assoc(ai, b, p); }
  }

  lemma ProductStep(a: seq<Word>, b: int, i: nat, x: int, y: int, n: int)
    requires n > 0 && i < |a|
    requires Cong(x * Base(i), Val(a[..i]) * b, n)
    requires Cong(y * 0x1_0000_0000, x + a[i] * b, n)
    ensures Cong(y * Base(i + 1), Val(a[..i + 1]) * b, n)
  {
    ValPrefix(a, i);
    ProductAlgebra(x, y, a[i], b, Val(a[..i]), 0x1_0000_0000, Base(i), n);
  }

  /** c[] := a[] * b[] / R mod n, below the radix. */
  method MontMul(key: RsaKey, c: array<Word>, a: array<Word>, b: array<Word>)
    requires MontgomeryKey(key)
    requires a.Length == b.Length == c.Length == key.len && c != a && c != b
    modifies c
    ensures 0 < Modulus(key)
    ensures Cong(Val(c[..]) * Radix(key), Val(a[..]) * Val(b[..]), Modulus(key))
  {
    ghost var as_, bs := a[..], b[..];
    ModulusPositive(key);
    var i := 0;
    while i < key.len
      invariant 0 <= i <= key.len
      invariant forall j :: 0 <= j < i ==> c[j] == 0
    {
      c[i] := 0;
      i := i + 1;
    }
    assert c[..] == seq(key.len, _ => 0);
    ValZero(key.len);
    i := 0;
    assert Cong(Val(c[..]) * Base(0), Val(as_[..0]) * Val(bs), Modulus(key));
    while i < key.len
      invariant 0 <= i <= key.len
      invariant a[..] == as_ && b[..] == bs
      invariant Cong(Val(c[..]) * Base(i), Val(as_[..i]) * Val(bs), Modulus(key))
    {
      ghost var x := Val(c[..]);
      MontMulAdd(key, c, a[i], b);
      ProductStep(as_, Val(bs), i, x, Val(c[..]), Modulus(key));
      i := i + 1;
    }
    assert as_[..i] == as_;
  }
}
