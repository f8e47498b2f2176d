/** Machine word types, powers, congruences, and the values of word and byte strings. */
module Arith {

  type Byte = x: int | 0 <= x < 256
  type Word = x: int | 0 <= x < 0x1_0000_0000

  function Pow(b: int, e: nat): int {
    if e == 0 then 1 else b * Pow(b, e - 1)
  }

  lemma {:induction false} PowPositive(b: int, e: nat)
    requires b > 0
    ensures Pow(b, e) > 0
  {
    if e > 0 { PowPositive(b, e - 1); }
  }

  lemma Assoc(x: int, y: int, z: int)
    ensures x * y * z == x * (y * z)
  {}

  lemma {:induction false} PowAdd(b: int, d: nat, e: nat)
    ensures Pow(b, d + e) == Pow(b, d) * Pow(b, e)
  {
    if d > 0 { PowAdd(b, d - 1, e); Assoc(b, Pow(b, d - 1), Pow(b, e)); }
  }

  // ---- congruence -------------------------------------------------------

  /** x and y leave the same remainder modulo n. */
  predicate Cong(x: int, y: int, n: int)
    requires n > 0
  {
    x % n == y % n
  }

  lemma DivMod(x: int, n: int)
    requires n > 0
    ensures x == (x / n) * n + x % n && 0 <= x % n < n
  {}

  lemma MulMono(x: int, y: int, n: int)
    requires n >= 0 && x <= y
    ensures x * n <= y * n
  {}

  lemma CongIntro(x: int, y: int, n: int, k: int)
    requires n > 0 && x - y == k * n
    ensures Cong(x, y, n)
  {
    var d := x / n - y / n - k;
    DivMod(x, n);
    DivMod(y, n);
    assert d * n == (x / n) * n - (y / n) * n - k * n;
    assert d * n == y % n - x % n;
    if d >= 1 { MulMono(1, d, n); }
    if d <= -1 { MulMono(d, -1, n); }
  }

  /** Remainders do not see multiples. */
  lemma ModShift(x: int, k: int, n: int)
    requires n > 0
    ensures (x + k * n) % n == x % n
  {
    CongIntro(x + k * n, x, n, k);
  }

  lemma ModSmall(x: int, n: int)
    requires 0 <= x < n
    ensures x % n == x && x / n == 0
  {}

  lemma DivUnique(x: int, q: int, r: int, n: int)
    requires x == q * n + r && 0 <= r < n
    ensures x / n == q
  {
    var d := x / n - q;
    DivMod(x, n);
    assert d * n == (x / n) * n - q * n;
    if d >= 1 { MulMono(1, d, n); }
    if d <= -1 { MulMono(d, -1, n); }
  }

  lemma DivHalf(x: int, n: int)
    requires n > 0
    ensures x / (2 * n) == x / 2 / n
  {
    var q, r := x / 2 / n, x / 2 % n;
    DivMod(x / 2, n);
    assert q * (2 * n) == 2 * (q * n);
    DivUnique(x, q, 2 * r + x % 2, 2 * n);
  }

  lemma CongElim(x: int, y: int, n: int) returns (k: int)
    requires n > 0 && Cong(x, y, n)
    ensures x - y == k * n
  {
    k := x / n - y / n;
    DivMod(x, n);
    DivMod(y, n);
  }

  lemma CongAdd(x: int, y: int, u: int, v: int, n: int)
    requires n > 0 && Cong(x, y, n) && Cong(u, v, n)
    ensures Cong(x + u, y + v, n)
  {
    hide Cong;
    var j := CongElim(x, y, n);
    var k := CongElim(u, v, n);
    CongIntro(x + u, y + v, n, j + k);
  }

  lemma CongScale(x: int, y: int, m: int, n: int)
    requires n > 0 && Cong(x, y, n)
    ensures Cong(x * m, y * m, n)
  {
    hide Cong;
    var k := CongElim(x, y, n);
    assert (x - y) * m == (k * m) * n by { Assoc(k, n, m); Assoc(k, m, n); }
    CongIntro(x * m, y * m, n, k * m);
  }

  lemma CongMul(x: int, y: int, u: int, v: int, n: int)
    requires n > 0 && Cong(x, y, n) && Cong(u, v, n)
    ensures Cong(x * u, y * v, n)
  {
    CongScale(x, y, u, n);
    CongScale(u, v, y, n);
    assert u * y == y * u && v * y == y * v;
  }

  /** A factor that is invertible modulo n cancels. */
  lemma CongCancel(x: int, y: int, m: int, inv: int, n: int)
    requires n > 0 && Cong(x * m, y * m, n) && Cong(m * inv, 1, n)
    ensures Cong(x, y, n)
  {
    CongScale(m * inv, 1, x, n);
    CongScale(m * inv, 1, y, n);
    CongScale(x * m, y * m, inv, n);
    assert x * m * inv == m * inv * x by { Assoc(x, m, inv); }
    assert y * m * inv == m * inv * y by { Assoc(y, m, inv); }
  }

  lemma {:induction false} CongPow(x: int, y: int, e: nat, n: int)
    requires n > 0 && Cong(x, y, n)
    ensures Cong(Pow(x, e), Pow(y, e), n)
  {
    if e > 0 {
      CongPow(x, y, e - 1, n);
      CongMul(x, y, Pow(x, e - 1), Pow(y, e - 1), n);
    }
  }

  /** 2^(32*e) */
  function Base(e: nat): int {
    if e == 0 then 1 else 0x1_0000_0000 * Base(e - 1)
  }

  lemma {:induction false} BasePositive(e: nat)
    ensures Base(e) > 0
  {
    if e > 0 { BasePositive(e - 1); }
  }

  // ---- little-endian word strings ----------------------------------------

  /** The number a little-endian word string stands for. */
  function Val(s: seq<Word>): nat {
    if s == [] then 0 else
      BasePositive(|s| - 1);
      Val(s[..|s| - 1]) + s[|s| - 1] * Base(|s| - 1)
  }

  lemma ValSnoc(s: seq<Word>, x: Word)
    ensures Val(s + [x]) == Val(s) + x * Base(|s|)
  {
    assert (s + [x])[..|s|] == s;
  }

  lemma ValPrefix(s: seq<Word>, i: nat)
    requires i < |s|
    ensures Val(s[..i + 1]) == Val(s[..i]) + s[i] * Base(i)
  {
    assert s[..i + 1] == s[..i] + [s[i]];
    ValSnoc(s[..i], s[i]);
  }

  lemma {:induction false} ValBound(s: seq<Word>)
    ensures 0 <= Val(s) < Base(|s|)
  {
    if s != [] {
      var k := |s| - 1;
      ValBound(s[..k]);
      BasePositive(k);
      MulMono(s[k], 0x1_0000_0000 - 1, Base(k));
    }
  }

  lemma TopDecides(x: int, i: int, y: int, j: int, p: int)
    requires 0 <= x < p && 0 <= y && i < j
    ensures x + i * p < y + j * p
  {
    MulMono(i + 1, j, p);
  }

  /** Equal-length word strings with equal values are equal. */
  lemma {:induction false} ValInjective(s: seq<Word>, t: seq<Word>)
    requires |s| == |t| && Val(s) == Val(t)
    ensures s == t
  {
    if s != [] {
      var k := |s| - 1;
      ValBound(s[..k]);
      ValBound(t[..k]);
      if s[k] < t[k] { TopDecides(Val(s[..k]), s[k], Val(t[..k]), t[k], Base(k)); }
      if t[k] < s[k] { TopDecides(Val(t[..k]), t[k], Val(s[..k]), s[k], Base(k)); }
      ValInjective(s[..k], t[..k]);
      assert s == s[..k] + [s[k]] && t == t[..k] + [t[k]];
    }
  }

  lemma {:induction false} ValCons(x: Word, s: seq<Word>)
    ensures Val([x] + s) == x + 0x1_0000_0000 * Val(s)
  {
    if s == [] {
      assert ([x] + s)[..0] == [];
    } else {
      var k := |s| - 1;
      assert ([x] + s)[..|s|] == [x] + s[..k];
      ValCons(x, s[..k]);
    }
  }

  // ---- big-endian byte strings ----------------------------------------------

  /** OS2IP of RFC 8017: the number a big-endian byte string stands for. */
  function BeVal(s: seq<Byte>): nat {
    if s == [] then 0 else 256 * BeVal(s[..|s| - 1]) + s[|s| - 1]
  }

  function Be32(b0: Byte, b1: Byte, b2: Byte, b3: Byte): Word {
    0x100_0000 * b0 + 0x1_0000 * b1 + 0x100 * b2 + b3
  }

  /** Byte k of a word, 0 being the most significant: (x >> (24 - 8k)) truncated to a byte. */
  function ByteOf(x: Word, k: nat): Byte
    requires k < 4
  {
    match k
    case 0 => x / 0x100_0000
    case 1 => x / 0x1_0000 % 256
    case 2 => x / 0x100 % 256
    case _ => x % 256
  }

  lemma Be32OfBytes(x: Word)
    ensures Be32(ByteOf(x, 0), ByteOf(x, 1), ByteOf(x, 2), ByteOf(x, 3)) == x
  {
    var a, b, c := x / 0x100, x / 0x1_0000, x / 0x100_0000;
    assert x == 0x100 * a + ByteOf(x, 3);
    assert b == a / 0x100 && a == 0x100 * b + ByteOf(x, 2);
    assert c == b / 0x100 && b == 0x100 * c + ByteOf(x, 1);
  }

  function WordAt(s: seq<Byte>, j: nat): Word
    requires 4 * j + 3 < |s|
  {
    Be32(s[4 * j], s[4 * j + 1], s[4 * j + 2], s[4 * j + 3])
  }

  /** The bytes s are the words a, most significant word and byte first. */
  ghost predicate BigEndian(s: seq<Byte>, a: seq<Word>) {
    && |s| == 4 * |a|
    && forall i :: 0 <= i < |a| ==> a[i] == WordAt(s, |a| - 1 - i)
  }

  lemma BeSnoc4(s: seq<Byte>, b0: Byte, b1: Byte, b2: Byte, b3: Byte)
    ensures BeVal(s + [b0, b1, b2, b3]) == 0x1_0000_0000 * BeVal(s) + Be32(b0, b1, b2, b3)
  {
    var s1, s2, s3, s4 := s + [b0], s + [b0, b1], s + [b0, b1, b2], s + [b0, b1, b2, b3];
    assert s1[..|s|] == s && s2[..|s| + 1] == s1 && s3[..|s| + 2] == s2 && s4[..|s| + 3] == s3;
    assert BeVal(s1) == 256 * BeVal(s) + b0;
    assert BeVal(s2) == 256 * BeVal(s1) + b1;
    assert BeVal(s3) == 256 * BeVal(s2) + b2;
    assert BeVal(s4) == 256 * BeVal(s3) + b3;
  }

  lemma {:induction false} BigEndianValue(s: seq<Byte>, a: seq<Word>)
    requires BigEndian(s, a)
    ensures BeVal(s) == Val(a)
  {
    if a != [] {
      var m := |s| - 4;
      var hi, rest := s[..m], a[1..];
      forall i | 0 <= i < |rest| ensures rest[i] == WordAt(hi, |rest| - 1 - i) {
        assert rest[i] == a[i + 1] == WordAt(s, |a| - 2 - i);
      }
      BigEndianValue(hi, rest);
      BeSnoc4(hi, s[m], s[m + 1], s[m + 2], s[m + 3]);
      assert s == hi + [s[m], s[m + 1], s[m + 2], s[m + 3]];
      assert a[0] == WordAt(s, |a| - 1);
      ValCons(a[0], rest);
      assert a == [a[0]] + rest;
    }
  }
}
