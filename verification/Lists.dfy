/** Shapes several modules share: optional values, pieces of bytes, and linked lists as the sequence of their nodes. */
module Lists {
  import opened Arith

  datatype Option<T> = None | Some(value: T)

  // ---- pieces -----------------------------------------------------------------------------

  /** The bytes of some pieces, one behind the other. */
  function Concat(q: seq<seq<Byte>>): seq<Byte> {
    if q == [] then [] else q[0] + Concat(q[1..])
  }

  lemma ConcatFirst(x: seq<Byte>, q: seq<seq<Byte>>)
    ensures Concat([]) == [] && Concat([x] + q) == x + Concat(q)
  {
    assert ([x] + q)[1..] == q;
  }

  lemma {:induction false} ConcatSplit(a: seq<seq<Byte>>, b: seq<seq<Byte>>)
    ensures Concat(a + b) == Concat(a) + Concat(b)
  {
    hide Concat;
    if a == [] {
      ConcatFirst([], []);
      assert a + b == b;
    } else {
      var x, rest := a[0], a[1..];
      ConcatSplit(rest, b);
      ConcatFirst(x, rest);
      ConcatFirst(x, rest + b);
      assert a == [x] + rest && a + b == [x] + (rest + b);
    }
  }

  lemma ConcatAppend(q: seq<seq<Byte>>, x: seq<Byte>)
    ensures Concat(q + [x]) == Concat(q) + x
  {
    assert [x][1..] == [];
    ConcatSplit(q, [x]);
  }

  // ---- reversal -----------------------------------------------------------------------------

  function Reverse<T>(q: seq<T>): seq<T> {
    if q == [] then [] else Reverse(q[1..]) + [q[0]]
  }

  lemma ReverseOne<T>(h: seq<T>, q: seq<T>)
    requires |h| <= 1
    ensures Reverse(h + q) == Reverse(q) + h && Reverse<T>([]) == []
  {
    if h == [] { assert h + q == q; } else { assert (h + q)[1..] == q; }
  }

  // ---- linked lists -----------------------------------------------------------------------

  /** An address; 0 is NULL. */
  type Ptr = nat

  /** The list without its entry p. */
  function Without(q: seq<Ptr>, p: Ptr): seq<Ptr> {
    if q == [] then [] else if q[0] == p then q[1..] else [q[0]] + Without(q[1..], p)
  }

  ghost predicate Distinct(q: seq<Ptr>) {
    forall i, j :: 0 <= i < j < |q| ==> q[i] != q[j]
  }

  lemma {:induction false} Removed(q: seq<Ptr>, p: Ptr)
    requires Distinct(q)
    ensures Distinct(Without(q, p)) && forall x :: x in Without(q, p) <==> x in q && x != p
    ensures |Without(q, p)| == if p in q then |q| - 1 else |q|
  {
    if q != [] {
      assert forall x :: x in q <==> x == q[0] || x in q[1..];
      if q[0] != p {
        Removed(q[1..], p);
        assert q[0] !in q[1..];
      }
    }
  }

  lemma Added(q: seq<Ptr>, p: Ptr)
    requires Distinct(q) && p !in q
    ensures Distinct(q + [p]) && forall x :: x in q + [p] <==> x in q || x == p
  {}

  lemma {:induction false} Kept(q: seq<Ptr>, p: Ptr, x: Ptr)
    ensures p !in q ==> Without(q, p) == q
    ensures x in q && x != p ==> x in Without(q, p)
    ensures x !in q ==> x !in Without(q, p)
  {
    if q != [] && q[0] != p {
      Kept(q[1..], p, x);
      assert q == [q[0]] + q[1..];
    }
  }

  lemma Popped(q: seq<Ptr>)
    requires Distinct(q) && q != []
    ensures Distinct(q[1..]) && q[0] in q && forall x :: x in q[1..] <==> x in q && x != q[0]
  {
    assert forall x :: x in q <==> x == q[0] || x in q[1..];
  }
}
