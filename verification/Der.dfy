/**
 * As much of DER (ITU-T X.690) as a DigestInfo of section 9.2 of RFC 8017 needs: one-byte tags, lengths in the short
 * form, and object identifiers.
 */
module Der {
  import opened Arith
  import opened Lists

  const OBJECT_IDENTIFIER: Byte := 0x06
  const NULL: Byte := 0x05
  const OCTET_STRING: Byte := 0x04
  const SEQUENCE: Byte := 0x30

  datatype Element = Element(tag: Byte, content: seq<Byte>)

  /** The elements that fill s, one behind the other, with nothing left over. */
  function Elements(s: seq<Byte>): Option<seq<Element>> {
    if s == [] then Some([])
    else if |s| < 2 || s[1] >= 0x80 || |s| < 2 + s[1] then None
    else
      match Elements(s[2 + s[1]..])
      case None => None
      case Some(rest) => Some([Element(s[0], s[2..2 + s[1]])] + rest)
  }

  /** The contents are short enough for the short form. */
  predicate Short(es: seq<Element>) {
    forall i :: 0 <= i < |es| ==> |es[i].content| < 0x80
  }

  function Written(es: seq<Element>): seq<Byte>
    requires Short(es)
  {
    if es == [] then [] else [es[0].tag, |es[0].content|] + es[0].content + Written(es[1..])
  }

  lemma ElementsCons(e: Element, rest: seq<Byte>)
    requires |e.content| < 0x80 && Elements(rest).Some?
    ensures Elements([e.tag, |e.content|] + e.content + rest) == Some([e] + Elements(rest).value)
  {
    var s := [e.tag, |e.content|] + e.content + rest;
    assert s[1] == |e.content| && s[2..2 + s[1]] == e.content && s[2 + s[1]..] == rest;
  }

  lemma WrittenCons(e: Element, rest: seq<Element>)
    requires |e.content| < 0x80 && Short(rest)
    ensures Short([e] + rest)
    ensures Written([e] + rest) == [e.tag, |e.content|] + e.content + Written(rest)
  {
    assert ([e] + rest)[1..] == rest;
  }

  /** Elements are read from exactly the bytes they are written as. */
  lemma {:induction false} ElementsOfWritten(es: seq<Element>)
    requires Short(es)
    ensures Elements(Written(es)) == Some(es)
  {
    if es != [] {
      ElementsOfWritten(es[1..]);
      ElementsCons(es[0], Written(es[1..]));
      assert es == [es[0]] + es[1..];
    }
  }

  lemma FirstElement(s: seq<Byte>)
    requires s != [] && Elements(s).Some?
    ensures |s| >= 2 && s[1] < 0x80 && 2 + s[1] <= |s| && Elements(s[2 + s[1]..]).Some?
    ensures Elements(s).value == [Element(s[0], s[2..2 + s[1]])] + Elements(s[2 + s[1]..]).value
  {}

  lemma HeadAndRest(s: seq<Byte>, n: nat)
    requires 2 <= n <= |s|
    ensures [s[0], s[1]] + s[2..n] + s[n..] == s
  {
    assert [s[0], s[1]] == s[..2] && s[..2] + s[2..n] == s[..n];
  }

  lemma {:induction false} WrittenOfElements(s: seq<Byte>)
    requires Elements(s).Some?
    ensures Short(Elements(s).value) && Written(Elements(s).value) == s
  {
    if s != [] {
      hide Elements, Written, Short;
      FirstElement(s);
      var n := 2 + s[1];
      WrittenOfElements(s[n..]);
      WrittenCons(Element(s[0], s[2..n]), Elements(s[n..]).value);
      HeadAndRest(s, n);
    }
  }

  /** Section 8.19: numbers in base 128, most significant digit first, 0x80 added to all digits but the last. */
  function Subidentifiers(s: seq<Byte>, high: nat): Option<seq<nat>> {
    if s == [] then if high == 0 then Some([]) else None
    else if s[0] >= 0x80 then
      if high == 0 && s[0] == 0x80 then None else Subidentifiers(s[1..], 128 * high + s[0] - 0x80)
    else
      match Subidentifiers(s[1..], 0)
      case None => None
      case Some(rest) => Some([128 * high + s[0]] + rest)
  }

  /** The first number holds the first two arcs. */
  function Arcs(s: seq<Byte>): Option<seq<nat>> {
    match Subidentifiers(s, 0)
    case None => None
    case Some(v) =>
      if v == [] then None
      else
        var root := if v[0] < 40 then 0 else if v[0] < 80 then 1 else 2;
        Some([root, v[0] - 40 * root] + v[1..])
  }

  lemma {:induction false} LongSubidentifier(s: seq<Byte>, high: nat)
    requires high > 0 && Subidentifiers(s, high).Some?
    ensures Subidentifiers(s, high).value != [] && Subidentifiers(s, high).value[0] >= 128
  {
    if s[0] >= 0x80 { LongSubidentifier(s[1..], 128 * high + s[0] - 0x80); }
  }

  /** Numbers below 128 are written as themselves, and in no other way. */
  lemma {:induction false} ShortSubidentifiers(s: seq<Byte>, v: seq<Byte>)
    requires forall i :: 0 <= i < |v| ==> v[i] < 128
    ensures Subidentifiers(s, 0) == Some(v) <==> s == v
  {
    if s == [] {
    } else if s[0] >= 0x80 {
      if s[0] > 0x80 && Subidentifiers(s, 0).Some? { LongSubidentifier(s[1..], s[0] - 0x80); }
    } else if v != [] {
      ShortSubidentifiers(s[1..], v[1..]);
      assert s == [s[0]] + s[1..] && v == [v[0]] + v[1..];
    }
  }

  /** SHA-1: iso(1) identified-organization(3) oiw(14) secsig(3) algorithms(2) 26. */
  const ID_SHA1: seq<nat> := [1, 3, 14, 3, 2, 26]

  lemma Sha1Identifier(s: seq<Byte>)
    ensures Arcs(s) == Some(ID_SHA1) <==> s == [43, 14, 3, 2, 26]
  {
    var v: seq<Byte> := [43, 14, 3, 2, 26];
    ShortSubidentifiers(s, v);
    if Arcs(s) == Some(ID_SHA1) {
      var w := Subidentifiers(s, 0).value;
      assert Arcs(s).value[0] == 1 && Arcs(s).value[1] == 3 && Arcs(s).value[2..] == w[1..];
      assert w == [w[0]] + w[1..] == v;
    }
    assert [1, 43 - 40] + v[1..] == ID_SHA1;
  }

  /** An algorithm identifier with null parameters. */
  predicate IsAlgorithm(s: seq<Byte>, arcs: seq<nat>) {
    var es := Elements(s);
    && es.Some? && |es.value| == 2
    && es.value[0].tag == OBJECT_IDENTIFIER && Arcs(es.value[0].content) == Some(arcs)
    && es.value[1] == Element(NULL, [])
  }

  /** The content of a DigestInfo: the algorithm and the hash. */
  predicate IsDigest(s: seq<Byte>, arcs: seq<nat>, hash: seq<Byte>) {
    var es := Elements(s);
    && es.Some? && |es.value| == 2
    && es.value[0].tag == SEQUENCE && IsAlgorithm(es.value[0].content, arcs)
    && es.value[1] == Element(OCTET_STRING, hash)
  }

  /** s is a DigestInfo and nothing else. */
  predicate IsDigestInfo(s: seq<Byte>, arcs: seq<nat>, hash: seq<Byte>) {
    var es := Elements(s);
    && es.Some? && |es.value| == 1
    && es.value[0].tag == SEQUENCE && IsDigest(es.value[0].content, arcs, hash)
  }

  lemma OneElement(s: seq<Byte>, tag: Byte, content: seq<Byte>)
    requires |content| < 0x80
    ensures Elements(s) == Some([Element(tag, content)]) <==> s == [tag, |content|] + content
  {
    var es := [Element(tag, content)];
    ElementsOfWritten(es);
    assert Written(es) == [tag, |content|] + content + Written([]) == [tag, |content|] + content;
    if Elements(s) == Some(es) { WrittenOfElements(s); }
  }

  lemma TwoElements(s: seq<Byte>, tag: Byte, content: seq<Byte>, tag': Byte, content': seq<Byte>)
    requires |content| < 0x80 && |content'| < 0x80
    ensures Elements(s) == Some([Element(tag, content), Element(tag', content')])
            <==> s == [tag, |content|] + content + ([tag', |content'|] + content')
  {
    var es := [Element(tag, content), Element(tag', content')];
    ElementsOfWritten(es);
    assert es[1..] == [Element(tag', content')] && es[1..][1..] == [];
    assert Written(es[1..]) == [tag', |content'|] + content' + Written([]) == [tag', |content'|] + content';
    if Elements(s) == Some(es) { WrittenOfElements(s); }
  }

  const SHA1_ALGORITHM: seq<Byte> := [0x06, 0x05, 43, 14, 3, 2, 26, 0x05, 0x00]

  lemma AlgorithmBytes(s: seq<Byte>)
    ensures IsAlgorithm(s, ID_SHA1) <==> s == SHA1_ALGORITHM
  {
    hide Elements, Arcs;
    var v: seq<Byte> := [43, 14, 3, 2, 26];
    Sha1Identifier(v);
    TwoElements(s, OBJECT_IDENTIFIER, v, NULL, []);
    assert [OBJECT_IDENTIFIER, |v|] + v + ([NULL, 0] + []) == SHA1_ALGORITHM;
    if IsAlgorithm(s, ID_SHA1) {
      var es := Elements(s).value;
      Sha1Identifier(es[0].content);
      assert es == [Element(OBJECT_IDENTIFIER, v), Element(NULL, [])];
    }
  }

  lemma DigestBytes(s: seq<Byte>, hash: seq<Byte>)
    requires |hash| < 0x80
    ensures IsDigest(s, ID_SHA1, hash) <==> s == [SEQUENCE, 9] + SHA1_ALGORITHM + ([OCTET_STRING, |hash|] + hash)
  {
    hide Elements, IsAlgorithm;
    AlgorithmBytes(SHA1_ALGORITHM);
    TwoElements(s, SEQUENCE, SHA1_ALGORITHM, OCTET_STRING, hash);
    if IsDigest(s, ID_SHA1, hash) {
      var es := Elements(s).value;
      AlgorithmBytes(es[0].content);
      assert es == [Element(SEQUENCE, SHA1_ALGORITHM), Element(OCTET_STRING, hash)];
    }
  }

  /** The one DER form of a DigestInfo of SHA-1. */
  lemma DigestInfoBytes(s: seq<Byte>, hash: seq<Byte>)
    requires |hash| < 0x70
    ensures IsDigestInfo(s, ID_SHA1, hash)
            <==> s == [SEQUENCE, 13 + |hash|] + ([SEQUENCE, 9] + SHA1_ALGORITHM + ([OCTET_STRING, |hash|] + hash))
  {
    hide Elements, IsDigest;
    var d := [SEQUENCE, 9] + SHA1_ALGORITHM + ([OCTET_STRING, |hash|] + hash);
    DigestBytes(d, hash);
    OneElement(s, SEQUENCE, d);
    if IsDigestInfo(s, ID_SHA1, hash) {
      var es := Elements(s).value;
      DigestBytes(es[0].content, hash);
      assert es == [Element(SEQUENCE, d)];
    }
  }
}
