/**
  The order of keys is the order of their UTF-8 bytes: comparing strings scalar by scalar, as the canonical writer's
  order does, and comparing them byte by byte give the same answer.
 */
module Utf8Order {
  import StableJson
  import opened JsonText

  type Bytes = seq<nat>

  function Trail(n: nat): nat {
    0x80 + n % 0x40
  }

  /** The UTF-8 encoding of one scalar, section 3 of RFC 3629: a lead byte, then six bits a byte. */
  function Utf8(c: char): (bytes: Bytes)
    ensures 1 <= |bytes| <= 4
  {
    var n := c as nat;
    var q := n / 0x40;
    if n < 0x80 then [n]
    else if n < 0x800 then [0xC0 + q, Trail(n)]
    else if n < 0x1_0000 then [0xE0 + q / 0x40, Trail(q), Trail(n)]
    else [0xF0 + q / 0x40 / 0x40, Trail(q / 0x40), Trail(q), Trail(n)]
  }

  function Encode(s: string): Bytes {
    if s == "" then [] else Utf8(s[0]) + Encode(s[1..])
  }

  /** Two byte sequences agree up to position `n`, and there the first one has the smaller byte. */
  predicate SmallerAt(a: Bytes, b: Bytes, n: nat) {
    n < |a| && n < |b| && a[..n] == b[..n] && a[n] < b[n]
  }

  /** Lexicographic order of bytes: a proper prefix, or the smaller byte at the first difference. */
  predicate BytesBefore(a: Bytes, b: Bytes) {
    a < b || exists n: nat | n < |a| :: SmallerAt(a, b, n)
  }

  /** Numbers are ordered by their quotients and then by their last six bits. */
  lemma SixBitsOrder(n: nat, m: nat)
    requires n < m
    ensures n / 0x40 < m / 0x40 || (n / 0x40 == m / 0x40 && Trail(n) < Trail(m))
  {
  }

  /** The lead byte tells the length. */
  lemma LeadByte(c: char)
    ensures |Utf8(c)| == 1 ==> Utf8(c)[0] < 0x80
    ensures |Utf8(c)| == 2 ==> 0xC0 <= Utf8(c)[0] < 0xE0
    ensures |Utf8(c)| == 3 ==> 0xE0 <= Utf8(c)[0] < 0xF0
    ensures |Utf8(c)| == 4 ==> 0xF0 <= Utf8(c)[0]
  {
  }

  lemma Lengths(c: char, d: char)
    requires c < d
    ensures |Utf8(c)| <= |Utf8(d)|
  {
  }

  /** A smaller scalar has the smaller byte at the first difference, and is never a prefix of the larger one. */
  lemma ScalarOrder(c: char, d: char) returns (n: nat)
    requires c < d
    ensures SmallerAt(Utf8(c), Utf8(d), n)
  {
    LeadByte(c);
    LeadByte(d);
    Lengths(c, d);
    if |Utf8(c)| < |Utf8(d)| {
      n := 0;
    } else {
      n := SameLengthOrder(c, d);
    }
  }

  lemma SameLengthOrder(c: char, d: char) returns (n: nat)
    requires c < d && |Utf8(c)| == |Utf8(d)|
    ensures SmallerAt(Utf8(c), Utf8(d), n)
  {
    if |Utf8(c)| == 1 {
      n := 0;
    } else if |Utf8(c)| == 2 {
      n := TwoBytesOrder(c, d);
    } else if |Utf8(c)| == 3 {
      n := ThreeBytesOrder(c, d);
    } else {
      n := FourBytesOrder(c, d);
    }
  }

  lemma TwoBytesOrder(c: char, d: char) returns (n: nat)
    requires c < d && |Utf8(c)| == |Utf8(d)| == 2
    ensures SmallerAt(Utf8(c), Utf8(d), n)
  {
    SixBitsOrder(c as nat, d as nat);
    n := if c as nat / 0x40 < d as nat / 0x40 then 0 else 1;
  }

  lemma ThreeBytesOrder(c: char, d: char) returns (n: nat)
    requires c < d && |Utf8(c)| == |Utf8(d)| == 3
    ensures SmallerAt(Utf8(c), Utf8(d), n)
  {
    var p, q := c as nat / 0x40, d as nat / 0x40;
    SixBitsOrder(c as nat, d as nat);
    if p < q {
      SixBitsOrder(p, q);
      n := if p / 0x40 < q / 0x40 then 0 else 1;
    } else {
      n := 2;
    }
  }

  lemma FourBytesOrder(c: char, d: char) returns (n: nat)
    requires c < d && |Utf8(c)| == |Utf8(d)| == 4
    ensures SmallerAt(Utf8(c), Utf8(d), n)
  {
    var p, q := c as nat / 0x40, d as nat / 0x40;
    SixBitsOrder(c as nat, d as nat);
    if p == q {
      n := 3;
    } else {
      SixBitsOrder(p, q);
      if p / 0x40 == q / 0x40 {
        n := 2;
      } else {
        SixBitsOrder(p / 0x40, q / 0x40);
        n := if p / 0x40 / 0x40 < q / 0x40 / 0x40 then 0 else 1;
      }
    }
  }

  // ---------------------------------------------------------------- strings

  lemma {:induction false} EncodeConcat(s: string, t: string)
    ensures Encode(s + t) == Encode(s) + Encode(t)
  {
    if s == "" {
      assert s + t == t;
    } else {
      assert (s + t)[1..] == s[1..] + t;
      EncodeConcat(s[1..], t);
    }
  }

  /** A common prefix does not matter. */
  lemma SmallerAfter(p: Bytes, a: Bytes, b: Bytes, ra: Bytes, rb: Bytes, n: nat)
    requires SmallerAt(a, b, n)
    ensures SmallerAt(p + a + ra, p + b + rb, |p| + n)
  {
    assert (p + a + ra)[..|p| + n] == p + a[..n];
    assert (p + b + rb)[..|p| + n] == p + b[..n];
  }

  /** The encoding around one scalar. */
  lemma EncodeAround(s: string, n: nat)
    requires n < |s|
    ensures Encode(s) == Encode(s[..n]) + Utf8(s[n]) + Encode(s[n + 1..])
  {
    assert s == s[..n] + s[n..] && s[n..][1..] == s[n + 1..];
    EncodeConcat(s[..n], s[n..]);
  }

  lemma EncodePrefix(a: string, b: string)
    requires a < b
    ensures Encode(a) < Encode(b)
  {
    EncodeAround(b, |a|);
    assert b[..|a|] == a;
  }

  /** The key order is carried over to the bytes. */
  lemma KeysBeforeBytes(a: string, b: string)
    requires KeyBefore(a, b)
    ensures BytesBefore(Encode(a), Encode(b))
  {
    var n: nat :| n <= |a| && DiffersAt(a, b, n);
    if n == |a| {
      EncodePrefix(a, b);
    } else {
      var k := ScalarOrder(a[n], b[n]);
      EncodeAround(a, n);
      EncodeAround(b, n);
      SmallerAfter(Encode(a[..n]), Utf8(a[n]), Utf8(b[n]), Encode(a[n + 1..]), Encode(b[n + 1..]), k);
    }
  }

  lemma BytesAsymmetric(a: Bytes, b: Bytes)
    requires BytesBefore(a, b)
    ensures !BytesBefore(b, a) && a != b
  {
    forall m: nat | m < |b| ensures !SmallerAt(b, a, m) {}
  }

  /** Comparing keys scalar by scalar is comparing their UTF-8 texts byte by byte. */
  lemma KeyOrderIsByteOrder(a: string, b: string)
    ensures KeyBefore(a, b) <==> BytesBefore(Encode(a), Encode(b))
  {
    LessIsKeyBefore(a, b);
    LessIsKeyBefore(b, a);
    StableJson.LessTotal(a, b);
    if KeyBefore(a, b) {
      KeysBeforeBytes(a, b);
    } else if BytesBefore(Encode(a), Encode(b)) {
      BytesAsymmetric(Encode(a), Encode(b));
      KeysBeforeBytes(b, a);
    }
  }
}
