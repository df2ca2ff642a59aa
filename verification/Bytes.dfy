/** Byte strings: fixed-width integers, length-prefixed strings, and the order of keys in the database. */
module Bytes {

  type byte = n: int | 0 <= n < 256

  function Pow256(width: nat): (r: nat)
    ensures r > 0
  {
    if width == 0 then 1 else 256 * Pow256(width - 1)
  }

  function LittleEndian(n: nat, width: nat): (r: seq<byte>)
    ensures |r| == width
  {
    if width == 0 then [] else [n % 256] + LittleEndian(n / 256, width - 1)
  }

  function Reversed(s: seq<byte>): (r: seq<byte>)
    ensures |r| == |s|
  {
    if s == [] then [] else Reversed(s[1..]) + [s[0]]
  }

  /** The little-endian bytes, reversed. */
  function BigEndian(n: nat, width: nat): (r: seq<byte>)
    ensures |r| == width
  {
    Reversed(LittleEndian(n, width))
  }

  /** The number with the given big-endian bytes. */
  function Number(s: seq<byte>): nat {
    if s == [] then 0 else 256 * Number(s[..|s| - 1]) + s[|s| - 1]
  }

  /** A string is written as its length in eight little-endian bytes followed by its characters. */
  function Serialized(s: string): (r: seq<byte>)
    ensures |r| == 8 + |s|
  {
    LittleEndian(|s|, 8) + seq(|s|, i requires 0 <= i < |s| => s[i] as int % 256)
  }

  /** The order in which keys are iterated. */
  predicate Precedes(a: seq<byte>, b: seq<byte>) {
    b != [] && (a == [] || a[0] < b[0] || (a[0] == b[0] && Precedes(a[1..], b[1..])))
  }

  lemma BigEndianStep(n: nat, width: nat)
    requires width > 0
    ensures BigEndian(n, width) == BigEndian(n / 256, width - 1) + [n % 256]
  {
  }

  lemma {:induction false} NumberOfBigEndian(n: nat, width: nat)
    requires n < Pow256(width)
    ensures Number(BigEndian(n, width)) == n
  {
    if width > 0 {
      BigEndianStep(n, width);
      NumberOfBigEndian(n / 256, width - 1);
      var bytes := BigEndian(n, width);
      assert bytes[..|bytes| - 1] == BigEndian(n / 256, width - 1);
    }
  }

  lemma {:induction false} BigEndianOfNumber(s: seq<byte>)
    ensures Number(s) < Pow256(|s|) && BigEndian(Number(s), |s|) == s
  {
    if s != [] {
      var front, last := s[..|s| - 1], s[|s| - 1];
      BigEndianOfNumber(front);
      BigEndianStep(Number(s), |s|);
      assert Number(s) / 256 == Number(front) && Number(s) % 256 == last;
      assert s == front + [last];
    }
  }

  lemma {:induction false} PrecedesIrreflexive(a: seq<byte>)
    ensures !Precedes(a, a)
  {
    if a != [] { PrecedesIrreflexive(a[1..]); }
  }

  lemma {:induction false} PrecedesTransitive(a: seq<byte>, b: seq<byte>, c: seq<byte>)
    requires Precedes(a, b) && Precedes(b, c)
    ensures Precedes(a, c)
  {
    if a != [] && a[0] == b[0] == c[0] { PrecedesTransitive(a[1..], b[1..], c[1..]); }
  }

  /** Fields of equal width are compared one after the other. */
  lemma {:induction false} PrecedesByField(a: seq<byte>, b: seq<byte>, a': seq<byte>, b': seq<byte>)
    requires |a| == |b|
    ensures Precedes(a + a', b + b') <==> Precedes(a, b) || (a == b && Precedes(a', b'))
  {
    if a == [] {
      assert a + a' == a' && b + b' == b';
    } else {
      PrecedesByField(a[1..], b[1..], a', b');
      assert (a + a')[1..] == a[1..] + a' && (b + b')[1..] == b[1..] + b';
      assert a == [a[0]] + a[1..] && b == [b[0]] + b[1..];
    }
  }

  /** Big-endian bytes of equal width are ordered like the numbers they denote. */
  lemma {:induction false} BigEndianOrder(x: nat, y: nat, width: nat)
    requires x < Pow256(width) && y < Pow256(width)
    ensures Precedes(BigEndian(x, width), BigEndian(y, width)) <==> x < y
  {
    if width > 0 {
      BigEndianStep(x, width);
      BigEndianStep(y, width);
      BigEndianOrder(x / 256, y / 256, width - 1);
      PrecedesByField(BigEndian(x / 256, width - 1), BigEndian(y / 256, width - 1), [x % 256], [y % 256]);
      NumberOfBigEndian(x / 256, width - 1);
      NumberOfBigEndian(y / 256, width - 1);
    }
  }
}
