/** Octets, octet strings and the few arithmetic views of them that the wire formats use. */
module Bytes {

  /** One octet; Python's `bytes` objects are sequences of these. */
  type byte = x: int | 0 <= x < 256

  /** Sum of all octets, as Python's `sum(b)` computes it (unbounded). */
  function Sum(s: seq<byte>): nat
  {
    if s == [] then 0 else s[0] + Sum(s[1..])
  }

  lemma {:induction false} SumAppend(a: seq<byte>, b: seq<byte>)
    ensures Sum(a + b) == Sum(a) + Sum(b)
  {
    if a == [] {
      assert a + b == b;
    } else {
      assert (a + b)[1..] == a[1..] + b;
      SumAppend(a[1..], b);
    }
  }

  /** Taking one octet out of a sequence takes its value out of the sum. */
  lemma SumRemove(b: seq<byte>, k: nat)
    requires k < |b|
    ensures Sum(b) == b[k] + Sum(b[..k] + b[k + 1..])
  {
    var left, mid, right := b[..k], [b[k]], b[k + 1..];
    assert b == (left + mid) + right;
    SumAppend(left + mid, right);
    SumAppend(left, mid);
    SumAppend(left, right);
    assert mid[1..] == [];
  }

  /** Taking one octet out of a sequence takes it out of its multiset. */
  lemma MultisetRemove(b: seq<byte>, k: nat)
    requires k < |b|
    ensures multiset(b[..k] + b[k + 1..]) == multiset(b) - multiset{b[k]}
  {
    assert b == (b[..k] + [b[k]]) + b[k + 1..];
    assert multiset(b) == multiset(b[..k]) + multiset{b[k]} + multiset(b[k + 1..]);
  }

  /** Matching the first octet of `a` with an equal octet of `b` leaves two permutations. */
  lemma PermutationTail(a: seq<byte>, b: seq<byte>, k: nat)
    requires multiset(a) == multiset(b) && a != [] && k < |b| && b[k] == a[0]
    ensures multiset(a[1..]) == multiset(b[..k] + b[k + 1..])
  {
    MultisetRemove(b, k);
    MultisetTail(a);
  }

  lemma MultisetTail(a: seq<byte>)
    requires a != []
    ensures multiset(a[1..]) == multiset(a) - multiset{a[0]}
  {
    assert a == [a[0]] + a[1..];
  }

  /** The sum of a sequence does not depend on the order of its octets. */
  lemma {:induction false} SumPermutation(a: seq<byte>, b: seq<byte>)
    requires multiset(a) == multiset(b)
    ensures Sum(a) == Sum(b)
    decreases |a|
  {
    if a == [] {
      assert |b| == |multiset(b)| == 0;
    } else {
      assert a[0] in multiset(b);
      var k :| 0 <= k < |b| && b[k] == a[0];
      PermutationTail(a, b, k);
      SumPermutation(a[1..], b[..k] + b[k + 1..]);
      SumRemove(b, k);
    }
  }

  /** The big-endian value of two octets. */
  function Uint16(hi: byte, lo: byte): nat
  {
    hi * 256 + lo
  }

  /** Two-octet big-endian encoding (Python's `n.to_bytes(2, 'big')`). */
  function Be16(n: nat): (r: seq<byte>)
    requires n < 0x1_0000
    ensures |r| == 2 && r[0] as int * 256 + r[1] == n
  {
    [n / 256, n % 256]
  }

  /** Decoding two octets and encoding the value again gives the same two octets. */
  lemma Be16OfUint16(hi: byte, lo: byte)
    ensures Be16(Uint16(hi, lo)) == [hi, lo]
  {
    var n := Uint16(hi, lo);
    assert n / 256 == hi && n % 256 == lo;
  }

  function Pow256(k: nat): (r: nat)
    ensures r >= 1
  {
    if k == 0 then 1 else 256 * Pow256(k - 1)
  }

  /** Unsigned big-endian value of an octet string (Python's `int.from_bytes(b, 'big')`). */
  function BigEndian(s: seq<byte>): (n: nat)
    ensures n < Pow256(|s|)
  {
    if s == [] then 0 else BigEndian(s[..|s| - 1]) * 256 + s[|s| - 1]
  }

  /** The big-endian value of a concatenation, one part after the other. */
  lemma {:induction false} BigEndianAppend(a: seq<byte>, b: seq<byte>)
    ensures BigEndian(a + b) == BigEndian(a) * Pow256(|b|) + BigEndian(b)
    decreases |b|
  {
    if b == [] {
      assert a + b == a;
    } else {
      var c := b[..|b| - 1];
      var last := b[|b| - 1];
      assert (a + b)[..|a + b| - 1] == a + c;
      assert (a + b)[|a + b| - 1] == last;
      BigEndianAppend(a, c);
      assert BigEndian(a + b) == BigEndian(a + c) * 256 + last;
      assert BigEndian(b) == BigEndian(c) * 256 + last;
      assert Pow256(|b|) == 256 * Pow256(|c|);
      ShiftByte(BigEndian(a), Pow256(|c|), BigEndian(c), last);
    }
  }

  /** (x·p + y)·256 + l regrouped as x·(256·p) + (y·256 + l). */
  lemma ShiftByte(x: int, p: int, y: int, l: int)
    ensures (x * p + y) * 256 + l == x * (256 * p) + (y * 256 + l)
  {
  }

  lemma BigEndianOfTwo(hi: byte, lo: byte)
    ensures BigEndian([hi, lo]) == Uint16(hi, lo)
  {
    assert [hi, lo][..1] == [hi];
    assert [hi][..0] == [];
  }

  /** Python's slice `s[lo:hi]` for non-negative bounds: it never fails and is cut at the end. */
  function Slice<T>(s: seq<T>, lo: nat, hi: nat): (r: seq<T>)
    ensures lo <= hi <= |s| ==> r == s[lo..hi]
    ensures |r| <= |s|
    ensures hi <= lo || |s| <= lo ==> r == []
  {
    var h := if hi <= |s| then hi else |s|;
    var l := if lo <= h then lo else h;
    s[l..h]
  }

  /** Concatenation of a sequence of chunks, in order. */
  function Flatten(chunks: seq<seq<byte>>): (r: seq<byte>)
  {
    if chunks == [] then [] else Flatten(chunks[..|chunks| - 1]) + chunks[|chunks| - 1]
  }

  lemma FlattenStep(chunks: seq<seq<byte>>, j: nat)
    requires j < |chunks|
    ensures Flatten(chunks[..j + 1]) == Flatten(chunks[..j]) + chunks[j]
  {
    assert chunks[..j + 1][..j] == chunks[..j];
  }
}
