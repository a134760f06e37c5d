/** Messages as bit streams, the least significant bit of each byte first. */
module BitStream {

  function Bits(b: bv8): seq<bool> {
    [b & 0x01 != 0, b & 0x02 != 0, b & 0x04 != 0, b & 0x08 != 0,
     b & 0x10 != 0, b & 0x20 != 0, b & 0x40 != 0, b & 0x80 != 0]
  }

  function Stream(m: seq<bv8>): seq<bool> {
    if m == [] then [] else Stream(m[..|m| - 1]) + Bits(m[|m| - 1])
  }

  lemma BitsUnique(a: bv8, b: bv8)
    ensures Bits(a) == Bits(b) <==> a == b
  {
    if Bits(a) == Bits(b) {
      assert forall k :: 0 <= k < 8 ==> Bits(a)[k] == Bits(b)[k];
      SameBits(a, b);
    }
  }

  lemma SameBits(a: bv8, b: bv8)
    requires Bits(a)[0] == Bits(b)[0] && Bits(a)[1] == Bits(b)[1] && Bits(a)[2] == Bits(b)[2] &&
             Bits(a)[3] == Bits(b)[3]
    requires Bits(a)[4] == Bits(b)[4] && Bits(a)[5] == Bits(b)[5] && Bits(a)[6] == Bits(b)[6] &&
             Bits(a)[7] == Bits(b)[7]
    ensures a == b
  {
  }

  lemma {:induction false} StreamLength(m: seq<bv8>)
    ensures |Stream(m)| == 8 * |m|
  {
    if m != [] { StreamLength(m[..|m| - 1]); }
  }

  lemma StreamOne(b: bv8)
    ensures Stream([b]) == Bits(b)
  {
    assert [b][..0] == [];
  }

  lemma {:induction false} StreamAppend(m: seq<bv8>, n: seq<bv8>)
    ensures Stream(m + n) == Stream(m) + Stream(n) && |Stream(m)| == 8 * |m|
  {
    StreamLength(m);
    if n == [] {
      assert m + n == m && Stream(m) + [] == Stream(m);
    } else {
      var front, last := n[..|n| - 1], n[|n| - 1];
      StreamAppend(m, front);
      AppendFront(m, n);
      Associates(Stream(m), Stream(front), Bits(last));
    }
  }

  lemma AppendFront(m: seq<bv8>, n: seq<bv8>)
    requires n != []
    ensures (m + n)[..|m + n| - 1] == m + n[..|n| - 1] && (m + n)[|m + n| - 1] == n[|n| - 1]
  {
  }

  lemma Associates(a: seq<bool>, b: seq<bool>, c: seq<bool>)
    ensures a + (b + c) == a + b + c
  {
  }

  /** Byte i of the message is the i-th group of eight bits. */
  lemma StreamAt(m: seq<bv8>, i: nat)
    requires i < |m|
    ensures |Stream(m)| == 8 * |m| && Stream(m)[8 * i..8 * i + 8] == Bits(m[i])
  {
    StreamAppend(m[..i], [m[i]]);
    StreamAppend(m[..i] + [m[i]], m[i + 1..]);
    assert m == m[..i] + [m[i]] + m[i + 1..];
    StreamOne(m[i]);
  }

  lemma StreamUnique(m: seq<bv8>, n: seq<bv8>)
    requires |m| == |n|
    ensures Stream(m) == Stream(n) <==> m == n
  {
    if Stream(m) == Stream(n) {
      forall i | 0 <= i < |m| ensures m[i] == n[i] {
        StreamAt(m, i);
        StreamAt(n, i);
        BitsUnique(m[i], n[i]);
      }
    }
  }

  /** The streams differ at most in the `n` bits from bit `at` on. */
  ghost predicate DifferWithin(s: seq<bool>, t: seq<bool>, at: nat, n: nat) {
    at + n <= |s| == |t| && s[..at] == t[..at] && s[at + n..] == t[at + n..]
  }

  lemma StreamCut(m: seq<bv8>, at: nat)
    requires at <= |m|
    ensures |Stream(m)| == 8 * |m| && Stream(m)[..8 * at] == Stream(m[..at]) && Stream(m)[8 * at..] == Stream(m[at..])
  {
    StreamAppend(m[..at], m[at..]);
    assert m == m[..at] + m[at..];
  }

  /** Changed bytes are a burst of their bits. */
  lemma BytesDifferWithin(m: seq<bv8>, n: seq<bv8>, at: nat, count: nat)
    requires at + count <= |m| == |n| && m[..at] == n[..at] && m[at + count..] == n[at + count..]
    ensures DifferWithin(Stream(m), Stream(n), 8 * at, 8 * count)
  {
    SameHead(m, n, at);
    SameTail(m, n, at + count);
  }

  lemma SameHead(m: seq<bv8>, n: seq<bv8>, at: nat)
    requires at <= |m| == |n| && m[..at] == n[..at]
    ensures |Stream(m)| == |Stream(n)| == 8 * |m| && Stream(m)[..8 * at] == Stream(n)[..8 * at]
  {
    StreamCut(m, at);
    StreamCut(n, at);
  }

  lemma SameTail(m: seq<bv8>, n: seq<bv8>, at: nat)
    requires at <= |m| == |n| && m[at..] == n[at..]
    ensures |Stream(m)| == |Stream(n)| == 8 * |m| && Stream(m)[8 * at..] == Stream(n)[8 * at..]
  {
    StreamCut(m, at);
    StreamCut(n, at);
  }
}
