/** Bytes and fixed-width big-endian numbers. */
module Bytes {
  type Byte = x: int | 0 <= x < 256

  function Pow256(k: nat): (r: nat)
    ensures r >= 1
  {
    if k == 0 then 1 else 256 * Pow256(k - 1)
  }

  /** The k-byte big-endian encoding of n, as struct.pack writes it. */
  function BigEndian(n: nat, k: nat): (s: seq<Byte>)
    ensures |s| == k
  {
    if k == 0 then [] else BigEndian(n / 256, k - 1) + [n % 256]
  }

  function Value(s: seq<Byte>): nat {
    if s == [] then 0 else Value(s[..|s| - 1]) * 256 + s[|s| - 1]
  }

  lemma {:induction false} ValueBound(s: seq<Byte>)
    ensures Value(s) < Pow256(|s|)
  {
    if s != [] {
      ValueBound(s[..|s| - 1]);
    }
  }

  /** A number that fits its width is read back unchanged. */
  lemma {:induction false} ValueOfBigEndian(n: nat, k: nat)
    requires n < Pow256(k)
    ensures Value(BigEndian(n, k)) == n
  {
    if k > 0 {
      ValueOfBigEndian(n / 256, k - 1);
      assert BigEndian(n, k)[..k - 1] == BigEndian(n / 256, k - 1);
    }
  }

  /** The first byte weighs most. */
  lemma {:induction false} FirstByteWeighsMost(b: Byte, s: seq<Byte>)
    ensures Value([b] + s) == b * Pow256(|s|) + Value(s)
  {
    if s != [] {
      FirstByteWeighsMost(b, s[..|s| - 1]);
      var init := s[..|s| - 1];
      assert ([b] + s)[..|s|] == [b] + init;
      calc {
        Value([b] + s);
        Value([b] + init) * 256 + s[|s| - 1];
        (b * Pow256(|init|) + Value(init)) * 256 + s[|s| - 1];
        b * (Pow256(|init|) * 256) + Value(s);
      }
    }
  }

  /** Overwrites a stretch of an array. */
  method Blit(buf: array<Byte>, at: nat, data: seq<Byte>)
    requires at + |data| <= buf.Length
    modifies buf
    ensures buf[..] == old(buf[..at]) + data + old(buf[at + |data|..])
    ensures forall k :: 0 <= k < buf.Length && !(at <= k < at + |data|) ==> buf[k] == old(buf[k])
  {
    var i := 0;
    while i < |data|
      invariant 0 <= i <= |data|
      invariant forall k :: 0 <= k < i ==> buf[at + k] == data[k]
      invariant forall k :: 0 <= k < buf.Length && !(at <= k < at + i) ==> buf[k] == old(buf[k])
    {
      buf[at + i] := data[i];
      i := i + 1;
    }
  }
}
