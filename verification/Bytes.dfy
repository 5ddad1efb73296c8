// Bytes in memory: writing a run of them, reading it back, and leaving it alone.

module Bytes {
  type Byte = b: int | 0 <= b < 256

  type Memory = map<int, Byte>

  function Write(m: Memory, a: int, bytes: seq<Byte>): (n: Memory)
    ensures forall q :: q in m && !(a <= q < a + |bytes|) ==> q in n && n[q] == m[q]
  {
    m + map q {:trigger q in m} | a <= q < a + |bytes| :: bytes[q - a]
  }

  function Read(m: Memory, a: int, n: nat): seq<int> {
    seq(n, i requires 0 <= i < n => if a + i in m then m[a + i] else 0)
  }

  function Fill(b: Byte, n: nat): seq<Byte> { seq(n, i => b) }

  ghost predicate ByteHolds(m: Memory, a: int, b: Byte) { a in m && m[a] == b }

  // m has the bytes from a on.
  ghost predicate HoldsAt(m: Memory, a: int, bytes: seq<Byte>) {
    forall k :: 0 <= k < |bytes| ==> ByteHolds(m, a + k, bytes[k])
  }

  // [a, a + n) and [b, b + k) have no byte in common.
  ghost predicate Separate(a: int, n: nat, b: int, k: nat) { a + n <= b || b + k <= a }

  lemma Written(m: Memory, a: int, bytes: seq<Byte>)
    ensures HoldsAt(Write(m, a, bytes), a, bytes)
  {
    forall k | 0 <= k < |bytes| ensures ByteHolds(Write(m, a, bytes), a + k, bytes[k]) {
    }
  }

  lemma Untouched(m: Memory, a: int, bytes: seq<Byte>, b: int, more: seq<Byte>)
    requires HoldsAt(m, a, bytes) && Separate(a, |bytes|, b, |more|)
    ensures HoldsAt(Write(m, b, more), a, bytes)
  {
    forall k | 0 <= k < |bytes| ensures ByteHolds(Write(m, b, more), a + k, bytes[k]) {
      assert ByteHolds(m, a + k, bytes[k]);
    }
  }

  lemma ReadBack(m: Memory, a: int, bytes: seq<Byte>, n: nat)
    requires HoldsAt(m, a, bytes) && n <= |bytes|
    ensures Read(m, a, n) == bytes[..n]
  {
    forall k | 0 <= k < n ensures Read(m, a, n)[k] == bytes[k] {
      assert ByteHolds(m, a + k, bytes[k]);
    }
  }

  // Part of what is read is read by itself.
  lemma ReadPart(m: Memory, a: int, n: nat, i: nat, j: nat)
    requires i <= j <= n
    ensures Read(m, a + i, j - i) == Read(m, a, n)[i..j]
  {
  }

  // ---- Numbers --------------------------------------------------------------------------

  // The bytes of a word, lowest first, and back
  function WordBytes(x: nat, n: nat): (s: seq<Byte>)
    ensures |s| == n
  {
    if n == 0 then [] else [x % 256] + WordBytes(x / 256, n - 1)
  }

  function Value(s: seq<int>): int {
    if s == [] then 0 else s[0] + 256 * Value(s[1..])
  }

  function Bound(n: nat): (b: nat)
    ensures b > 0
  {
    if n == 0 then 1 else 256 * Bound(n - 1)
  }

  lemma {:induction false} ValueOfBytes(x: nat, n: nat, bound: nat)
    requires bound == Bound(n) && x < bound
    ensures Value(WordBytes(x, n)) == x
  {
    if n > 0 {
      ValueOfBytes(x / 256, n - 1, Bound(n - 1));
      assert WordBytes(x, n)[1..] == WordBytes(x / 256, n - 1);
    }
  }

  // The integer that the bytes are: if signed, in two's complement
  function Number(data: seq<Byte>, signed: bool): int {
    Value(data) - if signed && data != [] && data[|data| - 1] >= 128 then Bound(|data|) else 0
  }

  // More bytes behind the highest one: zeros, or copies of its sign bit
  function Lengthened(data: seq<Byte>, signed: bool, n: nat): (s: seq<Byte>)
    requires 0 < |data| <= n
    ensures |s| == n && data <= s
  {
    data + Fill(if signed && data[|data| - 1] >= 128 then 255 else 0, n - |data|)
  }

  lemma {:induction false} ValueBounded(s: seq<Byte>)
    ensures 0 <= Value(s) < Bound(|s|)
  {
    if s != [] {
      ValueBounded(s[1..]);
    }
  }

  lemma {:induction false} ValueJoined(s: seq<Byte>, t: seq<Byte>)
    ensures Value(s + t) == Value(s) + Bound(|s|) * Value(t)
  {
    if s == [] {
      assert s + t == t;
    } else {
      assert (s + t)[1..] == s[1..] + t;
      ValueJoined(s[1..], t);
      Scaled(Bound(|s| - 1), Value(t));
    }
  }

  lemma Scaled(b: int, v: int)
    ensures 256 * (b * v) == 256 * b * v
  {
  }

  lemma {:induction false} ValueOfFill(b: Byte, n: nat)
    requires b == 0 || b == 255
    ensures Value(Fill(b, n)) == if b == 0 then 0 else Bound(n) - 1
  {
    if n > 0 {
      ValueOfFill(b, n - 1);
      assert Fill(b, n)[1..] == Fill(b, n - 1);
    }
  }

  lemma {:induction false} BoundSum(m: nat, n: nat)
    ensures Bound(m + n) == Bound(m) * Bound(n)
  {
    if m > 0 {
      BoundSum(m - 1, n);
      Scaled(Bound(m - 1), Bound(n));
    }
  }

  // Lengthening keeps the number, as far as n bytes can tell it.
  lemma LengthenedIs(data: seq<Byte>, signed: bool, n: nat)
    requires 0 < |data| <= n
    ensures Value(Lengthened(data, signed, n)) == Number(data, signed) % Bound(n)
  {
    hide Value, Bound;
    var negative := signed && data[|data| - 1] >= 128;
    var b: Byte := if negative then 255 else 0;
    var m, k := Bound(|data|), Bound(n - |data|);
    ValueBounded(data);
    ValueBounded(Lengthened(data, signed, n));
    ValueJoined(data, Fill(b, n - |data|));
    ValueOfFill(b, n - |data|);
    BoundSum(|data|, n - |data|);
    LessOne(m, k);
    Modulo(Value(Lengthened(data, signed, n)), Number(data, signed), Bound(n));
  }

  lemma LessOne(m: int, k: int)
    ensures m * (k - 1) == m * k - m && m * 0 == 0
  {
  }

  lemma Modulo(x: int, y: int, n: int)
    requires 0 <= x < n && (x == y || x == y + n)
    ensures x == y % n
  {
  }
}
