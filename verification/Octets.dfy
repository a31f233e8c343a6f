/** Bytes, little-endian integers and concatenation: the vocabulary shared by
    every other module. */
module Octets {

  type byte = x: int | 0 <= x < 256
  type Bytes = seq<byte>

  const TWO32: nat := 0x1_0000_0000
  const TWO64: nat := 0x1_0000_0000_0000_0000

  /** `size_t`, `unsigned long long` and 8-byte nonces. */
  type u64 = x: int | 0 <= x < 0x1_0000_0000_0000_0000

  /** `sodium_increment` on an eight-byte nonce, `++` on a counter. */
  function Inc(n: u64): u64
  {
    (n + 1) % TWO64
  }

  function Dec(n: u64): u64
  {
    (n - 1) % TWO64
  }

  datatype Option<+T> = None | Some(value: T)

  function Pow256(k: nat): (r: nat)
    ensures r >= 1
  {
    if k == 0 then 1 else 256 * Pow256(k - 1)
  }

  lemma Pow256Values()
    ensures Pow256(4) == TWO32
    ensures Pow256(8) == TWO64
  {
    assert Pow256(2) == 256 * Pow256(1) == 65536;
    assert Pow256(4) == 256 * Pow256(3) == 256 * (256 * Pow256(2));
    assert Pow256(6) == 256 * Pow256(5) == 256 * (256 * Pow256(4));
    assert Pow256(8) == 256 * Pow256(7) == 256 * (256 * Pow256(6));
  }

  /** The low `k` bytes of `n`, least significant first. */
  function LE(n: nat, k: nat): (b: Bytes)
    ensures |b| == k
  {
    if k == 0 then [] else [n % 256] + LE(n / 256, k - 1)
  }

  function FromLE(b: Bytes): (n: nat)
    ensures n < Pow256(|b|)
  {
    if b == [] then 0 else b[0] + 256 * FromLE(b[1..])
  }

  lemma {:induction false} FromLEofLE(n: nat, k: nat)
    requires n < Pow256(k)
    ensures FromLE(LE(n, k)) == n
  {
    if k > 0 {
      assert LE(n, k)[1..] == LE(n / 256, k - 1);
      FromLEofLE(n / 256, k - 1);
    }
  }

  /** A 64-bit length or nonce survives its eight bytes on the wire. */
  lemma LengthRoundTrip(n: u64)
    ensures FromLE(LE(n, 8)) == n
  {
    Pow256Values();
    FromLEofLE(n, 8);
  }

  /** The four bytes of a 32-bit `int`, and the `int` that four bytes hold. */
  type Word = b: Bytes | |b| == 4 witness [0, 0, 0, 0]

  function EncInt(v: int): Word
  {
    LE(v % TWO32, 4)
  }

  function DecInt(w: Word): int
  {
    var n := FromLE(w);
    if n < 0x8000_0000 then n else n - TWO32
  }

  lemma IntRoundTrip(v: int)
    requires -0x8000_0000 <= v < 0x8000_0000
    ensures DecInt(EncInt(v)) == v
  {
    Pow256Values();
    FromLEofLE(v % TWO32, 4);
  }

  function Flatten(parts: seq<Bytes>): Bytes
  {
    if parts == [] then [] else parts[0] + Flatten(parts[1..])
  }

  lemma {:induction false} FlattenConcat(a: seq<Bytes>, b: seq<Bytes>)
    ensures Flatten(a + b) == Flatten(a) + Flatten(b)
  {
    if a == [] {
      assert a + b == b;
    } else {
      assert (a + b)[1..] == a[1..] + b;
      FlattenConcat(a[1..], b);
    }
  }

  /** Dropping whole parts at the end leaves a prefix. */
  lemma FlattenPrefix(a: seq<Bytes>, k: nat)
    requires k <= |a|
    ensures Flatten(a[..k]) <= Flatten(a)
  {
    assert a == a[..k] + a[k..];
    FlattenConcat(a[..k], a[k..]);
  }

  function Zeros(n: nat): (b: Bytes)
    ensures |b| == n
  {
    seq(n, i => 0)
  }

  /** What a C string reads from a buffer: everything before the first NUL. */
  function CString(b: Bytes): (s: Bytes)
    ensures 0 !in s
    ensures |s| <= |b|
  {
    if b == [] || b[0] == 0 then [] else [b[0]] + CString(b[1..])
  }

  /** Without a NUL in its way the C string reads on. */
  lemma {:induction false} CStringRuns(s: Bytes, rest: Bytes)
    requires 0 !in s
    ensures CString(s + rest) == s + CString(rest)
  {
    if s == [] {
      assert s + rest == rest;
    } else {
      assert (s + rest)[1..] == s[1..] + rest;
      CStringRuns(s[1..], rest);
    }
  }

  lemma {:induction false} CStringStops(s: Bytes, rest: Bytes)
    requires 0 !in s
    ensures CString(s + [0] + rest) == s
  {
    if s == [] {
      assert s + [0] + rest == [0] + rest;
    } else {
      assert (s + [0] + rest)[1..] == s[1..] + [0] + rest;
      CStringStops(s[1..], rest);
    }
  }

  /** How often `x` is in a queue. */
  function Count(q: seq<int>, x: int): nat
  {
    if q == [] then 0 else (if q[0] == x then 1 else 0) + Count(q[1..], x)
  }

  lemma {:induction false} CountSnoc(q: seq<int>, x: int, y: int)
    ensures Count(q + [x], y) == Count(q, y) + if x == y then 1 else 0
  {
    if q == [] {
      assert q + [x] == [x];
    } else {
      assert (q + [x])[1..] == q[1..] + [x];
      CountSnoc(q[1..], x, y);
    }
  }
}
