/** Key routing with 32-bit FNV-1a (internal/broker/broker.go:338-346). */
module Partitioner {
  import opened Messages

  const TWO32: int := 0x1_0000_0000

  /** A 32-bit word. */
  type Word = w: int | 0 <= w < TWO32

  const OFFSET_BASIS: Word := 2166136261
  const PRIME: int := 16777619

  /** In bits: exclusive or with a byte leaves all but the low eight bits of a word alone. */
  lemma XorLowByte(h: bv32, b: bv8)
    ensures (h ^ (b as bv32)) >> 8 == h >> 8
    ensures ((h ^ (b as bv32)) & 0xFF) as bv8 == ((h & 0xFF) as bv8) ^ b
  {
  }

  /** The low eight bits of a word. */
  function Low(h: Word): bv8 {
    (h % 256) as bv8
  }

  /** Exclusive or with a byte, which touches the low eight bits of the word only, then a 32-bit multiplication. */
  function HashByte(h: Word, b: bv8): Word {
    (h - h % 256 + (Low(h) ^ b) as int) * PRIME % TWO32
  }

  /** The hash as a fold over the key, most recent byte outermost. */
  function Hash(key: Bytes): Word {
    if key == [] then OFFSET_BASIS
    else HashByte(Hash(key[..|key| - 1]), key[|key| - 1])
  }

  function PartitionOf(key: Bytes, n: nat): nat {
    if key == [] || n <= 1 then 0 else Hash(key) % n
  }

  lemma InRange(key: Bytes, n: nat)
    requires n >= 1
    ensures PartitionOf(key, n) < n
  {
  }

  /** The hasher's byte loop followed by the reduction, as the source runs it. */
  method PartitionFor(key: Bytes, n: nat) returns (p: nat)
    ensures p == PartitionOf(key, n) && (n >= 1 ==> p < n)
  {
    if |key| == 0 || n <= 1 {
      return 0;
    }
    var h := OFFSET_BASIS;
    for i := 0 to |key|
      invariant h == Hash(key[..i])
    {
      assert key[..i + 1][..i] == key[..i];
      h := HashByte(h, key[i]);
    }
    assert key[..|key|] == key;
    p := h % n;
  }

  // ---- Known answers ----

  lemma HashSnoc(key: Bytes, b: bv8)
    ensures Hash(key + [b]) == HashByte(Hash(key), b)
  {
    assert (key + [b])[..|key|] == key;
  }

  /** "foobar" in ASCII. */
  const FOOBAR: Bytes := [0x66, 0x6f, 0x6f, 0x62, 0x61, 0x72]

  /** "social" in ASCII. */
  const SOCIAL: Bytes := [0x73, 0x6f, 0x63, 0x69, 0x61, 0x6c]

  lemma ByteAgain(low: bv8)
    ensures (low as int) as bv8 == low
  {
  }

  lemma LowIs(w: Word, high: int, low: bv8)
    requires w == 256 * high + low as int
    ensures Low(w) == low && w - w % 256 == 256 * high
  {
    ModIs(w, 256, high, low as int);
    ByteAgain(low);
  }

  /** One step, given the word's high and low part, the exclusive or, and the overflow of the product. */
  lemma StepIs(w: Word, high: int, low: bv8, b: bv8, x: bv8, q: int, h: Word)
    requires w == 256 * high + low as int && low ^ b == x && (256 * high + x as int) * PRIME == q * TWO32 + h
    ensures HashByte(w, b) == h
  {
    LowIs(w, high, low);
    ModIs((256 * high + x as int) * PRIME, TWO32, q, h);
  }

  /** The hash, given every intermediate value. */
  lemma {:induction false} HashSteps(key: Bytes, hs: seq<Word>)
    requires |hs| == |key| + 1 && hs[0] == OFFSET_BASIS
    requires forall i :: 0 <= i < |key| ==> HashByte(hs[i], key[i]) == hs[i + 1]
    ensures Hash(key) == hs[|key|]
  {
    if key != [] {
      HashSteps(key[..|key| - 1], hs[..|key|]);
    }
  }

  /** Published FNV-1a values: of the empty string, "a" and "foobar". */
  lemma KnownHashes(key: Bytes)
    ensures key == [] ==> Hash(key) == 0x811c9dc5
    ensures key == [0x61] ==> Hash(key) == 0xe40c292c
    ensures key == FOOBAR ==> Hash(key) == 0xbf9cf968
  {
    if key == [0x61] {
      LetterASteps(key);
    }
    if key == FOOBAR {
      FoobarSteps(key);
    }
  }

  lemma LetterASteps(key: Bytes)
    requires key == [0x61]
    ensures Hash(key) == 0xe40c292c
  {
    StepIs(0x811c9dc5, 0x811c9d, 0xc5, 0x61, 0xa4, 0x811d68, 0xe40c292c);
    HashSteps(key, [0x811c9dc5, 0xe40c292c]);
  }

  lemma FoobarSteps(key: Bytes)
    requires key == FOOBAR
    ensures Hash(key) == 0xbf9cf968
  {
    StepIs(0x811c9dc5, 0x811c9d, 0xc5, 0x66, 0xa3, 0x811d68, 0xe30c2799);
    StepIs(0xe30c2799, 0xe30c27, 0x99, 0x6f, 0xf6, 0xe30d8d, 0x6222e842);
    StepIs(0x6222e842, 0x6222e8, 0x42, 0x6f, 0x2d, 0x622382, 0xa9f37ed7);
    StepIs(0xa9f37ed7, 0xa9f37e, 0xd7, 0x62, 0xb5, 0xa9f48a, 0x3f5076ef);
    StepIs(0x3f5076ef, 0x3f5076, 0xef, 0x61, 0x8e, 0x3f50da, 0x39aaa18a);
    StepIs(0x39aaa18a, 0x39aaa1, 0x8a, 0x72, 0xf8, 0x39aafc, 0xbf9cf968);
    HashSteps(key, [0x811c9dc5, 0xe30c2799, 0x6222e842, 0xa9f37ed7, 0x3f5076ef, 0x39aaa18a, 0xbf9cf968]);
  }

  /** The category "social" goes to partition 2 of 4. */
  lemma SocialGoesToTwo(key: Bytes)
    requires key == SOCIAL
    ensures Hash(key) == 0xb2ecd6d2 && PartitionOf(key, 4) == 2
  {
    StepIs(0x811c9dc5, 0x811c9d, 0xc5, 0x73, 0xb6, 0x811d68, 0xf60c4582);
    StepIs(0xf60c4582, 0xf60c45, 0x82, 0x6f, 0xed, 0xf60dc9, 0x42521417);
    StepIs(0x42521417, 0x425214, 0x17, 0x63, 0x74, 0x42527c, 0xdb36329c);
    StepIs(0xdb36329c, 0xdb3632, 0x9c, 0x69, 0xf5, 0xdb378c, 0x0b5237af);
    StepIs(0x0b5237af, 0x0b5237, 0xaf, 0x61, 0xce, 0x0b5249, 0xa06dd94a);
    StepIs(0xa06dd94a, 0xa06dd9, 0x4a, 0x6c, 0x26, 0xa06ed5, 0xb2ecd6d2);
    HashSteps(key, [0x811c9dc5, 0xf60c4582, 0x42521417, 0xdb36329c, 0x0b5237af, 0xa06dd94a, 0xb2ecd6d2]);
  }

  // ---- Different partition counts ----

  lemma NoMultiple(d: int, n: int)
    requires -n < d * n < n
    ensures d == 0
  {
    if d >= 1 {
      TimesMonotone(1, d, n);
    }
    if d <= -1 {
      TimesMonotone(d, -1, n);
    }
  }

  lemma TimesMonotone(a: int, b: int, n: int)
    requires a <= b && n >= 0
    ensures a * n <= b * n
  {
  }

  lemma ModIs(x: int, n: int, q: int, r: int)
    requires 0 <= r < n && x == q * n + r
    ensures x % n == r
  {
    var d := q - x / n;
    assert x == (x / n) * n + x % n;
    assert d * n == x % n - r;
    NoMultiple(d, n);
  }

  lemma ModMod(x: int, n: int, m: int)
    requires n >= 1 && m >= 1
    ensures n * m >= 1 && (x % (n * m)) % n == x % n
  {
    assert n * m >= 1;
    var k, y := x / (n * m), x % (n * m);
    assert x == k * (n * m) + y;
    assert y == (y / n) * n + y % n;
    assert k * (n * m) == (k * m) * n;
    assert (k * m) * n + (y / n) * n == (k * m + y / n) * n;
    ModIs(x, n, k * m + y / n, y % n);
  }

  /**
   Splitting every partition m ways refines the routing; and with 2^32 partitions or any multiple of that the
   partition is the hash itself. Together these fix the partition for every count.
   */
  lemma Refines(key: Bytes, n: nat, m: nat)
    requires n >= 1 && m >= 1
    ensures PartitionOf(key, n * m) % n == PartitionOf(key, n)
    ensures key != [] ==> PartitionOf(key, TWO32 * m) == Hash(key)
    ensures key == [] ==> PartitionOf(key, n) == 0
  {
    assert n * m >= 1;
    ModMod(Hash(key), n, m);
    if n * m == 1 {
      assert n == 1;
    }
    ModIs(Hash(key), TWO32 * m, 0, Hash(key));
  }

  // ---- How evenly keys spread ----

  lemma LowByte(h: Word, b: bv8)
    ensures HashByte(h, b) % 256 == (Low(h) ^ b) as int * 147 % 256
  {
    LowProduct(h / 256, (Low(h) ^ b) as int);
  }

  lemma LowProduct(q: int, x: int)
    ensures (256 * q + x) * PRIME % TWO32 % 256 == x * 147 % 256
  {
    var y := (256 * q + x) * PRIME;
    ModMod(y, 256, 0x100_0000);
    ModIs(y, 256, q * PRIME + x * 65537 + x * 147 / 256, x * 147 % 256);
  }

  lemma Undo(x: int, v: int, a: int, c: int)
    requires 0 <= x < 256 && x * a % 256 == v && a * c == 22785
    ensures v * c % 256 == x
  {
    var k := x * a / 256;
    assert v == x * a - 256 * k;
    assert v * c == x * (a * c) - 256 * k * c;
    ModIs(v * c, 256, 89 * x - k * c, x);
  }

  /** 147 is odd, so the product of the low bytes can be undone: 147 * 155 leaves remainder 1. */
  lemma LowByteInverse(x: int, v: int)
    requires 0 <= x < 256 && 0 <= v < 256
    ensures x * 147 % 256 == v <==> x == v * 155 % 256
  {
    if x * 147 % 256 == v {
      Undo(x, v, 147, 155);
    }
    if x == v * 155 % 256 {
      Undo(v, x, 155, 147);
    }
  }

  lemma XorTwice(x: bv8, b: bv8, w: bv8)
    ensures x ^ b == w <==> b == x ^ w
  {
  }

  lemma SameByte(a: bv8, b: bv8)
    ensures a as int == b as int <==> a == b
  {
  }

  lemma {:induction false} ByteOf(v: nat) returns (w: bv8)
    requires v < 256
    ensures w as int == v
  {
    if v == 0 {
      w := 0;
    } else {
      w := ByteOf(v - 1);
      w := NextByte(w);
    }
  }

  lemma NextByte(w: bv8) returns (next: bv8)
    requires w as int < 255
    ensures next as int == w as int + 1
  {
    next := w + 1;
  }

  lemma ByteLaw(x: bv8, b: bv8, v: int, w: bv8)
    requires 0 <= v < 256 && w as int == v * 155 % 256
    ensures (x ^ b) as int * 147 % 256 == v <==> b == x ^ w
  {
    LowByteInverse((x ^ b) as int, v);
    SameByte(x ^ b, w);
    XorTwice(x, b, w);
  }

  /** The low byte of a hash, as a function of the low byte before the last key byte and of that byte. */
  function Mixed(x: bv8, b: bv8): int {
    (x ^ b) as int * 147 % 256
  }

  lemma ByteFor(x: bv8, v: int) returns (last: bv8)
    requires 0 <= v < 256
    ensures forall b: bv8 :: Mixed(x, b) == v <==> b == last
  {
    var w := ByteOf(v * 155 % 256);
    last := x ^ w;
    forall b: bv8
      ensures Mixed(x, b) == v <==> b == last
    {
      ByteLaw(x, b, v, w);
    }
  }

  /** The low byte of the hash of a key with one more byte. */
  function LastByte(key: Bytes, b: bv8): int {
    Hash(key + [b]) % 256
  }

  lemma LastHash(key: Bytes, b: bv8)
    ensures LastByte(key, b) == Mixed(Low(Hash(key)), b)
  {
    HashSnoc(key, b);
    LowByte(Hash(key), b);
  }

  /** Appending each of the 256 bytes gives each of the 256 low hash bytes once. */
  lemma LastByteOnce(key: Bytes, v: int) returns (last: bv8)
    requires 0 <= v < 256
    ensures forall b: bv8 :: LastByte(key, b) == v <==> b == last
  {
    last := ByteFor(Low(Hash(key)), v);
    forall b: bv8
      ensures LastByte(key, b) == v <==> b == last
    {
      LastHash(key, b);
    }
  }

  lemma NextResidue(v: int, n: nat, p: nat, k: nat)
    requires n >= 1 && p < n
    ensures v < (k + 1) * n && v % n == p <==> (v < k * n && v % n == p) || v == k * n + p
  {
    assert (k + 1) * n == k * n + n;
    if k * n <= v < k * n + n {
      ModIs(v, n, k, v - k * n);
    }
    ModIs(k * n + p, n, k, p);
  }

  /** The last bytes whose hashes end in one of the first `k` bytes that leave remainder `p`. */
  lemma {:induction false} LastBytes(key: Bytes, n: nat, p: nat, k: nat) returns (bytes: set<bv8>)
    requires n >= 1 && p < n && k * n <= 256
    ensures forall b: bv8 :: b in bytes <==> LastByte(key, b) < k * n && LastByte(key, b) % n == p
    ensures |bytes| == k
  {
    bytes := {};
    if k > 0 {
      assert k * n == (k - 1) * n + n;
      var rest := LastBytes(key, n, p, k - 1);
      var last := LastByteOnce(key, (k - 1) * n + p);
      assert LastByte(key, last) == (k - 1) * n + p;
      bytes := rest + {last};
      forall b: bv8
        ensures b in bytes <==> LastByte(key, b) < k * n && LastByte(key, b) % n == p
      {
        NextResidue(LastByte(key, b), n, p, k - 1);
      }
    }
  }

  lemma PartitionByLowByte(key: Bytes, n: nat, m: nat)
    requires key != [] && n * m == 256
    ensures n >= 1 && PartitionOf(key, n) == (Hash(key) % 256) % n
  {
    assert n >= 1 && m >= 1;
    ModMod(Hash(key), n, m);
  }

  /**
   Keys that differ in their last byte spread evenly: whatever comes before it, and for every partition count n that
   divides 256, each of the n partitions gets exactly 256 / n of the 256 last bytes.
   */
  lemma LastByteSpreads(key: Bytes, n: nat, m: nat, p: nat) returns (bytes: set<bv8>)
    requires n * m == 256 && p < n
    ensures forall b: bv8 :: b in bytes <==> PartitionOf(key + [b], n) == p
    ensures |bytes| == m
  {
    assert m * n == 256;
    bytes := LastBytes(key, n, p, m);
    forall b: bv8
      ensures PartitionOf(key + [b], n) == p <==> b in bytes
    {
      PartitionByLowByte(key + [b], n, m);
    }
  }
}
