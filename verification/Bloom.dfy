/**
 * The Bloom filter (bloom/bloom.go) and the unique-visitor counter built on it
 * (ginmetrics/metricmiddle.go). Strings are their bytes; a machine word wraps at 2^32 or 2^64.
 */
module Bloom {

  type Byte = b: nat | b < 256

  type Bytes = seq<Byte>

  function Pow2(n: nat): (p: nat)
    ensures p > 0
  {
    if n == 0 then 1 else 2 * Pow2(n - 1)
  }

  /** 2 << 24 */
  const SIZE: nat := 0x200_0000

  const SEEDS: seq<nat> := [7, 11, 13, 31, 37, 61]

  /** The number of values of a word: words have 32 or 64 bits. */
  predicate IsWord(w: nat) {
    w == 0x1_0000_0000 || w == 0x1_0000_0000_0000_0000
  }

  // ---- bit masks ----

  /** The bitwise `&`. */
  function And(a: nat, b: nat): nat {
    if a == 0 || b == 0 then 0 else 2 * And(a / 2, b / 2) + (a % 2) * (b % 2)
  }

  lemma HalfModulo(x: nat, p: nat)
    requires p > 0
    ensures x % (2 * p) == 2 * (x / 2 % p) + x % 2
  {
    var q, r := x / 2 / p, x / 2 % p;
    assert x == (2 * p) * q + (2 * r + x % 2);
    Remainder(x, 2 * p, q, 2 * r + x % 2);
  }

  lemma Remainder(x: nat, p: nat, q: nat, r: nat)
    requires p > 0 && r < p && x == p * q + r
    ensures x % p == r
  {
    var d := x / p;
    assert p * d <= x < p * d + p;
    assert d < q ==> p * (d + 1) <= p * q;
    assert q < d ==> p * (q + 1) <= p * d;
  }

  lemma AndOdd(p: nat, x: nat)
    requires p > 0
    ensures And(2 * p - 1, x) == 2 * And(p - 1, x / 2) + x % 2
  {
    assert (2 * p - 1) / 2 == p - 1 && (2 * p - 1) % 2 == 1;
  }

  /** Masking with 2^n - 1 is the remainder modulo 2^n. */
  lemma {:induction false} MaskIsRemainder(n: nat, x: nat)
    ensures And(Pow2(n) - 1, x) == x % Pow2(n)
  {
    if n > 0 {
      MaskIsRemainder(n - 1, x / 2);
      AndOdd(Pow2(n - 1), x);
      HalfModulo(x, Pow2(n - 1));
    }
  }

  lemma MaskOfSize(x: nat)
    ensures And(SIZE - 1, x) == x % SIZE
  {
    assert Pow2(5) == 32;
    assert Pow2(10) == 32 * Pow2(5);
    assert Pow2(15) == 32 * Pow2(10);
    assert Pow2(20) == 32 * Pow2(15);
    assert Pow2(25) == 32 * Pow2(20);
    MaskIsRemainder(25, x);
  }

  // ---- the hash ----

  /** The polynomial over the bytes, without any wrapping. */
  function Polynomial(value: Bytes, seed: nat): nat {
    if value == [] then 0 else Polynomial(value[..|value| - 1], seed) * seed + value[|value| - 1]
  }

  function HashOf(value: Bytes, seed: nat): nat {
    Polynomial(value, seed) % SIZE
  }

  /** x and y differ by a multiple of the table size. */
  predicate Congruent(x: int, y: int) {
    x % SIZE == y % SIZE
  }

  lemma MultiplesVanish(x: int, k: int)
    ensures Congruent(x + SIZE * k, x)
  {
  }

  lemma WrappingIsCongruent(x: nat, w: nat)
    requires IsWord(w)
    ensures Congruent(x % w, x)
  {
    var q := x / w;
    if w == 0x1_0000_0000 {
      assert w == SIZE * 128;
      MultiplesVanish(x % w, 128 * q);
    } else {
      assert w == SIZE * 0x80_0000_0000;
      MultiplesVanish(x % w, 0x80_0000_0000 * q);
    }
  }

  lemma StepIsCongruent(x: nat, y: nat, seed: nat, b: nat)
    requires Congruent(x, y)
    ensures Congruent(x * seed + b, y * seed + b)
  {
    var k := x / SIZE - y / SIZE;
    assert x == y + SIZE * k;
    assert x * seed + b == y * seed + b + SIZE * (k * seed);
    MultiplesVanish(y * seed + b, k * seed);
  }

  /** One round of the loop: the product wraps, and so does the sum. */
  lemma RoundIsCongruent(x: nat, y: nat, seed: nat, b: nat, w: nat)
    requires IsWord(w) && Congruent(x, y)
    ensures Congruent((x * seed % w + b) % w, y * seed + b)
  {
    StepIsCongruent(x, y, seed, 0);
    WrappingIsCongruent(x * seed, w);
    StepIsCongruent(x * seed % w, y * seed, 1, b);
    WrappingIsCongruent(x * seed % w + b, w);
  }

  /** The wrapping loop computes the exact polynomial modulo 2^25, whatever the word size. */
  method Hash(value: Bytes, seed: nat, w: nat) returns (h: nat)
    requires IsWord(w)
    ensures h == HashOf(value, seed)
  {
    var result: nat := 0;
    for i := 0 to |value|
      invariant Congruent(result, Polynomial(value[..i], seed))
    {
      assert value[..i + 1][..i] == value[..i];
      RoundIsCongruent(result, Polynomial(value[..i], seed), seed, value[i], w);
      result := (result * seed % w + value[i]) % w;
    }
    assert value[..|value|] == value;
    MaskOfSize(result);
    h := And(SIZE - 1, result);
  }

  // ---- the filter ----

  /** The bits of one value. */
  function Bits(value: Bytes): set<nat> {
    set s | s in SEEDS :: HashOf(value, s)
  }

  /** Six bits, one for each seed. */
  lemma SixBits(value: Bytes)
    ensures Bits(value) == {HashOf(value, 7), HashOf(value, 11), HashOf(value, 13), HashOf(value, 31),
                            HashOf(value, 37), HashOf(value, 61)}
  {
    assert SEEDS[0] == 7 && SEEDS[1] == 11 && SEEDS[2] == 13 && SEEDS[3] == 31 && SEEDS[4] == 37 && SEEDS[5] == 61;
  }

  predicate Member(bits: set<nat>, value: Bytes) {
    value != [] && Bits(value) <= bits
  }

  class BloomFilter {
    var bits: set<nat>
    const word: nat

    ghost predicate Valid() reads this {
      IsWord(word) && forall b | b in bits :: b < SIZE
    }

    constructor (word: nat)
      requires IsWord(word)
      ensures Valid() && bits == {}
    {
      this.word := word;
      bits := {};
    }

    method Add(value: Bytes)
      requires Valid()
      modifies this
      ensures Valid() && bits == old(bits) + Bits(value)
    {
      for i := 0 to |SEEDS|
        invariant bits == old(bits) + set s | s in SEEDS[..i] :: HashOf(value, s)
      {
        var h := Hash(value, SEEDS[i], word);
        bits := bits + {h};
        assert SEEDS[..i + 1] == SEEDS[..i] + [SEEDS[i]];
      }
      assert SEEDS[..|SEEDS|] == SEEDS;
    }

    method Contains(value: Bytes) returns (found: bool)
      requires Valid()
      ensures found <==> Member(bits, value)
    {
      if value == [] {
        return false;
      }
      for i := 0 to |SEEDS|
        invariant forall s | s in SEEDS[..i] :: HashOf(value, s) in bits
      {
        var h := Hash(value, SEEDS[i], word);
        assert SEEDS[i] in SEEDS && h in Bits(value);
        if h !in bits {
          return false;
        }
        assert SEEDS[..i + 1] == SEEDS[..i] + [SEEDS[i]];
      }
      assert SEEDS[..|SEEDS|] == SEEDS;
      return true;
    }
  }

  /** The bits after a run of Adds. */
  function Added(bits: set<nat>, values: seq<Bytes>): set<nat>
    decreases |values|
  {
    if values == [] then bits else Added(bits + Bits(values[0]), values[1..])
  }

  lemma {:induction false} BitsStay(bits: set<nat>, values: seq<Bytes>)
    ensures bits <= Added(bits, values)
    decreases |values|
  {
    if values != [] {
      BitsStay(bits + Bits(values[0]), values[1..]);
    }
  }

  /** No false negatives: after any run of Adds every added non-empty value is found; the empty one never is. */
  lemma {:induction false} NoFalseNegatives(bits: set<nat>, values: seq<Bytes>, v: Bytes)
    requires v in values
    ensures Member(Added(bits, values), v) <==> v != []
    decreases |values|
  {
    if values[0] == v {
      BitsStay(bits + Bits(v), values[1..]);
    } else {
      NoFalseNegatives(bits + Bits(values[0]), values[1..], v);
    }
  }

  // ---- unique visitors ----

  /** The filter's bits and the counter. */
  datatype Visitors = Visitors(bits: set<nat>, count: nat)

  /** One request: the check and the Add happen under one lock, the counter follows. */
  function Visit(v: Visitors, ip: Bytes): Visitors {
    if Member(v.bits, ip) then v else Visitors(v.bits + Bits(ip), v.count + 1)
  }

  class Monitor {
    const filter: BloomFilter
    var visitors: nat

    constructor (filter: BloomFilter)
      ensures this.filter == filter && visitors == 0
    {
      this.filter := filter;
      visitors := 0;
    }

    method HandleVisitor(clientIP: Bytes)
      requires filter.Valid()
      modifies this, filter
      ensures filter.Valid()
      ensures Visitors(filter.bits, visitors) == Visit(Visitors(old(filter.bits), old(visitors)), clientIP)
    {
      var known := filter.Contains(clientIP);
      if !known {
        filter.Add(clientIP);
        visitors := visitors + 1;
      }
    }
  }

  function Visited(v: Visitors, ips: seq<Bytes>): Visitors
    decreases |ips|
  {
    if ips == [] then v else Visited(Visit(v, ips[0]), ips[1..])
  }

  /** The requests that were counted, in order. */
  function CountedIPs(bits: set<nat>, ips: seq<Bytes>): seq<Bytes>
    decreases |ips|
  {
    if ips == [] then []
    else if Member(bits, ips[0]) then CountedIPs(bits, ips[1..])
    else [ips[0]] + CountedIPs(bits + Bits(ips[0]), ips[1..])
  }

  function Occurrences(ip: Bytes, ips: seq<Bytes>): nat {
    if ips == [] then 0 else (if ips[0] == ip then 1 else 0) + Occurrences(ip, ips[1..])
  }

  /** The counter grows by the number of counted requests. */
  lemma {:induction false} CounterIsCounted(v: Visitors, ips: seq<Bytes>)
    ensures Visited(v, ips).count == v.count + |CountedIPs(v.bits, ips)|
    ensures v.bits <= Visited(v, ips).bits
    decreases |ips|
  {
    if ips != [] {
      CounterIsCounted(Visit(v, ips[0]), ips[1..]);
    }
  }

  lemma {:induction false} KnownIsNotCounted(bits: set<nat>, ips: seq<Bytes>, ip: Bytes)
    requires Member(bits, ip)
    ensures Occurrences(ip, CountedIPs(bits, ips)) == 0
    decreases |ips|
  {
    if ips != [] {
      var rest := if Member(bits, ips[0]) then bits else bits + Bits(ips[0]);
      KnownIsNotCounted(rest, ips[1..], ip);
    }
  }

  /**
   * Whatever the order of requests, a non-empty IP is counted at most once, and only if it was
   * not known; a request without an IP is counted every time.
   */
  lemma {:induction false} CountedAtMostOnce(bits: set<nat>, ips: seq<Bytes>, ip: Bytes)
    ensures ip != [] ==> Occurrences(ip, CountedIPs(bits, ips)) <= 1
    ensures ip == [] ==> Occurrences(ip, CountedIPs(bits, ips)) == Occurrences(ip, ips)
    decreases |ips|
  {
    if ips != [] {
      var rest := if Member(bits, ips[0]) then bits else bits + Bits(ips[0]);
      CountedAtMostOnce(rest, ips[1..], ip);
      if ips[0] == ip && ip != [] {
        KnownIsNotCounted(rest, ips[1..], ip);
      }
    }
  }

  /** The non-empty IPs that the filter does not know yet. */
  function Unknown(bits: set<nat>, ips: seq<Bytes>): set<Bytes> {
    set ip | ip in ips && ip != [] && !Member(bits, ip)
  }

  lemma {:induction false} SubsetSize<T>(a: set<T>, b: set<T>)
    requires a <= b
    ensures |a| <= |b|
  {
    if a != {} {
      var x :| x in a;
      SubsetSize(a - {x}, b - {x});
    }
  }

  /** No run counts more requests than there are unknown IPs and requests without one. */
  lemma {:induction false} CounterBound(bits: set<nat>, ips: seq<Bytes>)
    ensures |CountedIPs(bits, ips)| <= |Unknown(bits, ips)| + Occurrences([], ips)
    decreases |ips|
  {
    if ips != [] {
      var rest := if Member(bits, ips[0]) then bits else bits + Bits(ips[0]);
      CounterBound(rest, ips[1..]);
      var before, after := Unknown(bits, ips), Unknown(rest, ips[1..]);
      assert ips[0] in ips;
      SubsetSize(after, before - {ips[0]});
    }
  }
}
