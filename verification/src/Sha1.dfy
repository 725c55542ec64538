/**
 SHA-1 as sha1.c computes it, with the message schedule in a circle of 16 words and the five
 working variables changing roles, against sections 5 and 6.1 of FIPS 180-4.
 */
module Sha1 {
  import opened Common

  type Word = bv32
  type Octet = bv8

  const M64: nat := 0x1_0000_0000_0000_0000

  // ---------------------------------------------------------------------
  // FIPS 180-4

  function Rotl(x: Word, n: nat): Word
    requires 0 < n < 32
  {
    (x << n) | (x >> (32 - n))
  }

  function Ch(x: Word, y: Word, z: Word): Word { (x & y) ^ (!x & z) }

  function Parity(x: Word, y: Word, z: Word): Word { x ^ y ^ z }

  function Maj(x: Word, y: Word, z: Word): Word { (x & y) ^ (x & z) ^ (y & z) }

  /** Section 4.1.1. */
  function F(t: nat, x: Word, y: Word, z: Word): Word {
    if t < 20 then Ch(x, y, z)
    else if t < 40 then Parity(x, y, z)
    else if t < 60 then Maj(x, y, z)
    else Parity(x, y, z)
  }

  /** Section 4.2.1. */
  function K(t: nat): Word {
    if t < 20 then 0x5a827999
    else if t < 40 then 0x6ed9eba1
    else if t < 60 then 0x8f1bbcdc
    else 0xca62c1d6
  }

  /** Four bytes as a word, the first in the highest place. */
  function BigEndian(m: seq<Octet>, i: nat): Word
    requires 4 * i + 4 <= |m|
  {
    (m[4 * i] as Word << 24) | (m[4 * i + 1] as Word << 16) | (m[4 * i + 2] as Word << 8) | (m[4 * i + 3] as Word)
  }

  /** The message schedule, step 1 of section 6.1.2. */
  function W(m: seq<Octet>, t: nat): Word
    requires |m| == 64
  {
    if t < 16 then BigEndian(m, t)
    else Expand(W(m, t - 3), W(m, t - 8), W(m, t - 14), W(m, t - 16))
  }

  function Expand(p: Word, q: Word, r: Word, s: Word): Word { Rotl(p ^ q ^ r ^ s, 1) }

  datatype Vars = Vars(a: Word, b: Word, c: Word, d: Word, e: Word)

  /** One round of step 3. */
  function Round(t: nat, w: Word, v: Vars): Vars {
    Vars(Sum(Rotl(v.a, 5), F(t, v.b, v.c, v.d), v.e, K(t), w), v.a, Rotl(v.b, 30), v.c, v.d)
  }

  function Sum(r: Word, f: Word, e: Word, k: Word, w: Word): Word { r + f + e + k + w }

  /** The working variables after t rounds. */
  function Rounds(m: seq<Octet>, h: Vars, t: nat): Vars
    requires |m| == 64
  {
    if t == 0 then h else Round(t - 1, W(m, t - 1), Rounds(m, h, t - 1))
  }

  function Added(h: Vars, v: Vars): Vars {
    Vars(h.a + v.a, h.b + v.b, h.c + v.c, h.d + v.d, h.e + v.e)
  }

  /** The hash value after one more block. */
  function Compress(h: Vars, m: seq<Octet>): Vars
    requires |m| == 64
  {
    Added(h, Rounds(m, h, 80))
  }

  // ---------------------------------------------------------------------
  // The macros

  /** blk0 on a little-endian host */
  function SwapWord(l: Word): Word {
    (Rotl(l, 24) & 0xff00ff00) | (Rotl(l, 8) & 0x00ff00ff)
  }

  function LittleEndian(m: seq<Octet>, i: nat): Word
    requires 4 * i + 4 <= |m|
  {
    (m[4 * i] as Word) | (m[4 * i + 1] as Word << 8) | (m[4 * i + 2] as Word << 16) | (m[4 * i + 3] as Word << 24)
  }

  lemma {:induction false} SwapBytes(a: Octet, b: Octet, c: Octet, d: Octet)
    ensures var l := (a as Word) | (b as Word << 8) | (c as Word << 16) | (d as Word << 24);
            (((l << 24) | (l >> 8)) & 0xff00ff00) | (((l << 8) | (l >> 24)) & 0x00ff00ff)
            == (a as Word << 24) | (b as Word << 16) | (c as Word << 8) | (d as Word)
  {
  }

  /** It turns the word the host loads into the word of the message. */
  lemma {:induction false} SwapIsBigEndian(m: seq<Octet>, i: nat)
    requires 4 * i + 4 <= |m|
    ensures SwapWord(LittleEndian(m, i)) == BigEndian(m, i)
  {
    SwapBytes(m[4 * i], m[4 * i + 1], m[4 * i + 2], m[4 * i + 3]);
  }

  function ChSaving(w: Word, x: Word, y: Word): Word { (w & (x ^ y)) ^ y }

  function MajSaving(w: Word, x: Word, y: Word): Word { ((w | x) & y) | (w & x) }

  lemma {:induction false} ChBits(w: Word, x: Word, y: Word)
    ensures (w & (x ^ y)) ^ y == (w & x) ^ (!w & y)
  {
  }

  lemma {:induction false} MajBits(w: Word, x: Word, y: Word)
    ensures ((w | x) & y) | (w & x) == (w & x) ^ (w & y) ^ (x & y)
  {
  }

  lemma {:induction false} ChSaved(w: Word, x: Word, y: Word)
    ensures ChSaving(w, x, y) == Ch(w, x, y)
  {
    ChBits(w, x, y);
  }

  lemma {:induction false} MajSaved(w: Word, x: Word, y: Word)
    ensures MajSaving(w, x, y) == Maj(w, x, y)
  {
    MajBits(w, x, y);
  }

  /** The functions of R0 to R4, which save an operation here and there. */
  function Mix(t: nat, w: Word, x: Word, y: Word): Word {
    if t < 20 then ChSaving(w, x, y)
    else if t < 40 then Parity(w, x, y)
    else if t < 60 then MajSaving(w, x, y)
    else Parity(w, x, y)
  }

  lemma {:induction false} MixIsF(t: nat, w: Word, x: Word, y: Word)
    ensures Mix(t, w, x, y) == F(t, w, x, y)
  {
    hide Ch, Maj, Parity, ChSaving, MajSaving;
    ChSaved(w, x, y);
    MajSaved(w, x, y);
  }

  /** The sums of the macros, in their order. */
  function MacroSum(z: Word, f: Word, b: Word, k: Word, r: Word): Word { z + (f + b + k + r) }

  lemma {:induction false} SumBits(z: Word, f: Word, b: Word, k: Word, r: Word)
    ensures z + (f + b + k + r) == r + f + z + k + b
  {
  }

  lemma {:induction false} SumOrder(z: Word, f: Word, b: Word, k: Word, r: Word)
    ensures MacroSum(z, f, b, k, r) == Sum(r, f, z, k, b)
  {
    SumBits(z, f, b, k, r);
  }

  /** One R macro: the new values of z and w. */
  function NewZ(t: nat, v: Word, w: Word, x: Word, y: Word, z: Word, blk: Word): Word {
    MacroSum(z, Mix(t, w, x, y), blk, K(t), Rotl(v, 5))
  }

  /** It is a round whose results stay where they are: z becomes the first variable. */
  lemma {:induction false} RoleRound(t: nat, blk: Word, v: Word, w: Word, x: Word, y: Word, z: Word)
    ensures Round(t, blk, Vars(v, w, x, y, z)) == Vars(NewZ(t, v, w, x, y, z, blk), v, Rotl(w, 30), x, y)
  {
    hide Mix, F, K, Rotl, Sum, MacroSum;
    MixIsF(t, w, x, y);
    SumOrder(z, Mix(t, w, x, y), blk, K(t), Rotl(v, 5));
  }

  // ---------------------------------------------------------------------
  // The circle of 16 words

  /** The circle holds the last 16 words of the schedule before t, or the block as loaded. */
  ghost predicate Circle(l: seq<Word>, m: seq<Octet>, t: nat)
    requires |m| == 64
  {
    |l| == 16 && forall k | 0 <= k < 16 :: CircleAt(l[k], m, t, k)
  }

  /** The k-th word: loaded only, or the last of the schedule at a place k modulo 16. */
  ghost predicate CircleAt(word: Word, m: seq<Octet>, t: nat, k: nat)
    requires |m| == 64 && k < 16
  {
    if t <= k then word == LittleEndian(m, k) else word == W(m, LastAt(t, k))
  }

  /** The last number before t that is k modulo 16. */
  function LastAt(t: nat, k: nat): (i: nat)
    requires k < t && k < 16
    ensures i < t <= i + 16 && i % 16 == k
  {
    k + (t - 1 - k) / 16 * 16
  }

  lemma {:induction false} LastIs(t: nat, k: nat, i: nat)
    requires k < 16 && i % 16 == k && i < t <= i + 16
    ensures k < t && LastAt(t, k) == i
  {
  }

  /** blk */
  function Blk(l: seq<Word>, i: nat): Word
    requires |l| == 16
  {
    Expand(l[(i + 13) % 16], l[(i + 8) % 16], l[(i + 2) % 16], l[i % 16])
  }

  lemma {:induction false} BlkIsW(l: seq<Word>, m: seq<Octet>, i: nat)
    requires |m| == 64 && Circle(l, m, i) && i >= 16
    ensures Blk(l, i) == W(m, i)
  {
    hide W, Expand, Circle;
    WStep(m, i);
    Back(i);
    Held(l, m, i, i - 3);
    Held(l, m, i, i - 8);
    Held(l, m, i, i - 14);
    Held(l, m, i, i - 16);
  }

  lemma {:induction false} WStep(m: seq<Octet>, i: nat)
    requires |m| == 64 && i >= 16
    ensures W(m, i) == Expand(W(m, i - 3), W(m, i - 8), W(m, i - 14), W(m, i - 16))
  {
  }

  lemma {:induction false} Back(i: nat)
    requires i >= 16
    ensures (i + 13) % 16 == (i - 3) % 16 && (i + 8) % 16 == (i - 8) % 16 && (i + 2) % 16 == (i - 14) % 16
    ensures i % 16 == (i - 16) % 16
  {
    AddSixteen(i - 3);
    AddSixteen(i - 8);
    AddSixteen(i - 14);
    AddSixteen(i - 16);
  }

  lemma {:induction false} AddSixteen(i: nat)
    ensures (i + 16) % 16 == i % 16
  {
    Remainder(i + 16, 16, i / 16 + 1, i % 16);
  }

  /** A word among the last 16 is held at its place. */
  lemma {:induction false} Held(l: seq<Word>, m: seq<Octet>, t: nat, i: nat)
    requires |m| == 64 && Circle(l, m, t) && i < t <= i + 16
    ensures l[i % 16] == W(m, i)
  {
    hide W, LittleEndian;
    assert CircleAt(l[i % 16], m, t, i % 16);
    LastIs(t, i % 16, i);
  }

  lemma {:induction false} CircleNext(l: seq<Word>, m: seq<Octet>, i: nat)
    requires |m| == 64 && Circle(l, m, i)
    ensures Circle(l[i % 16 := W(m, i)], m, i + 1)
  {
    hide W, LittleEndian, LastAt, CircleAt;
    var r := i % 16;
    var l' := l[r := W(m, i)];
    NewAt(m, i);
    forall k | 0 <= k < 16 ensures CircleAt(l'[k], m, i + 1, k) {
      if k != r {
        assert CircleAt(l[k], m, i, k);
        StaysAt(l[k], m, i, k);
      }
    }
  }

  lemma {:induction false} NewAt(m: seq<Octet>, i: nat)
    requires |m| == 64
    ensures CircleAt(W(m, i), m, i + 1, i % 16)
  {
    hide W, LittleEndian;
    LastIs(i + 1, i % 16, i);
  }

  lemma {:induction false} StaysAt(word: Word, m: seq<Octet>, i: nat, k: nat)
    requires |m| == 64 && k < 16 && k != i % 16 && CircleAt(word, m, i, k)
    ensures CircleAt(word, m, i + 1, k)
  {
    hide W, LittleEndian, LastAt;
    if k < i { LastIs(i + 1, k, LastAt(i, k)); }
  }

  // ---------------------------------------------------------------------
  // SHA1Transform

  /** blk0 and blk: the next word of the schedule, which takes its place in the circle. */
  method Fetch(l: array<Word>, i: nat, ghost m: seq<Octet>) returns (w: Word)
    requires l.Length == 16 && |m| == 64 && Circle(l[..], m, i)
    modifies l
    ensures w == W(m, i) && Circle(l[..], m, i + 1)
  {
    hide W, SwapWord, LittleEndian, BigEndian, Expand;
    if i < 16 {
      Loaded(l[..], m, i);
      w := SwapWord(l[i]);
    } else {
      BlkIsW(l[..], m, i);
      w := Blk(l[..], i);
    }
    CircleNext(l[..], m, i);
    ghost var before := l[..];
    l[i % 16] := w;
    assert l[..] == before[i % 16 := w];
  }

  lemma {:induction false} Loaded(l: seq<Word>, m: seq<Octet>, i: nat)
    requires |m| == 64 && Circle(l, m, i) && i < 16
    ensures SwapWord(l[i]) == W(m, i)
  {
    hide SwapWord, LittleEndian, BigEndian;
    assert CircleAt(l[i], m, i, i);
    SwapIsBigEndian(m, i);
  }

  /** SHA1Transform: the 80 macros, five at a time. */
  method Transform(h: Vars, m: seq<Octet>) returns (r: Vars)
    requires |m| == 64
    ensures r == Compress(h, m)
  {
    hide W, Circle, Rounds;
    NoRounds(m, h);
    var v := h;
    var l := Load(m);
    for g := 0 to 16
      invariant Circle(l[..], m, 5 * g) && v == Rounds(m, h, 5 * g)
    {
      v := FiveRounds(l, 5 * g, v, m, h);
    }
    r := Added(h, v);
  }

  lemma {:induction false} NoRounds(m: seq<Octet>, h: Vars)
    requires |m| == 64
    ensures Rounds(m, h, 0) == h
  {
  }

  /** Five R macros, with the variables in all their roles. */
  method FiveRounds(l: array<Word>, i: nat, before: Vars, ghost m: seq<Octet>, ghost h: Vars) returns (after: Vars)
    requires l.Length == 16 && |m| == 64 && Circle(l[..], m, i) && before == Rounds(m, h, i)
    modifies l
    ensures Circle(l[..], m, i + 5) && after == Rounds(m, h, i + 5)
  {
    hide W, Rounds, NewZ, Rotl, Circle;
    var Vars(a, b, c, d, e) := before;
    var w := Fetch(l, i, m);
    NextRound(m, h, i, a, b, c, d, e);
    e := NewZ(i, a, b, c, d, e, w);
    b := Rotl(b, 30);
    w := Fetch(l, i + 1, m);
    NextRound(m, h, i + 1, e, a, b, c, d);
    d := NewZ(i + 1, e, a, b, c, d, w);
    a := Rotl(a, 30);
    w := Fetch(l, i + 2, m);
    NextRound(m, h, i + 2, d, e, a, b, c);
    c := NewZ(i + 2, d, e, a, b, c, w);
    e := Rotl(e, 30);
    w := Fetch(l, i + 3, m);
    NextRound(m, h, i + 3, c, d, e, a, b);
    b := NewZ(i + 3, c, d, e, a, b, w);
    d := Rotl(d, 30);
    w := Fetch(l, i + 4, m);
    NextRound(m, h, i + 4, b, c, d, e, a);
    a := NewZ(i + 4, b, c, d, e, a, w);
    c := Rotl(c, 30);
    after := Vars(a, b, c, d, e);
  }

  method Load(m: seq<Octet>) returns (l: array<Word>)
    requires |m| == 64
    ensures fresh(l) && l.Length == 16 && Circle(l[..], m, 0)
  {
    hide LittleEndian, W;
    l := new Word[16](k requires 0 <= k < 16 => LittleEndian(m, k));
  }

  /** One macro takes the variables, in their present roles, one round on. */
  lemma {:induction false} NextRound(m: seq<Octet>, h: Vars, t: nat, v: Word, w: Word, x: Word, y: Word, z: Word)
    requires |m| == 64 && Rounds(m, h, t) == Vars(v, w, x, y, z)
    ensures Rounds(m, h, t + 1) == Vars(NewZ(t, v, w, x, y, z, W(m, t)), v, Rotl(w, 30), x, y)
  {
    hide W, NewZ, Rotl, Round;
    RoleRound(t, W(m, t), v, w, x, y, z);
  }

  // ---------------------------------------------------------------------
  // Messages

  /** The hash value after all whole blocks of m. */
  function Hash(h: Vars, m: seq<Octet>): Vars
    decreases |m|
  {
    if |m| < 64 then h else Hash(Compress(h, m[..64]), m[64..])
  }

  /** Whole blocks may be hashed first. */
  lemma {:induction false} HashSplit(h: Vars, a: seq<Octet>, b: seq<Octet>)
    requires |a| % 64 == 0
    ensures Hash(h, a + b) == Hash(Hash(h, a), b)
    decreases |a|
  {
    hide Compress;
    if a == [] {
      assert a + b == b;
    } else {
      assert (a + b)[..64] == a[..64] && (a + b)[64..] == a[64..] + b;
      HashSplit(Compress(h, a[..64]), a[64..], b);
    }
  }

  const H0 := Vars(0x67452301, 0xefcdab89, 0x98badcfe, 0x10325476, 0xc3d2e1f0)

  /** A number as eight bytes, the highest first. */
  function EightBytes(n: nat): (r: seq<Octet>)
    ensures |r| == 8
  {
    seq(8, i requires 0 <= i < 8 => Digit(n, 7 - i))
  }

  /** The i-th digit to the base 256. */
  function Digit(n: nat, i: nat): Octet {
    if i == 0 then (n % 256) as Octet else Digit(n / 256, i - 1)
  }

  function Zeros(k: nat): (r: seq<Octet>)
    ensures |r| == k
  {
    if k == 0 then [] else Zeros(k - 1) + [0]
  }

  /** Section 5.1.1: a 1 bit, zeros up to 448 modulo 512, and the length in bits. */
  function Padded(m: seq<Octet>): (r: seq<Octet>)
    ensures |r| % 64 == 0
  {
    m + [0x80] + Zeros((119 - |m| % 64) % 64) + EightBytes(8 * |m| % M64)
  }

  /** The words of the hash value as bytes. */
  function DigestOf(h: Vars): seq<Octet> {
    WordBytes(h.a) + WordBytes(h.b) + WordBytes(h.c) + WordBytes(h.d) + WordBytes(h.e)
  }

  function WordBytes(w: Word): (r: seq<Octet>)
    ensures |r| == 4
  {
    [(w >> 24) as Octet, ((w >> 16) & 255) as Octet, ((w >> 8) & 255) as Octet, (w & 255) as Octet]
  }

  /** SHA-1. */
  function Sha1(m: seq<Octet>): seq<Octet> {
    DigestOf(Hash(H0, Padded(m)))
  }

  // ---------------------------------------------------------------------
  // The context

  /** Bytes short of a block do not count yet. */
  lemma {:induction false} HashWhole(h: Vars, a: seq<Octet>, b: seq<Octet>)
    requires |a| % 64 == 0 && |b| < 64
    ensures Hash(h, a + b) == Hash(h, a)
  {
    HashSplit(h, a, b);
  }

  lemma {:induction false} HashNext(h: Vars, a: seq<Octet>, b: seq<Octet>)
    requires |a| % 64 == 0 && |b| == 64
    ensures Hash(h, a + b) == Compress(Hash(h, a), b)
  {
    hide Compress;
    HashSplit(h, a, b);
    assert b[..64] == b && b[64..] == [];
  }

  /** The two halves of the bit count are right modulo 2 to the 64. */
  ghost predicate Counts(count0: nat, count1: nat, n: nat) {
    count0 < M32 && count1 < M32 && count0 + M32 * count1 == 8 * n % M64
  }

  /** Adding to the low half, carrying over when it gets smaller, counts len more bytes. */
  /** A sum in 32 bits, and its carry. */
  lemma {:induction false} Carried(a: nat, x: nat)
    requires a < M32
    ensures var low := (a + x % M32) % M32; low + M32 * (if low < a then 1 else 0) + M32 * (x / M32) == a + x
  {
    var s := a + x % M32;
    if s < M32 { Remainder(s, M32, 0, s); } else { Remainder(s, M32, 1, s - M32); }
    assert x == M32 * (x / M32) + x % M32;
  }

  lemma {:induction false} CountsAdd(count0: nat, count1: nat, n: nat, len: nat)
    requires Counts(count0, count1, n) && len < M32
    ensures var low := (count0 + 8 * len % M32) % M32;
            var carry := if low < count0 then 1 else 0;
            Counts(low, (count1 + carry + 8 * len / M32) % M32, n + len)
  {
    var low := (count0 + 8 * len % M32) % M32;
    var carry := if low < count0 then 1 else 0;
    var high := count1 + carry + 8 * len / M32;
    Carried(count0, 8 * len);
    assert low + M32 * high == count0 + M32 * count1 + 8 * len;
    HighWraps(low, high, count0 + M32 * count1 + 8 * len);
    AddModulo(8 * n, 8 * len, M64);
  }

  lemma {:induction false} HighWraps(low: nat, high: nat, total: nat)
    requires low < M32 && low + M32 * high == total
    ensures low + M32 * (high % M32) == total % M64
  {
    var q := high / M32;
    assert total == (low + M32 * (high % M32)) + M64 * q;
    ModuloUnique(low + M32 * (high % M32), q, total);
  }

  lemma {:induction false} ModuloUnique(r: nat, q: nat, total: nat)
    requires r < M64 && total == r + M64 * q
    ensures total % M64 == r
  {
  }

  /** The byte count modulo 64 can be read off the low half. */
  lemma {:induction false} CountsPlace(count0: nat, count1: nat, n: nat)
    requires Counts(count0, count1, n)
    ensures count0 / 8 % 64 == n % 64
  {
    var q, low := 8 * n / M64, count0 / 8;
    assert 8 * n == count0 + M32 * count1 + M64 * q;
    assert count0 == 8 * low && n == low + 0x2000_0000 * (count1 + M32 * q);
    assert low == 64 * (low / 64) + low % 64;
    Remainder(n, 64, low / 64 + 0x80_0000 * (count1 + M32 * q), low % 64);
  }

  /** The bytes of a message after its last whole block. */
  function Tail(m: seq<Octet>): (r: seq<Octet>)
    ensures |r| == |m| % 64
  {
    m[|m| - |m| % 64..]
  }

  /** SHA1_CTX, for the message so far. */
  class Context {
    var state: Vars
    var count0: nat
    var count1: nat
    const buffer: array<Octet>
    ghost var msg: seq<Octet>

    ghost predicate Valid()
      reads this, buffer
    {
      && buffer.Length == 64
      && Counts(count0, count1, |msg|)
      && state == Hash(H0, msg)
      && buffer[..|msg| % 64] == Tail(msg)
    }

    /** SHA1Init */
    constructor ()
      ensures Valid() && fresh(buffer) && msg == []
    {
      state := H0;
      count0, count1 := 0, 0;
      buffer := new Octet[64];
      msg := [];
    }

    /** SHA1Update: takes any number of bytes, in one piece or many. The place in the buffer and
        the length have to add up within 32 bits. */
    method Update(data: seq<Octet>)
      requires Valid() && |msg| % 64 + |data| < M32
      modifies this, buffer
      ensures Valid() && msg == old(msg) + data
    {
      hide Compress, Hash, Counts, Tail, OnBlock;
      CountsPlace(count0, count1, |msg|);
      var len, j := |data|, count0;
      Count(len);
      j := j / 8 % 64;
      var i;
      if (j + len) % M32 > 63 {
        i := Blocks(data, j);
        j := 0;
        TailLong(msg, data, i);
      } else {
        i := 0;
        TailShort(msg, data);
        assert data[0..] == data;
      }
      Fill(data[i..], j);
      msg := msg + data;
    }

    /** The bit count goes up by that of len bytes. */
    method Count(len: nat)
      requires Counts(count0, count1, |msg|) && len < M32
      modifies this`count0, this`count1
      ensures Counts(count0, count1, |msg| + len)
    {
      CountsAdd(count0, count1, |msg|, len);
      CarryFirst(count1, 8 * len / M32);
      var j := count0;
      hide Counts;
      count0 := (count0 + 8 * len % M32) % M32;
      if count0 < j {
        count1 := (count1 + 1) % M32;
      }
      count1 := (count1 + 8 * len / M32) % M32;
    }

    /** memcpy into the buffer */
    method Fill(piece: seq<Octet>, j: nat)
      requires buffer.Length == 64 && j + |piece| <= 64
      modifies buffer
      ensures buffer[..j + |piece|] == old(buffer[..j]) + piece
    {
      forall k | 0 <= k < |piece| {
        buffer[j + k] := piece[k];
      }
    }

    /** All blocks that data completes. */
    method Blocks(data: seq<Octet>, j: nat) returns (i: nat)
      requires buffer.Length == 64 && state == Hash(H0, msg) && j == |msg| % 64 && buffer[..j] == Tail(msg)
      requires 63 < j + |data| < M32
      modifies this`state, buffer
      ensures i <= |data| && OnBlock(|msg|, i) && |data| - i < 64 && state == Hash(H0, msg + data)
    {
      hide Compress, Hash, Tail, OnBlock;
      i := 64 - j;
      FirstOn(|msg|);
      Complete(data[..i], j);
      while (i + 63) % M32 < |data|
        invariant 0 <= i <= |data| && OnBlock(|msg|, i)
        invariant state == Hash(H0, msg + data[..i])
      {
        NoWrap(i, |msg|, |data|);
        NextBlock(msg, data, i);
        state := Transform(state, data[i..i + 64]);
        i := i + 64;
      }
      NoWrap(i, |msg|, |data|);
      LastBlock(msg, data, i);
    }

    /** The block that was begun. */
    method Complete(piece: seq<Octet>, j: nat)
      requires buffer.Length == 64 && state == Hash(H0, msg) && j == |msg| % 64 && buffer[..j] == Tail(msg)
      requires j + |piece| == 64
      modifies this`state, buffer
      ensures state == Hash(H0, msg + piece)
    {
      hide Compress, Hash, Tail;
      Fill(piece, j);
      FirstBlock(msg, piece);
      assert buffer[..] == buffer[..64];
      state := Transform(state, buffer[..]);
    }

    /** SHA1Final: pads the message, and gives its digest, whatever the pieces it came in. */
    method Final() returns (digest: seq<Octet>)
      requires Valid()
      modifies this, buffer
      ensures digest == Sha1(old(msg))
      ensures count0 == count1 == 0 && buffer[..] == Zeros(64) && state == Vars(0, 0, 0, 0, 0)
    {
      hide Hash, Counts, Tail, DigestOf, EightBytes, Zeros;
      ghost var m := msg;
      var finalCount := FinalCount(count0, count1, |msg|);
      Update([0x80]);
      ghost var k := 0;
      CountsPlace(count0, count1, |msg|);
      NoZeros(m);
      while count0 / 8 % 64 != 56
        invariant Valid() && msg == m + [0x80] + Zeros(k) && count0 / 8 % 64 == |msg| % 64 && k <= ZeroCount(|m|)
        decreases ZeroCount(|m|) - k
      {
        NotYet(|m|, k);
        OneZero(m, k);
        Update([0]);
        CountsPlace(count0, count1, |msg|);
        k := k + 1;
      }
      NotYet(|m|, k);
      Update(finalCount);
      assert msg == Padded(m);
      digest := DigestOf(state);
      Wipe();
    }

    method Wipe()
      requires buffer.Length == 64
      modifies this, buffer
      ensures count0 == count1 == 0 && buffer[..] == Zeros(64) && state == Vars(0, 0, 0, 0, 0)
    {
      state, count0, count1 := Vars(0, 0, 0, 0, 0), 0, 0;
      forall k | 0 <= k < 64 {
        buffer[k] := 0;
      }
      AllZero(buffer[..]);
    }
  }

  lemma {:induction false} AllZero(s: seq<Octet>)
    requires forall k | 0 <= k < |s| :: s[k] == 0
    ensures s == Zeros(|s|)
  {
    if s != [] {
      AllZero(s[..|s| - 1]);
    }
  }

  /** How many zeros go behind the 1 bit. */
  function ZeroCount(n: nat): (k: nat)
    ensures k < 64
  {
    (119 - n % 64) % 64
  }

  lemma {:induction false} NoZeros(m: seq<Octet>)
    ensures m + [0x80] == m + [0x80] + Zeros(0)
  {
  }

  lemma {:induction false} OneZero(m: seq<Octet>, k: nat)
    ensures m + [0x80] + Zeros(k) + [0] == m + [0x80] + Zeros(k + 1)
  {
  }

  lemma {:induction false} NotYet(n: nat, k: nat)
    requires k <= ZeroCount(n)
    ensures (n + 1 + k) % 64 == 56 <==> k == ZeroCount(n)
  {
  }

  /** The two halves of the bit count, byte by byte from the top. */
  method FinalCount(count0: nat, count1: nat, ghost n: nat) returns (r: seq<Octet>)
    requires Counts(count0, count1, n)
    ensures r == EightBytes(8 * n % M64)
  {
    r := [];
    while |r| < 8
      invariant |r| <= 8 && forall k | 0 <= k < |r| :: r[k] == Digit(8 * n % M64, 7 - k)
    {
      var i := |r|;
      var c := if i >= 4 then count0 else count1;
      DigitOfHalf(count0, count1, 7 - i);
      r := r + [Digit(c, 3 - i % 4)];
    }
  }

  /** A digit of the whole is one of a half. */
  lemma {:induction false} DigitOfHalf(low: nat, high: nat, i: nat)
    requires low < M32 && high < M32 && i < 8
    ensures Digit(low + M32 * high, i) == if i < 4 then Digit(low, i) else Digit(high, i - 4)
  {
    var n := low + M32 * high;
    Dropped(n, i);
    if i < 4 {
      Dropped(low, i);
    }
    assert n / 256 == low / 256 + 0x100_0000 * high;
    assert n / 256 / 256 == low / 256 / 256 + 0x1_0000 * high;
    assert n / 256 / 256 / 256 == low / 256 / 256 / 256 + 0x100 * high;
    assert n / 256 / 256 / 256 / 256 == high;
  }

  lemma {:induction false} Dropped(n: nat, i: nat)
    ensures i == 0 ==> Digit(n, i) == (n % 256) as Octet
    ensures i == 1 ==> Digit(n, i) == (n / 256 % 256) as Octet
    ensures i == 2 ==> Digit(n, i) == (n / 256 / 256 % 256) as Octet
    ensures i == 3 ==> Digit(n, i) == (n / 256 / 256 / 256 % 256) as Octet
    ensures i >= 4 ==> Digit(n, i) == Digit(n / 256 / 256 / 256 / 256, i - 4)
  {
    if i > 0 {
      assert Digit(n, i) == Digit(n / 256, i - 1);
      if i > 1 {
        assert Digit(n / 256, i - 1) == Digit(n / 256 / 256, i - 2);
        if i > 2 { assert Digit(n / 256 / 256, i - 2) == Digit(n / 256 / 256 / 256, i - 3); }
      }
    }
  }

  lemma {:induction false} CarryFirst(count: nat, more: nat)
    ensures ((count + 1) % M32 + more) % M32 == (count + 1 + more) % M32
  {
  }

  /** The i-th byte after n begins a block. */
  ghost predicate OnBlock(n: nat, i: nat) {
    (n + i) % 64 == 0
  }

  lemma {:induction false} FirstOn(n: nat)
    ensures OnBlock(n, 64 - n % 64)
  {
  }

  /** The test of the loop does not wrap around. */
  lemma {:induction false} NoWrap(i: nat, n: nat, len: nat)
    requires i <= len && n % 64 + len < M32 && OnBlock(n, i)
    ensures (i + 63) % M32 == i + 63 && OnBlock(n, i + 64)
  {
  }

  /** Where SHA1Update's last memcpy writes in the buffer, and how many bytes: what remains behind
      whole blocks if its guard, which adds in 32 bits, finds one complete, and else all of them. */
  function LastCopy(j: nat, len: nat): (nat, nat)
    requires j < 64 && len < M32
  {
    if (j + len) % M32 > 63 then (0, (j + len) % 64) else (j, len)
  }

  /** The guard tells whether a block is complete, and the copy stays within the 64 bytes of the
      buffer, exactly if the place and the length add up within 32 bits. */
  lemma {:induction false} GuardExact(j: nat, len: nat)
    requires j < 64 && len < M32
    ensures ((j + len) % M32 > 63 <==> j + len > 63) <==> j + len < M32
    ensures LastCopy(j, len).0 + LastCopy(j, len).1 <= 64 <==> j + len < M32
    ensures j + len >= M32 ==> LastCopy(j, len) == (j, len)
  {
    if j + len >= M32 { assert (j + len) % M32 == j + len - M32; }
  }

  lemma {:induction false} TailLong(m: seq<Octet>, data: seq<Octet>, i: nat)
    requires i <= |data| && OnBlock(|m|, i) && |data| - i < 64
    ensures Tail(m + data) == data[i..]
  {
    assert (|m| + |data|) % 64 == |data| - i;
  }

  function Whole(m: seq<Octet>): (r: seq<Octet>)
    ensures |r| % 64 == 0
  {
    m[..|m| - |m| % 64]
  }

  lemma {:induction false} WholeAndTail(m: seq<Octet>, data: seq<Octet>)
    ensures m == Whole(m) + Tail(m) && m + data == Whole(m) + (Tail(m) + data)
  {
  }

  lemma {:induction false} TailShort(m: seq<Octet>, data: seq<Octet>)
    requires |m| % 64 + |data| < 64
    ensures Tail(m + data) == Tail(m) + data && Hash(H0, m + data) == Hash(H0, m)
  {
    TailGrows(m, data);
    hide Hash, Whole, Tail;
    WholeAndTail(m, data);
    HashWhole(H0, Whole(m), Tail(m));
    HashWhole(H0, Whole(m), Tail(m) + data);
  }

  lemma {:induction false} TailGrows(m: seq<Octet>, data: seq<Octet>)
    requires |m| % 64 + |data| < 64
    ensures Tail(m + data) == Tail(m) + data
  {
    Remainder(|m| + |data|, 64, |m| / 64, |m| % 64 + |data|);
    SuffixGrows(m, data, |m| - |m| % 64);
  }

  lemma {:induction false} SuffixGrows(m: seq<Octet>, data: seq<Octet>, n: nat)
    requires n <= |m|
    ensures (m + data)[n..] == m[n..] + data
  {
  }

  /** The block in the buffer. */
  lemma {:induction false} FirstBlock(m: seq<Octet>, piece: seq<Octet>)
    requires |m| % 64 + |piece| == 64
    ensures Hash(H0, m + piece) == Compress(Hash(H0, m), Tail(m) + piece)
  {
    hide Compress, Hash, Whole, Tail;
    WholeAndTail(m, piece);
    HashWhole(H0, Whole(m), Tail(m));
    HashNext(H0, Whole(m), Tail(m) + piece);
  }

  lemma {:induction false} NextBlock(m: seq<Octet>, data: seq<Octet>, i: nat)
    requires i + 64 <= |data| && OnBlock(|m|, i)
    ensures Hash(H0, m + data[..i + 64]) == Compress(Hash(H0, m + data[..i]), data[i..i + 64])
  {
    hide Compress, Hash;
    assert m + data[..i + 64] == (m + data[..i]) + data[i..i + 64];
    HashNext(H0, m + data[..i], data[i..i + 64]);
  }

  lemma {:induction false} LastBlock(m: seq<Octet>, data: seq<Octet>, i: nat)
    requires i <= |data| && |data| - i < 64 && OnBlock(|m|, i)
    ensures Hash(H0, m + data) == Hash(H0, m + data[..i])
  {
    hide Hash;
    assert m + data == (m + data[..i]) + data[i..];
    HashWhole(H0, m + data[..i], data[i..]);
  }
}
