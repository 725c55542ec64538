/**
 The Internet checksum of inet_chksum.c on a little-endian host: the three
 implementations of lwip_standard_chksum, and the checksums of pbuf chains and
 of TCP and UDP pseudo headers built on it.

 The reference is the one's complement sum of section 1 of RFC 1071: all 16-bit
 words are added up, and the sum is reduced modulo 65535 to 16 bits, with 65535
 and not 0 standing for a multiple of 65535 that is not zero.
 */
module Checksum {
  import opened Common

  // ---------------------------------------------------------------------
  // The reference

  /** The sum of the 16-bit little-endian words; an odd last byte is a word of its own. */
  function WordSum(d: seq<byte>): nat {
    if |d| == 0 then 0
    else if |d| == 1 then d[0] as int
    else d[0] as int + 256 * d[1] as int + WordSum(d[2..])
  }

  /** A sum reduced to 16 bits by end-around carries. */
  function Reduced(n: nat): (r: nat)
    ensures r < M16
    ensures r == 0 <==> n == 0
  {
    if n == 0 then 0 else (n - 1) % 65535 + 1
  }

  /** The Internet checksum. */
  function InternetChecksum(d: seq<byte>): nat {
    0xffff - Reduced(WordSum(d))
  }

  // Reduced identifies what differs by a multiple of 65535, except that 0 stands alone.

  lemma {:induction false} ReducedSmall(n: nat)
    requires n < M16
    ensures Reduced(n) == n
  {
  }

  lemma {:induction false} ReducedMultiple(n: nat, k: nat)
    requires n > 0
    ensures Reduced(n + 65535 * k) == Reduced(n)
  {
  }

  /** Equal reductions, written with a witness. */
  lemma {:induction false} ReducedSplit(n: nat) returns (k: nat)
    ensures n == Reduced(n) + 65535 * k
  {
    k := if n == 0 then 0 else (n - 1) / 65535;
  }

  lemma {:induction false} ReducedAdd(a: nat, b: nat)
    ensures Reduced(Reduced(a) + b) == Reduced(a + b)
  {
    var k := ReducedSplit(a);
    if a > 0 { ReducedMultiple(Reduced(a) + b, k); }
  }

  lemma {:induction false} ReducedScale(a: nat)
    ensures Reduced(256 * Reduced(a)) == Reduced(256 * a)
  {
    var k := ReducedSplit(a);
    if a > 0 { ReducedMultiple(256 * Reduced(a), 256 * k); }
  }

  /** 65536 counts for 1. */
  lemma {:induction false} ReducedCarry(a: nat, b: nat)
    ensures Reduced(65536 * a + b) == Reduced(a + b)
  {
    if a + b > 0 { ReducedMultiple(a + b, a); }
  }

  // ---------------------------------------------------------------------
  // Fold and swap

  /** FOLD_U32T */
  function Fold(u: nat): nat {
    u / M16 + u % M16
  }

  /** SWAP_BYTES_IN_WORD, and lwip_htons on this host */
  function Swap(w: nat): (r: nat)
    ensures r < M16
  {
    w % 256 * 256 + w / 256 % 256
  }

  lemma {:induction false} FoldReduces(u: nat)
    ensures Reduced(Fold(u)) == Reduced(u)
  {
    ReducedCarry(u / M16, u % M16);
  }

  /** One fold brings a sum of two 16-bit values back to 16 bits. */
  lemma {:induction false} FoldOnce(u: nat)
    requires u <= 0x1fffe
    ensures Fold(u) == Reduced(u)
  {
    FoldReduces(u);
    ReducedSmall(Fold(u));
  }

  /** Two folds bring any 32-bit value to 16 bits. */
  lemma {:induction false} FoldTwice(u: nat)
    requires u < M32
    ensures Fold(Fold(u)) == Reduced(u)
  {
    FoldReduces(u);
    FoldOnce(Fold(u));
  }

  /** Swapping the bytes is multiplication by 256. */
  lemma {:induction false} SwapScales(w: nat)
    requires w < M16
    ensures Swap(w) == Reduced(256 * w)
  {
    var hi, lo := w / 256, w % 256;
    ReducedCarry(hi, 256 * lo);
    ReducedSmall(hi + 256 * lo);
  }

  lemma {:induction false} SwapReduced(a: nat)
    ensures Swap(Reduced(a)) == Reduced(256 * a)
  {
    SwapScales(Reduced(a));
    ReducedScale(a);
  }

  // ---------------------------------------------------------------------
  // Word sums of concatenations

  lemma {:induction false} WordSumEven(a: seq<byte>, b: seq<byte>)
    requires |a| % 2 == 0
    ensures WordSum(a + b) == WordSum(a) + WordSum(b)
  {
    if a == [] {
      assert a + b == b;
    } else {
      WordSumEven(a[2..], b);
      assert (a + b)[2..] == a[2..] + b;
    }
  }

  lemma {:induction false} WordSumTail(a: seq<byte>, x: byte)
    requires |a| % 2 == 0
    ensures WordSum(a + [x]) == WordSum(a) + x as int
  {
    WordSumEven(a, [x]);
  }

  /** A byte in front shifts all others to the other half of their words. */
  lemma {:induction false} WordSumShift(x: byte, b: seq<byte>)
    ensures Reduced(WordSum([x] + b)) == Reduced(x as int + 256 * WordSum(b))
    decreases |b|
  {
    var s := [x] + b;
    if |b| == 0 {
      assert s == [x];
    } else if |b| == 1 {
      assert s[2..] == [];
    } else {
      var y, z := b[0] as int, b[1] as int;
      var rest := b[2..];
      assert s[2..] == [b[1]] + rest;
      WordSumShift(b[1], rest);
      var w := WordSum([b[1]] + rest);
      assert WordSum(s) == x as int + 256 * y + w;
      ReducedAdd(w, x as int + 256 * y);
      ReducedAdd(z + 256 * WordSum(rest), x as int + 256 * y);
      assert 256 * WordSum(b) == 256 * y + 65536 * z + 256 * WordSum(rest);
      ReducedCarry(z, x as int + 256 * y + 256 * WordSum(rest));
    }
  }

  /** The words of b are shifted when they come after an odd number of bytes. */
  lemma {:induction false} WordSumOdd(a: seq<byte>, b: seq<byte>)
    requires |a| % 2 == 1
    ensures Reduced(WordSum(a + b)) == Reduced(WordSum(a) + 256 * WordSum(b))
  {
    hide WordSum, Reduced;
    var n := |a| - 1;
    var front, x := a[..n], a[n];
    assert a == front + [x];
    assert a + b == front + ([x] + b);
    WordSumEven(front, [x] + b);
    WordSumTail(front, x);
    WordSumShift(x, b);
    ReducedAdd(WordSum([x] + b), WordSum(front));
    ReducedAdd(x as int + 256 * WordSum(b), WordSum(front));
  }

  lemma {:induction false} WordSumBound(d: seq<byte>)
    ensures WordSum(d) <= (|d| + 1) / 2 * 0xffff
    ensures |d| % 2 == 1 ==> WordSum(d) <= |d| / 2 * 0xffff + 0xff
  {
    if |d| >= 2 { WordSumBound(d[2..]); }
  }

  // ---------------------------------------------------------------------
  // lwip_standard_chksum

  /** The longest data the 32-bit accumulators of the first two versions are claimed for. */
  const MAX_LEN := 0x20000

  function Le16(d: seq<byte>, i: nat): (w: nat)
    requires i + 2 <= |d|
    ensures w < M16
  {
    d[i] as int + 256 * d[i + 1] as int
  }

  function Be16(d: seq<byte>, i: nat): (w: nat)
    requires i + 2 <= |d|
    ensures w < M16
  {
    256 * d[i] as int + d[i + 1] as int
  }

  lemma {:induction false} WordSumNext(d: seq<byte>, i: nat)
    requires i % 2 == 0 && i + 2 <= |d|
    ensures WordSum(d[..i + 2]) == WordSum(d[..i]) + Le16(d, i)
  {
    assert d[..i + 2] == d[..i] + [d[i], d[i + 1]];
    WordSumEven(d[..i], [d[i], d[i + 1]]);
    assert [d[i], d[i + 1]][2..] == [];
  }

  lemma {:induction false} WordSumLast(d: seq<byte>)
    requires |d| % 2 == 1
    ensures WordSum(d) == WordSum(d[..|d| - 1]) + d[|d| - 1] as int
  {
    assert d == d[..|d| - 1] + [d[|d| - 1]];
    WordSumTail(d[..|d| - 1], d[|d| - 1]);
  }

  /** Version 1: big-endian words, then the bytes of the sum exchanged. */
  method StandardChksum1(d: seq<byte>) returns (r: nat)
    requires |d| <= MAX_LEN
    ensures r == Reduced(WordSum(d))
  {
    hide WordSum, Reduced, Fold, Swap;
    var acc: nat, i := 0, 0;
    WordSumNone(d);
    while |d| - i > 1
      invariant i <= |d| && i % 2 == 0
      invariant acc <= i / 2 * 0xffff
      invariant Reduced(acc) == Reduced(256 * WordSum(d[..i]))
    {
      BigWordStep(acc, d, i);
      acc := (acc + Be16(d, i)) % M32;
      i := i + 2;
    }
    if |d| - i > 0 {
      BigTailStep(acc, d);
      acc := (acc + 256 * d[i] as int) % M32;
    } else {
      assert d[..i] == d;
    }
    FoldTwice(acc);
    FoldSmall(acc);
    var total := acc;
    acc := Fold(acc);
    if acc / M16 != 0 {
      acc := Fold(acc);
    } else {
      FoldIdle(acc);
    }
    SwapReduced(256 * WordSum(d));
    ReducedCarry(WordSum(d), 0);
    SwapAgain(total, WordSum(d));
    r := Swap(acc);
  }

  lemma {:induction false} WordSumNone(d: seq<byte>)
    ensures WordSum(d[..0]) == 0
  {
  }

  lemma {:induction false} BigWordStep(acc: nat, d: seq<byte>, i: nat)
    requires i % 2 == 0 && i + 2 <= |d| && Reduced(acc) == Reduced(256 * WordSum(d[..i]))
    ensures Reduced(acc + Be16(d, i)) == Reduced(256 * WordSum(d[..i + 2]))
  {
    hide WordSum, Reduced;
    WordSumNext(d, i);
    var w := Le16(d, i);
    ReducedAdd(acc, Be16(d, i));
    ReducedAdd(256 * WordSum(d[..i]), Be16(d, i));
    assert 256 * w == 65536 * d[i + 1] as int + 256 * d[i] as int;
    ReducedCarry(d[i + 1] as int, 256 * d[i] as int + 256 * WordSum(d[..i]));
  }

  lemma {:induction false} BigTailStep(acc: nat, d: seq<byte>)
    requires |d| % 2 == 1 && Reduced(acc) == Reduced(256 * WordSum(d[..|d| - 1]))
    ensures Reduced(acc + 256 * d[|d| - 1] as int) == Reduced(256 * WordSum(d))
  {
    hide WordSum, Reduced;
    WordSumLast(d);
    ReducedAdd(acc, 256 * d[|d| - 1] as int);
    ReducedAdd(256 * WordSum(d[..|d| - 1]), 256 * d[|d| - 1] as int);
  }

  lemma {:induction false} FoldSmall(u: nat)
    requires u < M32
    ensures Fold(u) <= 0x1fffe
  {
  }

  lemma {:induction false} FoldIdle(u: nat)
    requires u / M16 == 0
    ensures Fold(u) == u
  {
  }

  /** Exchanging the bytes of a sum of exchanged words undoes the exchange. */
  lemma {:induction false} SwapAgain(acc: nat, w: nat)
    requires Reduced(acc) == Reduced(256 * w)
    ensures Swap(Reduced(acc)) == Reduced(w)
  {
    SwapReduced(256 * w);
    ReducedCarry(w, 0);
  }

  /** Version 2: little-endian words from the first even address on, the bytes before and after
      them put into one more word, and the bytes of the sum exchanged if the address was odd. */
  method StandardChksum2(addr: nat, d: seq<byte>) returns (r: nat)
    requires |d| <= MAX_LEN
    ensures r == Reduced(WordSum(d))
  {
    hide WordSum, Reduced, Fold, Swap;
    var odd := addr % 2 == 1;
    var hi: nat, lo: nat, i: nat := 0, 0, 0;
    if odd && |d| > 0 {
      hi := d[0] as int;
      i := 1;
    }

    ghost var from, rest := i, d[i..];
    var sum: nat;
    sum, i := AddWords(0, d, i);
    assert d[from..i] == rest[..i - from];
    if |d| - i > 0 {
      lo := d[i] as int;
      WordSumLast(rest);
    } else {
      assert rest[..|rest|] == rest;
    }
    WordSumBound(rest);
    sum := (sum + lo + 256 * hi) % M32;
    FoldTwice(sum);
    var total := sum;
    sum := Fold(sum);
    sum := Fold(sum);
    if odd {
      if d == [] { assert rest == d; } else { assert d == [d[0]] + rest; }
      OddStart(d, total);
      sum := Swap(sum);
    } else {
      assert rest == d;
    }
    r := sum;
  }

  /** The loop that adds 16-bit words as long as there are two bytes. */
  method AddWords(start: nat, d: seq<byte>, from: nat) returns (sum: nat, i: nat)
    requires from <= |d| && start + (|d| - from) / 2 * 0xffff < M32
    ensures i == from + (|d| - from) / 2 * 2
    ensures sum == start + WordSum(d[from..i])
  {
    hide WordSum;
    sum, i := start, from;
    WordSumNone(d[from..]);
    assert d[from..from] == d[from..][..0];
    while |d| - i > 1
      invariant from <= i <= |d| && (i - from) % 2 == 0
      invariant sum == start + WordSum(d[from..i]) <= start + (i - from) / 2 * 0xffff
    {
      WordSumNext(d[from..], i - from);
      assert d[from..][..i - from] == d[from..i] && d[from..][..i - from + 2] == d[from..i + 2];
      sum := (sum + Le16(d, i)) % M32;
      i := i + 2;
    }
  }

  /** The sum taken from the second byte on, with the first in the upper half of its own word,
      is the sum with all bytes exchanged. */
  lemma {:induction false} OddStart(d: seq<byte>, total: nat)
    requires Reduced(total) == Reduced(if d == [] then 0 else WordSum(d[1..]) + 256 * d[0] as int)
    ensures Swap(Reduced(total)) == Reduced(WordSum(d))
  {
    if d != [] {
      var w, x := WordSum(d[1..]), d[0] as int;
      SwapReduced(w + 256 * x);
      assert 256 * (w + 256 * x) == 65536 * x + 256 * w;
      ReducedCarry(x, 256 * w);
      assert d == [d[0]] + d[1..];
      WordSumShift(d[0], d[1..]);
    }
  }

  /** Version 3: like version 2, but eight bytes at a time with end-around carries. */
  method StandardChksum3(addr: nat, d: seq<byte>) returns (r: nat)
    ensures r == Reduced(WordSum(d))
  {
    hide WordSum, Reduced, Fold, Swap;
    var odd := addr % 2 == 1;
    var hi: nat, lo: nat, i: nat := 0, 0, 0;
    if odd && |d| > 0 {
      hi := d[0] as int;
      i := 1;
    }

    ghost var rest := d[i..];
    var sum: nat;
    sum, i := AddLongs(addr, d, i);
    FoldReduces(sum);
    FoldSmall(sum);
    sum := Fold(sum);
    ghost var folded, mid := sum, i;
    sum, i := AddWords(sum, d, i);
    if |d| - i > 0 {
      lo := d[i] as int;
    }
    SumOfRest(d, |d| - |rest|, mid, folded, sum, lo);
    ReducedAdd(sum + lo, 256 * hi);
    sum := (sum + lo + 256 * hi) % M32;
    FoldTwice(sum);
    ReducedAdd(WordSum(rest), 256 * hi);
    ghost var total := sum;
    sum := Fold(sum);
    sum := Fold(sum);
    if odd {
      if d == [] { assert rest == d; WordSumNone(d); assert d[..0] == d; }
      OddStart(d, total);
      sum := Swap(sum);
    } else {
      assert rest == d;
    }
    r := sum;
  }

  /** A 32-bit little-endian word counts as the sum of its halves. */
  function Le32(d: seq<byte>, i: nat): (w: nat)
    requires i + 4 <= |d|
    ensures w < M32
  {
    Le16(d, i) + 65536 * Le16(d, i + 2)
  }

  /** One half of the ping-pong: addition with the carry added back. */
  method AddBack(sum: nat, w: nat) returns (tmp: nat)
    requires sum < M32 && w < M32
    ensures tmp < M32 && Reduced(tmp) == Reduced(sum + w)
  {
    tmp := (sum + w) % M32;
    if tmp < sum {
      tmp := tmp + 1;
      if sum + w >= M32 {
        ReducedMultiple(tmp, 65537);
      }
    }
  }

  lemma {:induction false} LongStep(sum: nat, d: seq<byte>, i: nat, tmp: nat)
    requires i % 2 == 0 && i + 4 <= |d| && Reduced(sum) == Reduced(WordSum(d[..i]))
    requires Reduced(tmp) == Reduced(sum + Le32(d, i))
    ensures Reduced(tmp) == Reduced(WordSum(d[..i + 4]))
  {
    hide WordSum, Reduced, Le16;
    WordSumNext(d, i);
    WordSumNext(d, i + 2);
    ReducedAdd(sum, Le32(d, i));
    ReducedAdd(WordSum(d[..i]), Le32(d, i));
    ReducedCarry(Le16(d, i + 2), Le16(d, i) + WordSum(d[..i]));
  }

  /** The 16-bit word up to a 32-bit boundary, and the unrolled loop. */
  method AddLongs(addr: nat, d: seq<byte>, from: nat) returns (sum: nat, i: nat)
    requires from <= |d|
    ensures from <= i <= |d| && (i - from) % 2 == 0 && |d| - i <= 7
    ensures sum < M32 && Reduced(sum) == Reduced(WordSum(d[from..i]))
  {
    hide WordSum, Reduced, Le16, Le32;
    ghost var e := d[from..];
    sum, i := 0, from;
    WordSumNone(e);
    if (addr + i) % 4 != 0 && |d| - i > 1 {
      WordSumNext(e, 0);
      LeSame(d, from, i);
      sum := sum + Le16(d, i);
      i := i + 2;
    }
    while |d| - i > 7
      invariant from <= i <= |d| && (i - from) % 2 == 0
      invariant sum < M32 && Reduced(sum) == Reduced(WordSum(e[..i - from]))
    {
      LeSame(d, from, i);
      LeSame(d, from, i + 4);
      var tmp := AddBack(sum, Le32(d, i));
      LongStep(sum, e, i - from, tmp);
      sum := AddBack(tmp, Le32(d, i + 4));
      LongStep(tmp, e, i + 4 - from, sum);
      i := i + 8;
    }
    assert e[..i - from] == d[from..i];
  }

  lemma {:induction false} LeSame(d: seq<byte>, from: nat, i: nat)
    requires from <= i && i + 2 <= |d|
    ensures Le16(d[from..], i - from) == Le16(d, i)
    ensures i + 4 <= |d| ==> Le32(d[from..], i - from) == Le32(d, i)
  {
  }

  lemma {:induction false} SumOfTail(d: seq<byte>, mid: nat, i: nat, lo: nat)
    requires mid <= i <= |d| <= i + 1 && (i - mid) % 2 == 0 && lo == if i < |d| then d[i] as int else 0
    ensures WordSum(d[mid..]) == WordSum(d[mid..i]) + lo
  {
    var b := d[mid..];
    if i < |d| {
      assert b[..|b| - 1] == d[mid..i] && b[|b| - 1] == d[i];
      WordSumLast(b);
    } else {
      assert b == d[mid..i];
    }
  }

  /** The three stretches of the data add up to the whole. */
  lemma {:induction false} SumOfRest(d: seq<byte>, from: nat, mid: nat, folded: nat, sum: nat, lo: nat)
    requires from <= mid <= |d| && (mid - from) % 2 == 0 && |d| - mid <= 7
    requires folded <= 0x1fffe && Reduced(folded) == Reduced(WordSum(d[from..mid]))
    requires var i := mid + (|d| - mid) / 2 * 2;
             sum == folded + WordSum(d[mid..i]) && lo == if i < |d| then d[i] as int else 0
    ensures Reduced(sum + lo) == Reduced(WordSum(d[from..])) && sum <= 0x1fffe + 3 * 0xffff && lo < 256
  {
    hide Reduced, WordSum;
    var a, b := d[from..mid], d[mid..];
    assert d[from..] == a + b;
    WordSumEven(a, b);
    var i := mid + (|d| - mid) / 2 * 2;
    WordSumBound(d[mid..i]);
    SumOfTail(d, mid, i, lo);
    ReducedAdd(folded, WordSum(b));
    ReducedAdd(WordSum(a), WordSum(b));
  }

  // ---------------------------------------------------------------------
  // Chains

  /** The payload of one pbuf, and where it lies. */
  datatype Payload = Payload(addr: nat, bytes: seq<byte>)

  function Flat(chain: seq<Payload>): seq<byte> {
    if chain == [] then [] else Flat(chain[..|chain| - 1]) + chain[|chain| - 1].bytes
  }

  /** Lengths fit the u16_t len field. */
  ghost predicate ChainOk(chain: seq<Payload>) {
    forall i | 0 <= i < |chain| :: |chain[i].bytes| < M16
  }

  lemma {:induction false} FlatNext(chain: seq<Payload>, i: nat)
    requires i < |chain|
    ensures Flat(chain[..i + 1]) == Flat(chain[..i]) + chain[i].bytes
  {
    assert chain[..i + 1][..i] == chain[..i];
  }

  /** The scale the accumulator is at. */
  function Scale(swapped: bool): nat {
    if swapped then 256 else 1
  }

  /** Adding the sum of the next bytes to an accumulator that is swapped exactly when an odd
      number of bytes came before. */
  lemma {:induction false} ChainAdd(acc0: nat, p: seq<byte>, c: seq<byte>, swapped: bool)
    requires swapped <==> |p| % 2 == 1
    ensures Reduced(Reduced(Scale(swapped) * (acc0 + WordSum(p))) + Reduced(WordSum(c)))
         == Reduced(Scale(swapped) * (acc0 + WordSum(p + c)))
  {
    hide WordSum, Reduced;
    var base, w := acc0 + WordSum(p), WordSum(c);
    ReducedAdd(Scale(swapped) * base, Reduced(w));
    ReducedAdd(w, Scale(swapped) * base);
    if swapped {
      WordSumOdd(p, c);
      ReducedAdd(WordSum(p + c), acc0);
      ReducedAdd(WordSum(p) + 256 * w, acc0);
      ReducedScale(acc0 + WordSum(p + c));
      ReducedScale(acc0 + (WordSum(p) + 256 * w));
      assert 256 * (acc0 + (WordSum(p) + 256 * w)) == 65536 * w + 256 * base;
      ReducedCarry(w, 256 * base);
    } else {
      WordSumEven(p, c);
    }
  }

  /** Swapping the accumulator changes its scale. */
  lemma {:induction false} ChainSwap(swapped: bool, base: nat)
    ensures Swap(Reduced(Scale(swapped) * base)) == Reduced(Scale(!swapped) * base)
  {
    SwapReduced(Scale(swapped) * base);
    if swapped {
      assert 256 * (256 * base) == 65536 * base + 0;
      ReducedCarry(base, 0);
    }
  }

  /** The first n bytes of a chain, or all of them if there are fewer. */
  function Head(chain: seq<Payload>, n: nat): seq<byte> {
    Flat(chain)[..Min(n, |Flat(chain)|)]
  }

  lemma {:induction false} HeadNext(chain: seq<Payload>, n: nat, i: nat, left: int, chklen: int)
    requires i < |chain| && left == n - |Head(chain[..i], n)| && left > 0
    requires chklen == if |chain[i].bytes| > left then left else |chain[i].bytes|
    ensures Head(chain[..i + 1], n) == Head(chain[..i], n) + chain[i].bytes[..chklen]
  {
    hide Flat;
    FlatNext(chain, i);
  }

  lemma {:induction false} HeadEnd(chain: seq<Payload>, n: nat, i: nat, left: int)
    requires i <= |chain| && left == n - |Head(chain[..i], n)|
    requires i == |chain| || left <= 0
    ensures Head(chain[..i], n) == Head(chain, n)
  {
    hide Flat;
    FlatPrefix(chain, i);
    if i == |chain| {
      assert chain[..i] == chain;
    }
  }

  /** The loop of inet_cksum_pseudo_partial_base with the final exchange, over at most
      chksumLen bytes of the chain; inet_cksum_pseudo_base and inet_chksum_pbuf are the case
      that chksumLen covers everything. The parity that counts is that of the pbuf, even when
      only part of it is summed. */
  method ChainSum(chain: seq<Payload>, chksumLen: nat, acc0: nat) returns (acc: nat)
    requires ChainOk(chain) && acc0 < M16
    ensures acc == Reduced(acc0 + WordSum(Head(chain, chksumLen)))
  {
    hide WordSum, Reduced, Fold, Swap, Head;
    var left: int, swapped, i := chksumLen, false, 0;
    acc := acc0;
    NoneYet(chain, chksumLen, acc0);
    while i < |chain| && left > 0
      invariant i <= |chain| && left == chksumLen - |Head(chain[..i], chksumLen)|
      invariant left > 0 ==> (swapped <==> |Head(chain[..i], chksumLen)| % 2 == 1)
      invariant acc < M16
      invariant acc == Reduced(Scale(swapped) * (acc0 + WordSum(Head(chain[..i], chksumLen))))
    {
      var q := chain[i].bytes;
      var chklen := if |q| > left then left else |q|;
      ghost var p := Head(chain[..i], chksumLen);
      HeadNext(chain, chksumLen, i, left, chklen);
      var sum := StandardChksum2(chain[i].addr, q[..chklen]);
      acc := Accumulate(acc, sum, acc0, p, q[..chklen], swapped);
      left := left - chklen;
      if |q| % 2 != 0 {
        ChainSwap(swapped, acc0 + WordSum(p + q[..chklen]));
        swapped := !swapped;
        acc := Swap(acc);
      }
      i := i + 1;
    }
    HeadEnd(chain, chksumLen, i, left);
    if swapped {
      ChainSwap(swapped, acc0 + WordSum(Head(chain, chksumLen)));
      acc := Swap(acc);
    }
    ScaleOne(acc0 + WordSum(Head(chain, chksumLen)));
  }

  method Accumulate(acc: nat, sum: nat, ghost acc0: nat, ghost p: seq<byte>, ghost c: seq<byte>, ghost swapped: bool)
    returns (r: nat)
    requires swapped <==> |p| % 2 == 1
    requires acc == Reduced(Scale(swapped) * (acc0 + WordSum(p))) && sum == Reduced(WordSum(c))
    ensures r < M16 && r == Reduced(Scale(swapped) * (acc0 + WordSum(p + c)))
  {
    hide WordSum, Reduced, Fold;
    ChainAdd(acc0, p, c, swapped);
    FoldOnce(acc + sum);
    r := Fold(acc + sum);
  }

  lemma {:induction false} ScaleOne(base: nat)
    ensures Scale(false) * base == base
  {
  }

  lemma {:induction false} NoneYet(chain: seq<Payload>, n: nat, acc0: nat)
    requires acc0 < M16
    ensures Head(chain[..0], n) == [] && Reduced(Scale(false) * (acc0 + WordSum([]))) == acc0
  {
    ReducedSmall(acc0);
  }

  lemma {:induction false} FlatPrefix(chain: seq<Payload>, i: nat)
    requires i <= |chain|
    ensures Flat(chain[..i]) <= Flat(chain)
    decreases |chain| - i
  {
    if i < |chain| {
      FlatNext(chain, i);
      FlatPrefix(chain, i + 1);
    } else {
      assert chain[..i] == chain;
    }
  }

  /** inet_chksum_pbuf: the checksum of a chain is exactly that of its bytes, however they are
      split over the pbufs and wherever these lie. */
  method InetChksumPbuf(chain: seq<Payload>) returns (r: nat)
    requires ChainOk(chain)
    ensures r == InternetChecksum(Flat(chain))
  {
    hide WordSum, Reduced, Flat;
    HeadWhole(chain);
    var acc := ChainSum(chain, |Flat(chain)|, 0);
    r := 0xffff - acc;
  }

  /** inet_chksum */
  method InetChksum(addr: nat, d: seq<byte>) returns (r: nat)
    requires |d| < M16
    ensures r == InternetChecksum(d)
  {
    var sum := StandardChksum2(addr, d);
    r := 0xffff - sum;
  }

  lemma {:induction false} HeadWhole(chain: seq<Payload>)
    ensures Head(chain, |Flat(chain)|) == Flat(chain)
  {
  }

  // ---------------------------------------------------------------------
  // Pseudo headers

  /** The pseudo header of TCP and UDP over IPv4, section 3.1 of RFC 793. */
  function PseudoHeader(src: seq<byte>, dst: seq<byte>, proto: byte, protoLen: nat): seq<byte>
    requires |src| == 4 && |dst| == 4 && protoLen < M16
  {
    src + dst + [0, proto, (protoLen / 256) as byte, (protoLen % 256) as byte]
  }

  lemma {:induction false} PseudoSum(src: seq<byte>, dst: seq<byte>, proto: byte, protoLen: nat)
    requires |src| == 4 && |dst| == 4 && protoLen < M16
    ensures WordSum(PseudoHeader(src, dst, proto, protoLen))
         == Le16(src, 0) + Le16(src, 2) + Le16(dst, 0) + Le16(dst, 2) + (Swap(proto as int) + Swap(protoLen))
  {
    var tail := [0, proto, (protoLen / 256) as byte, (protoLen % 256) as byte];
    WordSumEven(src + dst, tail);
    WordSumEven(src, dst);
    FourBytes(src);
    FourBytes(dst);
    FourBytes(tail);
  }

  lemma {:induction false} FourBytes(d: seq<byte>)
    requires |d| == 4
    ensures WordSum(d) == Le16(d, 0) + Le16(d, 2)
  {
    assert WordSum(d[2..]) == d[2] as int + 256 * d[3] as int;
  }

  /** inet_chksum_pseudo_partial: the checksum of the pseudo header followed by the first
      chksumLen bytes of the chain. */
  method InetChksumPseudoPartial(chain: seq<Payload>, proto: byte, protoLen: nat, chksumLen: nat,
                                 src: seq<byte>, dst: seq<byte>)
    returns (r: nat)
    requires ChainOk(chain) && |src| == 4 && |dst| == 4 && protoLen < M16
    ensures r == InternetChecksum(PseudoHeader(src, dst, proto, protoLen) + Head(chain, chksumLen))
  {
    hide WordSum, Reduced, Fold, Swap, Head, Le16;
    var addrs := Le16(src, 0) + Le16(src, 2) + Le16(dst, 0) + Le16(dst, 2);
    FoldTwice(addrs);
    var acc := ChainSum(chain, chksumLen, Fold(Fold(addrs)));
    var sum := acc + Swap(proto as int) + Swap(protoLen);
    FoldTwice(sum);
    PseudoAdds(addrs, WordSum(Head(chain, chksumLen)), Swap(proto as int) + Swap(protoLen));
    PseudoSum(src, dst, proto, protoLen);
    WordSumEven(PseudoHeader(src, dst, proto, protoLen), Head(chain, chksumLen));
    r := 0xffff - Fold(Fold(sum));
  }

  lemma {:induction false} PseudoAdds(a: nat, d: nat, t: nat)
    ensures Reduced(Reduced(Reduced(a) + d) + t) == Reduced(a + t + d)
  {
    hide Reduced;
    ReducedAdd(a, d);
    ReducedAdd(a + d, t);
  }

  /** inet_chksum_pseudo: the checksum of the pseudo header followed by the whole chain. */
  method InetChksumPseudo(chain: seq<Payload>, proto: byte, protoLen: nat, src: seq<byte>, dst: seq<byte>)
    returns (r: nat)
    requires ChainOk(chain) && |src| == 4 && |dst| == 4 && protoLen < M16
    ensures r == InternetChecksum(PseudoHeader(src, dst, proto, protoLen) + Flat(chain))
  {
    hide WordSum, Reduced, Flat;
    HeadWhole(chain);
    r := InetChksumPseudoPartial(chain, proto, protoLen, |Flat(chain)|, src, dst);
  }

  // ---------------------------------------------------------------------
  // The receiving side

  /** A 16-bit value stored at an offset, as the host stores it. */
  function Stored(d: seq<byte>, at: nat, c: nat): seq<byte>
    requires at + 2 <= |d| && c < M16
  {
    d[..at] + [(c % 256) as byte, (c / 256) as byte] + d[at + 2..]
  }

  lemma {:induction false} StoredSum(d: seq<byte>, at: nat, c: nat)
    requires at % 2 == 0 && at + 2 <= |d| && d[at] == 0 && d[at + 1] == 0 && c < M16
    ensures WordSum(Stored(d, at, c)) == WordSum(d) + c
  {
    hide WordSum;
    WordSumAround(d[..at], [(c % 256) as byte, (c / 256) as byte], d[at + 2..]);
    WordSumAround(d[..at], [0, 0], d[at + 2..]);
    assert d == d[..at] + [0, 0] + d[at + 2..];
  }

  lemma {:induction false} WordSumAround(a: seq<byte>, w: seq<byte>, b: seq<byte>)
    requires |a| % 2 == 0 && |w| == 2
    ensures WordSum(a + w + b) == WordSum(a) + Le16(w, 0) + WordSum(b)
  {
    WordSumEven(a + w, b);
    WordSumEven(a, w);
  }

  /** A receiver that sums everything up, checksum field included, gets 0 exactly when the
      field holds the checksum of the rest, taken with the field at 0; where that is 0, 0xffff
      passes as well. */
  lemma {:induction false} ReceiverAccepts(d: seq<byte>, at: nat, c: nat)
    requires at % 2 == 0 && at + 2 <= |d| && d[at] == 0 && d[at + 1] == 0 && c < M16
    ensures InternetChecksum(Stored(d, at, c)) == 0
       <==> c == InternetChecksum(d) || (c == 0xffff && InternetChecksum(d) == 0)
  {
    StoredSum(d, at, c);
    AcceptSum(WordSum(d), c);
  }

  lemma {:induction false} AcceptSum(w: nat, c: nat)
    requires c < M16
    ensures Reduced(w + c) == 0xffff <==> c == 0xffff - Reduced(w) || (c == 0xffff && Reduced(w) == 0xffff)
  {
    var r := Reduced(w);
    ReducedAdd(w, c);
    if r + c > 0xffff {
      ReducedMultiple(r + c - 0xffff, 1);
      ReducedSmall(r + c - 0xffff);
    } else {
      ReducedSmall(r + c);
    }
  }
}
