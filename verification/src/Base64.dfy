/**
 The base64 coding of rpc/base64.hpp, against sections 4 and 3.3 of RFC 4648. The shifts and
 masks of the code are written as the divisions and remainders they are on unsigned bytes.
 */
module Base64 {
  import opened Common

  // ---------------------------------------------------------------------
  // The alphabet

  /** base64_chars[v] */
  function Symbol(v: nat): char
    requires v < 64
  {
    if v < 26 then 'A' + v as char
    else if v < 52 then 'a' + (v - 26) as char
    else if v < 62 then '0' + (v - 52) as char
    else if v == 62 then '+'
    else '/'
  }

  /** is_base64 */
  predicate IsBase64(c: char) {
    'A' <= c <= 'Z' || 'a' <= c <= 'z' || '0' <= c <= '9' || c == '+' || c == '/'
  }

  /** base64_chars.find(c) & 0xff */
  function Value(c: char): (v: nat)
    ensures v < 256 && (IsBase64(c) <==> v < 64)
  {
    if 'A' <= c <= 'Z' then (c - 'A') as nat
    else if 'a' <= c <= 'z' then (c - 'a') as nat + 26
    else if '0' <= c <= '9' then (c - '0') as nat + 52
    else if c == '+' then 62
    else if c == '/' then 63
    else 255
  }

  lemma {:induction false} ValueOfSymbol(v: nat)
    requires v < 64
    ensures IsBase64(Symbol(v)) && Symbol(v) != '=' && Value(Symbol(v)) == v
  {
  }

  // ---------------------------------------------------------------------
  // The reference

  /** Values of six bits. */
  ghost predicate Small(v: seq<nat>) {
    forall k | 0 <= k < |v| :: v[k] < 64
  }

  /** The four values of three bytes. */
  function Quad(a: byte, b: byte, c: byte): (r: seq<nat>)
    ensures |r| == 4 && Small(r)
  {
    [a as nat / 4, a as nat % 4 * 16 + b as nat / 16, b as nat % 16 * 4 + c as nat / 64, c as nat % 64]
  }

  function Symbols(v: seq<nat>): (r: seq<char>)
    requires Small(v)
    ensures |r| == |v|
  {
    if v == [] then [] else [Symbol(v[0])] + Symbols(v[1..])
  }

  /** The encoding: three bytes at a time, the rest filled up with zeros and padded. */
  function Encode(x: seq<byte>): seq<char> {
    if x == [] then []
    else if |x| == 1 then Symbols(Quad(x[0], 0, 0)[..2]) + "=="
    else if |x| == 2 then Symbols(Quad(x[0], x[1], 0)[..3]) + "="
    else Symbols(Quad(x[0], x[1], x[2])) + Encode(x[3..])
  }

  /** The bytes of a sequence of values: four at a time, the rest as far as it makes bytes. */
  function Unpack(v: seq<nat>): seq<byte>
    requires Small(v)
  {
    if |v| < 2 then []
    else if |v| == 2 then [First(v)]
    else if |v| == 3 then [First(v), Second(v)]
    else [First(v), Second(v), Third(v)] + Unpack(v[4..])
  }

  function First(v: seq<nat>): byte
    requires |v| >= 2 && v[0] < 64 && v[1] < 64
  {
    (v[0] * 4 + v[1] / 16) as byte
  }

  function Second(v: seq<nat>): byte
    requires |v| >= 3 && v[1] < 64 && v[2] < 64
  {
    (v[1] % 16 * 16 + v[2] / 4) as byte
  }

  function Third(v: seq<nat>): byte
    requires |v| >= 4 && v[2] < 64 && v[3] < 64
  {
    (v[2] % 4 * 64 + v[3]) as byte
  }

  /** The values up to the first character that is not in the alphabet. */
  function Values(s: seq<char>): (v: seq<nat>)
    ensures Small(v)
  {
    if s == [] || !IsBase64(s[0]) then [] else [Value(s[0])] + Values(s[1..])
  }

  function Decode(s: seq<char>): seq<byte> {
    Unpack(Values(s))
  }

  /** The four values are the digits to base 64 of the 24-bit number that the bytes make up. */
  lemma {:induction false} QuadIsNumber(a: byte, b: byte, c: byte)
    ensures var v := Quad(a, b, c);
            ((v[0] * 64 + v[1]) * 64 + v[2]) * 64 + v[3] == (a as nat * 256 + b as nat) * 256 + c as nat
  {
  }

  /** The alphabet of table 1 of RFC 4648: capitals, small letters, digits, plus and slash. */
  lemma {:induction false} SymbolsInOrder(v: nat)
    requires v < 63
    ensures Symbol(0) == 'A' && Symbol(25) == 'Z' && Symbol(26) == 'a' && Symbol(51) == 'z'
    ensures Symbol(52) == '0' && Symbol(61) == '9' && Symbol(62) == '+' && Symbol(63) == '/'
    ensures v != 25 && v != 51 && v < 61 ==> Symbol(v + 1) as int == Symbol(v) as int + 1
  {
  }

  /** Padding is just what fills up the last four, and everything before is of the alphabet. */
  lemma {:induction false} EncodedForm(x: seq<byte>, i: nat)
    requires i < |Encode(x)|
    ensures if i + (3 - |x| % 3) % 3 < |Encode(x)| then IsBase64(Encode(x)[i]) else Encode(x)[i] == '='
  {
    if |x| > 2 {
      var q, rest := Quad(x[0], x[1], x[2]), Encode(x[3..]);
      assert Encode(x) == Symbols(q) + rest && (|x| - 3) % 3 == |x| % 3;
      hide Encode, Quad, Symbols, IsBase64, Symbol;
      if i < 4 {
        EncodedLength(x[3..]);
        SymbolsAt(q, i);
      } else {
        EncodedForm(x[3..], i - 4);
      }
    } else if |x| == 1 {
      hide Quad, Symbols, IsBase64, Symbol;
      if i < 2 { SymbolsAt(Quad(x[0], 0, 0)[..2], i); }
    } else {
      hide Quad, Symbols, IsBase64, Symbol;
      if i < 3 { SymbolsAt(Quad(x[0], x[1], 0)[..3], i); }
    }
  }

  lemma {:induction false} SymbolsAt(v: seq<nat>, i: nat)
    requires Small(v) && i < |v|
    ensures Symbols(v)[i] == Symbol(v[i]) && IsBase64(Symbols(v)[i])
  {
    if i > 0 { SymbolsAt(v[1..], i - 1); }
  }

  // ---------------------------------------------------------------------
  // Round trip

  lemma {:induction false} EncodedLength(x: seq<byte>)
    ensures |Encode(x)| == (|x| + 2) / 3 * 4
  {
    if |x| > 2 {
      EncodedLength(x[3..]);
    }
  }

  lemma {:induction false} ValuesOfSymbols(v: seq<nat>, rest: seq<char>)
    requires Small(v)
    ensures Values(Symbols(v) + rest) == v + Values(rest)
    decreases |v|
  {
    hide Symbol, Value, IsBase64, Values;
    if v == [] {
      assert Symbols(v) + rest == rest;
    } else {
      ValueOfSymbol(v[0]);
      ValuesOfSymbols(v[1..], rest);
      ValuesCons(Symbol(v[0]), Symbols(v[1..]) + rest);
      assert Symbols(v) + rest == [Symbol(v[0])] + (Symbols(v[1..]) + rest);
      assert v + Values(rest) == [v[0]] + (v[1..] + Values(rest));
    }
  }

  lemma {:induction false} ValuesCons(c: char, s: seq<char>)
    requires IsBase64(c)
    ensures Values([c] + s) == [Value(c)] + Values(s)
  {
    hide Value, IsBase64;
    assert ([c] + s)[1..] == s;
  }

  lemma {:induction false} ValuesOfPadding(s: seq<char>)
    requires s == "=" || s == "=="
    ensures Values(s) == []
  {
  }

  lemma {:induction false} QuadBack(a: byte, b: byte, c: byte)
    ensures var v := Quad(a, b, c); First(v) == a && Second(v) == b && Third(v) == c
  {
  }

  /** Decoding an encoded byte string gives it back. */
  lemma {:induction false} RoundTrip(x: seq<byte>)
    ensures Decode(Encode(x)) == x
    decreases |x|
  {
    if |x| == 1 {
      OneLeft(x[0]);
      assert x == [x[0]];
    } else if |x| == 2 {
      TwoLeft(x[0], x[1]);
      assert x == [x[0], x[1]];
    } else if |x| > 2 {
      RoundTrip(x[3..]);
      hide Encode;
      RoundTripStep(x[0], x[1], x[2], Encode(x[3..]));
      assert x == [x[0], x[1], x[2]] + x[3..];
    }
  }

  lemma {:induction false} OneLeft(a: byte)
    ensures Decode(Encode([a])) == [a]
  {
    hide Values, Symbols, Quad, First, Second;
    var v := Quad(a, 0, 0);
    QuadBack(a, 0, 0);
    ValuesOfPadding("==");
    Partly(v[..2], "==");
    PrefixBytes(v);
    UnpackThree(v[..2]);
  }

  lemma {:induction false} TwoLeft(a: byte, b: byte)
    ensures Decode(Encode([a, b])) == [a, b]
  {
    hide Values, Symbols, Quad, First, Second;
    var v := Quad(a, b, 0);
    QuadBack(a, b, 0);
    ValuesOfPadding("=");
    Partly(v[..3], "=");
    PrefixBytes(v);
    UnpackThree(v[..3]);
  }

  lemma {:induction false} PrefixBytes(v: seq<nat>)
    requires |v| == 4 && Small(v)
    ensures Small(v[..2]) && Small(v[..3])
    ensures First(v[..2]) == First(v[..3]) == First(v) && Second(v[..3]) == Second(v)
  {
  }

  lemma {:induction false} UnpackThree(v: seq<nat>)
    requires 2 <= |v| <= 3 && Small(v)
    ensures Unpack(v) == if |v| == 2 then [First(v)] else [First(v), Second(v)]
  {
  }

  lemma {:induction false} Partly(v: seq<nat>, padding: seq<char>)
    requires Small(v) && Values(padding) == []
    ensures Values(Symbols(v) + padding) == v
  {
    hide *;
    ValuesOfSymbols(v, padding);
    assert v + [] == v;
  }

  lemma {:induction false} RoundTripStep(a: byte, b: byte, c: byte, rest: seq<char>)
    ensures Decode(Symbols(Quad(a, b, c)) + rest) == [a, b, c] + Decode(rest)
  {
    hide Quad, First, Second, Third, Symbols, Values, Unpack;
    QuadBack(a, b, c);
    ValuesOfSymbols(Quad(a, b, c), rest);
    UnpackFour(Quad(a, b, c), Values(rest));
  }

  lemma {:induction false} UnpackFour(v: seq<nat>, more: seq<nat>)
    requires |v| == 4 && Small(v) && Small(more)
    ensures Unpack(v + more) == [First(v), Second(v), Third(v)] + Unpack(more)
  {
    assert (v + more)[4..] == more;
  }

  // ---------------------------------------------------------------------
  // base64_encode

  lemma {:induction false} EncodeAppend(a: seq<byte>, b: seq<byte>)
    requires |a| % 3 == 0
    ensures Encode(a + b) == Encode(a) + Encode(b)
    decreases |a|
  {
    hide Symbols, Quad;
    if a == [] {
      assert a + b == b;
    } else {
      EncodeAppend(a[3..], b);
      assert (a + b)[3..] == a[3..] + b;
      var q := Symbols(Quad(a[0], a[1], a[2]));
      assert q + (Encode(a[3..]) + Encode(b)) == (q + Encode(a[3..])) + Encode(b);
    }
  }

  /** Three bytes into four values; the tail leaves the last one as it was. */
  method Pack(three: array<byte>, four: array<nat>, whole: bool)
    requires three.Length == 3 && four.Length == 4
    modifies four
    ensures four[..3] == Quad(three[0], three[1], three[2])[..3]
    ensures whole ==> four[..] == Quad(three[0], three[1], three[2])
  {
    four[0] := three[0] as nat / 4;
    four[1] := three[0] as nat % 4 * 16 + three[1] as nat / 16;
    four[2] := three[1] as nat % 16 * 4 + three[2] as nat / 64;
    if whole {
      four[3] := three[2] as nat % 64;
    }
  }

  lemma {:induction false} SymbolsAppend(v: seq<nat>, x: nat)
    requires Small(v) && x < 64
    ensures Small(v + [x]) && Symbols(v + [x]) == Symbols(v) + [Symbol(x)]
    decreases |v|
  {
    hide Symbol;
    if v != [] {
      SymbolsAppend(v[1..], x);
      assert (v + [x])[1..] == v[1..] + [x];
    }
  }

  method AppendSymbols(ret: seq<char>, four: array<nat>, n: nat) returns (r: seq<char>)
    requires n <= four.Length && Small(four[..n])
    ensures r == ret + Symbols(four[..n])
  {
    hide Symbol;
    r := ret;
    for i := 0 to n
      invariant Small(four[..i]) && r == ret + Symbols(four[..i])
    {
      SymbolsAppend(four[..i], four[i]);
      assert four[..i + 1] == four[..i] + [four[i]];
      r := r + [Symbol(four[i])];
    }
  }

  /** base64_encode */
  method EncodeBytes(x: seq<byte>) returns (ret: seq<char>)
    ensures ret == Encode(x) && |ret| == (|x| + 2) / 3 * 4 && Decode(ret) == x
  {
    hide Encode, Decode, Symbols, Quad;
    EncodedLength(x);
    RoundTrip(x);
    var three := new byte[3];
    var four := new nat[4];
    var n, i := 0, 0;
    ret := [];
    NothingEncoded();
    while n < |x|
      invariant 0 <= i < 3 && i <= n <= |x| && (n - i) % 3 == 0
      invariant ret == Encode(x[..n - i]) && three[..i] == x[n - i..n]
    {
      three[i] := x[n];
      assert three[..i + 1] == three[..i] + [x[n]];
      assert x[n - i..n + 1] == x[n - i..n] + [x[n]];
      i, n := i + 1, n + 1;
      if i == 3 {
        assert three[..] == three[..3];
        Pack(three, four, true);
        assert four[..4] == four[..];
        ret := AppendSymbols(ret, four, 4);
        EncodedMore(x, n, three[..]);
        i := 0;
      }
    }
    if i != 0 {
      ret := EncodeTail(ret, three, four, i);
      EncodeAppend(x[..n - i], x[n - i..]);
      assert x == x[..n - i] + x[n - i..] && x[n - i..] == x[n - i..n];
    } else {
      assert x[..n] == x;
    }
  }

  lemma {:induction false} NothingEncoded()
    ensures Encode([]) == []
  {
  }

  lemma {:induction false} EncodedMore(x: seq<byte>, n: nat, three: seq<byte>)
    requires 3 <= n <= |x| && (n - 3) % 3 == 0 && |three| == 3 && three == x[n - 3..n]
    ensures Encode(x[..n]) == Encode(x[..n - 3]) + Symbols(Quad(three[0], three[1], three[2]))
  {
    EncodeAppend(x[..n - 3], three);
    assert x[..n] == x[..n - 3] + three;
    assert three[3..] == [];
  }

  method EncodeTail(before: seq<char>, three: array<byte>, four: array<nat>, i: nat) returns (ret: seq<char>)
    requires three.Length == 3 && four.Length == 4 && 0 < i < 3
    modifies three, four
    ensures ret == before + Encode(old(three[..i]))
  {
    ghost var tail := three[..i];
    for j := i to 3
      invariant three[..i] == tail && forall k | i <= k < j :: three[k] == 0
    {
      three[j] := 0;
    }
    Pack(three, four, false);
    TailSmall(four[..3], three[0], three[1], three[2], i);
    assert four[..3][..i + 1] == four[..i + 1];
    ret := AppendSymbols(before, four, i + 1);
    ghost var soFar := ret;
    var k := i;
    while k < 3
      invariant i <= k <= 3 && ret == soFar + Padding(k - i)
    {
      ret := ret + ['='];
      k := k + 1;
    }
    EncodedTail(tail, three[0], three[1], three[2]);
  }

  function Padding(n: nat): seq<char> {
    if n == 0 then [] else Padding(n - 1) + ['=']
  }

  lemma {:induction false} TailSmall(q: seq<nat>, a: byte, b: byte, c: byte, i: nat)
    requires q == Quad(a, b, c)[..3] && i < 3
    ensures Small(q[..i + 1]) && q[..i + 1] == Quad(a, b, c)[..i + 1]
  {
  }

  lemma {:induction false} EncodedTail(tail: seq<byte>, a: byte, b: byte, c: byte)
    requires 0 < |tail| < 3 && a == tail[0] && b == (if |tail| > 1 then tail[1] else 0) && c == 0
    ensures Encode(tail) == Symbols(Quad(a, b, c)[..|tail| + 1]) + Padding(3 - |tail|)
  {
    hide Symbols, Quad;
    assert Padding(1) == "=" && Padding(2) == "==";
  }

  // ---------------------------------------------------------------------
  // base64_decode

  /** Values go on just as long as the characters are in the alphabet. */
  lemma {:induction false} ValuesAt(s: seq<char>)
    ensures |Values(s)| <= |s| && (|Values(s)| < |s| ==> !IsBase64(s[|Values(s)|]))
    ensures forall k | 0 <= k < |Values(s)| :: IsBase64(s[k]) && Values(s)[k] == Value(s[k])
  {
    hide Value, IsBase64;
    if s != [] && IsBase64(s[0]) {
      ValuesAt(s[1..]);
      var v, w := Values(s), Values(s[1..]);
      forall k | 0 <= k < |v| ensures IsBase64(s[k]) && v[k] == Value(s[k]) {
        if k > 0 { assert v[k] == w[k - 1] && s[1..][k - 1] == s[k]; }
      }
    }
  }

  lemma {:induction false} UnpackAppend(a: seq<nat>, b: seq<nat>)
    requires |a| % 4 == 0 && Small(a) && Small(b)
    ensures Small(a + b) && Unpack(a + b) == Unpack(a) + Unpack(b)
    decreases |a|
  {
    hide First, Second, Third, Unpack;
    NothingUnpacked();
    if a == [] {
      assert a + b == b;
    } else {
      UnpackAppend(a[4..], b);
      assert a == a[..4] + a[4..];
      assert a + b == a[..4] + (a[4..] + b);
      UnpackFour(a[..4], a[4..] + b);
      UnpackFour(a[..4], a[4..]);
    }
  }

  /** The first n of the characters in the array are replaced by their values. */
  method LookUp(four: array<nat>, n: nat, ghost s: seq<char>)
    requires four.Length == 4 && n <= 4 && |s| == n
    requires forall k | 0 <= k < n :: IsBase64(s[k]) && four[k] == s[k] as nat
    modifies four
    ensures forall k | 0 <= k < n :: four[k] == Value(s[k])
  {
    hide Value;
    for j := 0 to n
      invariant forall k | 0 <= k < j :: four[k] == Value(s[k])
      invariant forall k | j <= k < n :: four[k] == s[k] as nat
    {
      four[j] := Value(four[j] as char);
    }
  }

  /** The bytes of the values in the array; what is not a value yet may be anything. */
  method Join(four: array<nat>, n: nat, ghost v: seq<nat>) returns (r: seq<byte>)
    requires four.Length == 4 && 0 < n <= 4 && |v| == n && Small(v) && forall k | 0 <= k < n :: four[k] == v[k]
    ensures r == Unpack(v)
  {
    var three := new byte[3];
    three[0] := ((four[0] * 4 + four[1] / 16 % 4) % 256) as byte;
    three[1] := ((four[1] % 16 * 16 + four[2] / 4 % 16) % 256) as byte;
    three[2] := ((four[2] % 4 * 64 + four[3]) % 256) as byte;
    ThreeBytes(v, three[..], four[..]);
    r := [];
    var j := 0;
    while j < n - 1
      invariant 0 <= j <= n - 1 && r == three[..j]
    {
      r := r + [three[j]];
      j := j + 1;
    }
  }

  lemma {:induction false} FirstIs(a: nat, b: nat)
    requires a < 64 && b < 64
    ensures (a * 4 + b / 16 % 4) % 256 == a * 4 + b / 16
  {
  }

  lemma {:induction false} SecondIs(a: nat, b: nat)
    requires a < 64 && b < 64
    ensures (a % 16 * 16 + b / 4 % 16) % 256 == a % 16 * 16 + b / 4
  {
  }

  lemma {:induction false} Three(v: seq<nat>, three: seq<byte>, four: seq<nat>)
    requires |four| == 4 && |three| == 3 && 0 < |v| <= 4 && Small(v) && forall k | 0 <= k < |v| :: four[k] == v[k]
    requires three[0] == ((four[0] * 4 + four[1] / 16 % 4) % 256) as byte
    requires three[1] == ((four[1] % 16 * 16 + four[2] / 4 % 16) % 256) as byte
    requires three[2] == ((four[2] % 4 * 64 + four[3]) % 256) as byte
    ensures |v| >= 2 ==> three[0] == First(v)
    ensures |v| >= 3 ==> three[1] == Second(v)
    ensures |v| == 4 ==> three[2] == Third(v)
  {
    if |v| >= 2 { FirstIs(v[0], v[1]); }
    if |v| >= 3 { SecondIs(v[1], v[2]); }
  }

  lemma {:induction false} ThreeBytes(v: seq<nat>, three: seq<byte>, four: seq<nat>)
    requires |four| == 4 && |three| == 3 && 0 < |v| <= 4 && Small(v) && forall k | 0 <= k < |v| :: four[k] == v[k]
    requires three[0] == ((four[0] * 4 + four[1] / 16 % 4) % 256) as byte
    requires three[1] == ((four[1] % 16 * 16 + four[2] / 4 % 16) % 256) as byte
    requires three[2] == ((four[2] % 4 * 64 + four[3]) % 256) as byte
    ensures three[..|v| - 1] == Unpack(v)
  {
    hide First, Second, Third;
    Three(v, three, four);
    if |v| == 4 {
      assert v[4..] == [] && v == v[..4] + [];
      UnpackFour(v, []);
    }
  }

  /** A group of characters becomes bytes. */
  method Group(four: array<nat>, n: nat, ghost s: seq<char>, ghost v: seq<nat>) returns (r: seq<byte>)
    requires four.Length == 4 && 0 < n <= 4 && |s| == |v| == n && Small(v)
    requires forall k | 0 <= k < n :: IsBase64(s[k]) && four[k] == s[k] as nat && v[k] == Value(s[k])
    modifies four
    ensures r == Unpack(v)
  {
    hide Unpack, Value, IsBase64;
    LookUp(four, n, s);
    r := Join(four, n, v);
  }

  /** base64_decode */
  method DecodeString(s: seq<char>) returns (ret: seq<byte>)
    ensures ret == Decode(s)
  {
    hide Unpack, Value, Values, IsBase64;
    ghost var v := Values(s);
    ValuesAt(s);
    var four := new nat[4];
    var n, i := 0, 0;
    ghost var g: nat := 0;
    ret := [];
    NothingUnpacked();
    while n < |s| && s[n] != '=' && IsBase64(s[n])
      invariant 0 <= i < 4 && n == 4 * g + i && n <= |v|
      invariant ret == Unpack(v[..n - i])
      invariant forall k | 0 <= k < i :: four[k] == s[n - i + k] as nat
      decreases |v| - n
    {
      four[i] := s[n] as nat;
      i, n := i + 1, n + 1;
      if i == 4 {
        var three := Group(four, 4, s[n - 4..n], v[n - 4..n]);
        UnpackOn(v, g, n);
        ret := ret + three;
        i, g := 0, g + 1;
      }
    }
    NotPadding(s, |v|, n);
    if i != 0 {
      var three := Group(four, i, s[n - i..n], v[n - i..n]);
      UnpackOn(v, g, n);
      ret := ret + three;
    }
    assert v[..n] == v;
  }

  /** Unpacking groups, and then what follows them up to n. */
  lemma {:induction false} UnpackOn(v: seq<nat>, groups: nat, n: nat)
    requires Small(v) && 4 * groups <= n <= |v|
    ensures Small(v[..4 * groups]) && Small(v[4 * groups..n]) && Small(v[..n])
    ensures Unpack(v[..n]) == Unpack(v[..4 * groups]) + Unpack(v[4 * groups..n])
  {
    hide Unpack;
    assert v[..n] == v[..4 * groups] + v[4 * groups..n];
    UnpackAppend(v[..4 * groups], v[4 * groups..n]);
  }

  lemma {:induction false} NothingUnpacked()
    ensures Unpack([]) == []
  {
  }

  lemma {:induction false} NotPadding(s: seq<char>, n: nat, stop: nat)
    requires n <= |s| && (forall k | 0 <= k < n :: IsBase64(s[k])) && (n < |s| ==> !IsBase64(s[n]))
    requires stop <= n && (stop == |s| || s[stop] == '=' || !IsBase64(s[stop]))
    ensures stop == n
  {
  }
}
