/** Small types shared by the component models. */
module Common {

  datatype Option<+T> = None | Some(value: T)

  /** An octet. Values are mathematical integers; width is imposed by the type. */
  newtype byte = x: int | 0 <= x < 256

  /** The C macros LMIN / LWIP_MIN. */
  function Min(a: int, b: int): (m: int)
    ensures m <= a && m <= b && (m == a || m == b)
  {
    if a < b then a else b
  }

  const M16: nat := 0x1_0000
  const M32: nat := 0x1_0000_0000

  /** The numbers below n. */
  function UpTo(n: nat): (s: set<nat>)
    ensures forall i :: i in s <==> 0 <= i < n
  {
    if n == 0 then {} else UpTo(n - 1) + {n - 1}
  }

  lemma {:induction false} SubsetSize<T>(a: set<T>, b: set<T>)
    requires a <= b
    ensures |a| <= |b|
  {
    assert b == a + (b - a);
  }

  /** Reducing first does not matter to a sum. */
  lemma {:induction false} AddModulo(a: int, b: int, m: nat)
    requires m > 0
    ensures (a % m + b) % m == (a + b) % m
  {
    var p, q := a / m, (a + b) / m;
    assert a % m + b == m * (q - p) + (a + b) % m;
    Remainder(a % m + b, m, q - p, (a + b) % m);
  }

  lemma {:induction false} Remainder(a: int, m: nat, q: int, r: int)
    requires 0 <= r < m && a == m * q + r
    ensures a % m == r
  {
    var d := q - a / m;
    assert m * d == a % m - r;
  }
}
