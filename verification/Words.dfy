/** Fixed-width unsigned words and the small datatypes shared by the models. */
module Words {
  const TWO16: nat := 0x1_0000
  const TWO32: nat := 0x1_0000_0000
  const TWO64: nat := 0x1_0000_0000_0000_0000

  type u16 = x: int | 0 <= x < TWO16
  type u32 = x: int | 0 <= x < TWO32
  type u64 = x: int | 0 <= x < TWO64

  /** Unsigned wrap-around: the representative of x modulo the word size. */
  function Wrap16(x: int): u16 { x % TWO16 }

  function Wrap32(x: int): u32 { x % TWO32 }

  function Wrap64(x: int): u64 { x % TWO64 }

  function Bit(b: bool): nat { if b then 1 else 0 }

  datatype Option<+T> = None | Some(value: T)

  datatype Result<+T, +E> = Ok(value: T) | Err(error: E)

  /** Wrapping can be postponed past an addition. */
  lemma Wrap32Later(x: int, y: int)
    ensures Wrap32(Wrap32(x) + y) == Wrap32(x + y)
  {
  }

  lemma Wrap64Later(x: int, y: int)
    ensures Wrap64(Wrap64(x) + y) == Wrap64(x + y)
  {
  }

  lemma Wrap16Next(x: int)
    ensures Wrap16(Wrap16(x) + 1) == Wrap16(x + 1)
  {
  }

  lemma Wrap32Shift(x: int, k: int)
    ensures Wrap32(x + TWO32 * k) == Wrap32(x)
  {
  }

  lemma NonzeroMultiple(b: int, x: int)
    requires b > 0 && x != 0
    ensures if x > 0 then b * x >= b else b * x <= -b
  {
    if x >= 1 {
      assert b * x >= b;
    } else {
      assert b * x <= -b;
    }
  }

  /** Quotient and remainder are determined by the equation they satisfy. */
  lemma DivideIs(a: nat, b: nat, q: nat, r: nat)
    requires b > 0 && r < b && a == b * q + r
    ensures a / b == q && a % b == r
  {
    var e, t := a / b, a % b;
    assert a == b * e + t;
    assert b * (q - e) == b * q - b * e;
    if q != e {
      NonzeroMultiple(b, q - e);
    }
  }

  lemma DivModStep(k: nat, m: nat)
    requires m >= 2
    ensures if k % m == m - 1 then (k + 1) % m == 0 && (k + 1) / m == k / m + 1
            else (k + 1) % m == k % m + 1 && (k + 1) / m == k / m
  {
    var q, r := k / m, k % m;
    assert k == m * q + r;
    if r == m - 1 {
      assert k + 1 == m * (q + 1);
      DivideIs(k + 1, m, q + 1, 0);
    } else {
      DivideIs(k + 1, m, q, r + 1);
    }
  }

  lemma DivMonotone(a: nat, b: nat, m: nat)
    requires a <= b && m > 0
    ensures a / m <= b / m
  {
    var q, p := a / m, b / m;
    assert m * q <= a && b < m * p + m;
    assert m * (q - p) == m * q - m * p;
    if q != p {
      NonzeroMultiple(m, q - p);
    }
  }

  lemma WrapFits(x: int)
    ensures Wrap64(x) == x <==> 0 <= x < TWO64
    ensures x >= TWO64 ==> Wrap64(x) + TWO64 <= x
  {
  }

  lemma WrapShift(x: int, k: int)
    ensures Wrap64(x + TWO64 * k) == Wrap64(x)
  {
  }

  lemma WrapSum(x: int, y: int)
    ensures Wrap64(Wrap64(x) + Wrap64(y)) == Wrap64(x + y)
  {
  }
}
