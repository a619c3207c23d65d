/** Fixed-width machine integers: the wrapping and bitwise operations on w-bit words, and their algebra. */
module Words {

  function Pow2(w: nat): (m: nat)
    ensures m > 0
  {
    if w == 0 then 1 else 2 * Pow2(w - 1)
  }

  const WORD: nat := 0x1_0000_0000_0000_0000

  const SIGNED_LIMIT: nat := 0x8000_0000_0000_0000

  lemma {:induction false} PowSum(a: nat, b: nat)
    ensures Pow2(a + b) == Pow2(a) * Pow2(b)
  {
    if b > 0 {
      PowSum(a, b - 1);
      assert Pow2(a) * (2 * Pow2(b - 1)) == 2 * (Pow2(a) * Pow2(b - 1));
    }
  }

  lemma WordSize()
    ensures Pow2(64) == WORD && Pow2(63) == SIGNED_LIMIT
  {
    assert Pow2(8) == 0x100;
    PowSum(8, 8);
    PowSum(16, 16);
    PowSum(32, 32);
  }

  datatype BitFn = AndBit | OrBit | XorBit

  function OneBit(f: BitFn, x: nat, y: nat): nat {
    match f
    case AndBit => if x == 1 && y == 1 then 1 else 0
    case OrBit => if x == 1 || y == 1 then 1 else 0
    case XorBit => if x == y then 0 else 1
  }

  /** The low w bits of a and b combined bit by bit. */
  function Bitwise(f: BitFn, w: nat, a: nat, b: nat): (r: nat)
    ensures r < Pow2(w)
  {
    if w == 0 then 0 else OneBit(f, a % 2, b % 2) + 2 * Bitwise(f, w - 1, a / 2, b / 2)
  }

  // ---------------------------------------------------------------- remainders

  /** A multiple of m smaller in size than m is zero. */
  lemma SmallMultiple(k: int, m: int, d: int)
    requires m * k == d && -m < d < m
    ensures k == 0 && d == 0
  {
    assert k >= 1 ==> m * k >= m * 1;
    assert k <= -1 ==> m * k <= m * -1;
  }

  /** Quotient and remainder are the only ones there are. */
  lemma DivMod(x: int, m: int, q: int, r: int)
    requires 0 <= r < m && x == m * q + r
    ensures x / m == q && x % m == r
  {
    var q', r' := x / m, x % m;
    assert x == m * q' + r';
    assert m * (q - q') == r' - r by {
      assert m * (q - q') == m * q - m * q';
    }
    SmallMultiple(q - q', m, r' - r);
  }

  /** Adding a multiple of m does not change the remainder. */
  lemma AddMultiple(x: int, k: int, m: nat)
    requires m > 0
    ensures (x + m * k) % m == x % m
  {
    var q, r := x / m, x % m;
    assert x == m * q + r;
    assert m * (q + k) == m * q + m * k;
    DivMod(x + m * k, m, q + k, r);
  }

  lemma ModMulLeft(x: int, y: int, m: nat)
    requires m > 0
    ensures ((x % m) * y) % m == (x * y) % m
  {
    var q, r := x / m, x % m;
    assert x == m * q + r;
    assert x * y == r * y + m * (q * y) by {
      assert (m * q + r) * y == m * q * y + r * y;
      assert m * q * y == m * (q * y);
    }
    AddMultiple(r * y, q * y, m);
  }

  // ---------------------------------------------------------------- bitwise algebra

  lemma {:induction false} BitwiseCommutes(f: BitFn, w: nat, a: nat, b: nat)
    ensures Bitwise(f, w, a, b) == Bitwise(f, w, b, a)
  {
    if w > 0 {
      BitwiseCommutes(f, w - 1, a / 2, b / 2);
    }
  }

  /** The lowest bit of a bitwise result, and the result without it. */
  lemma BitwiseHalves(f: BitFn, w: nat, a: nat, b: nat)
    requires w > 0
    ensures Bitwise(f, w, a, b) % 2 == OneBit(f, a % 2, b % 2) && Bitwise(f, w, a, b) / 2 == Bitwise(f, w - 1, a / 2, b / 2)
  {}

  lemma {:induction false} BitwiseAssociates(f: BitFn, w: nat, a: nat, b: nat, c: nat)
    ensures Bitwise(f, w, Bitwise(f, w, a, b), c) == Bitwise(f, w, a, Bitwise(f, w, b, c))
  {
    if w > 0 {
      BitwiseHalves(f, w, a, b);
      BitwiseHalves(f, w, b, c);
      BitwiseAssociates(f, w - 1, a / 2, b / 2, c / 2);
    }
  }

  /** Doubling the modulus brings in the lowest bit. */
  lemma ModDouble(m: nat, h: nat, b: nat)
    requires m > 0 && b < 2
    ensures (2 * h + b) % (2 * m) == b + 2 * (h % m)
  {
    var q, r := h / m, h % m;
    assert h == m * q + r;
    assert (2 * m) * q == 2 * (m * q);
    DivMod(2 * h + b, 2 * m, q, b + 2 * r);
  }

  /** The low w bits of x are its lowest bit and the low w - 1 bits of its half. */
  lemma ModHalves(w: nat, x: nat)
    requires w > 0
    ensures (x % Pow2(w)) % 2 == x % 2 && (x % Pow2(w)) / 2 == (x / 2) % Pow2(w - 1)
  {
    var h, b := x / 2, x % 2;
    var low := h % Pow2(w - 1);
    ModDouble(Pow2(w - 1), h, b);
    assert x == 2 * h + b;
    assert x % Pow2(w) == b + 2 * low;
  }

  function Unit(f: BitFn, w: nat): nat { if f.AndBit? then Pow2(w) - 1 else 0 }

  lemma UnitHalves(f: BitFn, w: nat)
    requires w > 0
    ensures Unit(f, w) % 2 == (if f.AndBit? then 1 else 0) && Unit(f, w) / 2 == Unit(f, w - 1)
  {
    DivMod(Unit(f, w), 2, Unit(f, w - 1), if f.AndBit? then 1 else 0);
  }

  lemma LowBits(w: nat, x: nat)
    requires w > 0
    ensures x % Pow2(w) == x % 2 + 2 * ((x / 2) % Pow2(w - 1))
  {
    ModHalves(w, x);
  }

  /** All ones is the identity of and; zero is the identity of or and xor. */
  lemma {:induction false} BitwiseIdentity(f: BitFn, w: nat, x: nat)
    ensures Bitwise(f, w, Unit(f, w), x) == x % Pow2(w)
  {
    hide Pow2;
    if w == 0 {
      PowZero();
      DivMod(x, 1, x, 0);
    } else {
      UnitHalves(f, w);
      BitwiseIdentity(f, w - 1, x / 2);
      LowBits(w, x);
      hide Unit;
    }
  }

  lemma PowZero()
    ensures Pow2(0) == 1
  {}

  /** And and or of a word with itself give the word; xor gives zero. */
  lemma {:induction false} BitwiseSelf(f: BitFn, w: nat, x: nat)
    ensures Bitwise(f, w, x, x) == if f.XorBit? then 0 else x % Pow2(w)
  {
    if w > 0 {
      BitwiseSelf(f, w - 1, x / 2);
      ModHalves(w, x);
    }
  }
}
