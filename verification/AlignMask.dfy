/** The round-up-by-mask formula (addr + a - 1) & ~(a - 1) on 64-bit words. */
module AlignMask {
  import opened Words

  const WIDTH: nat := 64

  /** ~m on w bits. */
  function Complement(w: nat, m: nat): nat
    requires m < Pow2(w)
  {
    Pow2(w) - 1 - m
  }

  /** The code's formula, with its wrapping sum. */
  function MaskUp(addr: nat, alignment: nat): (r: nat)
    requires addr < WORD && 1 <= alignment < WORD
    ensures r < WORD
  {
    WordSize();
    Bitwise(AndBit, WIDTH, (addr + alignment - 1) % WORD, Complement(WIDTH, alignment - 1))
  }

  /** Halving a complement. */
  lemma ComplementHalves(w: nat, m: nat)
    requires w > 0 && m < Pow2(w)
    ensures m / 2 < Pow2(w - 1)
    ensures Complement(w, m) % 2 == 1 - m % 2 && Complement(w, m) / 2 == Complement(w - 1, m / 2)
  {
    var h, b := m / 2, m % 2;
    assert m == 2 * h + b;
    DivMod(Complement(w, m), 2, Pow2(w - 1) - 1 - h, 1 - b);
  }

  /** A word is what a mask keeps and what its complement keeps, and a mask keeps no more than itself. */
  lemma {:induction false} MaskSplits(w: nat, x: nat, m: nat)
    requires x < Pow2(w) && m < Pow2(w)
    ensures Bitwise(AndBit, w, x, m) + Bitwise(AndBit, w, x, Complement(w, m)) == x
    ensures Bitwise(AndBit, w, x, m) <= m
  {
    if w > 0 {
      ComplementHalves(w, m);
      assert x == 2 * (x / 2) + x % 2 && m == 2 * (m / 2) + m % 2;
      MaskSplits(w - 1, x / 2, m / 2);
    }
  }

  /** Masking with 2^k - 1 keeps the remainder. */
  lemma {:induction false} LowMask(w: nat, x: nat, k: nat)
    requires k <= w && x < Pow2(w)
    ensures Pow2(k) - 1 < Pow2(w) && Bitwise(AndBit, w, x, Pow2(k) - 1) == x % Pow2(k)
  {
    if k == 0 {
      MaskNothing(w, x);
    } else {
      assert x == 2 * (x / 2) + x % 2;
      LowMask(w - 1, x / 2, k - 1);
      var m := Pow2(k) - 1;
      DivMod(m, 2, Pow2(k - 1) - 1, 1);
      ModHalves(k, x);
    }
  }

  lemma {:induction false} MaskNothing(w: nat, x: nat)
    ensures Bitwise(AndBit, w, x, 0) == 0
  {
    if w > 0 { MaskNothing(w - 1, x / 2); }
  }

  /** Below the wrap, the formula moves an address up by less than the alignment, whatever the alignment is. */
  lemma MaskUpRange(addr: nat, alignment: nat)
    requires addr < WORD && 1 <= alignment < WORD && addr + alignment - 1 < WORD
    ensures addr <= MaskUp(addr, alignment) <= addr + alignment - 1
  {
    WordSize();
    DivMod(addr + alignment - 1, WORD, 0, addr + alignment - 1);
    MaskSplits(WIDTH, addr + alignment - 1, alignment - 1);
  }

  /** Past it, the formula lands below the address. */
  lemma MaskUpWraps(addr: nat, alignment: nat)
    requires addr < WORD && 1 <= alignment < WORD && addr + alignment - 1 >= WORD
    ensures MaskUp(addr, alignment) <= addr + alignment - 1 - WORD < addr
  {
    WordSize();
    var x := addr + alignment - 1 - WORD;
    DivMod(addr + alignment - 1, WORD, 1, x);
    MaskSplits(WIDTH, x, alignment - 1);
  }

  predicate PowerOfTwo(a: nat) { exists k :: 0 <= k < WIDTH && a == Pow2(k) }

  /** With a power of two it is rounding up: the least aligned address that is not lower. */
  lemma MaskUpRounds(addr: nat, k: nat)
    requires k < WIDTH && addr + Pow2(k) - 1 < WORD
    ensures Pow2(k) < WORD && addr < WORD
    ensures MaskUp(addr, Pow2(k)) == (addr + Pow2(k) - 1) / Pow2(k) * Pow2(k)
    ensures MaskUp(addr, Pow2(k)) % Pow2(k) == 0
  {
    hide MaskUp, Pow2, Bitwise;
    WordSize();
    PowBelow(k, WIDTH);
    MaskUpDrops(addr, k);
    RoundDown(addr + Pow2(k) - 1, Pow2(k));
  }

  lemma MaskUpDrops(addr: nat, k: nat)
    requires k < WIDTH && addr + Pow2(k) - 1 < WORD && Pow2(k) < WORD && Pow2(WIDTH) == WORD
    ensures MaskUp(addr, Pow2(k)) == addr + Pow2(k) - 1 - (addr + Pow2(k) - 1) % Pow2(k)
  {
    hide Pow2, Bitwise;
    var x := addr + Pow2(k) - 1;
    DivMod(x, WORD, 0, x);
    MaskSplits(WIDTH, x, Pow2(k) - 1);
    LowMask(WIDTH, x, k);
  }

  lemma RoundDown(x: nat, a: nat)
    requires a > 0
    ensures x - x % a == x / a * a && (x - x % a) % a == 0
  {
    var q, r := x / a, x % a;
    assert x == a * q + r && a * q == q * a;
    DivMod(x - r, a, q, 0);
  }

  lemma {:induction false} PowBelow(a: nat, b: nat)
    requires a < b
    ensures Pow2(a) < Pow2(b)
  {
    if a < b - 1 { PowBelow(a, b - 1); }
  }

  /** The lowest set bit. */
  function LowestBit(a: nat): (b: nat)
    requires a > 0
    ensures 1 <= b <= a
  {
    if a % 2 == 1 then 1 else 2 * LowestBit(a / 2)
  }

  lemma {:induction false} LowestBitAlone(w: nat, a: nat)
    requires 0 < a < Pow2(w)
    ensures Bitwise(AndBit, w, a, Complement(w, a - 1)) == LowestBit(a)
  {
    var h := a / 2;
    ComplementHalves(w, a - 1);
    if a % 2 == 1 {
      assert (a - 1) / 2 == h && (a - 1) % 2 == 0;
      MaskOwnComplement(w - 1, h);
    } else {
      assert (a - 1) / 2 == h - 1 && (a - 1) % 2 == 1;
      LowestBitAlone(w - 1, h);
    }
  }

  lemma {:induction false} MaskOwnComplement(w: nat, x: nat)
    requires x < Pow2(w)
    ensures Bitwise(AndBit, w, x, Complement(w, x)) == 0
  {
    if w > 0 {
      ComplementHalves(w, x);
      MaskOwnComplement(w - 1, x / 2);
    }
  }

  /** Only a power of two is its own lowest bit. */
  lemma {:induction false} LowestBitPower(w: nat, a: nat) returns (k: nat)
    requires 0 < a < Pow2(w) && LowestBit(a) == a && w > 0
    ensures k < w && a == Pow2(k)
  {
    if a == 1 {
      k := 0;
      assert Pow2(0) == 1;
    } else {
      assert a % 2 == 0;
      assert w > 1 by { assert Pow2(1) == 2 * Pow2(0); }
      var j := LowestBitPower(w - 1, a / 2);
      k := j + 1;
    }
  }

  /** The formula aligns every address it does not wrap on exactly if the alignment is a power of two: address 1 shows the rest. */
  lemma MaskUpAlignsExactly(alignment: nat)
    requires 1 <= alignment < WORD
    ensures (forall addr {:trigger MaskUp(addr, alignment)} :: 0 <= addr < WORD && addr + alignment - 1 < WORD ==> MaskUp(addr, alignment) % alignment == 0)
       <==> PowerOfTwo(alignment)
  {
    WordSize();
    if PowerOfTwo(alignment) {
      var k :| 0 <= k < WIDTH && alignment == Pow2(k);
      forall addr {:trigger MaskUp(addr, alignment)} | 0 <= addr < WORD && addr + alignment - 1 < WORD ensures MaskUp(addr, alignment) % alignment == 0 {
        MaskUpRounds(addr, k);
      }
    } else {
      DivMod(alignment, WORD, 0, alignment);
      LowestBitAlone(WIDTH, alignment);
      assert MaskUp(1, alignment) == LowestBit(alignment);
      if LowestBit(alignment) == alignment {
        var k := LowestBitPower(WIDTH, alignment);
      }
      DivMod(LowestBit(alignment), alignment, 0, LowestBit(alignment));
    }
  }

  /** Aligning address 1 to 3 leaves it at 1. */
  lemma ThreeMisses()
    ensures MaskUp(1, 3) == 1
  {
    WordSize();
    DivMod(3, WORD, 0, 3);
    LowestBitAlone(WIDTH, 3);
  }
}
