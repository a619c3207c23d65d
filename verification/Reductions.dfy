/** The accumulation operators of the loop partitioner and why their folds can be cut into slices. */
module Reductions {
  import opened Words

  /** Integer opcodes of a two-operand instruction. */
  datatype Opcode = Add | Sub | Mul | And | Or | Xor

  predicate IsAssociativeReductionOp(op: Opcode) { op != Sub }

  /** The value of `op a, b` on w-bit integers. */
  function Apply(op: Opcode, w: nat, a: nat, b: nat): (r: nat)
    ensures r < Pow2(w)
  {
    match op
    case Add => (a + b) % Pow2(w)
    case Sub => (a + Pow2(w) - b % Pow2(w)) % Pow2(w)
    case Mul => (a * b) % Pow2(w)
    case And => Bitwise(AndBit, w, a, b)
    case Or => Bitwise(OrBit, w, a, b)
    case Xor => Bitwise(XorBit, w, a, b)
  }

  /** What a worker's accumulator starts from. */
  function Identity(op: Opcode, w: nat): nat {
    match op
    case Mul => 1 % Pow2(w)
    case And => Pow2(w) - 1
    case _ => 0
  }

  /** The accumulator after the given per-iteration values. */
  function Accumulate(op: Opcode, w: nat, acc: nat, xs: seq<nat>): nat {
    if xs == [] then acc else Apply(op, w, Accumulate(op, w, acc, xs[..|xs| - 1]), xs[|xs| - 1])
  }

  lemma ApplyCommutes(op: Opcode, w: nat, a: nat, b: nat)
    requires IsAssociativeReductionOp(op)
    ensures Apply(op, w, a, b) == Apply(op, w, b, a)
  {
    match op
    case Add =>
    case Mul => assert a * b == b * a;
    case And => BitwiseCommutes(AndBit, w, a, b);
    case Or => BitwiseCommutes(OrBit, w, a, b);
    case Xor => BitwiseCommutes(XorBit, w, a, b);
  }

  lemma AddAssociates(m: nat, a: nat, b: nat, c: nat)
    requires m > 0
    ensures ((a + b) % m + c) % m == (a + (b + c) % m) % m
  {
    var s, t := a + b, b + c;
    var left, right := s % m, t % m;
    var p, q := s / m, t / m;
    assert s == m * p + left && t == m * q + right;
    assert a + right == left + c + m * (p - q) by {
      assert m * (p - q) == m * p - m * q;
    }
    AddMultiple(left + c, p - q, m);
  }

  lemma MulAssociates(m: nat, a: nat, b: nat, c: nat)
    requires m > 0
    ensures (((a * b) % m) * c) % m == (a * ((b * c) % m)) % m
  {
    ModMulLeft(a * b, c, m);
    ModMulLeft(b * c, a, m);
    assert (a * b) * c == (b * c) * a;
    assert a * ((b * c) % m) == ((b * c) % m) * a;
  }

  lemma ApplyAssociates(op: Opcode, w: nat, a: nat, b: nat, c: nat)
    requires IsAssociativeReductionOp(op)
    ensures Apply(op, w, Apply(op, w, a, b), c) == Apply(op, w, a, Apply(op, w, b, c))
  {
    match op
    case Add => AddAssociates(Pow2(w), a, b, c);
    case Mul => MulAssociates(Pow2(w), a, b, c);
    case And => BitwiseAssociates(AndBit, w, a, b, c);
    case Or => BitwiseAssociates(OrBit, w, a, b, c);
    case Xor => BitwiseAssociates(XorBit, w, a, b, c);
  }

  ghost predicate Commutes(op: Opcode) { forall w: nat, a: nat, b: nat :: Apply(op, w, a, b) == Apply(op, w, b, a) }

  ghost predicate Associates(op: Opcode) {
    forall w: nat, a: nat, b: nat, c: nat :: Apply(op, w, Apply(op, w, a, b), c) == Apply(op, w, a, Apply(op, w, b, c))
  }

  /** Order and grouping do not matter to the operation, at any width. */
  ghost predicate Reorders(op: Opcode) { Commutes(op) && Associates(op) }

  /** The operations accepted are exactly those. */
  lemma AcceptedExactly(op: Opcode)
    ensures IsAssociativeReductionOp(op) <==> Reorders(op)
  {
    if IsAssociativeReductionOp(op) {
      forall w: nat, a: nat, b: nat ensures Apply(op, w, a, b) == Apply(op, w, b, a) { ApplyCommutes(op, w, a, b); }
      forall w: nat, a: nat, b: nat, c: nat ensures Apply(op, w, Apply(op, w, a, b), c) == Apply(op, w, a, Apply(op, w, b, c)) {
        ApplyAssociates(op, w, a, b, c);
      }
      hide Apply;
      assert Commutes(op) && Associates(op);
    } else {
      assert Apply(op, 2, 1, 0) == 1 && Apply(op, 2, 0, 1) == 3;
    }
  }

  lemma IdentityApplies(op: Opcode, w: nat, x: nat)
    requires IsAssociativeReductionOp(op)
    ensures Apply(op, w, Identity(op, w), x) == x % Pow2(w)
  {
    match op
    case Add =>
    case Mul =>
      ModMulLeft(1, x, Pow2(w));
      assert 1 * x == x;
    case And => BitwiseIdentity(AndBit, w, x);
    case Or => BitwiseIdentity(OrBit, w, x);
    case Xor => BitwiseIdentity(XorBit, w, x);
  }

  /** Accumulating from any value is applying that value once to what is accumulated from the identity. */
  lemma {:induction false} AccumulateFromIdentity(op: Opcode, w: nat, acc: nat, xs: seq<nat>)
    requires IsAssociativeReductionOp(op) && acc < Pow2(w)
    ensures Accumulate(op, w, acc, xs) == Apply(op, w, acc, Accumulate(op, w, Identity(op, w), xs))
  {
    hide Apply, Identity;
    if xs == [] {
      ApplyCommutes(op, w, acc, Identity(op, w));
      IdentityApplies(op, w, acc);
      DivMod(acc, Pow2(w), 0, acc);
    } else {
      var init, last := xs[..|xs| - 1], xs[|xs| - 1];
      AccumulateFromIdentity(op, w, acc, init);
      ApplyAssociates(op, w, acc, Accumulate(op, w, Identity(op, w), init), last);
    }
  }

  lemma {:induction false} AccumulateSplit(op: Opcode, w: nat, acc: nat, xs: seq<nat>, ys: seq<nat>)
    ensures Accumulate(op, w, acc, xs + ys) == Accumulate(op, w, Accumulate(op, w, acc, xs), ys)
  {
    if ys == [] {
      assert xs + ys == xs;
    } else {
      var init, last := ys[..|ys| - 1], ys[|ys| - 1];
      assert (xs + ys)[..|xs + ys| - 1] == xs + init;
      AccumulateSplit(op, w, acc, xs, init);
    }
  }

  lemma {:induction false} AccumulateSmall(op: Opcode, w: nat, acc: nat, xs: seq<nat>)
    requires acc < Pow2(w)
    ensures Accumulate(op, w, acc, xs) < Pow2(w)
  {}

  lemma IdentitySmall(op: Opcode, w: nat)
    ensures Identity(op, w) < Pow2(w)
  {}

  /** Joining two slices: the accumulated second slice counts as one more value after the first. */
  lemma AccumulateSlices(op: Opcode, w: nat, acc: nat, xs: seq<nat>, ys: seq<nat>)
    requires IsAssociativeReductionOp(op) && acc < Pow2(w)
    ensures Apply(op, w, Accumulate(op, w, acc, xs), Accumulate(op, w, Identity(op, w), ys)) == Accumulate(op, w, acc, xs + ys)
  {
    AccumulateSmall(op, w, acc, xs);
    AccumulateFromIdentity(op, w, Accumulate(op, w, acc, xs), ys);
    AccumulateSplit(op, w, acc, xs, ys);
  }

  // ---------------------------------------------------------------- the operand that is the accumulator itself

  /** acc = op(acc, acc), n times. */
  function SelfApply(op: Opcode, w: nat, acc: nat, n: nat): nat {
    if n == 0 then acc else var a := SelfApply(op, w, acc, n - 1); Apply(op, w, a, a)
  }

  /** And and or leave the accumulator alone, and so does mul on one bit. */
  lemma {:induction false} SelfApplyKeeps(op: Opcode, w: nat, acc: nat, n: nat)
    requires acc < Pow2(w) && w > 0 && (op.And? || op.Or? || (op.Mul? && w == 1))
    ensures SelfApply(op, w, acc, n) == acc
  {
    if n > 0 {
      SelfApplyKeeps(op, w, acc, n - 1);
      SelfOnce(op, w, acc);
    }
  }

  lemma SelfOnce(op: Opcode, w: nat, acc: nat)
    requires acc < Pow2(w) && w > 0 && (op.And? || op.Or? || (op.Mul? && w == 1))
    ensures Apply(op, w, acc, acc) == acc
  {
    match op
    case And => BitwiseSelf(AndBit, w, acc); DivMod(acc, Pow2(w), 0, acc);
    case Or => BitwiseSelf(OrBit, w, acc); DivMod(acc, Pow2(w), 0, acc);
    case Mul => assert Pow2(1) == 2 * Pow2(0) && acc * acc == acc;
  }

  /** For every other operator there is a start the operator does not leave alone, however often it is applied. */
  function SelfWitness(op: Opcode): nat { if op.Mul? then 2 else 1 }

  lemma {:induction false} SelfApplyMoves(op: Opcode, w: nat, n: nat)
    requires op.Add? || op.Xor? || (op.Mul? && w > 1)
    requires w > 0 && n > 0
    ensures SelfApply(op, w, SelfWitness(op), n) != SelfWitness(op) && SelfWitness(op) < Pow2(w)
  {
    assert w > 1 ==> Pow2(w) == 4 * Pow2(w - 2);
    SelfApplyEven(op, w, n);
  }

  /** Once doubled, squared or cancelled against itself the accumulator is divisible as the start is not. */
  lemma {:induction false} SelfApplyEven(op: Opcode, w: nat, n: nat)
    requires op.Add? || op.Xor? || (op.Mul? && w > 1)
    requires w > 0 && n > 0
    ensures op.Mul? ==> SelfApply(op, w, SelfWitness(op), n) % 4 == 0
    ensures !op.Mul? ==> SelfApply(op, w, SelfWitness(op), n) % 2 == 0
  {
    hide Apply;
    var a := SelfApply(op, w, SelfWitness(op), n - 1);
    if n > 1 { SelfApplyEven(op, w, n - 1); }
    if op.Mul? {
      assert a % 2 == 0 by { if n > 1 { FourTwo(a); } }
      SquareEven(w, a);
    } else {
      TwiceEven(op, w, a);
    }
  }

  lemma FourTwo(a: nat)
    requires a % 4 == 0
    ensures a % 2 == 0
  {
    DivMod(a, 2, 2 * (a / 4), 0);
  }

  lemma TwiceEven(op: Opcode, w: nat, a: nat)
    requires w > 0 && (op.Add? || op.Xor?)
    ensures Apply(op, w, a, a) % 2 == 0
  {
    if op.Add? {
      EvenRemainder(a + a, Pow2(w), 2, a, Pow2(w - 1));
    } else {
      BitwiseSelf(XorBit, w, a);
    }
  }

  lemma SquareEven(w: nat, a: nat)
    requires w > 1 && a % 2 == 0
    ensures Apply(Mul, w, a, a) % 4 == 0
  {
    var h := a / 2;
    var s := a * a;
    assert s == 4 * (h * h) by { assert a == 2 * h; }
    assert Pow2(w) == 2 * Pow2(w - 1) && Pow2(w - 1) == 2 * Pow2(w - 2);
    EvenRemainder(s, Pow2(w), 4, h * h, Pow2(w - 2));
  }

  /** A multiple of d leaves a multiple of d when divided by another. */
  lemma EvenRemainder(x: nat, m: nat, d: nat, k: nat, j: nat)
    requires d > 0 && m > 0 && x == d * k && m == d * j
    ensures (x % m) % d == 0
  {
    var q, r := x / m, x % m;
    assert x == m * q + r;
    assert r == d * (k - j * q) by {
      assert m * q == d * (j * q);
      assert d * (k - j * q) == d * k - d * (j * q);
    }
    DivMod(r, d, k - j * q, 0);
  }
}
