/** What passes 0, 1 and 1b turn operations on constants, and identities, into: the resulting
    Copy, with its constant described by arithmetic and by bits. */
module ConstantFolds {
  import opened Words
  import opened Options
  import opened Pcode
  import opened Semantics
  import opened Folding

  /** Pass 0 turns `op` into a Copy of the constant `x`. */
  predicate FoldsTo(op: Op, x: nat) {
    GetOutput(op).Some? && FoldOp(op) == Copy(GetOutput(op).value, Constant(x, GetOutput(op).value.size))
  }

  function OnConstant(k: UnaryOp, o: Varnode, v: nat, size: nat): Op {
    Unary(k, o, Constant(v, size))
  }

  function OnConstants(k: BinaryOp, o: Varnode, a: nat, b: nat, size: nat): Op {
    Binary(k, o, Constant(a, size), Constant(b, size))
  }

  function Nowhere(): State {
    State(map[], map[], [])
  }

  /** What is folded is the operation's result. */
  lemma FoldedUnary(k: UnaryOp, o: Varnode, v: nat, size: nat)
    requires 1 <= size <= 8 && 1 <= o.size <= 8 && v < Capacity(size) && SizesOk(OnConstant(k, o, v, size))
    requires ConstFoldOp(OnConstant(k, o, v, size)).Some?
    ensures FoldsTo(OnConstant(k, o, v, size), Wrap(EvalUnary(Idle(), k, o.size, size, v), o.size))
  {
    var op := OnConstant(k, o, v, size);
    CapacityFitsWord(size);
    assert OperandsOk(op);
    ConstFoldSound(Idle(), op, Nowhere());
    WrapSmall(v, size);
  }

  lemma FoldedBinary(k: BinaryOp, o: Varnode, a: nat, b: nat, size: nat)
    requires 1 <= size <= 8 && 1 <= o.size <= 8 && a < Capacity(size) && b < Capacity(size)
    requires SizesOk(OnConstants(k, o, a, b, size)) && ConstFoldOp(OnConstants(k, o, a, b, size)).Some?
    ensures FoldsTo(OnConstants(k, o, a, b, size), Wrap(EvalBinary(Idle(), k, o.size, size, a, b), o.size))
  {
    var op := OnConstants(k, o, a, b, size);
    CapacityFitsWord(size);
    assert OperandsOk(op);
    ConstFoldSound(Idle(), op, Nowhere());
    WrapSmall(a, size);
    WrapSmall(b, size);
  }

  /** Negative in two's complement. */
  predicate IsNegative(v: nat, size: nat)
    requires size >= 1
  {
    v >= Pow2(8 * size - 1)
  }

  // ----- one operand -----

  lemma NegFolds(o: Varnode, v: nat)
    requires 1 <= o.size <= 8 && v < Capacity(o.size)
    ensures FoldsTo(OnConstant(IntNeg, o, v, o.size), (Capacity(o.size) - v) % Capacity(o.size))
  {
    FoldedUnary(IntNeg, o, v, o.size);
    WrapTwice(0 - v, o.size);
    NegatedWrap(v, o.size);
  }

  lemma NegatedWrap(v: nat, size: nat)
    requires v < Capacity(size)
    ensures Wrap(0 - v, size) == (Capacity(size) - v) % Capacity(size)
  {
    ModShift(0 - v, 1, Capacity(size));
  }

  lemma NotFolds(o: Varnode, v: nat)
    requires 1 <= o.size <= 8 && v < Capacity(o.size)
    ensures FoldsTo(OnConstant(IntNot, o, v, o.size), Capacity(o.size) - 1 - v)
  {
    FoldedUnary(IntNot, o, v, o.size);
    ModShift(-1 - v, 1, Capacity(o.size));
    WrapSmall(Capacity(o.size) - 1 - v, o.size);
    WrapTwice(-1 - v, o.size);
  }

  lemma ZextFolds(o: Varnode, v: nat, size: nat)
    requires 1 <= size <= o.size <= 8 && v < Capacity(size)
    ensures FoldsTo(OnConstant(IntZext, o, v, size), v)
  {
    FoldedUnary(IntZext, o, v, size);
    Pow2Monotone(8 * size, 8 * o.size);
    WrapSmall(v, o.size);
  }

  /** Zero extension of a constant below the sign bit, else the missing high ones added. */
  lemma SextFolds(o: Varnode, v: nat, size: nat) returns (x: nat)
    requires 1 <= size <= o.size <= 8 && v < Capacity(size)
    ensures FoldsTo(OnConstant(IntSext, o, v, size), x) && x < Capacity(o.size)
    ensures if IsNegative(v, size) then x + Capacity(size) == v + Capacity(o.size) else x == v
  {
    x := Wrap(Signed(v, size), o.size);
    FoldedUnary(IntSext, o, v, size);
    WrapTwice(Signed(v, size), o.size);
    ExtendedSign(v, size, o.size);
  }

  lemma ExtendedSign(v: nat, size: nat, outSize: nat)
    requires 1 <= size <= outSize && v < Capacity(size)
    ensures var x := Wrap(Signed(v, size), outSize);
      if IsNegative(v, size) then x + Capacity(size) == v + Capacity(outSize) else x == v
  {
    Pow2Monotone(8 * size, 8 * outSize);
    if IsNegative(v, size) {
      DivModUnique(v - Capacity(size), -1, v - Capacity(size) + Capacity(outSize), Capacity(outSize));
    } else {
      WrapSmall(v, outSize);
    }
  }

  lemma BoolNotFolds(o: Varnode, v: nat, size: nat)
    requires 1 <= size <= 8 && 1 <= o.size <= 8 && v < Capacity(size)
    ensures FoldsTo(OnConstant(BoolNot, o, v, size), if v == 0 then 1 else 0)
  {
    FoldedUnary(BoolNot, o, v, size);
    BitFits(o.size);
  }

  lemma BitFits(size: nat)
    requires size >= 1
    ensures Wrap(0, size) == 0 && Wrap(1, size) == 1
  {
    Pow2Monotone(8, 8 * size);
    assert Pow2(8) == 256;
    WrapSmall(0, size);
    WrapSmall(1, size);
  }

  // ----- two operands -----

  lemma ArithmeticFolds(o: Varnode, a: nat, b: nat)
    requires 1 <= o.size <= 8 && a < Capacity(o.size) && b < Capacity(o.size)
    ensures FoldsTo(OnConstants(IntAdd, o, a, b, o.size), (a + b) % Capacity(o.size))
    ensures FoldsTo(OnConstants(IntSub, o, a, b, o.size), if a >= b then a - b else a + Capacity(o.size) - b)
    ensures FoldsTo(OnConstants(IntMult, o, a, b, o.size), (a * b) % Capacity(o.size))
  {
    AddFolds(o, a, b);
    SubFolds(o, a, b);
    MultFolds(o, a, b);
  }

  lemma AddFolds(o: Varnode, a: nat, b: nat)
    requires 1 <= o.size <= 8 && a < Capacity(o.size) && b < Capacity(o.size)
    ensures FoldsTo(OnConstants(IntAdd, o, a, b, o.size), (a + b) % Capacity(o.size))
  {
    FoldedBinary(IntAdd, o, a, b, o.size);
    WrapTwice(a + b, o.size);
  }

  lemma SubFolds(o: Varnode, a: nat, b: nat)
    requires 1 <= o.size <= 8 && a < Capacity(o.size) && b < Capacity(o.size)
    ensures FoldsTo(OnConstants(IntSub, o, a, b, o.size), if a >= b then a - b else a + Capacity(o.size) - b)
  {
    FoldedBinary(IntSub, o, a, b, o.size);
    WrapTwice(a - b, o.size);
    if a >= b {
      WrapSmall(a - b, o.size);
    } else {
      ModShift(a - b, 1, Capacity(o.size));
      WrapSmall(a + Capacity(o.size) - b, o.size);
    }
  }

  lemma MultFolds(o: Varnode, a: nat, b: nat)
    requires 1 <= o.size <= 8 && a < Capacity(o.size) && b < Capacity(o.size)
    ensures FoldsTo(OnConstants(IntMult, o, a, b, o.size), (a * b) % Capacity(o.size))
  {
    FoldedBinary(IntMult, o, a, b, o.size);
    WrapTwice(a * b, o.size);
  }

  /** `x` has bit `i` if and only if `p` says so. */
  predicate HasBit(x: nat, i: nat, p: bool) {
    Bit(x, i) == if p then 1 else 0
  }

  /** The folded And, Or and Xor, bit by bit. */
  lemma BitwiseFolds(o: Varnode, a: nat, b: nat) returns (conj: nat, disj: nat, diff: nat)
    requires 1 <= o.size <= 8 && a < Capacity(o.size) && b < Capacity(o.size)
    ensures FoldsTo(OnConstants(IntAnd, o, a, b, o.size), conj)
    ensures FoldsTo(OnConstants(IntOr, o, a, b, o.size), disj)
    ensures FoldsTo(OnConstants(IntXor, o, a, b, o.size), diff)
    ensures forall i: nat ::
      && HasBit(conj, i, Bit(a, i) == 1 && Bit(b, i) == 1)
      && HasBit(disj, i, Bit(a, i) == 1 || Bit(b, i) == 1)
      && HasBit(diff, i, Bit(a, i) != Bit(b, i))
  {
    conj, disj, diff := BitAnd(a, b), BitOr(a, b), BitXor(a, b);
    BitAndBound(a, b);
    BitOrXorBound(a, b, 8 * o.size);
    FoldedBinary(IntAnd, o, a, b, o.size);
    FoldedBinary(IntOr, o, a, b, o.size);
    FoldedBinary(IntXor, o, a, b, o.size);
    WrapSmall(conj, o.size);
    WrapSmall(disj, o.size);
    WrapSmall(diff, o.size);
    forall i: nat ensures HasBit(conj, i, Bit(a, i) == 1 && Bit(b, i) == 1)
        && HasBit(disj, i, Bit(a, i) == 1 || Bit(b, i) == 1) && HasBit(diff, i, Bit(a, i) != Bit(b, i))
    {
      BitwiseBits(a, b, i);
    }
  }

  predicate SignedLess(a: nat, b: nat, size: nat)
    requires size >= 1
  {
    if IsNegative(a, size) == IsNegative(b, size) then a < b else IsNegative(a, size)
  }

  lemma SignedLessIs(a: nat, b: nat, size: nat)
    requires size >= 1 && a < Capacity(size) && b < Capacity(size)
    ensures SignedLess(a, b, size) <==> Signed(a, size) < Signed(b, size)
  {
  }

  /** Folded comparisons give 1 or 0. */
  lemma ComparisonsFold(o: Varnode, a: nat, b: nat, size: nat)
    requires 1 <= size <= 8 && 1 <= o.size <= 8 && a < Capacity(size) && b < Capacity(size)
    ensures FoldsTo(OnConstants(IntEq, o, a, b, size), if a == b then 1 else 0)
    ensures FoldsTo(OnConstants(IntNotEq, o, a, b, size), if a != b then 1 else 0)
    ensures FoldsTo(OnConstants(IntLess, o, a, b, size), if a < b then 1 else 0)
    ensures FoldsTo(OnConstants(IntLessEq, o, a, b, size), if a <= b then 1 else 0)
  {
    BitFits(o.size);
    FoldedBinary(IntEq, o, a, b, size);
    FoldedBinary(IntNotEq, o, a, b, size);
    FoldedBinary(IntLess, o, a, b, size);
    FoldedBinary(IntLessEq, o, a, b, size);
  }

  lemma SignedComparisonsFold(o: Varnode, a: nat, b: nat, size: nat)
    requires 1 <= size <= 8 && 1 <= o.size <= 8 && a < Capacity(size) && b < Capacity(size)
    ensures FoldsTo(OnConstants(IntSLess, o, a, b, size), if SignedLess(a, b, size) then 1 else 0)
    ensures FoldsTo(OnConstants(IntSLessEq, o, a, b, size), if SignedLess(b, a, size) then 0 else 1)
  {
    BitFits(o.size);
    SignedLessIs(a, b, size);
    SignedLessIs(b, a, size);
    FoldedBinary(IntSLess, o, a, b, size);
    FoldedBinary(IntSLessEq, o, a, b, size);
  }

  lemma BooleansFold(o: Varnode, a: nat, b: nat, size: nat)
    requires 1 <= size <= 8 && 1 <= o.size <= 8 && a < Capacity(size) && b < Capacity(size)
    ensures FoldsTo(OnConstants(BoolAnd, o, a, b, size), if a == 0 || b == 0 then 0 else 1)
    ensures FoldsTo(OnConstants(BoolOr, o, a, b, size), if a == 0 && b == 0 then 0 else 1)
    ensures FoldsTo(OnConstants(BoolXor, o, a, b, size), if (a == 0) == (b == 0) then 0 else 1)
  {
    BitFits(o.size);
    FoldedBinary(BoolAnd, o, a, b, size);
    FoldedBinary(BoolOr, o, a, b, size);
    FoldedBinary(BoolXor, o, a, b, size);
  }

  // ----- shifts by a constant, of any amount -----

  function ByConstant(k: BinaryOp, o: Varnode, a: nat, shift: nat, size: nat): Op {
    Binary(k, o, Constant(a, o.size), Constant(shift, size))
  }

  lemma FoldedShift(k: BinaryOp, o: Varnode, a: nat, shift: nat, size: nat)
    requires 1 <= size <= 8 && 1 <= o.size <= 8 && a < Capacity(o.size) && shift < Capacity(size)
    requires IsShift(k)
    ensures FoldsTo(ByConstant(k, o, a, shift, size), Wrap(EvalBinary(Idle(), k, o.size, o.size, a, shift), o.size))
  {
    var op := ByConstant(k, o, a, shift, size);
    CapacityFitsWord(o.size);
    CapacityFitsWord(size);
    assert OperandsOk(op);
    ConstFoldSound(Idle(), op, Nowhere());
    WrapSmall(a, o.size);
    WrapSmall(shift, size);
  }

  lemma LslFolds(o: Varnode, a: nat, shift: nat, size: nat)
    requires 1 <= size <= 8 && 1 <= o.size <= 8 && a < Capacity(o.size) && shift < Capacity(size)
    ensures FoldsTo(ByConstant(IntLsl, o, a, shift, size), (a * Pow2(shift)) % Capacity(o.size))
  {
    FoldedShift(IntLsl, o, a, shift, size);
    WrapTwice(a * Pow2(shift), o.size);
  }

  lemma QuotientFits(a: nat, m: nat)
    requires m > 0
    ensures 0 <= a / m <= a
  {
    DivNonNegative(a, m);
    MulAtLeast(a / m, m);
    var q := a / m;
    assert q <= q * m by {
      assert q * m == q * (m - 1) + q;
    }
  }

  lemma LsrFolds(o: Varnode, a: nat, shift: nat, size: nat)
    requires 1 <= size <= 8 && 1 <= o.size <= 8 && a < Capacity(o.size) && shift < Capacity(size)
    ensures a / Pow2(shift) >= 0 && FoldsTo(ByConstant(IntLsr, o, a, shift, size), a / Pow2(shift))
  {
    FoldedShift(IntLsr, o, a, shift, size);
    QuotientFits(a, Pow2(shift));
    WrapSmall(a / Pow2(shift), o.size);
  }

  lemma NegatedQuotient(y: nat, m: nat)
    requires m > 0
    ensures (-1 - y) / m == -1 - y / m
  {
    var q, r := y / m, y % m;
    assert (-1 - q) * m == 0 - m - q * m;
    DivModUnique(-1 - y, -1 - q, m - 1 - r, m);
  }

  /** A negative value is shifted as the complement of its complement. */
  lemma AsrFolds(o: Varnode, a: nat, shift: nat, size: nat) returns (x: nat)
    requires 1 <= size <= 8 && 1 <= o.size <= 8 && a < Capacity(o.size) && shift < Capacity(size)
    ensures FoldsTo(ByConstant(IntAsr, o, a, shift, size), x)
    ensures x == if IsNegative(a, o.size) then Capacity(o.size) - 1 - (Capacity(o.size) - 1 - a) / Pow2(shift)
                 else a / Pow2(shift)
  {
    x := Wrap(ShiftRight(Signed(a, o.size), shift), o.size);
    FoldedShift(IntAsr, o, a, shift, size);
    WrapTwice(ShiftRight(Signed(a, o.size), shift), o.size);
    ShiftedSigned(a, shift, o.size);
  }

  lemma ShiftedSigned(a: nat, shift: nat, size: nat)
    requires size >= 1 && a < Capacity(size)
    ensures Wrap(ShiftRight(Signed(a, size), shift), size) ==
      if IsNegative(a, size) then Capacity(size) - 1 - (Capacity(size) - 1 - a) / Pow2(shift) else a / Pow2(shift)
  {
    var c, m := Capacity(size), Pow2(shift);
    if IsNegative(a, size) {
      var y := c - 1 - a;
      NegatedQuotient(y, m);
      QuotientFits(y, m);
      DivModUnique(-1 - y / m, -1, c - 1 - y / m, c);
    } else {
      QuotientFits(a, m);
      WrapSmall(a / m, size);
    }
  }

  // ----- identities -----

  predicate BecomesCopy(op: Op, v: Varnode) {
    GetOutput(op).Some? && SimplifyOp(op) == Copy(GetOutput(op).value, v)
  }

  /** A shift by zero, an Or with zero on either side, an And with all ones. */
  lemma IdentitiesGo(o: Varnode, v: Varnode, size: nat)
    requires v.space != Const
    ensures forall k :: k == IntLsl || k == IntLsr || k == IntAsr ==>
      BecomesCopy(Binary(k, o, v, Constant(0, size)), v)
    ensures BecomesCopy(Binary(IntOr, o, v, Constant(0, size)), v)
    ensures BecomesCopy(Binary(IntOr, o, Constant(0, size), v), v)
    ensures 1 <= o.size <= 8 ==> BecomesCopy(Binary(IntAnd, o, v, Constant(Capacity(o.size) - 1, size)), v)
  {
    if 1 <= o.size <= 8 {
      AllOnesMaskIs(o.size);
    }
  }

  /** The low part of equal size, and the low part of a wider constant. */
  lemma LowPartsGo(o: Varnode, v: Varnode)
    ensures v.size == o.size ==> BecomesCopy(Subpiece(o, v, 0), v)
    ensures v.space == Const && v.size > o.size >= 1 && v.offset < TWO64 ==>
      BecomesCopy(Subpiece(o, v, 0), Constant(v.offset % Capacity(o.size), o.size))
  {
    if v.space == Const && v.size > o.size >= 1 && v.offset < TWO64 {
      TruncatedConstant(v.offset, o.size);
    }
  }

  /** A zero-extended constant beyond the widths that are folded. */
  lemma WideZextGoes(o: Varnode, v: Varnode)
    requires v.space == Const && v.offset < TWO64 && o.size > 8
    ensures BecomesCopy(Unary(IntZext, o, v), Constant(v.offset, o.size))
  {
    Pow2At64();
    MaskIsMod(v.offset, 64);
    DivModUnique(v.offset, 0, v.offset, TWO64);
  }
}
