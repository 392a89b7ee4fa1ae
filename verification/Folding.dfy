/** Constant folding and the single-operation identities of the peephole optimizer,
    written with the `u64` masks and shifts of the original, and their agreement with
    the P-code semantics. */
module Folding {
  import opened Words
  import opened Options
  import opened Basics
  import opened Pcode
  import opened Semantics

  // ----- masks and signs, as computed on u64 -----

  function AllOnesMask(size: nat): nat {
    if 8 * size >= 64 then TWO64 - 1 else ShiftRight(TWO64 - 1, 64 - 8 * size)
  }

  function MaskToSize(value: nat, size: nat): nat {
    BitAnd(value, AllOnesMask(size))
  }

  predicate FoldableWidth(size: nat) {
    1 <= size <= 8
  }

  /** Shift the sign bit to the top of the word, then back arithmetically. */
  function SignedValue(value: nat, size: nat): int {
    if 8 * size >= 64 then AsI64(value)
    else
      var shift := 64 - 8 * size;
      ShiftRight(AsI64(AsU64(value * Pow2(shift))), shift)
  }

  function SignExtendToSize(value: nat, inputSize: nat, outputSize: nat): nat {
    if !FoldableWidth(inputSize) || !FoldableWidth(outputSize) then value
    else MaskToSize(AsU64(SignedValue(value, inputSize)), outputSize)
  }

  // ----- the folds -----

  function FoldUnary(k: UnaryOp, value: nat, size: nat): Option<nat> {
    match k
    case IntZext => Some(value)
    case IntNeg => Some(BitAnd(AsU64(0 - value), AllOnesMask(size)))
    case IntNot => Some(BitAnd(AsU64(TWO64 - 1 - value), AllOnesMask(size)))
    case BoolNot => Some(Flag(value == 0))
    case _ => None
  }

  function FoldBinary(k: BinaryOp, a: nat, b: nat, size: nat): Option<nat> {
    match k
    case IntAdd => Some(BitAnd(AsU64(a + b), AllOnesMask(size)))
    case IntSub => Some(BitAnd(AsU64(a - b), AllOnesMask(size)))
    case IntMult => Some(BitAnd(AsU64(a * b), AllOnesMask(size)))
    case IntAnd => Some(BitAnd(BitAnd(a, b), AllOnesMask(size)))
    case IntOr => Some(BitAnd(BitOr(a, b), AllOnesMask(size)))
    case IntXor => Some(BitAnd(BitXor(a, b), AllOnesMask(size)))
    case BoolAnd => Some(Flag(a != 0 && b != 0))
    case BoolOr => Some(Flag(a != 0 || b != 0))
    case BoolXor => Some(Flag((a != 0) != (b != 0)))
    case _ => None
  }

  function FoldShift(k: BinaryOp, value: nat, shift: nat, size: nat): Option<nat> {
    match k
    case IntLsl =>
      Some(if shift >= 8 * size then 0 else BitAnd(AsU64(value * Pow2(shift)), AllOnesMask(size)))
    case IntLsr =>
      Some(if shift >= 8 * size then 0 else BitAnd(ShiftRight(value, shift), AllOnesMask(size)))
    case IntAsr =>
      Some(if shift >= 8 * size then Flag(SignedValue(value, size) < 0) * AllOnesMask(size)
           else MaskToSize(AsU64(ShiftRight(SignedValue(value, size), shift)), size))
    case _ => None
  }

  function FoldCompare(k: BinaryOp, a: nat, b: nat, size: nat): Option<nat> {
    match k
    case IntEq => Some(Flag(a == b))
    case IntNotEq => Some(Flag(a != b))
    case IntLess => Some(Flag(a < b))
    case IntLessEq => Some(Flag(a <= b))
    case IntSLess => Some(Flag(SignedValue(a, size) < SignedValue(b, size)))
    case IntSLessEq => Some(Flag(SignedValue(a, size) <= SignedValue(b, size)))
    case _ => None
  }

  const U32MAX := 0xFFFF_FFFF

  /** The constant an operation on constants computes, if it is folded at all. */
  function ConstFoldOp(op: Op): Option<nat> {
    match op
    case Unary(k, out, input) =>
      if input.space != Const || !FoldableWidth(out.size) || !FoldableWidth(input.size) then None
      else if k == IntSext then Some(SignExtendToSize(input.offset, input.size, out.size))
      else
        var r := FoldUnary(k, MaskToSize(input.offset, input.size), input.size);
        if r.None? then None else Some(MaskToSize(r.value, out.size))
    case Binary(k, out, left, right) =>
      if left.space != Const || right.space != Const || !FoldableWidth(out.size)
         || !FoldableWidth(left.size) || !FoldableWidth(right.size) then None
      else
        var size := Max(left.size, right.size);
        var a, b := MaskToSize(left.offset, left.size), MaskToSize(right.offset, right.size);
        var shift := if right.offset < U32MAX then right.offset else U32MAX;
        var r, s, c := FoldBinary(k, a, b, size), FoldShift(k, a, shift, left.size), FoldCompare(k, a, b, size);
        if r.Some? then Some(MaskToSize(r.value, out.size))
        else if s.Some? then Some(MaskToSize(s.value, out.size))
        else c
    case _ => None
  }

  predicate IsShift(k: BinaryOp) {
    k == IntLsl || k == IntLsr || k == IntAsr
  }

  predicate IsZero(v: Varnode) {
    v.space == Const && v.offset == 0
  }

  /** Pass 0 on one operation. */
  function FoldOp(op: Op): Op {
    var folded := ConstFoldOp(op);
    if folded.Some? then Copy(op.out, Constant(folded.value, op.out.size))
    else match op
      case Unary(IntZext, out, input) =>
        if input.space == Const then Copy(out, Constant(MaskToSize(input.offset, out.size), out.size)) else op
      case Unary(IntSext, out, input) =>
        if input.space == Const
        then Copy(out, Constant(SignExtendToSize(input.offset, input.size, out.size), out.size)) else op
      case Binary(k, out, left, right) =>
        if IsShift(k) && IsZero(right) then Copy(out, left)
        else if k == IntOr && IsZero(right) then Copy(out, left)
        else if k == IntOr && IsZero(left) then Copy(out, right)
        else if k == IntAnd && right.space == Const && right.offset == AllOnesMask(out.size) then Copy(out, left)
        else op
      case _ => op
  }

  /** Pass 1: an identity Subpiece is a Copy. */
  function IdentitySubpiece(op: Op): Op {
    if op.Subpiece? && op.lsb == 0 && op.out.size == op.input.size then Copy(op.out, op.input) else op
  }

  /** Pass 1b: truncate a constant operand of a Subpiece at the low end. */
  function ConstSubpiece(op: Op): Op {
    if op.Subpiece? && op.lsb == 0 && op.input.space == Const && op.input.size > op.out.size then
      var mask := if op.out.size >= 8 then TWO64 - 1 else Pow2(op.out.size * 8) - 1;
      Copy(op.out, Constant(BitAnd(op.input.offset, mask), op.out.size))
    else op
  }

  function SimplifyOp(op: Op): Op {
    ConstSubpiece(IdentitySubpiece(FoldOp(op)))
  }

  // ----- what the passes may rely on: P-code's size rules -----

  /** A constant fits its size and the word that carries it. */
  predicate VarnodeOk(v: Varnode) {
    v.size >= 1 && (v.space == Const ==> v.offset < Capacity(v.size) && v.offset < TWO64)
  }

  /** Operand sizes as P-code demands them. Any width is allowed except for `IntSext`
      and `IntAnd`, whose rewrites are wrong beyond eight bytes. */
  predicate SizesOk(op: Op) {
    match op
    case Copy(out, input) => out.size == input.size
    case Unary(k, out, input) =>
      match k {
        case IntNeg => out.size == input.size
        case IntNot => out.size == input.size
        case IntZext => input.size <= out.size
        case IntSext => input.size <= out.size <= 8
        case _ => true
      }
    case Binary(k, out, left, right) =>
      match k {
        case IntAdd => left.size == right.size == out.size
        case IntSub => left.size == right.size == out.size
        case IntMult => left.size == right.size == out.size
        case IntAnd => left.size == right.size == out.size && out.size <= 8
        case IntOr => left.size == right.size == out.size
        case IntXor => left.size == right.size == out.size
        case IntLsl => left.size == out.size
        case IntLsr => left.size == out.size
        case IntAsr => left.size == out.size
        case IntEq => left.size == right.size
        case IntNotEq => left.size == right.size
        case IntLess => left.size == right.size
        case IntLessEq => left.size == right.size
        case IntSLess => left.size == right.size
        case IntSLessEq => left.size == right.size
        case _ => true
      }
    case _ => true
  }

  predicate OperandsOk(op: Op) {
    && SizesOk(op)
    && (forall v :: v in Reads(op) ==> VarnodeOk(v))
    && (GetOutput(op).Some? ==> GetOutput(op).value.size >= 1)
  }

  // ----- the helpers compute what they are named after -----

  /** A word of ones without its low part is a smaller number of ones. */
  lemma OnesShifted(high: nat, low: nat)
    requires high * low == TWO64 && low > 0
    ensures (TWO64 - 1) / low == high - 1
  {
    assert (high - 1) * low == high * low - low;
    DivModUnique(TWO64 - 1, high - 1, low - 1, low);
  }

  lemma AllOnesMaskIs(size: nat)
    requires FoldableWidth(size)
    ensures AllOnesMask(size) == Capacity(size) - 1
  {
    if size < 8 {
      Pow2Parts(8 * size);
      OnesShifted(Pow2(8 * size), Pow2(64 - 8 * size));
    } else {
      Pow2At64();
    }
  }

  lemma MaskToSizeWraps(value: nat, size: nat)
    requires FoldableWidth(size)
    ensures MaskToSize(value, size) == Wrap(value, size)
  {
    AllOnesMaskIs(size);
    MaskIsMod(value, 8 * size);
  }

  lemma WrapAsU64(x: int, size: nat)
    requires FoldableWidth(size)
    ensures Wrap(AsU64(x), size) == Wrap(x, size)
  {
    ModTwo64(x, 8 * size);
  }

  lemma MulStrict(a: nat, b: nat, c: nat)
    requires a < b && c > 0
    ensures a * c < b * c
  {
    MulAtLeast(b - a, c);
    assert (b - a) * c == b * c - a * c;
  }

  /** Scaling to the top of a 64-bit word and back preserves the sign reading. */
  lemma ScaleAndBack(v: nat, half: nat, low: nat)
    requires low > 0 && half * low == TWO64 / 2 && v < 2 * half
    ensures v * low < TWO64
    ensures AsI64(v * low) / low == if v < half then v else v - 2 * half
  {
    MulStrict(v, 2 * half, low);
    assert (2 * half) * low == 2 * (half * low);
    if v < half {
      MulStrict(v, half, low);
      DivModUnique(v * low, v, 0, low);
    } else {
      var d := v - 2 * half;
      assert d * low == v * low - TWO64;
      assert v * low >= half * low by {
        MulAtLeast(v - half + 1, low);
        assert (v - half + 1) * low == v * low - half * low + low;
      }
      DivModUnique(d * low, d, 0, low);
    }
  }

  lemma ShiftedSign(v: nat, half: nat, low: nat)
    requires low > 0 && half * low == TWO64 / 2 && v < 2 * half
    ensures AsI64(AsU64(v * low)) / low == if v < half then v else v - 2 * half
  {
    ScaleAndBack(v, half, low);
    DivModUnique(v * low, 0, v * low, TWO64);
  }

  /** The shift-based sign reading is the two's-complement one. */
  lemma SignedValueIsSigned(v: nat, size: nat)
    requires FoldableWidth(size) && v < Capacity(size)
    ensures SignedValue(v, size) == Signed(v, size)
  {
    Pow2At64();
    if size < 8 {
      Pow2Add(8 * size - 1, 64 - 8 * size);
      ShiftedSign(v, Pow2(8 * size - 1), Pow2(64 - 8 * size));
    }
  }

  // ----- every fold is the semantics of its operation -----

  lemma WrapTwice(x: int, size: nat)
    ensures Wrap(Wrap(x, size), size) == Wrap(x, size)
  {
    WrapSmall(Wrap(x, size), size);
  }

  /** Masking a 64-bit word twice to the same size reduces its unbounded value. */
  lemma DoubleMask(x: int, size: nat)
    requires FoldableWidth(size)
    ensures MaskToSize(BitAnd(AsU64(x), AllOnesMask(size)), size) == Wrap(Wrap(x, size), size)
  {
    MaskToSizeWraps(AsU64(x), size);
    WrapAsU64(x, size);
    MaskToSizeWraps(Wrap(x, size), size);
  }

  /** The same for a word that already fits. */
  lemma DoubleMaskSmall(x: nat, size: nat)
    requires FoldableWidth(size)
    ensures MaskToSize(BitAnd(x, AllOnesMask(size)), size) == Wrap(x, size)
  {
    MaskToSizeWraps(x, size);
    MaskToSizeWraps(Wrap(x, size), size);
    WrapTwice(x, size);
  }

  lemma MaskFlag(b: bool, size: nat)
    requires FoldableWidth(size)
    ensures MaskToSize(Flag(b), size) == Wrap(Flag(b), size)
  {
    MaskToSizeWraps(Flag(b), size);
  }

  lemma FoldUnaryCorrect(m: Machine, k: UnaryOp, v: nat, inSize: nat, outSize: nat)
    requires FoldableWidth(inSize) && FoldableWidth(outSize) && v < Capacity(inSize)
    requires k == IntNeg || k == IntNot ==> inSize == outSize
    requires FoldUnary(k, v, inSize).Some?
    ensures MaskToSize(FoldUnary(k, v, inSize).value, outSize)
         == Wrap(EvalUnary(m, k, outSize, inSize, v), outSize)
  {
    match k
    case IntNeg => DoubleMask(0 - v, inSize);
    case IntNot => FoldNotCorrect(m, v, inSize);
    case IntZext => MaskToSizeWraps(v, outSize);
    case BoolNot => MaskFlag(v == 0, outSize);
  }

  lemma FoldNotCorrect(m: Machine, v: nat, size: nat)
    requires FoldableWidth(size) && v < Capacity(size)
    ensures MaskToSize(FoldUnary(IntNot, v, size).value, size) == Wrap(EvalUnary(m, IntNot, size, size, v), size)
  {
    DoubleMask(-1 - v, size);
    ModShift(-1 - v, 1, TWO64);
  }

  lemma FoldBinaryCorrect(m: Machine, k: BinaryOp, a: nat, b: nat, size: nat, outSize: nat)
    requires FoldableWidth(size) && FoldableWidth(outSize)
    requires !(k == BoolAnd || k == BoolOr || k == BoolXor) ==> size == outSize
    requires FoldBinary(k, a, b, size).Some?
    ensures MaskToSize(FoldBinary(k, a, b, size).value, outSize)
         == Wrap(EvalBinary(m, k, outSize, size, a, b), outSize)
  {
    match k
    case IntAdd => DoubleMask(a + b, size);
    case IntSub => DoubleMask(a - b, size);
    case IntMult => DoubleMask(a * b, size);
    case IntAnd => DoubleMaskSmall(BitAnd(a, b), size);
    case IntOr => DoubleMaskSmall(BitOr(a, b), size);
    case IntXor => DoubleMaskSmall(BitXor(a, b), size);
    case BoolAnd => MaskFlag(a != 0 && b != 0, outSize);
    case BoolOr => MaskFlag(a != 0 || b != 0, outSize);
    case BoolXor => MaskFlag((a != 0) != (b != 0), outSize);
  }

  lemma FoldCompareCorrect(m: Machine, k: BinaryOp, a: nat, b: nat, size: nat, outSize: nat)
    requires FoldableWidth(size)
    requires a < Capacity(size) && b < Capacity(size)
    requires FoldCompare(k, a, b, size).Some?
    ensures FoldCompare(k, a, b, size).value == EvalBinary(m, k, outSize, size, a, b)
  {
    SignedValueIsSigned(a, size);
    SignedValueIsSigned(b, size);
  }

  lemma MultipleWrapsToZero(x: nat, shift: nat, size: nat)
    requires shift >= 8 * size
    ensures Wrap(x * Pow2(shift), size) == 0
  {
    Pow2Add(shift - 8 * size, 8 * size);
    var h, c := Pow2(shift - 8 * size), Capacity(size);
    assert x * (h * c) == (x * h) * c;
    DivModUnique(x * (h * c), x * h, 0, c);
  }

  lemma ShiftedOut(x: int, shift: nat, size: nat)
    requires 0 - Capacity(size) <= x < Capacity(size) && shift >= 8 * size
    ensures ShiftRight(x, shift) == if x < 0 then -1 else 0
  {
    Pow2Monotone(8 * size, shift);
    var p := Pow2(shift);
    if x < 0 {
      DivModUnique(x, -1, x + p, p);
    } else {
      DivModUnique(x, 0, x, p);
    }
  }

  /** An over-wide arithmetic shift leaves only copies of the sign. */
  lemma WideAsr(v: nat, shift: nat, size: nat)
    requires FoldableWidth(size) && v < Capacity(size) && shift >= 8 * size
    ensures Flag(SignedValue(v, size) < 0) * AllOnesMask(size) == Wrap(ShiftRight(Signed(v, size), shift), size)
  {
    SignedValueIsSigned(v, size);
    ShiftedOut(Signed(v, size), shift, size);
    AllOnesMaskIs(size);
    var c := Capacity(size);
    DivModUnique(-1, -1, c - 1, c);
    WrapSmall(0, size);
  }

  lemma FoldShiftCorrect(m: Machine, k: BinaryOp, v: nat, shift: nat, size: nat)
    requires FoldableWidth(size) && v < Capacity(size) && IsShift(k)
    ensures FoldShift(k, v, shift, size).Some?
    ensures MaskToSize(FoldShift(k, v, shift, size).value, size)
         == Wrap(EvalBinary(m, k, size, size, v, shift), size)
  {
    match k
    case IntLsl =>
      if shift >= 8 * size {
        MultipleWrapsToZero(v, shift, size);
        MaskToSizeWraps(0, size);
      } else {
        DoubleMask(v * Pow2(shift), size);
      }
    case IntLsr =>
      if shift >= 8 * size {
        ShiftedOut(v, shift, size);
        MaskToSizeWraps(0, size);
      } else {
        DoubleMaskSmall(ShiftRight(v, shift), size);
      }
    case IntAsr =>
      var x := ShiftRight(Signed(v, size), shift);
      if shift >= 8 * size {
        WideAsr(v, shift, size);
        MaskToSizeWraps(Wrap(x, size), size);
      } else {
        SignedValueIsSigned(v, size);
        DoubleMask(x, size);
      }
  }

  /** All over-wide shifts agree, so capping the amount at 2^32 - 1 is harmless. */
  lemma OverwideShiftsAgree(m: Machine, k: BinaryOp, v: nat, size: nat, s1: nat, s2: nat)
    requires IsShift(k) && size > 0 && v < Capacity(size)
    requires s1 >= 8 * size && s2 >= 8 * size
    ensures EvalBinary(m, k, size, size, v, s1) == EvalBinary(m, k, size, size, v, s2)
  {
    match k
    case IntLsl => MultipleWrapsToZero(v, s1, size); MultipleWrapsToZero(v, s2, size);
    case IntLsr => ShiftedOut(v, s1, size); ShiftedOut(v, s2, size);
    case IntAsr => ShiftedOut(Signed(v, size), s1, size); ShiftedOut(Signed(v, size), s2, size);
  }

  /** Reading a canonical constant, through the semantics or through the mask. */
  lemma ConstantValue(s: State, v: Varnode)
    requires v.space == Const && VarnodeOk(v)
    ensures Get(s, v) == v.offset
    ensures FoldableWidth(v.size) ==> MaskToSize(v.offset, v.size) == v.offset
  {
    WrapSmall(v.offset, v.size);
    if FoldableWidth(v.size) {
      MaskToSizeWraps(v.offset, v.size);
    }
  }

  lemma ConstFoldUnarySound(m: Machine, op: Op, s: State)
    requires op.Unary? && OperandsOk(op) && ConstFoldOp(op).Some?
    ensures ConstFoldOp(op).value == Wrap(Result(m, op, s), op.out.size)
  {
    var v := op.input;
    assert v in Reads(op);
    ConstantValue(s, v);
    if op.unop == IntSext {
      SignedValueIsSigned(v.offset, v.size);
      var x := Signed(v.offset, v.size);
      MaskToSizeWraps(AsU64(x), op.out.size);
      WrapAsU64(x, op.out.size);
      WrapTwice(x, op.out.size);
    } else {
      FoldUnaryCorrect(m, op.unop, v.offset, v.size, op.out.size);
    }
  }

  lemma ConstFoldShiftSound(m: Machine, op: Op, s: State)
    requires op.Binary? && IsShift(op.binop) && OperandsOk(op) && ConstFoldOp(op).Some?
    ensures ConstFoldOp(op).value == Wrap(Result(m, op, s), op.out.size)
  {
    assert op.left in Reads(op) && op.right in Reads(op);
    ConstantValue(s, op.left);
    ConstantValue(s, op.right);
    var a, b, size := op.left.offset, op.right.offset, op.left.size;
    if b < U32MAX {
      FoldShiftCorrect(m, op.binop, a, b, size);
    } else {
      FoldShiftCorrect(m, op.binop, a, U32MAX, size);
      OverwideShiftsAgree(m, op.binop, a, size, b, U32MAX);
    }
  }

  lemma ConstFoldBinarySound(m: Machine, op: Op, s: State)
    requires op.Binary? && !IsShift(op.binop) && OperandsOk(op) && ConstFoldOp(op).Some?
    ensures ConstFoldOp(op).value == Wrap(Result(m, op, s), op.out.size)
  {
    assert op.left in Reads(op) && op.right in Reads(op);
    ConstantValue(s, op.left);
    ConstantValue(s, op.right);
    var k, a, b, size := op.binop, op.left.offset, op.right.offset, Max(op.left.size, op.right.size);
    assert FoldShift(k, a, 0, op.left.size).None?;
    if FoldBinary(k, a, b, size).Some? {
      FoldBinaryCorrect(m, k, a, b, size, op.out.size);
    } else {
      FoldCompareCorrect(m, k, a, b, size, op.out.size);
      Pow2Monotone(8, 8 * op.out.size);
      WrapSmall(FoldCompare(k, a, b, size).value, op.out.size);
    }
  }

  /** Every constant fold computes the value P-code gives the operation. */
  lemma ConstFoldSound(m: Machine, op: Op, s: State)
    requires OperandsOk(op) && ConstFoldOp(op).Some?
    ensures ConstFoldOp(op).value == Wrap(Result(m, op, s), op.out.size)
  {
    if op.Unary? {
      ConstFoldUnarySound(m, op, s);
    } else if IsShift(op.binop) {
      ConstFoldShiftSound(m, op, s);
    } else {
      ConstFoldBinarySound(m, op, s);
    }
  }

  // ----- the single-operation passes -----

  /** The operands whose value an operation may turn out to pass on unchanged. */
  function CopySources(op: Op): seq<Varnode> {
    match op
    case Copy(_, input) => [input]
    case Binary(k, _, left, right) =>
      if k == IntOr then [left, right] else if k == IntAnd || IsShift(k) then [left] else []
    case Subpiece(out, input, lsb) => if lsb == 0 && out.size == input.size then [input] else []
    case _ => []
  }

  /** `op'` is `op`, or a Copy of a constant or of one of its copy sources, and in
      either case it computes the same value in every state. */
  ghost predicate Simplifies(op: Op, op': Op) {
    && GetOutput(op') == GetOutput(op)
    && OperandsOk(op')
    && (op' != op ==>
          && op'.Copy?
          && (op'.input.space == Const || op'.input in CopySources(op))
          && forall m, s :: Wrap(Result(m, op', s), op'.out.size) == Wrap(Result(m, op, s), op'.out.size))
  }

  /** A Copy of `v` stands for `op` when `v` has the value `op` computes. */
  lemma CopySimplifies(op: Op, v: Varnode)
    requires OperandsOk(op) && GetOutput(op).Some?
    requires VarnodeOk(v) && v.size == GetOutput(op).value.size
    requires v.space == Const || v in CopySources(op)
    requires forall m, s :: Get(s, v) == Wrap(Result(m, op, s), v.size)
    ensures Simplifies(op, Copy(GetOutput(op).value, v))
  {
    var op' := Copy(GetOutput(op).value, v);
    forall m, s
      ensures Wrap(Result(m, op', s), v.size) == Wrap(Result(m, op, s), v.size)
    {
      assert Get(s, v) == Wrap(Result(m, op, s), v.size);
      WrapTwice(Result(m, op, s), v.size);
    }
  }

  lemma ConstantOk(x: nat, size: nat)
    requires size >= 1 && x < Capacity(size) && x < TWO64
    ensures VarnodeOk(Constant(x, size))
    ensures forall s :: Get(s, Constant(x, size)) == x
  {
    WrapSmall(x, size);
  }

  lemma CapacityFitsWord(size: nat)
    requires size <= 8
    ensures Capacity(size) <= TWO64
  {
    Pow2At64();
    Pow2Monotone(8 * size, 64);
  }

  lemma ConstFoldSimplifies(op: Op)
    requires OperandsOk(op) && ConstFoldOp(op).Some?
    ensures Simplifies(op, FoldOp(op))
  {
    var x, size := ConstFoldOp(op).value, op.out.size;
    ConstFoldSound(Idle(), op, State(map[], map[], []));
    CapacityFitsWord(size);
    ConstantOk(x, size);
    forall m, s ensures Get(s, Constant(x, size)) == Wrap(Result(m, op, s), size) {
      ConstFoldSound(m, op, s);
    }
    CopySimplifies(op, Constant(x, size));
  }

  /** Zero extension of a constant too wide to be folded. */
  lemma WideZextSimplifies(op: Op)
    requires OperandsOk(op) && op.Unary? && op.unop == IntZext && op.input.space == Const
    requires ConstFoldOp(op).None?
    ensures Simplifies(op, FoldOp(op))
  {
    var v, size := op.input, op.out.size;
    assert v in Reads(op);
    assert size > 8;
    Pow2At64();
    MaskIsMod(v.offset, 64);
    DivModUnique(v.offset, 0, v.offset, TWO64);
    Pow2Monotone(8 * v.size, 8 * size);
    ConstantOk(v.offset, size);
    forall m, s ensures Get(s, Constant(v.offset, size)) == Wrap(Result(m, op, s), size) {
      ConstantValue(s, v);
      WrapSmall(v.offset, size);
    }
    CopySimplifies(op, Constant(v.offset, size));
  }

  lemma ShiftByZero(m: Machine, k: BinaryOp, x: nat, size: nat)
    requires IsShift(k) && size > 0 && x < Capacity(size)
    ensures Wrap(EvalBinary(m, k, size, size, x, 0), size) == x
  {
    WrapSmall(x, size);
    assert Pow2(0) == 1;
    assert x * 1 == x && x / 1 == x && Signed(x, size) / 1 == Signed(x, size);
    ModShift(x, -1, Capacity(size));
    WrapTwice(x - Capacity(size), size);
  }

  lemma AndAllOnes(x: nat, size: nat)
    requires FoldableWidth(size) && x < Capacity(size)
    ensures Wrap(BitAnd(x, AllOnesMask(size)), size) == x
  {
    AllOnesMaskIs(size);
    MaskIsMod(x, 8 * size);
    WrapSmall(x, size);
  }

  lemma OrZero(x: nat, size: nat)
    requires x < Capacity(size)
    ensures Wrap(BitOr(x, 0), size) == x && Wrap(BitOr(0, x), size) == x
  {
    WrapSmall(x, size);
  }

  /** `op` is a shift by zero, an Or with zero or an And with all ones, on `v`. */
  predicate PassesOn(op: Op, v: Varnode)
    requires op.Binary?
  {
    || (IsShift(op.binop) && IsZero(op.right) && v == op.left)
    || (op.binop == IntOr && IsZero(op.right) && v == op.left)
    || (op.binop == IntOr && IsZero(op.left) && v == op.right)
    || (op.binop == IntAnd && v == op.left && op.right.space == Const && op.right.offset == AllOnesMask(op.out.size))
  }

  lemma PassedOnValue(m: Machine, op: Op, v: Varnode, s: State)
    requires OperandsOk(op) && op.Binary? && PassesOn(op, v)
    ensures Get(s, v) == Wrap(Result(m, op, s), v.size)
  {
    assert op.left in Reads(op) && op.right in Reads(op);
    if op.binop == IntAnd {
      ConstantValue(s, op.right);
      AndAllOnes(Get(s, v), v.size);
    } else if op.binop == IntOr {
      ConstantValue(s, if v == op.left && IsZero(op.right) then op.right else op.left);
      OrZero(Get(s, v), v.size);
    } else {
      ConstantValue(s, op.right);
      ShiftByZero(m, op.binop, Get(s, v), v.size);
    }
  }

  lemma IdentitySimplifies(op: Op, v: Varnode)
    requires OperandsOk(op) && op.Binary? && PassesOn(op, v)
    ensures Simplifies(op, Copy(op.out, v))
  {
    assert op.left in Reads(op) && op.right in Reads(op);
    assert v in CopySources(op) by {
      assert v == CopySources(op)[0] || v == CopySources(op)[1];
    }
    forall m, s ensures Get(s, v) == Wrap(Result(m, op, s), v.size) {
      PassedOnValue(m, op, v, s);
    }
    CopySimplifies(op, v);
  }

  lemma FoldOpSimplifies(op: Op)
    requires OperandsOk(op)
    ensures Simplifies(op, FoldOp(op))
  {
    if ConstFoldOp(op).Some? {
      ConstFoldSimplifies(op);
    } else if op.Unary? && op.unop == IntZext && op.input.space == Const {
      WideZextSimplifies(op);
    } else if op.Unary? {
      assert op.input in Reads(op);
    } else if op.Binary? && FoldOp(op) != op {
      IdentitySimplifies(op, FoldOp(op).input);
    }
  }

  lemma SubpieceSimplifies(op: Op)
    requires OperandsOk(op)
    ensures Simplifies(op, IdentitySubpiece(op)) && Simplifies(op, ConstSubpiece(op))
  {
    if op.Subpiece? && op.lsb == 0 {
      var v, size := op.input, op.out.size;
      assert v in Reads(op);
      forall m, s ensures Wrap(Result(m, op, s), size) == Wrap(Get(s, v), size) {
        assert Pow2(0) == 1;
      }
      if size == v.size {
        forall m, s ensures Get(s, v) == Wrap(Result(m, op, s), size) {
          WrapSmall(Get(s, v), size);
        }
        CopySimplifies(op, v);
      } else if v.space == Const && v.size > size {
        TruncateSimplifies(op);
      }
    }
  }

  lemma TruncatedConstant(x: nat, size: nat)
    requires x < TWO64 && size >= 1
    ensures var mask := if size >= 8 then TWO64 - 1 else Capacity(size) - 1;
      BitAnd(x, mask) == Wrap(x, size) < TWO64
  {
    Pow2At64();
    if size >= 8 {
      MaskIsMod(x, 64);
      Pow2Monotone(64, 8 * size);
      DivModUnique(x, 0, x, TWO64);
      WrapSmall(x, size);
    } else {
      MaskIsMod(x, 8 * size);
      CapacityFitsWord(size);
    }
  }

  /** Truncating a constant with a mask is what Subpiece at the low end computes. */
  lemma TruncateSimplifies(op: Op)
    requires OperandsOk(op) && op.Subpiece? && op.lsb == 0
    requires op.input.space == Const && op.input.size > op.out.size
    ensures Simplifies(op, ConstSubpiece(op))
  {
    var v, size := op.input, op.out.size;
    assert v in Reads(op);
    var x := ConstSubpiece(op).input.offset;
    TruncatedConstant(v.offset, size);
    ConstantOk(x, size);
    forall m, s ensures Get(s, Constant(x, size)) == Wrap(Result(m, op, s), size) {
      ConstantValue(s, v);
      assert Pow2(0) == 1;
    }
    CopySimplifies(op, Constant(x, size));
  }

  /** The three single-operation passes preserve the value of every operation. */
  lemma SimplifyOpSound(op: Op)
    requires OperandsOk(op)
    ensures Simplifies(op, SimplifyOp(op))
  {
    var op1 := FoldOp(op);
    var op2 := IdentitySubpiece(op1);
    FoldOpSimplifies(op);
    SubpieceSimplifies(op1);
    SubpieceSimplifies(op2);
    if op1 != op {
      assert op2 == op1 && ConstSubpiece(op2) == op1;
    }
  }
}
