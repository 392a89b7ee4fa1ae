/** Scanning raw Thumb-2 code for wide constants built by MOVW/MOVT pairs. */
module Thumb {
  import opened Options

  type Bytes = seq<bv8>

  /** The little-endian halfword at `i`. */
  function Half(data: Bytes, i: nat): bv16
    requires i + 2 <= |data|
  {
    data[i] as bv16 | ((data[i + 1] as bv16) << 8)
  }

  // ----- MOVW and MOVT -----

  datatype Move = Move(rd: bv16, imm: bv16)

  function DecodeMovwMovt(hw1: bv16, hw2: bv16, isMovt: bool): Option<Move> {
    var want: bv16 := if isMovt then 0xF2C0 else 0xF240;
    if hw1 & 0xFBF0 != want then None
    else if hw2 & 0x8000 != 0 then None
    else
      var imm4, i := hw1 & 0x000F, (hw1 >> 10) & 1;
      var imm3, imm8 := (hw2 >> 12) & 0x7, hw2 & 0xFF;
      Some(Move((hw2 >> 8) & 0xF, (imm4 << 12) | (i << 11) | (imm3 << 8) | imm8))
  }

  /** The encoding of MOVW (T3) and MOVT (T1), section A8.8.106 of Arm ARM DDI 0406C. */
  function EncodeMove(m: Move, isMovt: bool): (bv16, bv16) {
    var base: bv16 := if isMovt then 0xF2C0 else 0xF240;
    (base | (((m.imm >> 11) & 1) << 10) | (m.imm >> 12),
     (((m.imm >> 8) & 0x7) << 12) | (m.rd << 8) | (m.imm & 0xFF))
  }

  lemma MoveFields(rd: bv16, imm: bv16, base: bv16)
    requires rd < 16 && (base == 0xF2C0 || base == 0xF240)
    ensures var hw1 := base | (((imm >> 11) & 1) << 10) | (imm >> 12);
      hw1 & 0xFBF0 == base && hw1 & 0x000F == imm >> 12 && (hw1 >> 10) & 1 == (imm >> 11) & 1
    ensures var hw2 := (((imm >> 8) & 0x7) << 12) | (rd << 8) | (imm & 0xFF);
      hw2 & 0x8000 == 0 && (hw2 >> 8) & 0xF == rd && (hw2 >> 12) & 0x7 == (imm >> 8) & 0x7 && hw2 & 0xFF == imm & 0xFF
    ensures ((imm >> 12) << 12) | (((imm >> 11) & 1) << 11) | (((imm >> 8) & 0x7) << 8) | (imm & 0xFF) == imm
  {
  }

  lemma EncodedDecodes(m: Move, isMovt: bool)
    requires m.rd < 16
    ensures var (hw1, hw2) := EncodeMove(m, isMovt); DecodeMovwMovt(hw1, hw2, isMovt) == Some(m)
  {
    MoveFields(m.rd, m.imm, if isMovt then 0xF2C0 else 0xF240);
  }

  lemma DecodedEncodes(hw1: bv16, hw2: bv16, isMovt: bool)
    requires DecodeMovwMovt(hw1, hw2, isMovt).Some?
    ensures var m := DecodeMovwMovt(hw1, hw2, isMovt).value; m.rd < 16 && (hw1, hw2) == EncodeMove(m, isMovt)
  {
    FieldsOfMove(hw1, hw2, if isMovt then 0xF2C0 else 0xF240);
  }

  /** Two halfwords decode to a move if and only if they are its encoding. */
  lemma MoveIff(hw1: bv16, hw2: bv16, m: Move, isMovt: bool)
    ensures DecodeMovwMovt(hw1, hw2, isMovt) == Some(m) <==> m.rd < 16 && (hw1, hw2) == EncodeMove(m, isMovt)
  {
    if m.rd < 16 {
      EncodedDecodes(m, isMovt);
    }
    if DecodeMovwMovt(hw1, hw2, isMovt).Some? {
      DecodedEncodes(hw1, hw2, isMovt);
    }
  }

  lemma FieldsOfMove(hw1: bv16, hw2: bv16, base: bv16)
    requires hw1 & 0xFBF0 == base && hw2 & 0x8000 == 0
    ensures (hw2 >> 8) & 0xF < 16
    ensures var imm := ((hw1 & 0x000F) << 12) | (((hw1 >> 10) & 1) << 11) | (((hw2 >> 12) & 0x7) << 8) | (hw2 & 0xFF);
      && hw1 == base | (((imm >> 11) & 1) << 10) | (imm >> 12)
      && hw2 == (((imm >> 8) & 0x7) << 12) | (((hw2 >> 8) & 0xF) << 8) | (imm & 0xFF)
  {
  }

  /** The halfword is at `i`, its low byte first. */
  ghost predicate HasHalf(data: Bytes, i: nat, h: bv16) {
    i + 2 <= |data| && data[i] == (h & 0xFF) as bv8 && data[i + 1] == (h >> 8) as bv8
  }

  lemma HalfIff(data: Bytes, i: nat, h: bv16)
    requires i + 2 <= |data|
    ensures HasHalf(data, i, h) <==> Half(data, i) == h
  {
    Joined(data[i], data[i + 1], h);
  }

  lemma Joined(b0: bv8, b1: bv8, h: bv16)
    ensures b0 == (h & 0xFF) as bv8 && b1 == (h >> 8) as bv8 <==> b0 as bv16 | ((b1 as bv16) << 8) == h
  {
  }

  ghost predicate HasMove(data: Bytes, i: nat, m: Move, isMovt: bool) {
    HasHalf(data, i, EncodeMove(m, isMovt).0) && HasHalf(data, i + 2, EncodeMove(m, isMovt).1)
  }

  lemma MoveRead(data: Bytes, i: nat, m: Move, isMovt: bool)
    requires i + 4 <= |data|
    ensures DecodeMovwMovt(Half(data, i), Half(data, i + 2), isMovt) == Some(m) <==>
            m.rd < 16 && HasMove(data, i, m, isMovt)
  {
    MoveIff(Half(data, i), Half(data, i + 2), m, isMovt);
    HalfIff(data, i, EncodeMove(m, isMovt).0);
    HalfIff(data, i + 2, EncodeMove(m, isMovt).1);
  }

  datatype Pair = Pair(addr: nat, rd: bv16, value: bv32)

  function Combine(hi: bv16, lo: bv16): bv32 {
    ((hi as bv32) << 16) | lo as bv32
  }

  predicate IsPairAt(data: Bytes, i: nat) {
    && i + 8 <= |data|
    && var lo, hi := DecodeMovwMovt(Half(data, i), Half(data, i + 2), false), DecodeMovwMovt(Half(data, i + 4),
        Half(data, i + 6), true);
    lo.Some? && hi.Some? && lo.value.rd == hi.value.rd
  }

  function PairAt(data: Bytes, base: nat, i: nat): Pair
    requires IsPairAt(data, i)
  {
    var lo := DecodeMovwMovt(Half(data, i), Half(data, i + 2), false).value;
    var hi := DecodeMovwMovt(Half(data, i + 4), Half(data, i + 6), true).value;
    Pair(base + i, lo.rd, Combine(hi.imm, lo.imm))
  }

  /** Every pair at an even offset from `i` on, looking at each of them. */
  function PairsFrom(data: Bytes, base: nat, i: nat): seq<Pair>
    decreases |data| - i
  {
    if i + 8 > |data| then []
    else (if IsPairAt(data, i) then [PairAt(data, base, i)] else []) + PairsFrom(data, base, i + 2)
  }

  lemma {:induction false} PairsFromIsComplete(data: Bytes, base: nat, i: nat, p: Pair)
    requires i % 2 == 0
    ensures p in PairsFrom(data, base, i) <==>
      exists k :: i <= k && k % 2 == 0 && IsPairAt(data, k) && PairAt(data, base, k) == p
    decreases |data| - i
  {
    if i + 8 <= |data| {
      PairsFromIsComplete(data, base, i + 2, p);
      var found := if IsPairAt(data, i) then [PairAt(data, base, i)] else [];
      assert PairsFrom(data, base, i) == found + PairsFrom(data, base, i + 2);
    }
  }

  /** The halfwords of a pair cannot be read as the start of another. */
  lemma PairsDoNotOverlap(data: Bytes, i: nat)
    requires IsPairAt(data, i)
    ensures !IsPairAt(data, i + 2) && !IsPairAt(data, i + 4) && !IsPairAt(data, i + 6)
  {
    TopBit(Half(data, i + 2), Half(data, i + 4), Half(data, i + 6));
  }

  lemma TopBit(hw2: bv16, hw3: bv16, hw4: bv16)
    ensures hw2 & 0x8000 == 0 ==> hw2 & 0xFBF0 != 0xF240
    ensures hw3 & 0xFBF0 == 0xF2C0 ==> hw3 & 0xFBF0 != 0xF240
    ensures hw4 & 0x8000 == 0 ==> hw4 & 0xFBF0 != 0xF240
  {
  }

  lemma SkipLosesNothing(data: Bytes, base: nat, i: nat)
    requires IsPairAt(data, i)
    ensures PairsFrom(data, base, i) == [PairAt(data, base, i)] + PairsFrom(data, base, i + 8)
  {
    PairsDoNotOverlap(data, i);
    NoPair(data, base, i + 2);
    NoPair(data, base, i + 4);
    NoPair(data, base, i + 6);
  }

  lemma NoPair(data: Bytes, base: nat, i: nat)
    requires !IsPairAt(data, i)
    ensures PairsFrom(data, base, i) == PairsFrom(data, base, i + 2)
  {
    assert i + 8 > |data| ==> PairsFrom(data, base, i + 2) == [];
    assert [] + PairsFrom(data, base, i + 2) == PairsFrom(data, base, i + 2);
  }

  /** The scan jumps eight bytes after a hit and still finds every pair. */
  method FindMovwMovtPairs(data: Bytes, base: nat) returns (pairs: seq<Pair>)
    ensures pairs == PairsFrom(data, base, 0)
  {
    pairs := [];
    var i := 0;
    while i + 8 <= |data|
      invariant pairs + PairsFrom(data, base, i) == PairsFrom(data, base, 0)
      decreases |data| - i
    {
      if IsPairAt(data, i) {
        SkipLosesNothing(data, base, i);
        pairs := pairs + [PairAt(data, base, i)];
        i := i + 8;
      } else {
        NoPair(data, base, i);
        i := i + 2;
      }
    }
  }

  /** A MOVW of the low half and, behind it, a MOVT of the high half of `value`. */
  ghost predicate LoadsConstant(data: Bytes, i: nat, rd: bv16, value: bv32) {
    && rd < 16
    && HasMove(data, i, Move(rd, (value & 0xFFFF) as bv16), false)
    && HasMove(data, i + 4, Move(rd, (value >> 16) as bv16), true)
  }

  lemma LowHalf(lo: bv16, hi: bv16)
    ensures (Combine(hi, lo) & 0xFFFF) as bv16 == lo
  {
  }

  lemma HighHalf(lo: bv16, hi: bv16)
    ensures (Combine(hi, lo) >> 16) as bv16 == hi
  {
  }

  lemma BothHalves(value: bv32)
    ensures Combine((value >> 16) as bv16, (value & 0xFFFF) as bv16) == value
  {
  }

  lemma PairIff(data: Bytes, base: nat, i: nat, rd: bv16, value: bv32)
    ensures IsPairAt(data, i) && PairAt(data, base, i) == Pair(base + i, rd, value) <==>
            LoadsConstant(data, i, rd, value)
  {
    var low, high := Move(rd, (value & 0xFFFF) as bv16), Move(rd, (value >> 16) as bv16);
    if i + 8 <= |data| {
      MoveRead(data, i, low, false);
      MoveRead(data, i + 4, high, true);
      if IsPairAt(data, i) {
        var lo := DecodeMovwMovt(Half(data, i), Half(data, i + 2), false).value;
        var hi := DecodeMovwMovt(Half(data, i + 4), Half(data, i + 6), true).value;
        LowHalf(lo.imm, hi.imm);
        HighHalf(lo.imm, hi.imm);
      }
      BothHalves(value);
    }
  }

  /** A constant is found at an address if and only if the bytes there load it: a pair is
      missed nowhere and invented nowhere. */
  lemma ConstantIsFound(data: Bytes, base: nat, i: nat, rd: bv16, value: bv32)
    ensures Pair(base + i, rd, value) in PairsFrom(data, base, 0) <==> i % 2 == 0 && LoadsConstant(data, i, rd, value)
  {
    var p := Pair(base + i, rd, value);
    PairsFromIsComplete(data, base, 0, p);
    PairIff(data, base, i, rd, value);
    if p in PairsFrom(data, base, 0) {
      var k :| 0 <= k && k % 2 == 0 && IsPairAt(data, k) && PairAt(data, base, k) == p;
      assert k == i;
    }
  }
}
