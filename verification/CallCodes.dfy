/** The codes of direct calls: BL and BLX in Thumb-2 and BL in ARM mode, as sections
    A8.8.25 of Arm ARM DDI 0406C gives them, and how the scans read them back. Bit fields
    are read by division. */
module CallCodes {
  import opened Options
  import opened Words

  type Bytes = seq<bv8>

  // ----- the codes -----

  predicate IsCallOffset(offset: int) {
    -0x100_0000 <= offset <= 0x100_0000 - 2 && offset % 2 == 0
  }

  /** The bit stored for an offset bit: NOT(I) XOR S. */
  function Stored(i: nat, s: nat): nat {
    (i + s + 1) % 2
  }

  function EncodeFields(op: nat, s: nat, i1: nat, i2: nat, imm10: nat, imm11: nat): (nat, nat) {
    (0xF000 + s * 1024 + imm10, op + Stored(i1, s) * 8192 + Stored(i2, s) * 2048 + imm11)
  }

  /** The halfwords of a Thumb-2 call with this offset: the sign, then 23 bits of two's
      complement in units of two. */
  function EncodeCall(op: nat, offset: int): (nat, nat)
    requires IsCallOffset(offset)
  {
    var s := if offset < 0 then 1 else 0;
    var u := offset + s * 0x100_0000;
    EncodeFields(op, s, u / 0x80_0000, u / 0x40_0000 % 2, u / 4096 % 1024, u / 2 % 2048)
  }

  const BL := 0xD000
  const BLX := 0xC000

  /** BL, encoding T1. */
  function EncodeBl(offset: int): (nat, nat)
    requires IsCallOffset(offset)
  {
    EncodeCall(BL, offset)
  }

  /** BLX, encoding T2; an offset that is no multiple of four makes it an undefined code. */
  function EncodeBlx(offset: int): (nat, nat)
    requires IsCallOffset(offset)
  {
    EncodeCall(BLX, offset)
  }

  predicate IsArmOffset(offset: int) {
    -0x200_0000 <= offset <= 0x200_0000 - 4 && offset % 4 == 0
  }

  /** BL, encoding A1: a condition, 1011, and the offset in words as 24 bits of two's
      complement. */
  function EncodeArmBl(cond: nat, offset: int): nat
    requires IsArmOffset(offset)
  {
    var words := offset / 4;
    cond * 0x1000_0000 + 11 * 0x100_0000 + (if words < 0 then words + 0x100_0000 else words)
  }

  /** These bytes are at `i`. */
  ghost predicate BytesAt(data: Bytes, i: nat, bytes: seq<nat>) {
    i + |bytes| <= |data| && forall k :: 0 <= k < |bytes| ==> data[i + k] as nat == bytes[k]
  }

  ghost predicate HalvesAt(data: Bytes, i: nat, h: (nat, nat)) {
    BytesAt(data, i, [h.0 % 256, h.0 / 256, h.1 % 256, h.1 / 256])
  }

  ghost predicate HasWord(data: Bytes, i: nat, w: nat) {
    BytesAt(data, i, [w % 256, w / 256 % 256, w / 65536 % 256, w / 0x100_0000])
  }

  ghost predicate HasArmBl(data: Bytes, i: nat, cond: nat, offset: int) {
    cond < 16 && IsArmOffset(offset) && HasWord(data, i, EncodeArmBl(cond, offset))
  }

  /** An address that far from `pc`, in 64 bits. */
  function Plus(pc: nat, distance: int): (a: nat) {
    (pc + distance) % TWO64
  }

  /** The halfwords at `pc` are the code of a call of `t`: a BL goes to PC + 4 plus its
      offset and sets the Thumb bit, a BLX to the word that holds that address. */
  ghost predicate IsCodeOf(h: (nat, nat), pc: nat, t: nat) {
    exists offset :: IsCallOffset(offset) && var to := Plus(pc, 4 + offset);
      (h == EncodeBl(offset) && t == to - to % 2 + 1) || (h == EncodeBlx(offset) && t == to - to % 4)
  }

  ghost predicate HasThumbCall(data: Bytes, base: nat, i: nat, t: nat) {
    exists h :: HalvesAt(data, i, h) && IsCodeOf(h, base + i, t)
  }

  ghost predicate HasArmCall(data: Bytes, base: nat, i: nat, t: nat) {
    exists cond, offset :: HasArmBl(data, i, cond, offset) && t == Plus(base + i, 8 + offset)
  }

  /** Names an offset whose code a proof wants to look into. */
  ghost predicate Inspected(i: nat) { true }

  /** There is a Thumb-2 call of `t` at `i`: `HasThumbCall`, folded, which opens only for an
      offset named by `Inspected`. */
  ghost predicate ThumbCalls(data: Bytes, base: nat, i: nat, t: nat) {
    forall k {:trigger Inspected(k)} :: Inspected(k) && k == i ==> HasThumbCall(data, base, k, t)
  }

  /** There is an ARM-mode call of `t`, under any condition, at `i`: folded as well. */
  ghost predicate ArmCalls(data: Bytes, base: nat, i: nat, t: nat) {
    forall k {:trigger Inspected(k)} :: Inspected(k) && k == i ==> HasArmCall(data, base, k, t)
  }

  // ----- reading them back -----

  /** The little-endian halfword at `i`. */
  function HalfAt(data: Bytes, i: nat): nat
    requires i + 2 <= |data|
  {
    data[i] as nat + 256 * (data[i + 1] as nat)
  }

  function WordAt(data: Bytes, i: nat): nat
    requires i + 4 <= |data|
  {
    HalfAt(data, i) + 0x1_0000 * HalfAt(data, i + 2)
  }

  predicate IsBl(h1: nat, h2: nat) {
    h1 / 2048 == 30 && h2 / 16384 == 3 && h2 / 4096 % 2 == 1
  }

  predicate IsBlx(h1: nat, h2: nat) {
    h1 / 2048 == 30 && h2 / 16384 == 3 && h2 / 4096 % 2 == 0
  }

  function SignBit(h1: nat): nat {
    h1 / 1024 % 2
  }

  /** I1 and I2: NOT(J XOR S). */
  function Unstored(j: nat, s: nat): nat
    requires j < 2 && s < 2
  {
    1 - (j + s) % 2
  }

  /** S:I1:I2:imm10:imm11:0 in two's complement. */
  function Place(s: int, i1: int, i2: int, imm10: int, imm11: int): int {
    i1 * 0x80_0000 + i2 * 0x40_0000 + imm10 * 4096 + imm11 * 2 - s * 0x100_0000
  }

  function DecodeOffset(h1: nat, h2: nat): int {
    var s := SignBit(h1);
    Place(s, Unstored(h2 / 8192 % 2, s), Unstored(h2 / 2048 % 2, s), h1 % 1024, h2 % 2048)
  }

  /** The target of a BL keeps the Thumb bit set; that of a BLX is word-aligned. */
  function TargetOf(pc: nat, offset: int, isBlx: bool): nat {
    var raw := (pc + 4 + offset) % TWO64;
    if isBlx then raw - raw % 4 else if raw % 2 == 0 then raw + 1 else raw
  }

  /** The target of the Thumb-2 call with these halfwords, if they are one. */
  function CallOf(h1: nat, h2: nat, pc: nat): Option<nat> {
    if IsBl(h1, h2) then Some(TargetOf(pc, DecodeOffset(h1, h2), false))
    else if IsBlx(h1, h2) then Some(TargetOf(pc, DecodeOffset(h1, h2), true))
    else None
  }

  function ThumbCall(data: Bytes, base: nat, i: nat): Option<nat>
    requires i + 4 <= |data|
  {
    CallOf(HalfAt(data, i), HalfAt(data, i + 2), base + i)
  }

  /** The target of an ARM-mode BL at `pc`: a signed word offset from PC + 8. */
  function ArmWordTarget(word: nat, pc: nat): Option<nat> {
    if word / 0x100_0000 % 16 != 11 then None
    else
      var imm24 := word % 0x100_0000;
      var offset := 4 * (if imm24 >= 0x80_0000 then imm24 - 0x100_0000 else imm24);
      Some((pc + 8 + offset) % TWO64)
  }

  function ArmCall(data: Bytes, base: nat, j: nat): Option<nat>
    requires j + 4 <= |data|
  {
    ArmWordTarget(WordAt(data, j), base + j)
  }

  // ----- bytes -----

  lemma HalfBytes(b0: nat, b1: nat, h: nat)
    requires b0 < 256 && b1 < 256
    ensures b0 == h % 256 && b1 == h / 256 <==> b0 + 256 * b1 == h
  {
  }

  lemma HalvesRead(data: Bytes, i: nat, h: (nat, nat))
    requires i + 4 <= |data|
    ensures HalvesAt(data, i, h) <==> HalfAt(data, i) == h.0 && HalfAt(data, i + 2) == h.1
  {
    var bytes := [h.0 % 256, h.0 / 256, h.1 % 256, h.1 / 256];
    HalfBytes(data[i] as nat, data[i + 1] as nat, h.0);
    HalfBytes(data[i + 2] as nat, data[i + 3] as nat, h.1);
    if HalvesAt(data, i, h) {
      assert data[i + 0] as nat == bytes[0] && data[i + 1] as nat == bytes[1];
      assert data[i + 2] as nat == bytes[2] && data[i + 3] as nat == bytes[3];
    }
  }

  lemma BytesOfWord(b0: nat, b1: nat, b2: nat, b3: nat, w: nat)
    requires b0 < 256 && b1 < 256 && b2 < 256 && w == b0 + 256 * b1 + 65536 * (b2 + 256 * b3)
    ensures b0 == w % 256 && b1 == w / 256 % 256 && b2 == w / 65536 % 256 && b3 == w / 0x100_0000
  {
    assert w / 256 == b1 + 256 * (b2 + 256 * b3);
    assert w / 65536 == b2 + 256 * b3;
  }

  lemma WordOfBytes(w: nat)
    ensures w == w % 256 + 256 * (w / 256 % 256) + 65536 * (w / 65536 % 256 + 256 * (w / 0x100_0000))
  {
    var a, b := w / 256, w / 65536;
    assert b == a / 256 && w / 0x100_0000 == b / 256;
  }

  lemma WordRead(data: Bytes, i: nat, w: nat)
    requires i + 4 <= |data|
    ensures HasWord(data, i, w) <==> WordAt(data, i) == w
  {
    var bytes := [w % 256, w / 256 % 256, w / 65536 % 256, w / 0x100_0000];
    if WordAt(data, i) == w {
      BytesOfWord(data[i] as nat, data[i + 1] as nat, data[i + 2] as nat, data[i + 3] as nat, w);
    }
    if HasWord(data, i, w) {
      WordOfBytes(w);
      assert data[i + 0] as nat == bytes[0] && data[i + 1] as nat == bytes[1];
      assert data[i + 2] as nat == bytes[2] && data[i + 3] as nat == bytes[3];
    }
  }

  // ----- Thumb-2 calls -----

  lemma StoredBack(i: nat, s: nat)
    requires i < 2 && s < 2
    ensures Unstored(Stored(i, s), s) == i && Stored(Unstored(i, s), s) == i
  {
    if i == s {
      assert Stored(i, s) == 1 && Unstored(i, s) == 1;
    } else {
      assert Stored(i, s) == 0 && Unstored(i, s) == 0;
    }
  }

  lemma FirstHalf(h1: nat, s: nat, imm10: nat)
    requires s < 2 && imm10 < 1024
    ensures h1 == 0xF000 + s * 1024 + imm10 <==> h1 / 2048 == 30 && SignBit(h1) == s && h1 % 1024 == imm10
  {
  }

  lemma SecondHalf(h2: nat, b: nat, j1: nat, j2: nat, imm11: nat)
    requires b < 2 && j1 < 2 && j2 < 2 && imm11 < 2048
    ensures h2 == 0xC000 + b * 4096 + j1 * 8192 + j2 * 2048 + imm11 <==>
            && h2 / 16384 == 3 && h2 / 4096 % 2 == b
            && h2 / 8192 % 2 == j1 && h2 / 2048 % 2 == j2 && h2 % 2048 == imm11
  {
  }

  /** The halfwords hold these fields, read back. */
  predicate HaveFields(h1: nat, h2: nat, b: nat, s: nat, i1: nat, i2: nat, imm10: nat, imm11: nat) {
    && h1 / 2048 == 30 && SignBit(h1) == s && h1 % 1024 == imm10
    && h2 / 16384 == 3 && h2 / 4096 % 2 == b && h2 % 2048 == imm11
    && Unstored(h2 / 8192 % 2, SignBit(h1)) == i1 && Unstored(h2 / 2048 % 2, SignBit(h1)) == i2
  }

  lemma FieldsIff(h1: nat, h2: nat, b: nat, s: nat, i1: nat, i2: nat, imm10: nat, imm11: nat)
    requires b < 2 && s < 2 && i1 < 2 && i2 < 2 && imm10 < 1024 && imm11 < 2048
    ensures (h1, h2) == EncodeFields(0xC000 + b * 4096, s, i1, i2, imm10, imm11) <==>
            HaveFields(h1, h2, b, s, i1, i2, imm10, imm11)
  {
    FirstHalf(h1, s, imm10);
    SecondHalf(h2, b, Stored(i1, s), Stored(i2, s), imm11);
    StoredBack(i1, s);
    StoredBack(i2, s);
    StoredBack(h2 / 8192 % 2, s);
    StoredBack(h2 / 2048 % 2, s);
  }

  lemma FieldsOf(u: nat, s: nat)
    requires u < 0x100_0000 && u % 2 == 0
    ensures u / 0x80_0000 < 2
    ensures Place(s, u / 0x80_0000, u / 0x40_0000 % 2, u / 4096 % 1024, u / 2 % 2048) == u - s * 0x100_0000
  {
    var a, b, c := u / 2, u / 4096, u / 0x40_0000;
    assert b == a / 2048 && c == b / 1024 && u / 0x80_0000 == c / 2;
  }

  lemma FieldsBack(u: nat, i1: nat, i2: nat, imm10: nat, imm11: nat)
    requires i1 < 2 && i2 < 2 && imm10 < 1024 && imm11 < 2048
    requires u == i1 * 0x80_0000 + i2 * 0x40_0000 + imm10 * 4096 + imm11 * 2
    ensures u < 0x100_0000 && u % 2 == 0
    ensures u / 0x80_0000 == i1 && u / 0x40_0000 % 2 == i2 && u / 4096 % 1024 == imm10 && u / 2 % 2048 == imm11
  {
    assert u / 2 == i1 * 0x40_0000 + i2 * 0x20_0000 + imm10 * 2048 + imm11;
    assert u / 4096 == i1 * 2048 + i2 * 1024 + imm10;
    assert u / 0x40_0000 == i1 * 2 + i2;
  }

  /** The halfwords are the code of a call with this offset if and only if they read as
      one, and the offset read back is the one encoded. */
  lemma CallIff(h1: nat, h2: nat, b: nat, offset: int)
    requires b < 2
    ensures IsCallOffset(offset) && (h1, h2) == EncodeCall(0xC000 + b * 4096, offset) <==>
            h1 / 2048 == 30 && h2 / 16384 == 3 && h2 / 4096 % 2 == b && DecodeOffset(h1, h2) == offset
  {
    if IsCallOffset(offset) {
      var s := if offset < 0 then 1 else 0;
      var u := offset + s * 0x100_0000;
      FieldsOf(u, s);
      FieldsIff(h1, h2, b, s, u / 0x80_0000, u / 0x40_0000 % 2, u / 4096 % 1024, u / 2 % 2048);
    }
    if h1 / 2048 == 30 && h2 / 16384 == 3 && h2 / 4096 % 2 == b && DecodeOffset(h1, h2) == offset {
      ReadsAsCall(h1, h2, b);
    }
  }

  lemma EncodeAs(op: nat, offset: int, s: nat, u: nat)
    requires s < 2 && u < 0x100_0000 && u % 2 == 0 && offset == u - s * 0x100_0000
    ensures IsCallOffset(offset)
    ensures EncodeCall(op, offset) ==
            EncodeFields(op, s, u / 0x80_0000, u / 0x40_0000 % 2, u / 4096 % 1024, u / 2 % 2048)
  {
    assert offset < 0 <==> s == 1;
  }

  lemma EncodeOfPlace(op: nat, s: nat, i1: nat, i2: nat, imm10: nat, imm11: nat)
    requires s < 2 && i1 < 2 && i2 < 2 && imm10 < 1024 && imm11 < 2048
    ensures IsCallOffset(Place(s, i1, i2, imm10, imm11))
    ensures EncodeCall(op, Place(s, i1, i2, imm10, imm11)) == EncodeFields(op, s, i1, i2, imm10, imm11)
  {
    var u: nat := i1 * 0x80_0000 + i2 * 0x40_0000 + imm10 * 4096 + imm11 * 2;
    FieldsBack(u, i1, i2, imm10, imm11);
    EncodeAs(op, Place(s, i1, i2, imm10, imm11), s, u);
  }

  lemma ReadsAsCall(h1: nat, h2: nat, b: nat)
    requires b < 2 && h1 / 2048 == 30 && h2 / 16384 == 3 && h2 / 4096 % 2 == b
    ensures IsCallOffset(DecodeOffset(h1, h2)) && (h1, h2) == EncodeCall(0xC000 + b * 4096, DecodeOffset(h1, h2))
  {
    var s := SignBit(h1);
    var i1, i2 := Unstored(h2 / 8192 % 2, s), Unstored(h2 / 2048 % 2, s);
    EncodeOfPlace(0xC000 + b * 4096, s, i1, i2, h1 % 1024, h2 % 2048);
    FieldsIff(h1, h2, b, s, i1, i2, h1 % 1024, h2 % 2048);
  }

  lemma TargetIs(pc: nat, offset: int)
    ensures var to := Plus(pc, 4 + offset);
      TargetOf(pc, offset, false) == to - to % 2 + 1 && TargetOf(pc, offset, true) == to - to % 4
  {
    assert pc + 4 + offset == pc + (4 + offset);
    ThumbBit((pc + 4 + offset) % TWO64);
  }

  lemma ThumbBit(raw: nat)
    ensures (if raw % 2 == 0 then raw + 1 else raw) == raw - raw % 2 + 1
  {
  }

  lemma CodeIsRead(h1: nat, h2: nat, pc: nat, offset: int)
    requires IsCallOffset(offset)
    ensures (h1, h2) == EncodeBl(offset) ==> CallOf(h1, h2, pc) == Some(TargetOf(pc, offset, false))
    ensures (h1, h2) == EncodeBlx(offset) ==> CallOf(h1, h2, pc) == Some(TargetOf(pc, offset, true))
  {
    CallIff(h1, h2, 1, offset);
    CallIff(h1, h2, 0, offset);
  }

  lemma ReadIsCode(h1: nat, h2: nat, pc: nat) returns (offset: int, isBlx: bool)
    requires CallOf(h1, h2, pc).Some?
    ensures IsCallOffset(offset) && (h1, h2) == if isBlx then EncodeBlx(offset) else EncodeBl(offset)
    ensures CallOf(h1, h2, pc) == Some(TargetOf(pc, offset, isBlx))
  {
    offset, isBlx := DecodeOffset(h1, h2), !IsBl(h1, h2);
    CallIff(h1, h2, if isBlx then 0 else 1, offset);
  }

  lemma CallOfIff(h: (nat, nat), pc: nat, t: nat)
    ensures CallOf(h.0, h.1, pc) == Some(t) <==> IsCodeOf(h, pc, t)
  {
    if CallOf(h.0, h.1, pc) == Some(t) {
      var offset, isBlx := ReadIsCode(h.0, h.1, pc);
      TargetIs(pc, offset);
    }
    if offset :| IsCallOffset(offset) && var to := Plus(pc, 4 + offset);
      (h == EncodeBl(offset) && t == to - to % 2 + 1) || (h == EncodeBlx(offset) && t == to - to % 4)
    {
      CodeIsRead(h.0, h.1, pc, offset);
      TargetIs(pc, offset);
    }
  }

  /** The reading of the scans is exact: `t` is read at `i` if and only if the bytes there
      are the code of a Thumb-2 call of `t`. */
  lemma ThumbCallIff(data: Bytes, base: nat, i: nat, t: nat)
    requires i + 4 <= |data|
    ensures ThumbCall(data, base, i) == Some(t) <==> ThumbCalls(data, base, i, t)
  {
    assert Inspected(i);
    var h := (HalfAt(data, i), HalfAt(data, i + 2));
    CallOfIff(h, base + i, t);
    HalvesRead(data, i, h);
    if c :| HalvesAt(data, i, c) && IsCodeOf(c, base + i, t) {
      HalvesRead(data, i, c);
    }
  }

  /** A valid BLX, whose offset is a multiple of four, goes to Align(PC, 4) plus it. */
  lemma BlxTarget(pc: nat, offset: int)
    requires offset % 4 == 0
    ensures var to := Plus(pc, 4 + offset);
      to - to % 4 == (pc + 4 - (pc + 4) % 4 + offset) % TWO64
  {
    var k := (pc + 4) / 4 + offset / 4;
    assert pc + 4 + offset == 4 * k + (pc + 4) % 4 && pc + 4 - (pc + 4) % 4 + offset == 4 * k;
    AlignedWrap(k, (pc + 4) % 4);
  }

  lemma AlignedWrap(k: int, r: nat)
    requires r < 4
    ensures var raw := (4 * k + r) % TWO64; raw - raw % 4 == (4 * k) % TWO64
  {
    var word := (4 * k) % TWO64;
    ModTwo64(4 * k, 2);
    assert Pow2(2) == 4;
    assert word % 4 == 0;
    DivModUnique(4 * k + r, (4 * k) / TWO64, word + r, TWO64);
    DivModUnique(word + r, word / 4, r, 4);
  }

  // ----- ARM-mode calls -----

  lemma ArmFields(word: nat, cond: nat, imm24: nat)
    requires imm24 < 0x100_0000 && cond < 16
    ensures word == cond * 0x1000_0000 + 11 * 0x100_0000 + imm24 <==>
            word / 0x1000_0000 == cond && word / 0x100_0000 % 16 == 11 && word % 0x100_0000 == imm24
  {
  }

  lemma ArmIff(word: nat, cond: nat, offset: int)
    requires cond < 16
    ensures IsArmOffset(offset) && word == EncodeArmBl(cond, offset) <==>
            && word / 0x1000_0000 == cond && word / 0x100_0000 % 16 == 11
            && offset == 4 * (if word % 0x100_0000 >= 0x80_0000 then word % 0x100_0000 - 0x100_0000
                              else word % 0x100_0000)
  {
    var words := offset / 4;
    var imm24 := if words < 0 then words + 0x100_0000 else words;
    if 0 <= imm24 < 0x100_0000 {
      ArmFields(word, cond, imm24);
    }
  }

  lemma ArmReadIsThere(data: Bytes, base: nat, i: nat)
    requires i + 4 <= |data| && ArmCall(data, base, i).Some?
    ensures HasArmCall(data, base, i, ArmCall(data, base, i).value)
  {
    var word := WordAt(data, i);
    var imm24: int := word % 0x100_0000;
    var offset := 4 * (if imm24 >= 0x80_0000 then imm24 - 0x100_0000 else imm24);
    ArmIff(word, word / 0x1000_0000, offset);
    WordRead(data, i, word);
    assert base + i + 8 + offset == base + i + (8 + offset);
    assert HasArmBl(data, i, word / 0x1000_0000, offset);
  }

  lemma ArmBlIsRead(data: Bytes, base: nat, i: nat, cond: nat, offset: int)
    requires i + 4 <= |data| && HasArmBl(data, i, cond, offset)
    ensures ArmCall(data, base, i) == Some(Plus(base + i, 8 + offset))
  {
    assert base + i + 8 + offset == base + i + (8 + offset);
    WordRead(data, i, EncodeArmBl(cond, offset));
    ArmIff(WordAt(data, i), cond, offset);
  }

  /** An ARM-mode call is read if and only if the bytes are the code of one. */
  lemma ArmCallIff(data: Bytes, base: nat, i: nat, t: nat)
    requires i + 4 <= |data|
    ensures ArmCall(data, base, i) == Some(t) <==> ArmCalls(data, base, i, t)
  {
    assert Inspected(i);
    if ArmCall(data, base, i).Some? {
      ArmReadIsThere(data, base, i);
    }
    if c, o :| HasArmBl(data, i, c, o) && t == Plus(base + i, 8 + o) {
      ArmBlIsRead(data, base, i, c, o);
    }
  }
}
