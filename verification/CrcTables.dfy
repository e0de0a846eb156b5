/** The look-up tables of the CRC routines, and the proof that each one holds a power of the zero-byte map. */
module CrcTables {
  import opened Crc32c

  /** A 256-entry table given by its entries at the powers of two; the others are exclusive ors of these. */
  datatype Table = Table(e1: Word, e2: Word, e4: Word, e8: Word, e16: Word, e32: Word, e64: Word, e128: Word)

  const ISCSI_BASE := Table(0xF26B_8303, 0xE13B_70F7, 0xC79A_971F, 0x8AD9_58CF,
    0x105E_C76F, 0x20BD_8EDE, 0x417B_1DBC, 0x82F6_3B78)
  const TABLEIL8_O32 := Table(0xF26B_8303, 0xE13B_70F7, 0xC79A_971F, 0x8AD9_58CF,
    0x105E_C76F, 0x20BD_8EDE, 0x417B_1DBC, 0x82F6_3B78)
  const TABLEIL8_O40 := Table(0x13A2_9877, 0x2745_30EE, 0x4E8A_61DC, 0x9D14_C3B8,
    0x3FC5_F181, 0x7F8B_E302, 0xFF17_C604, 0xFBC3_FAF9)
  const TABLEIL8_O48 := Table(0xA541_927E, 0x4F6F_520D, 0x9EDE_A41A, 0x3851_3EC5,
    0x70A2_7D8A, 0xE144_FB14, 0xC765_80D9, 0x8B27_7743)
  const TABLEIL8_O56 := Table(0xDD45_AAB8, 0xBF67_2381, 0x7B22_31F3, 0xF644_63E6,
    0xE964_B13D, 0xD725_148B, 0xABA6_5FE7, 0x52A0_C93F)
  const TABLEIL8_O64 := Table(0x3811_6FAC, 0x7022_DF58, 0xE045_BEB0, 0xC567_0B91,
    0x8F22_61D3, 0x1BA8_B557, 0x3751_6AAE, 0x6EA2_D55C)
  const TABLEIL8_O72 := Table(0xEF30_6B19, 0xDB8C_A0C3, 0xB2F5_3777, 0x6006_181F,
    0xC00C_303E, 0x85F4_168D, 0x0E04_5BEB, 0x1C08_B7D6)
  const TABLEIL8_O80 := Table(0x6803_2CC8, 0xD006_5990, 0xA5E0_C5D1, 0x4E2D_FD53,
    0x9C5B_FAA6, 0x3D5B_83BD, 0x7AB7_077A, 0xF56E_0EF4)
  const TABLEIL8_O88 := Table(0x493C_7D27, 0x9278_FA4E, 0x211D_826D, 0x423B_04DA,
    0x8476_09B4, 0x0D00_6599, 0x1A00_CB32, 0x3401_9664)
  const MUL_TABLE_72 := Table(0x39D3_B296, 0x73A7_652C, 0xE74E_CA58, 0xCB71_E241,
    0x930F_B273, 0x23F3_1217, 0x47E6_242E, 0x8FCC_485C)
  const MUL_TABLE_152 := Table(0x878A_92A7, 0x0AF9_53BF, 0x15F2_A77E, 0x2BE5_4EFC,
    0x57CA_9DF8, 0xAF95_3BF0, 0x5AC6_0111, 0xB58C_0222)
  const MUL_TABLE_312 := Table(0xBAC2_FD7B, 0x7069_8C07, 0xE0D3_180E, 0xC44A_46ED,
    0x8D78_FB2B, 0x1F1D_80A7, 0x3E3B_014E, 0x7C76_029C)
  const MUL_TABLE_632 := Table(0x6B74_9FB2, 0xD6E9_3F64, 0xA83E_0839, 0x5590_6683,
    0xAB20_CD06, 0x53AD_ECFD, 0xA75B_D9FA, 0x4B5B_C505)
  const MUL_TABLE_1272 := Table(0xDD66_CBBB, 0xBF21_E187, 0x7BAF_B5FF, 0xF75F_6BFE,
    0xEB52_A10D, 0xD349_34EB, 0xA37E_1F27, 0x4310_48BF)

  function Pick(i: Word, mask: Word, entry: Word): Word {
    if i & mask == mask then entry else 0
  }

  /** The table entry at index i. */
  function At(t: Table, i: Word): Word
    requires i < 256
  {
    Xor(Xor(Xor(Pick(i, 1, t.e1), Pick(i, 2, t.e2)), Xor(Pick(i, 4, t.e4), Pick(i, 8, t.e8))),
        Xor(Xor(Pick(i, 16, t.e16), Pick(i, 32, t.e32)), Xor(Pick(i, 64, t.e64), Pick(i, 128, t.e128))))
  }

  lemma {:induction false} PickPow(n: nat, i: Word, mask: Word, e: Word)
    ensures ZPow(n, Pick(i, mask, e)) == Pick(i, mask, ZPow(n, e))
  {
    ZPowZero(n);
  }

  function MapPow(n: nat, t: Table): Table {
    Table(ZPow(n, t.e1), ZPow(n, t.e2), ZPow(n, t.e4), ZPow(n, t.e8),
          ZPow(n, t.e16), ZPow(n, t.e32), ZPow(n, t.e64), ZPow(n, t.e128))
  }

  lemma ZPowXor4(n: nat, a: Word, b: Word, c: Word, d: Word)
    ensures ZPow(n, Xor(Xor(a, b), Xor(c, d))) == Xor(Xor(ZPow(n, a), ZPow(n, b)), Xor(ZPow(n, c), ZPow(n, d)))
  {
    ZPowXor(n, Xor(a, b), Xor(c, d));
    ZPowXor(n, a, b);
    ZPowXor(n, c, d);
  }

  /** A power of Z commutes with table look-up. */
  lemma AtPow(n: nat, t: Table, i: Word)
    requires i < 256
    ensures ZPow(n, At(t, i)) == At(MapPow(n, t), i)
  {
    var a, b, c, d := Pick(i, 1, t.e1), Pick(i, 2, t.e2), Pick(i, 4, t.e4), Pick(i, 8, t.e8);
    var e, f, g, h := Pick(i, 16, t.e16), Pick(i, 32, t.e32), Pick(i, 64, t.e64), Pick(i, 128, t.e128);
    ZPowXor(n, Xor(Xor(a, b), Xor(c, d)), Xor(Xor(e, f), Xor(g, h)));
    ZPowXor4(n, a, b, c, d);
    ZPowXor4(n, e, f, g, h);
    PickPow(n, i, 1, t.e1);
    PickPow(n, i, 2, t.e2);
    PickPow(n, i, 4, t.e4);
    PickPow(n, i, 8, t.e8);
    PickPow(n, i, 16, t.e16);
    PickPow(n, i, 32, t.e32);
    PickPow(n, i, 64, t.e64);
    PickPow(n, i, 128, t.e128);
  }

  const IDENTITY := Table(1, 2, 4, 8, 16, 32, 64, 128)

  lemma PickIsMask(i: Word, mask: Word)
    requires mask in {1, 2, 4, 8, 16, 32, 64, 128}
    ensures Pick(i, mask, mask) == i & mask
  {
    assert i & 1 == 1 || i & 1 == 0;
    assert i & 2 == 2 || i & 2 == 0;
    assert i & 4 == 4 || i & 4 == 0;
    assert i & 8 == 8 || i & 8 == 0;
    assert i & 16 == 16 || i & 16 == 0;
    assert i & 32 == 32 || i & 32 == 0;
    assert i & 64 == 64 || i & 64 == 0;
    assert i & 128 == 128 || i & 128 == 0;
  }

  lemma LowNibble(i: Word)
    ensures Xor(Xor(Pick(i, 1, 1), Pick(i, 2, 2)), Xor(Pick(i, 4, 4), Pick(i, 8, 8))) == i & 0x0F
  {
    PickIsMask(i, 1);
    PickIsMask(i, 2);
    PickIsMask(i, 4);
    PickIsMask(i, 8);
    NibbleBits(i);
  }

  lemma HighNibble(i: Word)
    ensures Xor(Xor(Pick(i, 16, 16), Pick(i, 32, 32)), Xor(Pick(i, 64, 64), Pick(i, 128, 128))) == i & 0xF0
  {
    PickIsMask(i, 16);
    PickIsMask(i, 32);
    PickIsMask(i, 64);
    PickIsMask(i, 128);
    NibbleBits(i);
  }

  lemma NibbleBits(i: Word)
    ensures ((i & 1) ^ (i & 2)) ^ ((i & 4) ^ (i & 8)) == i & 0x0F
    ensures ((i & 16) ^ (i & 32)) ^ ((i & 64) ^ (i & 128)) == i & 0xF0
    ensures i < 256 ==> (i & 0x0F) ^ (i & 0xF0) == i
  {
  }

  lemma IdentityAt(i: Word)
    requires i < 256
    ensures At(IDENTITY, i) == i
  {
    LowNibble(i);
    HighNibble(i);
    NibbleBits(i);
  }

  ghost predicate HoldsPower(t: Table, n: nat) {
    t == MapPow(n, IDENTITY)
  }

  /** A table whose power-of-two entries are values of Z^n holds Z^n at every index. */
  lemma TableLookup(t: Table, n: nat, i: Word)
    requires HoldsPower(t, n)
    requires i < 256
    ensures At(t, i) == ZPow(n, i)
  {
    IdentityAt(i);
    AtPow(n, IDENTITY, i);
  }

  // ---- each entry is one clock of the next: the top entry determines the table ----

  lemma ZShiftCommute(x: Word)
    ensures Z(Shift(x)) == Shift(Z(x))
  {
  }

  lemma {:induction false} ZPowShift(n: nat, x: Word)
    ensures ZPow(n, Shift(x)) == Shift(ZPow(n, x))
  {
    if n != 0 {
      ZShiftCommute(x);
      ZPowShift(n - 1, Z(x));
    }
  }

  ghost predicate ShiftsDown(t: Table) {
    && t.e64 == Shift(t.e128) && t.e32 == Shift(t.e64) && t.e16 == Shift(t.e32) && t.e8 == Shift(t.e16)
    && t.e4 == Shift(t.e8) && t.e2 == Shift(t.e4) && t.e1 == Shift(t.e2)
  }

  lemma MapShiftsDown(n: nat, t: Table)
    requires ShiftsDown(t)
    ensures ShiftsDown(MapPow(n, t))
  {
    ZPowShift(n, t.e128);
    ZPowShift(n, t.e64);
    ZPowShift(n, t.e32);
    ZPowShift(n, t.e16);
    ZPowShift(n, t.e8);
    ZPowShift(n, t.e4);
    ZPowShift(n, t.e2);
  }

  lemma FromTop(t: Table, n: nat)
    requires ShiftsDown(t)
    requires t.e128 == ZPow(n, 128)
    ensures HoldsPower(t, n)
  {
    assert ShiftsDown(IDENTITY);
    MapShiftsDown(n, IDENTITY);
  }

  // ---- one step of the byte loop: a shift and a look-up ----

  lemma ShiftMovesDown(x: Word)
    requires x & 1 == 0
    ensures Shift(x) == x >> 1
  {
    Unchanged(x >> 1);
    ShiftWithout(x, x & 1, x >> 1);
  }

  lemma ShiftWithout(x: Word, low: Word, h: Word)
    requires low == x & 1 && low == 0 && h == x >> 1 && h ^ 0 == h
    ensures Shift(x) == h
  {
  }

  lemma Unchanged(h: Word)
    ensures h ^ 0 == h
  {
  }

  lemma LowBitsClear(x: Word)
    ensures x & 3 == 0 ==> x & 1 == 0 && (x >> 1) & 1 == 0 && (x >> 1) >> 1 == x >> 2
    ensures x & 0xF == 0 ==> x & 3 == 0 && (x >> 2) & 3 == 0 && (x >> 2) >> 2 == x >> 4
    ensures x & 0xFF == 0 ==> x & 0xF == 0 && (x >> 4) & 0xF == 0 && (x >> 4) >> 4 == x >> 8
  {
  }

  lemma Shift2MovesDown(x: Word)
    requires x & 3 == 0
    ensures Shift2(x) == x >> 2
  {
    LowBitsClear(x);
    ShiftMovesDown(x);
    ShiftMovesDown(x >> 1);
  }

  lemma Shift4MovesDown(x: Word)
    requires x & 0xF == 0
    ensures Shift4(x) == x >> 4
  {
    LowBitsClear(x);
    Shift2MovesDown(x);
    Shift2MovesDown(x >> 2);
  }

  /** A register whose low byte is clear just moves down by one byte. */
  lemma ZMovesDown(x: Word)
    requires x & 0xFF == 0
    ensures Z(x) == x >> 8
  {
    LowBitsClear(x);
    Shift4MovesDown(x);
    Shift4MovesDown(x >> 4);
  }

  lemma SplitLowByte(x: Word)
    ensures (x & 0xFF) ^ (x & 0xFFFF_FF00) == x
    ensures (x & 0xFFFF_FF00) & 0xFF == 0
    ensures (x & 0xFFFF_FF00) >> 8 == x >> 8
    ensures x & 0xFF < 256
  {
  }

  lemma TopOfByteTable()
    ensures ZPow(1, 128) == 0x82F6_3B78
  {
    ZPowOne(128);
    assert Shift2(128) == 32;
    assert Shift2(32) == 8;
    assert Shift2(8) == 2;
    assert Shift2(2) == 0x82F6_3B78;
  }

  /** The byte table of the baseline holds Z. */
  lemma ByteTableHolds()
    ensures HoldsPower(ISCSI_BASE, 1)
  {
    TopOfByteTable();
    FromTop(ISCSI_BASE, 1);
  }

  lemma ZPowOne(x: Word)
    ensures ZPow(1, x) == Z(x)
  {
    assert ZPow(0, Z(x)) == Z(x);
  }

  lemma ZPowNext(n: nat, x: Word)
    ensures ZPow(n + 1, x) == Z(ZPow(n, x))
  {
    ZPowAdd(n, 1, x);
    ZPowOne(ZPow(n, x));
  }

  /** One shift and one look-up in the byte table. */
  function TableStep(x: Word): Word {
    SplitLowByte(x);
    Xor(x >> 8, At(ISCSI_BASE, x & 0xFF))
  }

  /** The register advances a whole byte by one shift and one look-up in the byte table. */
  lemma ByteStep(x: Word)
    ensures Z(x) == TableStep(x)
  {
    SplitLowByte(x);
    SplitStep(x & 0xFF, x & 0xFFFF_FF00);
  }

  lemma SplitStep(lo: Word, hi: Word)
    requires lo < 256 && hi & 0xFF == 0
    ensures Z(Xor(lo, hi)) == Xor(hi >> 8, At(ISCSI_BASE, lo))
  {
    ZXor(lo, hi);
    ZMovesDown(hi);
    ByteTableHolds();
    TableLookup(ISCSI_BASE, 1, lo);
    ZPowOne(lo);
    XorCommutes(Z(lo), hi >> 8);
  }

  // ---- products of register values, four look-ups each ----

  const ONES := Table(0x0100_0000, 0x0200_0000, 0x0400_0000, 0x0800_0000,
    0x1000_0000, 0x2000_0000, 0x4000_0000, 0x8000_0000)

  function Lookups(a0: Word, a1: Word, a2: Word, a3: Word, t: Table): Word
    requires a0 < 256 && a1 < 256 && a2 < 256 && a3 < 256
  {
    Xor(TableStep(Xor(TableStep(Xor(TableStep(At(t, a0)), At(t, a1))), At(t, a2))), At(t, a3))
  }

  lemma ByteIndices(x: Word)
    ensures x & 0xFF < 256 && (x >> 8) & 0xFF < 256 && (x >> 16) & 0xFF < 256 && (x >> 24) & 0xFF < 256
  {
  }

  /** Horner's rule in base x^8: the product of a with the ring element whose table is t. */
  function Product(a: Word, t: Table): Word {
    ByteIndices(a);
    Lookups(a & 0xFF, (a >> 8) & 0xFF, (a >> 16) & 0xFF, (a >> 24) & 0xFF, t)
  }

  lemma ZPowTableStep(n: nat, x: Word, y: Word)
    ensures ZPow(n, Xor(TableStep(x), y)) == Xor(TableStep(ZPow(n, x)), ZPow(n, y))
  {
    ByteStep(x);
    ByteStep(ZPow(n, x));
    ZPowNext(n, x);
    ZPowXor(n, Z(x), y);
  }

  lemma ProductPow(n: nat, a: Word, t: Table)
    ensures ZPow(n, Product(a, t)) == Product(a, MapPow(n, t))
  {
    ByteIndices(a);
    var a0, a1, a2, a3 := a & 0xFF, (a >> 8) & 0xFF, (a >> 16) & 0xFF, (a >> 24) & 0xFF;
    AtPow(n, t, a0);
    AtPow(n, t, a1);
    AtPow(n, t, a2);
    AtPow(n, t, a3);
    var s1 := At(t, a0);
    ZPowTableStep(n, s1, At(t, a1));
    var s2 := Xor(TableStep(s1), At(t, a1));
    ZPowTableStep(n, s2, At(t, a2));
    var s3 := Xor(TableStep(s2), At(t, a2));
    ZPowTableStep(n, s3, At(t, a3));
  }

  lemma PickShifted(i: Word, mask: Word, e: Word)
    requires e == mask << 24
    ensures Pick(i, mask, e) == Pick(i, mask, mask) << 24
  {
  }

  lemma ShiftXor2(a: Word, b: Word)
    ensures Xor(a << 24, b << 24) == Xor(a, b) << 24
  {
  }

  lemma ShiftXor4(a: Word, b: Word, c: Word, d: Word)
    ensures Xor(Xor(a << 24, b << 24), Xor(c << 24, d << 24)) == Xor(Xor(a, b), Xor(c, d)) << 24
  {
    ShiftXor2(a, b);
    ShiftXor2(c, d);
    ShiftXor2(Xor(a, b), Xor(c, d));
  }

  lemma OnesLow(i: Word)
    ensures Xor(Xor(Pick(i, 1, ONES.e1), Pick(i, 2, ONES.e2)), Xor(Pick(i, 4, ONES.e4), Pick(i, 8, ONES.e8)))
            == (i & 0x0F) << 24
  {
    PickShifted(i, 1, ONES.e1);
    PickShifted(i, 2, ONES.e2);
    PickShifted(i, 4, ONES.e4);
    PickShifted(i, 8, ONES.e8);
    ShiftXor4(Pick(i, 1, 1), Pick(i, 2, 2), Pick(i, 4, 4), Pick(i, 8, 8));
    LowNibble(i);
  }

  lemma OnesHigh(i: Word)
    ensures Xor(Xor(Pick(i, 16, ONES.e16), Pick(i, 32, ONES.e32)), Xor(Pick(i, 64, ONES.e64), Pick(i, 128, ONES.e128)))
            == (i & 0xF0) << 24
  {
    PickShifted(i, 16, ONES.e16);
    PickShifted(i, 32, ONES.e32);
    PickShifted(i, 64, ONES.e64);
    PickShifted(i, 128, ONES.e128);
    ShiftXor4(Pick(i, 16, 16), Pick(i, 32, 32), Pick(i, 64, 64), Pick(i, 128, 128));
    HighNibble(i);
  }

  lemma OnesAt(i: Word)
    requires i < 256
    ensures At(ONES, i) == i << 24
  {
    OnesLow(i);
    OnesHigh(i);
    ShiftXor2(i & 0x0F, i & 0xF0);
    NibbleBits(i);
  }

  lemma RotateBytes(a: Word)
    ensures var s1 := (a & 0xFF) << 24;
            var s2 := (s1 >> 8) ^ (((a >> 8) & 0xFF) << 24);
            var s3 := (s2 >> 8) ^ (((a >> 16) & 0xFF) << 24);
            s1 & 0xFF == 0 && s2 & 0xFF == 0 && s3 & 0xFF == 0 && (s3 >> 8) ^ (((a >> 24) & 0xFF) << 24) == a
  {
  }

  lemma TableStepMovesDown(x: Word)
    requires x & 0xFF == 0
    ensures TableStep(x) == x >> 8
  {
    ByteStep(x);
    ZMovesDown(x);
  }

  lemma ProductOne(a: Word)
    ensures Product(a, ONES) == a
  {
    ByteIndices(a);
    RotateBytes(a);
    var a0, a1, a2, a3 := a & 0xFF, (a >> 8) & 0xFF, (a >> 16) & 0xFF, (a >> 24) & 0xFF;
    OnesAt(a0);
    OnesAt(a1);
    OnesAt(a2);
    OnesAt(a3);
    var s1 := a0 << 24;
    TableStepMovesDown(s1);
    var s2 := Xor(s1 >> 8, a1 << 24);
    TableStepMovesDown(s2);
    TableStepMovesDown(Xor(s2 >> 8, a2 << 24));
  }

  lemma OneTo128()
    ensures ZPow(3, 0x8000_0000) == 128
  {
    ZMovesDown(0x8000_0000);
    ZMovesDown(0x0080_0000);
    ZMovesDown(0x0000_8000);
    ZPowOne(0x0000_8000);
    assert ZPow(2, 0x0080_0000) == ZPow(1, 0x0000_8000);
    assert ZPow(3, 0x8000_0000) == ZPow(2, 0x0080_0000);
  }

  lemma OnesTable(k: nat, c: Word, t: Table)
    requires c == ZPow(k, 128)
    requires ShiftsDown(t) && t.e128 == ZPow(5, c)
    ensures t == MapPow(k + 8, ONES)
  {
    OneTo128();
    ZPowAdd(3, k, 0x8000_0000);
    ZPowAdd(k + 3, 5, 0x8000_0000);
    OnesShiftDown();
    MapShiftsDown(k + 8, ONES);
  }

  lemma OnesShiftDown()
    ensures ShiftsDown(ONES)
  {
  }

  /** Z^n is multiplication by the ring element whose table is t. */
  lemma PowerIsProduct(n: nat, c: Word, t: Table)
    requires t == MapPow(n, ONES)
    ensures ZPow(n, c) == Product(c, t)
  {
    ProductOne(c);
    ProductPow(n, c, ONES);
  }

  /** From the top of the table for k to the top of the table for 2k + 8. */
  lemma PowerTwice(k: nat, x: Word)
    ensures ZPow(2 * k + 8, x) == ZPow(k + 8, ZPow(k, x))
  {
    ZPowAdd(k, k + 8, x);
    assert k + (k + 8) == 2 * k + 8;
  }

  lemma ZPow5(c: Word)
    ensures ZPow(5, c) == TableStep(TableStep(TableStep(TableStep(TableStep(c)))))
  {
    NextPower(0, c);
    NextPower(1, c);
    NextPower(2, c);
    NextPower(3, c);
    NextPower(4, c);
  }

  lemma NextPower(n: nat, c: Word)
    ensures ZPow(n + 1, c) == TableStep(ZPow(n, c))
  {
    ZPowNext(n, c);
    ByteStep(ZPow(n, c));
  }

  lemma Tops2To4()
    ensures ZPow(2, 128) == 0xFBC3_FAF9
    ensures ZPow(3, 128) == 0x8B27_7743
    ensures ZPow(4, 128) == 0x52A0_C93F
  {
    TopOfByteTable();
    Steps2To4();
    NextPower(1, 128);
    NextPower(2, 128);
    NextPower(3, 128);
  }

  lemma Steps2To4()
    ensures TableStep(0x82F6_3B78) == 0xFBC3_FAF9
    ensures TableStep(0xFBC3_FAF9) == 0x8B27_7743
    ensures TableStep(0x8B27_7743) == 0x52A0_C93F
  {
  }

  lemma Tops5To8()
    ensures ZPow(5, 128) == 0x6EA2_D55C
    ensures ZPow(6, 128) == 0x1C08_B7D6
    ensures ZPow(7, 128) == 0xF56E_0EF4
    ensures ZPow(8, 128) == 0x3401_9664
  {
    Tops2To4();
    Steps5To8();
    NextPower(4, 128);
    NextPower(5, 128);
    NextPower(6, 128);
    NextPower(7, 128);
  }

  lemma Steps5To8()
    ensures TableStep(0x52A0_C93F) == 0x6EA2_D55C
    ensures TableStep(0x6EA2_D55C) == 0x1C08_B7D6
    ensures TableStep(0x1C08_B7D6) == 0xF56E_0EF4
    ensures TableStep(0xF56E_0EF4) == 0x3401_9664
  {
  }

  lemma Tops9To12()
    ensures ZPow(9, 128) == 0xA668_05EB
    ensures ZPow(10, 128) == 0x7A1F_6B24
    ensures ZPow(11, 128) == 0xE75D_06AA
    ensures ZPow(12, 128) == 0xC94E_C098
  {
    Tops5To8();
    Steps9To12();
    NextPower(8, 128);
    NextPower(9, 128);
    NextPower(10, 128);
    NextPower(11, 128);
  }

  lemma Steps9To12()
    ensures TableStep(0x3401_9664) == 0xA668_05EB
    ensures TableStep(0xA668_05EB) == 0x7A1F_6B24
    ensures TableStep(0x7A1F_6B24) == 0xE75D_06AA
    ensures TableStep(0xE75D_06AA) == 0xC94E_C098
  {
  }

  // The table of multiples of Z^20.
  const POWER_20 := Table(0x5FE4_DC5F, 0xBFC9_B8BE, 0x7A7F_078D, 0xF4FE_0F1A,
    0xEC10_68C5, 0xDDCC_A77B, 0xBE75_3807, 0x7906_06FF)

  lemma Power20()
    ensures POWER_20 == MapPow(20, ONES)
  {
    Tops9To12();
    ZPow5(0xC94E_C098);
    FiveSteps12();
    OnesTable(12, 0xC94E_C098, POWER_20);
  }

  lemma Top32()
    ensures ZPow(32, 128) == 0xBEA5_8B3E
  {
    Tops9To12();
    Power20();
    PowerIsProduct(20, 0xC94E_C098, POWER_20);
    Product12();
    PowerTwice(12, 128);
  }

  lemma FiveSteps12()
    ensures TableStep(TableStep(TableStep(TableStep(TableStep(0xC94E_C098))))) == 0x7906_06FF
  {
    assert TableStep(0xC94E_C098) == 0x18B8_EA18;
    assert TableStep(0x18B8_EA18) == 0x9A9F_274A;
    assert TableStep(0x9A9F_274A) == 0x2A03_AAA3;
    assert TableStep(0x2A03_AAA3) == 0xB131_45F8;
    assert TableStep(0xB131_45F8) == 0x7906_06FF;
  }

  lemma Product12()
    ensures Product(0xC94E_C098, POWER_20) == 0xBEA5_8B3E
  {
    assert At(POWER_20, 0x98) == 0x61E8_6120;
    assert TableStep(0x61E8_6120) == 0x20DC_66BF;
    assert At(POWER_20, 0xC0) == 0xC773_3EF8;
    assert TableStep(0xE7AF_5847) == 0x9556_D60F;
    assert At(POWER_20, 0x4E) == 0x8F3D_882E;
    assert TableStep(0x1A6B_5E21) == 0xD2CC_6683;
    assert At(POWER_20, 0xC9) == 0x6C69_EDBD;
  }

  // The table of multiples of Z^40.
  const POWER_40 := Table(0xFF65_71A2, 0xFB26_95B5, 0xF3A1_5D9B, 0xE2AE_CDC7,
    0xC0B1_ED7F, 0x848F_AC0F, 0x0CF3_2EEF, 0x19E6_5DDE)

  lemma Power40()
    ensures POWER_40 == MapPow(40, ONES)
  {
    Top32();
    ZPow5(0xBEA5_8B3E);
    FiveSteps32();
    OnesTable(32, 0xBEA5_8B3E, POWER_40);
  }

  lemma Top72()
    ensures ZPow(72, 128) == 0x8FCC_485C
  {
    Top32();
    Power40();
    PowerIsProduct(40, 0xBEA5_8B3E, POWER_40);
    Product32();
    PowerTwice(32, 128);
  }

  lemma FiveSteps32()
    ensures TableStep(TableStep(TableStep(TableStep(TableStep(0xBEA5_8B3E))))) == 0x19E6_5DDE
  {
    assert TableStep(0xBEA5_8B3E) == 0x9C25_531D;
    assert TableStep(0x9C25_531D) == 0xAFEA_AEEF;
    assert TableStep(0xAFEA_AEEF) == 0xBD8C_7E90;
    assert TableStep(0xBD8C_7E90) == 0x9215_7069;
    assert TableStep(0x9215_7069) == 0x19E6_5DDE;
  }

  lemma Product32()
    ensures Product(0xBEA5_8B3E, POWER_40) == 0x8FCC_485C
  {
    assert At(POWER_40, 0x3E) == 0xAE17_4499;
    assert TableStep(0xAE17_4499) == 0xEAB4_309F;
    assert At(POWER_40, 0x8B) == 0xFF0B_740E;
    assert TableStep(0x15BF_4491) == 0x60D6_C050;
    assert At(POWER_40, 0xA5) == 0x91AD_DDE8;
    assert TableStep(0xF17B_1DB8) == 0x383D_511B;
    assert At(POWER_40, 0xBE) == 0xB7F1_1947;
  }

  // The table of multiples of Z^80.
  const POWER_80 := Table(0xBA57_9940, 0x7143_4471, 0xE286_88E2, 0xC0E1_6735,
    0x842E_B89B, 0x0DB1_07C7, 0x1B62_0F8E, 0x36C4_1F1C)

  lemma Power80()
    ensures POWER_80 == MapPow(80, ONES)
  {
    Top72();
    ZPow5(0x8FCC_485C);
    FiveSteps72();
    OnesTable(72, 0x8FCC_485C, POWER_80);
  }

  lemma Top152()
    ensures ZPow(152, 128) == 0xB58C_0222
  {
    Top72();
    Power80();
    PowerIsProduct(80, 0x8FCC_485C, POWER_80);
    Product72();
    PowerTwice(72, 128);
  }

  lemma FiveSteps72()
    ensures TableStep(TableStep(TableStep(TableStep(TableStep(0x8FCC_485C))))) == 0x36C4_1F1C
  {
    assert TableStep(0x8FCC_485C) == 0x1CE9_D94B;
    assert TableStep(0x1CE9_D94B) == 0xD8EE_5F5E;
    assert TableStep(0xD8EE_5F5E) == 0xFD85_8BAB;
    assert TableStep(0xFD85_8BAB) == 0x3B3F_9B16;
    assert TableStep(0x3B3F_9B16) == 0x36C4_1F1C;
  }

  lemma Product72()
    ensures Product(0x8FCC_485C, POWER_80) == 0xB58C_0222
  {
    assert At(POWER_80, 0x5C) == 0xBD2B_58C2;
    assert TableStep(0xBD2B_58C2) == 0x220B_7D6B;
    assert At(POWER_80, 0x48) == 0xDB83_68BB;
    assert TableStep(0xF988_15D0) == 0xD32A_69BE;
    assert At(POWER_80, 0xCC) == 0x0FC1_FF45;
    assert TableStep(0xDCEB_96FB) == 0x6A3B_2FD8;
    assert At(POWER_80, 0x8F) == 0xDFB7_2DFA;
  }

  // The table of multiples of Z^160.
  const POWER_160 := Table(0xA468_1DFB, 0x4D3C_4D07, 0x9A78_9A0E, 0x311D_42ED,
    0x623A_85DA, 0xC475_0BB4, 0x8D06_6199, 0x1FE0_B5C3)

  lemma Power160()
    ensures POWER_160 == MapPow(160, ONES)
  {
    Top152();
    ZPow5(0xB58C_0222);
    FiveSteps152();
    OnesTable(152, 0xB58C_0222, POWER_160);
  }

  lemma Top312()
    ensures ZPow(312, 128) == 0x7C76_029C
  {
    Top152();
    Power160();
    PowerIsProduct(160, 0xB58C_0222, POWER_160);
    Product152();
    PowerTwice(152, 128);
  }

  lemma FiveSteps152()
    ensures TableStep(TableStep(TableStep(TableStep(TableStep(0xB58C_0222))))) == 0x1FE0_B5C3
  {
    assert TableStep(0xB58C_0222) == 0xC133_722B;
    assert TableStep(0xC133_722B) == 0xB9F5_1697;
    assert TableStep(0xB9F5_1697) == 0x46DB_6DEA;
    assert TableStep(0x46DB_6DEA) == 0x8894_5B4F;
    assert TableStep(0x8894_5B4F) == 0x1FE0_B5C3;
  }

  lemma Product152()
    ensures Product(0xB58C_0222, POWER_160) == 0x7C76_029C
  {
    assert At(POWER_160, 0x22) == 0x8949_46B3;
    assert TableStep(0x8949_46B3) == 0xA1CC_C87B;
    assert At(POWER_160, 0x02) == 0x4D3C_4D07;
    assert TableStep(0xECF0_857C) == 0x3C37_6B58;
    assert At(POWER_160, 0x8C) == 0xB485_6D20;
    assert TableStep(0x88B2_0678) == 0xFBC9_BEC4;
    assert At(POWER_160, 0xB5) == 0x87BF_BC58;
  }

  // The table of multiples of Z^320.
  const POWER_320 := Table(0xBB1A_7037, 0x73D8_969F, 0xE7B1_2D3E, 0xCA8E_2C8D,
    0x90F0_2FEB, 0x240C_2927, 0x4818_524E, 0x9030_A49C)

  lemma Power320()
    ensures POWER_320 == MapPow(320, ONES)
  {
    Top312();
    ZPow5(0x7C76_029C);
    FiveSteps312();
    OnesTable(312, 0x7C76_029C, POWER_320);
  }

  lemma Top632()
    ensures ZPow(632, 128) == 0x4B5B_C505
  {
    Top312();
    Power320();
    PowerIsProduct(320, 0x7C76_029C, POWER_320);
    Product312();
    PowerTwice(312, 128);
  }

  lemma FiveSteps312()
    ensures TableStep(TableStep(TableStep(TableStep(TableStep(0x7C76_029C))))) == 0x9030_A49C
  {
    assert TableStep(0x7C76_029C) == 0xDF97_45C5;
    assert TableStep(0xDF97_45C5) == 0xF6A3_A59D;
    assert TableStep(0xF6A3_A59D) == 0x2D76_1361;
    assert TableStep(0x2D76_1361) == 0x9380_6672;
    assert TableStep(0x9380_6672) == 0x9030_A49C;
  }

  lemma Product312()
    ensures Product(0x7C76_029C, POWER_320) == 0x4B5B_C505
  {
    assert At(POWER_320, 0x9C) == 0x2DFF_8AC4;
    assert TableStep(0x2DFF_8AC4) == 0x043A_4E51;
    assert At(POWER_320, 0x02) == 0x73D8_969F;
    assert TableStep(0x77E2_D8CE) == 0x6F82_7B3B;
    assert At(POWER_320, 0x76) == 0x688D_EF23;
    assert TableStep(0x070F_9418) == 0x9A80_9034;
    assert At(POWER_320, 0x7C) == 0xD1DB_5531;
  }

  // The table of multiples of Z^640.
  const POWER_640 := Table(0x3FB8_91D4, 0x7F71_23A8, 0xFEE2_4750, 0xF828_F851,
    0xF5BD_8653, 0xEE97_7A57, 0xD8C2_825F, 0xB469_724F)

  lemma Power640()
    ensures POWER_640 == MapPow(640, ONES)
  {
    Top632();
    ZPow5(0x4B5B_C505);
    FiveSteps632();
    OnesTable(632, 0x4B5B_C505, POWER_640);
  }

  lemma Top1272()
    ensures ZPow(1272, 128) == 0x4310_48BF
  {
    Top632();
    Power640();
    PowerIsProduct(640, 0x4B5B_C505, POWER_640);
    Product632();
    PowerTwice(632, 128);
  }

  lemma FiveSteps632()
    ensures TableStep(TableStep(TableStep(TableStep(TableStep(0x4B5B_C505))))) == 0xB469_724F
  {
    assert TableStep(0x4B5B_C505) == 0x35BA_4FD9;
    assert TableStep(0x35BA_4FD9) == 0xAB54_8028;
    assert TableStep(0xAB54_8028) == 0xAACF_8291;
    assert TableStep(0xAACF_8291) == 0x6069_B096;
    assert TableStep(0x6069_B096) == 0xB469_724F;
  }

  lemma Product632()
    ensures Product(0x4B5B_C505, POWER_640) == 0x4310_48BF
  {
    hide At, TableStep;
    Lookups632();
    Steps632();
  }

  lemma Lookups632()
    ensures At(POWER_640, 0x05) == 0xC15A_D684 && At(POWER_640, 0xC5) == 0xADF1_2694
    ensures At(POWER_640, 0x5B) == 0x959E_4E21 && At(POWER_640, 0x4B) == 0x6023_C872
  {
  }

  lemma Steps632()
    ensures TableStep(0xC15A_D684) == 0x45AD_F6B1
    ensures TableStep(0xE85C_D025) == 0x15A4_C612
    ensures TableStep(0x803A_8833) == 0x2333_80CD
  {
  }

  /** The eight slicing tables hold Z to the powers 1 to 8. */
  lemma SliceTablesHold()
    ensures HoldsPower(TABLEIL8_O32, 1)
    ensures HoldsPower(TABLEIL8_O40, 2)
    ensures HoldsPower(TABLEIL8_O48, 3)
    ensures HoldsPower(TABLEIL8_O56, 4)
    ensures HoldsPower(TABLEIL8_O64, 5)
    ensures HoldsPower(TABLEIL8_O72, 6)
    ensures HoldsPower(TABLEIL8_O80, 7)
    ensures HoldsPower(TABLEIL8_O88, 8)
  {
    TopOfByteTable();
    Tops2To4();
    Tops5To8();
    FromTop(TABLEIL8_O32, 1);
    FromTop(TABLEIL8_O40, 2);
    FromTop(TABLEIL8_O48, 3);
    FromTop(TABLEIL8_O56, 4);
    FromTop(TABLEIL8_O64, 5);
    FromTop(TABLEIL8_O72, 6);
    FromTop(TABLEIL8_O80, 7);
    FromTop(TABLEIL8_O88, 8);
  }

  /** The recombination tables mul_table_K of the three-lane kernel hold Z to the power K. */
  lemma MulTablesHold()
    ensures HoldsPower(MUL_TABLE_72, 72)
    ensures HoldsPower(MUL_TABLE_152, 152)
    ensures HoldsPower(MUL_TABLE_312, 312)
    ensures HoldsPower(MUL_TABLE_632, 632)
    ensures HoldsPower(MUL_TABLE_1272, 1272)
  {
    Top72();
    Top152();
    Top312();
    Top632();
    Top1272();
    FromTop(MUL_TABLE_72, 72);
    FromTop(MUL_TABLE_152, 152);
    FromTop(MUL_TABLE_312, 312);
    FromTop(MUL_TABLE_632, 632);
    FromTop(MUL_TABLE_1272, 1272);
  }
}
