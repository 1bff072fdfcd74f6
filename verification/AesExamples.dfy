// The worked examples of FIPS 197: its key expansions and its cipher, carried through step by step; and what the
// substitution box is.
module AesExamples {
  import opened Bytes
  import opened AesTables
  import opened AesColumns
  import opened Aes
  import opened AesKeySchedule

  // ---- the substitution box (section 5.1.1) ----

  function Rotl(y: Byte, n: bv4): Byte
    requires 0 < n < 8
  {
    (y << n) | (y >> (8 - n))
  }

  function Affine(y: Byte): Byte { y ^ Rotl(y, 1) ^ Rotl(y, 2) ^ Rotl(y, 3) ^ Rotl(y, 4) ^ 0x63 }

  function InvAffine(z: Byte): Byte { Rotl(z, 1) ^ Rotl(z, 3) ^ Rotl(z, 6) ^ 0x05 }

  function Twice(x: Byte): Byte { (x << 1) ^ (if x & 0x80 != 0 then 0x1B else 0) }

  function Part(x: Byte, on: bool): Byte { if on then x else 0 }

  // The product in the field, bit by bit of y.
  function Times(x: Byte, y: Byte): Byte {
    var x1 := Twice(x);
    var x2 := Twice(x1);
    var x3 := Twice(x2);
    var x4 := Twice(x3);
    var x5 := Twice(x4);
    var x6 := Twice(x5);
    Part(x, y & 0x01 != 0) ^ Part(x1, y & 0x02 != 0) ^ Part(x2, y & 0x04 != 0) ^ Part(x3, y & 0x08 != 0) ^
    Part(x4, y & 0x10 != 0) ^ Part(x5, y & 0x20 != 0) ^ Part(x6, y & 0x40 != 0) ^ Part(Twice(x6), y & 0x80 != 0)
  }

  lemma AffineInverse(z: Byte)
    ensures Affine(InvAffine(z)) == z
  {
  }

  lemma FirstQuarter(x: Byte, y: Byte)
    requires x & 0xC0 == 0x00 && y == InvAffine(Sbox(x))
    ensures x != 0 ==> Times(x, y) == 1
  {
  }

  lemma SecondQuarter(x: Byte, y: Byte)
    requires x & 0xC0 == 0x40 && y == InvAffine(Sbox(x))
    ensures x != 0 ==> Times(x, y) == 1
  {
  }

  lemma ThirdQuarter(x: Byte, y: Byte)
    requires x & 0xC0 == 0x80 && y == InvAffine(Sbox(x))
    ensures x != 0 ==> Times(x, y) == 1
  {
  }

  lemma LastQuarter(x: Byte, y: Byte)
    requires x & 0xC0 == 0xC0 && y == InvAffine(Sbox(x))
    ensures x != 0 ==> Times(x, y) == 1
  {
  }

  lemma SboxOfZero()
    ensures Sbox(0) == Affine(0)
  {
  }

  // Every entry is the affine image of the inverse in the field, with zero for the inverse of zero.
  lemma SboxIsAffineInverse(x: Byte) returns (y: Byte)
    ensures Sbox(x) == Affine(y) && if x == 0 then y == 0 else Times(x, y) == 1
  {
    hide Sbox, Affine, InvAffine, Times;
    y := if x == 0 then 0 else InvAffine(Sbox(x));
    AffineInverse(Sbox(x));
    if x == 0 {
      SboxOfZero();
    } else if x & 0xC0 == 0 {
      FirstQuarter(x, y);
    } else if x & 0xC0 == 0x40 {
      SecondQuarter(x, y);
    } else if x & 0xC0 == 0x80 {
      ThirdQuarter(x, y);
    } else {
      LastQuarter(x, y);
    }
  }

  // ---- the steps on the state ----

  function At(g: Grid, r: nat, c: nat): Byte
    requires r < 4 && c < 4
  {
    if r == 0 then g[c].b0 else if r == 1 then g[c].b1 else if r == 2 then g[c].b2 else g[c].b3
  }

  // Row r moves r places to the left (section 5.1.2).
  lemma ShiftMovesRows(g: Grid, r: nat, c: nat)
    requires r < 4 && c < 4
    ensures At(Shift(g), r, c) == At(g, r, (c + r) % 4)
  {
  }

  lemma ProductsAre(x: Byte)
    ensures Mul02(x) == Times(x, 2) && Mul03(x) == Times(x, 3)
  {
    Mul02IsDouble(x);
    Mul03IsTriple(x);
    hide Mul02, Mul03;
  }

  // A column is multiplied by the polynomial 3x^3 + x^2 + x + 2 (section 5.1.3).
  lemma MixMultiplies(c: Column)
    ensures MixColumn(c) == Column(Sum4(Times(c.b0, 2), Times(c.b1, 3), c.b2, c.b3),
                                   Sum4(c.b0, Times(c.b1, 2), Times(c.b2, 3), c.b3),
                                   Sum4(c.b0, c.b1, Times(c.b2, 2), Times(c.b3, 3)),
                                   Sum4(Times(c.b0, 3), c.b1, c.b2, Times(c.b3, 2)))
  {
    hide Mul02, Mul03, Times, Xor8;
    ProductsAre(c.b0);
    ProductsAre(c.b1);
    ProductsAre(c.b2);
    ProductsAre(c.b3);
  }

  // ---- a key of 128 bits (section A.1) ----

  const KEY: seq<Byte> :=
    [0x2b, 0x7e, 0x15, 0x16, 0x28, 0xae, 0xd2, 0xa6] +
    [0xab, 0xf7, 0x15, 0x88, 0x09, 0xcf, 0x4f, 0x3c]

  ghost predicate WordsAre(key: seq<Byte>, nk: nat, i: nat, a: bv32, b: bv32, c: bv32, d: bv32)
    requires 4 <= nk && 4 * nk <= |key|
  {
    Word(key, nk, i) == a && Word(key, nk, i + 1) == b && Word(key, nk, i + 2) == c && Word(key, nk, i + 3) == d
  }

  lemma MixedFirst(previous: bv32, i: nat)
    requires 4 <= i < 60 && i % 4 == 0
    ensures Mixed(previous, i, 4) == Xor32(SubWord(RotWord(previous)), Rcon(i / 4 - 1))
  {
    hide SubWord, RotWord, WordOf, RoundConstant, Xor32, Rcon;
    RconIsPower(i / 4 - 1);
  }

  lemma MixedOther(previous: bv32, i: nat)
    requires 4 <= i && i % 4 != 0
    ensures Mixed(previous, i, 4) == previous
  {
    hide SubWord, RotWord, WordOf, RoundConstant, Xor32;
  }

  // The next four words of a schedule of four-word keys.
  lemma NextWords(i: nat, a: bv32, b: bv32, c: bv32, d: bv32, e: bv32)
    requires 4 <= i < 60 && i % 4 == 0 && |KEY| == 16 && WordsAre(KEY, 4, i - 4, a, b, c, d)
    requires e == Xor32(a, Xor32(SubWord(RotWord(d)), Rcon(i / 4 - 1)))
    ensures WordsAre(KEY, 4, i, e, Xor32(b, e), Xor32(c, Xor32(b, e)), Xor32(d, Xor32(c, Xor32(b, e))))
  {
    hide Word, SubWord, RotWord, Xor32, Rcon, Mixed, KEY;
    WordStep(KEY, 4, i);
    WordStep(KEY, 4, i + 1);
    WordStep(KEY, 4, i + 2);
    WordStep(KEY, 4, i + 3);
    MixedFirst(d, i);
    MixedOther(Word(KEY, 4, i), i + 1);
    MixedOther(Word(KEY, 4, i + 1), i + 2);
    MixedOther(Word(KEY, 4, i + 2), i + 3);
  }

  lemma KeyWords0()
    ensures |KEY| == 16 && WordsAre(KEY, 4, 0, 0x2b7e_1516, 0x28ae_d2a6, 0xabf7_1588, 0x09cf_4f3c)
  {
  }

  lemma KeyWords4()
    ensures |KEY| == 16 && WordsAre(KEY, 4, 4, 0xa0fa_fe17, 0x8854_2cb1, 0x23a3_3939, 0x2a6c_7605)
  {
    hide Word, WordsAre, KEY;
    KeyWords0();
    NextWords(4, 0x2b7e_1516, 0x28ae_d2a6, 0xabf7_1588, 0x09cf_4f3c, 0xa0fa_fe17);
  }

  lemma KeyWords8()
    ensures |KEY| == 16 && WordsAre(KEY, 4, 8, 0xf2c2_95f2, 0x7a96_b943, 0x5935_807a, 0x7359_f67f)
  {
    hide Word, WordsAre, KEY;
    KeyWords4();
    NextWords(8, 0xa0fa_fe17, 0x8854_2cb1, 0x23a3_3939, 0x2a6c_7605, 0xf2c2_95f2);
  }

  lemma KeyWords12()
    ensures |KEY| == 16 && WordsAre(KEY, 4, 12, 0x3d80_477d, 0x4716_fe3e, 0x1e23_7e44, 0x6d7a_883b)
  {
    hide Word, WordsAre, KEY;
    KeyWords8();
    NextWords(12, 0xf2c2_95f2, 0x7a96_b943, 0x5935_807a, 0x7359_f67f, 0x3d80_477d);
  }

  lemma KeyWords16()
    ensures |KEY| == 16 && WordsAre(KEY, 4, 16, 0xef44_a541, 0xa852_5b7f, 0xb671_253b, 0xdb0b_ad00)
  {
    hide Word, WordsAre, KEY;
    KeyWords12();
    NextWords(16, 0x3d80_477d, 0x4716_fe3e, 0x1e23_7e44, 0x6d7a_883b, 0xef44_a541);
  }

  lemma KeyWords20()
    ensures |KEY| == 16 && WordsAre(KEY, 4, 20, 0xd4d1_c6f8, 0x7c83_9d87, 0xcaf2_b8bc, 0x11f9_15bc)
  {
    hide Word, WordsAre, KEY;
    KeyWords16();
    NextWords(20, 0xef44_a541, 0xa852_5b7f, 0xb671_253b, 0xdb0b_ad00, 0xd4d1_c6f8);
  }

  lemma KeyWords24()
    ensures |KEY| == 16 && WordsAre(KEY, 4, 24, 0x6d88_a37a, 0x110b_3efd, 0xdbf9_8641, 0xca00_93fd)
  {
    hide Word, WordsAre, KEY;
    KeyWords20();
    NextWords(24, 0xd4d1_c6f8, 0x7c83_9d87, 0xcaf2_b8bc, 0x11f9_15bc, 0x6d88_a37a);
  }

  lemma KeyWords28()
    ensures |KEY| == 16 && WordsAre(KEY, 4, 28, 0x4e54_f70e, 0x5f5f_c9f3, 0x84a6_4fb2, 0x4ea6_dc4f)
  {
    hide Word, WordsAre, KEY;
    KeyWords24();
    NextWords(28, 0x6d88_a37a, 0x110b_3efd, 0xdbf9_8641, 0xca00_93fd, 0x4e54_f70e);
  }

  lemma KeyWords32()
    ensures |KEY| == 16 && WordsAre(KEY, 4, 32, 0xead2_7321, 0xb58d_bad2, 0x312b_f560, 0x7f8d_292f)
  {
    hide Word, WordsAre, KEY;
    KeyWords28();
    NextWords(32, 0x4e54_f70e, 0x5f5f_c9f3, 0x84a6_4fb2, 0x4ea6_dc4f, 0xead2_7321);
  }

  lemma KeyWords36()
    ensures |KEY| == 16 && WordsAre(KEY, 4, 36, 0xac77_66f3, 0x19fa_dc21, 0x28d1_2941, 0x575c_006e)
  {
    hide Word, WordsAre, KEY;
    KeyWords32();
    NextWords(36, 0xead2_7321, 0xb58d_bad2, 0x312b_f560, 0x7f8d_292f, 0xac77_66f3);
  }

  lemma KeyWords40()
    ensures |KEY| == 16 && WordsAre(KEY, 4, 40, 0xd014_f9a8, 0xc9ee_2589, 0xe13f_0cc8, 0xb663_0ca6)
  {
    hide Word, WordsAre, KEY;
    KeyWords36();
    NextWords(40, 0xac77_66f3, 0x19fa_dc21, 0x28d1_2941, 0x575c_006e, 0xd014_f9a8);
  }

  // The last four words of the schedule in section A.1.
  lemma KeyExpansionExample()
    ensures |KEY| == 16 && WordsAre(KEY, 4, 40, 0xd014_f9a8, 0xc9ee_2589, 0xe13f_0cc8, 0xb663_0ca6)
  {
    KeyWords40();
  }

  // ---- a key of 256 bits (section A.3) ----

  const LONG_KEY: seq<Byte> :=
    [0x60, 0x3d, 0xeb, 0x10, 0x15, 0xca, 0x71, 0xbe] +
    [0x2b, 0x73, 0xae, 0xf0, 0x85, 0x7d, 0x77, 0x81] +
    [0x1f, 0x35, 0x2c, 0x07, 0x3b, 0x61, 0x08, 0xd7] +
    [0x2d, 0x98, 0x10, 0xa3, 0x09, 0x14, 0xdf, 0xf4]

  lemma LongWords0()
    ensures |LONG_KEY| == 32
    ensures WordsAre(LONG_KEY, 8, 0, 0x603d_eb10, 0x15ca_71be, 0x2b73_aef0, 0x857d_7781)
    ensures WordsAre(LONG_KEY, 8, 4, 0x1f35_2c07, 0x3b61_08d7, 0x2d98_10a3, 0x0914_dff4)
  {
  }

  // How the ninth word of a schedule of eight-word keys is mixed, and the thirteenth.
  lemma MixedLong(p: bv32, q: bv32)
    ensures Mixed(p, 8, 8) == Xor32(SubWord(RotWord(p)), Rcon(0))
    ensures Mixed(q, 12, 8) == SubWord(q)
    ensures forall i :: 8 < i < 12 ==> Mixed(p, i, 8) == p
  {
    hide SubWord, RotWord, WordOf, Xor32, Rcon, RoundConstant;
    RconIsPower(0);
  }

  lemma LongSteps(a: bv32, b: bv32, c: bv32, d: bv32)
    requires |LONG_KEY| == 32
    requires a == Xor32(Word(LONG_KEY, 8, 0), Xor32(SubWord(RotWord(Word(LONG_KEY, 8, 7))), Rcon(0)))
    requires b == Xor32(Word(LONG_KEY, 8, 1), a) && c == Xor32(Word(LONG_KEY, 8, 2), b)
    requires d == Xor32(Word(LONG_KEY, 8, 3), c)
    ensures WordsAre(LONG_KEY, 8, 8, a, b, c, d)
    ensures Word(LONG_KEY, 8, 12) == Xor32(Word(LONG_KEY, 8, 4), SubWord(d))
  {
    hide Word, SubWord, RotWord, Xor32, Rcon, Mixed, LONG_KEY;
    WordStep(LONG_KEY, 8, 8);
    WordStep(LONG_KEY, 8, 9);
    WordStep(LONG_KEY, 8, 10);
    WordStep(LONG_KEY, 8, 11);
    WordStep(LONG_KEY, 8, 12);
    MixedLong(Word(LONG_KEY, 8, 7), d);
    MixedLong(a, d);
    MixedLong(b, d);
    MixedLong(c, d);
  }

  // Words 8 to 12; the last is the first to be substituted without a rotation.
  lemma LongKeyExample()
    ensures |LONG_KEY| == 32 && WordsAre(LONG_KEY, 8, 8, 0x9ba3_5411, 0x8e69_25af, 0xa51a_8b5f, 0x2067_fcde)
    ensures Word(LONG_KEY, 8, 12) == 0xa8b0_9c1a
  {
    hide Word, LONG_KEY;
    LongWords0();
    LongSteps(0x9ba3_5411, 0x8e69_25af, 0xa51a_8b5f, 0x2067_fcde);
  }

  // ---- the cipher (appendix B) ----

  const INPUT: Block :=
    [0x32, 0x43, 0xf6, 0xa8, 0x88, 0x5a, 0x30, 0x8d] +
    [0x31, 0x31, 0x98, 0xa2, 0xe0, 0x37, 0x07, 0x34]

  // The state after i rounds.
  ghost predicate StateIs(i: nat, g: Grid)
    requires i <= 9
  {
    |KEY| == 16 && Rounds(GridOf(INPUT), Expand(KEY, 128), i) == g
  }

  lemma RoundKeyIs(i: nat, a: bv32, b: bv32, c: bv32, d: bv32)
    requires i <= 10 && |KEY| == 16 && WordsAre(KEY, 4, 4 * i, a, b, c, d)
    ensures RoundKey(Expand(KEY, 128), i) == [a, b, c, d]
  {
    hide Word, KEY;
  }

  lemma NextState(i: nat, g: Grid, k: seq<bv32>)
    requires i < 9 && StateIs(i, g) && RoundKey(Expand(KEY, 128), i + 1) == k && |k| == 4
    ensures StateIs(i + 1, AddKey(Mix(Shift(Sub(g))), k))
  {
    hide Expand, RoundKey, AddKey, Mix, Shift, Sub, GridOf, KEY, INPUT;
  }

  lemma State0()
    ensures StateIs(0, [Column(0x19, 0x3d, 0xe3, 0xbe), Column(0xa0, 0xf4, 0xe2, 0x2b),
       Column(0x9a, 0xc6, 0x8d, 0x2a), Column(0xe9, 0xf8, 0x48, 0x08)])
  {
    hide KEY;
    KeyWords0();
    RoundKeyIs(0, 0x2b7e_1516, 0x28ae_d2a6, 0xabf7_1588, 0x09cf_4f3c);
    FirstState();
  }

  lemma FirstState()
    ensures AddKey(GridOf(INPUT), [0x2b7e_1516, 0x28ae_d2a6, 0xabf7_1588, 0x09cf_4f3c])
         == [Column(0x19, 0x3d, 0xe3, 0xbe), Column(0xa0, 0xf4, 0xe2, 0x2b),
             Column(0x9a, 0xc6, 0x8d, 0x2a), Column(0xe9, 0xf8, 0x48, 0x08)]
  {
  }

  lemma Subbed1(g: Grid)
    requires g == [Column(0x19, 0x3d, 0xe3, 0xbe), Column(0xa0, 0xf4, 0xe2, 0x2b),
                   Column(0x9a, 0xc6, 0x8d, 0x2a), Column(0xe9, 0xf8, 0x48, 0x08)]
    ensures Sub(g) == [Column(0xd4, 0x27, 0x11, 0xae), Column(0xe0, 0xbf, 0x98, 0xf1),
                       Column(0xb8, 0xb4, 0x5d, 0xe5), Column(0x1e, 0x41, 0x52, 0x30)]
  {
  }

  lemma Mixed1(g: Grid)
    requires g == [Column(0xd4, 0x27, 0x11, 0xae), Column(0xe0, 0xbf, 0x98, 0xf1),
                   Column(0xb8, 0xb4, 0x5d, 0xe5), Column(0x1e, 0x41, 0x52, 0x30)]
    ensures Mix(Shift(g)) == [Column(0x04, 0x66, 0x81, 0xe5), Column(0xe0, 0xcb, 0x19, 0x9a),
                              Column(0x48, 0xf8, 0xd3, 0x7a), Column(0x28, 0x06, 0x26, 0x4c)]
  {
  }

  lemma Keyed1(g: Grid, k: seq<bv32>)
    requires g == [Column(0x04, 0x66, 0x81, 0xe5), Column(0xe0, 0xcb, 0x19, 0x9a),
                   Column(0x48, 0xf8, 0xd3, 0x7a), Column(0x28, 0x06, 0x26, 0x4c)]
    requires k == [0xa0fa_fe17, 0x8854_2cb1, 0x23a3_3939, 0x2a6c_7605]
    ensures AddKey(g, k) == [Column(0xa4, 0x9c, 0x7f, 0xf2), Column(0x68, 0x9f, 0x35, 0x2b),
                             Column(0x6b, 0x5b, 0xea, 0x43), Column(0x02, 0x6a, 0x50, 0x49)]
  {
  }

  lemma State1()
    ensures StateIs(1, [Column(0xa4, 0x9c, 0x7f, 0xf2), Column(0x68, 0x9f, 0x35, 0x2b),
       Column(0x6b, 0x5b, 0xea, 0x43), Column(0x02, 0x6a, 0x50, 0x49)])
  {
    hide StateIs, AddKey, Mix, Shift, Sub, RoundKey, Expand;
    var g := [Column(0x19, 0x3d, 0xe3, 0xbe), Column(0xa0, 0xf4, 0xe2, 0x2b),
              Column(0x9a, 0xc6, 0x8d, 0x2a), Column(0xe9, 0xf8, 0x48, 0x08)];
    var k := [0xa0fa_fe17, 0x8854_2cb1, 0x23a3_3939, 0x2a6c_7605];
    State0();
    KeyWords4();
    RoundKeyIs(1, k[0], k[1], k[2], k[3]);
    NextState(0, g, k);
    Subbed1(g);
    Mixed1(Sub(g));
    Keyed1(Mix(Shift(Sub(g))), k);
  }

  lemma Subbed2(g: Grid)
    requires g == [Column(0xa4, 0x9c, 0x7f, 0xf2), Column(0x68, 0x9f, 0x35, 0x2b),
                   Column(0x6b, 0x5b, 0xea, 0x43), Column(0x02, 0x6a, 0x50, 0x49)]
    ensures Sub(g) == [Column(0x49, 0xde, 0xd2, 0x89), Column(0x45, 0xdb, 0x96, 0xf1),
                       Column(0x7f, 0x39, 0x87, 0x1a), Column(0x77, 0x02, 0x53, 0x3b)]
  {
  }

  lemma Mixed2(g: Grid)
    requires g == [Column(0x49, 0xde, 0xd2, 0x89), Column(0x45, 0xdb, 0x96, 0xf1),
                   Column(0x7f, 0x39, 0x87, 0x1a), Column(0x77, 0x02, 0x53, 0x3b)]
    ensures Mix(Shift(g)) == [Column(0x58, 0x4d, 0xca, 0xf1), Column(0x1b, 0x4b, 0x5a, 0xac),
                              Column(0xdb, 0xe7, 0xca, 0xa8), Column(0x1b, 0x6b, 0xb0, 0xe5)]
  {
  }

  lemma Keyed2(g: Grid, k: seq<bv32>)
    requires g == [Column(0x58, 0x4d, 0xca, 0xf1), Column(0x1b, 0x4b, 0x5a, 0xac),
                   Column(0xdb, 0xe7, 0xca, 0xa8), Column(0x1b, 0x6b, 0xb0, 0xe5)]
    requires k == [0xf2c2_95f2, 0x7a96_b943, 0x5935_807a, 0x7359_f67f]
    ensures AddKey(g, k) == [Column(0xaa, 0x8f, 0x5f, 0x03), Column(0x61, 0xdd, 0xe3, 0xef),
                             Column(0x82, 0xd2, 0x4a, 0xd2), Column(0x68, 0x32, 0x46, 0x9a)]
  {
  }

  lemma State2()
    ensures StateIs(2, [Column(0xaa, 0x8f, 0x5f, 0x03), Column(0x61, 0xdd, 0xe3, 0xef),
       Column(0x82, 0xd2, 0x4a, 0xd2), Column(0x68, 0x32, 0x46, 0x9a)])
  {
    hide StateIs, AddKey, Mix, Shift, Sub, RoundKey, Expand;
    var g := [Column(0xa4, 0x9c, 0x7f, 0xf2), Column(0x68, 0x9f, 0x35, 0x2b),
              Column(0x6b, 0x5b, 0xea, 0x43), Column(0x02, 0x6a, 0x50, 0x49)];
    var k := [0xf2c2_95f2, 0x7a96_b943, 0x5935_807a, 0x7359_f67f];
    State1();
    KeyWords8();
    RoundKeyIs(2, k[0], k[1], k[2], k[3]);
    NextState(1, g, k);
    Subbed2(g);
    Mixed2(Sub(g));
    Keyed2(Mix(Shift(Sub(g))), k);
  }

  lemma Subbed3(g: Grid)
    requires g == [Column(0xaa, 0x8f, 0x5f, 0x03), Column(0x61, 0xdd, 0xe3, 0xef),
                   Column(0x82, 0xd2, 0x4a, 0xd2), Column(0x68, 0x32, 0x46, 0x9a)]
    ensures Sub(g) == [Column(0xac, 0x73, 0xcf, 0x7b), Column(0xef, 0xc1, 0x11, 0xdf),
                       Column(0x13, 0xb5, 0xd6, 0xb5), Column(0x45, 0x23, 0x5a, 0xb8)]
  {
  }

  lemma Mixed3(g: Grid)
    requires g == [Column(0xac, 0x73, 0xcf, 0x7b), Column(0xef, 0xc1, 0x11, 0xdf),
                   Column(0x13, 0xb5, 0xd6, 0xb5), Column(0x45, 0x23, 0x5a, 0xb8)]
    ensures Mix(Shift(g)) == [Column(0x75, 0xec, 0x09, 0x93), Column(0x20, 0x0b, 0x63, 0x33),
                              Column(0x53, 0xc0, 0xcf, 0x7c), Column(0xbb, 0x25, 0xd0, 0xdc)]
  {
  }

  lemma Keyed3(g: Grid, k: seq<bv32>)
    requires g == [Column(0x75, 0xec, 0x09, 0x93), Column(0x20, 0x0b, 0x63, 0x33),
                   Column(0x53, 0xc0, 0xcf, 0x7c), Column(0xbb, 0x25, 0xd0, 0xdc)]
    requires k == [0x3d80_477d, 0x4716_fe3e, 0x1e23_7e44, 0x6d7a_883b]
    ensures AddKey(g, k) == [Column(0x48, 0x6c, 0x4e, 0xee), Column(0x67, 0x1d, 0x9d, 0x0d),
                             Column(0x4d, 0xe3, 0xb1, 0x38), Column(0xd6, 0x5f, 0x58, 0xe7)]
  {
  }

  lemma State3()
    ensures StateIs(3, [Column(0x48, 0x6c, 0x4e, 0xee), Column(0x67, 0x1d, 0x9d, 0x0d),
       Column(0x4d, 0xe3, 0xb1, 0x38), Column(0xd6, 0x5f, 0x58, 0xe7)])
  {
    hide StateIs, AddKey, Mix, Shift, Sub, RoundKey, Expand;
    var g := [Column(0xaa, 0x8f, 0x5f, 0x03), Column(0x61, 0xdd, 0xe3, 0xef),
              Column(0x82, 0xd2, 0x4a, 0xd2), Column(0x68, 0x32, 0x46, 0x9a)];
    var k := [0x3d80_477d, 0x4716_fe3e, 0x1e23_7e44, 0x6d7a_883b];
    State2();
    KeyWords12();
    RoundKeyIs(3, k[0], k[1], k[2], k[3]);
    NextState(2, g, k);
    Subbed3(g);
    Mixed3(Sub(g));
    Keyed3(Mix(Shift(Sub(g))), k);
  }

  lemma Subbed4(g: Grid)
    requires g == [Column(0x48, 0x6c, 0x4e, 0xee), Column(0x67, 0x1d, 0x9d, 0x0d),
                   Column(0x4d, 0xe3, 0xb1, 0x38), Column(0xd6, 0x5f, 0x58, 0xe7)]
    ensures Sub(g) == [Column(0x52, 0x50, 0x2f, 0x28), Column(0x85, 0xa4, 0x5e, 0xd7),
                       Column(0xe3, 0x11, 0xc8, 0x07), Column(0xf6, 0xcf, 0x6a, 0x94)]
  {
  }

  lemma Mixed4(g: Grid)
    requires g == [Column(0x52, 0x50, 0x2f, 0x28), Column(0x85, 0xa4, 0x5e, 0xd7),
                   Column(0xe3, 0x11, 0xc8, 0x07), Column(0xf6, 0xcf, 0x6a, 0x94)]
    ensures Mix(Shift(g)) == [Column(0x0f, 0xd6, 0xda, 0xa9), Column(0x60, 0x31, 0x38, 0xbf),
                              Column(0x6f, 0xc0, 0x10, 0x6b), Column(0x5e, 0xb3, 0x13, 0x01)]
  {
  }

  lemma Keyed4(g: Grid, k: seq<bv32>)
    requires g == [Column(0x0f, 0xd6, 0xda, 0xa9), Column(0x60, 0x31, 0x38, 0xbf),
                   Column(0x6f, 0xc0, 0x10, 0x6b), Column(0x5e, 0xb3, 0x13, 0x01)]
    requires k == [0xef44_a541, 0xa852_5b7f, 0xb671_253b, 0xdb0b_ad00]
    ensures AddKey(g, k) == [Column(0xe0, 0x92, 0x7f, 0xe8), Column(0xc8, 0x63, 0x63, 0xc0),
                             Column(0xd9, 0xb1, 0x35, 0x50), Column(0x85, 0xb8, 0xbe, 0x01)]
  {
  }

  lemma State4()
    ensures StateIs(4, [Column(0xe0, 0x92, 0x7f, 0xe8), Column(0xc8, 0x63, 0x63, 0xc0),
       Column(0xd9, 0xb1, 0x35, 0x50), Column(0x85, 0xb8, 0xbe, 0x01)])
  {
    hide StateIs, AddKey, Mix, Shift, Sub, RoundKey, Expand;
    var g := [Column(0x48, 0x6c, 0x4e, 0xee), Column(0x67, 0x1d, 0x9d, 0x0d),
              Column(0x4d, 0xe3, 0xb1, 0x38), Column(0xd6, 0x5f, 0x58, 0xe7)];
    var k := [0xef44_a541, 0xa852_5b7f, 0xb671_253b, 0xdb0b_ad00];
    State3();
    KeyWords16();
    RoundKeyIs(4, k[0], k[1], k[2], k[3]);
    NextState(3, g, k);
    Subbed4(g);
    Mixed4(Sub(g));
    Keyed4(Mix(Shift(Sub(g))), k);
  }

  lemma Subbed5(g: Grid)
    requires g == [Column(0xe0, 0x92, 0x7f, 0xe8), Column(0xc8, 0x63, 0x63, 0xc0),
                   Column(0xd9, 0xb1, 0x35, 0x50), Column(0x85, 0xb8, 0xbe, 0x01)]
    ensures Sub(g) == [Column(0xe1, 0x4f, 0xd2, 0x9b), Column(0xe8, 0xfb, 0xfb, 0xba),
                       Column(0x35, 0xc8, 0x96, 0x53), Column(0x97, 0x6c, 0xae, 0x7c)]
  {
  }

  lemma Mixed5(g: Grid)
    requires g == [Column(0xe1, 0x4f, 0xd2, 0x9b), Column(0xe8, 0xfb, 0xfb, 0xba),
                   Column(0x35, 0xc8, 0x96, 0x53), Column(0x97, 0x6c, 0xae, 0x7c)]
    ensures Mix(Shift(g)) == [Column(0x25, 0xd1, 0xa9, 0xad), Column(0xbd, 0x11, 0xd1, 0x68),
                              Column(0xb6, 0x3a, 0x33, 0x8e), Column(0x4c, 0x4c, 0xc0, 0xb0)]
  {
  }

  lemma Keyed5(g: Grid, k: seq<bv32>)
    requires g == [Column(0x25, 0xd1, 0xa9, 0xad), Column(0xbd, 0x11, 0xd1, 0x68),
                   Column(0xb6, 0x3a, 0x33, 0x8e), Column(0x4c, 0x4c, 0xc0, 0xb0)]
    requires k == [0xd4d1_c6f8, 0x7c83_9d87, 0xcaf2_b8bc, 0x11f9_15bc]
    ensures AddKey(g, k) == [Column(0xf1, 0x00, 0x6f, 0x55), Column(0xc1, 0x92, 0x4c, 0xef),
                             Column(0x7c, 0xc8, 0x8b, 0x32), Column(0x5d, 0xb5, 0xd5, 0x0c)]
  {
  }

  lemma State5()
    ensures StateIs(5, [Column(0xf1, 0x00, 0x6f, 0x55), Column(0xc1, 0x92, 0x4c, 0xef),
       Column(0x7c, 0xc8, 0x8b, 0x32), Column(0x5d, 0xb5, 0xd5, 0x0c)])
  {
    hide StateIs, AddKey, Mix, Shift, Sub, RoundKey, Expand;
    var g := [Column(0xe0, 0x92, 0x7f, 0xe8), Column(0xc8, 0x63, 0x63, 0xc0),
              Column(0xd9, 0xb1, 0x35, 0x50), Column(0x85, 0xb8, 0xbe, 0x01)];
    var k := [0xd4d1_c6f8, 0x7c83_9d87, 0xcaf2_b8bc, 0x11f9_15bc];
    State4();
    KeyWords20();
    RoundKeyIs(5, k[0], k[1], k[2], k[3]);
    NextState(4, g, k);
    Subbed5(g);
    Mixed5(Sub(g));
    Keyed5(Mix(Shift(Sub(g))), k);
  }

  lemma Subbed6(g: Grid)
    requires g == [Column(0xf1, 0x00, 0x6f, 0x55), Column(0xc1, 0x92, 0x4c, 0xef),
                   Column(0x7c, 0xc8, 0x8b, 0x32), Column(0x5d, 0xb5, 0xd5, 0x0c)]
    ensures Sub(g) == [Column(0xa1, 0x63, 0xa8, 0xfc), Column(0x78, 0x4f, 0x29, 0xdf),
                       Column(0x10, 0xe8, 0x3d, 0x23), Column(0x4c, 0xd5, 0x03, 0xfe)]
  {
  }

  lemma Mixed6(g: Grid)
    requires g == [Column(0xa1, 0x63, 0xa8, 0xfc), Column(0x78, 0x4f, 0x29, 0xdf),
                   Column(0x10, 0xe8, 0x3d, 0x23), Column(0x4c, 0xd5, 0x03, 0xfe)]
    ensures Mix(Shift(g)) == [Column(0x4b, 0x86, 0x8d, 0x6d), Column(0x2c, 0x4a, 0x89, 0x80),
                              Column(0x33, 0x9d, 0xf4, 0xe8), Column(0x37, 0xd2, 0x18, 0xd8)]
  {
  }

  lemma Keyed6(g: Grid, k: seq<bv32>)
    requires g == [Column(0x4b, 0x86, 0x8d, 0x6d), Column(0x2c, 0x4a, 0x89, 0x80),
                   Column(0x33, 0x9d, 0xf4, 0xe8), Column(0x37, 0xd2, 0x18, 0xd8)]
    requires k == [0x6d88_a37a, 0x110b_3efd, 0xdbf9_8641, 0xca00_93fd]
    ensures AddKey(g, k) == [Column(0x26, 0x0e, 0x2e, 0x17), Column(0x3d, 0x41, 0xb7, 0x7d),
                             Column(0xe8, 0x64, 0x72, 0xa9), Column(0xfd, 0xd2, 0x8b, 0x25)]
  {
  }

  lemma State6()
    ensures StateIs(6, [Column(0x26, 0x0e, 0x2e, 0x17), Column(0x3d, 0x41, 0xb7, 0x7d),
       Column(0xe8, 0x64, 0x72, 0xa9), Column(0xfd, 0xd2, 0x8b, 0x25)])
  {
    hide StateIs, AddKey, Mix, Shift, Sub, RoundKey, Expand;
    var g := [Column(0xf1, 0x00, 0x6f, 0x55), Column(0xc1, 0x92, 0x4c, 0xef),
              Column(0x7c, 0xc8, 0x8b, 0x32), Column(0x5d, 0xb5, 0xd5, 0x0c)];
    var k := [0x6d88_a37a, 0x110b_3efd, 0xdbf9_8641, 0xca00_93fd];
    State5();
    KeyWords24();
    RoundKeyIs(6, k[0], k[1], k[2], k[3]);
    NextState(5, g, k);
    Subbed6(g);
    Mixed6(Sub(g));
    Keyed6(Mix(Shift(Sub(g))), k);
  }

  lemma Subbed7(g: Grid)
    requires g == [Column(0x26, 0x0e, 0x2e, 0x17), Column(0x3d, 0x41, 0xb7, 0x7d),
                   Column(0xe8, 0x64, 0x72, 0xa9), Column(0xfd, 0xd2, 0x8b, 0x25)]
    ensures Sub(g) == [Column(0xf7, 0xab, 0x31, 0xf0), Column(0x27, 0x83, 0xa9, 0xff),
                       Column(0x9b, 0x43, 0x40, 0xd3), Column(0x54, 0xb5, 0x3d, 0x3f)]
  {
  }

  lemma Mixed7(g: Grid)
    requires g == [Column(0xf7, 0xab, 0x31, 0xf0), Column(0x27, 0x83, 0xa9, 0xff),
                   Column(0x9b, 0x43, 0x40, 0xd3), Column(0x54, 0xb5, 0x3d, 0x3f)]
    ensures Mix(Shift(g)) == [Column(0x14, 0x15, 0xb5, 0xbf), Column(0x46, 0x16, 0x15, 0xec),
                              Column(0x27, 0x46, 0x56, 0xd7), Column(0x34, 0x2a, 0xd8, 0x43)]
  {
  }

  lemma Keyed7(g: Grid, k: seq<bv32>)
    requires g == [Column(0x14, 0x15, 0xb5, 0xbf), Column(0x46, 0x16, 0x15, 0xec),
                   Column(0x27, 0x46, 0x56, 0xd7), Column(0x34, 0x2a, 0xd8, 0x43)]
    requires k == [0x4e54_f70e, 0x5f5f_c9f3, 0x84a6_4fb2, 0x4ea6_dc4f]
    ensures AddKey(g, k) == [Column(0x5a, 0x41, 0x42, 0xb1), Column(0x19, 0x49, 0xdc, 0x1f),
                             Column(0xa3, 0xe0, 0x19, 0x65), Column(0x7a, 0x8c, 0x04, 0x0c)]
  {
  }

  lemma State7()
    ensures StateIs(7, [Column(0x5a, 0x41, 0x42, 0xb1), Column(0x19, 0x49, 0xdc, 0x1f),
       Column(0xa3, 0xe0, 0x19, 0x65), Column(0x7a, 0x8c, 0x04, 0x0c)])
  {
    hide StateIs, AddKey, Mix, Shift, Sub, RoundKey, Expand;
    var g := [Column(0x26, 0x0e, 0x2e, 0x17), Column(0x3d, 0x41, 0xb7, 0x7d),
              Column(0xe8, 0x64, 0x72, 0xa9), Column(0xfd, 0xd2, 0x8b, 0x25)];
    var k := [0x4e54_f70e, 0x5f5f_c9f3, 0x84a6_4fb2, 0x4ea6_dc4f];
    State6();
    KeyWords28();
    RoundKeyIs(7, k[0], k[1], k[2], k[3]);
    NextState(6, g, k);
    Subbed7(g);
    Mixed7(Sub(g));
    Keyed7(Mix(Shift(Sub(g))), k);
  }

  lemma Subbed8(g: Grid)
    requires g == [Column(0x5a, 0x41, 0x42, 0xb1), Column(0x19, 0x49, 0xdc, 0x1f),
                   Column(0xa3, 0xe0, 0x19, 0x65), Column(0x7a, 0x8c, 0x04, 0x0c)]
    ensures Sub(g) == [Column(0xbe, 0x83, 0x2c, 0xc8), Column(0xd4, 0x3b, 0x86, 0xc0),
                       Column(0x0a, 0xe1, 0xd4, 0x4d), Column(0xda, 0x64, 0xf2, 0xfe)]
  {
  }

  lemma Mixed8(g: Grid)
    requires g == [Column(0xbe, 0x83, 0x2c, 0xc8), Column(0xd4, 0x3b, 0x86, 0xc0),
                   Column(0x0a, 0xe1, 0xd4, 0x4d), Column(0xda, 0x64, 0xf2, 0xfe)]
    ensures Mix(Shift(g)) == [Column(0x00, 0x51, 0x2f, 0xd1), Column(0xb1, 0xc8, 0x89, 0xff),
                              Column(0x54, 0x76, 0x6d, 0xcd), Column(0xfa, 0x1b, 0x99, 0xea)]
  {
  }

  lemma Keyed8(g: Grid, k: seq<bv32>)
    requires g == [Column(0x00, 0x51, 0x2f, 0xd1), Column(0xb1, 0xc8, 0x89, 0xff),
                   Column(0x54, 0x76, 0x6d, 0xcd), Column(0xfa, 0x1b, 0x99, 0xea)]
    requires k == [0xead2_7321, 0xb58d_bad2, 0x312b_f560, 0x7f8d_292f]
    ensures AddKey(g, k) == [Column(0xea, 0x83, 0x5c, 0xf0), Column(0x04, 0x45, 0x33, 0x2d),
                             Column(0x65, 0x5d, 0x98, 0xad), Column(0x85, 0x96, 0xb0, 0xc5)]
  {
  }

  lemma State8()
    ensures StateIs(8, [Column(0xea, 0x83, 0x5c, 0xf0), Column(0x04, 0x45, 0x33, 0x2d),
       Column(0x65, 0x5d, 0x98, 0xad), Column(0x85, 0x96, 0xb0, 0xc5)])
  {
    hide StateIs, AddKey, Mix, Shift, Sub, RoundKey, Expand;
    var g := [Column(0x5a, 0x41, 0x42, 0xb1), Column(0x19, 0x49, 0xdc, 0x1f),
              Column(0xa3, 0xe0, 0x19, 0x65), Column(0x7a, 0x8c, 0x04, 0x0c)];
    var k := [0xead2_7321, 0xb58d_bad2, 0x312b_f560, 0x7f8d_292f];
    State7();
    KeyWords32();
    RoundKeyIs(8, k[0], k[1], k[2], k[3]);
    NextState(7, g, k);
    Subbed8(g);
    Mixed8(Sub(g));
    Keyed8(Mix(Shift(Sub(g))), k);
  }

  lemma Subbed9(g: Grid)
    requires g == [Column(0xea, 0x83, 0x5c, 0xf0), Column(0x04, 0x45, 0x33, 0x2d),
                   Column(0x65, 0x5d, 0x98, 0xad), Column(0x85, 0x96, 0xb0, 0xc5)]
    ensures Sub(g) == [Column(0x87, 0xec, 0x4a, 0x8c), Column(0xf2, 0x6e, 0xc3, 0xd8),
                       Column(0x4d, 0x4c, 0x46, 0x95), Column(0x97, 0x90, 0xe7, 0xa6)]
  {
  }

  lemma Mixed9(g: Grid)
    requires g == [Column(0x87, 0xec, 0x4a, 0x8c), Column(0xf2, 0x6e, 0xc3, 0xd8),
                   Column(0x4d, 0x4c, 0x46, 0x95), Column(0x97, 0x90, 0xe7, 0xa6)]
    ensures Mix(Shift(g)) == [Column(0x47, 0x37, 0x94, 0xed), Column(0x40, 0xd4, 0xe4, 0xa5),
                              Column(0xa3, 0x70, 0x3a, 0xa6), Column(0x4c, 0x9f, 0x42, 0xbc)]
  {
  }

  lemma Keyed9(g: Grid, k: seq<bv32>)
    requires g == [Column(0x47, 0x37, 0x94, 0xed), Column(0x40, 0xd4, 0xe4, 0xa5),
                   Column(0xa3, 0x70, 0x3a, 0xa6), Column(0x4c, 0x9f, 0x42, 0xbc)]
    requires k == [0xac77_66f3, 0x19fa_dc21, 0x28d1_2941, 0x575c_006e]
    ensures AddKey(g, k) == [Column(0xeb, 0x40, 0xf2, 0x1e), Column(0x59, 0x2e, 0x38, 0x84),
                             Column(0x8b, 0xa1, 0x13, 0xe7), Column(0x1b, 0xc3, 0x42, 0xd2)]
  {
  }

  lemma State9()
    ensures StateIs(9, [Column(0xeb, 0x40, 0xf2, 0x1e), Column(0x59, 0x2e, 0x38, 0x84),
       Column(0x8b, 0xa1, 0x13, 0xe7), Column(0x1b, 0xc3, 0x42, 0xd2)])
  {
    hide StateIs, AddKey, Mix, Shift, Sub, RoundKey, Expand;
    var g := [Column(0xea, 0x83, 0x5c, 0xf0), Column(0x04, 0x45, 0x33, 0x2d),
              Column(0x65, 0x5d, 0x98, 0xad), Column(0x85, 0x96, 0xb0, 0xc5)];
    var k := [0xac77_66f3, 0x19fa_dc21, 0x28d1_2941, 0x575c_006e];
    State8();
    KeyWords36();
    RoundKeyIs(9, k[0], k[1], k[2], k[3]);
    NextState(8, g, k);
    Subbed9(g);
    Mixed9(Sub(g));
    Keyed9(Mix(Shift(Sub(g))), k);
  }

  lemma LastSubbed(g: Grid)
    requires g == [Column(0xeb, 0x40, 0xf2, 0x1e), Column(0x59, 0x2e, 0x38, 0x84),
                   Column(0x8b, 0xa1, 0x13, 0xe7), Column(0x1b, 0xc3, 0x42, 0xd2)]
    ensures Sub(g) == [Column(0xe9, 0x09, 0x89, 0x72), Column(0xcb, 0x31, 0x07, 0x5f),
                       Column(0x3d, 0x32, 0x7d, 0x94), Column(0xaf, 0x2e, 0x2c, 0xb5)]
  {
  }

  lemma LastKeyed(g: Grid, k: seq<bv32>)
    requires g == [Column(0xe9, 0x09, 0x89, 0x72), Column(0xcb, 0x31, 0x07, 0x5f),
                   Column(0x3d, 0x32, 0x7d, 0x94), Column(0xaf, 0x2e, 0x2c, 0xb5)]
    requires k == [0xd014_f9a8, 0xc9ee_2589, 0xe13f_0cc8, 0xb663_0ca6]
    ensures BlockOf(AddKey(Shift(g), k)) ==
      [0x39, 0x25, 0x84, 0x1d, 0x02, 0xdc, 0x09, 0xfb, 0xdc, 0x11, 0x85, 0x97, 0x19, 0x6a, 0x0b, 0x32]
  {
  }

  // The output of the cipher on this input is the one given there.
  lemma CipherExample()
    ensures |KEY| == 16
    ensures Encrypt(INPUT, Expand(KEY, 128), 128) ==
      [0x39, 0x25, 0x84, 0x1d, 0x02, 0xdc, 0x09, 0xfb, 0xdc, 0x11, 0x85, 0x97, 0x19, 0x6a, 0x0b, 0x32]
  {
    hide AddKey, Mix, Shift, Sub, RoundKey, Expand, Rounds, BlockOf, KEY;
    var g := [Column(0xeb, 0x40, 0xf2, 0x1e), Column(0x59, 0x2e, 0x38, 0x84),
              Column(0x8b, 0xa1, 0x13, 0xe7), Column(0x1b, 0xc3, 0x42, 0xd2)];
    var k := [0xd014_f9a8, 0xc9ee_2589, 0xe13f_0cc8, 0xb663_0ca6];
    State9();
    KeyWords40();
    RoundKeyIs(10, k[0], k[1], k[2], k[3]);
    LastSubbed(g);
    LastKeyed(Sub(g), k);
  }
}
