// The published digest of "abc", carried through the schedule and the rounds.
module Sha256Digest {
  import opened Bytes
  import opened Sha256
  import opened Sha256Constants

  // The next eight words of a schedule.
  function EightWords(w: seq<Word>): (n: seq<Word>)
    requires |w| == 16
    ensures |n| == 8
  {
    var w16 := NextWord(w[14], w[9], w[1], w[0]);
    var w17 := NextWord(w[15], w[10], w[2], w[1]);
    var w18 := NextWord(w16, w[11], w[3], w[2]);
    var w19 := NextWord(w17, w[12], w[4], w[3]);
    var w20 := NextWord(w18, w[13], w[5], w[4]);
    var w21 := NextWord(w19, w[14], w[6], w[5]);
    var w22 := NextWord(w20, w[15], w[7], w[6]);
    var w23 := NextWord(w21, w16, w[8], w[7]);
    [w16, w17, w18, w19, w20, w21, w22, w23]
  }

  function NextWord(a: Word, b: Word, c: Word, d: Word): Word { Plus(Plus(Plus(Sig1(a), b), Sig0(c)), d) }

  // The schedule of the block from word t on.
  ghost predicate ScheduleIs(b: Block, t: nat, w: seq<Word>)
    requires |w| == 8
  {
    && Schedule(b, t) == w[0] && Schedule(b, t + 1) == w[1] && Schedule(b, t + 2) == w[2] && Schedule(b, t + 3) == w[3]
    && Schedule(b, t + 4) == w[4] && Schedule(b, t + 5) == w[5] && Schedule(b, t + 6) == w[6]
    && Schedule(b, t + 7) == w[7]
  }

  lemma NextScheduled(b: Block, t: nat)
    ensures Schedule(b, t + 16) == NextWord(Schedule(b, t + 14), Schedule(b, t + 9), Schedule(b, t + 1), Schedule(b, t))
  {
    hide WordOf, Plus, Sig0, Sig1;
  }

  lemma ScheduleGoesOn(b: Block, t: nat, u: seq<Word>, w: seq<Word>)
    requires |u| == |w| == 8 && ScheduleIs(b, t, u) && ScheduleIs(b, t + 8, w)
    ensures ScheduleIs(b, t + 16, EightWords(u + w))
  {
    hide Schedule, NextWord;
    NextScheduled(b, t);
    NextScheduled(b, t + 1);
    NextScheduled(b, t + 2);
    NextScheduled(b, t + 3);
    NextScheduled(b, t + 4);
    NextScheduled(b, t + 5);
    NextScheduled(b, t + 6);
    NextScheduled(b, t + 7);
  }

  lemma OneRound(v: Vars, b: Block, t: nat)
    requires t < 64 && |K| == 64
    ensures Rounds(v, b, t + 1) == Round(Rounds(v, b, t), K[t], Schedule(b, t))
  {
    hide Round, Schedule, K;
  }

  const ABC: seq<Byte> := [0x61, 0x62, 0x63]

  // The one block of the padded message.
  function AbcBlock(): Block { ABC + Padding(3) }

  lemma AbcLength()
    ensures Be64(24) == [0, 0, 0, 0, 0, 0, 0, 0x18]
  {
    hide ByteOf;
    ByteOfByte(0);
    ByteOfByte(0x18);
  }

  lemma AbcBytes(i: nat)
    requires i < 64
    ensures AbcBlock()[i] == if i == 0 then 0x61 else if i == 1 then 0x62 else if i == 2 then 0x63
                             else if i == 3 then 0x80 else if i == 63 then 0x18 else 0
  {
    hide Be64;
    AbcLength();
    assert Padding(3) == [0x80] + Zeros(52) + Be64(24);
  }

  lemma AbcWords0(b: Block)
    requires b == AbcBlock()
    ensures ScheduleIs(b, 0, [0x6162_6380, 0x0000_0000, 0x0000_0000, 0x0000_0000,
                              0x0000_0000, 0x0000_0000, 0x0000_0000, 0x0000_0000])
    ensures ScheduleIs(b, 8, [0x0000_0000, 0x0000_0000, 0x0000_0000, 0x0000_0000,
                              0x0000_0000, 0x0000_0000, 0x0000_0000, 0x0000_0018])
  {
    hide AbcBlock;
    forall i | 0 <= i < 16
      ensures Schedule(b, i) == if i == 0 then 0x6162_6380 else if i == 15 then 0x18 else 0
    {
      AbcBytes(4 * i);
      AbcBytes(4 * i + 1);
      AbcBytes(4 * i + 2);
      AbcBytes(4 * i + 3);
    }
  }

  lemma Words16()
    ensures EightWords(
      [0x6162_6380, 0x0000_0000, 0x0000_0000, 0x0000_0000, 0x0000_0000, 0x0000_0000, 0x0000_0000, 0x0000_0000] +
      [0x0000_0000, 0x0000_0000, 0x0000_0000, 0x0000_0000, 0x0000_0000, 0x0000_0000, 0x0000_0000, 0x0000_0018]) ==
      [0x6162_6380, 0x000f_0000, 0x7da8_6405, 0x6000_03c6, 0x3e9d_7b78, 0x0183_fc00, 0x12dc_bfdb, 0xe2e2_c38e]
  {
  }

  lemma AbcWords16(b: Block)
    requires b == AbcBlock()
    ensures ScheduleIs(b, 16, [0x6162_6380, 0x000f_0000, 0x7da8_6405, 0x6000_03c6,
                               0x3e9d_7b78, 0x0183_fc00, 0x12dc_bfdb, 0xe2e2_c38e])
  {
    hide Schedule, EightWords;
    AbcWords0(b);
    Words16();
    ScheduleGoesOn(b, 0,
      [0x6162_6380, 0x0000_0000, 0x0000_0000, 0x0000_0000, 0x0000_0000, 0x0000_0000, 0x0000_0000, 0x0000_0000],
      [0x0000_0000, 0x0000_0000, 0x0000_0000, 0x0000_0000, 0x0000_0000, 0x0000_0000, 0x0000_0000, 0x0000_0018]);
  }

  lemma Words24()
    ensures EightWords(
      [0x0000_0000, 0x0000_0000, 0x0000_0000, 0x0000_0000, 0x0000_0000, 0x0000_0000, 0x0000_0000, 0x0000_0018] +
      [0x6162_6380, 0x000f_0000, 0x7da8_6405, 0x6000_03c6, 0x3e9d_7b78, 0x0183_fc00, 0x12dc_bfdb, 0xe2e2_c38e]) ==
      [0xc821_5c1a, 0xb736_79a2, 0xe5bc_3909, 0x3266_3c5b, 0x9d20_9d67, 0xec87_26cb, 0x7021_38a4, 0xd3b7_973b]
  {
  }

  lemma AbcWords24(b: Block)
    requires b == AbcBlock()
    ensures ScheduleIs(b, 24, [0xc821_5c1a, 0xb736_79a2, 0xe5bc_3909, 0x3266_3c5b,
                               0x9d20_9d67, 0xec87_26cb, 0x7021_38a4, 0xd3b7_973b])
  {
    hide Schedule, EightWords;
    AbcWords0(b);
    AbcWords16(b);
    Words24();
    ScheduleGoesOn(b, 8,
      [0x0000_0000, 0x0000_0000, 0x0000_0000, 0x0000_0000, 0x0000_0000, 0x0000_0000, 0x0000_0000, 0x0000_0018],
      [0x6162_6380, 0x000f_0000, 0x7da8_6405, 0x6000_03c6, 0x3e9d_7b78, 0x0183_fc00, 0x12dc_bfdb, 0xe2e2_c38e]);
  }

  lemma Words32()
    ensures EightWords(
      [0x6162_6380, 0x000f_0000, 0x7da8_6405, 0x6000_03c6, 0x3e9d_7b78, 0x0183_fc00, 0x12dc_bfdb, 0xe2e2_c38e] +
      [0xc821_5c1a, 0xb736_79a2, 0xe5bc_3909, 0x3266_3c5b, 0x9d20_9d67, 0xec87_26cb, 0x7021_38a4, 0xd3b7_973b]) ==
      [0x93f5_997f, 0x3b68_ba73, 0xaff4_ffc1, 0xf10a_5c62, 0x0a8b_3996, 0x72af_830a, 0x9409_e33e, 0x2464_1522]
  {
  }

  lemma AbcWords32(b: Block)
    requires b == AbcBlock()
    ensures ScheduleIs(b, 32, [0x93f5_997f, 0x3b68_ba73, 0xaff4_ffc1, 0xf10a_5c62,
                               0x0a8b_3996, 0x72af_830a, 0x9409_e33e, 0x2464_1522])
  {
    hide Schedule, EightWords;
    AbcWords16(b);
    AbcWords24(b);
    Words32();
    ScheduleGoesOn(b, 16,
      [0x6162_6380, 0x000f_0000, 0x7da8_6405, 0x6000_03c6, 0x3e9d_7b78, 0x0183_fc00, 0x12dc_bfdb, 0xe2e2_c38e],
      [0xc821_5c1a, 0xb736_79a2, 0xe5bc_3909, 0x3266_3c5b, 0x9d20_9d67, 0xec87_26cb, 0x7021_38a4, 0xd3b7_973b]);
  }

  lemma Words40()
    ensures EightWords(
      [0xc821_5c1a, 0xb736_79a2, 0xe5bc_3909, 0x3266_3c5b, 0x9d20_9d67, 0xec87_26cb, 0x7021_38a4, 0xd3b7_973b] +
      [0x93f5_997f, 0x3b68_ba73, 0xaff4_ffc1, 0xf10a_5c62, 0x0a8b_3996, 0x72af_830a, 0x9409_e33e, 0x2464_1522]) ==
      [0x9f47_bf94, 0xf0a6_4f5a, 0x3e24_6a79, 0x2733_3ba3, 0x0c47_63f2, 0x840a_bf27, 0x7a29_0d5d, 0x065c_43da]
  {
  }

  lemma AbcWords40(b: Block)
    requires b == AbcBlock()
    ensures ScheduleIs(b, 40, [0x9f47_bf94, 0xf0a6_4f5a, 0x3e24_6a79, 0x2733_3ba3,
                               0x0c47_63f2, 0x840a_bf27, 0x7a29_0d5d, 0x065c_43da])
  {
    hide Schedule, EightWords;
    AbcWords24(b);
    AbcWords32(b);
    Words40();
    ScheduleGoesOn(b, 24,
      [0xc821_5c1a, 0xb736_79a2, 0xe5bc_3909, 0x3266_3c5b, 0x9d20_9d67, 0xec87_26cb, 0x7021_38a4, 0xd3b7_973b],
      [0x93f5_997f, 0x3b68_ba73, 0xaff4_ffc1, 0xf10a_5c62, 0x0a8b_3996, 0x72af_830a, 0x9409_e33e, 0x2464_1522]);
  }

  lemma Words48()
    ensures EightWords(
      [0x93f5_997f, 0x3b68_ba73, 0xaff4_ffc1, 0xf10a_5c62, 0x0a8b_3996, 0x72af_830a, 0x9409_e33e, 0x2464_1522] +
      [0x9f47_bf94, 0xf0a6_4f5a, 0x3e24_6a79, 0x2733_3ba3, 0x0c47_63f2, 0x840a_bf27, 0x7a29_0d5d, 0x065c_43da]) ==
      [0xfb3e_89cb, 0xcc76_17db, 0xb9e6_6c34, 0xa999_3667, 0x84ba_dedd, 0xc214_62bc, 0x1487_472c, 0xb20f_7a99]
  {
  }

  lemma AbcWords48(b: Block)
    requires b == AbcBlock()
    ensures ScheduleIs(b, 48, [0xfb3e_89cb, 0xcc76_17db, 0xb9e6_6c34, 0xa999_3667,
                               0x84ba_dedd, 0xc214_62bc, 0x1487_472c, 0xb20f_7a99])
  {
    hide Schedule, EightWords;
    AbcWords32(b);
    AbcWords40(b);
    Words48();
    ScheduleGoesOn(b, 32,
      [0x93f5_997f, 0x3b68_ba73, 0xaff4_ffc1, 0xf10a_5c62, 0x0a8b_3996, 0x72af_830a, 0x9409_e33e, 0x2464_1522],
      [0x9f47_bf94, 0xf0a6_4f5a, 0x3e24_6a79, 0x2733_3ba3, 0x0c47_63f2, 0x840a_bf27, 0x7a29_0d5d, 0x065c_43da]);
  }

  lemma Words56()
    ensures EightWords(
      [0x9f47_bf94, 0xf0a6_4f5a, 0x3e24_6a79, 0x2733_3ba3, 0x0c47_63f2, 0x840a_bf27, 0x7a29_0d5d, 0x065c_43da] +
      [0xfb3e_89cb, 0xcc76_17db, 0xb9e6_6c34, 0xa999_3667, 0x84ba_dedd, 0xc214_62bc, 0x1487_472c, 0xb20f_7a99]) ==
      [0xef57_b9cd, 0xebe6_b238, 0x9fe3_095e, 0x78bc_8d4b, 0xa43f_cf15, 0x668b_2ff8, 0xeeab_a2cc, 0x12b1_edeb]
  {
  }

  lemma AbcWords56(b: Block)
    requires b == AbcBlock()
    ensures ScheduleIs(b, 56, [0xef57_b9cd, 0xebe6_b238, 0x9fe3_095e, 0x78bc_8d4b,
                               0xa43f_cf15, 0x668b_2ff8, 0xeeab_a2cc, 0x12b1_edeb])
  {
    hide Schedule, EightWords;
    AbcWords40(b);
    AbcWords48(b);
    Words56();
    ScheduleGoesOn(b, 40,
      [0x9f47_bf94, 0xf0a6_4f5a, 0x3e24_6a79, 0x2733_3ba3, 0x0c47_63f2, 0x840a_bf27, 0x7a29_0d5d, 0x065c_43da],
      [0xfb3e_89cb, 0xcc76_17db, 0xb9e6_6c34, 0xa999_3667, 0x84ba_dedd, 0xc214_62bc, 0x1487_472c, 0xb20f_7a99]);
  }

  // The working variables after t rounds.
  ghost predicate AbcRounds(b: Block, t: nat, v: Vars)
    requires t <= 64
  {
    |K| == 64 && Rounds(VarsOf(H0), b, t) == v
  }

  lemma AbcStep(b: Block, t: nat, v: Vars, k: Word, w: Word, next: Vars)
    requires t < 64 && |K| == 64 && AbcRounds(b, t, v) && K[t] == k && Schedule(b, t) == w
    requires Round(v, k, w) == next
    ensures AbcRounds(b, t + 1, next)
  {
    hide K, Schedule, AbcBlock, Round;
    OneRound(VarsOf(H0), b, t);
  }

  lemma AbcRounds0(b: Block)
    requires b == AbcBlock()
    ensures AbcRounds(b, 0, Vars(0x6a09_e667, 0xbb67_ae85, 0x3c6e_f372, 0xa54f_f53a,
                                 0x510e_527f, 0x9b05_688c, 0x1f83_d9ab, 0x5be0_cd19))
  {
    hide AbcBlock;
    Lengths();
  }

  lemma AbcRounds4(b: Block)
    requires b == AbcBlock()
    ensures AbcRounds(b, 4, Vars(0xd550_f666, 0xc8c3_47a7, 0x5a6a_d9ad, 0x5d6a_ebcd,
                                 0x24e0_0850, 0xf929_39eb, 0x78ce_7989, 0xfa2a_4622))
  {
    hide AbcRounds, AbcBlock, Schedule;
    AbcRounds0(b);
    AbcWords0(b);
    var v0 := Vars(0x6a09_e667, 0xbb67_ae85, 0x3c6e_f372, 0xa54f_f53a,
                   0x510e_527f, 0x9b05_688c, 0x1f83_d9ab, 0x5be0_cd19);
    var v1 := Vars(0x5d6a_ebcd, 0x6a09_e667, 0xbb67_ae85, 0x3c6e_f372,
                   0xfa2a_4622, 0x510e_527f, 0x9b05_688c, 0x1f83_d9ab);
    var v2 := Vars(0x5a6a_d9ad, 0x5d6a_ebcd, 0x6a09_e667, 0xbb67_ae85,
                   0x78ce_7989, 0xfa2a_4622, 0x510e_527f, 0x9b05_688c);
    var v3 := Vars(0xc8c3_47a7, 0x5a6a_d9ad, 0x5d6a_ebcd, 0x6a09_e667,
                   0xf929_39eb, 0x78ce_7989, 0xfa2a_4622, 0x510e_527f);
    var v4 := Vars(0xd550_f666, 0xc8c3_47a7, 0x5a6a_d9ad, 0x5d6a_ebcd,
                   0x24e0_0850, 0xf929_39eb, 0x78ce_7989, 0xfa2a_4622);
    AbcStep(b, 0, v0, 0x428a_2f98, 0x6162_6380, v1);
    AbcStep(b, 1, v1, 0x7137_4491, 0x0000_0000, v2);
    AbcStep(b, 2, v2, 0xb5c0_fbcf, 0x0000_0000, v3);
    AbcStep(b, 3, v3, 0xe9b5_dba5, 0x0000_0000, v4);
  }

  lemma AbcRounds8(b: Block)
    requires b == AbcBlock()
    ensures AbcRounds(b, 8, Vars(0x85a0_7b5f, 0xe503_0380, 0x2b42_09f5, 0x0440_9a6a,
                                 0x0c65_7a79, 0x9b27_a401, 0x7142_60ad, 0x43ad_a245))
  {
    hide AbcRounds, AbcBlock, Schedule;
    AbcRounds4(b);
    AbcWords0(b);
    var v4 := Vars(0xd550_f666, 0xc8c3_47a7, 0x5a6a_d9ad, 0x5d6a_ebcd,
                   0x24e0_0850, 0xf929_39eb, 0x78ce_7989, 0xfa2a_4622);
    var v5 := Vars(0x0440_9a6a, 0xd550_f666, 0xc8c3_47a7, 0x5a6a_d9ad,
                   0x43ad_a245, 0x24e0_0850, 0xf929_39eb, 0x78ce_7989);
    var v6 := Vars(0x2b42_09f5, 0x0440_9a6a, 0xd550_f666, 0xc8c3_47a7,
                   0x7142_60ad, 0x43ad_a245, 0x24e0_0850, 0xf929_39eb);
    var v7 := Vars(0xe503_0380, 0x2b42_09f5, 0x0440_9a6a, 0xd550_f666,
                   0x9b27_a401, 0x7142_60ad, 0x43ad_a245, 0x24e0_0850);
    var v8 := Vars(0x85a0_7b5f, 0xe503_0380, 0x2b42_09f5, 0x0440_9a6a,
                   0x0c65_7a79, 0x9b27_a401, 0x7142_60ad, 0x43ad_a245);
    AbcStep(b, 4, v4, 0x3956_c25b, 0x0000_0000, v5);
    AbcStep(b, 5, v5, 0x59f1_11f1, 0x0000_0000, v6);
    AbcStep(b, 6, v6, 0x923f_82a4, 0x0000_0000, v7);
    AbcStep(b, 7, v7, 0xab1c_5ed5, 0x0000_0000, v8);
  }

  lemma AbcRounds12(b: Block)
    requires b == AbcBlock()
    ensures AbcRounds(b, 12, Vars(0xf71f_c5a9, 0x4798_a3f4, 0x8c87_346b, 0x8e04_ecb9,
                                  0x816f_d6e9, 0x436b_23e8, 0x1cc9_2596, 0x32ca_2d8c))
  {
    hide AbcRounds, AbcBlock, Schedule;
    AbcRounds8(b);
    AbcWords0(b);
    var v8 := Vars(0x85a0_7b5f, 0xe503_0380, 0x2b42_09f5, 0x0440_9a6a,
                   0x0c65_7a79, 0x9b27_a401, 0x7142_60ad, 0x43ad_a245);
    var v9 := Vars(0x8e04_ecb9, 0x85a0_7b5f, 0xe503_0380, 0x2b42_09f5,
                   0x32ca_2d8c, 0x0c65_7a79, 0x9b27_a401, 0x7142_60ad);
    var v10 := Vars(0x8c87_346b, 0x8e04_ecb9, 0x85a0_7b5f, 0xe503_0380,
                    0x1cc9_2596, 0x32ca_2d8c, 0x0c65_7a79, 0x9b27_a401);
    var v11 := Vars(0x4798_a3f4, 0x8c87_346b, 0x8e04_ecb9, 0x85a0_7b5f,
                    0x436b_23e8, 0x1cc9_2596, 0x32ca_2d8c, 0x0c65_7a79);
    var v12 := Vars(0xf71f_c5a9, 0x4798_a3f4, 0x8c87_346b, 0x8e04_ecb9,
                    0x816f_d6e9, 0x436b_23e8, 0x1cc9_2596, 0x32ca_2d8c);
    AbcStep(b, 8, v8, 0xd807_aa98, 0x0000_0000, v9);
    AbcStep(b, 9, v9, 0x1283_5b01, 0x0000_0000, v10);
    AbcStep(b, 10, v10, 0x2431_85be, 0x0000_0000, v11);
    AbcStep(b, 11, v11, 0x550c_7dc3, 0x0000_0000, v12);
  }

  lemma AbcRounds16(b: Block)
    requires b == AbcBlock()
    ensures AbcRounds(b, 16, Vars(0xb0fa_238e, 0xc064_5fde, 0xd932_eb16, 0x8791_2990,
                                  0x0759_0dcd, 0x0b92_f20c, 0x745a_48de, 0x1e57_8218))
  {
    hide AbcRounds, AbcBlock, Schedule;
    AbcRounds12(b);
    AbcWords0(b);
    var v12 := Vars(0xf71f_c5a9, 0x4798_a3f4, 0x8c87_346b, 0x8e04_ecb9,
                    0x816f_d6e9, 0x436b_23e8, 0x1cc9_2596, 0x32ca_2d8c);
    var v13 := Vars(0x8791_2990, 0xf71f_c5a9, 0x4798_a3f4, 0x8c87_346b,
                    0x1e57_8218, 0x816f_d6e9, 0x436b_23e8, 0x1cc9_2596);
    var v14 := Vars(0xd932_eb16, 0x8791_2990, 0xf71f_c5a9, 0x4798_a3f4,
                    0x745a_48de, 0x1e57_8218, 0x816f_d6e9, 0x436b_23e8);
    var v15 := Vars(0xc064_5fde, 0xd932_eb16, 0x8791_2990, 0xf71f_c5a9,
                    0x0b92_f20c, 0x745a_48de, 0x1e57_8218, 0x816f_d6e9);
    var v16 := Vars(0xb0fa_238e, 0xc064_5fde, 0xd932_eb16, 0x8791_2990,
                    0x0759_0dcd, 0x0b92_f20c, 0x745a_48de, 0x1e57_8218);
    AbcStep(b, 12, v12, 0x72be_5d74, 0x0000_0000, v13);
    AbcStep(b, 13, v13, 0x80de_b1fe, 0x0000_0000, v14);
    AbcStep(b, 14, v14, 0x9bdc_06a7, 0x0000_0000, v15);
    AbcStep(b, 15, v15, 0xc19b_f174, 0x0000_0018, v16);
  }

  lemma AbcRounds20(b: Block)
    requires b == AbcBlock()
    ensures AbcRounds(b, 20, Vars(0xe1f2_0c33, 0xfe77_7bbf, 0xc2fb_d9d1, 0x21da_9a9b,
                                  0xb063_8179, 0xcc89_9961, 0x846e_e454, 0x8034_229c))
  {
    hide AbcRounds, AbcBlock, Schedule;
    AbcRounds16(b);
    AbcWords16(b);
    var v16 := Vars(0xb0fa_238e, 0xc064_5fde, 0xd932_eb16, 0x8791_2990,
                    0x0759_0dcd, 0x0b92_f20c, 0x745a_48de, 0x1e57_8218);
    var v17 := Vars(0x21da_9a9b, 0xb0fa_238e, 0xc064_5fde, 0xd932_eb16,
                    0x8034_229c, 0x0759_0dcd, 0x0b92_f20c, 0x745a_48de);
    var v18 := Vars(0xc2fb_d9d1, 0x21da_9a9b, 0xb0fa_238e, 0xc064_5fde,
                    0x846e_e454, 0x8034_229c, 0x0759_0dcd, 0x0b92_f20c);
    var v19 := Vars(0xfe77_7bbf, 0xc2fb_d9d1, 0x21da_9a9b, 0xb0fa_238e,
                    0xcc89_9961, 0x846e_e454, 0x8034_229c, 0x0759_0dcd);
    var v20 := Vars(0xe1f2_0c33, 0xfe77_7bbf, 0xc2fb_d9d1, 0x21da_9a9b,
                    0xb063_8179, 0xcc89_9961, 0x846e_e454, 0x8034_229c);
    AbcStep(b, 16, v16, 0xe49b_69c1, 0x6162_6380, v17);
    AbcStep(b, 17, v17, 0xefbe_4786, 0x000f_0000, v18);
    AbcStep(b, 18, v18, 0x0fc1_9dc6, 0x7da8_6405, v19);
    AbcStep(b, 19, v19, 0x240c_a1cc, 0x6000_03c6, v20);
  }

  lemma AbcRounds24(b: Block)
    requires b == AbcBlock()
    ensures AbcRounds(b, 24, Vars(0xc5d5_3d8d, 0xa7a3_623f, 0xc260_6d6d, 0x9dc6_8b63,
                                  0xaa47_c347, 0x49f5_114a, 0xe125_7970, 0x8ada_8930))
  {
    hide AbcRounds, AbcBlock, Schedule;
    AbcRounds20(b);
    AbcWords16(b);
    var v20 := Vars(0xe1f2_0c33, 0xfe77_7bbf, 0xc2fb_d9d1, 0x21da_9a9b,
                    0xb063_8179, 0xcc89_9961, 0x846e_e454, 0x8034_229c);
    var v21 := Vars(0x9dc6_8b63, 0xe1f2_0c33, 0xfe77_7bbf, 0xc2fb_d9d1,
                    0x8ada_8930, 0xb063_8179, 0xcc89_9961, 0x846e_e454);
    var v22 := Vars(0xc260_6d6d, 0x9dc6_8b63, 0xe1f2_0c33, 0xfe77_7bbf,
                    0xe125_7970, 0x8ada_8930, 0xb063_8179, 0xcc89_9961);
    var v23 := Vars(0xa7a3_623f, 0xc260_6d6d, 0x9dc6_8b63, 0xe1f2_0c33,
                    0x49f5_114a, 0xe125_7970, 0x8ada_8930, 0xb063_8179);
    var v24 := Vars(0xc5d5_3d8d, 0xa7a3_623f, 0xc260_6d6d, 0x9dc6_8b63,
                    0xaa47_c347, 0x49f5_114a, 0xe125_7970, 0x8ada_8930);
    AbcStep(b, 20, v20, 0x2de9_2c6f, 0x3e9d_7b78, v21);
    AbcStep(b, 21, v21, 0x4a74_84aa, 0x0183_fc00, v22);
    AbcStep(b, 22, v22, 0x5cb0_a9dc, 0x12dc_bfdb, v23);
    AbcStep(b, 23, v23, 0x76f9_88da, 0xe2e2_c38e, v24);
  }

  lemma AbcRounds28(b: Block)
    requires b == AbcBlock()
    ensures AbcRounds(b, 28, Vars(0x77d3_7528, 0xb62e_c4bc, 0xcde8_037d, 0x1c2c_2838,
                                  0xedff_bff8, 0xc74c_6516, 0x1438_3d8e, 0x2823_ef91))
  {
    hide AbcRounds, AbcBlock, Schedule;
    AbcRounds24(b);
    AbcWords24(b);
    var v24 := Vars(0xc5d5_3d8d, 0xa7a3_623f, 0xc260_6d6d, 0x9dc6_8b63,
                    0xaa47_c347, 0x49f5_114a, 0xe125_7970, 0x8ada_8930);
    var v25 := Vars(0x1c2c_2838, 0xc5d5_3d8d, 0xa7a3_623f, 0xc260_6d6d,
                    0x2823_ef91, 0xaa47_c347, 0x49f5_114a, 0xe125_7970);
    var v26 := Vars(0xcde8_037d, 0x1c2c_2838, 0xc5d5_3d8d, 0xa7a3_623f,
                    0x1438_3d8e, 0x2823_ef91, 0xaa47_c347, 0x49f5_114a);
    var v27 := Vars(0xb62e_c4bc, 0xcde8_037d, 0x1c2c_2838, 0xc5d5_3d8d,
                    0xc74c_6516, 0x1438_3d8e, 0x2823_ef91, 0xaa47_c347);
    var v28 := Vars(0x77d3_7528, 0xb62e_c4bc, 0xcde8_037d, 0x1c2c_2838,
                    0xedff_bff8, 0xc74c_6516, 0x1438_3d8e, 0x2823_ef91);
    AbcStep(b, 24, v24, 0x983e_5152, 0xc821_5c1a, v25);
    AbcStep(b, 25, v25, 0xa831_c66d, 0xb736_79a2, v26);
    AbcStep(b, 26, v26, 0xb003_27c8, 0xe5bc_3909, v27);
    AbcStep(b, 27, v27, 0xbf59_7fc7, 0x3266_3c5b, v28);
  }

  lemma AbcRounds32(b: Block)
    requires b == AbcBlock()
    ensures AbcRounds(b, 32, Vars(0x73b3_3bf5, 0xea99_2a22, 0xa006_0b30, 0x3634_82c9,
                                  0xba59_1112, 0x0109_ab3a, 0xade7_9437, 0x6112_a3b7))
  {
    hide AbcRounds, AbcBlock, Schedule;
    AbcRounds28(b);
    AbcWords24(b);
    var v28 := Vars(0x77d3_7528, 0xb62e_c4bc, 0xcde8_037d, 0x1c2c_2838,
                    0xedff_bff8, 0xc74c_6516, 0x1438_3d8e, 0x2823_ef91);
    var v29 := Vars(0x3634_82c9, 0x77d3_7528, 0xb62e_c4bc, 0xcde8_037d,
                    0x6112_a3b7, 0xedff_bff8, 0xc74c_6516, 0x1438_3d8e);
    var v30 := Vars(0xa006_0b30, 0x3634_82c9, 0x77d3_7528, 0xb62e_c4bc,
                    0xade7_9437, 0x6112_a3b7, 0xedff_bff8, 0xc74c_6516);
    var v31 := Vars(0xea99_2a22, 0xa006_0b30, 0x3634_82c9, 0x77d3_7528,
                    0x0109_ab3a, 0xade7_9437, 0x6112_a3b7, 0xedff_bff8);
    var v32 := Vars(0x73b3_3bf5, 0xea99_2a22, 0xa006_0b30, 0x3634_82c9,
                    0xba59_1112, 0x0109_ab3a, 0xade7_9437, 0x6112_a3b7);
    AbcStep(b, 28, v28, 0xc6e0_0bf3, 0x9d20_9d67, v29);
    AbcStep(b, 29, v29, 0xd5a7_9147, 0xec87_26cb, v30);
    AbcStep(b, 30, v30, 0x06ca_6351, 0x7021_38a4, v31);
    AbcStep(b, 31, v31, 0x1429_2967, 0xd3b7_973b, v32);
  }

  lemma AbcRounds36(b: Block)
    requires b == AbcBlock()
    ensures AbcRounds(b, 36, Vars(0x65a0_cfe4, 0xa9a7_738c, 0xfe60_4df5, 0x98e1_2507,
                                  0xf4b0_02d6, 0x085f_3833, 0x5924_9dd3, 0x9cd9_f5f6))
  {
    hide AbcRounds, AbcBlock, Schedule;
    AbcRounds32(b);
    AbcWords32(b);
    var v32 := Vars(0x73b3_3bf5, 0xea99_2a22, 0xa006_0b30, 0x3634_82c9,
                    0xba59_1112, 0x0109_ab3a, 0xade7_9437, 0x6112_a3b7);
    var v33 := Vars(0x98e1_2507, 0x73b3_3bf5, 0xea99_2a22, 0xa006_0b30,
                    0x9cd9_f5f6, 0xba59_1112, 0x0109_ab3a, 0xade7_9437);
    var v34 := Vars(0xfe60_4df5, 0x98e1_2507, 0x73b3_3bf5, 0xea99_2a22,
                    0x5924_9dd3, 0x9cd9_f5f6, 0xba59_1112, 0x0109_ab3a);
    var v35 := Vars(0xa9a7_738c, 0xfe60_4df5, 0x98e1_2507, 0x73b3_3bf5,
                    0x085f_3833, 0x5924_9dd3, 0x9cd9_f5f6, 0xba59_1112);
    var v36 := Vars(0x65a0_cfe4, 0xa9a7_738c, 0xfe60_4df5, 0x98e1_2507,
                    0xf4b0_02d6, 0x085f_3833, 0x5924_9dd3, 0x9cd9_f5f6);
    AbcStep(b, 32, v32, 0x27b7_0a85, 0x93f5_997f, v33);
    AbcStep(b, 33, v33, 0x2e1b_2138, 0x3b68_ba73, v34);
    AbcStep(b, 34, v34, 0x4d2c_6dfc, 0xaff4_ffc1, v35);
    AbcStep(b, 35, v35, 0x5338_0d13, 0xf10a_5c62, v36);
  }

  lemma AbcRounds40(b: Block)
    requires b == AbcBlock()
    ensures AbcRounds(b, 40, Vars(0x79ea_687a, 0x6dc5_7a8a, 0x34df_1604, 0x41a6_5cb1,
                                  0x1efb_c0a0, 0xf078_1bc8, 0xa507_a53d, 0x0772_a26b))
  {
    hide AbcRounds, AbcBlock, Schedule;
    AbcRounds36(b);
    AbcWords32(b);
    var v36 := Vars(0x65a0_cfe4, 0xa9a7_738c, 0xfe60_4df5, 0x98e1_2507,
                    0xf4b0_02d6, 0x085f_3833, 0x5924_9dd3, 0x9cd9_f5f6);
    var v37 := Vars(0x41a6_5cb1, 0x65a0_cfe4, 0xa9a7_738c, 0xfe60_4df5,
                    0x0772_a26b, 0xf4b0_02d6, 0x085f_3833, 0x5924_9dd3);
    var v38 := Vars(0x34df_1604, 0x41a6_5cb1, 0x65a0_cfe4, 0xa9a7_738c,
                    0xa507_a53d, 0x0772_a26b, 0xf4b0_02d6, 0x085f_3833);
    var v39 := Vars(0x6dc5_7a8a, 0x34df_1604, 0x41a6_5cb1, 0x65a0_cfe4,
                    0xf078_1bc8, 0xa507_a53d, 0x0772_a26b, 0xf4b0_02d6);
    var v40 := Vars(0x79ea_687a, 0x6dc5_7a8a, 0x34df_1604, 0x41a6_5cb1,
                    0x1efb_c0a0, 0xf078_1bc8, 0xa507_a53d, 0x0772_a26b);
    AbcStep(b, 36, v36, 0x650a_7354, 0x0a8b_3996, v37);
    AbcStep(b, 37, v37, 0x766a_0abb, 0x72af_830a, v38);
    AbcStep(b, 38, v38, 0x81c2_c92e, 0x9409_e33e, v39);
    AbcStep(b, 39, v39, 0x9272_2c85, 0x2464_1522, v40);
  }

  lemma AbcRounds44(b: Block)
    requires b == AbcBlock()
    ensures AbcRounds(b, 44, Vars(0x9d4b_af93, 0x17aa_0dfe, 0xdf46_652f, 0xd667_0766,
                                  0xfda2_4c2e, 0xdecd_4715, 0x838b_2711, 0x2635_2d63))
  {
    hide AbcRounds, AbcBlock, Schedule;
    AbcRounds40(b);
    AbcWords40(b);
    var v40 := Vars(0x79ea_687a, 0x6dc5_7a8a, 0x34df_1604, 0x41a6_5cb1,
                    0x1efb_c0a0, 0xf078_1bc8, 0xa507_a53d, 0x0772_a26b);
    var v41 := Vars(0xd667_0766, 0x79ea_687a, 0x6dc5_7a8a, 0x34df_1604,
                    0x2635_2d63, 0x1efb_c0a0, 0xf078_1bc8, 0xa507_a53d);
    var v42 := Vars(0xdf46_652f, 0xd667_0766, 0x79ea_687a, 0x6dc5_7a8a,
                    0x838b_2711, 0x2635_2d63, 0x1efb_c0a0, 0xf078_1bc8);
    var v43 := Vars(0x17aa_0dfe, 0xdf46_652f, 0xd667_0766, 0x79ea_687a,
                    0xdecd_4715, 0x838b_2711, 0x2635_2d63, 0x1efb_c0a0);
    var v44 := Vars(0x9d4b_af93, 0x17aa_0dfe, 0xdf46_652f, 0xd667_0766,
                    0xfda2_4c2e, 0xdecd_4715, 0x838b_2711, 0x2635_2d63);
    AbcStep(b, 40, v40, 0xa2bf_e8a1, 0x9f47_bf94, v41);
    AbcStep(b, 41, v41, 0xa81a_664b, 0xf0a6_4f5a, v42);
    AbcStep(b, 42, v42, 0xc24b_8b70, 0x3e24_6a79, v43);
    AbcStep(b, 43, v43, 0xc76c_51a3, 0x2733_3ba3, v44);
  }

  lemma AbcRounds48(b: Block)
    requires b == AbcBlock()
    ensures AbcRounds(b, 48, Vars(0x4172_328d, 0xa14c_14b0, 0x72ab_4b91, 0x2662_8815,
                                  0xfecf_0bc6, 0xd57b_94a9, 0xb775_5da1, 0xa80f_11f0))
  {
    hide AbcRounds, AbcBlock, Schedule;
    AbcRounds44(b);
    AbcWords40(b);
    var v44 := Vars(0x9d4b_af93, 0x17aa_0dfe, 0xdf46_652f, 0xd667_0766,
                    0xfda2_4c2e, 0xdecd_4715, 0x838b_2711, 0x2635_2d63);
    var v45 := Vars(0x2662_8815, 0x9d4b_af93, 0x17aa_0dfe, 0xdf46_652f,
                    0xa80f_11f0, 0xfda2_4c2e, 0xdecd_4715, 0x838b_2711);
    var v46 := Vars(0x72ab_4b91, 0x2662_8815, 0x9d4b_af93, 0x17aa_0dfe,
                    0xb775_5da1, 0xa80f_11f0, 0xfda2_4c2e, 0xdecd_4715);
    var v47 := Vars(0xa14c_14b0, 0x72ab_4b91, 0x2662_8815, 0x9d4b_af93,
                    0xd57b_94a9, 0xb775_5da1, 0xa80f_11f0, 0xfda2_4c2e);
    var v48 := Vars(0x4172_328d, 0xa14c_14b0, 0x72ab_4b91, 0x2662_8815,
                    0xfecf_0bc6, 0xd57b_94a9, 0xb775_5da1, 0xa80f_11f0);
    AbcStep(b, 44, v44, 0xd192_e819, 0x0c47_63f2, v45);
    AbcStep(b, 45, v45, 0xd699_0624, 0x840a_bf27, v46);
    AbcStep(b, 46, v46, 0xf40e_3585, 0x7a29_0d5d, v47);
    AbcStep(b, 47, v47, 0x106a_a070, 0x065c_43da, v48);
  }

  lemma AbcRounds52(b: Block)
    requires b == AbcBlock()
    ensures AbcRounds(b, 52, Vars(0x886e_7a22, 0x7a05_08a1, 0xf11b_faa8, 0x0575_7ceb,
                                  0x4923_1c1e, 0x52f1_ccf7, 0x6e5c_390c, 0xbd71_4038))
  {
    hide AbcRounds, AbcBlock, Schedule;
    AbcRounds48(b);
    AbcWords48(b);
    var v48 := Vars(0x4172_328d, 0xa14c_14b0, 0x72ab_4b91, 0x2662_8815,
                    0xfecf_0bc6, 0xd57b_94a9, 0xb775_5da1, 0xa80f_11f0);
    var v49 := Vars(0x0575_7ceb, 0x4172_328d, 0xa14c_14b0, 0x72ab_4b91,
                    0xbd71_4038, 0xfecf_0bc6, 0xd57b_94a9, 0xb775_5da1);
    var v50 := Vars(0xf11b_faa8, 0x0575_7ceb, 0x4172_328d, 0xa14c_14b0,
                    0x6e5c_390c, 0xbd71_4038, 0xfecf_0bc6, 0xd57b_94a9);
    var v51 := Vars(0x7a05_08a1, 0xf11b_faa8, 0x0575_7ceb, 0x4172_328d,
                    0x52f1_ccf7, 0x6e5c_390c, 0xbd71_4038, 0xfecf_0bc6);
    var v52 := Vars(0x886e_7a22, 0x7a05_08a1, 0xf11b_faa8, 0x0575_7ceb,
                    0x4923_1c1e, 0x52f1_ccf7, 0x6e5c_390c, 0xbd71_4038);
    AbcStep(b, 48, v48, 0x19a4_c116, 0xfb3e_89cb, v49);
    AbcStep(b, 49, v49, 0x1e37_6c08, 0xcc76_17db, v50);
    AbcStep(b, 50, v50, 0x2748_774c, 0xb9e6_6c34, v51);
    AbcStep(b, 51, v51, 0x34b0_bcb5, 0xa999_3667, v52);
  }

  lemma AbcRounds56(b: Block)
    requires b == AbcBlock()
    ensures AbcRounds(b, 56, Vars(0x38cc_9913, 0x3ec4_5cdb, 0xf570_2fdb, 0x101f_d28f,
                                  0x54cb_266b, 0xe50e_1b4f, 0x9f47_87c3, 0x529e_7d00))
  {
    hide AbcRounds, AbcBlock, Schedule;
    AbcRounds52(b);
    AbcWords48(b);
    var v52 := Vars(0x886e_7a22, 0x7a05_08a1, 0xf11b_faa8, 0x0575_7ceb,
                    0x4923_1c1e, 0x52f1_ccf7, 0x6e5c_390c, 0xbd71_4038);
    var v53 := Vars(0x101f_d28f, 0x886e_7a22, 0x7a05_08a1, 0xf11b_faa8,
                    0x529e_7d00, 0x4923_1c1e, 0x52f1_ccf7, 0x6e5c_390c);
    var v54 := Vars(0xf570_2fdb, 0x101f_d28f, 0x886e_7a22, 0x7a05_08a1,
                    0x9f47_87c3, 0x529e_7d00, 0x4923_1c1e, 0x52f1_ccf7);
    var v55 := Vars(0x3ec4_5cdb, 0xf570_2fdb, 0x101f_d28f, 0x886e_7a22,
                    0xe50e_1b4f, 0x9f47_87c3, 0x529e_7d00, 0x4923_1c1e);
    var v56 := Vars(0x38cc_9913, 0x3ec4_5cdb, 0xf570_2fdb, 0x101f_d28f,
                    0x54cb_266b, 0xe50e_1b4f, 0x9f47_87c3, 0x529e_7d00);
    AbcStep(b, 52, v52, 0x391c_0cb3, 0x84ba_dedd, v53);
    AbcStep(b, 53, v53, 0x4ed8_aa4a, 0xc214_62bc, v54);
    AbcStep(b, 54, v54, 0x5b9c_ca4f, 0x1487_472c, v55);
    AbcStep(b, 55, v55, 0x682e_6ff3, 0xb20f_7a99, v56);
  }

  lemma AbcRounds60(b: Block)
    requires b == AbcBlock()
    ensures AbcRounds(b, 60, Vars(0xb6ae_8fff, 0xffb7_0472, 0xc062_d46f, 0xfcd1_887b,
                                  0xb21b_ad3d, 0x6d83_bfc6, 0x7e44_008e, 0x9b5e_906c))
  {
    hide AbcRounds, AbcBlock, Schedule;
    AbcRounds56(b);
    AbcWords56(b);
    var v56 := Vars(0x38cc_9913, 0x3ec4_5cdb, 0xf570_2fdb, 0x101f_d28f,
                    0x54cb_266b, 0xe50e_1b4f, 0x9f47_87c3, 0x529e_7d00);
    var v57 := Vars(0xfcd1_887b, 0x38cc_9913, 0x3ec4_5cdb, 0xf570_2fdb,
                    0x9b5e_906c, 0x54cb_266b, 0xe50e_1b4f, 0x9f47_87c3);
    var v58 := Vars(0xc062_d46f, 0xfcd1_887b, 0x38cc_9913, 0x3ec4_5cdb,
                    0x7e44_008e, 0x9b5e_906c, 0x54cb_266b, 0xe50e_1b4f);
    var v59 := Vars(0xffb7_0472, 0xc062_d46f, 0xfcd1_887b, 0x38cc_9913,
                    0x6d83_bfc6, 0x7e44_008e, 0x9b5e_906c, 0x54cb_266b);
    var v60 := Vars(0xb6ae_8fff, 0xffb7_0472, 0xc062_d46f, 0xfcd1_887b,
                    0xb21b_ad3d, 0x6d83_bfc6, 0x7e44_008e, 0x9b5e_906c);
    AbcStep(b, 56, v56, 0x748f_82ee, 0xef57_b9cd, v57);
    AbcStep(b, 57, v57, 0x78a5_636f, 0xebe6_b238, v58);
    AbcStep(b, 58, v58, 0x84c8_7814, 0x9fe3_095e, v59);
    AbcStep(b, 59, v59, 0x8cc7_0208, 0x78bc_8d4b, v60);
  }

  lemma AbcRounds64(b: Block)
    requires b == AbcBlock()
    ensures AbcRounds(b, 64, Vars(0x506e_3058, 0xd39a_2165, 0x04d2_4d6c, 0xb85e_2ce9,
                                  0x5ef5_0f24, 0xfb12_1210, 0x948d_25b6, 0x961f_4894))
  {
    hide AbcRounds, AbcBlock, Schedule;
    AbcRounds60(b);
    AbcWords56(b);
    var v60 := Vars(0xb6ae_8fff, 0xffb7_0472, 0xc062_d46f, 0xfcd1_887b,
                    0xb21b_ad3d, 0x6d83_bfc6, 0x7e44_008e, 0x9b5e_906c);
    var v61 := Vars(0xb85e_2ce9, 0xb6ae_8fff, 0xffb7_0472, 0xc062_d46f,
                    0x961f_4894, 0xb21b_ad3d, 0x6d83_bfc6, 0x7e44_008e);
    var v62 := Vars(0x04d2_4d6c, 0xb85e_2ce9, 0xb6ae_8fff, 0xffb7_0472,
                    0x948d_25b6, 0x961f_4894, 0xb21b_ad3d, 0x6d83_bfc6);
    var v63 := Vars(0xd39a_2165, 0x04d2_4d6c, 0xb85e_2ce9, 0xb6ae_8fff,
                    0xfb12_1210, 0x948d_25b6, 0x961f_4894, 0xb21b_ad3d);
    var v64 := Vars(0x506e_3058, 0xd39a_2165, 0x04d2_4d6c, 0xb85e_2ce9,
                    0x5ef5_0f24, 0xfb12_1210, 0x948d_25b6, 0x961f_4894);
    AbcStep(b, 60, v60, 0x90be_fffa, 0xa43f_cf15, v61);
    AbcStep(b, 61, v61, 0xa450_6ceb, 0x668b_2ff8, v62);
    AbcStep(b, 62, v62, 0xbef9_a3f7, 0xeeab_a2cc, v63);
    AbcStep(b, 63, v63, 0xc671_78f2, 0x12b1_edeb, v64);
  }

  lemma AbcState(b: Block)
    requires b == AbcBlock()
    ensures Compress(H0, b) == [0xba78_16bf, 0x8f01_cfea, 0x4141_40de, 0x5dae_2223,
                                0xb003_61a3, 0x9617_7a9c, 0xb410_ff61, 0xf200_15ad]
  {
    hide Rounds, AbcBlock;
    AbcRounds64(b);
  }

  // The digest of the three letters "abc" is the one published with the standard.
  lemma AbcDigest()
    ensures Hash(ABC) == [
      0xba, 0x78, 0x16, 0xbf, 0x8f, 0x01, 0xcf, 0xea, 0x41, 0x41, 0x40, 0xde, 0x5d, 0xae, 0x22, 0x23,
      0xb0, 0x03, 0x61, 0xa3, 0x96, 0x17, 0x7a, 0x9c, 0xb4, 0x10, 0xff, 0x61, 0xf2, 0x00, 0x15, 0xad]
  {
    hide Compress, Padding;
    AbcState(AbcBlock());
    assert ABC + Padding(3) == AbcBlock();
    assert AbcBlock()[0..64] == AbcBlock();
    assert FoldBlocks(H0, AbcBlock(), 1) == Compress(FoldBlocks(H0, AbcBlock(), 0), AbcBlock());
  }
}
