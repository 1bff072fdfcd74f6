// The AES block cipher on expanded keys (FIPS 197, sections 5.1 and 5.3).
module Aes {
  import opened Bytes
  import opened AesTables
  import opened AesColumns

  const AES_BLOCK_SIZE: nat := 16

  type Block = b: seq<Byte> | |b| == AES_BLOCK_SIZE witness seq(16, i => 0)

  // The state: four columns of four bytes.
  type Grid = g: seq<Column> | |g| == 4 witness [ZERO, ZERO, ZERO, ZERO]

  const ZERO: Column := Column(0, 0, 0, 0)

  // The input fills the state column by column.
  function GridOf(b: Block): Grid {
    [Column(b[0], b[1], b[2], b[3]), Column(b[4], b[5], b[6], b[7]),
     Column(b[8], b[9], b[10], b[11]), Column(b[12], b[13], b[14], b[15])]
  }

  function ColumnBytes(c: Column): (s: seq<Byte>)
    ensures |s| == 4
  {
    [c.b0, c.b1, c.b2, c.b3]
  }

  function BlockOf(g: Grid): Block {
    ColumnBytes(g[0]) + ColumnBytes(g[1]) + ColumnBytes(g[2]) + ColumnBytes(g[3])
  }

  // ---- the steps of a round ----

  function AddKeyColumn(c: Column, w: bv32): Column {
    Column(Xor8(c.b0, Byte3(w)), Xor8(c.b1, Byte2(w)), Xor8(c.b2, Byte1(w)), Xor8(c.b3, Byte0(w)))
  }

  function AddKey(g: Grid, k: seq<bv32>): Grid
    requires |k| == 4
  {
    [AddKeyColumn(g[0], k[0]), AddKeyColumn(g[1], k[1]), AddKeyColumn(g[2], k[2]), AddKeyColumn(g[3], k[3])]
  }

  function SubColumn(c: Column): Column { Column(Sbox(c.b0), Sbox(c.b1), Sbox(c.b2), Sbox(c.b3)) }

  function InvSubColumn(c: Column): Column { Column(InvSbox(c.b0), InvSbox(c.b1), InvSbox(c.b2), InvSbox(c.b3)) }

  function Sub(g: Grid): Grid {
    hide SubColumn;
    [SubColumn(g[0]), SubColumn(g[1]), SubColumn(g[2]), SubColumn(g[3])]
  }

  function InvSub(g: Grid): Grid {
    hide InvSubColumn;
    [InvSubColumn(g[0]), InvSubColumn(g[1]), InvSubColumn(g[2]), InvSubColumn(g[3])]
  }

  // Row r moves r places to the left.
  function Shift(g: Grid): Grid {
    [Column(g[0].b0, g[1].b1, g[2].b2, g[3].b3), Column(g[1].b0, g[2].b1, g[3].b2, g[0].b3),
     Column(g[2].b0, g[3].b1, g[0].b2, g[1].b3), Column(g[3].b0, g[0].b1, g[1].b2, g[2].b3)]
  }

  function InvShift(g: Grid): Grid {
    [Column(g[0].b0, g[3].b1, g[2].b2, g[1].b3), Column(g[1].b0, g[0].b1, g[3].b2, g[2].b3),
     Column(g[2].b0, g[1].b1, g[0].b2, g[3].b3), Column(g[3].b0, g[2].b1, g[1].b2, g[0].b3)]
  }

  function Mix(g: Grid): Grid { hide MixColumn; [MixColumn(g[0]), MixColumn(g[1]), MixColumn(g[2]), MixColumn(g[3])] }

  function InvMix(g: Grid): Grid {
    [InvMixColumn(g[0]), InvMixColumn(g[1]), InvMixColumn(g[2]), InvMixColumn(g[3])]
  }

  // ---- each step has its inverse ----

  lemma AddKeyColumnTwice(c: Column, w: bv32)
    ensures AddKeyColumn(AddKeyColumn(c, w), w) == c
  {
    hide Xor8, Byte3, Byte2, Byte1, Byte0;
    XorTwice(c.b0, Byte3(w));
    XorTwice(c.b1, Byte2(w));
    XorTwice(c.b2, Byte1(w));
    XorTwice(c.b3, Byte0(w));
  }

  lemma XorTwice(a: Byte, b: Byte)
    ensures Xor8(Xor8(a, b), b) == a
  {
  }

  lemma AddKeyTwice(g: Grid, k: seq<bv32>)
    requires |k| == 4
    ensures AddKey(AddKey(g, k), k) == g
  {
    hide AddKeyColumn;
    AddKeyColumnTwice(g[0], k[0]);
    AddKeyColumnTwice(g[1], k[1]);
    AddKeyColumnTwice(g[2], k[2]);
    AddKeyColumnTwice(g[3], k[3]);
  }

  lemma InvSubOfSubColumn(c: Column)
    ensures InvSubColumn(SubColumn(c)) == c
  {
    hide Sbox, InvSbox;
    InvSboxOfSbox(c.b0);
    InvSboxOfSbox(c.b1);
    InvSboxOfSbox(c.b2);
    InvSboxOfSbox(c.b3);
  }

  lemma InvSubOfSub(g: Grid)
    ensures InvSub(Sub(g)) == g
  {
    hide SubColumn, InvSubColumn;
    InvSubOfSubColumn(g[0]);
    InvSubOfSubColumn(g[1]);
    InvSubOfSubColumn(g[2]);
    InvSubOfSubColumn(g[3]);
  }

  lemma InvShiftOfShift(g: Grid)
    ensures InvShift(Shift(g)) == g
  {
  }

  lemma InvMixOfMixGrid(g: Grid)
    ensures InvMix(Mix(g)) == g
  {
    hide MixColumn, InvMixColumn;
    InvMixOfMix(g[0]);
    InvMixOfMix(g[1]);
    InvMixOfMix(g[2]);
    InvMixOfMix(g[3]);
  }

  lemma BlockRoundTrip(b: Block, g: Grid)
    ensures BlockOf(GridOf(b)) == b
    ensures GridOf(BlockOf(g)) == g
  {
  }

  // ---- the cipher ----

  // The number of rounds the two directions choose for a key size.
  function EncryptRounds(keySize: int): (n: nat)
    ensures n == 10 || n == 12 || n == 14
  {
    if keySize != 128 then if keySize != 192 then 14 else 12 else 10
  }

  function DecryptRounds(keySize: int): (n: nat)
    ensures n == 10 || n == 12 || n == 14
  {
    if keySize > 128 then if keySize > 192 then 14 else 12 else 10
  }

  function RoundKey(key: seq<bv32>, i: nat): (k: seq<bv32>)
    requires 4 * i + 4 <= |key|
    ensures |k| == 4
  {
    key[4 * i..4 * i + 4]
  }

  // The state after round i.
  function Rounds(g: Grid, key: seq<bv32>, i: nat): Grid
    requires 4 * i + 4 <= |key|
  {
    if i == 0 then AddKey(g, RoundKey(key, 0))
    else AddKey(Mix(Shift(Sub(Rounds(g, key, i - 1)))), RoundKey(key, i))
  }

  function EncryptGrid(g: Grid, key: seq<bv32>, n: nat): Grid
    requires n > 0 && 4 * n + 4 <= |key|
  {
    AddKey(Shift(Sub(Rounds(g, key, n - 1))), RoundKey(key, n))
  }

  // The state of the decryption when the rounds from n down to i have been undone.
  function Undone(g: Grid, key: seq<bv32>, n: nat, i: nat): Grid
    requires 0 < i <= n && 4 * n + 4 <= |key|
    decreases n - i
  {
    if i == n then AddKey(g, RoundKey(key, n))
    else InvMix(AddKey(InvSub(InvShift(Undone(g, key, n, i + 1))), RoundKey(key, i)))
  }

  function DecryptGrid(g: Grid, key: seq<bv32>, n: nat): Grid
    requires n > 0 && 4 * n + 4 <= |key|
  {
    AddKey(InvSub(InvShift(Undone(g, key, n, 1))), RoundKey(key, 0))
  }

  function Encrypt(b: Block, key: seq<bv32>, keySize: int): Block
    requires 4 * EncryptRounds(keySize) + 4 <= |key|
  {
    BlockOf(EncryptGrid(GridOf(b), key, EncryptRounds(keySize)))
  }

  function Decrypt(b: Block, key: seq<bv32>, keySize: int): Block
    requires 4 * DecryptRounds(keySize) + 4 <= |key|
  {
    BlockOf(DecryptGrid(GridOf(b), key, DecryptRounds(keySize)))
  }

  // Decryption meets the encryption's states on the way back.
  lemma {:induction false} UndoneMeetsRounds(g: Grid, key: seq<bv32>, n: nat, i: nat)
    requires 0 < i <= n && 4 * n + 4 <= |key|
    ensures Undone(EncryptGrid(g, key, n), key, n, i) == Shift(Sub(Rounds(g, key, i - 1)))
    decreases n - i
  {
    hide AddKey, Sub, Shift, Mix, InvSub, InvShift, InvMix, RoundKey;
    if i == n {
      AddKeyTwice(Shift(Sub(Rounds(g, key, n - 1))), RoundKey(key, n));
    } else {
      UndoneMeetsRounds(g, key, n, i + 1);
      var s := Rounds(g, key, i);
      var before := Mix(Shift(Sub(Rounds(g, key, i - 1))));
      InvShiftOfShift(Sub(s));
      InvSubOfSub(s);
      AddKeyTwice(before, RoundKey(key, i));
      InvMixOfMixGrid(Shift(Sub(Rounds(g, key, i - 1))));
    }
  }

  lemma DecryptGridOfEncryptGrid(g: Grid, key: seq<bv32>, n: nat)
    requires n > 0 && 4 * n + 4 <= |key|
    ensures DecryptGrid(EncryptGrid(g, key, n), key, n) == g
  {
    hide AddKey, Sub, Shift, InvSub, InvShift, RoundKey;
    UndoneMeetsRounds(g, key, n, 1);
    var s := Rounds(g, key, 0);
    InvShiftOfShift(Sub(s));
    InvSubOfSub(s);
    AddKeyTwice(g, RoundKey(key, 0));
  }

  // The two directions choose the same number of rounds for 128, 192 and every larger size, and for no
  // other: below 128 and strictly between 128 and 192 they disagree.
  lemma RoundsAgree(keySize: int)
    ensures EncryptRounds(keySize) == DecryptRounds(keySize) <==> keySize == 128 || keySize == 192 || keySize > 192
  {
  }

  // Decryption inverts encryption for every block, every array of round keys and every key size on
  // which the two directions agree, hence for 128, 192 and 256.
  lemma DecryptOfEncrypt(b: Block, key: seq<bv32>, keySize: int)
    requires keySize == 128 || keySize == 192 || keySize > 192
    requires 4 * EncryptRounds(keySize) + 4 <= |key|
    ensures Decrypt(Encrypt(b, key, keySize), key, keySize) == b
  {
    hide EncryptGrid, DecryptGrid, GridOf, BlockOf;
    RoundsAgree(keySize);
    var g := GridOf(b);
    BlockRoundTrip(b, EncryptGrid(g, key, EncryptRounds(keySize)));
    DecryptGridOfEncryptGrid(g, key, EncryptRounds(keySize));
  }
}
