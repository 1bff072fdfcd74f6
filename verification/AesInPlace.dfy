// The cipher as the library runs it, on a 4x4 byte array changed in place.
module AesInPlace {
  import opened Bytes
  import opened AesTables
  import opened AesColumns
  import opened Aes

  ghost predicate IsState(state: array2<Byte>) { state.Length0 == 4 && state.Length1 == 4 }

  ghost function ColumnAt(state: array2<Byte>, c: nat): Column
    requires IsState(state) && c < 4
    reads state
  {
    Column(state[0, c], state[1, c], state[2, c], state[3, c])
  }

  ghost function Cells(state: array2<Byte>): Grid
    requires IsState(state)
    reads state
  {
    [ColumnAt(state, 0), ColumnAt(state, 1), ColumnAt(state, 2), ColumnAt(state, 3)]
  }

  function KeyByte(w: bv32, r: nat): Byte {
    if r == 0 then Byte3(w) else if r == 1 then Byte2(w) else if r == 2 then Byte1(w) else Byte0(w)
  }

  method AddRoundKey(state: array2<Byte>, w: seq<bv32>)
    requires IsState(state) && |w| == 4
    modifies state
    ensures Cells(state) == AddKey(old(Cells(state)), w)
  {
    hide Xor8, Byte3, Byte2, Byte1, Byte0;
    forall r, c | 0 <= r < 4 && 0 <= c < 4 {
      state[r, c] := Xor8(state[r, c], KeyByte(w[c], r));
    }
  }

  method SubBytes(state: array2<Byte>)
    requires IsState(state)
    modifies state
    ensures Cells(state) == Sub(old(Cells(state)))
  {
    hide Sbox;
    forall r, c | 0 <= r < 4 && 0 <= c < 4 {
      state[r, c] := Sbox(state[r, c]);
    }
  }

  method InvSubBytes(state: array2<Byte>)
    requires IsState(state)
    modifies state
    ensures Cells(state) == InvSub(old(Cells(state)))
  {
    hide InvSbox;
    forall r, c | 0 <= r < 4 && 0 <= c < 4 {
      state[r, c] := InvSbox(state[r, c]);
    }
  }

  method StoreRow(state: array2<Byte>, r: nat, a: Byte, b: Byte, c: Byte, d: Byte)
    requires IsState(state) && r < 4
    modifies state
    ensures state[r, 0] == a && state[r, 1] == b && state[r, 2] == c && state[r, 3] == d
    ensures forall q, k :: 0 <= q < 4 && 0 <= k < 4 && q != r ==> state[q, k] == old(state[q, k])
  {
    state[r, 0] := a;
    state[r, 1] := b;
    state[r, 2] := c;
    state[r, 3] := d;
  }

  method ShiftRows(state: array2<Byte>)
    requires IsState(state)
    modifies state
    ensures Cells(state) == Shift(old(Cells(state)))
  {
    StoreRow(state, 1, state[1, 1], state[1, 2], state[1, 3], state[1, 0]);
    StoreRow(state, 2, state[2, 2], state[2, 3], state[2, 0], state[2, 1]);
    StoreRow(state, 3, state[3, 3], state[3, 0], state[3, 1], state[3, 2]);
  }

  method InvShiftRows(state: array2<Byte>)
    requires IsState(state)
    modifies state
    ensures Cells(state) == InvShift(old(Cells(state)))
  {
    StoreRow(state, 1, state[1, 3], state[1, 0], state[1, 1], state[1, 2]);
    StoreRow(state, 2, state[2, 2], state[2, 3], state[2, 0], state[2, 1]);
    StoreRow(state, 3, state[3, 1], state[3, 2], state[3, 3], state[3, 0]);
  }

  method MixColumns(state: array2<Byte>)
    requires IsState(state)
    modifies state
    ensures Cells(state) == Mix(old(Cells(state)))
  {
    hide Xor8, Sum4, Mul02, Mul03, MixColumn;
    for c := 0 to 4
      invariant forall k :: 0 <= k < c ==> ColumnAt(state, k) == MixColumn(old(ColumnAt(state, k)))
      invariant forall k :: c <= k < 4 ==> ColumnAt(state, k) == old(ColumnAt(state, k))
    {
      var col := Column(state[0, c], state[1, c], state[2, c], state[3, c]);
      StoreColumn(state, c, MixColumn(col));
    }
  }

  method InvMixColumns(state: array2<Byte>)
    requires IsState(state)
    modifies state
    ensures Cells(state) == InvMix(old(Cells(state)))
  {
    hide InvMixColumn;
    for c := 0 to 4
      invariant forall k :: 0 <= k < c ==> ColumnAt(state, k) == InvMixColumn(old(ColumnAt(state, k)))
      invariant forall k :: c <= k < 4 ==> ColumnAt(state, k) == old(ColumnAt(state, k))
    {
      var col := Column(state[0, c], state[1, c], state[2, c], state[3, c]);
      StoreColumn(state, c, InvMixColumn(col));
    }
  }

  method StoreColumn(state: array2<Byte>, c: nat, col: Column)
    requires IsState(state) && c < 4
    modifies state
    ensures ColumnAt(state, c) == col
    ensures forall k :: 0 <= k < 4 && k != c ==> ColumnAt(state, k) == old(ColumnAt(state, k))
  {
    state[0, c] := col.b0;
    state[1, c] := col.b1;
    state[2, c] := col.b2;
    state[3, c] := col.b3;
  }

  method LoadState(b: Block) returns (state: array2<Byte>)
    ensures fresh(state) && IsState(state) && Cells(state) == GridOf(b)
  {
    state := new Byte[4, 4]((r, c) requires 0 <= r < 4 && 0 <= c < 4 => b[4 * c + r]);
  }

  method StoreState(state: array2<Byte>) returns (b: Block)
    requires IsState(state)
    ensures b == BlockOf(Cells(state))
  {
    b := seq(16, k requires 0 <= k < 16 && IsState(state) reads state => state[k % 4, k / 4]);
  }

  method EncryptRound(state: array2<Byte>, key: seq<bv32>, i: nat, ghost g: Grid)
    requires IsState(state) && 0 < i && 4 * i + 4 <= |key|
    requires Cells(state) == Rounds(g, key, i - 1)
    modifies state
    ensures Cells(state) == Rounds(g, key, i)
  {
    hide Sub, Shift, Mix, AddKey;
    SubBytes(state);
    ShiftRows(state);
    MixColumns(state);
    AddRoundKey(state, key[4 * i..4 * i + 4]);
  }

  method LastEncryptRound(state: array2<Byte>, key: seq<bv32>, n: nat, ghost g: Grid)
    requires IsState(state) && 0 < n && 4 * n + 4 <= |key|
    requires Cells(state) == Rounds(g, key, n - 1)
    modifies state
    ensures Cells(state) == EncryptGrid(g, key, n)
  {
    hide Sub, Shift, Mix, AddKey;
    SubBytes(state);
    ShiftRows(state);
    AddRoundKey(state, key[4 * n..4 * n + 4]);
  }

  method AesEncrypt(input: Block, key: seq<bv32>, keySize: int) returns (out: Block)
    requires 4 * EncryptRounds(keySize) + 4 <= |key|
    ensures out == Encrypt(input, key, keySize)
  {
    hide AddKey, EncryptGrid, GridOf, BlockOf, Rounds;
    var state := LoadState(input);
    ghost var g := GridOf(input);
    RoundsFirst(g, key);
    AddRoundKey(state, key[0..4]);
    for i := 1 to 10
      invariant Cells(state) == Rounds(g, key, i - 1)
    {
      EncryptRound(state, key, i, g);
    }
    if keySize != 128 {
      EncryptRound(state, key, 10, g);
      EncryptRound(state, key, 11, g);
      if keySize != 192 {
        EncryptRound(state, key, 12, g);
        EncryptRound(state, key, 13, g);
        LastEncryptRound(state, key, 14, g);
      } else {
        LastEncryptRound(state, key, 12, g);
      }
    } else {
      LastEncryptRound(state, key, 10, g);
    }
    out := StoreState(state);
  }

  method DecryptRound(state: array2<Byte>, key: seq<bv32>, ghost n: nat, i: nat, ghost g: Grid)
    requires IsState(state) && 0 < i < n && 4 * n + 4 <= |key|
    requires Cells(state) == Undone(g, key, n, i + 1)
    modifies state
    ensures Cells(state) == Undone(g, key, n, i)
  {
    hide InvSub, InvShift, InvMix, AddKey;
    InvShiftRows(state);
    InvSubBytes(state);
    AddRoundKey(state, key[4 * i..4 * i + 4]);
    InvMixColumns(state);
  }

  method AesDecrypt(input: Block, key: seq<bv32>, keySize: int) returns (out: Block)
    requires 4 * DecryptRounds(keySize) + 4 <= |key|
    ensures out == Decrypt(input, key, keySize)
  {
    hide AddKey, GridOf, BlockOf, InvSub, InvShift, Undone;
    var state := LoadState(input);
    ghost var g, n := GridOf(input), DecryptRounds(keySize);
    UndoneFirst(g, key, n);
    if keySize > 128 {
      if keySize > 192 {
        AddRoundKey(state, key[56..60]);
        DecryptRound(state, key, 14, 13, g);
        DecryptRound(state, key, 14, 12, g);
      } else {
        AddRoundKey(state, key[48..52]);
      }
      DecryptRound(state, key, n, 11, g);
      DecryptRound(state, key, n, 10, g);
    } else {
      AddRoundKey(state, key[40..44]);
    }
    for i := 10 downto 1
      invariant Cells(state) == Undone(g, key, n, i)
    {
      DecryptRound(state, key, n, i, g);
    }
    InvShiftRows(state);
    InvSubBytes(state);
    AddRoundKey(state, key[0..4]);
    out := StoreState(state);
  }

  lemma RoundsFirst(g: Grid, key: seq<bv32>)
    requires |key| >= 4
    ensures Rounds(g, key, 0) == AddKey(g, RoundKey(key, 0))
  {
  }

  lemma UndoneFirst(g: Grid, key: seq<bv32>, n: nat)
    requires 0 < n && 4 * n + 4 <= |key|
    ensures Undone(g, key, n, n) == AddKey(g, RoundKey(key, n))
  {
  }
}
