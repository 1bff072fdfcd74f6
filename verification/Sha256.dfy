// SHA-256 (FIPS 180-4) as the streaming context the library uses, proved against the standard's
// definition on whole messages.
module Sha256 {
  import opened Bytes

  type Word = bv32
  type State = s: seq<Word> | |s| == 8 witness [0, 0, 0, 0, 0, 0, 0, 0]
  type Block = b: seq<Byte> | |b| == BLOCK_SIZE witness seq(64, i => 0)
  type Digest = d: seq<Byte> | |d| == DIGEST_SIZE witness seq(32, i => 0)

  const BLOCK_SIZE: nat := 64
  const DIGEST_SIZE: nat := 32

  // ---- the functions of FIPS 180-4, section 4.1.2 ----

  function Rotr(x: Word, n: bv6): Word
    requires 0 < n < 32
  {
    (x >> n) | (x << (32 - n))
  }

  function Ch(x: Word, y: Word, z: Word): Word { (x & y) ^ (!x & z) }

  function Maj(x: Word, y: Word, z: Word): Word { (x & y) ^ (x & z) ^ (y & z) }

  function Ep0(x: Word): Word { Rotr(x, 2) ^ Rotr(x, 13) ^ Rotr(x, 22) }

  function Ep1(x: Word): Word { Rotr(x, 6) ^ Rotr(x, 11) ^ Rotr(x, 25) }

  function Sig0(x: Word): Word { Rotr(x, 7) ^ Rotr(x, 18) ^ (x >> 3) }

  function Sig1(x: Word): Word { Rotr(x, 17) ^ Rotr(x, 19) ^ (x >> 10) }

  const K: seq<Word> :=
    [0x428a_2f98, 0x7137_4491, 0xb5c0_fbcf, 0xe9b5_dba5, 0x3956_c25b, 0x59f1_11f1, 0x923f_82a4, 0xab1c_5ed5] +
    [0xd807_aa98, 0x1283_5b01, 0x2431_85be, 0x550c_7dc3, 0x72be_5d74, 0x80de_b1fe, 0x9bdc_06a7, 0xc19b_f174] +
    [0xe49b_69c1, 0xefbe_4786, 0x0fc1_9dc6, 0x240c_a1cc, 0x2de9_2c6f, 0x4a74_84aa, 0x5cb0_a9dc, 0x76f9_88da] +
    [0x983e_5152, 0xa831_c66d, 0xb003_27c8, 0xbf59_7fc7, 0xc6e0_0bf3, 0xd5a7_9147, 0x06ca_6351, 0x1429_2967] +
    [0x27b7_0a85, 0x2e1b_2138, 0x4d2c_6dfc, 0x5338_0d13, 0x650a_7354, 0x766a_0abb, 0x81c2_c92e, 0x9272_2c85] +
    [0xa2bf_e8a1, 0xa81a_664b, 0xc24b_8b70, 0xc76c_51a3, 0xd192_e819, 0xd699_0624, 0xf40e_3585, 0x106a_a070] +
    [0x19a4_c116, 0x1e37_6c08, 0x2748_774c, 0x34b0_bcb5, 0x391c_0cb3, 0x4ed8_aa4a, 0x5b9c_ca4f, 0x682e_6ff3] +
    [0x748f_82ee, 0x78a5_636f, 0x84c8_7814, 0x8cc7_0208, 0x90be_fffa, 0xa450_6ceb, 0xbef9_a3f7, 0xc671_78f2]

  const H0: State := [
    0x6a09_e667, 0xbb67_ae85, 0x3c6e_f372, 0xa54f_f53a, 0x510e_527f, 0x9b05_688c, 0x1f83_d9ab, 0x5be0_cd19]

  function Plus(x: Word, y: Word): Word { x + y }

  // ---- the compression function of section 6.2.2 ----

  // Step 1: the message schedule.
  function Schedule(b: Block, t: nat): Word {
    if t < 16 then WordOf(b[4 * t], b[4 * t + 1], b[4 * t + 2], b[4 * t + 3])
    else Plus(Plus(Plus(Sig1(Schedule(b, t - 2)), Schedule(b, t - 7)), Sig0(Schedule(b, t - 15))), Schedule(b, t - 16))
  }

  datatype Vars = Vars(a: Word, b: Word, c: Word, d: Word, e: Word, f: Word, g: Word, h: Word)

  // Step 3: one round with constant k and schedule word w.
  function Round(v: Vars, k: Word, w: Word): Vars {
    var t1 := Plus(Plus(Plus(Plus(v.h, Ep1(v.e)), Ch(v.e, v.f, v.g)), k), w);
    var t2 := Plus(Ep0(v.a), Maj(v.a, v.b, v.c));
    Vars(Plus(t1, t2), v.a, v.b, v.c, Plus(v.d, t1), v.e, v.f, v.g)
  }

  function Rounds(v: Vars, b: Block, t: nat): Vars
    requires t <= 64
  {
    if t == 0 then v else Round(Rounds(v, b, t - 1), K[t - 1], Schedule(b, t - 1))
  }

  function VarsOf(s: State): Vars { Vars(s[0], s[1], s[2], s[3], s[4], s[5], s[6], s[7]) }

  // Step 4: the intermediate hash value.
  function AddVars(s: State, v: Vars): State {
    [Plus(s[0], v.a), Plus(s[1], v.b), Plus(s[2], v.c), Plus(s[3], v.d),
     Plus(s[4], v.e), Plus(s[5], v.f), Plus(s[6], v.g), Plus(s[7], v.h)]
  }

  function Compress(s: State, b: Block): State {
    AddVars(s, Rounds(VarsOf(s), b, 64))
  }

  // ---- the hash of a message ----

  // The hash value after the first k blocks of m.
  function FoldBlocks(s: State, m: seq<Byte>, k: nat): State
    requires BLOCK_SIZE * k <= |m|
  {
    if k == 0 then s
    else Compress(FoldBlocks(s, m, k - 1), m[BLOCK_SIZE * (k - 1)..BLOCK_SIZE * k])
  }

  function Be64(n: U64): (s: seq<Byte>)
    ensures |s| == 8
  {
    Be32(n / 0x1_0000_0000) + Be32(n % 0x1_0000_0000)
  }

  lemma PaddingLength(n: int)
    ensures (n + 1 + (55 - n) % 64 + 8) % 64 == 0
  {
  }

  // Section 5.1.1: a one bit, the least number of zeros that fills the block, the length in bits.
  function Padding(n: nat): (p: seq<Byte>)
    ensures (n + |p|) % BLOCK_SIZE == 0
  {
    PaddingLength(n);
    [0x80] + Zeros((55 - n) % BLOCK_SIZE) + Be64(Wrap64(8 * n))
  }

  function StateBytes(s: State): Digest {
    WordBytes(s[0]) + WordBytes(s[1]) + WordBytes(s[2]) + WordBytes(s[3]) +
    WordBytes(s[4]) + WordBytes(s[5]) + WordBytes(s[6]) + WordBytes(s[7])
  }

  function Hash(m: seq<Byte>): Digest {
    var padded := m + Padding(|m|);
    StateBytes(FoldBlocks(H0, padded, |padded| / BLOCK_SIZE))
  }

  // ---- properties of the fold ----

  lemma {:induction false} FoldPrefix(s: State, a: seq<Byte>, b: seq<Byte>, k: nat)
    requires BLOCK_SIZE * k <= |a|
    ensures FoldBlocks(s, a + b, k) == FoldBlocks(s, a, k)
  {
    hide Compress;
    if k > 0 {
      FoldPrefix(s, a, b, k - 1);
      assert (a + b)[BLOCK_SIZE * (k - 1)..BLOCK_SIZE * k] == a[BLOCK_SIZE * (k - 1)..BLOCK_SIZE * k];
    }
  }

  lemma FoldSnoc(s: State, a: seq<Byte>, b: Block, k: nat)
    requires |a| == BLOCK_SIZE * k
    ensures FoldBlocks(s, a + b, k + 1) == Compress(FoldBlocks(s, a, k), b)
  {
    hide Compress;
    FoldPrefix(s, a, b, k);
    assert (a + b)[BLOCK_SIZE * k..BLOCK_SIZE * (k + 1)] == b;
  }

  // The padded message, block by block: the whole blocks, then the tail with its padding in one or two
  // blocks according to whether the length still fits.
  lemma PaddedBlocks(m: seq<Byte>, k: nat, d: nat)
    requires |m| == BLOCK_SIZE * k + d && d < BLOCK_SIZE
    ensures
      var whole, tail, bits := m[..BLOCK_SIZE * k], m[BLOCK_SIZE * k..], Be64(Wrap64(8 * |m|));
      var s := FoldBlocks(H0, whole, k);
      Hash(m) == StateBytes(
        if d < 56 then Compress(s, tail + [0x80] + Zeros(55 - d) + bits)
        else Compress(Compress(s, tail + [0x80] + Zeros(63 - d)), Zeros(56) + bits))
  {
    hide Compress, H0, FoldBlocks, StateBytes, Be64;
    var whole, tail, bits := m[..BLOCK_SIZE * k], m[BLOCK_SIZE * k..], Be64(Wrap64(8 * |m|));
    var padded := m + Padding(|m|);
    if d < 56 {
      ZeroCount(k, d);
      var last := tail + [0x80] + Zeros(55 - d) + bits;
      assert padded == whole + last;
      FoldSnoc(H0, whole, last, k);
      assert |padded| / BLOCK_SIZE == k + 1;
    } else {
      ZeroCount(k, d);
      var first, second := tail + [0x80] + Zeros(63 - d), Zeros(56) + bits;
      assert Zeros(119 - d) == Zeros(63 - d) + Zeros(56);
      assert padded == (whole + first) + second;
      FoldSnoc(H0, whole, first, k);
      FoldSnoc(H0, whole + first, second, k + 1);
      assert |padded| / BLOCK_SIZE == k + 2;
    }
  }

  lemma ZeroCount(k: nat, d: nat)
    requires d < BLOCK_SIZE
    ensures (55 - (BLOCK_SIZE * k + d)) % BLOCK_SIZE == if d < 56 then 55 - d else 119 - d
  {
  }

  // ---- the streaming context ----

  class Sha256Ctx {
    const data: array<Byte>
    var dataLen: nat
    var bitLen: U64
    const state: array<Word>

    ghost predicate Shape()
      reads this
    {
      data.Length == BLOCK_SIZE && state.Length == 8 && dataLen < BLOCK_SIZE
    }

    ghost function Words(): State
      requires state.Length == 8
      reads this, state
    {
      state[..]
    }

    // The context has been fed exactly the message m.
    ghost predicate Absorbed(m: seq<Byte>)
      reads this, data, state
    {
      && Shape()
      && dataLen == |m| % BLOCK_SIZE
      && data[..dataLen] == m[|m| - dataLen..]
      && bitLen == Wrap64(512 * (|m| / BLOCK_SIZE))
      && Words() == FoldBlocks(H0, m, |m| / BLOCK_SIZE)
    }

    constructor ()
      ensures Absorbed([]) && fresh(data) && fresh(state)
    {
      data := new Byte[BLOCK_SIZE](_ => 0);
      state := new Word[8](i requires 0 <= i < 8 => H0[i]);
      dataLen := 0;
      bitLen := 0;
      new;
      assert state[..] == H0;
    }

    constructor Copy(from: Sha256Ctx)
      requires from.Shape()
      ensures Shape() && fresh(data) && fresh(state)
      ensures data[..] == from.data[..] && Words() == from.Words()
      ensures dataLen == from.dataLen && bitLen == from.bitLen
    {
      data := new Byte[BLOCK_SIZE](i requires 0 <= i < BLOCK_SIZE reads from.data => from.data[i]);
      state := new Word[8](i requires 0 <= i < 8 reads from.state => from.state[i]);
      dataLen := from.dataLen;
      bitLen := from.bitLen;
    }

    // One block through the compression function.
    method Transform(block: seq<Byte>)
      requires |block| == BLOCK_SIZE && state.Length == 8
      modifies state
      ensures Words() == Compress(old(Words()), block)
    {
      hide Round, K, Schedule, Plus;
      KLength();
      var m := ExpandBlock(block);
      var v := VarsOf(state[..]);
      for i := 0 to 64
        invariant v == Rounds(VarsOf(state[..]), block, i)
      {
        v := Round(v, K[i], m[i]);
      }
      AddToState(v);
    }

    static method ExpandBlock(block: seq<Byte>) returns (m: array<Word>)
      requires |block| == BLOCK_SIZE
      ensures fresh(m) && m.Length == 64
      ensures forall t :: 0 <= t < 64 ==> m[t] == Schedule(block, t)
    {
      hide Rotr, Sig0, Sig1, Plus, WordOf;
      m := new Word[64](_ => 0);
      for i := 0 to 16
        invariant forall t :: 0 <= t < i ==> m[t] == Schedule(block, t)
      {
        m[i] := WordOf(block[4 * i], block[4 * i + 1], block[4 * i + 2], block[4 * i + 3]);
      }
      for i := 16 to 64
        invariant forall t :: 0 <= t < i ==> m[t] == Schedule(block, t)
      {
        m[i] := Plus(Plus(Plus(Sig1(m[i - 2]), m[i - 7]), Sig0(m[i - 15])), m[i - 16]);
      }
    }

    method AddToState(v: Vars)
      requires state.Length == 8
      modifies state
      ensures Words() == AddVars(old(Words()), v)
    {
      hide Plus;
      var next := AddVars(state[..], v);
      forall i | 0 <= i < 8 {
        state[i] := next[i];
      }
      assert state[..] == next;
    }

    static lemma KLength()
      ensures |K| == 64
    {
    }

    method Update(bytes: seq<Byte>, ghost before: seq<Byte>)
      requires |bytes| < 0x1_0000_0000 && Absorbed(before)
      modifies this, data, state
      ensures Absorbed(before + bytes)
    {
      hide Compress, H0;
      assert before + bytes[..0] == before;
      for i := 0 to |bytes|
        invariant Absorbed(before + bytes[..i])
      {
        assert before + bytes[..i + 1] == (before + bytes[..i]) + [bytes[i]];
        Feed(bytes[i], before + bytes[..i]);
      }
      assert bytes[..|bytes|] == bytes;
    }

    method StoreByte(b: Byte)
      requires data.Length == BLOCK_SIZE && dataLen < BLOCK_SIZE
      modifies data, `dataLen
      ensures dataLen == old(dataLen) + 1 && data[..dataLen] == old(data[..dataLen]) + [b]
    {
      data[dataLen] := b;
      dataLen := dataLen + 1;
    }

    // One byte: the body of the update loop.
    method Feed(b: Byte, ghost m: seq<Byte>)
      requires Absorbed(m)
      modifies this, data, state
      ensures Absorbed(m + [b])
    {
      hide Compress, H0, FoldBlocks;
      ghost var k := |m| / BLOCK_SIZE;
      StoreByte(b);
      assert data[..dataLen] == (m + [b])[|m| + 1 - dataLen..];
      if dataLen == BLOCK_SIZE {
        Transform(data[..]);
        bitLen := Wrap64(bitLen + 512);
        dataLen := 0;
        ghost var whole, last := m[..BLOCK_SIZE * k], data[..];
        assert m + [b] == whole + last;
        FoldSnoc(H0, whole, last, k);
        assert m == whole + m[BLOCK_SIZE * k..];
        FoldPrefix(H0, whole, m[BLOCK_SIZE * k..], k);
        WrapBits(k);
        assert |m + [b]| == BLOCK_SIZE * (k + 1);
      } else {
        FoldPrefix(H0, m, [b], k);
        assert |m + [b]| / BLOCK_SIZE == k;
      }
    }

    // Pads, appends the length in bits, and returns the digest.
    method Final(ghost m: seq<Byte>) returns (hash: Digest)
      requires Absorbed(m)
      modifies this, data, state
      ensures hash == Hash(m) == StateBytes(Words())
      ensures Shape()
    {
      hide Compress, H0, FoldBlocks, StateBytes, Be64, Zeros;
      ghost var k, d := |m| / BLOCK_SIZE, dataLen;
      ghost var tail, whole := m[|m| - d..], m[..BLOCK_SIZE * k];
      assert m == whole + tail;
      FoldPrefix(H0, whole, tail, k);
      var buffer := data[..dataLen] + [0x80];
      if dataLen < 56 {
        buffer := buffer + Zeros(56 - |buffer|);
      } else {
        buffer := buffer + Zeros(BLOCK_SIZE - |buffer|);
        Transform(buffer);
        buffer := Zeros(56);
      }
      bitLen := Wrap64(bitLen + 8 * dataLen);
      TotalBits(m);
      buffer := buffer + Be64(bitLen);
      Transform(buffer);
      PaddedBlocks(m, k, d);
      hash := StateBytes(state[..]);
    }

    static lemma TotalBits(m: seq<Byte>)
      ensures Wrap64(Wrap64(512 * (|m| / BLOCK_SIZE)) + 8 * (|m| % BLOCK_SIZE)) == Wrap64(8 * |m|)
    {
      WrapSum(512 * (|m| / BLOCK_SIZE), 8 * (|m| % BLOCK_SIZE));
      assert 512 * (|m| / BLOCK_SIZE) + 8 * (|m| % BLOCK_SIZE) == 8 * |m|;
    }

    static lemma WrapSum(a: nat, b: nat)
      ensures Wrap64(Wrap64(a) + b) == Wrap64(a + b)
    {
    }

    static lemma WrapBits(k: nat)
      ensures Wrap64(Wrap64(512 * k) + 512) == Wrap64(512 * (k + 1))
    {
    }
  }
}
