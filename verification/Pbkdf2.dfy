// The fast PBKDF2-HMAC-SHA256: raw compression states and a fixed padding block in the inner loop,
// proved equal to section 5.2 of RFC 8018 over HMAC as section 2 of RFC 2104 defines it.
module Pbkdf2 {
  import opened Bytes
  import opened Sha256

  // ---- the standards ----

  function Repeat(b: Byte, n: nat): (s: seq<Byte>)
    ensures |s| == n
  {
    seq(n, i => b)
  }

  // RFC 2104: keys longer than a block are hashed, shorter ones padded with zeros.
  function BlockKey(key: seq<Byte>): Block {
    var k := if |key| > BLOCK_SIZE then Hash(key) else key;
    k + Zeros(BLOCK_SIZE - |k|)
  }

  function InnerPad(key: seq<Byte>): Block { XorBytes(Repeat(0x36, BLOCK_SIZE), BlockKey(key)) }

  function OuterPad(key: seq<Byte>): Block { XorBytes(Repeat(0x5C, BLOCK_SIZE), BlockKey(key)) }

  // In both pads a byte of the key, or a zero after its end, is met by the same constant (section 2 of RFC 2104).
  lemma PadBytes(key: seq<Byte>, i: nat)
    requires |key| <= BLOCK_SIZE && i < BLOCK_SIZE
    ensures InnerPad(key)[i] == (if i < |key| then key[i] else 0) ^ 0x36
    ensures OuterPad(key)[i] == (if i < |key| then key[i] else 0) ^ 0x5C
  {
    hide Hash;
  }

  function Hmac(key: seq<Byte>, text: seq<Byte>): Digest {
    Hash(OuterPad(key) + Hash(InnerPad(key) + text))
  }

  // RFC 8018: U_1 = PRF(P, S || INT(i)), U_j = PRF(P, U_{j-1}).
  function U(pw: seq<Byte>, salt: seq<Byte>, i: U32, j: nat): Digest
    requires j > 0
  {
    if j == 1 then Hmac(pw, salt + Be32(i)) else Hmac(pw, U(pw, salt, i, j - 1))
  }

  // F(P, S, c, i) = U_1 xor U_2 xor ... xor U_c.
  function F(pw: seq<Byte>, salt: seq<Byte>, c: nat, i: U32): Digest
    requires c > 0
  {
    if c == 1 then U(pw, salt, i, 1) else XorBytes(F(pw, salt, c - 1, i), U(pw, salt, i, c))
  }

  // T_1 || T_2 || ... || T_l.
  function Blocks(pw: seq<Byte>, salt: seq<Byte>, c: nat, l: nat): (t: seq<Byte>)
    requires c > 0 && l < 0x1_0000_0000
    ensures |t| == DIGEST_SIZE * l
  {
    if l == 0 then [] else Blocks(pw, salt, c, l - 1) + F(pw, salt, c, l)
  }

  // The derived key: the first dkLen bytes of as many blocks as that takes.
  function DerivedKey(pw: seq<Byte>, salt: seq<Byte>, c: nat, dkLen: nat): seq<Byte>
    requires c > 0 && dkLen <= 32 * 0xFFFF_FFFF
  {
    Blocks(pw, salt, c, (dkLen + 31) / 32)[..dkLen]
  }

  // How many blocks the library computes, with the length rounded up in 32 bits, and how many bytes it writes.
  function BlocksNeeded(nout: U64): U32 { Wrap32(nout + 31) / 32 }

  function Written(nout: U64): nat { if 32 * BlocksNeeded(nout) <= nout then 32 * BlocksNeeded(nout) else nout }

  lemma {:induction false} BlocksPrefix(pw: seq<Byte>, salt: seq<Byte>, c: nat, l: nat, k: nat)
    requires c > 0 && l <= k < 0x1_0000_0000
    ensures Blocks(pw, salt, c, k)[..32 * l] == Blocks(pw, salt, c, l)
  {
    hide F;
    if l < k { BlocksPrefix(pw, salt, c, l, k - 1); }
  }

  // What is written is the beginning of the derived key of RFC 8018, for every length that allows one, and it is
  // all of it exactly when rounding the length up does not leave 32 bits.
  lemma WrittenIsPrefix(pw: seq<Byte>, salt: seq<Byte>, c: nat, nout: U64)
    requires c > 0 && nout <= 32 * 0xFFFF_FFFF
    ensures Written(nout) <= nout && (Written(nout) == nout <==> nout + 31 < 0x1_0000_0000)
    ensures Blocks(pw, salt, c, BlocksNeeded(nout))[..Written(nout)] == DerivedKey(pw, salt, c, nout)[..Written(nout)]
  {
    hide F, Blocks;
    BlocksPrefix(pw, salt, c, BlocksNeeded(nout), (nout + 31) / 32);
  }

  // ---- exclusive or of states and of their bytes ----

  function XorStates(a: State, b: State): State {
    [Xor32(a[0], b[0]), Xor32(a[1], b[1]), Xor32(a[2], b[2]), Xor32(a[3], b[3]),
     Xor32(a[4], b[4]), Xor32(a[5], b[5]), Xor32(a[6], b[6]), Xor32(a[7], b[7])]
  }

  lemma XorByte3(a: Word, b: Word)
    ensures Byte3(Xor32(a, b)) == Xor8(Byte3(a), Byte3(b))
  {
  }

  lemma XorByte2(a: Word, b: Word)
    ensures Byte2(Xor32(a, b)) == Xor8(Byte2(a), Byte2(b))
  {
  }

  lemma XorByte1(a: Word, b: Word)
    ensures Byte1(Xor32(a, b)) == Xor8(Byte1(a), Byte1(b))
  {
  }

  lemma XorByte0(a: Word, b: Word)
    ensures Byte0(Xor32(a, b)) == Xor8(Byte0(a), Byte0(b))
  {
  }

  lemma Xor32Bytes(a: Word, b: Word)
    ensures WordBytes(Xor32(a, b)) == XorBytes(WordBytes(a), WordBytes(b))
  {
    hide Xor32, Xor8, Byte3, Byte2, Byte1, Byte0;
    XorByte3(a, b);
    XorByte2(a, b);
    XorByte1(a, b);
    XorByte0(a, b);
  }

  lemma XorBytesConcat(a: seq<Byte>, b: seq<Byte>, c: seq<Byte>, d: seq<Byte>)
    requires |a| == |b| && |c| == |d|
    ensures XorBytes(a + c, b + d) == XorBytes(a, b) + XorBytes(c, d)
  {
  }

  lemma XorStateBytes(a: State, b: State)
    ensures StateBytes(XorStates(a, b)) == XorBytes(StateBytes(a), StateBytes(b))
  {
    hide WordBytes, Xor32, XorBytes;
    Xor32Bytes(a[0], b[0]);
    Xor32Bytes(a[1], b[1]);
    Xor32Bytes(a[2], b[2]);
    Xor32Bytes(a[3], b[3]);
    Xor32Bytes(a[4], b[4]);
    Xor32Bytes(a[5], b[5]);
    Xor32Bytes(a[6], b[6]);
    Xor32Bytes(a[7], b[7]);
    var (x1, y1) := (WordBytes(a[0]), WordBytes(b[0]));
    XorBytesConcat(x1, y1, WordBytes(a[1]), WordBytes(b[1]));
    var (x2, y2) := (x1 + WordBytes(a[1]), y1 + WordBytes(b[1]));
    XorBytesConcat(x2, y2, WordBytes(a[2]), WordBytes(b[2]));
    var (x3, y3) := (x2 + WordBytes(a[2]), y2 + WordBytes(b[2]));
    XorBytesConcat(x3, y3, WordBytes(a[3]), WordBytes(b[3]));
    var (x4, y4) := (x3 + WordBytes(a[3]), y3 + WordBytes(b[3]));
    XorBytesConcat(x4, y4, WordBytes(a[4]), WordBytes(b[4]));
    var (x5, y5) := (x4 + WordBytes(a[4]), y4 + WordBytes(b[4]));
    XorBytesConcat(x5, y5, WordBytes(a[5]), WordBytes(b[5]));
    var (x6, y6) := (x5 + WordBytes(a[5]), y5 + WordBytes(b[5]));
    XorBytesConcat(x6, y6, WordBytes(a[6]), WordBytes(b[6]));
    var (x7, y7) := (x6 + WordBytes(a[6]), y6 + WordBytes(b[6]));
    XorBytesConcat(x7, y7, WordBytes(a[7]), WordBytes(b[7]));
  }

  // ---- the padding block ----

  // The padding of a message of msg bytes that leaves `used` bytes in its last block, with the length
  // in 32 bits.
  function MdPad(used: nat, msg: nat): (s: seq<Byte>)
    requires used < 60
    ensures |s| == BLOCK_SIZE - used
  {
    [0x80] + Zeros(59 - used) + Be32(Wrap32(8 * msg))
  }

  // For a block and a digest it is the real padding of FIPS 180-4.
  lemma MdPadIsPadding()
    ensures MdPad(DIGEST_SIZE, BLOCK_SIZE + DIGEST_SIZE) == Padding(BLOCK_SIZE + DIGEST_SIZE)
  {
    hide Be32, Zeros;
    FourZeros();
    SplitZeros(23, 4);
    assert Be64(768) == Be32(0) + Be32(768);
    assert Padding(96) == [0x80] + Zeros(23) + Be64(768);
  }

  lemma FourZeros()
    ensures Be32(0) == Zeros(4)
  {
    assert ByteOf(0) == 0;
  }

  lemma SplitZeros(a: nat, b: nat)
    ensures Zeros(a + b) == Zeros(a) + Zeros(b)
  {
  }

  // Hashing a key block and a digest takes two compressions, the second of the digest and the
  // fixed padding.
  lemma TwoBlockHash(pad: Block, u: Digest)
    ensures Hash(pad + u) == StateBytes(Compress(Compress(H0, pad), u + MdPad(32, 96)))
  {
    hide Compress, H0, StateBytes, MdPad, Padding;
    MdPadIsPadding();
    var padded := (pad + u) + Padding(96);
    var last := u + Padding(96);
    MdPadLength();
    assert padded == pad + last && |padded| == 128;
    FoldSnoc(H0, [], pad, 0);
    assert [] + pad == pad;
    FoldSnoc(H0, pad, last, 1);
  }

  lemma MdPadLength()
    ensures |MdPad(32, 96)| == 32
  {
  }

  // ---- the HMAC context ----

  // Shortens a long key, pads it, and forms the two key blocks.
  method KeyBlocks(key: seq<Byte>) returns (blkInner: Block, blkOuter: Block)
    requires |key| < 0x1_0000_0000
    ensures blkInner == InnerPad(key) && blkOuter == OuterPad(key)
  {
    hide FoldBlocks, Xor8, Hash;
    var k := key;
    if |key| > BLOCK_SIZE {
      var ctx := new Sha256Ctx();
      ctx.Update(key, []);
      assert [] + key == key;
      k := ctx.Final(key);
    }
    k := k + Zeros(BLOCK_SIZE - |k|);
    assert k == BlockKey(key);
    blkInner, blkOuter := XorWithKey(k);
  }

  method XorWithKey(k: Block) returns (blkInner: Block, blkOuter: Block)
    ensures blkInner == XorBytes(Repeat(0x36, BLOCK_SIZE), k)
    ensures blkOuter == XorBytes(Repeat(0x5C, BLOCK_SIZE), k)
  {
    hide Xor8;
    var x: seq<Byte>, y: seq<Byte> := [], [];
    for i := 0 to BLOCK_SIZE
      invariant x == XorBytes(Repeat(0x36, i), k[..i])
      invariant y == XorBytes(Repeat(0x5C, i), k[..i])
    {
      x := x + [Xor8(0x36, k[i])];
      y := y + [Xor8(0x5C, k[i])];
    }
    assert k[..BLOCK_SIZE] == k;
    blkInner, blkOuter := x, y;
  }

  class HmacCtx {
    const inner: Sha256Ctx
    const outer: Sha256Ctx

    ghost function Repr(): set<object> {
      {inner, inner.data, inner.state, outer, outer.data, outer.state}
    }

    ghost predicate Separate() {
      inner != outer && inner.data != outer.data && inner.state != outer.state
    }

    // Keyed with key and fed the text m.
    ghost predicate Keyed(key: seq<Byte>, m: seq<Byte>)
      reads Repr()
    {
      Separate() && inner.Absorbed(InnerPad(key) + m) && outer.Absorbed(OuterPad(key))
    }

    constructor Init(key: seq<Byte>)
      requires |key| < 0x1_0000_0000
      ensures Keyed(key, []) && fresh(Repr())
    {
      hide FoldBlocks, InnerPad, OuterPad;
      var blkInner, blkOuter := KeyBlocks(key);
      var innerCtx := new Sha256Ctx();
      innerCtx.Update(blkInner, []);
      assert [] + blkInner == InnerPad(key) + [];
      var outerCtx := new Sha256Ctx();
      outerCtx.Update(blkOuter, []);
      assert [] + blkOuter == OuterPad(key);
      inner := innerCtx;
      outer := outerCtx;
    }

    constructor Copy(from: HmacCtx, ghost key: seq<Byte>, ghost m: seq<Byte>)
      requires from.Keyed(key, m)
      ensures Keyed(key, m) && fresh(Repr())
    {
      hide FoldBlocks;
      inner := new Sha256Ctx.Copy(from.inner);
      outer := new Sha256Ctx.Copy(from.outer);
    }

    method Update(bytes: seq<Byte>, ghost key: seq<Byte>, ghost m: seq<Byte>)
      requires |bytes| < 0x1_0000_0000 && Keyed(key, m)
      modifies Repr()
      ensures Keyed(key, m + bytes)
    {
      hide FoldBlocks, InnerPad, OuterPad;
      inner.Update(bytes, InnerPad(key) + m);
      assert (InnerPad(key) + m) + bytes == InnerPad(key) + (m + bytes);
    }

    method Final(ghost key: seq<Byte>, ghost m: seq<Byte>) returns (mac: Digest)
      requires Keyed(key, m)
      modifies Repr()
      ensures mac == Hmac(key, m) == StateBytes(outer.Words())
      ensures Separate() && inner.Shape() && outer.Shape()
    {
      hide FoldBlocks, InnerPad, OuterPad, Hash, StateBytes;
      var digest := inner.Final(InnerPad(key) + m);
      outer.Update(digest, OuterPad(key));
      mac := outer.Final(OuterPad(key) + digest);
    }
  }

  // Copies the hash state only.
  method CopyState(to: Sha256Ctx, from: Sha256Ctx)
    requires to.state.Length == 8 && from.state.Length == 8 && to.state != from.state
    modifies to.state
    ensures to.Words() == from.Words()
  {
    forall i | 0 <= i < 8 {
      to.state[i] := from.state[i];
    }
    assert to.state[..] == from.state[..];
  }

  method XorState(to: Sha256Ctx, from: Sha256Ctx)
    requires to.state.Length == 8 && from.state.Length == 8 && to.state != from.state
    modifies to.state
    ensures to.Words() == XorStates(old(to.Words()), from.Words())
  {
    hide Xor32;
    var x := XorStates(to.state[..], from.state[..]);
    forall i | 0 <= i < 8 {
      to.state[i] := x[i];
    }
    assert to.state[..] == x;
  }

  lemma KeyedState(ctx: Sha256Ctx, pad: Block)
    requires ctx.Absorbed(pad)
    ensures ctx.Words() == Compress(H0, pad)
  {
    hide Compress, H0;
    assert pad[0..64] == pad;
    assert FoldBlocks(H0, pad, 1) == Compress(FoldBlocks(H0, pad, 0), pad[0..64]);
  }

  // The PRF of one previous digest takes four compressions in all, two of them done in advance.
  lemma HmacOfDigest(key: seq<Byte>, u: Digest)
    ensures
      var mid := StateBytes(Compress(Compress(H0, InnerPad(key)), u + MdPad(32, 96)));
      Hmac(key, u) == StateBytes(Compress(Compress(H0, OuterPad(key)), mid + MdPad(32, 96)))
  {
    hide Compress, H0, StateBytes, MdPad, Hash, InnerPad, OuterPad;
    TwoBlockHash(InnerPad(key), u);
    TwoBlockHash(OuterPad(key), Hash(InnerPad(key) + u));
  }

  // One inner-loop iteration: the next U from the raw states.
  method NextU(ctx: HmacCtx, start: HmacCtx, ublock: seq<Byte>, ghost pw: seq<Byte>, ghost u: Digest)
    returns (next: seq<Byte>)
    requires start.Keyed(pw, []) && ctx.Separate() && ctx.inner.Shape() && ctx.outer.Shape()
    requires ctx.Repr() !! start.Repr()
    requires ublock == u + MdPad(32, 96)
    modifies ctx.inner.state, ctx.outer.state
    ensures start.Keyed(pw, [])
    ensures StateBytes(ctx.outer.Words()) == Hmac(pw, u)
    ensures next == Hmac(pw, u) + MdPad(32, 96)
  {
    hide Compress, H0, StateBytes, MdPad, Hash, InnerPad, OuterPad, Hmac, FoldBlocks;
    MdPadLength();
    assert InnerPad(pw) + [] == InnerPad(pw);
    KeyedState(start.inner, InnerPad(pw));
    KeyedState(start.outer, OuterPad(pw));
    HmacOfDigest(pw, u);
    CopyState(ctx.inner, start.inner);
    ctx.inner.Transform(ublock);
    next := StateBytes(ctx.inner.state[..]) + MdPad(32, 96);
    CopyState(ctx.outer, start.outer);
    ctx.outer.Transform(next);
    next := StateBytes(ctx.outer.state[..]) + MdPad(32, 96);
  }

  // The first iteration: U_1 through the whole HMAC, from a copy of the keyed context.
  method FirstU(start: HmacCtx, counter: U32, salt: seq<Byte>, ghost pw: seq<Byte>) returns (ctx: HmacCtx, u: Digest)
    requires start.Keyed(pw, []) && |salt| < 0x1_0000_0000
    ensures fresh(ctx) && fresh(ctx.Repr()) && ctx.Separate() && ctx.inner.Shape() && ctx.outer.Shape()
    ensures u == U(pw, salt, counter, 1) == StateBytes(ctx.outer.Words())
  {
    hide StateBytes, Hmac;
    ctx := new HmacCtx.Copy(start, pw, []);
    ctx.Update(salt, pw, []);
    assert [] + salt == salt;
    ctx.Update(Be32(counter), pw, salt);
    u := ctx.Final(pw, salt + Be32(counter));
  }

  lemma NextIsU(pw: seq<Byte>, salt: seq<Byte>, counter: U32, i: nat)
    requires i > 0
    ensures U(pw, salt, counter, i + 1) == Hmac(pw, U(pw, salt, counter, i))
  {
  }

  // One block of output.
  method Pbkdf2F(start: HmacCtx, counter: U32, salt: seq<Byte>, iterations: U32, ghost pw: seq<Byte>)
    returns (out: Digest)
    requires start.Keyed(pw, []) && iterations > 0 && |salt| < 0x1_0000_0000
    ensures out == F(pw, salt, iterations, counter)
  {
    hide StateBytes, MdPad, Hmac, XorStates, XorBytes, FoldBlocks, H0, InnerPad, OuterPad, U;
    var ctx, u := FirstU(start, counter, salt, pw);
    var ublock := u + MdPad(32, 96);
    var result := new Sha256Ctx.Copy(ctx.outer);
    for i := 1 to iterations
      modifies ctx.inner.state, ctx.outer.state, result.state
      invariant start.Keyed(pw, [])
      invariant ublock == U(pw, salt, counter, i) + MdPad(32, 96)
      invariant StateBytes(result.Words()) == F(pw, salt, i, counter)
    {
      NextIsU(pw, salt, counter, i);
      ublock := NextU(ctx, start, ublock, pw, U(pw, salt, counter, i));
      XorStateBytes(result.Words(), ctx.outer.Words());
      XorState(result, ctx.outer);
    }
    out := StateBytes(result.state[..]);
  }

  // The derived key, block after block.
  method Derive(pw: seq<Byte>, salt: seq<Byte>, iterations: U32, nout: U64) returns (out: seq<Byte>)
    requires |pw| < 0x1_0000_0000 && |salt| < 0x1_0000_0000
    requires iterations > 0 && 0 < nout
    ensures out == Blocks(pw, salt, iterations, BlocksNeeded(nout))[..Written(nout)]
    ensures nout + 31 < 0x1_0000_0000 ==> out == DerivedKey(pw, salt, iterations, nout)
  {
    hide F, FoldBlocks, InnerPad, OuterPad;
    var ctx := new HmacCtx.Init(pw);
    var blocksNeeded: U32 := Wrap32(nout + 31) / 32;
    out := [];
    for counter := 1 to blocksNeeded + 1
      invariant ctx.Keyed(pw, [])
      invariant var made := 32 * (counter - 1);
        out == Blocks(pw, salt, iterations, counter - 1)[..if made <= nout then made else nout]
    {
      var block := Pbkdf2F(ctx, counter, salt, iterations, pw);
      var offset := (counter - 1) * 32;
      var taken := if nout - offset > 32 then 32 else nout - offset;
      out := out + block[..taken];
    }
  }
}
