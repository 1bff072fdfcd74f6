// The library's counter-with-CBC-MAC mode, as a function of its inputs.
module Ccm {
  import opened Bytes
  import opened Aes
  import opened BlockModes

  // The lengths that encryption accepts. Decryption does not check them: its local buffers hold MACs of up to
  // sixteen bytes and nonces of up to fifteen.
  predicate MacLenOk(macLen: int) {
    macLen == 4 || macLen == 6 || macLen == 8 || macLen == 10 || macLen == 12 || macLen == 14 || macLen == 16
  }

  predicate NonceLenOk(nonceLen: int) { 7 <= nonceLen <= 13 }

  type Nonce = n: seq<Byte> | |n| <= 15

  type MacLen = n: nat | n <= 16

  // (macLen - 2) / 2, rounded towards zero.
  function HalfAbove2(macLen: MacLen): int { if macLen == 1 then 0 else (macLen - 2) / 2 }

  // Flags, nonce and, over the last two bytes, the low sixteen bits of the payload length.
  function FirstBlock(assocLen: nat, payloadLen: nat, macLen: MacLen, nonce: Nonce): Block {
    var flags := HalfAbove2(macLen) % 8 * 8 + (14 - |nonce|) % 8 + if assocLen > 0 then 0x40 else 0;
    var block: seq<Byte> := [ByteOf(flags)] + nonce + Zeros(15 - |nonce|);
    block[14 := ByteOf(payloadLen / 256 % 256)][15 := ByteOf(payloadLen % 256)]
  }

  // Two length bytes even when there is no associated data, and a whole block of padding when none is due.
  function FormatAssoc(assoc: seq<Byte>, end: nat): seq<Byte> {
    [ByteOf(|assoc| / 256 % 256), ByteOf(|assoc| % 256)] + assoc + Zeros(16 - (end + 2 + |assoc|) % 16)
  }

  function FormatPayload(payload: seq<Byte>, end: nat): seq<Byte> {
    payload + Zeros((16 - (end + |payload|) % 16) % 16)
  }

  function Formatted(payload: seq<Byte>, assoc: seq<Byte>, nonce: Nonce, macLen: MacLen): (buf: seq<Byte>)
  {
    var first: seq<Byte> := FirstBlock(|assoc|, |payload|, macLen, nonce);
    var second: seq<Byte> := first + FormatAssoc(assoc, 16);
    second + FormatPayload(payload, |second|)
  }

  // What each padding rule does to a length.
  lemma PaddedIsBlocks(n: nat)
    ensures (n + (16 - n % 16)) % 16 == 0 && (n + (16 - n % 16) % 16) % 16 == 0
  {
  }

  lemma FormattedIsBlocks(payload: seq<Byte>, assoc: seq<Byte>, nonce: Nonce, macLen: MacLen)
    ensures |Formatted(payload, assoc, nonce, macLen)| % 16 == 0 && |Formatted(payload, assoc, nonce, macLen)| > 0
  {
    hide FirstBlock, ByteOf;
    PaddedIsBlocks(18 + |assoc|);
    var end := 16 + |FormatAssoc(assoc, 16)|;
    PaddedIsBlocks(end + |payload|);
  }

  // The first example of appendix C of SP 800-38C.
  const NONCE: seq<Byte> := [0x10, 0x11, 0x12, 0x13, 0x14, 0x15, 0x16]

  lemma FirstBlockExample()
    ensures FirstBlock(8, 4, 4, NONCE) == [0x4F] + NONCE + [0, 0, 0, 0, 0, 0, 0, 4]
    ensures FirstCounter(NONCE) == [0x07] + NONCE + [0, 0, 0, 0, 0, 0, 0, 0]
  {
    hide ByteOf;
    ByteOfByte(0x4F);
    ByteOfByte(0);
    ByteOfByte(4);
    ByteOfByte(7);
  }

  lemma AssocExample()
    ensures FormatAssoc([0, 1, 2, 3, 4, 5, 6, 7], 16) == [0, 8, 0, 1, 2, 3, 4, 5, 6, 7, 0, 0, 0, 0, 0, 0]
  {
    hide ByteOf;
    ByteOfByte(0);
    ByteOfByte(8);
  }

  // Its formatted input and its first counter block.
  lemma FormattingExample()
    ensures Formatted([0x20, 0x21, 0x22, 0x23], [0, 1, 2, 3, 4, 5, 6, 7], NONCE, 4) ==
      [0x4F] + NONCE + [0, 0, 0, 0, 0, 0, 0, 4] + [0, 8, 0, 1, 2, 3, 4, 5, 6, 7, 0, 0, 0, 0, 0, 0]
      + [0x20, 0x21, 0x22, 0x23, 0, 0, 0, 0, 0, 0, 0, 0, 0, 0, 0, 0]
    ensures FirstCounter(NONCE) == [0x07] + NONCE + [0, 0, 0, 0, 0, 0, 0, 0]
  {
    hide FirstBlock, FormatAssoc, FirstCounter;
    FirstBlockExample();
    AssocExample();
    assert Zeros(12) == [0, 0, 0, 0, 0, 0, 0, 0, 0, 0, 0, 0];
  }

  function Mac(payload: seq<Byte>, assoc: seq<Byte>, nonce: Nonce, macLen: MacLen, e: Cipher): (mac: seq<Byte>)
    ensures |mac| == macLen
  {
    CbcMac(Formatted(payload, assoc, nonce, macLen), e, Zeros(16))[..macLen]
  }

  function FirstCounter(nonce: Nonce): Block {
    [ByteOf((14 - |nonce|) % 8)] + nonce + Zeros(15 - |nonce|)
  }

  // The payload's counter is one step further, over as many bytes as the MAC length leaves.
  function PayloadCounter(nonce: Nonce, macLen: MacLen): Block {
    Increment(FirstCounter(nonce), 15 - macLen)
  }

  // A step over at least one byte moves the last byte on.
  lemma IncrementMoves(iv: Block, counterSize: int)
    requires 1 <= counterSize <= 16
    ensures Increment(iv, counterSize) != iv
  {
    hide IncrementAt;
    IncrementAddsOne(iv, 15, 16 - counterSize);
    LastByteMoves(iv, 16 - counterSize);
  }

  lemma LastByteMoves(iv: Block, stop: int)
    requires 0 <= stop <= 15
    ensures IncrementAt(iv, 15, stop)[15] == iv[15] + 1
  {
    var next := iv[15 := iv[15] + 1];
    if next[15] == 0 && stop < 15 {
      IncrementAddsOne(next, 14, stop);
      assert IncrementAt(next, 14, stop)[15..] == next[15..];
      assert IncrementAt(next, 14, stop)[15] == IncrementAt(next, 14, stop)[15..][0] == next[15..][0];
    }
  }

  // A MAC of fifteen or sixteen bytes leaves none: payload and MAC are then masked from the same counter block
  // on. Of the permitted lengths that is sixteen.
  lemma CountersCoincide(nonce: Nonce, macLen: MacLen)
    ensures PayloadCounter(nonce, macLen) == FirstCounter(nonce) <==> macLen >= 15
  {
    hide FirstCounter, IncrementAt;
    if macLen < 15 {
      IncrementMoves(FirstCounter(nonce), 15 - macLen);
    } else {
      NoCounterNoStep(FirstCounter(nonce), 15 - macLen);
    }
  }

  lemma NoCounterNoStep(iv: Block, counterSize: int)
    requires counterSize <= 0
    ensures Increment(iv, counterSize) == iv
  {
  }

  function Seal(payload: seq<Byte>, assoc: seq<Byte>, nonce: Nonce, macLen: MacLen, e: Cipher): (c: seq<Byte>)
    ensures |c| == |payload| + macLen
  {
    Ctr(payload, e, PayloadCounter(nonce, macLen)) +
    Ctr(Mac(payload, assoc, nonce, macLen, e), e, FirstCounter(nonce))
  }

  function Plaintext(c: seq<Byte>, nonce: Nonce, macLen: MacLen, e: Cipher): (p: seq<Byte>)
    requires macLen <= |c|
    ensures |p| == |c| - macLen
  {
    Ctr(c[..|c| - macLen], e, PayloadCounter(nonce, macLen))
  }

  predicate Authentic(c: seq<Byte>, assoc: seq<Byte>, nonce: Nonce, macLen: MacLen, e: Cipher)
    requires macLen <= |c|
  {
    Ctr(c[|c| - macLen..], e, FirstCounter(nonce)) == Mac(Plaintext(c, nonce, macLen, e), assoc, nonce, macLen, e)
  }

  // Opening a sealed payload gives the payload back, and the MAC matches.
  lemma OpensSealed(payload: seq<Byte>, assoc: seq<Byte>, nonce: Nonce, macLen: MacLen, e: Cipher)
    ensures var c := Seal(payload, assoc, nonce, macLen, e);
      Plaintext(c, nonce, macLen, e) == payload && Authentic(c, assoc, nonce, macLen, e)
  {
    hide Mac, Ctr, FirstCounter, PayloadCounter;
    var c := Seal(payload, assoc, nonce, macLen, e);
    var mac := Mac(payload, assoc, nonce, macLen, e);
    assert c[..|c| - macLen] == Ctr(payload, e, PayloadCounter(nonce, macLen));
    assert c[|c| - macLen..] == Ctr(mac, e, FirstCounter(nonce));
    CtrTwice(payload, e, PayloadCounter(nonce, macLen));
    CtrTwice(mac, e, FirstCounter(nonce));
  }

  // Nothing else is authentic: a ciphertext passes exactly when it is the sealing of what it opens to.
  lemma AuthenticIffSealed(c: seq<Byte>, assoc: seq<Byte>, nonce: Nonce, macLen: MacLen, e: Cipher)
    requires macLen <= |c|
    ensures Authentic(c, assoc, nonce, macLen, e) <==>
      c == Seal(Plaintext(c, nonce, macLen, e), assoc, nonce, macLen, e)
  {
    hide Mac, Ctr, FirstCounter, PayloadCounter;
    var n := |c| - macLen;
    CtrTwice(c[..n], e, PayloadCounter(nonce, macLen));
    CtrTwice(c[n..], e, FirstCounter(nonce));
    assert c == c[..n] + c[n..];
    if c == Seal(Plaintext(c, nonce, macLen, e), assoc, nonce, macLen, e) {
      OpensSealed(Plaintext(c, nonce, macLen, e), assoc, nonce, macLen, e);
    }
  }

  // ---- the formatted buffer can be read back ----

  lemma SameByte(a: nat, b: nat)
    requires a < 256 && b < 256 && ByteOf(a) == ByteOf(b)
    ensures a == b
  {
    ByteOfInt(a);
    ByteOfInt(b);
  }

  // For the permitted lengths the flags tell both lengths and whether there is associated data.
  lemma FlagsTell(t: nat, n: nat, a: bool, t': nat, n': nat, a': bool)
    requires MacLenOk(t) && NonceLenOk(n) && MacLenOk(t') && NonceLenOk(n')
    requires HalfAbove2(t) % 8 * 8 + (14 - n) % 8 + (if a then 0x40 else 0)
          == HalfAbove2(t') % 8 * 8 + (14 - n') % 8 + (if a' then 0x40 else 0)
    ensures t == t' && n == n' && a == a'
  {
  }

  lemma FirstBlockTells(al: nat, pl: nat, t: nat, n: Nonce, al': nat, pl': nat, t': nat, n': Nonce)
    requires MacLenOk(t) && NonceLenOk(|n|) && MacLenOk(t') && NonceLenOk(|n'|)
    requires FirstBlock(al, pl, t, n) == FirstBlock(al', pl', t', n')
    ensures t == t' && n == n' && pl % 0x1_0000 == pl' % 0x1_0000
  {
    hide ByteOf, HalfAbove2;
    var b, b' := FirstBlock(al, pl, t, n), FirstBlock(al', pl', t', n');
    assert b[0] == b'[0] && b[14] == b'[14] && b[15] == b'[15];
    FlagsBelow(t, |n|, al > 0);
    FlagsBelow(t', |n'|, al' > 0);
    SameByte(HalfAbove2(t) % 8 * 8 + (14 - |n|) % 8 + (if al > 0 then 0x40 else 0),
             HalfAbove2(t') % 8 * 8 + (14 - |n'|) % 8 + (if al' > 0 then 0x40 else 0));
    FlagsTell(t, |n|, al > 0, t', |n'|, al' > 0);
    SameByte(pl / 256 % 256, pl' / 256 % 256);
    SameByte(pl % 256, pl' % 256);
    LowBytes(pl);
    LowBytes(pl');
    forall i | 0 <= i < |n|
      ensures n[i] == n'[i]
    {
      assert b[1 + i] == n[i] && b'[1 + i] == n'[i];
    }
  }

  lemma FlagsBelow(t: nat, n: nat, a: bool)
    requires MacLenOk(t) && NonceLenOk(n)
    ensures 0 <= HalfAbove2(t) % 8 * 8 + (14 - n) % 8 + (if a then 0x40 else 0) < 256
  {
  }

  lemma LowBytes(n: nat)
    ensures n % 0x1_0000 == 256 * (n / 256 % 256) + n % 256
  {
    var high := n / 256;
    var r := 256 * (high % 256) + n % 256;
    assert n == 0x1_0000 * (high / 256) + r && 0 <= r < 0x1_0000;
    RemainderIs(n, high / 256, r);
  }

  lemma RemainderIs(n: nat, q: nat, r: nat)
    requires n == 0x1_0000 * q + r && r < 0x1_0000
    ensures n % 0x1_0000 == r
  {
  }

  lemma HighByte(n: nat)
    requires n < 0x1_0000
    ensures n / 256 % 256 == n / 256
  {
  }

  lemma AssocParts(assoc: seq<Byte>)
    requires |assoc| < 0x1_0000
    ensures var s := FormatAssoc(assoc, 16);
      && |s| >= 2 + |assoc| && s[2..2 + |assoc|] == assoc
      && s[0] == ByteOf(|assoc| / 256) && s[1] == ByteOf(|assoc| % 256)
  {
    hide ByteOf, Zeros;
    HighByte(|assoc|);
    var padding := Zeros(16 - (16 + 2 + |assoc|) % 16);
    BehindTwo(ByteOf(|assoc| / 256 % 256), ByteOf(|assoc| % 256), assoc, padding);
    assert FormatAssoc(assoc, 16) == [ByteOf(|assoc| / 256 % 256), ByteOf(|assoc| % 256)] + assoc + padding;
  }

  lemma BehindTwo(a: Byte, b: Byte, s: seq<Byte>, t: seq<Byte>)
    ensures var all := [a, b] + s + t; |all| >= 2 + |s| && all[2..2 + |s|] == s && all[0] == a && all[1] == b
  {
  }

  lemma PayloadParts(payload: seq<Byte>, end: nat)
    ensures var s := FormatPayload(payload, end); |payload| <= |s| < |payload| + 16 && s[..|payload|] == payload
  {
  }

  lemma ThreeParts(first: seq<Byte>, middle: seq<Byte>, last: seq<Byte>, m: nat, n: nat)
    requires |first| == 16 && 2 + m <= |middle| && n <= |last|
    ensures
      var buf := first + middle + last;
      && buf[..16] == first && buf[16] == middle[0] && buf[17] == middle[1] && buf[18..18 + m] == middle[2..2 + m]
      && buf[16 + |middle|..16 + |middle| + n] == last[..n]
  {
  }

  // Where the parts of the buffer stand.
  lemma FormattedParts(payload: seq<Byte>, assoc: seq<Byte>, nonce: Nonce, macLen: MacLen)
    requires |assoc| < 0x1_0000
    ensures
      var buf := Formatted(payload, assoc, nonce, macLen);
      var at := 16 + |FormatAssoc(assoc, 16)|;
      && 18 + |assoc| <= at && at + |payload| <= |buf| < at + |payload| + 16
      && buf[..16] == FirstBlock(|assoc|, |payload|, macLen, nonce)
      && buf[16] == ByteOf(|assoc| / 256) && buf[17] == ByteOf(|assoc| % 256)
      && buf[18..18 + |assoc|] == assoc && buf[at..at + |payload|] == payload
  {
    hide FirstBlock, ByteOf, FormatAssoc, FormatPayload;
    AssocParts(assoc);
    var first: seq<Byte>, middle := FirstBlock(|assoc|, |payload|, macLen, nonce), FormatAssoc(assoc, 16);
    PayloadParts(payload, |first + middle|);
    ThreeParts(first, middle, FormatPayload(payload, |first + middle|), |assoc|, |payload|);
  }

  // Two inputs of permitted lengths are formatted alike only if they are the same.
  lemma FormattingInjective(p: seq<Byte>, a: seq<Byte>, n: Nonce, t: MacLen, p': seq<Byte>, a': seq<Byte>, n': Nonce,
                            t': MacLen)
    requires MacLenOk(t) && NonceLenOk(|n|) && |a| <= 32768 && MacLenOk(t') && NonceLenOk(|n'|) && |a'| <= 32768
    requires Formatted(p, a, n, t) == Formatted(p', a', n', t')
    ensures p == p' && a == a' && n == n' && t == t'
  {
    FormattedParts(p, a, n, t);
    FormattedParts(p', a', n', t');
    hide FirstBlock, ByteOf, Formatted;
    FirstBlockTells(|a|, |p|, t, n, |a'|, |p'|, t', n');
    SameByte(|a| / 256, |a'| / 256);
    SameByte(|a| % 256, |a'| % 256);
    assert |a| == |a'|;
    SameLength(|p|, |p'|);
  }

  lemma SameLength(x: nat, y: nat)
    requires x % 0x1_0000 == y % 0x1_0000 && x < y + 16 && y < x + 16
    ensures x == y
  {
  }
}
