// The modes as the library runs them over AES, writing their output buffers in place.
module AesModes {
  import opened Bytes
  import opened AesTables
  import opened Aes
  import opened AesKeySchedule
  import opened AesInPlace
  import opened BlockModes
  import opened Ccm

  // Expanded round keys, one array of sixty words for every key size.
  type RoundKeys = k: seq<bv32> | |k| == 60 witness seq(60, i => 0)

  function Encryptor(key: RoundKeys, keySize: int): Cipher { hide Encrypt; (b: Block) => Encrypt(b, key, keySize) }

  function Decryptor(key: RoundKeys, keySize: int): Cipher { hide Decrypt; (b: Block) => Decrypt(b, key, keySize) }

  // The two directions of AES are a cipher and its inverse, so what holds of the modes holds over AES.
  lemma AesInverts(key: RoundKeys, keySize: int)
    requires KeySizeOk(keySize)
    ensures Inverts(Decryptor(key, keySize), Encryptor(key, keySize))
  {
    hide Encrypt, Decrypt;
    forall b: Block
      ensures Decryptor(key, keySize)(Encryptor(key, keySize)(b)) == b
    {
      DecryptOfEncrypt(b, key, keySize);
    }
  }

  method EncryptBlock(input: Block, key: RoundKeys, keySize: int) returns (out: Block)
    ensures out == Encryptor(key, keySize)(input)
  {
    hide Encrypt;
    out := AesEncrypt(input, key, keySize);
  }

  method DecryptBlock(input: Block, key: RoundKeys, keySize: int) returns (out: Block)
    ensures out == Decryptor(key, keySize)(input)
  {
    hide Decrypt;
    out := AesDecrypt(input, key, keySize);
  }

  // One block of each loop.
  lemma CbcStep(m: seq<Byte>, at: nat, e: Cipher, iv: Block)
    requires at + 16 <= |m|
    ensures var c := e(XorBytes(m[at..at + 16], iv)); Cbc(m[at..], e, iv) == c + Cbc(m[at + 16..], e, c)
  {
    hide XorBytes;
    assert m[at..][16..] == m[at + 16..] && m[at..][..16] == m[at..at + 16];
  }

  lemma CbcEmpty(e: Cipher, iv: Block)
    ensures Cbc([], e, iv) == [] && UnCbc([], e, iv) == []
  {
  }

  lemma UnCbcStep(m: seq<Byte>, at: nat, d: Cipher, iv: Block)
    requires at + 16 <= |m|
    ensures UnCbc(m[at..], d, iv) == XorBytes(d(m[at..at + 16]), iv) + UnCbc(m[at + 16..], d, m[at..at + 16])
  {
    hide XorBytes;
    assert m[at..][16..] == m[at + 16..] && m[at..][..16] == m[at..at + 16];
  }

  lemma CtrStep(m: seq<Byte>, at: nat, e: Cipher, iv: Block)
    requires at + 16 < |m|
    ensures Ctr(m[at..], e, iv) == XorBytes(m[at..at + 16], e(iv)) + Ctr(m[at + 16..], e, Increment(iv, 16))
  {
    hide XorBytes, Increment;
    assert m[at..][16..] == m[at + 16..] && m[at..][..16] == m[at..at + 16];
  }

  lemma CtrLast(m: seq<Byte>, e: Cipher, iv: Block)
    requires |m| <= 16
    ensures Ctr(m, e, iv) == XorBytes(m, e(iv))
  {
  }

  // Appending to what is already done: (done + s) + left == done + (s + left).
  lemma Regroup(done: seq<Byte>, s: seq<Byte>, left: seq<Byte>)
    ensures (done + s) + left == done + (s + left)
  {
  }

  // Overwrites n bytes of out from position at, leaving the rest.
  method Store(s: seq<Byte>, out: array<Byte>, at: nat)
    requires at + |s| <= out.Length
    modifies out
    ensures forall i :: 0 <= i < out.Length ==> out[i] == if at <= i < at + |s| then s[i - at] else old(out[i])
  {
    forall i | 0 <= i < |s| {
      out[at + i] := s[i];
    }
  }

  // The input may be the output buffer itself.
  method AesEncryptCbc(input: array<Byte>, inLen: nat, out: array<Byte>, key: RoundKeys, keySize: int, iv: Block)
    returns (ok: bool)
    requires inLen <= input.Length && inLen <= out.Length
    modifies out
    ensures ok <==> inLen % 16 == 0
    ensures out[..] == if ok then Cbc(old(input[..inLen]), Encryptor(key, keySize), iv) + old(out[inLen..])
                       else old(out[..])
  {
    hide Encryptor, XorBytes, Cbc;
    if inLen % 16 != 0 {
      return false;
    }
    ghost var m, e := input[..inLen], Encryptor(key, keySize);
    var ivBuf := iv;
    for idx := 0 to inLen / 16
      invariant forall k :: 16 * idx <= k < inLen ==> input[k] == m[k]
      invariant out[..16 * idx] + Cbc(m[16 * idx..], e, ivBuf) == Cbc(m, e, iv)
      invariant forall k :: inLen <= k < out.Length ==> out[k] == old(out[k])
    {
      var at := 16 * idx;
      var bufIn := XorBytes(input[at..at + 16], ivBuf);
      var bufOut := EncryptBlock(bufIn, key, keySize);
      CbcStep(m, at, e, ivBuf);
      assert m[at..at + 16] == input[at..at + 16];
      ghost var done := out[..at];
      Store(bufOut, out, at);
      Regroup(done, bufOut, Cbc(m[at + 16..], e, bufOut));
      assert out[..at + 16] == done + bufOut;
      ivBuf := bufOut;
    }
    CbcEmpty(e, ivBuf);
    assert out[..] == out[..inLen] + out[inLen..] && m[inLen..] == [];
    return true;
  }

  method AesDecryptCbc(input: array<Byte>, inLen: nat, out: array<Byte>, key: RoundKeys, keySize: int, iv: Block)
    returns (ok: bool)
    requires inLen <= input.Length && inLen <= out.Length
    modifies out
    ensures ok <==> inLen % 16 == 0
    ensures out[..] == if ok then UnCbc(old(input[..inLen]), Decryptor(key, keySize), iv) + old(out[inLen..])
                       else old(out[..])
  {
    hide Decryptor, XorBytes, UnCbc;
    if inLen % 16 != 0 {
      return false;
    }
    ghost var m, d := input[..inLen], Decryptor(key, keySize);
    var ivBuf := iv;
    for idx := 0 to inLen / 16
      invariant forall k :: 16 * idx <= k < inLen ==> input[k] == m[k]
      invariant out[..16 * idx] + UnCbc(m[16 * idx..], d, ivBuf) == UnCbc(m, d, iv)
      invariant forall k :: inLen <= k < out.Length ==> out[k] == old(out[k])
    {
      var at := 16 * idx;
      var bufIn: Block := input[at..at + 16];
      var plain := DecryptBlock(bufIn, key, keySize);
      var bufOut := XorBytes(plain, ivBuf);
      UnCbcStep(m, at, d, ivBuf);
      assert m[at..at + 16] == input[at..at + 16];
      ghost var done := out[..at];
      Store(bufOut, out, at);
      Regroup(done, bufOut, UnCbc(m[at + 16..], d, bufIn));
      assert out[..at + 16] == done + bufOut;
      ivBuf := bufIn;
    }
    CbcEmpty(d, ivBuf);
    assert out[..] == out[..inLen] + out[inLen..] && m[inLen..] == [];
    return true;
  }

  // Only the last block is kept; with no block at all the result is whatever the buffer held.
  method AesEncryptCbcMac(input: seq<Byte>, key: RoundKeys, keySize: int, iv: Block) returns (ok: bool, out: Block)
    ensures ok <==> |input| % 16 == 0
    ensures ok && input != [] ==> out == CbcMac(input, Encryptor(key, keySize), iv)
  {
    hide Encryptor, XorBytes;
    out := *;
    if |input| % 16 != 0 {
      return false, out;
    }
    ghost var e := Encryptor(key, keySize);
    var ivBuf := iv;
    for idx := 0 to |input| / 16
      invariant CbcMac(input[16 * idx..], e, ivBuf) == CbcMac(input, e, iv)
      invariant idx > 0 ==> out == ivBuf
    {
      var at := 16 * idx;
      assert input[at..][16..] == input[at + 16..] && input[at..][..16] == input[at..at + 16];
      out := EncryptBlock(XorBytes(input[at..at + 16], ivBuf), key, keySize);
      ivBuf := out;
    }
    return true, out;
  }

  // A counter size below one leaves the block alone.
  method IncrementIv(iv: array<Byte>, counterSize: int)
    requires iv.Length == 16 && counterSize <= 16
    modifies iv
    ensures iv[..] == Increment(old(iv[..]), counterSize)
  {
    var idx := 15;
    while idx >= 16 - counterSize
      invariant idx < 16
      invariant IncrementAt(iv[..], idx, 16 - counterSize) == Increment(old(iv[..]), counterSize)
    {
      ghost var before := iv[..];
      iv[idx] := iv[idx] + 1;
      assert iv[..] == before[idx := before[idx] + 1];
      if iv[idx] != 0 || idx == 16 - counterSize {
        return;
      }
      idx := idx - 1;
    }
  }

  // Encrypts the counter block and adds its first n bytes to the buffer at pos.
  method XorKeystream(out: array<Byte>, ghost at: nat, pos: nat, n: nat, key: RoundKeys, keySize: int, iv: Block)
    requires at <= pos && pos + n <= out.Length && n <= 16
    modifies out
    ensures forall k :: 0 <= k < pos || pos + n <= k < out.Length ==> out[k] == old(out[k])
    ensures out[at..pos + n] == old(out[at..pos]) + XorBytes(old(out[pos..pos + n]), Encryptor(key, keySize)(iv))
  {
    hide Encryptor, XorBytes;
    var outBuf := EncryptBlock(iv, key, keySize);
    Store(XorBytes(out[pos..pos + n], outBuf), out, pos);
  }

  // The first idx bytes of the range are encrypted, the others still plain, and next continues the counter.
  ghost predicate CtrDone(out: array<Byte>, at: nat, m: seq<Byte>, iv: Block, idx: nat, e: Cipher, next: Block)
    requires at + |m| <= out.Length && idx <= |m|
    reads out
  {
    && (forall k :: at + idx <= k < at + |m| ==> out[k] == m[k - at])
    && out[at..at + idx] + Ctr(m[idx..], e, next) == Ctr(m, e, iv)
  }

  method CtrBlock(out: array<Byte>, at: nat, ghost m: seq<Byte>, ghost iv: Block, idx: nat, key: RoundKeys,
                  keySize: int, ivBuf: array<Byte>)
    requires at + |m| <= out.Length && idx + 16 < |m| && ivBuf.Length == 16 && ivBuf != out
    requires CtrDone(out, at, m, iv, idx, Encryptor(key, keySize), ivBuf[..])
    modifies out, ivBuf
    ensures CtrDone(out, at, m, iv, idx + 16, Encryptor(key, keySize), ivBuf[..])
    ensures forall k :: 0 <= k < at || at + |m| <= k < out.Length ==> out[k] == old(out[k])
  {
    hide Encryptor, XorBytes, Increment, Ctr;
    ghost var e := Encryptor(key, keySize);
    var pos := at + idx;
    CtrStep(m, idx, e, ivBuf[..]);
    assert m[idx..idx + 16] == out[pos..pos + 16];
    ghost var done, block := out[at..pos], XorBytes(out[pos..pos + 16], e(ivBuf[..]));
    XorKeystream(out, at, pos, 16, key, keySize, ivBuf[..]);
    IncrementIv(ivBuf, 16);
    Regroup(done, block, Ctr(m[idx + 16..], e, ivBuf[..]));
  }

  lemma NothingDone(out: array<Byte>, at: nat, m: seq<Byte>, iv: Block, e: Cipher)
    requires at + |m| <= out.Length && out[at..at + |m|] == m
    ensures CtrDone(out, at, m, iv, 0, e, iv)
  {
    hide Ctr;
    assert out[at..at + 0] + Ctr(m[0..], e, iv) == Ctr(m, e, iv);
  }

  lemma RestIsPlain(out: array<Byte>, at: nat, m: seq<Byte>, iv: Block, idx: nat, e: Cipher, next: Block)
    requires at + |m| <= out.Length && idx <= |m| && CtrDone(out, at, m, iv, idx, e, next)
    ensures out[at + idx..at + |m|] == m[idx..] && out[at..at + idx] + Ctr(m[idx..], e, next) == Ctr(m, e, iv)
  {
    hide Ctr;
  }

  // Encrypts out[at..at + len] in place.
  method CtrInPlace(out: array<Byte>, at: nat, len: nat, key: RoundKeys, keySize: int, iv: Block)
    requires at + len <= out.Length
    modifies out
    ensures forall k :: 0 <= k < at || at + len <= k < out.Length ==> out[k] == old(out[k])
    ensures out[at..at + len] == Ctr(old(out[at..at + len]), Encryptor(key, keySize), iv)
  {
    hide Encryptor, XorBytes, Ctr, CtrDone;
    ghost var m, e := out[at..at + len], Encryptor(key, keySize);
    var ivBuf := new Byte[16](i requires 0 <= i < 16 => iv[i]);
    assert ivBuf[..] == iv;
    NothingDone(out, at, m, iv, e);
    var idx := 0;
    while len > 16 && idx < len - 16
      invariant fresh(ivBuf) && ivBuf.Length == 16
      invariant idx <= len && (idx < len || len == 0)
      invariant forall k :: 0 <= k < at || at + len <= k < out.Length ==> out[k] == old(out[k])
      invariant CtrDone(out, at, m, iv, idx, e, ivBuf[..])
    {
      CtrBlock(out, at, m, iv, idx, key, keySize, ivBuf);
      idx := idx + 16;
    }
    RestIsPlain(out, at, m, iv, idx, e, ivBuf[..]);
    CtrLast(m[idx..], e, ivBuf[..]);
    XorKeystream(out, at, at + idx, len - idx, key, keySize, ivBuf[..]);
  }

  // The input may be the output buffer itself; another one is copied first.
  method AesEncryptCtr(input: array<Byte>, inLen: nat, out: array<Byte>, key: RoundKeys, keySize: int, iv: Block)
    requires inLen <= input.Length && inLen <= out.Length
    modifies out
    ensures out[..] == Ctr(old(input[..inLen]), Encryptor(key, keySize), iv) + old(out[inLen..])
  {
    hide Encryptor, Ctr;
    ghost var m := input[..inLen];
    if input != out {
      Store(input[..inLen], out, 0);
    }
    assert out[0..inLen] == m;
    CtrInPlace(out, 0, inLen, key, keySize, iv);
    assert out[..] == out[0..inLen] + out[inLen..];
  }

  // The MAC of the formatted buffer, built in the order the library builds it.
  method CcmMac(payload: seq<Byte>, assoc: seq<Byte>, nonce: Nonce, macLen: MacLen, key: RoundKeys, keySize: int)
    returns (mac: seq<Byte>)
    ensures mac == Mac(payload, assoc, nonce, macLen, Encryptor(key, keySize))
  {
    hide Encryptor, CbcMac, FirstBlock, FormatAssoc, FormatPayload;
    var buf: seq<Byte> := FirstBlock(|assoc|, |payload|, macLen, nonce);
    buf := buf + FormatAssoc(assoc, |buf|);
    buf := buf + FormatPayload(payload, |buf|);
    FormattedIsBlocks(payload, assoc, nonce, macLen);
    var ok, block := AesEncryptCbcMac(buf, key, keySize, Zeros(16));
    mac := block[..macLen];
  }

  // The local array of round keys.
  method ExpandKey(keyStr: seq<Byte>, keySize: int) returns (ok: bool, key: RoundKeys)
    requires KeySizeOk(keySize) ==> keySize / 8 <= |keyStr|
    ensures ok <==> KeySizeOk(keySize)
    ensures ok ==> key == Expand(keyStr, keySize)
  {
    hide Word;
    var w := new bv32[60](_ => 0);
    ok := KeySetup(keyStr, w, keySize);
    key := w[..];
  }

  method AesEncryptCcm(payload: seq<Byte>, assoc: seq<Byte>, nonce: seq<Byte>, out: array<Byte>, macLen: nat,
                       keyStr: seq<Byte>, keySize: int, outOfMemory: bool)
    returns (ok: bool, outLen: nat)
    requires KeySizeOk(keySize) ==> keySize / 8 <= |keyStr|
    requires MacLenOk(macLen) ==> |payload| + macLen <= out.Length
    modifies out
    ensures ok <==>
      MacLenOk(macLen) && NonceLenOk(|nonce|) && |assoc| <= 32768 && KeySizeOk(keySize) && !outOfMemory
    ensures !ok ==> out[..] == old(out[..])
    ensures ok ==> outLen == |payload| + macLen
    ensures ok ==> out[..outLen] == Seal(payload, assoc, nonce, macLen, Encryptor(Expand(keyStr, keySize), keySize))
    ensures ok ==> forall k :: outLen <= k < out.Length ==> out[k] == old(out[k])
  {
    hide Encryptor, Ctr, Mac, Increment, FirstCounter, Expand;
    if !MacLenOk(macLen) || !NonceLenOk(|nonce|) || |assoc| > 32768 {
      return false, 0;
    }
    var keyOk, key := ExpandKey(keyStr, keySize);
    if !keyOk || outOfMemory {
      return false, 0;
    }
    var counter := FirstCounter(nonce);
    var mac := CcmMac(payload, assoc, nonce, macLen, key, keySize);
    Store(payload, out, 0);
    Store(mac, out, |payload|);
    assert out[0..|payload|] == payload && out[|payload|..|payload| + macLen] == mac;
    CtrInPlace(out, 0, |payload|, key, keySize, Increment(counter, 15 - macLen));
    assert out[|payload|..|payload| + macLen] == mac;
    ghost var first := out[0..|payload|];
    CtrInPlace(out, |payload|, macLen, key, keySize, counter);
    assert out[..|payload| + macLen] == first + out[|payload|..|payload| + macLen];
    return true, |payload| + macLen;
  }

  // Without a flag to report to, the MAC is not checked; with one, a payload that fails it is wiped.
  method AesDecryptCcm(ciphertext: seq<Byte>, assoc: seq<Byte>, nonce: Nonce, plaintext: array<Byte>,
                       macLen: MacLen, check: bool, keyStr: seq<Byte>, keySize: int, outOfMemory: bool)
    returns (ok: bool, len: nat, authentic: bool)
    requires KeySizeOk(keySize) ==> keySize / 8 <= |keyStr|
    requires |ciphertext| <= plaintext.Length + macLen
    modifies plaintext
    ensures ok <==> |ciphertext| > macLen && KeySizeOk(keySize) && !outOfMemory
    ensures !ok ==> plaintext[..] == old(plaintext[..])
    ensures ok ==> len == |ciphertext| - macLen
    ensures ok ==>
      authentic == (check && Authentic(ciphertext, assoc, nonce, macLen, Encryptor(Expand(keyStr, keySize), keySize)))
    ensures ok && check && !authentic ==> plaintext[..len] == Zeros(len)
    ensures ok && (check ==> authentic) ==>
      plaintext[..len] == Plaintext(ciphertext, nonce, macLen, Encryptor(Expand(keyStr, keySize), keySize))
    ensures ok ==> forall k :: len <= k < plaintext.Length ==> plaintext[k] == old(plaintext[k])
  {
    hide Encryptor, Ctr, Mac, Increment, FirstCounter, Expand;
    if |ciphertext| <= macLen {
      return false, 0, false;
    }
    var keyOk, key := ExpandKey(keyStr, keySize);
    if !keyOk || outOfMemory {
      return false, 0, false;
    }
    len := |ciphertext| - macLen;
    Store(ciphertext[..len], plaintext, 0);
    assert plaintext[0..len] == ciphertext[..len];
    var counter := FirstCounter(nonce);
    CtrInPlace(plaintext, 0, len, key, keySize, Increment(counter, 15 - macLen));
    assert plaintext[..len] == plaintext[0..len];
    ok, authentic := true, false;
    if check {
      var mac := new Byte[macLen](i requires 0 <= i < macLen => ciphertext[len + i]);
      assert mac[0..macLen] == ciphertext[len..];
      CtrInPlace(mac, 0, macLen, key, keySize, counter);
      var expected := CcmMac(plaintext[..len], assoc, nonce, macLen, key, keySize);
      authentic := mac[..] == expected;
      assert mac[..] == mac[0..macLen];
      if !authentic {
        Store(Zeros(len), plaintext, 0);
      }
    }
  }
}
