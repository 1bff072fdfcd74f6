// The modes of operation over a block cipher: CBC and CTR (NIST SP 800-38A) and the library's CCM.
module BlockModes {
  import opened Bytes
  import opened AesTables
  import opened Aes

  // A block cipher under a fixed key.
  type Cipher = Block -> Block

  ghost predicate Inverts(d: Cipher, e: Cipher) { forall b: Block :: d(e(b)) == b }

  lemma XorBytesTwice(a: seq<Byte>, b: seq<Byte>)
    requires |a| <= |b|
    ensures XorBytes(XorBytes(a, b), b) == a
  {
    hide Xor8;
    forall i | 0 <= i < |a|
      ensures XorBytes(XorBytes(a, b), b)[i] == a[i]
    {
      XorTwice(a[i], b[i]);
    }
  }

  // ---- CBC ----

  // The chain over the whole blocks of m; a trailing part block is not encrypted.
  function Cbc(m: seq<Byte>, e: Cipher, iv: Block): (c: seq<Byte>)
    decreases |m|
  {
    if |m| < 16 then []
    else
      var c: seq<Byte> := e(XorBytes(m[..16], iv));
      var rest: seq<Byte> := Cbc(m[16..], e, c);
      c + rest
  }

  function UnCbc(c: seq<Byte>, d: Cipher, iv: Block): (m: seq<Byte>)
    decreases |c|
  {
    if |c| < 16 then []
    else
      var first: seq<Byte> := XorBytes(d(c[..16]), iv);
      var rest: seq<Byte> := UnCbc(c[16..], d, c[..16]);
      first + rest
  }

  // CBC decryption inverts CBC encryption on whole blocks.
  lemma {:induction false} CbcRoundTrip(m: seq<Byte>, e: Cipher, d: Cipher, iv: Block, n: nat)
    requires |m| == 16 * n && Inverts(d, e)
    ensures UnCbc(Cbc(m, e, iv), d, iv) == m
  {
    hide XorBytes;
    if n > 0 {
      var c := e(XorBytes(m[..16], iv));
      var out := Cbc(m, e, iv);
      assert out[..16] == c && out[16..] == Cbc(m[16..], e, c);
      XorBytesTwice(m[..16], iv);
      CbcRoundTrip(m[16..], e, d, c, n - 1);
    }
  }

  // The chaining value after all whole blocks of m.
  function CbcMac(m: seq<Byte>, e: Cipher, iv: Block): Block
    decreases |m|
  {
    if |m| < 16 then iv else CbcMac(m[16..], e, e(XorBytes(m[..16], iv)))
  }

  // It is the last block of the CBC encryption.
  lemma {:induction false} CbcMacIsLastBlock(m: seq<Byte>, e: Cipher, iv: Block, n: nat)
    requires |m| == 16 * n && n > 0
    ensures |Cbc(m, e, iv)| == |m| && CbcMac(m, e, iv) == Cbc(m, e, iv)[|m| - 16..]
  {
    hide XorBytes;
    var c := e(XorBytes(m[..16], iv));
    if n > 1 {
      CbcMacIsLastBlock(m[16..], e, c, n - 1);
      var out: seq<Byte>, rest: seq<Byte> := Cbc(m, e, iv), Cbc(m[16..], e, c);
      assert out[16..] == rest;
      assert out[|m| - 16..] == rest[|m| - 32..];
    }
  }

  // ---- the counter ----

  // Adds one with carry to iv[stop..idx + 1], read as a big-endian number, dropping the last carry.
  function IncrementAt(iv: Block, idx: int, stop: int): Block
    requires idx < 16 && 0 <= stop
    decreases idx
  {
    if idx < stop then iv
    else
      var next := iv[idx := iv[idx] + 1];
      if next[idx] != 0 || idx == stop then next else IncrementAt(next, idx - 1, stop)
  }

  // The last counterSize bytes of the block are the counter; a size below one leaves the block alone.
  function Increment(iv: Block, counterSize: int): Block
    requires counterSize <= 16
  {
    IncrementAt(iv, 15, 16 - counterSize)
  }

  function Value(s: seq<Byte>): nat {
    if s == [] then 0 else 256 * Value(s[..|s| - 1]) + (s[|s| - 1] as int)
  }

  function Pow256(k: nat): (p: nat)
    ensures p > 0
  {
    if k == 0 then 1 else 256 * Pow256(k - 1)
  }

  lemma {:induction false} ValueBelow(s: seq<Byte>)
    ensures Value(s) < Pow256(|s|)
  {
    if s != [] { ValueBelow(s[..|s| - 1]); }
  }

  lemma ByteSuccessor(b: Byte)
    ensures (b + 1) as int == if b as int == 255 then 0 else b as int + 1
    ensures b + 1 == 0 <==> b as int == 255
  {
    if b != 0xFF { IncrementByte(b); }
  }

  // On k bytes the counter goes up by one modulo 256^k, and nothing else changes.
  lemma {:induction false} IncrementAddsOne(iv: Block, idx: int, stop: int)
    requires 0 <= stop <= idx < 16
    ensures var next := IncrementAt(iv, idx, stop);
      && next[..stop] == iv[..stop] && next[idx + 1..] == iv[idx + 1..]
      && Value(next[stop..idx + 1]) == (Value(iv[stop..idx + 1]) + 1) % Pow256(idx + 1 - stop)
    decreases idx
  {
    hide Value, Pow256;
    ByteSuccessor(iv[idx]);
    var once := iv[idx := iv[idx] + 1];
    if once[idx] != 0 {
      NoCarry(iv, idx, stop);
    } else if idx == stop {
      LastByteWraps(iv, idx);
    } else {
      IncrementAddsOne(once, idx - 1, stop);
      CarryGoesOn(iv, idx, stop, IncrementAt(once, idx - 1, stop));
    }
  }

  // The last byte has become zero and the bytes before it have been increased.
  lemma CarryGoesOn(iv: Block, idx: int, stop: int, next: Block)
    requires 0 <= stop < idx < 16 && iv[idx] + 1 == 0
    requires
      var once := iv[idx := iv[idx] + 1];
      && next[..stop] == once[..stop] && next[idx..] == once[idx..]
      && Value(next[stop..idx]) == (Value(once[stop..idx]) + 1) % Pow256(idx - stop)
    ensures next[..stop] == iv[..stop] && next[idx + 1..] == iv[idx + 1..]
    ensures Value(next[stop..idx + 1]) == (Value(iv[stop..idx + 1]) + 1) % Pow256(idx + 1 - stop)
  {
    hide Value, Pow256;
    ByteSuccessor(iv[idx]);
    var once := iv[idx := iv[idx] + 1];
    assert next[idx + 1..] == next[idx..][1..] && iv[idx + 1..] == once[idx..][1..];
    assert once[..stop] == iv[..stop];
    assert next[idx] == next[idx..][0] == once[idx..][0] == 0;
    var high, k := iv[stop..idx], idx - stop;
    assert once[stop..idx] == high;
    assert iv[stop..idx + 1] == high + [iv[idx]];
    assert next[stop..idx + 1] == next[stop..idx] + [0];
    ValueSnoc(high, iv[idx]);
    ValueSnoc(next[stop..idx], 0);
    ValueBelow(high);
    PowerStep(k);
    CarryModulo(Value(high) + 1, Pow256(k));
  }

  lemma ValueSnoc(s: seq<Byte>, b: Byte)
    ensures Value(s + [b]) == 256 * Value(s) + (b as int)
  {
    assert (s + [b])[..|s|] == s;
  }

  lemma PowerStep(k: nat)
    ensures Pow256(k + 1) == 256 * Pow256(k)
    ensures Pow256(0) == 1 && Value([]) == 0
  {
  }

  lemma NoCarry(iv: Block, idx: int, stop: int)
    requires 0 <= stop <= idx < 16 && iv[idx] + 1 != 0
    ensures var next := iv[idx := iv[idx] + 1];
      && next[..stop] == iv[..stop] && next[idx + 1..] == iv[idx + 1..]
      && Value(next[stop..idx + 1]) == (Value(iv[stop..idx + 1]) + 1) % Pow256(idx + 1 - stop)
  {
    hide Value, Pow256;
    var next := iv[idx := iv[idx] + 1];
    var high := iv[stop..idx];
    ByteSuccessor(iv[idx]);
    assert iv[stop..idx + 1] == high + [iv[idx]];
    assert next[stop..idx + 1] == high + [next[idx]];
    ValueSnoc(high, iv[idx]);
    ValueSnoc(high, next[idx]);
    ValueBelow(next[stop..idx + 1]);
    SmallModulo(Value(iv[stop..idx + 1]) + 1, Pow256(idx + 1 - stop));
  }

  lemma LastByteWraps(iv: Block, idx: int)
    requires 0 <= idx < 16 && iv[idx] + 1 == 0
    ensures var next := iv[idx := iv[idx] + 1];
      && next[..idx] == iv[..idx] && next[idx + 1..] == iv[idx + 1..]
      && Value(next[idx..idx + 1]) == (Value(iv[idx..idx + 1]) + 1) % Pow256(1)
  {
    hide Value, Pow256;
    var next := iv[idx := iv[idx] + 1];
    ByteSuccessor(iv[idx]);
    assert iv[idx..idx + 1] == [] + [iv[idx]] && next[idx..idx + 1] == [] + [next[idx]];
    ValueSnoc([], iv[idx]);
    ValueSnoc([], next[idx]);
    PowerStep(0);
  }

  lemma SmallModulo(a: nat, n: nat)
    requires a < n
    ensures a % n == a
  {
  }

  lemma CarryModulo(a: nat, n: nat)
    requires n > 0 && a <= n
    ensures (256 * a) % (256 * n) == 256 * (a % n)
  {
    if a < n {
      SmallModulo(a, n);
      SmallModulo(256 * a, 256 * n);
    } else {
      SelfModulo(n);
      SelfModulo(256 * n);
    }
  }

  lemma SelfModulo(n: nat)
    requires n > 0
    ensures n % n == 0
  {
  }

  // ---- CTR ----

  function Ctr(m: seq<Byte>, e: Cipher, iv: Block): (c: seq<Byte>)
    ensures |c| == |m|
  {
    if |m| <= 16 then XorBytes(m, e(iv))
    else XorBytes(m[..16], e(iv)) + Ctr(m[16..], e, Increment(iv, 16))
  }

  // Applying CTR twice gives the message back, whatever its length.
  lemma {:induction false} CtrTwice(m: seq<Byte>, e: Cipher, iv: Block)
    ensures Ctr(Ctr(m, e, iv), e, iv) == m
    decreases |m|
  {
    hide Increment, XorBytes;
    if |m| <= 16 {
      XorBytesTwice(m, e(iv));
    } else {
      XorBytesTwice(m[..16], e(iv));
      var c := Ctr(m, e, iv);
      assert c[..16] == XorBytes(m[..16], e(iv)) && c[16..] == Ctr(m[16..], e, Increment(iv, 16));
      CtrTwice(m[16..], e, Increment(iv, 16));
    }
  }

  // ---- block by block ----

  lemma {:induction false} CbcLength(m: seq<Byte>, e: Cipher, iv: Block, n: nat)
    requires |m| == 16 * n
    ensures |Cbc(m, e, iv)| == |m|
  {
    hide XorBytes;
    if n > 0 { CbcLength(m[16..], e, e(XorBytes(m[..16], iv)), n - 1); }
  }

  // Block k of the output is the cipher on block k of the message added to the block of the output before it, the first
  // to the initial value.
  lemma {:induction false} CbcBlock(m: seq<Byte>, e: Cipher, iv: Block, n: nat, k: nat)
    requires |m| == 16 * n && k < n
    ensures |Cbc(m, e, iv)| == |m|
    ensures var c := Cbc(m, e, iv);
      c[16 * k..16 * k + 16] == e(XorBytes(m[16 * k..16 * k + 16], if k == 0 then iv else c[16 * k - 16..16 * k]))
  {
    hide XorBytes;
    CbcLength(m, e, iv, n);
    var c, first := Cbc(m, e, iv), e(XorBytes(m[..16], iv));
    var rest: seq<Byte> := Cbc(m[16..], e, first);
    assert c[..16] == first && c[16..] == rest;
    if k > 0 {
      CbcBlock(m[16..], e, first, n - 1, k - 1);
      SliceOfTail(m, 16, 16 * k - 16, 16 * k);
      SliceOfTail(c, 16, 16 * k - 16, 16 * k);
      if k > 1 { SliceOfTail(c, 16, 16 * k - 32, 16 * k - 16); }
    }
  }

  lemma SliceOfTail(s: seq<Byte>, at: nat, a: nat, b: nat)
    requires at <= |s| && a <= b && at + b <= |s|
    ensures s[at..][a..b] == s[at + a..at + b]
  {
  }

  // The counter block after k steps.
  function CounterAfter(iv: Block, k: nat): Block { if k == 0 then iv else Increment(CounterAfter(iv, k - 1), 16) }

  // It is the first one plus k, as a big-endian number modulo 256^16.
  lemma {:induction false} CounterAdds(iv: Block, k: nat)
    ensures Value(CounterAfter(iv, k)) == (Value(iv) + k) % Pow256(16)
  {
    hide Value, Pow256, IncrementAt;
    if k == 0 {
      ValueBelow(iv);
      SmallModulo(Value(iv), Pow256(16));
    } else {
      var before := CounterAfter(iv, k - 1);
      CounterAdds(iv, k - 1);
      IncrementAddsOne(before, 15, 0);
      assert before[0..16] == before && Increment(before, 16)[0..16] == Increment(before, 16);
      AllCounters();
      AddModulo(Value(iv) + k - 1);
    }
  }

  lemma AllCounters()
    ensures Pow256(16) == 0x1_0000_0000_0000_0000_0000_0000_0000_0000
  {
    assert Pow256(8) == 0x1_0000_0000_0000_0000;
  }

  lemma AddModulo(a: nat)
    ensures var n := 0x1_0000_0000_0000_0000_0000_0000_0000_0000;
      (a % n + 1) % n == (a + 1) % n
  {
  }

  lemma {:induction false} CounterOfNext(iv: Block, k: nat)
    ensures CounterAfter(Increment(iv, 16), k) == CounterAfter(iv, k + 1)
  {
    hide Increment;
    if k > 0 { CounterOfNext(iv, k - 1); }
  }

  // Block k of the output, the last of them perhaps shorter, is block k of the message added to the cipher on the k-th
  // counter block.
  lemma {:induction false} CtrBlockIs(m: seq<Byte>, e: Cipher, iv: Block, k: nat, end: nat)
    requires 16 * k < |m| && end == if 16 * k + 16 <= |m| then 16 * k + 16 else |m|
    ensures Ctr(m, e, iv)[16 * k..end] == XorBytes(m[16 * k..end], e(CounterAfter(iv, k)))
    decreases k
  {
    hide Increment, XorBytes;
    var c := Ctr(m, e, iv);
    if k == 0 {
      if |m| <= 16 {
        assert m[0..end] == m && c[0..end] == c;
      } else {
        assert c[0..16] == XorBytes(m[..16], e(iv)) && m[0..16] == m[..16];
      }
    } else {
      var rest := Ctr(m[16..], e, Increment(iv, 16));
      assert c[16..] == rest;
      CtrBlockIs(m[16..], e, Increment(iv, 16), k - 1, end - 16);
      CounterOfNext(iv, k - 1);
      SliceOfTail(m, 16, 16 * k - 16, end - 16);
      SliceOfTail(c, 16, 16 * k - 16, end - 16);
    }
  }
}
