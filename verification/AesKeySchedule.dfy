// The AES key expansion (FIPS 197, section 5.2).
module AesKeySchedule {
  import opened Bytes
  import opened AesTables
  import opened Aes

  predicate KeySizeOk(keySize: int) { keySize == 128 || keySize == 192 || keySize == 256 }

  function SubWord(w: bv32): bv32 {
    hide Sbox, Byte0, Byte1, Byte2, Byte3, WordOf;
    WordOf(Sbox(Byte3(w)), Sbox(Byte2(w)), Sbox(Byte1(w)), Sbox(Byte0(w)))
  }

  function RotWord(w: bv32): bv32 { (w << 8) | (w >> 24) }

  // The bytes move one place up, the first one round to the end.
  lemma RotWordBytes(b0: Byte, b1: Byte, b2: Byte, b3: Byte)
    ensures RotWord(WordOf(b0, b1, b2, b3)) == WordOf(b1, b2, b3, b0)
  {
  }

  const RCON: seq<bv32> := [
    0x0100_0000, 0x0200_0000, 0x0400_0000, 0x0800_0000, 0x1000_0000, 0x2000_0000, 0x4000_0000, 0x8000_0000,
    0x1b00_0000, 0x3600_0000, 0x6c00_0000, 0xd800_0000, 0xab00_0000, 0x4d00_0000, 0x9a00_0000]

  function Rcon(n: nat): bv32
    requires n < 15
  {
    RCON[n]
  }

  // The powers of x in the field.
  function RoundConstant(n: nat): Byte { if n == 0 then 1 else Xtime(RoundConstant(n - 1)) }

  lemma RconFirst()
    ensures Rcon(0) == WordOf(1, 0, 0, 0)
  {
  }

  lemma RconNext(n: nat, c: Byte)
    requires n < 14 && Rcon(n) == WordOf(c, 0, 0, 0)
    ensures Rcon(n + 1) == WordOf(Xtime(c), 0, 0, 0)
  {
  }

  // The table holds the first fifteen.
  lemma {:induction false} RconIsPower(n: nat)
    requires n < 15
    ensures Rcon(n) == WordOf(RoundConstant(n), 0, 0, 0)
  {
    hide Rcon, WordOf, Xtime;
    RconFirst();
    if n > 0 {
      RconIsPower(n - 1);
      RconNext(n - 1, RoundConstant(n - 1));
    }
  }

  // What word i adds to the word one key length before it, given its predecessor.
  function Mixed(previous: bv32, i: nat, nk: nat): bv32
    requires 4 <= nk <= i
  {
    hide SubWord, RotWord, WordOf, Xor32, RoundConstant;
    if i % nk == 0 then Xor32(SubWord(RotWord(previous)), WordOf(RoundConstant(i / nk - 1), 0, 0, 0))
    else if nk > 6 && i % nk == 4 then SubWord(previous)
    else previous
  }

  // Word i of the schedule of a key of nk words.
  function Word(key: seq<Byte>, nk: nat, i: nat): bv32
    requires 4 <= nk && 4 * nk <= |key|
  {
    hide WordOf, Xor32;
    if i < nk then WordOf(key[4 * i], key[4 * i + 1], key[4 * i + 2], key[4 * i + 3])
    else Xor32(Word(key, nk, i - nk), Mixed(Word(key, nk, i - 1), i, nk))
  }

  lemma ConstantInTable(idx: nat, nk: nat)
    requires 4 <= nk <= idx < 60 && idx % nk == 0
    ensures (idx - 1) / nk == idx / nk - 1 < 15
  {
    var q := idx / nk;
    assert idx == q * nk && idx - 1 == (q - 1) * nk + (nk - 1);
    assert (idx - 1) / nk == q - 1;
    assert q <= idx / 4;
  }

  method MixWord(previous: bv32, idx: nat, nk: nat) returns (temp: bv32)
    requires 4 <= nk <= idx < 60
    ensures temp == Mixed(previous, idx, nk)
  {
    hide WordOf, Xor32, SubWord, RotWord, RoundConstant, Rcon;
    temp := previous;
    if idx % nk == 0 {
      ConstantInTable(idx, nk);
      RconIsPower((idx - 1) / nk);
      temp := Xor32(SubWord(RotWord(temp)), Rcon((idx - 1) / nk));
    } else if nk > 6 && idx % nk == 4 {
      temp := SubWord(temp);
    }
  }

  lemma WordStep(key: seq<Byte>, nk: nat, i: nat)
    requires 4 <= nk <= i && 4 * nk <= |key|
    ensures Word(key, nk, i) == Xor32(Word(key, nk, i - nk), Mixed(Word(key, nk, i - 1), i, nk))
  {
    hide WordOf, Xor32, Mixed;
  }

  method LoadWords(key: seq<Byte>, w: array<bv32>, nk: nat)
    requires 4 <= nk <= w.Length && 4 * nk <= |key|
    modifies w
    ensures forall i :: 0 <= i < nk ==> w[i] == Word(key, nk, i)
    ensures forall i :: nk <= i < w.Length ==> w[i] == old(w[i])
  {
    hide WordOf, Xor32, Mixed;
    for idx := 0 to nk
      invariant forall i :: 0 <= i < idx ==> w[i] == Word(key, nk, i)
      invariant forall i :: nk <= i < w.Length ==> w[i] == old(w[i])
    {
      w[idx] := WordOf(key[4 * idx], key[4 * idx + 1], key[4 * idx + 2], key[4 * idx + 3]);
    }
  }

  method FillWords(key: seq<Byte>, w: array<bv32>, nk: nat, count: nat)
    requires 4 <= nk && 4 * nk <= |key| && nk <= count <= w.Length && count <= 60
    modifies w
    ensures forall i :: 0 <= i < count ==> w[i] == Word(key, nk, i)
    ensures forall i :: count <= i < w.Length ==> w[i] == old(w[i])
  {
    hide Xor32, Mixed, Word;
    LoadWords(key, w, nk);
    for idx := nk to count
      invariant forall i :: 0 <= i < idx ==> w[i] == Word(key, nk, i)
      invariant forall i :: count <= i < w.Length ==> w[i] == old(w[i])
    {
      var temp := MixWord(w[idx - 1], idx, nk);
      WordStep(key, nk, idx);
      w[idx] := Xor32(w[idx - nk], temp);
    }
  }

  // The loops fill the array with the schedule; another key size is refused.
  method KeySetup(key: seq<Byte>, w: array<bv32>, keySize: int) returns (ok: bool)
    requires KeySizeOk(keySize) ==> keySize / 8 <= |key| && 4 * EncryptRounds(keySize) + 4 <= w.Length
    modifies w
    ensures ok <==> KeySizeOk(keySize)
    ensures !ok ==> w[..] == old(w[..])
    ensures ok ==> forall i :: 0 <= i < 4 * EncryptRounds(keySize) + 4 ==> w[i] == Word(key, keySize / 32, i)
    ensures ok ==> forall i :: 4 * EncryptRounds(keySize) + 4 <= i < w.Length ==> w[i] == old(w[i])
  {
    hide Word;
    match keySize {
      case 128 => FillWords(key, w, 4, 4 * (10 + 1));
      case 192 => FillWords(key, w, 6, 4 * (12 + 1));
      case 256 => FillWords(key, w, 8, 4 * (14 + 1));
      case _ => return false;
    }
    return true;
  }

  // The sixty words the modes work with: the schedule, and zeros past the last round key.
  function Expand(key: seq<Byte>, keySize: int): (w: seq<bv32>)
    requires KeySizeOk(keySize) && keySize / 8 <= |key|
    ensures |w| == 60
  {
    seq(60, i requires 0 <= i < 60 => if i < 4 * EncryptRounds(keySize) + 4 then Word(key, keySize / 32, i) else 0)
  }

  // ---- nothing of the key is lost ----

  lemma Xor32Cancels(a: bv32, b: bv32, c: bv32)
    requires Xor32(a, c) == Xor32(b, c)
    ensures a == b
  {
    assert (a ^ c) ^ c == a && (b ^ c) ^ c == b;
  }

  lemma WordOfInjective(a: Byte, b: Byte, c: Byte, d: Byte, a': Byte, b': Byte, c': Byte, d': Byte)
    requires WordOf(a, b, c, d) == WordOf(a', b', c', d')
    ensures a == a' && b == b' && c == c' && d == d'
  {
  }

  // Two schedules that agree on as many words in a row as the key has agree on all earlier words.
  lemma {:induction false} WindowDeterminesPast(key: seq<Byte>, key': seq<Byte>, nk: nat, i: nat)
    requires 4 <= nk && 4 * nk <= |key| && 4 * nk <= |key'|
    requires forall k :: i <= k < i + nk ==> Word(key, nk, k) == Word(key', nk, k)
    ensures forall k :: 0 <= k < i + nk ==> Word(key, nk, k) == Word(key', nk, k)
  {
    hide Mixed, Xor32, WordOf;
    if i > 0 {
      var last := i - 1 + nk;
      assert Word(key, nk, last - 1) == Word(key', nk, last - 1) && Word(key, nk, last) == Word(key', nk, last);
      Xor32Cancels(Word(key, nk, i - 1), Word(key', nk, i - 1), Mixed(Word(key, nk, last - 1), last, nk));
      WindowDeterminesPast(key, key', nk, i - 1);
    }
  }

  // So any such window, the last round keys for instance, determines the key: no two keys share a schedule.
  lemma WindowDeterminesKey(key: seq<Byte>, key': seq<Byte>, nk: nat, i: nat)
    requires 4 <= nk && |key| == |key'| == 4 * nk
    requires forall k :: i <= k < i + nk ==> Word(key, nk, k) == Word(key', nk, k)
    ensures key == key'
  {
    hide Mixed, Xor32, WordOf;
    WindowDeterminesPast(key, key', nk, i);
    forall n | 0 <= n < |key|
      ensures key[n] == key'[n]
    {
      var k := n / 4;
      assert Word(key, nk, k) == Word(key', nk, k);
      WordOfInjective(key[4 * k], key[4 * k + 1], key[4 * k + 2], key[4 * k + 3],
                      key'[4 * k], key'[4 * k + 1], key'[4 * k + 2], key'[4 * k + 3]);
    }
  }
}
