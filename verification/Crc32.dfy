// The CRC-32 of ISO/IEC 13818-1. The reference is the bit-serial shift register of
// Annex A of that standard; the table-driven loop of the programs is proved against it.
module Crc32 {
  import opened Bytes

  const POLY: bv32 := 0x04C1_1DB7
  const INITIAL: bv32 := 0xFFFF_FFFF

  // Word operations under names of their own, so that proofs can reason about
  // them by their algebraic laws alone.
  function Up(a: bv32): bv32 { a << 1 }

  function Up8(a: bv32): bv32 { a << 8 }

  function Top(a: bv32): bv32 { a & 0x8000_0000 }

  function Low(a: bv32): bv32 { a & 0x7FFF_FFFF }

  function High(b: Byte): bv32 { (b as bv32) << 24 }

  function BelowTop(a: bv32): bv32 { a & 0x00FF_FFFF }

  // ---- the shift register of Annex A ----

  // One shift of the register: divide once by the generator polynomial.
  function Shift(c: bv32): bv32 {
    if Top(c) != 0 then Xor32(Up(c), POLY) else Up(c)
  }

  // The top bit of x enters the register.
  function FeedTop(c: bv32, x: bv32): bv32 {
    Shift(Xor32(c, Top(x)))
  }

  // The eight bits of a byte enter the register, most significant bit first.
  function FeedByte(c: bv32, b: Byte): bv32 {
    var x := High(b);
    var c, x := FeedTop(c, x), Up(x);
    var c, x := FeedTop(c, x), Up(x);
    var c, x := FeedTop(c, x), Up(x);
    var c, x := FeedTop(c, x), Up(x);
    var c, x := FeedTop(c, x), Up(x);
    var c, x := FeedTop(c, x), Up(x);
    var c, x := FeedTop(c, x), Up(x);
    FeedTop(c, x)
  }

  // The register after a whole message.
  function Register(c: bv32, message: seq<Byte>): bv32 {
    if message == [] then c
    else FeedByte(Register(c, message[..|message| - 1]), message[|message| - 1])
  }

  function Crc(message: seq<Byte>): bv32 { Register(INITIAL, message) }

  // ---- laws of the word operations ----

  lemma XorCancel(a: bv32, b: bv32)
    ensures Xor32(Xor32(a, b), b) == a
  {
  }

  lemma XorCommutes(a: bv32, b: bv32)
    ensures Xor32(a, b) == Xor32(b, a)
  {
  }

  lemma XorZero(a: bv32)
    ensures Xor32(a, 0) == a
  {
  }

  lemma XorIsZero(a: bv32, b: bv32)
    ensures Xor32(a, b) == 0 <==> a == b
  {
    hide Xor32;
    XorCancel(a, b);
    XorCancel(0, b);
    XorCommutes(0, b);
    XorZero(b);
  }

  lemma XorLaws(a: bv32, b: bv32)
    ensures Xor32(Xor32(a, b), b) == a
    ensures Xor32(a, b) == Xor32(b, a)
    ensures Xor32(a, 0) == a
    ensures Xor32(a, b) == 0 <==> a == b
  {
    hide Xor32;
    XorCancel(a, b);
    XorCommutes(a, b);
    XorIsZero(a, b);
    XorZero(a);
  }

  lemma XorAssociates(a: bv32, b: bv32, c: bv32)
    ensures Xor32(Xor32(a, b), c) == Xor32(a, Xor32(b, c))
  {
  }

  lemma XorPoly(u: bv32, v: bv32)
    ensures Xor32(Xor32(u, POLY), Xor32(v, POLY)) == Xor32(u, v)
    ensures Xor32(Xor32(u, POLY), v) == Xor32(Xor32(u, v), POLY)
    ensures Xor32(u, Xor32(v, POLY)) == Xor32(Xor32(u, v), POLY)
  {
    hide Xor32;
    XorAssociates(Xor32(u, POLY), v, POLY);
    XorAssociates(u, POLY, v);
    XorAssociates(u, v, POLY);
    XorCommutes(v, POLY);
    XorCancel(Xor32(u, v), POLY);
  }

  lemma TopUpLinear(a: bv32, b: bv32)
    ensures Top(Xor32(a, b)) != 0 <==> (Top(a) != 0) != (Top(b) != 0)
    ensures Up(Xor32(a, b)) == Xor32(Up(a), Up(b))
  {
  }

  lemma ShiftLinear(a: bv32, b: bv32)
    ensures Shift(Xor32(a, b)) == Xor32(Shift(a), Shift(b))
  {
    hide Xor32, Up, Top;
    TopUpLinear(a, b);
    XorPoly(Up(a), Up(b));
  }

  // The generator ends in a one, so a shift loses nothing.
  lemma ShiftInjective(c: bv32)
    requires Shift(c) == 0
    ensures c == 0
  {
  }

  lemma LowFromTop(x: bv32)
    ensures Xor32(x, Top(x)) == Low(x)
  {
  }

  lemma DropTop(d: bv32, x: bv32)
    ensures Xor32(Xor32(d, x), Top(x)) == Xor32(d, Low(x))
  {
    hide Xor32, Top, Low;
    XorAssociates(d, x, Top(x));
    LowFromTop(x);
  }

  lemma ShiftOfLow(x: bv32)
    ensures Shift(Low(x)) == Up(x)
  {
  }

  // Adding the remaining message bits to the register in advance commutes with a step.
  lemma FeedPending(d: bv32, x: bv32)
    ensures FeedTop(Xor32(d, x), x) == Xor32(Shift(d), Up(x))
  {
    hide Xor32, Up, Top, Low, Shift;
    DropTop(d, x);
    ShiftOfLow(x);
    ShiftLinear(d, Low(x));
  }

  // ---- the table-driven form ----

  function Shift8(c: bv32): bv32 {
    Shift(Shift(Shift(Shift(Shift(Shift(Shift(Shift(c))))))))
  }

  lemma Up8High(b: Byte)
    ensures Up(Up(Up(Up(Up(Up(Up(Up(High(b))))))))) == 0
  {
  }

  // Eight fed bits are one addition of the byte at the top and eight shifts.
  lemma FeedByteIsShift8(c: bv32, b: Byte)
    ensures FeedByte(c, b) == Shift8(Xor32(c, High(b)))
  {
    hide Xor32, Up, Top, High, Shift, FeedTop;
    var d, x := Xor32(c, High(b)), High(b);
    XorLaws(c, x);
    FeedPending(d, x);  d, x := Shift(d), Up(x);
    FeedPending(d, x);  d, x := Shift(d), Up(x);
    FeedPending(d, x);  d, x := Shift(d), Up(x);
    FeedPending(d, x);  d, x := Shift(d), Up(x);
    FeedPending(d, x);  d, x := Shift(d), Up(x);
    FeedPending(d, x);  d, x := Shift(d), Up(x);
    FeedPending(d, x);  d, x := Shift(d), Up(x);
    FeedPending(d, x);
    Up8High(b);
    XorLaws(Shift(d), 0);
  }

  lemma Shift8Linear(a: bv32, b: bv32)
    ensures Shift8(Xor32(a, b)) == Xor32(Shift8(a), Shift8(b))
  {
    hide Xor32, Shift;
    var a, b := a, b;
    ShiftLinear(a, b);  a, b := Shift(a), Shift(b);
    ShiftLinear(a, b);  a, b := Shift(a), Shift(b);
    ShiftLinear(a, b);  a, b := Shift(a), Shift(b);
    ShiftLinear(a, b);  a, b := Shift(a), Shift(b);
    ShiftLinear(a, b);  a, b := Shift(a), Shift(b);
    ShiftLinear(a, b);  a, b := Shift(a), Shift(b);
    ShiftLinear(a, b);  a, b := Shift(a), Shift(b);
    ShiftLinear(a, b);
  }

  lemma Shift8Zero()
    ensures Shift8(0) == 0
  {
  }

  lemma Shift8Injective(a: bv32, b: bv32)
    requires Shift8(a) == Shift8(b)
    ensures a == b
  {
    hide Xor32, Shift;
    Shift8Linear(a, b);
    XorLaws(Shift8(a), Shift8(b));
    var d := Xor32(a, b);
    ShiftInjective(Shift(Shift(Shift(Shift(Shift(Shift(Shift(d))))))));
    ShiftInjective(Shift(Shift(Shift(Shift(Shift(Shift(d)))))));
    ShiftInjective(Shift(Shift(Shift(Shift(Shift(d))))));
    ShiftInjective(Shift(Shift(Shift(Shift(d)))));
    ShiftInjective(Shift(Shift(Shift(d))));
    ShiftInjective(Shift(Shift(d)));
    ShiftInjective(Shift(d));
    ShiftInjective(d);
    XorLaws(a, b);
  }

  // What a table-driven step computes, and why it is a whole byte of the register.
  function TableStep(c: bv32, b: Byte): bv32 {
    Xor32(Up8(c), Shift8(High(Byte3(c) ^ b)))
  }

  lemma SplitTopByte(c: bv32, b: Byte)
    ensures Xor32(c, High(b)) == Xor32(BelowTop(c), High(Byte3(c) ^ b))
  {
  }

  lemma Shift8Low(c: bv32)
    ensures Shift8(BelowTop(c)) == Up8(c)
  {
  }

  lemma TableStepIsFeedByte(c: bv32, b: Byte)
    ensures TableStep(c, b) == FeedByte(c, b)
  {
    hide Xor32, High, Byte3, BelowTop, Up8, Shift8, FeedByte;
    FeedByteIsShift8(c, b);
    SplitTopByte(c, b);
    Shift8Linear(BelowTop(c), High(Byte3(c) ^ b));
    Shift8Low(c);
  }

  // One table-driven step, given the entry that the step looks up.
  function StepByTable(crc: bv32, b: Byte, entry: bv32): (next: bv32)
    requires entry == Shift8(High(Byte3(crc) ^ b))
    ensures next == FeedByte(crc, b)
  {
    TableStepIsFeedByte(crc, b);
    Xor32(Up8(crc), entry)
  }

  class CrcTable {
    const table: array<bv32>
    var initialized: bool

    ghost predicate Valid()
      reads this, table
    {
      table.Length == 256 &&
      (initialized ==> forall i :: 0 <= i < 256 ==> table[i] == Shift8(High(ByteOf(i))))
    }

    constructor ()
      ensures Valid() && fresh(table) && !initialized
    {
      table := new bv32[256];
      initialized := false;
    }

    method Init()
      requires Valid()
      modifies this, table
      ensures Valid() && initialized
    {
      if initialized { return; }
      for i := 0 to 256
        invariant table.Length == 256
        invariant forall k :: 0 <= k < i ==> table[k] == Shift8(High(ByteOf(k)))
      {
        var c := High(ByteOf(i));
        ghost var reached := [c];
        for j := 0 to 8
          invariant |reached| == j + 1 && reached[0] == High(ByteOf(i)) && c == reached[j]
          invariant forall k :: 0 <= k < j ==> reached[k + 1] == Shift(reached[k])
        {
          c := if Top(c) != 0 then Xor32(Up(c), POLY) else Up(c);
          reached := reached + [c];
        }
        EightShifts(reached);
        table[i] := c;
      }
      initialized := true;
    }

    static lemma EightShifts(reached: seq<bv32>)
      requires |reached| == 9 && forall k :: 0 <= k < 8 ==> reached[k + 1] == Shift(reached[k])
      ensures reached[8] == Shift8(reached[0])
    {
      hide Shift;
      assert reached[1] == Shift(reached[0]);
      assert reached[2] == Shift(reached[1]);
      assert reached[3] == Shift(reached[2]);
      assert reached[4] == Shift(reached[3]);
      assert reached[5] == Shift(reached[4]);
      assert reached[6] == Shift(reached[5]);
      assert reached[7] == Shift(reached[6]);
      assert reached[8] == Shift(reached[7]);
    }

    // The table-driven loop computes the register of Annex A for every message.
    method Compute(data: seq<Byte>) returns (crc: bv32)
      requires Valid()
      modifies this, table
      ensures Valid()
      ensures crc == Crc(data)
    {
      if !initialized { Init(); }
      hide Xor32, High, Byte3, Up8, Shift8, FeedByte, ByteOf;
      crc := INITIAL;
      for i := 0 to |data|
        invariant Valid() && initialized
        invariant crc == Register(INITIAL, data[..i])
      {
        var index := Byte3(crc) ^ data[i];
        ByteOfByte(index);
        crc := StepByTable(crc, data[i], table[index as int]);
        assert data[..i + 1][..i] == data[..i];
      }
      assert data[..|data|] == data;
    }
  }

  // ---- what the check detects ----

  lemma {:induction false} RegisterConcat(c: bv32, a: seq<Byte>, b: seq<Byte>)
    ensures Register(c, a + b) == Register(Register(c, a), b)
  {
    hide FeedByte;
    if b == [] {
      assert a + b == a;
    } else {
      assert (a + b)[..|a + b| - 1] == a + b[..|b| - 1];
      RegisterConcat(c, a, b[..|b| - 1]);
    }
  }

  lemma FeedByteInjective(c: bv32, d: bv32, b: Byte)
    requires FeedByte(c, b) == FeedByte(d, b)
    ensures c == d
  {
    hide Xor32, High, Shift8, FeedByte;
    FeedByteIsShift8(c, b);
    FeedByteIsShift8(d, b);
    Shift8Injective(Xor32(c, High(b)), Xor32(d, High(b)));
    XorLaws(c, High(b));
    XorLaws(d, High(b));
  }

  lemma HighInjective(a: Byte, b: Byte)
    requires High(a) == High(b)
    ensures a == b
  {
  }

  lemma FeedByteDistinguishes(c: bv32, a: Byte, b: Byte)
    requires FeedByte(c, a) == FeedByte(c, b)
    ensures a == b
  {
    hide Xor32, High, Shift8, FeedByte;
    FeedByteIsShift8(c, a);
    FeedByteIsShift8(c, b);
    Shift8Injective(Xor32(c, High(a)), Xor32(c, High(b)));
    XorLaws(c, High(a));
    XorLaws(c, High(b));
    XorLaws(High(a), c);
    XorLaws(High(b), c);
    HighInjective(a, b);
  }

  // The register is an injective function of its starting value, for every message.
  lemma {:induction false} RegisterInjective(c: bv32, d: bv32, message: seq<Byte>)
    requires Register(c, message) == Register(d, message)
    ensures c == d
  {
    hide FeedByte;
    if message != [] {
      var front := message[..|message| - 1];
      FeedByteInjective(Register(c, front), Register(d, front), message[|message| - 1]);
      RegisterInjective(c, d, front);
    }
  }

  // Two messages that differ in exactly one byte never share a register value.
  lemma SingleByteChange(c: bv32, message: seq<Byte>, k: nat, b: Byte)
    requires k < |message| && b != message[k]
    ensures Register(c, message[k := b]) != Register(c, message)
  {
    hide FeedByte;
    var front, back := message[..k], message[k + 1..];
    assert message == front + [message[k]] + back;
    assert message[k := b] == front + [b] + back;
    RegisterConcat(c, front + [message[k]], back);
    RegisterConcat(c, front + [b], back);
    assert (front + [message[k]])[..k] == front == (front + [b])[..k];
    if Register(c, message[k := b]) == Register(c, message) {
      RegisterInjective(Register(c, front + [b]), Register(c, front + [message[k]]), back);
      FeedByteDistinguishes(Register(c, front), b, message[k]);
    }
  }

  function Word(t: seq<Byte>): bv32
    requires |t| == 4
  {
    WordOf(t[0], t[1], t[2], t[3])
  }

  lemma WordInjective(s: seq<Byte>, t: seq<Byte>)
    requires |s| == |t| == 4 && Word(s) == Word(t)
    ensures s == t
  {
    WordTops(Word(s), s);
    WordTops(Word(t), t);
  }

  lemma WordOfBytes(c: bv32)
    ensures Word(WordBytes(c)) == c
  {
  }

  lemma WordTops(x: bv32, t: seq<Byte>)
    requires |t| == 4 && x == Word(t)
    ensures t == [Byte3(x), Byte3(Up8(x)), Byte3(Up8(Up8(x))), Byte3(Up8(Up8(Up8(x))))]
    ensures Up8(Up8(Up8(Up8(x)))) == 0
  {
  }

  lemma BelowFromTop(x: bv32)
    ensures Xor32(x, High(Byte3(x))) == BelowTop(x)
  {
  }

  lemma DropOwnTop(d: bv32, x: bv32)
    ensures Xor32(Xor32(d, x), High(Byte3(x))) == Xor32(d, BelowTop(x))
  {
    hide Xor32, High, Byte3, BelowTop;
    XorAssociates(d, x, High(Byte3(x)));
    BelowFromTop(x);
  }

  // FeedPending for a whole byte.
  lemma FeedPendingByte(d: bv32, x: bv32)
    ensures FeedByte(Xor32(d, x), Byte3(x)) == Xor32(Shift8(d), Up8(x))
  {
    hide Xor32, High, Byte3, BelowTop, Up8, Shift8, FeedByte;
    FeedByteIsShift8(Xor32(d, x), Byte3(x));
    DropOwnTop(d, x);
    Shift8Linear(d, BelowTop(x));
    Shift8Low(x);
  }

  lemma FeedFourBytes(c: bv32, t: seq<Byte>)
    requires |t| == 4
    ensures Register(c, t) == FeedByte(FeedByte(FeedByte(FeedByte(c, t[0]), t[1]), t[2]), t[3])
  {
    hide FeedByte;
    assert t[..3][..2] == t[..2] && t[..2][..1] == t[..1] && t[..1][..0] == [] && t[..4] == t;
    assert Register(c, t[..1]) == FeedByte(c, t[0]);
    assert Register(c, t[..2]) == FeedByte(Register(c, t[..1]), t[1]);
    assert Register(c, t[..3]) == FeedByte(Register(c, t[..2]), t[2]);
  }

  lemma FourBytesFromWord(c: bv32, t: seq<Byte>)
    requires |t| == 4
    ensures Register(c, t) == Shift8(Shift8(Shift8(Shift8(Xor32(c, Word(t))))))
  {
    hide Xor32, Byte3, Up8, Shift8, FeedByte, Word;
    var x := Word(t);
    WordTops(x, t);
    FeedFourBytes(c, t);
    XorLaws(c, x);
    var d := Xor32(c, x);
    FeedPendingByte(d, x);
    FeedPendingByte(Shift8(d), Up8(x));
    FeedPendingByte(Shift8(Shift8(d)), Up8(Up8(x)));
    FeedPendingByte(Shift8(Shift8(Shift8(d))), Up8(Up8(Up8(x))));
    XorLaws(Shift8(Shift8(Shift8(Shift8(d)))), 0);
  }

  // Annex A's acceptance rule: feeding the transmitted CRC as well leaves zero
  // exactly when it is the CRC of what came before.
  lemma AnnexAZero(message: seq<Byte>, t: seq<Byte>)
    requires |t| == 4
    ensures Crc(message + t) == 0 <==> t == WordBytes(Crc(message))
  {
    hide Xor32, Shift8, FeedByte, Word;
    var c := Crc(message);
    var d := Xor32(c, Word(t));
    RegisterConcat(INITIAL, message, t);
    FourBytesFromWord(c, t);
    Shift8Zero();
    if Shift8(Shift8(Shift8(Shift8(d)))) == 0 {
      Shift8Injective(Shift8(Shift8(Shift8(d))), 0);
      Shift8Injective(Shift8(Shift8(d)), 0);
      Shift8Injective(Shift8(d), 0);
      Shift8Injective(d, 0);
    }
    XorLaws(c, Word(t));
    WordOfBytes(c);
    if Word(t) == c { WordInjective(t, WordBytes(c)); }
  }

  // ---- a known value ----

  const DIGITS: seq<Byte> := [0x31, 0x32, 0x33, 0x34, 0x35, 0x36, 0x37, 0x38, 0x39]

  lemma RegisterStep(k: nat, c: bv32, next: bv32)
    requires k < 9 && Register(INITIAL, DIGITS[..k]) == c && FeedByte(c, DIGITS[k]) == next
    ensures Register(INITIAL, DIGITS[..k + 1]) == next
  {
    hide FeedByte;
    assert DIGITS[..k + 1][..k] == DIGITS[..k];
  }

  lemma Digit1()
    ensures FeedByte(0xFFFF_FFFF, 0x31) == 0x9EFB_CF93
  {
  }

  lemma Digit2()
    ensures FeedByte(0x9EFB_CF93, 0x32) == 0x3FEC_5E6A
  {
  }

  lemma Digit3()
    ensures FeedByte(0x3FEC_5E6A, 0x33) == 0xD952_F164
  {
  }

  lemma Digit4()
    ensures FeedByte(0xD952_F164, 0x34) == 0xA695_C4AA
  {
  }

  lemma Digit5()
    ensures FeedByte(0xA695_C4AA, 0x35) == 0xBD9A_B747
  {
  }

  lemma Digit6()
    ensures FeedByte(0xBD9A_B747, 0x36) == 0xD8F0_6C8F
  {
  }

  lemma Digit7()
    ensures FeedByte(0xD8F0_6C8F, 0x37) == 0x0D8A_14C4
  {
  }

  lemma Digit8()
    ensures FeedByte(0x0D8A_14C4, 0x38) == 0x49E3_C2FB
  {
  }

  lemma Digit9()
    ensures FeedByte(0x49E3_C2FB, 0x39) == 0x0376_E6E7
  {
  }

  // The check value that catalogues of CRCs give for this one: that of the nine digits.
  lemma CrcOfDigits()
    ensures Crc(DIGITS) == 0x0376_E6E7
  {
    hide FeedByte;
    Digit1();
    RegisterStep(0, 0xFFFF_FFFF, 0x9EFB_CF93);
    Digit2();
    RegisterStep(1, 0x9EFB_CF93, 0x3FEC_5E6A);
    Digit3();
    RegisterStep(2, 0x3FEC_5E6A, 0xD952_F164);
    Digit4();
    RegisterStep(3, 0xD952_F164, 0xA695_C4AA);
    Digit5();
    RegisterStep(4, 0xA695_C4AA, 0xBD9A_B747);
    Digit6();
    RegisterStep(5, 0xBD9A_B747, 0xD8F0_6C8F);
    Digit7();
    RegisterStep(6, 0xD8F0_6C8F, 0x0D8A_14C4);
    Digit8();
    RegisterStep(7, 0x0D8A_14C4, 0x49E3_C2FB);
    Digit9();
    RegisterStep(8, 0x49E3_C2FB, 0x0376_E6E7);
    assert DIGITS[..9] == DIGITS;
  }
}
