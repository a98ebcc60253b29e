/** What the CRC of LS-Net is, apart from how it is computed: a remainder of polynomials over GF(2).

A polynomial is a number, its coefficients the bits. Sums are exclusive ors, `Times` is the product,
and a remainder modulo the generator x^16 + x^12 + x^5 + 1 is a polynomial of degree below 16 that
differs by a multiple of the generator. Literals pin the generator, the initial value and the bit
order; nothing here is defined through the register. */
module LsNetCrcRemainder {
  import opened Bytes
  import opened LsNetCrc
  import opened LsNetPacket

  const GENERATOR: nat := 0x1_1021

  // ----- polynomials over GF(2) -----

  function Times(a: nat, b: nat): nat
    decreases b
  {
    if b == 0 then 0 else Xor(if b % 2 == 1 then a else 0, 2 * Times(a, b / 2))
  }

  ghost predicate Multiple(n: nat) { exists q: nat :: n == Times(GENERATOR, q) }

  ghost predicate IsRemainder(n: nat, r: nat) { r < 0x1_0000 && Multiple(Xor(n, r)) }

  lemma TimesDouble(a: nat, b: nat)
    ensures Times(a, 2 * b) == 2 * Times(a, b)
  {
    hide Xor;
    XorCommutes(0, 2 * Times(a, b));
    XorZero(2 * Times(a, b));
    if b > 0 {
      assert (2 * b) % 2 == 0 && (2 * b) / 2 == b;
    }
  }

  lemma TimesOne(a: nat)
    ensures Times(a, 1) == a
  {
    assert Times(a, 0) == 0;
    XorZero(a);
  }

  lemma {:induction false} TimesOfSum(a: nat, p: nat, q: nat)
    ensures Times(a, Xor(p, q)) == Xor(Times(a, p), Times(a, q))
    decreases p + q
  {
    hide Xor;
    if p + q > 0 {
      TimesOfSum(a, p / 2, q / 2);
      XorBits(p, q);
      TimesBits(a, p);
      TimesBits(a, q);
      TimesBits(a, Xor(p, q));
      var s, t := Times(a, p / 2), Times(a, q / 2);
      var low, high := if p % 2 == 1 then a else 0, if q % 2 == 1 then a else 0;
      XorRegroups(low, 2 * s, high, 2 * t);
      Doubles(s, t);
      SumOfBits(a, p, q);
    } else {
      XorZero(0);
    }
  }

  lemma TimesBits(a: nat, b: nat)
    ensures Times(a, b) == Xor(if b % 2 == 1 then a else 0, 2 * Times(a, b / 2))
  {
    if b == 0 {
      XorZero(0);
    }
  }

  lemma SumOfBits(a: nat, p: nat, q: nat)
    ensures Xor(if p % 2 == 1 then a else 0, if q % 2 == 1 then a else 0) == if (p + q) % 2 == 1 then a else 0
  {
    hide Xor;
    XorSelf(a);
    XorZero(a);
    XorZero(0);
    XorCommutes(0, a);
  }

  // ----- congruence modulo the generator -----

  ghost predicate Congruent(a: nat, b: nat) { Multiple(Xor(a, b)) }

  lemma CongruentChains(a: nat, b: nat, c: nat)
    requires Congruent(a, b) && Congruent(b, c)
    ensures Congruent(a, c)
  {
    hide Xor, Times;
    var p: nat :| Xor(a, b) == Times(GENERATOR, p);
    var q: nat :| Xor(b, c) == Times(GENERATOR, q);
    TimesOfSum(GENERATOR, p, q);
    XorAssociates(a, b, Xor(b, c));
    XorAssociates(b, b, c);
    XorSelf(b);
    XorCommutes(0, c);
    XorZero(c);
    assert Xor(a, c) == Times(GENERATOR, Xor(p, q));
  }

  lemma CongruentIsSymmetric(a: nat, b: nat)
    requires Congruent(a, b)
    ensures Congruent(b, a)
  {
    XorCommutes(a, b);
  }

  lemma CongruentSelf(a: nat)
    ensures Congruent(a, a)
  {
    XorSelf(a);
    assert Times(GENERATOR, 0) == 0;
  }

  lemma CongruentDoubles(a: nat, b: nat)
    requires Congruent(a, b)
    ensures Congruent(2 * a, 2 * b)
  {
    hide Xor, Times;
    var q: nat :| Xor(a, b) == Times(GENERATOR, q);
    Doubles(a, b);
    TimesDouble(GENERATOR, q);
    assert Xor(2 * a, 2 * b) == Times(GENERATOR, 2 * q);
  }

  lemma {:induction false} CongruentScaled(a: nat, b: nat, k: nat)
    requires Congruent(a, b)
    ensures Congruent(Pow2(k) * a, Pow2(k) * b)
    decreases k
  {
    hide Congruent;
    if k == 0 {
      assert 1 * a == a && 1 * b == b;
    } else {
      CongruentScaled(a, b, k - 1);
      CongruentDoubles(Pow2(k - 1) * a, Pow2(k - 1) * b);
      assert 2 * (Pow2(k - 1) * a) == Pow2(k) * a && 2 * (Pow2(k - 1) * b) == Pow2(k) * b;
    }
  }

  lemma CongruentPlus(a: nat, b: nat, c: nat)
    requires Congruent(a, b)
    ensures Congruent(Xor(a, c), Xor(b, c))
  {
    XorRegroups(a, c, b, c);
    XorSelf(c);
    XorZero(Xor(a, b));
  }

  // ----- remainders are unique -----

  lemma StaysHigh(a: nat, b: nat, k: nat)
    requires a < Pow2(k) <= b
    ensures Xor(a, b) >= Pow2(k)
  {
    if Xor(a, b) < Pow2(k) {
      XorBounded(a, Xor(a, b), k);
      XorAssociates(a, a, b);
      XorSelf(a);
      XorCommutes(0, b);
      XorZero(b);
      assert false;
    }
  }

  lemma SeventeenBits()
    ensures Pow2(17) == 0x2_0000
  {
    assert Pow2(5) == 32;
    assert Pow2(10) == 32 * Pow2(5);
    assert Pow2(15) == 32 * Pow2(10);
    assert Pow2(17) == 4 * Pow2(15);
  }

  /** A multiple of the generator other than zero has degree 16 or more. */
  lemma {:induction false} MultiplesAreLarge(q: nat)
    requires q > 0
    ensures Times(GENERATOR, q) >= 0x1_0000
    decreases q
  {
    hide Xor;
    TimesBits(GENERATOR, q);
    if q == 1 {
      TimesOne(GENERATOR);
    } else {
      MultiplesAreLarge(q / 2);
      SeventeenBits();
      StaysHigh(if q % 2 == 1 then GENERATOR else 0, 2 * Times(GENERATOR, q / 2), 17);
    }
  }

  lemma RemainderIsUnique(n: nat, r: nat, s: nat)
    requires IsRemainder(n, r) && IsRemainder(n, s)
    ensures r == s
  {
    hide Xor, Times;
    CongruentIsSymmetric(n, r);
    CongruentChains(r, n, s);
    var q: nat :| Xor(r, s) == Times(GENERATOR, q);
    XorWord(r, s);
    if q > 0 {
      MultiplesAreLarge(q);
    }
    assert Times(GENERATOR, 0) == 0 by { TimesOfNothing(); }
    XorZeroOnlyWhenEqual(r, s);
  }

  lemma TimesOfNothing()
    ensures Times(GENERATOR, 0) == 0
  {
  }

  // ----- the register holds a remainder -----

  lemma BitStepIsCongruent(c: Word)
    ensures Congruent(BitStep(c), 2 * c)
  {
    hide Xor, Times;
    if c < 0x8000 {
      CongruentSelf(2 * c);
    } else {
      var low: nat := 2 * c - 0x1_0000;
      TopBitJoins(low);
      XorRegroups(low, 0x1021, low, 0x1_0000);
      XorSelf(low);
      XorCommutes(0, GENERATOR);
      XorZero(GENERATOR);
      TopBitJoins(0x1021);
      TimesOne(GENERATOR);
      assert Xor(BitStep(c), 2 * c) == Times(GENERATOR, 1);
    }
  }

  lemma TopBitJoins(low: Word)
    ensures Xor(low, 0x1_0000) == 0x1_0000 + low
  {
    hide Xor;
    XorSplits(low / 0x100, 0x100, low % 0x100, 0);
    XorSplits(0, 1, low / 0x100, 0);
    XorZero(low / 0x100);
    XorZero(low % 0x100);
    XorCommutes(0, 1);
    XorZero(1);
  }

  lemma {:induction false} BitStepsAreCongruent(c: Word, k: nat)
    ensures Congruent(BitSteps(c, k), Pow2(k) * c)
    decreases k
  {
    hide Congruent, BitStep;
    if k == 0 {
      CongruentSelf(c);
      assert 1 * c == c;
    } else {
      BitStepsAreCongruent(c, k - 1);
      BitStepIsCongruent(BitSteps(c, k - 1));
      CongruentDoubles(BitSteps(c, k - 1), Pow2(k - 1) * c);
      assert 2 * (Pow2(k - 1) * c) == Pow2(k) * c;
      CongruentChains(BitSteps(c, k), 2 * BitSteps(c, k - 1), Pow2(k) * c);
    }
  }

  /** A byte step multiplies by x^8 and adds the byte, 16 places up. */
  lemma ByteStepIsCongruent(c: Word, b: Byte, n: nat)
    requires Congruent(c, 0x1_0000 * n)
    ensures Congruent(ByteStep(c, b), 0x1_0000 * (0x100 * n + b))
  {
    hide Congruent, BitSteps, Xor;
    ByteIsPow2Eight();
    BitStepsAreCongruent(Absorb(c, b), 8);
    CongruentPlus(c, 0x1_0000 * n, b * 0x100);
    CongruentScaled(Absorb(c, b), Xor(0x1_0000 * n, b * 0x100), 8);
    AppendByte(n, b);
    CongruentChains(ByteStep(c, b), 0x100 * Absorb(c, b), 0x1_0000 * (0x100 * n + b));
  }

  lemma AppendByte(n: nat, b: Byte)
    ensures 0x100 * Xor(0x1_0000 * n, b * 0x100) == 0x1_0000 * (0x100 * n + b)
  {
    hide Xor;
    XorSplits(0x100 * n, b, 0, 0);
    XorSplits(n, 0, 0, b);
    XorZero(n);
    XorZero(0);
    XorCommutes(0, b);
    XorZero(b);
  }

  // ----- the theorem -----

  /** The bytes as one number, most significant first. */
  function Number(data: seq<Byte>): nat
  {
    if data == [] then 0 else 0x100 * Number(data[..|data| - 1]) + data[|data| - 1]
  }

  /** The data with its first two bytes inverted, which stands for the initial value of all ones. */
  function FirstWordInverted(data: seq<Byte>): (s: seq<Byte>)
    requires |data| >= 2
    ensures |s| == |data|
  {
    [0xFF - data[0], 0xFF - data[1]] + data[2..]
  }

  lemma {:induction false} InvertedByte(b: nat, k: nat)
    requires b < Pow2(k)
    ensures Xor(Pow2(k) - 1, b) == Pow2(k) - 1 - b
    decreases k
  {
    hide Xor;
    if k > 0 {
      var p := Pow2(k - 1);
      InvertedByte(b / 2, k - 1);
      XorBits(2 * p - 1, b);
      assert (2 * p - 1) / 2 == p - 1;
      InvertedBit(p, b, Xor(2 * p - 1, b));
    } else {
      XorZero(0);
    }
  }

  lemma InvertedBit(p: nat, b: nat, x: nat)
    requires p > 0 && x / 2 == p - 1 - b / 2 && x % 2 == (2 * p - 1 + b) % 2
    ensures x == 2 * p - 1 - b
  {
    OddPlus(p, b);
    assert x == 2 * (x / 2) + x % 2 && b == 2 * (b / 2) + b % 2;
  }

  lemma OddPlus(p: nat, b: nat)
    ensures (2 * p - 1 + b) % 2 == 1 - b % 2
  {
    assert 2 * p - 1 + b == 2 * (p - 1 + b / 2) + (1 + b % 2);
  }

  lemma InvertedWord(x: Byte, y: Byte)
    ensures Xor(0xFFFF, 0x100 * x + y) == 0x100 * (0xFF - x) + (0xFF - y)
  {
    hide Xor;
    ByteIsPow2Eight();
    XorSplits(0xFF, x, 0xFF, y);
    InvertedByte(x, 8);
    InvertedByte(y, 8);
  }

  lemma NumberOfAppended(a: seq<Byte>, b: Byte)
    ensures Number(a + [b]) == 0x100 * Number(a) + b
  {
    assert (a + [b])[..|a|] == a;
  }

  lemma FirstTwoBytes(data: seq<Byte>)
    requires |data| == 2
    ensures Congruent(Crc(data), 0x1_0000 * Number(FirstWordInverted(data)))
  {
    hide Congruent, BitSteps, Xor, Crc, ByteStep, Absorb, Number;
    var x, y := data[0], data[1];
    CrcOfTwo(data);
    NumberOfTwo(FirstWordInverted(data));
    StartOfRegister(x, y, Number(FirstWordInverted(data)));
  }

  lemma CrcOfTwo(data: seq<Byte>)
    requires |data| == 2
    ensures Crc(data) == ByteStep(ByteStep(0xFFFF, data[0]), data[1])
  {
    hide ByteStep;
    assert data[..1][..0] == [];
    assert Crc([]) == 0xFFFF;
    assert Crc(data[..1]) == ByteStep(Crc([]), data[0]);
  }

  lemma NumberOfTwo(data: seq<Byte>)
    requires |data| == 2
    ensures var x: int, y: int := data[0], data[1]; Number(data) == 0x100 * x + y
  {
    assert data[..1][..0] == [];
    assert Number([]) == 0;
    assert Number(data[..1]) == data[0];
  }

  lemma StartOfRegister(x: Byte, y: Byte, n: nat)
    requires n == 0x100 * (0xFF - x) + (0xFF - y)
    ensures Congruent(ByteStep(ByteStep(0xFFFF, x), y), 0x1_0000 * n)
  {
    hide Congruent, BitSteps, Xor;
    ByteIsPow2Eight();
    var c: nat := Absorb(0xFFFF, x);
    var d := ByteStep(0xFFFF, x);
    BitStepsAreCongruent(c, 8);
    CongruentPlus(d, 0x100 * c, y * 0x100);
    BitStepsAreCongruent(Absorb(d, y), 8);
    CongruentScaled(Absorb(d, y), Xor(0x100 * c, y * 0x100), 8);
    CongruentChains(ByteStep(d, y), 0x100 * Absorb(d, y), 0x100 * Xor(0x100 * c, y * 0x100));
    InvertedFirst(c, x, y);
  }

  lemma InvertedFirst(c: Word, x: Byte, y: Byte)
    requires c == Xor(0xFFFF, x * 0x100)
    ensures 0x100 * Xor(0x100 * c, y * 0x100) == 0x1_0000 * (0x100 * (0xFF - x) + (0xFF - y))
  {
    hide Xor;
    XorSplits(c, y, 0, 0);
    XorZero(0);
    XorAssociates(0xFFFF, 0x100 * x, y);
    XorSplits(x, 0, 0, y);
    XorZero(x);
    XorCommutes(0, y);
    XorZero(y);
    InvertedWord(x, y);
  }

  lemma {:induction false} RegisterIsCongruent(data: seq<Byte>)
    requires |data| >= 2
    ensures Congruent(Crc(data), 0x1_0000 * Number(FirstWordInverted(data)))
    decreases |data|
  {
    hide Congruent, Crc, ByteStep, Number;
    if |data| == 2 {
      FirstTwoBytes(data);
    } else {
      var n := |data| - 1;
      RegisterIsCongruent(data[..n]);
      assert data == data[..n] + [data[n]];
      CrcOfAppended(data[..n], data[n]);
      assert FirstWordInverted(data) == FirstWordInverted(data[..n]) + [data[n]];
      NumberOfAppended(FirstWordInverted(data[..n]), data[n]);
      ByteStepIsCongruent(Crc(data[..n]), data[n], Number(FirstWordInverted(data[..n])));
    }
  }

  /** The CRC is the remainder of the data, its first two bytes inverted, times x^16: that and no other
      word. */
  lemma CrcIsTheRemainder(data: seq<Byte>, r: Word)
    requires |data| >= 2
    ensures Crc(data) == r <==> IsRemainder(0x1_0000 * Number(FirstWordInverted(data)), r)
  {
    hide Crc, Multiple, Xor;
    var n := 0x1_0000 * Number(FirstWordInverted(data));
    RegisterIsCongruent(data);
    CongruentIsSymmetric(Crc(data), n);
    if IsRemainder(n, r) {
      RemainderIsUnique(n, r, Crc(data));
    }
  }

  /** "LIGHTSPACE", the length of the packet, version 1, type, command, the length of the payload, and the
      payload. */
  function Announcement(packetType: Byte, commandWord: Byte, payload: seq<Byte>): (s: seq<Byte>)
    requires |payload| <= 65515
    ensures |s| == |payload| + 18
  {
    var n: int, k: int := |payload| + 20, |payload|;
    [0x4C, 0x49, 0x47, 0x48, 0x54, 0x53, 0x50, 0x41, 0x43, 0x45]
    + [n / 256, n % 256, 0, 1, packetType, commandWord, k / 256, k % 256] + payload
  }

  /** Every packet byte for byte: its announcement, and the remainder that belongs to it. */
  lemma PacketLayout(packetType: Byte, commandWord: Byte, payload: seq<Byte>) returns (crc: Word)
    requires |payload| <= 65515
    ensures Build(packetType, commandWord, payload)
         == Announcement(packetType, commandWord, payload) + [crc / 256, crc % 256]
    ensures IsRemainder(0x1_0000 * Number(FirstWordInverted(Announcement(packetType, commandWord, payload))), crc)
  {
    hide Crc, Multiple, Xor, IsRemainder, Number, FirstWordInverted;
    var fields := Fields(packetType, commandWord, payload);
    assert fields == Announcement(packetType, commandWord, payload);
    crc := Crc(fields);
    CrcIsTheRemainder(fields, crc);
  }

  // ----- the check value -----

  /** A number with its last bit changed. */
  function Flipped(n: nat): nat { if n % 2 == 0 then n + 1 else n - 1 }

  lemma LastBitFlips(n: nat)
    ensures Xor(n, 1) == Flipped(n)
  {
    hide Xor;
    XorBits(n, 1);
    XorZero(n / 2);
  }

  lemma HighByteFlips(h: Byte)
    ensures Xor(h, 0x10) == 16 * Flipped(h / 16) + h % 16
  {
    hide Xor, Flipped;
    XorSplitsNibble(h / 16, 1, h % 16, 0);
    LastBitFlips(h / 16);
    XorZero(h % 16);
  }

  lemma LowByteFlips(l: Byte)
    requires l % 2 == 0
    ensures Xor(l, 0x21) == 32 * Flipped(l / 32) + l % 32 + 1
  {
    hide Xor, Flipped;
    LastBitFlips(l / 32);
    XorBits(l / 16, 2);
    XorSplitsNibble(l / 16, 2, l % 16, 1);
    XorBits(l % 16, 1);
    XorZero(l % 16 / 2);
    assert l / 16 / 2 == l / 32;
    assert l % 32 == 16 * (l / 16 % 2) + l % 16;
  }

  /** The step as arithmetic: bits 12, 5 and 0 change when the top bit falls out. */
  function Next(c: int): int
  {
    if c < 0x8000 then 2 * c
    else
      2 * c - 0xFFFF + (if c / 0x800 % 2 == 0 then 0x1000 else -0x1000)
                     + (if c / 0x10 % 2 == 0 then 0x20 else -0x20)
  }

  lemma BitStepIsNext(c: Word)
    ensures BitStep(c) == Next(c)
  {
    hide Xor;
    if c >= 0x8000 {
      var h, l := 2 * c / 0x100 - 0x100, 2 * c % 0x100;
      HighByteFlips(h);
      LowByteFlips(l);
      XorSplits(h, 0x10, l, 0x21);
      SameBits(c, h, l);
    }
  }

  lemma SameBits(c: Word, h: Byte, l: Byte)
    requires 2 * c == 0x1_0000 + 0x100 * h + l
    ensures h / 16 % 2 == c / 0x800 % 2 && l / 32 % 2 == c / 0x10 % 2
  {
    assert c / 0x800 == 16 + h / 16;
    assert c / 0x10 == 0x800 + 8 * h + l / 32;
  }

  lemma XorIs(a: nat, b: nat, x: nat)
    requires Xor(a / 2, b / 2) == x / 2 && (a + b) % 2 == x % 2
    ensures Xor(a, b) == x
  {
    hide Xor;
    XorBits(a, b);
  }

  /** The last four bits of x are those of a and b added without carry. */
  predicate LowBits(a: nat, b: nat, x: nat)
  {
    && (a + b) % 2 == x % 2 && (a / 2 + b / 2) % 2 == x / 2 % 2
    && (a / 4 + b / 4) % 2 == x / 4 % 2 && (a / 8 + b / 8) % 2 == x / 8 % 2
  }

  /** One bit more: the halves are given by name. */
  lemma BitMore(a: nat, b: nat, x: nat, h: nat, l: nat, y: nat)
    requires h == a / 2 && l == b / 2 && y == x / 2
    requires Xor(h, l) == y && (a + b) % 2 == x % 2
    ensures Xor(a, b) == x
  {
    hide Xor;
    XorIs(a, b, x);
  }

  lemma Halves(a: nat)
    ensures a / 2 / 2 == a / 4 && a / 4 / 2 == a / 8 && a / 8 / 2 == a / 16
  {
  }

  lemma NibbleXor(a: nat, b: nat, x: nat)
    requires LowBits(a, b, x) && Xor(a / 16, b / 16) == x / 16
    ensures Xor(a, b) == x
  {
    hide Xor;
    Halves(a);
    Halves(b);
    Halves(x);
    BitMore(a / 8, b / 8, x / 8, a / 16, b / 16, x / 16);
    BitMore(a / 4, b / 4, x / 4, a / 8, b / 8, x / 8);
    BitMore(a / 2, b / 2, x / 2, a / 4, b / 4, x / 4);
    XorIs(a, b, x);
  }

  lemma ByteEndsAtEight(a: Byte)
    ensures a / 16 / 16 == 0
  {
  }

  lemma ByteXorIs(a: Byte, b: Byte, x: Byte)
    requires LowBits(a, b, x) && LowBits(a / 16, b / 16, x / 16)
    ensures Xor(a, b) == x
  {
    hide Xor, LowBits;
    XorZero(0);
    ByteEndsAtEight(a);
    ByteEndsAtEight(b);
    ByteEndsAtEight(x);
    NibbleXor(a / 16, b / 16, x / 16);
    NibbleXor(a, b, x);
  }

  lemma EightSteps(c: Word)
    ensures BitSteps(c, 8) == Next(Next(Next(Next(Next(Next(Next(Next(c))))))))
  {
    hide Next, BitStep;
    FourSteps(c, 0);
    FourSteps(c, 4);
    assert BitSteps(c, 0) == c;
  }

  lemma FourSteps(c: Word, k: nat)
    ensures BitSteps(c, k + 4) == Next(Next(Next(Next(BitSteps(c, k)))))
  {
    hide Next, BitStep;
    BitStepIsNext(BitSteps(c, k));
    BitStepIsNext(BitSteps(c, k + 1));
    BitStepIsNext(BitSteps(c, k + 2));
    BitStepIsNext(BitSteps(c, k + 3));
    assert BitSteps(c, k + 1) == BitStep(BitSteps(c, k));
    assert BitSteps(c, k + 2) == BitStep(BitSteps(c, k + 1));
    assert BitSteps(c, k + 3) == BitStep(BitSteps(c, k + 2));
    assert BitSteps(c, k + 4) == BitStep(BitSteps(c, k + 3));
  }

  lemma ByteStepIs(high: Byte, low: Byte, b: Byte, x: Byte, half: int, d: Word)
    requires Xor(high, b) == x
    requires half == Next(Next(Next(Next(0x100 * x + low)))) && d == Next(Next(Next(Next(half))))
    ensures ByteStep(0x100 * high + low, b) == d
  {
    hide Xor, Next, BitStep;
    XorSplits(high, b, low, 0);
    XorZero(low);
    EightSteps(Absorb(0x100 * high + low, b));
  }

  lemma Digit1()
    ensures ByteStep(0xFFFF, 0x31) == 0xC782
  {
    hide Xor, BitSteps, ByteStep;
    ByteXorIs(0xFF, 0x31, 0xCE);
    ByteStepIs(0xFF, 0xFF, 0x31, 0xCE, 0x2E7C, 0xC782);
  }

  lemma Digit2()
    ensures ByteStep(0xC782, 0x32) == 0x3DBA
  {
    hide Xor, BitSteps, ByteStep;
    ByteXorIs(0xC7, 0x32, 0xF5);
    ByteStepIs(0xC7, 0x82, 0x32, 0xF5, 0xA9CF, 0x3DBA);
  }

  lemma Digit3()
    ensures ByteStep(0x3DBA, 0x33) == 0x5BCE
  {
    hide Xor, BitSteps, ByteStep;
    ByteXorIs(0x3D, 0x33, 0x0E);
    ByteStepIs(0x3D, 0xBA, 0x33, 0x0E, 0xEBA0, 0x5BCE);
  }

  lemma Digit4()
    ensures ByteStep(0x5BCE, 0x34) == 0x5349
  {
    hide Xor, BitSteps, ByteStep;
    ByteXorIs(0x5B, 0x34, 0x6F);
    ByteStepIs(0x5B, 0xCE, 0x34, 0x6F, 0x9C26, 0x5349);
  }

  lemma Digit5()
    ensures ByteStep(0x5349, 0x35) == 0x4560
  {
    hide Xor, BitSteps, ByteStep;
    ByteXorIs(0x53, 0x35, 0x66);
    ByteStepIs(0x53, 0x49, 0x35, 0x66, 0x0456, 0x4560);
  }

  lemma Digit6()
    ensures ByteStep(0x4560, 0x36) == 0x2EF4
  {
    hide Xor, BitSteps, ByteStep;
    ByteXorIs(0x45, 0x36, 0x73);
    ByteStepIs(0x45, 0x60, 0x36, 0x73, 0x46E7, 0x2EF4);
  }

  lemma Digit7()
    ensures ByteStep(0x2EF4, 0x37) == 0x7718
  {
    hide Xor, BitSteps, ByteStep;
    ByteXorIs(0x2E, 0x37, 0x19);
    ByteStepIs(0x2E, 0xF4, 0x37, 0x19, 0x8F61, 0x7718);
  }

  lemma Digit8()
    ensures ByteStep(0x7718, 0x38) == 0xA12B
  {
    hide Xor, BitSteps, ByteStep;
    ByteXorIs(0x77, 0x38, 0x4F);
    ByteStepIs(0x77, 0x18, 0x38, 0x4F, 0xB104, 0xA12B);
  }

  lemma Digit9()
    ensures ByteStep(0xA12B, 0x39) == 0x29B1
  {
    hide Xor, BitSteps, ByteStep;
    ByteXorIs(0xA1, 0x39, 0x98);
    ByteStepIs(0xA1, 0x2B, 0x39, 0x98, 0x1399, 0x29B1);
  }

  /** The digits 1 to 9 in ASCII. */
  const DIGITS: seq<Byte> := [0x31, 0x32, 0x33, 0x34, 0x35, 0x36, 0x37, 0x38, 0x39]

  lemma CrcOfNothing()
    ensures Crc([]) == 0xFFFF
  {
  }

  lemma CheckValue()
    ensures Crc(DIGITS) == 0x29B1
  {
    hide Crc, ByteStep;
    assert DIGITS[..0] == [];
    assert Crc([]) == 0xFFFF by { CrcOfNothing(); }
    Digit1();
    CrcOfAppended(DIGITS[..0], 0x31);
    assert DIGITS[..0] + [0x31] == DIGITS[..1];
    Digit2();
    CrcOfAppended(DIGITS[..1], 0x32);
    assert DIGITS[..1] + [0x32] == DIGITS[..2];
    Digit3();
    CrcOfAppended(DIGITS[..2], 0x33);
    assert DIGITS[..2] + [0x33] == DIGITS[..3];
    Digit4();
    CrcOfAppended(DIGITS[..3], 0x34);
    assert DIGITS[..3] + [0x34] == DIGITS[..4];
    Digit5();
    CrcOfAppended(DIGITS[..4], 0x35);
    assert DIGITS[..4] + [0x35] == DIGITS[..5];
    Digit6();
    CrcOfAppended(DIGITS[..5], 0x36);
    assert DIGITS[..5] + [0x36] == DIGITS[..6];
    Digit7();
    CrcOfAppended(DIGITS[..6], 0x37);
    assert DIGITS[..6] + [0x37] == DIGITS[..7];
    Digit8();
    CrcOfAppended(DIGITS[..7], 0x38);
    assert DIGITS[..7] + [0x38] == DIGITS[..8];
    Digit9();
    CrcOfAppended(DIGITS[..8], 0x39);
    assert DIGITS[..8] + [0x39] == DIGITS[..9];
    assert DIGITS[..9] == DIGITS;
  }
}
