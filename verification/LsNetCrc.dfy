/** The CRC of the LS-Net protocol: `crc16Ccitt` in src/lightspacenet/LightSpaceNetPacket.cpp.

The register is a 16-bit word, polynomial 0x1021, initial value 0xFFFF, no reflection and no
final inversion. `Compute` is the pair of nested loops; `Crc` is the value it leaves. */
module LsNetCrc {
  import opened Bytes

  const POLYNOMIAL: Word := 0x1021
  const INITIAL: Word := 0xFFFF

  function BitStep(crc: Word): Word
  {
    var shifted: Word := (crc * 2) % 0x1_0000;
    if crc >= 0x8000 then XorWords(shifted, POLYNOMIAL) else shifted
  }

  function BitSteps(crc: Word, n: nat): Word
    decreases n
  {
    if n == 0 then crc else BitStep(BitSteps(crc, n - 1))
  }

  function Absorb(crc: Word, b: Byte): Word
  {
    XorWords(crc, b * 0x100)
  }

  function ByteStep(crc: Word, b: Byte): Word { BitSteps(Absorb(crc, b), 8) }

  function Crc(data: seq<Byte>): Word
  {
    if data == [] then INITIAL else ByteStep(Crc(data[..|data| - 1]), data[|data| - 1])
  }

  method Compute(data: seq<Byte>) returns (crc: Word)
    ensures crc == Crc(data)
  {
    hide Xor;
    crc := INITIAL;
    for i := 0 to |data|
      invariant crc == Crc(data[..i])
    {
      assert data[..i + 1][..i] == data[..i];
      crc := Absorb(crc, data[i]);
      ghost var absorbed := crc;
      for bit := 0 to 8
        invariant crc == BitSteps(absorbed, bit)
      {
        if crc >= 0x8000 {
          crc := XorWords((crc * 2) % 0x1_0000, POLYNOMIAL);
        } else {
          crc := (crc * 2) % 0x1_0000;
        }
      }
    }
    assert data[..|data|] == data;
  }

  // ----- the register is linear -----

  lemma Doubles(a: nat, b: nat)
    ensures Xor(2 * a, 2 * b) == 2 * Xor(a, b)
  {
    hide Xor;
    XorOfHalves(a, b, 2 * a, 2 * b);
  }

  function DropTop(a: nat, p: nat): nat { if a >= p then a - p else a }

  lemma HalfOfDropTop(a: nat, p: nat)
    requires p > 0
    ensures DropTop(a, 2 * p) / 2 == DropTop(a / 2, p) && DropTop(a, 2 * p) % 2 == a % 2
    ensures a >= 2 * p <==> a / 2 >= p
  {
  }

  lemma {:induction false} TopBit(a: nat, b: nat, k: nat)
    requires a < 2 * Pow2(k) && b < 2 * Pow2(k)
    ensures Xor(a, b) >= Pow2(k) <==> (a >= Pow2(k)) != (b >= Pow2(k))
    decreases k
  {
    if k == 0 {
      assert Xor(0, 0) == 0;
      XorBits(a, b);
    } else {
      TopBit(a / 2, b / 2, k - 1);
      HalfOfDropTop(a, Pow2(k - 1));
      HalfOfDropTop(b, Pow2(k - 1));
      HalfOfDropTop(Xor(a, b), Pow2(k - 1));
      XorBits(a, b);
    }
  }

  lemma {:induction false} WithoutTopBit(a: nat, b: nat, k: nat)
    requires a < 2 * Pow2(k) && b < 2 * Pow2(k)
    ensures Xor(DropTop(a, Pow2(k)), DropTop(b, Pow2(k))) == DropTop(Xor(a, b), Pow2(k))
    decreases k
  {
    if k == 0 {
      assert Xor(0, 0) == 0 && Xor(0, 1) == 1 && Xor(1, 0) == 1 && Xor(1, 1) == 0;
    } else {
      var p := Pow2(k - 1);
      var l, r := Xor(DropTop(a, 2 * p), DropTop(b, 2 * p)), DropTop(Xor(a, b), 2 * p);
      assert l / 2 == r / 2 && l % 2 == r % 2 by {
        WithoutTopBit(a / 2, b / 2, k - 1);
        HalfOfDropTop(a, p);
        HalfOfDropTop(b, p);
        HalfOfDropTop(Xor(a, b), p);
        XorBits(a, b);
        XorBits(DropTop(a, 2 * p), DropTop(b, 2 * p));
        SumParity(DropTop(a, 2 * p), DropTop(b, 2 * p), a, b);
      }
      SameHalvesAndParity(l, r);
    }
  }

  lemma Shifted(a: Word)
    ensures (a * 2) % 0x1_0000 == 2 * DropTop(a, 0x8000)
  {
  }

  lemma BitStepLinear(a: Word, b: Word)
    ensures BitStep(XorWords(a, b)) == Xor(BitStep(a), BitStep(b))
  {
    assert Pow2(15) == 0x8000 by {
      assert Pow2(5) == 32;
      assert Pow2(10) == 32 * Pow2(5);
      assert Pow2(15) == 32 * Pow2(10);
    }
    TopBit(a, b, 15);
    WithoutTopBit(a, b, 15);
    Shifted(a);
    Shifted(b);
    Shifted(XorWords(a, b));
    Doubles(DropTop(a, 0x8000), DropTop(b, 0x8000));
    var sa, sb, p := (a * 2) % 0x1_0000, (b * 2) % 0x1_0000, POLYNOMIAL;
    assert Xor(sa, sb) == (Xor(a, b) * 2) % 0x1_0000;
    XorRegroups(sa, p, sb, p);
    XorRegroups(sa, p, sb, 0);
    XorRegroups(sa, 0, sb, p);
    XorSelf(p);
    XorZero(sa);
    XorZero(sb);
    XorZero(p);
    XorCommutes(p, 0);
    XorZero(Xor(sa, sb));
  }

  lemma {:induction false} BitStepsLinear(a: Word, b: Word, n: nat)
    ensures BitSteps(XorWords(a, b), n) == Xor(BitSteps(a, n), BitSteps(b, n))
    decreases n
  {
    if n > 0 {
      BitStepsLinear(a, b, n - 1);
      BitStepLinear(BitSteps(a, n - 1), BitSteps(b, n - 1));
    }
  }

  // ----- what a clean low end says about the register before -----

  lemma LowBitIsTheBitShiftedOut(d: Word)
    ensures BitStep(d) % 2 == (if d >= 0x8000 then 1 else 0)
  {
    var shifted: Word := (d * 2) % 0x1_0000;
    Shifted(d);
    XorBits(shifted, POLYNOMIAL);
    SumParity(shifted, POLYNOMIAL, 0, 1);
  }

  lemma EvenStepOnlyShifts(g: Word, h: nat)
    requires BitStep(g) == 2 * h
    ensures g == h
  {
    LowBitIsTheBitShiftedOut(g);
    Shifted(g);
  }

  lemma TwiceFirst(q: nat, p: nat)
    ensures q * (2 * p) == 2 * (q * p)
  {
  }

  /** If the last k bits are clear after k steps, no step ever met a set top bit: the register was
      only shifted. */
  lemma {:induction false} CleanMeansShifted(d: Word, k: nat, q: nat)
    requires BitSteps(d, k) == q * Pow2(k)
    ensures q == d
    decreases k
  {
    if k > 0 {
      TwiceFirst(q, Pow2(k - 1));
      EvenStepOnlyShifts(BitSteps(d, k - 1), q * Pow2(k - 1));
      CleanMeansShifted(d, k - 1, q);
    }
  }

  // ----- changed bytes change the CRC -----

  lemma ByteIsPow2Eight()
    ensures Pow2(8) == 0x100
  {
    assert Pow2(4) == 16;
    assert Pow2(8) == 16 * Pow2(4);
  }

  /** The difference of two byte steps is the byte step of the difference. */
  lemma ByteStepsDiffer(c: Word, b: Byte, b': Byte)
    ensures Xor(b, b') < 0x100
    ensures Xor(ByteStep(c, b), ByteStep(c, b')) == BitSteps(Xor(b, b') * 0x100, 8)
  {
    hide Xor, BitSteps;
    ByteIsPow2Eight();
    XorBounded(b, b', 8);
    BitStepsLinear(Absorb(c, b), Absorb(c, b'), 8);
    XorPrefixCancels(c, b * 0x100, b' * 0x100);
    XorSplits(b, b', 0, 0);
    XorZero(0);
  }

  /** Two byte steps from one register that end with the same low byte were fed the same byte. */
  lemma ByteStepSeparates(c: Word, b: Byte, b': Byte)
    requires LowByte(ByteStep(c, b)) == LowByte(ByteStep(c, b'))
    ensures b == b'
  {
    hide Xor, BitStep, BitSteps;
    var s, s' := ByteStep(c, b), ByteStep(c, b');
    var q := Xor(s / 0x100, s' / 0x100);
    assert Xor(s, s') == 0x100 * q by {
      XorSplits(s / 0x100, s' / 0x100, s % 0x100, s' % 0x100);
      XorSelf(s % 0x100);
    }
    ByteStepsDiffer(c, b, b');
    ByteIsPow2Eight();
    CleanMeansShifted(Xor(b, b') * 0x100, 8, q);
    XorZeroOnlyWhenEqual(b, b');
  }

  lemma {:induction false} BitStepsInjective(a: Word, b: Word, n: nat)
    requires BitSteps(a, n) == BitSteps(b, n)
    ensures a == b
    decreases n
  {
    if n > 0 {
      var g, h := BitSteps(a, n - 1), BitSteps(b, n - 1);
      BitStepLinear(g, h);
      XorSelf(BitStep(g));
      EvenStepOnlyShifts(XorWords(g, h), 0);
      XorZeroOnlyWhenEqual(g, h);
      BitStepsInjective(a, b, n - 1);
    }
  }

  lemma ByteStepInjective(c: Word, c': Word, b: Byte)
    requires ByteStep(c, b) == ByteStep(c', b)
    ensures c == c'
  {
    BitStepsInjective(Absorb(c, b), Absorb(c', b), 8);
    XorCancels(c, c', b * 0x100);
  }

  lemma CrcOfAppended(a: seq<Byte>, b: Byte)
    ensures Crc(a + [b]) == ByteStep(Crc(a), b)
  {
    assert (a + [b])[..|a|] == a;
  }

  /** A common tail never brings two different registers back together. */
  lemma {:induction false} TailKeepsDifference(a: seq<Byte>, b: seq<Byte>, tail: seq<Byte>)
    requires Crc(a) != Crc(b)
    ensures Crc(a + tail) != Crc(b + tail)
    decreases |tail|
  {
    hide ByteStep;
    if tail == [] {
      assert a + tail == a && b + tail == b;
    } else {
      var n := |tail| - 1;
      TailKeepsDifference(a, b, tail[..n]);
      CrcOfAppended(a + tail[..n], tail[n]);
      CrcOfAppended(b + tail[..n], tail[n]);
      assert a + tail == a + tail[..n] + [tail[n]] && b + tail == b + tail[..n] + [tail[n]];
      if Crc(a + tail) == Crc(b + tail) {
        ByteStepInjective(Crc(a + tail[..n]), Crc(b + tail[..n]), tail[n]);
      }
    }
  }

  /** Any change confined to two neighbouring bytes of the data changes the CRC. */
  lemma CrcDetectsTwoAdjacent(pre: seq<Byte>, x: Byte, y: Byte, x': Byte, y': Byte, tail: seq<Byte>)
    requires x != x' || y != y'
    ensures Crc(pre + [x] + [y] + tail) != Crc(pre + [x'] + [y'] + tail)
  {
    var a, b := pre + [x] + [y], pre + [x'] + [y'];
    CrcOfAppended(pre, x);
    CrcOfAppended(pre, x');
    CrcOfAppended(pre + [x], y);
    CrcOfAppended(pre + [x'], y');
    assert Crc(a) != Crc(b) by {
      if Crc(a) == Crc(b) {
        TwoBytesInjective(Crc(pre), x, y, x', y');
      }
    }
    TailKeepsDifference(a, b, tail);
  }

  lemma TwoBytesInjective(c: Word, x: Byte, y: Byte, x': Byte, y': Byte)
    requires ByteStep(ByteStep(c, x), y) == ByteStep(ByteStep(c, x'), y')
    ensures x == x' && y == y'
  {
    var s, s' := ByteStep(c, x), ByteStep(c, x');
    BitStepsInjective(Absorb(s, y), Absorb(s', y'), 8);
    SameLowByte(s, s', y, y');
    ByteStepSeparates(c, x, x');
    ByteStepSeparates(s, y, y');
  }

  /** Absorbing a byte touches only the high half of the register. */
  lemma SameLowByte(s: Word, s': Word, y: Byte, y': Byte)
    requires Absorb(s, y) == Absorb(s', y')
    ensures LowByte(s) == LowByte(s')
  {
    AbsorbKeepsLowByte(s, y);
    AbsorbKeepsLowByte(s', y');
  }

  lemma RemainderOfSum(h: nat, l: nat)
    requires l < 0x100
    ensures (h * 0x100 + l) % 0x100 == l
  {
  }

  lemma AbsorbKeepsLowByte(s: Word, y: Byte)
    ensures LowByte(Absorb(s, y)) == LowByte(s)
  {
    XorSplits(s / 0x100, y, s % 0x100, 0);
    XorZero(s % 0x100);
    RemainderOfSum(Xor(s / 0x100, y), s % 0x100);
  }
}
