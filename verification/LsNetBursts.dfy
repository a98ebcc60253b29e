/** What a 16-bit CRC is for: no burst of up to 16 bits in an LS-Net packet goes unnoticed, wherever it
falls, the CRC field included.

A packet is accepted only if the CRC of all its bytes, the CRC field among them, is zero. A burst
leaves a difference in the register that is a non-zero 16-bit word shifted along, and no shift turns
such a word into zero. */
module LsNetBursts {
  import opened Bytes
  import opened LsNetCrc
  import opened LsNetPacket
  import opened Options

  // ----- powers of two -----

  lemma {:induction false} Pow2Sum(m: nat, n: nat)
    ensures Pow2(m + n) == Pow2(m) * Pow2(n)
    decreases m
  {
    if m > 0 {
      Pow2Sum(m - 1, n);
      assert 2 * (Pow2(m - 1) * Pow2(n)) == 2 * Pow2(m - 1) * Pow2(n);
    }
  }

  lemma WordIsPow2Sixteen()
    ensures Pow2(16) == 0x1_0000
  {
    ByteIsPow2Eight();
    Pow2Sum(8, 8);
  }

  /** Exclusive or works on the bits from k on and below k separately. */
  lemma {:induction false} XorSplitsAt(u: nat, v: nat, t: nat, w: nat, k: nat)
    requires t < Pow2(k) && w < Pow2(k)
    ensures Xor(Pow2(k) * u + t, Pow2(k) * v + w) == Pow2(k) * Xor(u, v) + Xor(t, w)
    decreases k
  {
    hide Xor;
    if k == 0 {
      XorZero(0);
      assert 1 * u == u && 1 * v == v && 1 * Xor(u, v) == Xor(u, v);
    } else {
      var p := Pow2(k - 1);
      XorSplitsAt(u, v, t / 2, w / 2, k - 1);
      SplitStep(p * u, p * v, t, w, p * Xor(u, v));
      Doubled(p, u);
      Doubled(p, v);
      Doubled(p, Xor(u, v));
    }
  }

  lemma Doubled(p: nat, u: nat)
    ensures 2 * (p * u) == 2 * p * u
  {
  }

  // ----- the register shifts -----

  lemma {:induction false} BitStepsAdd(w: Word, m: nat, n: nat)
    ensures BitSteps(w, m + n) == BitSteps(BitSteps(w, m), n)
    decreases n
  {
    if n > 0 {
      BitStepsAdd(w, m, n - 1);
    }
  }

  lemma StepOnlyShifts(w: Word)
    requires 2 * w < 0x1_0000
    ensures BitStep(w) == 2 * w
  {
  }

  /** A word that stays inside the register is only shifted. */
  lemma {:induction false} PureShift(w: Word, k: nat)
    requires w * Pow2(k) < 0x1_0000
    ensures BitSteps(w, k) == w * Pow2(k)
    decreases k
  {
    if k > 0 {
      Doubled(Pow2(k - 1), w);
      assert w * Pow2(k) == 2 * (w * Pow2(k - 1));
      PureShift(w, k - 1);
      StepOnlyShifts(w * Pow2(k - 1));
    } else {
      assert w * 1 == w;
    }
  }

  /** Bits that join the register late could as well have joined it earlier, farther down. */
  lemma JoinsEarlier(a: Word, w: Word, k: nat)
    requires w * Pow2(k) < 0x1_0000
    ensures Xor(BitSteps(a, k), w * Pow2(k)) == BitSteps(XorWords(a, w), k)
  {
    PureShift(w, k);
    BitStepsLinear(a, w, k);
  }

  /** The difference that a byte step leaves, from the differences it is given. */
  lemma ByteStepOfDifference(c: Word, c': Word, b: Byte, b': Byte)
    ensures Xor(b, b') < 0x100
    ensures Xor(ByteStep(c, b), ByteStep(c', b'))
         == BitSteps(XorWords(XorWords(c, c'), Xor(b, b') * 0x100), 8)
  {
    hide Xor, BitSteps;
    ByteIsPow2Eight();
    XorBounded(b, b', 8);
    BitStepsLinear(Absorb(c, b), Absorb(c', b'), 8);
    XorRegroups(c, b * 0x100, c', b' * 0x100);
    XorSplits(b, b', 0, 0);
    XorZero(0);
  }

  // ----- the bits of a burst -----

  /** The bits from a on are the same. */
  predicate SameAbove(x: nat, x': nat, a: nat)
  {
    if a == 0 then x == x' else SameAbove(x / 2, x' / 2, a - 1)
  }

  /** The low a bits are the same. */
  predicate SameBelow(z: nat, z': nat, a: nat)
  {
    a == 0 || (z % 2 == z' % 2 && SameBelow(z / 2, z' / 2, a - 1))
  }

  /** Three neighbouring bytes before and after a burst of at most 16 bits: the low `a` bits of the
      first, the second, and the high 8 - a bits of the third. */
  ghost predicate BurstOf16(x: Byte, y: Byte, z: Byte, x': Byte, y': Byte, z': Byte, a: nat)
  {
    a <= 8 && SameAbove(x, x', a) && SameBelow(z, z', a)
  }

  lemma {:induction false} LowBitsDiffer(x: nat, x': nat, a: nat)
    requires SameAbove(x, x', a)
    ensures Xor(x, x') < Pow2(a)
    decreases a
  {
    hide Xor;
    if a == 0 {
      XorSelf(x);
    } else {
      LowBitsDiffer(x / 2, x' / 2, a - 1);
      XorBits(x, x');
    }
  }

  lemma {:induction false} HighBitsDiffer(z: nat, z': nat, a: nat, k: nat) returns (e: nat)
    requires SameBelow(z, z', a) && z < Pow2(a + k) && z' < Pow2(a + k)
    ensures Xor(z, z') == Pow2(a) * e && e < Pow2(k)
    decreases a
  {
    hide Xor;
    if a == 0 {
      e := Xor(z, z');
      XorBounded(z, z', k);
    } else {
      e := HighBitsDiffer(z / 2, z' / 2, a - 1, k);
      XorBits(z, z');
      SameParityCancels(z, z');
      Doubled(Pow2(a - 1), e);
    }
  }

  lemma SameParityCancels(z: nat, z': nat)
    requires z % 2 == z' % 2
    ensures (z + z') % 2 == 0
  {
  }

  /** Fields that lie side by side stay apart. */
  lemma SameLowPart(u: nat, u': nat, t: nat, a: nat)
    requires t < Pow2(a)
    ensures Xor(Pow2(a) * u + t, Pow2(a) * u' + t) == Pow2(a) * Xor(u, u')
  {
    hide Xor;
    XorSplitsAt(u, u', t, t, a);
    XorSelf(t);
  }

  lemma ByteXor(b: Byte, b': Byte)
    ensures Xor(b, b') < 0x100
  {
    ByteIsPow2Eight();
    XorBounded(b, b', 8);
  }

  lemma SmallMultipleIsZero(m: nat, q: nat)
    requires m * q < m
    ensures q == 0 && m * q == 0
  {
  }

  /** Three bit fields side by side are zero only when each is. */
  lemma FieldsAreZero(dx: nat, dy: nat, e: nat, wx: nat, wy: nat, k: nat)
    requires wx == Pow2(k) * (0x100 * dx) && wy == Pow2(k) * dy && dy < 0x100 && e < Pow2(k)
    requires Xor(Xor(wx, wy), e) == 0
    ensures dx == 0 && dy == 0 && e == 0
  {
    hide Xor, Pow2;
    XorZeroOnlyWhenEqual(Xor(wx, wy), e);
    SameLowPart(0x100 * dx, dy, 0, k);
    var q := Xor(0x100 * dx, dy);
    assert Pow2(k) * q == e;
    SmallMultipleIsZero(Pow2(k), q);
    XorZeroOnlyWhenEqual(0x100 * dx, dy);
  }

  /** A register difference that is the word d after k steps is, a byte later, d with the byte's
      difference joined to it, after 8 more. */
  lemma ByteJoins(s: Word, s': Word, b: Byte, b': Byte, d: Word, w: Word, k: nat)
    requires Xor(s, s') == BitSteps(d, k) && w * Pow2(k) == Xor(b, b') * 0x100
    ensures Xor(ByteStep(s, b), ByteStep(s', b')) == BitSteps(XorWords(d, w), k + 8)
  {
    hide Xor, BitSteps, ByteStep, Pow2;
    ByteStepOfDifference(s, s', b, b');
    JoinsEarlier(d, w, k);
    BitStepsAdd(XorWords(d, w), k, 8);
  }

  lemma FirstByte(c: Word, x: Byte, x': Byte, wx: Word, a: nat)
    requires a <= 8 && Xor(x, x') * 0x100 * Pow2(8 - a) == wx
    ensures Xor(ByteStep(c, x), ByteStep(c, x')) == BitSteps(wx, a)
  {
    hide Xor, BitSteps, ByteStep, Pow2;
    ByteStepsDiffer(c, x, x');
    var w := Xor(x, x') * 0x100;
    PureShift(w, 8 - a);
    BitStepsAdd(w, 8 - a, a);
  }

  /** The burst as one word of the register, and the register after the burst in terms of it. */
  lemma BurstInTheRegister(c: Word, x: Byte, y: Byte, z: Byte, x': Byte, y': Byte, z': Byte, a: nat)
    returns (burst: Word)
    requires BurstOf16(x, y, z, x', y', z', a)
    ensures Xor(ByteStep(ByteStep(ByteStep(c, x), y), z), ByteStep(ByteStep(ByteStep(c, x'), y'), z'))
         == BitSteps(burst, a + 16)
    ensures burst == 0 ==> x == x' && y == y' && z == z'
  {
    hide Xor, BitSteps, ByteStep, Pow2, XorWords;
    var dx, dy, m := Xor(x, x'), Xor(y, y'), Pow2(8 - a);
    ByteXor(y, y');
    ByteIsPow2Eight();
    LowBitsDiffer(x, x', a);
    var e := HighBitsDiffer(z, z', a, 8 - a);
    FieldsFit(dx, dy, e, a);
    burst := JoinedFields(c, x, y, z, x', y', z', 0x100 * dx * m, dy * m, e, a);
    if burst == 0 {
      FieldsAreZero(dx, dy, e, 0x100 * dx * m, dy * m, 8 - a);
      assert Pow2(a) * 0 == 0;
      XorZeroOnlyWhenEqual(x, x');
      XorZeroOnlyWhenEqual(y, y');
      XorZeroOnlyWhenEqual(z, z');
    }
  }

  lemma JoinedFields(c: Word, x: Byte, y: Byte, z: Byte, x': Byte, y': Byte, z': Byte,
                     wx: Word, wy: Word, e: Word, a: nat)
    returns (burst: Word)
    requires a <= 8 && Xor(x, x') * 0x100 * Pow2(8 - a) == wx
    requires wy * Pow2(a) == Xor(y, y') * 0x100 && e * Pow2(a + 8) == Xor(z, z') * 0x100
    ensures Xor(ByteStep(ByteStep(ByteStep(c, x), y), z), ByteStep(ByteStep(ByteStep(c, x'), y'), z'))
         == BitSteps(burst, a + 16)
    ensures burst == Xor(Xor(wx, wy), e)
  {
    hide Xor, BitSteps, ByteStep, Pow2;
    FirstByte(c, x, x', wx, a);
    ByteJoins(ByteStep(c, x), ByteStep(c, x'), y, y', wx, wy, a);
    var wxy := XorWords(wx, wy);
    ByteJoins(ByteStep(ByteStep(c, x), y), ByteStep(ByteStep(c, x'), y'), z, z', wxy, e, a + 8);
    burst := XorWords(wxy, e);
  }

  lemma FieldsFit(dx: nat, dy: nat, e: nat, a: nat)
    requires a <= 8 && dx < Pow2(a) && dy < 0x100 && e < Pow2(8 - a)
    ensures var m := Pow2(8 - a);
            && dx * 0x100 * m == 0x100 * dx * m == m * (0x100 * dx) < 0x1_0000
            && dy * m == m * dy < 0x1_0000 && dy * m * Pow2(a) == dy * 0x100
            && e < 0x1_0000 && e * Pow2(a + 8) == Pow2(a) * e * 0x100 < 0x1_0000
  {
    hide Pow2;
    var p, m := Pow2(a), Pow2(8 - a);
    ByteIsPow2Eight();
    Pow2Sum(a, 8 - a);
    Pow2Sum(a, 8);
    ProductFits(dx, p, m);
    MiddleFits(dy, p, m);
    ProductCommutes(p, m);
    ProductFits(e, m, p);
    ProductCommutes(e, p);
    Reassociated(e, p);
  }

  lemma ProductCommutes(a: nat, b: nat)
    ensures a * b == b * a
  {
  }

  lemma Reassociated(e: nat, p: nat)
    ensures e * (p * 0x100) == e * p * 0x100
  {
  }

  lemma MiddleFits(d: nat, p: nat, m: nat)
    requires d < 0x100 && p * m == 0x100
    ensures d * m == m * d < 0x1_0000 && d * m * p == d * 0x100
  {
    assert m <= 0x100 by { ProductAtMost(1, p, m); }
    ProductAtMost(d, 0xFF, m);
    ProductCommutes(d, m);
    assert d * m * p == d * (m * p);
  }

  lemma ProductAtMost(a: nat, b: nat, m: nat)
    requires a <= b
    ensures a * m <= b * m
  {
  }

  lemma ProductFits(d: nat, p: nat, m: nat)
    requires d < p && p * m == 0x100
    ensures d * m < 0x100 && 0x100 * d * m == 0x100 * (d * m) == d * 0x100 * m == m * (0x100 * d)
  {
    ProductAtMost(d + 1, p, m);
    assert (d + 1) * m == d * m + m;
    assert m > 0;
  }

  /** A register that differs stays different: only zero is shifted into zero. */
  lemma BurstIsSeen(c: Word, x: Byte, y: Byte, z: Byte, x': Byte, y': Byte, z': Byte, a: nat)
    requires BurstOf16(x, y, z, x', y', z', a)
    requires x != x' || y != y' || z != z'
    ensures ByteStep(ByteStep(ByteStep(c, x), y), z) != ByteStep(ByteStep(ByteStep(c, x'), y'), z')
  {
    hide Xor, BitSteps, ByteStep, Pow2;
    var burst := BurstInTheRegister(c, x, y, z, x', y', z', a);
    var s := ByteStep(ByteStep(ByteStep(c, x), y), z);
    if s == ByteStep(ByteStep(ByteStep(c, x'), y'), z') {
      XorSelf(s);
      ZeroStaysZero(a + 16);
      BitStepsInjective(burst, 0, a + 16);
    }
  }

  lemma ZeroStaysZero(n: nat)
    ensures BitSteps(0, n) == 0
  {
    assert 0 * Pow2(n) == 0;
    PureShift(0, n);
  }

  /** Any burst of up to 16 bits in the data changes the CRC, whatever precedes and follows it. */
  lemma CrcDetectsBurst(pre: seq<Byte>, x: Byte, y: Byte, z: Byte, x': Byte, y': Byte, z': Byte,
                        tail: seq<Byte>, a: nat)
    requires BurstOf16(x, y, z, x', y', z', a) && (x != x' || y != y' || z != z')
    ensures Crc(pre + [x] + [y] + [z] + tail) != Crc(pre + [x'] + [y'] + [z'] + tail)
  {
    hide ByteStep, Crc;
    CrcOfAppended(pre, x);
    CrcOfAppended(pre, x');
    CrcOfAppended(pre + [x], y);
    CrcOfAppended(pre + [x'], y');
    CrcOfAppended(pre + [x] + [y], z);
    CrcOfAppended(pre + [x'] + [y'], z');
    BurstIsSeen(Crc(pre), x, y, z, x', y', z', a);
    TailKeepsDifference(pre + [x] + [y] + [z], pre + [x'] + [y'] + [z'], tail);
  }

  // ----- whole packets -----

  /** The CRC over data and CRC field together is zero exactly when the field holds the CRC of the
      data. */
  lemma CrcOfCheckedData(data: seq<Byte>, high: Byte, low: Byte)
    ensures Crc(data + [high] + [low]) == 0 <==> ReadBe16(high, low) == Crc(data)
  {
    hide Xor, BitSteps, Crc, Absorb;
    var c := Crc(data);
    CrcOfAppended(data, high);
    CrcOfAppended(data + [high], low);
    OwnBytesCancel(c);
    if Crc(data + [high] + [low]) == 0 {
      TwoBytesInjective(c, high, low, HighByte(c), LowByte(c));
    }
  }

  lemma OwnBytesCancel(c: Word)
    ensures ByteStep(ByteStep(c, HighByte(c)), LowByte(c)) == 0
  {
    hide Xor, BitSteps;
    var h: int, l: int := HighByte(c), LowByte(c);
    XorSplits(h, h, l, 0);
    XorSelf(h);
    XorZero(l);
    assert Absorb(c, h) == l;
    ByteIsPow2Eight();
    PureShift(l, 8);
    XorSelf(l * 0x100);
    ZeroStaysZero(8);
  }

  /** `other` differs from `data` in one burst of at most 16 bits, in the three bytes from i on. */
  ghost predicate DiffersInBurst(data: seq<Byte>, other: seq<Byte>, i: nat, a: nat)
  {
    && |data| == |other| && i + 2 < |data|
    && data[..i] == other[..i] && data[i + 3..] == other[i + 3..]
    && BurstOf16(data[i], data[i + 1], data[i + 2], other[i], other[i + 1], other[i + 2], a)
  }

  lemma AcceptedSumsToZero(data: seq<Byte>)
    ensures Parse(data).Some? ==> Crc(data) == 0
  {
    hide Crc;
    if Parse(data).Some? {
      var n := |data| - 2;
      assert data == data[..n] + [data[n]] + [data[n + 1]];
      CrcOfCheckedData(data[..n], data[n], data[n + 1]);
    }
  }

  /** An accepted packet hit by one burst of up to 16 bits, anywhere from its header to its CRC field,
      is rejected. */
  lemma BurstDetected(data: seq<Byte>, other: seq<Byte>, i: nat, a: nat)
    requires DiffersInBurst(data, other, i, a) && data != other
    ensures Parse(data).Some? ==> Parse(other) == None
  {
    hide Crc, Parse, BurstOf16;
    AcceptedSumsToZero(data);
    AcceptedSumsToZero(other);
    assert data == data[..i] + [data[i]] + [data[i + 1]] + [data[i + 2]] + data[i + 3..];
    assert other == data[..i] + [other[i]] + [other[i + 1]] + [other[i + 2]] + data[i + 3..];
    CrcDetectsBurst(data[..i], data[i], data[i + 1], data[i + 2], other[i], other[i + 1], other[i + 2],
                    data[i + 3..], a);
  }

  /** `other` has the same length and agrees with `data` except perhaps at i and i + 1. */
  ghost predicate DiffersOnlyAt(data: seq<Byte>, other: seq<Byte>, i: nat)
  {
    && |data| == |other|
    && i + 1 < |data|
    && data[..i] == other[..i]
    && data[i + 2..] == other[i + 2..]
  }

  /** A change in one byte, or in two neighbouring bytes, is such a burst, and is noticed. */
  lemma TwoAdjacentBytesDetected(data: seq<Byte>, other: seq<Byte>, i: nat)
    requires DiffersOnlyAt(data, other, i) && data != other
    ensures 3 <= |data| ==> exists j, a :: DiffersInBurst(data, other, j, a)
    ensures Parse(data).Some? ==> Parse(other) == None
  {
    hide Parse;
    if i + 2 < |data| {
      assert data[i + 3..] == data[i + 2..][1..] && other[i + 3..] == other[i + 2..][1..];
      assert data[i + 2] == data[i + 2..][0] && other[i + 2] == other[i + 2..][0];
      WholeBytes(data[i], data[i + 1], data[i + 2], other[i], other[i + 1]);
      BurstDetected(data, other, i, 8);
    } else if i > 0 {
      assert data[..i - 1] == data[..i][..i - 1] && other[..i - 1] == other[..i][..i - 1];
      assert data[i - 1] == data[..i][i - 1] && other[i - 1] == other[..i][i - 1];
      LastBytes(data[i - 1], data[i], data[i + 1], other[i], other[i + 1]);
      BurstDetected(data, other, i - 1, 0);
    } else {
      TooShortIsRejected(data);
    }
  }

  lemma WholeBytes(x: Byte, y: Byte, z: Byte, x': Byte, y': Byte)
    ensures BurstOf16(x, y, z, x', y', z, 8)
  {
    ByteIsPow2Eight();
    BytesEndAtEight(x, x', 8);
    SameNumberBelow(z, 8);
  }

  lemma {:induction false} BytesEndAtEight(x: nat, x': nat, a: nat)
    requires x < Pow2(a) && x' < Pow2(a)
    ensures SameAbove(x, x', a)
    decreases a
  {
    if a > 0 {
      BytesEndAtEight(x / 2, x' / 2, a - 1);
    }
  }

  lemma {:induction false} SameNumberBelow(z: nat, a: nat)
    ensures SameBelow(z, z, a)
    decreases a
  {
    if a > 0 {
      SameNumberBelow(z / 2, a - 1);
    }
  }

  lemma LastBytes(x: Byte, y: Byte, z: Byte, y': Byte, z': Byte)
    ensures BurstOf16(x, y, z, x, y', z', 0)
  {
  }

  lemma TooShortIsRejected(data: seq<Byte>)
    requires |data| < OVERHEAD
    ensures Parse(data) == None
  {
    hide Crc;
  }
}
