/** Unsigned machine integers as the repository's codecs use them.

A byte and a 16-bit word are bounded integers. Exclusive or is defined bit by bit, so that
the algebra the CRC depends on (it is an Abelian group in which everything is its own
inverse) is proved rather than taken from a bit-vector theory. */
module Bytes {
  type Byte = b: int | 0 <= b < 0x100
  type Word = w: int | 0 <= w < 0x1_0000

  function Xor(a: nat, b: nat): nat
    decreases a + b
  {
    if a == 0 && b == 0 then 0 else 2 * Xor(a / 2, b / 2) + (a + b) % 2
  }

  function Pow2(k: nat): (p: nat)
    ensures p >= 1
  {
    if k == 0 then 1 else 2 * Pow2(k - 1)
  }

  lemma {:induction false} XorBounded(a: nat, b: nat, k: nat)
    requires a < Pow2(k) && b < Pow2(k)
    ensures Xor(a, b) < Pow2(k)
    decreases k
  {
    if k > 0 && !(a == 0 && b == 0) {
      XorBounded(a / 2, b / 2, k - 1);
    }
  }

  lemma {:induction false} XorCommutes(a: nat, b: nat)
    ensures Xor(a, b) == Xor(b, a)
    decreases a + b
  {
    if !(a == 0 && b == 0) {
      XorCommutes(a / 2, b / 2);
    }
  }

  lemma {:induction false} XorZero(a: nat)
    ensures Xor(a, 0) == a
    decreases a
  {
    if a != 0 {
      XorZero(a / 2);
    }
  }

  lemma {:induction false} XorSelf(a: nat)
    ensures Xor(a, a) == 0
    decreases a
  {
    if a != 0 {
      XorSelf(a / 2);
    }
  }

  /** One unfolding, stated on the two halves of the result. */
  lemma XorBits(a: nat, b: nat)
    ensures Xor(a, b) / 2 == Xor(a / 2, b / 2)
    ensures Xor(a, b) % 2 == (a + b) % 2
  {
  }

  lemma SumParity(x: nat, y: nat, a: nat, b: nat)
    requires x % 2 == a % 2 && y % 2 == b % 2
    ensures (x + y) % 2 == (a + b) % 2
  {
  }

  lemma SameHalvesAndParity(x: nat, y: nat)
    requires x / 2 == y / 2 && x % 2 == y % 2
    ensures x == y
  {
  }

  lemma ParityOfXor(x: nat, a: nat, b: nat)
    ensures (Xor(a, b) + x) % 2 == (a + b + x) % 2
  {
    hide Xor;
    XorBits(a, b);
  }

  lemma {:induction false} XorAssociates(a: nat, b: nat, c: nat)
    ensures Xor(Xor(a, b), c) == Xor(a, Xor(b, c))
    decreases a + b + c
  {
    if a + b + c > 0 {
      XorAssociates(a / 2, b / 2, c / 2);
      var l, r := Xor(Xor(a, b), c), Xor(a, Xor(b, c));
      assert l / 2 == r / 2 by {
        XorBits(a, b);
        XorBits(b, c);
        XorBits(Xor(a, b), c);
        XorBits(a, Xor(b, c));
      }
      assert l % 2 == r % 2 by {
        XorBits(Xor(a, b), c);
        XorBits(a, Xor(b, c));
        ParityOfXor(c, a, b);
        ParityOfXor(a, b, c);
      }
      SameHalvesAndParity(l, r);
    } else {
      XorZero(0);
    }
  }

  lemma XorCancels(a: nat, b: nat, m: nat)
    requires Xor(a, m) == Xor(b, m)
    ensures a == b
  {
    XorAssociates(a, m, m);
    XorAssociates(b, m, m);
    XorSelf(m);
    XorZero(a);
    XorZero(b);
  }

  /** Exclusive or distributes over regrouping: the step that makes the CRC linear. */
  lemma XorRegroups(a: nat, p: nat, b: nat, q: nat)
    ensures Xor(Xor(a, p), Xor(b, q)) == Xor(Xor(a, b), Xor(p, q))
  {
    XorAssociates(a, p, Xor(b, q));
    XorAssociates(p, b, q);
    XorCommutes(p, b);
    XorAssociates(b, p, q);
    XorAssociates(a, b, Xor(p, q));
  }

  lemma XorWord(a: Word, b: Word)
    ensures Xor(a, b) < 0x1_0000
  {
    assert Pow2(16) == 0x1_0000 by {
      assert Pow2(4) == 16;
      assert Pow2(8) == 16 * Pow2(4);
      assert Pow2(12) == 16 * Pow2(8);
      assert Pow2(16) == 16 * Pow2(12);
    }
    XorBounded(a, b, 16);
  }

  /** Exclusive or of two words, as a word. */
  function XorWords(a: Word, b: Word): Word { XorWord(a, b); Xor(a, b) }

  /** Zero only when the two sides agree. */
  lemma XorZeroOnlyWhenEqual(a: nat, b: nat)
    requires Xor(a, b) == 0
    ensures a == b
  {
    XorAssociates(a, b, b);
    XorSelf(b);
    XorZero(a);
    XorCommutes(0, b);
    XorZero(b);
  }

  lemma XorPrefixCancels(c: nat, a: nat, b: nat)
    ensures Xor(Xor(c, a), Xor(c, b)) == Xor(a, b)
  {
    XorRegroups(c, a, c, b);
    XorSelf(c);
    XorCommutes(0, Xor(a, b));
    XorZero(Xor(a, b));
  }

  lemma XorOfHalves(h: nat, l: nat, a: nat, b: nat)
    requires a / 2 == h && b / 2 == l
    ensures Xor(a, b) == 2 * Xor(h, l) + (a + b) % 2
  {
    XorBits(a, b);
  }

  lemma SplitStep(u: nat, v: nat, t: nat, w: nat, x: nat)
    requires Xor(u + t / 2, v + w / 2) == x + Xor(t / 2, w / 2)
    ensures Xor(2 * u + t, 2 * v + w) == 2 * x + Xor(t, w)
  {
    hide Xor;
    assert (2 * u + t) / 2 == u + t / 2 && (2 * v + w) / 2 == v + w / 2;
    XorOfHalves(u + t / 2, v + w / 2, 2 * u + t, 2 * v + w);
    XorOfHalves(t / 2, w / 2, t, w);
  }

  /** Exclusive or works on the high part and on the low byte separately. */
  lemma XorSplits(u: nat, v: nat, t: Byte, w: Byte)
    ensures Xor(0x100 * u + t, 0x100 * v + w) == 0x100 * Xor(u, v) + Xor(t, w)
  {
    hide Xor;
    var x := Xor(u, v);
    XorSplitsNibble(u, v, t / 16, w / 16);
    assert t / 8 / 2 == t / 16 && w / 8 / 2 == w / 16;
    assert t / 4 / 2 == t / 8 && w / 4 / 2 == w / 8;
    SplitStep(16 * u, 16 * v, t / 8, w / 8, 16 * x);
    SplitStep(32 * u, 32 * v, t / 4, w / 4, 32 * x);
    SplitStep(64 * u, 64 * v, t / 2, w / 2, 64 * x);
    SplitStep(128 * u, 128 * v, t, w, 128 * x);
  }

  lemma XorSplitsNibble(u: nat, v: nat, t: nat, w: nat)
    requires t < 16 && w < 16
    ensures Xor(16 * u + t, 16 * v + w) == 16 * Xor(u, v) + Xor(t, w)
  {
    hide Xor;
    var x := Xor(u, v);
    XorZero(0);
    assert t / 8 / 2 == 0 && w / 8 / 2 == 0;
    assert t / 4 / 2 == t / 8 && w / 4 / 2 == w / 8;
    SplitStep(u, v, t / 8, w / 8, x);
    SplitStep(2 * u, 2 * v, t / 4, w / 4, 2 * x);
    SplitStep(4 * u, 4 * v, t / 2, w / 2, 4 * x);
    SplitStep(8 * u, 8 * v, t, w, 8 * x);
  }

  // ----- big-endian 16-bit fields -----

  function HighByte(w: Word): Byte { w / 0x100 }

  function LowByte(w: Word): Byte { w % 0x100 }

  function ReadBe16(high: Byte, low: Byte): Word { high * 0x100 + low }

  function WriteBe16(w: Word): (s: seq<Byte>)
    ensures |s| == 2 && ReadBe16(s[0], s[1]) == w
  {
    [HighByte(w), LowByte(w)]
  }
}
