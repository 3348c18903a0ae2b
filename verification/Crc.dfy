/** The checksum of the firmware upload, against the polynomial division that defines it (section 2 of
    ITU-T Recommendation V.41, with a zero initial value).  Numbers are sequences of their bits, lowest
    first: bit i is also the coefficient of x^i. */
module Crc {
  type Byte = b: seq<bool> | |b| == 8 witness [false, false, false, false, false, false, false, false]

  type Reg = r: seq<bool> | |r| == 16 witness seq(16, i => false)

  function Zero(): Reg {
    seq(16, i => false)
  }

  /** 0x1021: x^12 + x^5 + 1; the x^16 of the generator falls out at the top. */
  function Generator(): Reg {
    seq(16, i => i == 0 || i == 5 || i == 12)
  }

  function Xor(a: Reg, b: Reg): Reg {
    seq(16, i requires 0 <= i < 16 => a[i] != b[i])
  }

  function ShiftLeft(a: Reg): Reg {
    seq(16, i requires 0 <= i < 16 => i > 0 && a[i - 1])
  }

  /** A byte shifted left by eight. */
  function High(b: Byte): Reg {
    seq(16, i requires 0 <= i < 16 => i >= 8 && b[i - 8])
  }

  /** One round of the inner loop. */
  function Step(crc: Reg): Reg {
    if crc[15] then Xor(ShiftLeft(crc), Generator()) else ShiftLeft(crc)
  }

  function Steps(crc: Reg, k: nat): Reg {
    if k == 0 then crc else Step(Steps(crc, k - 1))
  }

  /** One round of the outer loop. */
  function ByteStep(crc: Reg, b: Byte): Reg {
    Steps(Xor(crc, High(b)), 8)
  }

  function CrcOf(buf: seq<Byte>): Reg {
    if buf == [] then Zero() else ByteStep(CrcOf(buf[..|buf| - 1]), buf[|buf| - 1])
  }

  // ---------------------------------------------------------------- one message bit at a time

  /** The division step for one message bit. */
  function BitStep(crc: Reg, m: bool): Reg {
    if crc[15] != m then Xor(ShiftLeft(crc), Generator()) else ShiftLeft(crc)
  }

  function BitSteps(crc: Reg, bits: seq<bool>): Reg {
    if bits == [] then crc else BitStep(BitSteps(crc, bits[..|bits| - 1]), bits[|bits| - 1])
  }

  /** The bits of a message in the order they go on the line: each byte highest bit first. */
  function ByteBits(b: Byte): (r: seq<bool>)
    ensures |r| == 8
  {
    [b[7], b[6], b[5], b[4], b[3], b[2], b[1], b[0]]
  }

  function Bits(buf: seq<Byte>): (r: seq<bool>)
    ensures |r| == 8 * |buf|
  {
    if buf == [] then [] else Bits(buf[..|buf| - 1]) + ByteBits(buf[|buf| - 1])
  }

  lemma {:induction false} BitStepsConcat(crc: Reg, a: seq<bool>, b: seq<bool>)
    ensures BitSteps(crc, a + b) == BitSteps(BitSteps(crc, a), b)
    decreases |b|
  {
    if b == [] {
      assert a + b == a;
    } else {
      var ab := a + b;
      assert ab[..|ab| - 1] == a + b[..|b| - 1] && ab[|ab| - 1] == b[|b| - 1];
      BitStepsConcat(crc, a, b[..|b| - 1]);
    }
  }

  /** The register while the lower `8 - k` bits of a byte are still to come, waiting above the register. */
  function Pending(b: Byte, k: nat): Reg
    requires k <= 8
  {
    seq(16, i requires 0 <= i < 16 => i >= 8 + k && b[i - 8 - k])
  }

  lemma StepWithPending(crc: Reg, b: Byte, k: nat)
    requires k < 8
    ensures Step(Xor(crc, Pending(b, k))) == Xor(BitStep(crc, b[7 - k]), Pending(b, k + 1))
  {
    var l, r := Step(Xor(crc, Pending(b, k))), Xor(BitStep(crc, b[7 - k]), Pending(b, k + 1));
    assert Xor(crc, Pending(b, k))[15] == (crc[15] != b[7 - k]);
    forall i | 0 <= i < 16 ensures l[i] == r[i] {
    }
  }

  lemma {:induction false} StepsConsume(crc: Reg, b: Byte, k: nat)
    requires k <= 8
    ensures Steps(Xor(crc, High(b)), k) == Xor(BitSteps(crc, ByteBits(b)[..k]), Pending(b, k))
  {
    if k == 0 {
      assert High(b) == Pending(b, 0);
    } else {
      StepsConsume(crc, b, k - 1);
      var some := ByteBits(b)[..k];
      assert some[..k - 1] == ByteBits(b)[..k - 1] && some[k - 1] == b[8 - k];
      StepWithPending(BitSteps(crc, some[..k - 1]), b, k - 1);
    }
  }

  /** Eight rounds of the inner loop are eight division steps on the bits of the byte. */
  lemma ByteStepIsBitSteps(crc: Reg, b: Byte)
    ensures ByteStep(crc, b) == BitSteps(crc, ByteBits(b))
  {
    StepsConsume(crc, b, 8);
    assert ByteBits(b)[..8] == ByteBits(b);
    assert Xor(BitSteps(crc, ByteBits(b)), Pending(b, 8)) == BitSteps(crc, ByteBits(b));
  }

  lemma {:induction false} CrcIsBitSteps(buf: seq<Byte>)
    ensures CrcOf(buf) == BitSteps(Zero(), Bits(buf))
  {
    if buf != [] {
      var front, last := buf[..|buf| - 1], buf[|buf| - 1];
      CrcIsBitSteps(front);
      ByteStepIsBitSteps(CrcOf(front), last);
      BitStepsConcat(Zero(), Bits(front), ByteBits(last));
    }
  }

  // ---------------------------------------------------------------- polynomial division

  /** The coefficient of x^i of the polynomial whose coefficients are listed highest first. */
  function Coef(p: seq<bool>, i: int): bool {
    0 <= i < |p| && p[|p| - 1 - i]
  }

  /** The coefficient of x^i of q times x^16 + x^12 + x^5 + 1. */
  function TimesG(q: seq<bool>, i: int): bool {
    ((Coef(q, i - 16) != Coef(q, i - 12)) != Coef(q, i - 5)) != Coef(q, i)
  }

  /** `m` times x^16 is `q` times the generator plus `r`. */
  ghost predicate Divides(m: seq<bool>, q: seq<bool>, r: Reg) {
    forall i: int :: (Coef(m, i - 16) != (0 <= i < 16 && r[i])) == TimesG(q, i)
  }

  /** `r` is the remainder of `m` times x^16 modulo the generator. */
  ghost predicate IsRemainder(m: seq<bool>, r: Reg) {
    exists q: seq<bool> :: Divides(m, q, r)
  }

  lemma DivideOneBit(m: seq<bool>, q: seq<bool>, r: Reg, b: bool)
    requires Divides(m, q, r)
    ensures Divides(m + [b], q + [r[15] != b], BitStep(r, b))
  {
    var t := r[15] != b;
    forall i: int
      ensures (Coef(m + [b], i - 16) != (0 <= i < 16 && BitStep(r, b)[i])) == TimesG(q + [t], i)
    {
      assert (Coef(m, i - 17) != (0 <= i - 1 < 16 && r[i - 1])) == TimesG(q, i - 1);
      CoefShift(m, b, i - 16);
      CoefShift(q, t, i);
      CoefShift(q, t, i - 5);
      CoefShift(q, t, i - 12);
      CoefShift(q, t, i - 16);
    }
  }

  lemma CoefShift(p: seq<bool>, b: bool, i: int)
    ensures Coef(p + [b], i) == if i == 0 then b else Coef(p, i - 1)
  {
  }

  lemma {:induction false} BitStepsDivide(m: seq<bool>) returns (q: seq<bool>)
    ensures Divides(m, q, BitSteps(Zero(), m))
  {
    if m == [] {
      q := [];
    } else {
      var front := m[..|m| - 1];
      var q' := BitStepsDivide(front);
      DivideOneBit(front, q', BitSteps(Zero(), front), m[|m| - 1]);
      q := q' + [BitSteps(Zero(), front)[15] != m[|m| - 1]];
      assert m == front + [m[|m| - 1]];
    }
  }

  /** A multiple of the generator below x^16 is zero. */
  lemma {:induction false} NoSmallMultiple(q: seq<bool>, r: Reg)
    requires forall i: int :: (0 <= i < 16 && r[i]) == TimesG(q, i)
    ensures forall i: int :: !Coef(q, i)
    ensures r == Zero()
    decreases |q|
  {
    if q != [] {
      var top := |q| - 1;
      assert TimesG(q, top + 16) == Coef(q, top);
      forall i: int ensures Coef(q[1..], i) == Coef(q, i) {
      }
      forall i: int ensures (0 <= i < 16 && r[i]) == TimesG(q[1..], i) {
        assert (0 <= i < 16 && r[i]) == TimesG(q, i);
        assert TimesG(q[1..], i) == TimesG(q, i);
      }
      NoSmallMultiple(q[1..], r);
    }
    forall i: int | 0 <= i < 16 ensures r[i] == Zero()[i] {
      assert (0 <= i < 16 && r[i]) == TimesG(q, i);
    }
  }

  /** The sum of two polynomials. */
  function AddPoly(p: seq<bool>, q: seq<bool>): seq<bool> {
    var n := if |p| >= |q| then |p| else |q|;
    seq(n, k => Coef(p, n - 1 - k) != Coef(q, n - 1 - k))
  }

  lemma CoefOfSum(p: seq<bool>, q: seq<bool>, i: int)
    ensures Coef(AddPoly(p, q), i) == (Coef(p, i) != Coef(q, i))
  {
  }

  lemma RemainderUnique(m: seq<bool>, q1: seq<bool>, r1: Reg, q2: seq<bool>, r2: Reg)
    requires Divides(m, q1, r1) && Divides(m, q2, r2)
    ensures r1 == r2
  {
    var q, r := AddPoly(q1, q2), Xor(r1, r2);
    forall i: int ensures (0 <= i < 16 && r[i]) == TimesG(q, i) {
      CoefOfSum(q1, q2, i);
      CoefOfSum(q1, q2, i - 5);
      CoefOfSum(q1, q2, i - 12);
      CoefOfSum(q1, q2, i - 16);
      assert (Coef(m, i - 16) != (0 <= i < 16 && r1[i])) == TimesG(q1, i);
      assert (Coef(m, i - 16) != (0 <= i < 16 && r2[i])) == TimesG(q2, i);
    }
    NoSmallMultiple(q, r);
    forall i: int | 0 <= i < 16 ensures r1[i] == r2[i] {
      assert !r[i];
    }
  }

  /** The checksum is the remainder of the message times x^16, and nothing else is. */
  lemma CrcIsTheRemainder(buf: seq<Byte>, r: Reg)
    ensures IsRemainder(Bits(buf), r) <==> r == CrcOf(buf)
  {
    CrcIsBitSteps(buf);
    var q := BitStepsDivide(Bits(buf));
    if IsRemainder(Bits(buf), r) {
      var q': seq<bool> :| Divides(Bits(buf), q', r);
      RemainderUnique(Bits(buf), q, CrcOf(buf), q', r);
    }
  }

  // ---------------------------------------------------------------- what the checksum detects

  /** Going back `k` bits from equal registers, only the top `k` bits of the registers can differ. */
  lemma {:induction false} Backward(c: Reg, d: Reg, a: seq<bool>, b: seq<bool>)
    requires |a| == |b| <= 16 && BitSteps(c, a) == BitSteps(d, b)
    ensures forall i :: 0 <= i < 16 - |a| ==> c[i] == d[i]
    decreases |a|
  {
    if a != [] {
      SplitFirst(c, a);
      SplitFirst(d, b);
      var c', d' := BitStep(c, a[0]), BitStep(d, b[0]);
      Backward(c', d', a[1..], b[1..]);
      assert c'[0] == d'[0];
      forall i | 0 <= i < 16 - |a| ensures c[i] == d[i] {
        assert c'[i + 1] == d'[i + 1];
      }
    }
  }

  lemma SplitFirst(c: Reg, a: seq<bool>)
    requires a != []
    ensures BitSteps(c, a) == BitSteps(BitStep(c, a[0]), a[1..])
  {
    assert a == [a[0]] + a[1..];
    BitStepsConcat(c, [a[0]], a[1..]);
    assert [a[0]][..0] == [];
    assert BitSteps(c, [a[0]]) == BitStep(BitSteps(c, []), a[0]);
  }

  /** From the same register, different windows of up to 16 bits end in different registers. */
  lemma {:induction false} WindowInjective(c: Reg, a: seq<bool>, b: seq<bool>)
    requires |a| == |b| <= 16 && BitSteps(c, a) == BitSteps(c, b)
    ensures a == b
    decreases |a|
  {
    if a != [] {
      SplitFirst(c, a);
      SplitFirst(c, b);
      Backward(BitStep(c, a[0]), BitStep(c, b[0]), a[1..], b[1..]);
      assert BitStep(c, a[0])[0] == BitStep(c, b[0])[0];
      assert a[0] == b[0];
      WindowInjective(BitStep(c, a[0]), a[1..], b[1..]);
      assert a == [a[0]] + a[1..] && b == [b[0]] + b[1..];
    }
  }

  lemma BitStepInjective(c: Reg, d: Reg, m: bool)
    requires BitStep(c, m) == BitStep(d, m)
    ensures c == d
  {
    var x, y := BitStep(c, m), BitStep(d, m);
    assert x[0] == y[0];
    forall i | 0 <= i < 16 ensures c[i] == d[i] {
      if i < 15 {
        assert x[i + 1] == y[i + 1];
      }
    }
  }

  /** Equal bits after a difference never make up for it. */
  lemma {:induction false} BitStepsInjective(c: Reg, d: Reg, bits: seq<bool>)
    requires BitSteps(c, bits) == BitSteps(d, bits)
    ensures c == d
  {
    if bits != [] {
      var front := bits[..|bits| - 1];
      BitStepInjective(BitSteps(c, front), BitSteps(d, front), bits[|bits| - 1]);
      BitStepsInjective(c, d, front);
    }
  }

  /** Messages of one length that differ only inside 16 consecutive bits have different checksums. */
  lemma BurstDetected(prefix: seq<bool>, a: seq<bool>, b: seq<bool>, suffix: seq<bool>)
    requires |a| == |b| <= 16 && a != b
    ensures BitSteps(Zero(), prefix + a + suffix) != BitSteps(Zero(), prefix + b + suffix)
  {
    BitStepsConcat(Zero(), prefix + a, suffix);
    BitStepsConcat(Zero(), prefix + b, suffix);
    BitStepsConcat(Zero(), prefix, a);
    BitStepsConcat(Zero(), prefix, b);
    var c := BitSteps(Zero(), prefix);
    if BitSteps(Zero(), prefix + a + suffix) == BitSteps(Zero(), prefix + b + suffix) {
      BitStepsInjective(BitSteps(c, a), BitSteps(c, b), suffix);
      WindowInjective(c, a, b);
      assert false;
    }
  }

  lemma {:induction false} BitsConcat(a: seq<Byte>, b: seq<Byte>)
    ensures Bits(a + b) == Bits(a) + Bits(b)
    decreases |b|
  {
    if b == [] {
      assert a + b == a;
    } else {
      var ab := a + b;
      assert ab[..|ab| - 1] == a + b[..|b| - 1] && ab[|ab| - 1] == b[|b| - 1];
      BitsConcat(a, b[..|b| - 1]);
      Associative(Bits(a), Bits(b[..|b| - 1]), ByteBits(b[|b| - 1]));
    }
  }

  lemma Associative(a: seq<bool>, b: seq<bool>, c: seq<bool>)
    ensures (a + b) + c == a + (b + c)
  {
  }

  lemma PairBits(a: seq<Byte>)
    requires |a| == 2
    ensures Bits(a) == ByteBits(a[0]) + ByteBits(a[1])
  {
    assert a[..1] == [a[0]] && [a[0]][..0] == [];
    assert Bits([a[0]]) == Bits([a[0]][..0]) + ByteBits(a[0]);
  }

  lemma ByteBitsInjective(a: Byte, b: Byte)
    requires ByteBits(a) == ByteBits(b)
    ensures a == b
  {
    var x, y := ByteBits(a), ByteBits(b);
    assert x[0] == y[0] && x[1] == y[1] && x[2] == y[2] && x[3] == y[3];
    assert x[4] == y[4] && x[5] == y[5] && x[6] == y[6] && x[7] == y[7];
  }

  lemma PairBitsInjective(a: seq<Byte>, b: seq<Byte>)
    requires |a| == |b| == 2 && Bits(a) == Bits(b)
    ensures a == b
  {
    PairBits(a);
    PairBits(b);
    assert ByteBits(a[0]) == Bits(a)[..8] == Bits(b)[..8] == ByteBits(b[0]);
    assert ByteBits(a[1]) == Bits(a)[8..] == Bits(b)[8..] == ByteBits(b[1]);
    ByteBitsInjective(a[0], b[0]);
    ByteBitsInjective(a[1], b[1]);
  }

  /** Two messages of one length that differ, but only inside two adjacent bytes, have different checksums. */
  lemma TwoBytesDetected(a: seq<Byte>, b: seq<Byte>, at: nat)
    requires |a| == |b| && a != b && at + 2 <= |a|
    requires forall k :: 0 <= k < |a| && k != at && k != at + 1 ==> a[k] == b[k]
    ensures CrcOf(a) != CrcOf(b)
  {
    var x, y := a[at..at + 2], b[at..at + 2];
    var prefix, suffix := a[..at], a[at + 2..];
    assert a == prefix + x + suffix && b == prefix + y + suffix;
    BitsConcat(prefix + x, suffix);
    BitsConcat(prefix, x);
    BitsConcat(prefix + y, suffix);
    BitsConcat(prefix, y);
    CrcIsBitSteps(a);
    CrcIsBitSteps(b);
    if Bits(x) == Bits(y) {
      PairBitsInjective(x, y);
      assert false;
    }
    BurstDetected(Bits(prefix), Bits(x), Bits(y), Bits(suffix));
  }

  // ---------------------------------------------------------------- the bytes behind the message

  /** The two checksum bytes in the order they are sent. */
  function CrcBytes(crc: Reg): (r: seq<Byte>)
    ensures |r| == 2
  {
    [crc[8..], crc[..8]]
  }

  /** The register shifted left by k, with what falls out above gone. */
  function ShiftedBy(c: Reg, k: nat): Reg {
    seq(16, i requires 0 <= i < 16 => i >= k && c[i - k])
  }

  lemma {:induction false} OwnBitsClear(c: Reg, k: nat)
    requires k <= 16
    ensures BitSteps(c, seq(k, i requires 0 <= i < k => c[15 - i])) == ShiftedBy(c, k)
  {
    var bits := seq(k, i requires 0 <= i < k => c[15 - i]);
    if k == 0 {
      assert ShiftedBy(c, 0) == c;
    } else {
      OwnBitsClear(c, k - 1);
      assert bits[..k - 1] == seq(k - 1, i requires 0 <= i < k - 1 => c[15 - i]);
      OwnBitClears(c, k - 1);
    }
  }

  lemma OwnBitClears(c: Reg, k: nat)
    requires k < 16
    ensures BitStep(ShiftedBy(c, k), c[15 - k]) == ShiftedBy(c, k + 1)
  {
    var l, r := BitStep(ShiftedBy(c, k), c[15 - k]), ShiftedBy(c, k + 1);
    assert ShiftedBy(c, k)[15] == c[15 - k];
    forall i | 0 <= i < 16 ensures l[i] == r[i] {
    }
  }

  /** A register is cleared by its own checksum bytes and by no others. */
  lemma ClearedByOwnBytes(c: Reg, tail: seq<Byte>)
    requires |tail| == 2
    ensures BitSteps(c, Bits(tail)) == Zero() <==> tail == CrcBytes(c)
  {
    var own := CrcBytes(c);
    PairBits(own);
    OwnBitsClear(c, 16);
    assert Bits(own) == seq(16, i requires 0 <= i < 16 => c[15 - i]);
    assert ShiftedBy(c, 16) == Zero();
    if BitSteps(c, Bits(tail)) == Zero() {
      WindowInjective(c, Bits(tail), Bits(own));
      PairBitsInjective(tail, own);
    }
  }

  /** A receiver that runs the same loop over message and checksum ends with zero exactly when the two bytes
      are the message's checksum. */
  lemma ResidueIsZero(buf: seq<Byte>, tail: seq<Byte>)
    requires |tail| == 2
    ensures CrcOf(buf + tail) == Zero() <==> tail == CrcBytes(CrcOf(buf))
  {
    CrcIsBitSteps(buf);
    CrcIsBitSteps(buf + tail);
    BitsConcat(buf, tail);
    BitStepsConcat(Zero(), Bits(buf), Bits(tail));
    ClearedByOwnBytes(CrcOf(buf), tail);
  }

  /** crc16: the two loops. */
  method Crc16(buf: seq<Byte>) returns (crc: Reg)
    ensures crc == CrcOf(buf)
    ensures IsRemainder(Bits(buf), crc)
  {
    crc := Zero();
    for k := 0 to |buf|
      invariant crc == CrcOf(buf[..k])
    {
      ghost var before := crc;
      crc := Xor(crc, High(buf[k]));
      for i := 0 to 8
        invariant crc == Steps(Xor(before, High(buf[k])), i)
      {
        if crc[15] {
          crc := Xor(ShiftLeft(crc), Generator());
        } else {
          crc := ShiftLeft(crc);
        }
      }
      assert buf[..k + 1][..k] == buf[..k];
    }
    assert buf[..|buf|] == buf;
    CrcIsTheRemainder(buf, crc);
  }
}
