/** The machine words a chunk bitmap is made of (`unsigned long`, 64 bits) and the masks the allocator
    builds from them.  A word is its vector of bits, bit 0 first; the operators are those of C. */
module WordBits {
  const BITS_PER_LONG: nat := 64

  type Word = w: seq<bool> | |w| == 64 witness seq(64, i => false)

  function Zero(): Word {
    seq(64, i => false)
  }

  /** `~0UL` */
  function Ones(): Word {
    seq(64, i => true)
  }

  function And(a: Word, b: Word): Word {
    seq(64, (i: nat) => i < 64 && a[i] && b[i])
  }

  function Or(a: Word, b: Word): Word {
    seq(64, (i: nat) => i < 64 && (a[i] || b[i]))
  }

  function Not(a: Word): Word {
    seq(64, (i: nat) => i < 64 && !a[i])
  }

  function ShiftLeft(a: Word, n: nat): Word {
    seq(64, (i: nat) => n <= i < 64 && a[i - n])
  }

  function ShiftRight(a: Word, n: nat): Word {
    seq(64, (i: nat) => i + n < 64 && a[i + n])
  }

  /** BITMAP_FIRST_WORD_MASK(start): `~0UL << (start % 64)` */
  function FirstWordMask(start: nat): Word {
    ShiftLeft(Ones(), start % BITS_PER_LONG)
  }

  /** BITMAP_LAST_WORD_MASK(nbits): `~0UL >> (-nbits % 64)` */
  function LastWordMask(nbits: nat): Word {
    ShiftRight(Ones(), (BITS_PER_LONG - nbits % BITS_PER_LONG) % BITS_PER_LONG)
  }

  /** How many bits of [pos, end) lie in the word of `pos`. */
  function Step(pos: nat, end: nat): (n: nat)
    requires pos < end
    ensures 1 <= n <= end - pos
    ensures (pos + n) % BITS_PER_LONG == 0 || pos + n == end
    ensures pos % BITS_PER_LONG + n <= BITS_PER_LONG
  {
    if end - pos >= BITS_PER_LONG - pos % BITS_PER_LONG then BITS_PER_LONG - pos % BITS_PER_LONG else end - pos
  }

  /** The mask for the bits of [pos, end) that lie in the word of `pos`: the mask of the loops at
      bm_genalloc.c:93-100, cut by the last-word mask of line 102 when the range ends in this word. */
  function RangeMask(pos: nat, end: nat): Word
    requires pos < end
  {
    if end - pos >= BITS_PER_LONG - pos % BITS_PER_LONG
    then FirstWordMask(pos)
    else And(FirstWordMask(pos), LastWordMask(end))
  }

  /** The mask the code computes selects exactly the bits of the range that lie in this word. */
  lemma RangeMaskBit(pos: nat, end: nat, i: nat)
    requires pos < end && i < BITS_PER_LONG
    ensures RangeMask(pos, end)[i] <==> pos % BITS_PER_LONG <= i < pos % BITS_PER_LONG + Step(pos, end)
  {
    if end - pos < BITS_PER_LONG - pos % BITS_PER_LONG {
      assert end == pos / BITS_PER_LONG * BITS_PER_LONG + (pos % BITS_PER_LONG + (end - pos));
      assert end % BITS_PER_LONG == pos % BITS_PER_LONG + (end - pos);
    }
  }

  /** `val & mask` is zero exactly when no bit of the range is set in this word, and it is the mask
      exactly when they all are: the tests of bm_genalloc.c:52 and 67. */
  lemma MaskTests(val: Word, pos: nat, end: nat)
    requires pos < end
    ensures And(val, RangeMask(pos, end)) == Zero() <==>
            forall i :: pos % BITS_PER_LONG <= i < pos % BITS_PER_LONG + Step(pos, end) ==> !val[i]
    ensures And(val, RangeMask(pos, end)) == RangeMask(pos, end) <==>
            forall i :: pos % BITS_PER_LONG <= i < pos % BITS_PER_LONG + Step(pos, end) ==> val[i]
  {
    var mask := RangeMask(pos, end);
    forall i: nat | i < BITS_PER_LONG
      ensures mask[i] <==> pos % BITS_PER_LONG <= i < pos % BITS_PER_LONG + Step(pos, end)
    {
      RangeMaskBit(pos, end, i);
    }
    var both := And(val, mask);
    if both == Zero() {
      forall i | pos % BITS_PER_LONG <= i < pos % BITS_PER_LONG + Step(pos, end) ensures !val[i] {
        assert !both[i];
      }
    }
    if both == mask {
      forall i | pos % BITS_PER_LONG <= i < pos % BITS_PER_LONG + Step(pos, end) ensures val[i] {
        assert both[i] == mask[i];
      }
    }
  }
}
