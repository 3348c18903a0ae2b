/** The searches of the pool allocator: the aligned zero-area search, first fit with alignment and best
    fit.  They only read the bitmap. */
module ZeroArea {
  import opened Arith
  import opened WordBits
  import opened Bitmap

  /** `__ALIGN_MASK(x, align - 1)` for a power-of-two `align`: `x` rounded up to a multiple. */
  function AlignUp(x: nat, align: nat): nat
    requires align > 0
  {
    (x + align - 1) / align * align
  }

  /** The rounding is a multiple, and there is no multiple between `x` and it. */
  lemma AlignUpIsLeast(x: nat, align: nat, y: nat)
    requires align > 0
    ensures x <= AlignUp(x, align) < x + align && AlignUp(x, align) % align == 0
    ensures y >= x && y % align == 0 ==> y >= AlignUp(x, align)
  {
    var q := (x + align - 1) / align;
    DivModUnique(q * align, align, q, 0);
    var k := y / align;
    assert (k + 1) * align == k * align + align;
    if k < q {
      MulMono(k + 1, q, align);
    } else {
      MulMono(q, k, align);
    }
  }

  /** find_next_zero_bit and find_next_bit of the kernel: the first bit equal to `v` in [start, size),
      or `size` when there is none. */
  method FindNext(bits: array<Word>, size: nat, start: nat, v: bool) returns (r: nat)
    requires size <= bits.Length * BITS_PER_LONG
    ensures if start >= size then r == size else start <= r <= size
    ensures start < size ==> AllAre(bits[..], start, r, !v)
    ensures r < size ==> BitAt(bits[..], r) == v
  {
    if start >= size {
      return size;
    }
    r := start;
    while r < size && bits[r / BITS_PER_LONG][r % BITS_PER_LONG] != v
      invariant start <= r <= size
      invariant AllAre(bits[..], start, r, !v)
    {
      r := r + 1;
    }
  }

  /** A request for `nr` bits can be placed at `i`. */
  ghost predicate Fits(m: seq<Word>, size: nat, start: nat, nr: nat, align: nat, off: nat, i: nat)
    requires size <= |m| * BITS_PER_LONG && align > 0
  {
    start <= i && i + nr <= size && (i + off) % align == 0 && AllAre(m, i, i + nr, false)
  }

  /** What the search promises for a non-empty request: the smallest place, or a value above `size`
      exactly when there is no place. */
  ghost predicate LeastFit(m: seq<Word>, size: nat, start: nat, nr: nat, align: nat, off: nat, r: nat)
    requires size <= |m| * BITS_PER_LONG && align > 0
  {
    && (r <= size ==> Fits(m, size, start, nr, align, off, r))
    && (forall j: nat :: j < r ==> !Fits(m, size, start, nr, align, off, j))
    && (r > size ==> forall j: nat :: !Fits(m, size, start, nr, align, off, j))
  }

  lemma NothingBefore(m: seq<Word>, size: nat, start: nat, nr: nat, align: nat, off: nat, zero: nat, index: nat, j: nat)
    requires size <= |m| * BITS_PER_LONG && align > 0 && nr >= 1
    requires if start >= size then zero == size else start <= zero <= size && AllAre(m, start, zero, true)
    requires index + off == AlignUp(zero + off, align)
    requires start <= j < index
    ensures !Fits(m, size, start, nr, align, off, j)
  {
    AlignUpIsLeast(zero + off, align, j + off);
    if j < zero && j < size {
      assert BitAt(m, j);
    }
  }

  /** bitmap_find_next_zero_area_off, with `align` for `align_mask + 1`. */
  method FindNextZeroAreaOff(bits: array<Word>, size: nat, start: nat, nr: nat, align: nat, off: nat) returns (r: nat)
    requires size <= bits.Length * BITS_PER_LONG && align > 0
    ensures nr >= 1 ==> LeastFit(bits[..], size, start, nr, align, off, r)
  {
    ghost var m := bits[..];
    var from := start;
    while true
      invariant start <= from
      invariant nr >= 1 ==> forall j: nat :: j < from ==> !Fits(m, size, start, nr, align, off, j)
      decreases if from <= size then size + 1 - from else 0
    {
      var zero := FindNext(bits, size, from, false);
      AlignUpIsLeast(zero + off, align, zero + off);
      var index := AlignUp(zero + off, align) - off;
      if nr >= 1 {
        forall j: nat | from <= j < index ensures !Fits(m, size, start, nr, align, off, j) {
          NothingBefore(m, size, from, nr, align, off, zero, index, j);
        }
      }
      var end := index + nr;
      if end > size {
        return end;
      }
      var i := FindNext(bits, end, index, true);
      if i < end {
        from := i + 1;
      } else {
        return index;
      }
    }
  }

  /** The alignment bm_gen_pool_first_fit_align hands to the search: `align_mask + 1` ... */
  function AlignBits(align: nat, granule: nat): nat
    requires granule > 0
  {
    (align + granule - 1) / granule
  }

  /** ... and `align_off`, where `start_addr & (align - 1)` is the remainder modulo a power of two. */
  function AlignOffset(startAddr: nat, align: nat, granule: nat): nat
    requires granule > 0 && align > 0
  {
    startAddr % align / granule
  }

  /** bm_gen_pool_first_fit_align */
  method FirstFitAlign(bits: array<Word>, size: nat, start: nat, nr: nat, alignOrder: nat, order: nat, startAddr: nat)
    returns (r: nat)
    requires size <= bits.Length * BITS_PER_LONG
    ensures AlignBits(Pow2(alignOrder), Pow2(order)) > 0
    ensures nr >= 1 ==> LeastFit(bits[..], size, start, nr, AlignBits(Pow2(alignOrder), Pow2(order)),
                                 AlignOffset(startAddr, Pow2(alignOrder), Pow2(order)), r)
    ensures nr >= 1 && r <= size ==>
              (startAddr + r * Pow2(order)) % Pow2(alignOrder)
              == startAddr % (if alignOrder <= order then Pow2(alignOrder) else Pow2(order))
  {
    AlignBitsExact(alignOrder, order);
    var align := AlignBits(Pow2(alignOrder), Pow2(order));
    var off := AlignOffset(startAddr, Pow2(alignOrder), Pow2(order));
    r := FindNextZeroAreaOff(bits, size, start, nr, align, off);
    if nr >= 1 && r <= size {
      AlignedAddress(startAddr, alignOrder, order, r);
    }
  }

  lemma AlignBitsExact(e: nat, o: nat)
    ensures AlignBits(Pow2(e), Pow2(o)) == if e <= o then 1 else Pow2(e - o)
  {
    var g := Pow2(o);
    if e <= o {
      Pow2Sum(e, o - e);
      MulMono(1, Pow2(o - e), Pow2(e));
      DivModUnique(Pow2(e) + g - 1, g, 1, Pow2(e) - 1);
    } else {
      Pow2Sum(e - o, o);
      DivModUnique(Pow2(e) + g - 1, g, Pow2(e - o), g - 1);
    }
  }

  /** The address first_fit_align leads to is a multiple of the alignment up to what the chunk start
      itself leaves below the granule: it is a multiple of the alignment exactly when the chunk start is a
      multiple of the smaller of alignment and granule. */
  lemma AlignedAddress(startAddr: nat, e: nat, o: nat, index: nat)
    requires AlignBits(Pow2(e), Pow2(o)) > 0
    requires (index + AlignOffset(startAddr, Pow2(e), Pow2(o))) % AlignBits(Pow2(e), Pow2(o)) == 0
    ensures (startAddr + index * Pow2(o)) % Pow2(e) == startAddr % (if e <= o then Pow2(e) else Pow2(o))
  {
    AlignBitsExact(e, o);
    if e <= o {
      Pow2Sum(o - e, e);
      BelowGranule(startAddr, Pow2(o - e), Pow2(e), Pow2(o), index);
    } else {
      Pow2Sum(e - o, o);
      AboveGranule(startAddr, Pow2(e - o), Pow2(o), Pow2(e), index);
    }
  }

  lemma MulAssoc(a: int, b: int, c: int)
    ensures a * (b * c) == (a * b) * c
  {
  }

  /** The case of an alignment below the granule `g`. */
  lemma BelowGranule(startAddr: nat, f: nat, align: nat, g: nat, index: nat)
    requires align > 0 && g == f * align
    ensures (startAddr + index * g) % align == startAddr % align
  {
    MulAssoc(index, f, align);
    AddMultiple(startAddr, index * f, align);
  }

  /** The case of an alignment at or above the granule `g`. */
  lemma AboveGranule(startAddr: nat, a: nat, g: nat, align: nat, index: nat)
    requires a > 0 && g > 0 && align > 0 && align == a * g
    requires (index + startAddr % align / g) % a == 0
    ensures (startAddr + index * g) % align == startAddr % g
  {
    var q, rem := startAddr / align, startAddr % align;
    var off, low := rem / g, rem % g;
    var k := (index + off) / a;
    assert startAddr == q * align + rem;
    assert rem == off * g + low;
    assert index + off == k * a;
    MulAssoc(k, a, g);
    MulAssoc(q, a, g);
    Distrib(index, off, g);
    Distrib(q, k, align);
    MulMono(1, a, g);
    DivModUnique(startAddr + index * g, align, q + k, low);
    Distrib(q * a, off, g);
    DivModUnique(startAddr, g, q * a + off, low);
  }

  /** [i, j) is a maximal run of clear bits of [start, size). */
  ghost predicate Run(m: seq<Word>, size: nat, start: nat, i: nat, j: nat)
    requires size <= |m| * BITS_PER_LONG
  {
    && start <= i < j <= size
    && AllAre(m, i, j, false)
    && (i == start || BitAt(m, i - 1))
    && (j == size || BitAt(m, j))
  }

  /** `best` is the leftmost start among the shortest runs of at least `nr` bits that begin before `limit`,
      `len` being their length; `size` and `size + 1` when there is none. */
  ghost predicate BestBefore(m: seq<Word>, size: nat, start: nat, nr: nat, limit: nat, best: nat, len: nat)
    requires size <= |m| * BITS_PER_LONG
  {
    && (best < size ==> best < limit && len >= nr && best + len <= size && Run(m, size, start, best, best + len))
    && (best >= size ==> best == size && len == size + 1)
    && forall i: nat, j: nat :: Run(m, size, start, i, j) && j - i >= nr && i < limit ==>
         best < size && (len < j - i || (len == j - i && best <= i))
  }

  /** What best fit promises. */
  ghost predicate BestFit(m: seq<Word>, size: nat, start: nat, nr: nat, r: nat)
    requires size <= |m| * BITS_PER_LONG
  {
    exists len: nat :: BestBefore(m, size, start, nr, size, r, len)
  }

  /** A least fit found from `from`, where a run may begin, is the start of a run. */
  lemma LeastFitStartsRun(m: seq<Word>, size: nat, start: nat, from: nat, nr: nat, index: nat, next: nat)
    requires size <= |m| * BITS_PER_LONG && nr >= 1
    requires start <= from && (from == start || from > size || BitAt(m, from - 1))
    requires index < size && LeastFit(m, size, from, nr, 1, 0, index)
    requires index + nr <= next <= size && AllAre(m, index + nr, next, false) && (next == size || BitAt(m, next))
    ensures Run(m, size, start, index, next)
    ensures forall i: nat, j: nat :: Run(m, size, start, i, j) && j - i >= nr && from <= i <= next ==> i == index && j == next
  {
    assert index > from ==> !Fits(m, size, from, nr, 1, 0, index - 1);
    forall i: nat, j: nat | Run(m, size, start, i, j) && j - i >= nr && from <= i <= next
      ensures i == index && j == next
    {
      assert Fits(m, size, from, nr, 1, 0, i);
    }
  }

  /** Taking a run into account; a run of exactly `nr` bits ends the search. */
  lemma Consider(m: seq<Word>, size: nat, start: nat, from: nat, nr: nat, index: nat, next: nat, best: nat, len: nat)
    requires size <= |m| * BITS_PER_LONG && nr >= 1
    requires start <= from && (from == start || from > size || BitAt(m, from - 1))
    requires index < size && LeastFit(m, size, from, nr, 1, 0, index)
    requires index + nr <= next <= size && AllAre(m, index + nr, next, false) && (next == size || BitAt(m, next))
    requires BestBefore(m, size, start, nr, from, best, len)
    ensures next - index < len ==> BestBefore(m, size, start, nr, next + 1, index, next - index)
    ensures next - index < len && next - index == nr ==> BestBefore(m, size, start, nr, size, index, nr)
    ensures next - index >= len ==> BestBefore(m, size, start, nr, next + 1, best, len)
  {
    LeastFitStartsRun(m, size, start, from, nr, index, next);
    forall i: nat, j: nat | Run(m, size, start, i, j) && j - i >= nr && i < next + 1
      ensures i < from || (i == index && j == next)
    {
    }
  }

  lemma NoFitNoRun(m: seq<Word>, size: nat, start: nat, from: nat, nr: nat, r: nat)
    requires size <= |m| * BITS_PER_LONG && nr >= 1
    requires LeastFit(m, size, from, nr, 1, 0, r) && r >= size
    ensures forall i: nat, j: nat :: Run(m, size, start, i, j) && j - i >= nr ==> i < from
  {
    forall i: nat, j: nat | Run(m, size, start, i, j) && j - i >= nr
      ensures i < from
    {
      if i >= from {
        assert Fits(m, size, from, nr, 1, 0, i);
      }
    }
  }

  /** bm_gen_pool_best_fit */
  method BestFitSearch(bits: array<Word>, size: nat, start: nat, nr: nat) returns (startBit: nat)
    requires size <= bits.Length * BITS_PER_LONG && nr >= 1
    ensures BestFit(bits[..], size, start, nr, startBit)
  {
    ghost var m := bits[..];
    startBit := size;
    var len: nat := size + 1;
    var index: nat := FindNextZeroAreaOff(bits, size, start, nr, 1, 0);
    ghost var from := start;
    while index < size
      invariant start <= from && (from == start || from > size || BitAt(m, from - 1))
      invariant LeastFit(m, size, from, nr, 1, 0, index)
      invariant BestBefore(m, size, start, nr, from, startBit, len)
      decreases if from <= size then size + 1 - from else 0
    {
      var nextBit := FindNext(bits, size, index + nr, true);
      Consider(m, size, start, from, nr, index, nextBit, startBit, len);
      if nextBit - index < len {
        len := nextBit - index;
        startBit := index;
        if len == nr {
          return;
        }
      }
      from := nextBit + 1;
      index := FindNextZeroAreaOff(bits, size, nextBit + 1, nr, 1, 0);
    }
    NoFitNoRun(m, size, start, from, nr, index);
    assert BestBefore(m, size, start, nr, size, startBit, len);
  }

  lemma {:induction false} FitHasLeast(m: seq<Word>, size: nat, start: nat, nr: nat, align: nat, off: nat, j: nat) returns (r: nat)
    requires size <= |m| * BITS_PER_LONG && align > 0
    requires Fits(m, size, start, nr, align, off, j)
    ensures r <= j && LeastFit(m, size, start, nr, align, off, r)
  {
    if i: nat :| i < j && Fits(m, size, start, nr, align, off, i) {
      r := FitHasLeast(m, size, start, nr, align, off, i);
    } else {
      r := j;
    }
  }

  lemma {:induction false} RunEnd(m: seq<Word>, size: nat, from: nat) returns (next: nat)
    requires from <= size <= |m| * BITS_PER_LONG
    ensures from <= next <= size && AllAre(m, from, next, false) && (next == size || BitAt(m, next))
    decreases size - from
  {
    if from == size || BitAt(m, from) {
      next := from;
    } else {
      next := RunEnd(m, size, from + 1);
    }
  }

  /** Best fit answers with a place for the request, and with `size` exactly when there is none. */
  lemma BestFitIsFit(m: seq<Word>, size: nat, start: nat, nr: nat, r: nat)
    requires size <= |m| * BITS_PER_LONG && nr >= 1
    requires BestFit(m, size, start, nr, r)
    ensures r <= size
    ensures r < size ==> Fits(m, size, start, nr, 1, 0, r)
    ensures r == size <==> forall j: nat :: !Fits(m, size, start, nr, 1, 0, j)
  {
    var len: nat :| BestBefore(m, size, start, nr, size, r, len);
    if r < size {
      assert Run(m, size, start, r, r + len);
      assert Fits(m, size, start, nr, 1, 0, r);
    }
    if j: nat :| Fits(m, size, start, nr, 1, 0, j) {
      var i := FitHasLeast(m, size, start, nr, 1, 0, j);
      var next := RunEnd(m, size, i + nr);
      LeastFitStartsRun(m, size, start, start, nr, i, next);
      assert Run(m, size, start, i, next);
    }
  }

  /** The best fit is unique. */
  lemma BestFitUnique(m: seq<Word>, size: nat, start: nat, nr: nat, r: nat, r': nat)
    requires size <= |m| * BITS_PER_LONG && nr >= 1
    requires BestFit(m, size, start, nr, r) && BestFit(m, size, start, nr, r')
    ensures r == r'
  {
    var len: nat :| BestBefore(m, size, start, nr, size, r, len);
    var len': nat :| BestBefore(m, size, start, nr, size, r', len');
    if r < size {
      assert Run(m, size, start, r, r + len);
    }
    if r' < size {
      assert Run(m, size, start, r', r' + len');
    }
  }
}
