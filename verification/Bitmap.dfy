/** The multi-word bit loops of the pool allocator: set_bits_ll, clear_bits_ll, bitmap_set_ll and
    bitmap_clear_ll, as one thread runs them.  Module PoolProtocol interleaves the same word steps. */
module Bitmap {
  import opened WordBits

  function BitAt(m: seq<Word>, k: nat): bool
    requires k < |m| * BITS_PER_LONG
  {
    m[k / BITS_PER_LONG][k % BITS_PER_LONG]
  }

  /** `b` is `a` with exactly the bits [lo, hi) made `v`. */
  ghost predicate Flips(a: seq<Word>, b: seq<Word>, lo: int, hi: int, v: bool) {
    && |a| == |b|
    && forall k: nat :: k < |a| * BITS_PER_LONG ==> BitAt(b, k) == if lo <= k < hi then v else BitAt(a, k)
  }

  /** Every bit of [lo, hi) equals `v`. */
  ghost predicate AllAre(m: seq<Word>, lo: nat, hi: nat, v: bool)
    requires hi <= |m| * BITS_PER_LONG
  {
    forall k: nat :: lo <= k < hi ==> BitAt(m, k) == v
  }

  /** The test before the compare-and-swap: setting (`v`) wants the masked bits clear, clearing wants
      them set. */
  predicate Ready(val: Word, mask: Word, v: bool) {
    if v then And(val, mask) == Zero() else And(val, mask) == mask
  }

  /** The value the compare-and-swap stores. */
  function Stored(val: Word, mask: Word, v: bool): Word {
    if v then Or(val, mask) else And(val, Not(mask))
  }

  lemma SplitIndex(pos: nat, k: nat, n: nat)
    requires pos % BITS_PER_LONG + n <= BITS_PER_LONG
    ensures pos <= k < pos + n <==>
            k / BITS_PER_LONG == pos / BITS_PER_LONG && pos % BITS_PER_LONG <= k % BITS_PER_LONG < pos % BITS_PER_LONG + n
  {
  }

  /** What one word step means for the bitmap: the test holds exactly when every bit of the range in
      this word has the other value, and storing flips exactly those bits. */
  lemma WordStep(m: seq<Word>, pos: nat, end: nat, v: bool)
    requires pos < end <= |m| * BITS_PER_LONG
    ensures pos / BITS_PER_LONG < |m|
    ensures Ready(m[pos / BITS_PER_LONG], RangeMask(pos, end), v) <==> AllAre(m, pos, pos + Step(pos, end), !v)
    ensures Flips(m, m[pos / BITS_PER_LONG := Stored(m[pos / BITS_PER_LONG], RangeMask(pos, end), v)],
                  pos, pos + Step(pos, end), v)
  {
    var p, n, mask := pos / BITS_PER_LONG, Step(pos, end), RangeMask(pos, end);
    var word := m[p];
    MaskTests(word, pos, end);
    forall k: nat | k < |m| * BITS_PER_LONG
      ensures pos <= k < pos + n <==> k / BITS_PER_LONG == p && mask[k % BITS_PER_LONG]
    {
      SplitIndex(pos, k, n);
      RangeMaskBit(pos, end, k % BITS_PER_LONG);
    }
    if AllAre(m, pos, pos + n, !v) {
      forall i | pos % BITS_PER_LONG <= i < pos % BITS_PER_LONG + n ensures word[i] == !v {
        assert BitAt(m, p * BITS_PER_LONG + i) == word[i];
      }
    }
    if Ready(word, mask, v) {
      forall k: nat | pos <= k < pos + n ensures BitAt(m, k) == !v {
        SplitIndex(pos, k, n);
      }
    }
  }

  /** `cmpxchg(addr, expected, replacement)`: returns what was there. */
  method CmpXchg(bits: array<Word>, p: nat, expected: Word, replacement: Word) returns (seen: Word)
    requires p < bits.Length
    modifies bits
    ensures seen == old(bits[p])
    ensures bits[..] == if old(bits[p]) == expected then old(bits[..])[p := replacement] else old(bits[..])
  {
    seen := bits[p];
    if seen == expected {
      bits[p] := replacement;
    }
  }

  /** set_bits_ll.  A thread running alone never has to retry the exchange; the retries caused by other
      threads are steps of PoolProtocol. */
  method SetBitsLl(bits: array<Word>, p: nat, mask: Word) returns (busy: bool)
    requires p < bits.Length
    modifies bits
    ensures busy == !Ready(old(bits[p]), mask, true)
    ensures bits[..] == if busy then old(bits[..]) else old(bits[..])[p := Stored(old(bits[p]), mask, true)]
  {
    var val := bits[p];
    if And(val, mask) != Zero() {
      return true;
    }
    var nval := CmpXchg(bits, p, val, Or(val, mask));
    assert nval == val;
    return false;
  }

  /** clear_bits_ll */
  method ClearBitsLl(bits: array<Word>, p: nat, mask: Word) returns (busy: bool)
    requires p < bits.Length
    modifies bits
    ensures busy == !Ready(old(bits[p]), mask, false)
    ensures bits[..] == if busy then old(bits[..]) else old(bits[..])[p := Stored(old(bits[p]), mask, false)]
  {
    var val := bits[p];
    if And(val, mask) != mask {
      return true;
    }
    var nval := CmpXchg(bits, p, val, And(val, Not(mask)));
    assert nval == val;
    return false;
  }

  /** What a run of either loop over [start, start+nr) leaves behind when it returns `remain`: exactly
      the first nr-remain bits flipped from !v to v and nothing else touched; a non-zero remainder
      starts on a word of the range and that word holds a bit that already was `v`. */
  ghost predicate LoopResult(a: seq<Word>, b: seq<Word>, start: nat, nr: nat, remain: nat, v: bool)
    requires start + nr <= |a| * BITS_PER_LONG
  {
    && remain <= nr
    && Flips(a, b, start, start + nr - remain, v)
    && AllAre(a, start, start + nr - remain, !v)
    && (remain > 0 ==>
          var at := start + nr - remain;
          && (at == start || at % BITS_PER_LONG == 0)
          && !AllAre(a, at, at + Step(at, start + nr), !v))
  }

  ghost predicate Progress(before: seq<Word>, now: seq<Word>, start: nat, pos: nat, v: bool) {
    && start <= pos <= |before| * BITS_PER_LONG
    && Flips(before, now, start, pos, v)
    && AllAre(before, start, pos, !v)
  }

  /** The loop variables always describe bit `pos`. */
  ghost predicate Cursor(start: nat, pos: nat, p: int, bits: int, mask: Word) {
    && p == pos / BITS_PER_LONG
    && bits == BITS_PER_LONG - pos % BITS_PER_LONG
    && mask == FirstWordMask(pos)
    && (pos == start || pos % BITS_PER_LONG == 0)
  }

  lemma CursorAdvances(start: nat, pos: nat, p: int, bits: int, mask: Word)
    requires start <= pos && Cursor(start, pos, p, bits, mask)
    ensures Cursor(start, pos + bits, p + 1, BITS_PER_LONG, Ones())
  {
    var next := pos + bits;
    assert next == (p + 1) * BITS_PER_LONG;
    assert FirstWordMask(next) == Ones();
  }

  /** One round of either loop: it either advances by the bits of this word or stops with the remainder
      end-pos and the bitmap as it is. */
  lemma Round(before: seq<Word>, now: seq<Word>, start: nat, pos: nat, end: nat, v: bool)
    requires Progress(before, now, start, pos, v)
    requires pos < end <= |before| * BITS_PER_LONG
    requires pos == start || pos % BITS_PER_LONG == 0
    ensures pos / BITS_PER_LONG < |now|
    ensures var p, mask := pos / BITS_PER_LONG, RangeMask(pos, end);
            if Ready(now[p], mask, v)
            then Progress(before, now[p := Stored(now[p], mask, v)], start, pos + Step(pos, end), v)
            else LoopResult(before, now, start, end - start, end - pos, v)
  {
    WordStep(now, pos, end, v);
    NotYetTouched(before, now, start, pos, end, v);
    var p, mask := pos / BITS_PER_LONG, RangeMask(pos, end);
    if Ready(now[p], mask, v) {
      Joined(before, now, now[p := Stored(now[p], mask, v)], start, pos, pos + Step(pos, end), v);
    }
  }

  lemma NotYetTouched(before: seq<Word>, now: seq<Word>, start: nat, pos: nat, end: nat, v: bool)
    requires Progress(before, now, start, pos, v)
    requires pos < end <= |before| * BITS_PER_LONG
    ensures AllAre(now, pos, pos + Step(pos, end), !v) == AllAre(before, pos, pos + Step(pos, end), !v)
  {
    assert forall k: nat :: pos <= k < end ==> BitAt(now, k) == BitAt(before, k);
  }

  lemma Joined(before: seq<Word>, now: seq<Word>, after: seq<Word>, start: nat, pos: nat, pos': nat, v: bool)
    requires Progress(before, now, start, pos, v) && pos <= pos' <= |before| * BITS_PER_LONG
    requires Flips(now, after, pos, pos', v) && AllAre(before, pos, pos', !v)
    ensures Progress(before, after, start, pos', v)
  {
  }

  lemma Finished(before: seq<Word>, now: seq<Word>, start: nat, nr: nat, v: bool)
    requires Progress(before, now, start, start + nr, v)
    ensures LoopResult(before, now, start, nr, 0, v)
  {
  }

  lemma TailMask(pos: nat, end: nat)
    requires pos < end && end - pos < BITS_PER_LONG - pos % BITS_PER_LONG
    ensures Step(pos, end) == end - pos
    ensures RangeMask(pos, end) == And(FirstWordMask(pos), LastWordMask(end))
  {
  }

  /** The last word: either it completes the range or it stops the loop. */
  lemma LastRound(before: seq<Word>, now: seq<Word>, start: nat, nr: nat, left: nat, v: bool)
    requires 0 < left <= nr && start + nr <= |before| * BITS_PER_LONG
    requires left < BITS_PER_LONG - (start + nr - left) % BITS_PER_LONG
    requires Progress(before, now, start, start + nr - left, v)
    requires left == nr || (start + nr - left) % BITS_PER_LONG == 0
    ensures (start + nr - left) / BITS_PER_LONG < |now|
    ensures var p := (start + nr - left) / BITS_PER_LONG;
            var mask := And(FirstWordMask(start + nr - left), LastWordMask(start + nr));
            if Ready(now[p], mask, v) then LoopResult(before, now[p := Stored(now[p], mask, v)], start, nr, 0, v)
            else LoopResult(before, now, start, nr, left, v)
  {
    var pos := start + nr - left;
    Round(before, now, start, pos, start + nr, v);
    TailMask(pos, start + nr);
    var p, mask := pos / BITS_PER_LONG, RangeMask(pos, start + nr);
    if Ready(now[p], mask, v) {
      Finished(before, now[p := Stored(now[p], mask, v)], start, nr, v);
    }
  }

  /** The part of bitmap_set_ll after its loop: a word of which only the low bits are wanted. */
  method SetLastWord(bits: array<Word>, start: nat, nr: nat, p: int, bitsToSet: int, mask: Word, left: nat,
      ghost before: seq<Word>) returns (remain: nat)
    requires start + nr <= bits.Length * BITS_PER_LONG && |before| == bits.Length && 0 < left <= nr && left < bitsToSet
    requires Progress(before, bits[..], start, start + nr - left, true)
    requires Cursor(start, start + nr - left, p, bitsToSet, mask)
    modifies bits
    ensures LoopResult(before, bits[..], start, nr, remain, true)
  {
    LastRound(before, bits[..], start, nr, left, true);
    var maskToSet := And(mask, LastWordMask(start + nr));
    var busy := SetBitsLl(bits, p, maskToSet);
    remain := if busy then left else 0;
  }

  /** bitmap_set_ll */
  method BitmapSetLl(bits: array<Word>, start: nat, nr: nat) returns (remain: nat)
    requires start + nr <= bits.Length * BITS_PER_LONG
    modifies bits
    ensures LoopResult(old(bits[..]), bits[..], start, nr, remain, true)
  {
    ghost var before := bits[..];
    var p := start / BITS_PER_LONG;
    var size := start + nr;
    var bitsToSet := BITS_PER_LONG - start % BITS_PER_LONG;
    var maskToSet := FirstWordMask(start);
    var left := nr;
    while left - bitsToSet >= 0
      invariant 0 <= left <= nr
      invariant Progress(before, bits[..], start, start + nr - left, true)
      invariant Cursor(start, start + nr - left, p, bitsToSet, maskToSet)
    {
      Round(before, bits[..], start, start + nr - left, size, true);
      var busy := SetBitsLl(bits, p, maskToSet);
      if busy {
        return left;
      }
      CursorAdvances(start, start + nr - left, p, bitsToSet, maskToSet);
      left := left - bitsToSet;
      bitsToSet := BITS_PER_LONG;
      maskToSet := Ones();
      p := p + 1;
    }
    if left != 0 {
      remain := SetLastWord(bits, start, nr, p, bitsToSet, maskToSet, left, before);
    } else {
      Finished(before, bits[..], start, nr, true);
      remain := 0;
    }
  }

  /** The part of bitmap_clear_ll after its loop: a word of which only the low bits are wanted. */
  method ClearLastWord(bits: array<Word>, start: nat, nr: nat, p: int, bitsToClear: int, mask: Word, left: nat,
      ghost before: seq<Word>) returns (remain: nat)
    requires start + nr <= bits.Length * BITS_PER_LONG && |before| == bits.Length && 0 < left <= nr && left < bitsToClear
    requires Progress(before, bits[..], start, start + nr - left, false)
    requires Cursor(start, start + nr - left, p, bitsToClear, mask)
    modifies bits
    ensures LoopResult(before, bits[..], start, nr, remain, false)
  {
    LastRound(before, bits[..], start, nr, left, false);
    var maskToClear := And(mask, LastWordMask(start + nr));
    var busy := ClearBitsLl(bits, p, maskToClear);
    remain := if busy then left else 0;
  }

  /** bitmap_clear_ll */
  method BitmapClearLl(bits: array<Word>, start: nat, nr: nat) returns (remain: nat)
    requires start + nr <= bits.Length * BITS_PER_LONG
    modifies bits
    ensures LoopResult(old(bits[..]), bits[..], start, nr, remain, false)
  {
    ghost var before := bits[..];
    var p := start / BITS_PER_LONG;
    var size := start + nr;
    var bitsToClear := BITS_PER_LONG - start % BITS_PER_LONG;
    var maskToClear := FirstWordMask(start);
    var left := nr;
    while left - bitsToClear >= 0
      invariant 0 <= left <= nr
      invariant Progress(before, bits[..], start, start + nr - left, false)
      invariant Cursor(start, start + nr - left, p, bitsToClear, maskToClear)
    {
      Round(before, bits[..], start, start + nr - left, size, false);
      var busy := ClearBitsLl(bits, p, maskToClear);
      if busy {
        return left;
      }
      CursorAdvances(start, start + nr - left, p, bitsToClear, maskToClear);
      left := left - bitsToClear;
      bitsToClear := BITS_PER_LONG;
      maskToClear := Ones();
      p := p + 1;
    }
    if left != 0 {
      remain := ClearLastWord(bits, start, nr, p, bitsToClear, maskToClear, left, before);
    } else {
      Finished(before, bits[..], start, nr, false);
      remain := 0;
    }
  }

  /** The loop returns 0 exactly when every bit of the range had the value it was about to change. */
  lemma SucceedsExactlyWhenFree(a: seq<Word>, b: seq<Word>, start: nat, nr: nat, remain: nat, v: bool)
    requires start + nr <= |a| * BITS_PER_LONG
    requires LoopResult(a, b, start, nr, remain, v)
    ensures remain == 0 <==> AllAre(a, start, start + nr, !v)
  {
  }

  lemma SameBitsSameWords(a: seq<Word>, b: seq<Word>)
    requires |a| == |b|
    requires forall k: nat :: k < |a| * BITS_PER_LONG ==> BitAt(a, k) == BitAt(b, k)
    ensures a == b
  {
    forall p | 0 <= p < |a| ensures a[p] == b[p] {
      forall i | 0 <= i < BITS_PER_LONG ensures a[p][i] == b[p][i] {
        assert BitAt(a, p * BITS_PER_LONG + i) == BitAt(b, p * BITS_PER_LONG + i);
      }
    }
  }

  /** The result of the loop is determined by the bitmap it starts on. */
  lemma LoopResultUnique(a: seq<Word>, b: seq<Word>, b': seq<Word>, start: nat, nr: nat, r: nat, r': nat, v: bool)
    requires start + nr <= |a| * BITS_PER_LONG
    requires LoopResult(a, b, start, nr, r, v) && LoopResult(a, b', start, nr, r', v)
    ensures r == r' && b == b'
  {
    StopsNoLater(a, b, b', start, nr, r, r', v);
    StopsNoLater(a, b', b, start, nr, r', r, v);
    SameBitsSameWords(b, b');
  }

  lemma StopsNoLater(a: seq<Word>, b: seq<Word>, b': seq<Word>, start: nat, nr: nat, r: nat, r': nat, v: bool)
    requires start + nr <= |a| * BITS_PER_LONG
    requires LoopResult(a, b, start, nr, r, v) && LoopResult(a, b', start, nr, r', v)
    ensures r >= r'
  {
    // otherwise the second run stopped inside a word that the first run flipped completely
    if r < r' {
      NextBoundary(start + nr - r', start + nr - r, start + nr);
      assert false;
    }
  }

  lemma NextBoundary(pos: nat, later: nat, end: nat)
    requires pos < later <= end && (later % BITS_PER_LONG == 0 || later == end)
    ensures pos + Step(pos, end) <= later
  {
    if later % BITS_PER_LONG == 0 {
      var q, p := later / BITS_PER_LONG, pos / BITS_PER_LONG;
      assert later == q * BITS_PER_LONG && pos == p * BITS_PER_LONG + pos % BITS_PER_LONG;
      assert q >= p + 1;
    }
  }

  /** The rollback of bm_genalloc.c:362-372: when setting [start, start+nr) leaves `remain` bits, clearing
      the first nr-remain bits succeeds and gives back exactly the bitmap the attempt started from. */
  lemma RollbackRestores(a: seq<Word>, b: seq<Word>, c: seq<Word>, start: nat, nr: nat, remain: nat, remain': nat)
    requires start + nr <= |a| * BITS_PER_LONG
    requires LoopResult(a, b, start, nr, remain, true)
    requires LoopResult(b, c, start, nr - remain, remain', false)
    ensures remain' == 0 && c == a
  {
    SucceedsExactlyWhenFree(b, c, start, nr - remain, remain', false);
    SameBitsSameWords(a, c);
  }
}
