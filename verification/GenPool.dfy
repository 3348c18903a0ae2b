/** The pool as its callers see it: chunks, allocation through one of the search algorithms, frees, and
    the two accounting queries, run by one caller at a time.  The lock-free interleavings of the same
    operations on one chunk are module PoolProtocol, whose invariant every chunk here satisfies. */
module GenPool {
  import opened Arith
  import opened WordBits
  import opened Bitmap
  import opened ZeroArea
  import Proto = PoolProtocol

  datatype Algo = FirstFit | FirstFitAlign(alignOrder: nat) | BestFit

  /** What each algorithm answers when asked for `nr` free bits in a bitmap of `size` bits. */
  ghost predicate Answers(algo: Algo, m: seq<Word>, size: nat, nr: nat, order: nat, startAddr: nat, r: nat)
    requires size <= |m| * BITS_PER_LONG
  {
    match algo
    case FirstFit => LeastFit(m, size, 0, nr, 1, 0, r)
    case FirstFitAlign(e) =>
      && AlignBits(Pow2(e), Pow2(order)) > 0
      && LeastFit(m, size, 0, nr, AlignBits(Pow2(e), Pow2(order)), AlignOffset(startAddr, Pow2(e), Pow2(order)), r)
    case BestFit => ZeroArea.BestFit(m, size, 0, nr, r)
  }

  /** A place the algorithm could give out. */
  ghost predicate Place(algo: Algo, m: seq<Word>, size: nat, nr: nat, order: nat, startAddr: nat, i: nat)
    requires size <= |m| * BITS_PER_LONG
  {
    match algo
    case FirstFitAlign(e) =>
      && AlignBits(Pow2(e), Pow2(order)) > 0
      && Fits(m, size, 0, nr, AlignBits(Pow2(e), Pow2(order)), AlignOffset(startAddr, Pow2(e), Pow2(order)), i)
    case _ => Fits(m, size, 0, nr, 1, 0, i)
  }

  /** Every algorithm answers with a place, or with `size` or more exactly when there is none. */
  lemma AnswerIsPlace(algo: Algo, m: seq<Word>, size: nat, nr: nat, order: nat, startAddr: nat, r: nat)
    requires size <= |m| * BITS_PER_LONG && nr >= 1
    requires Answers(algo, m, size, nr, order, startAddr, r)
    ensures r < size ==> Place(algo, m, size, nr, order, startAddr, r)
    ensures r >= size ==> forall i: nat :: !Place(algo, m, size, nr, order, startAddr, i)
  {
    if algo.BestFit? {
      BestFitIsFit(m, size, 0, nr, r);
    }
  }

  class Chunk {
    const order: nat
    const startAddr: nat
    const size: nat
    const bits: array<Word>
    var avail: int
    /** The allocations made from this chunk; freed ones are Done. */
    ghost var reqs: seq<Proto.Phase>

    /** `chunk_size(chunk) >> order` */
    function EndBit(): nat {
      Quot(size, Pow2(order))
    }

    /** The granules a request of `bytes` needs. */
    function Granules(bytes: nat): nat {
      Proto.Granules(bytes, Pow2(order))
    }

    ghost function Shape(): Proto.Chunk {
      Proto.Chunk(EndBit(), Pow2(order), size)
    }

    ghost predicate Valid()
      reads this, bits
    {
      && startAddr > 0
      && Proto.Inv(Shape(), Proto.State(bits[..], avail, reqs))
      && forall i: nat :: i < |reqs| ==> reqs[i].Live? || reqs[i].Done?
    }

    /** Nothing about the chunk differs from `other`. */
    twostate predicate Same()
      reads this, bits
    {
      avail == old(avail) && bits[..] == old(bits[..]) && reqs == old(reqs)
    }

    /** bm_gen_pool_add_virt: a zeroed bitmap, everything available. */
    constructor (order: nat, startAddr: nat, size: nat)
      requires startAddr > 0
      ensures Valid() && fresh(bits)
      ensures this.order == order && this.startAddr == startAddr && this.size == size
      ensures avail == size && reqs == []
    {
      var nbits := Quot(size, Pow2(order));
      this.order := order;
      this.startAddr := startAddr;
      this.size := size;
      bits := new Word[Proto.WordsFor(nbits)](_ => Zero());
      avail := size;
      reqs := [];
      new;
      Proto.InitInv(Shape());
      assert bits[..] == Proto.Init(Shape()).words;
    }

    lemma ShapeValid()
      ensures Proto.ValidChunk(Shape())
    {
      var q := Quot(size, Pow2(order));
    }

    lemma AvailInRange()
      requires Valid()
      ensures 0 <= avail <= size
    {
      ShapeValid();
      Proto.InvBoundsAvail(Shape(), Proto.State(bits[..], avail, reqs));
      NothingUncredited(reqs);
    }

    static lemma {:induction false} NothingUncredited(reqs: seq<Proto.Phase>)
      requires forall i: nat :: i < |reqs| ==> reqs[i].Live? || reqs[i].Done?
      ensures Proto.TotalUncredited(reqs) == 0
    {
      if reqs != [] {
        NothingUncredited(reqs[1..]);
      }
    }

    method Search(algo: Algo, nr: nat) returns (r: nat)
      requires Valid() && nr >= 1
      ensures Answers(algo, bits[..], EndBit(), nr, order, startAddr, r)
    {
      var endBit := EndBit();
      match algo
      case FirstFit => r := FindNextZeroAreaOff(bits, endBit, 0, nr, 1, 0);
      case FirstFitAlign(e) => r := ZeroArea.FirstFitAlign(bits, endBit, 0, nr, e, order, startAddr);
      case BestFit => r := BestFitSearch(bits, endBit, 0, nr);
    }

    /** The allocation `id` is the block of `bytes` at `addr`. */
    ghost predicate Holds(id: nat, addr: nat, bytes: nat)
      reads this
    {
      && id < |reqs| && reqs[id].Live?
      && addr == startAddr + reqs[id].start * Pow2(order)
      && Granules(bytes) == reqs[id].nr
    }

    /** One more allocation, of the block of `bytes` at `addr`, charged in whole granules. */
    twostate predicate Granted(addr: nat, bytes: nat)
      reads this
    {
      && |reqs| > 0 && reqs == old(reqs) + [reqs[|reqs| - 1]]
      && Holds(|reqs| - 1, addr, bytes)
      && avail == old(avail) - Granules(bytes) * Pow2(order)
    }

    /** This chunk cannot serve the request: too little is available, or the algorithm has no place. */
    ghost predicate Refuses(bytes: nat, algo: Algo)
      reads this, bits
    {
      && EndBit() <= bits.Length * BITS_PER_LONG
      && (bytes > avail ||
          forall i: nat :: !Place(algo, bits[..], EndBit(), Granules(bytes), order, startAddr, i))
    }

    /** The body of the chunk loop of bm_gen_pool_alloc_algo: 0 when the chunk is skipped. */
    method TryAlloc(bytes: nat, algo: Algo) returns (addr: nat, ghost start: nat)
      requires Valid() && bytes > 0
      modifies this, bits
      ensures Valid()
      ensures addr == 0 <==> old(Refuses(bytes, algo))
      ensures addr == 0 ==> Same()
      ensures addr != 0 ==>
                var nr := Granules(bytes);
                && start + nr <= EndBit()
                && Answers(algo, old(bits[..]), EndBit(), nr, order, startAddr, start)
                && Granted(addr, bytes)
                && reqs[|reqs| - 1] == Proto.Live(start, nr)
                && Flips(old(bits[..]), bits[..], start, start + nr, true)
                && AllAre(old(bits[..]), start, start + nr, false)
    {
      AvailInRange();
      if bytes > avail {
        return 0, 0;
      }
      var nbits := Granules(bytes);
      var endBit := EndBit();
      Proto.GranulesPositive(bytes, Pow2(order));
      var startBit := Search(algo, nbits);
      AnswerIsPlace(algo, bits[..], endBit, nbits, order, startAddr, startBit);
      if startBit >= endBit {
        return 0, 0;
      }
      ghost var before := Proto.State(bits[..], avail, reqs);
      var remain := BitmapSetLl(bits, startBit, nbits);
      SucceedsExactlyWhenFree(before.words, bits[..], startBit, nbits, remain, true);
      // alone, the range the search found cannot have been taken meanwhile: no rollback, no retry
      assert remain == 0;
      avail := avail - nbits * Pow2(order);
      reqs := reqs + [Proto.Live(startBit, nbits)];
      Proto.AllocateKeepsInv(Shape(), before, bits[..], startBit, nbits);
      return startAddr + startBit * Pow2(order), startBit;
    }

    /** A range that ends inside the chunk has its granules in the bitmap. */
    predicate InBitmap(addr: nat, bytes: nat) {
      && startAddr <= addr
      && (addr + bytes <= startAddr + size ==>
            Quot(addr - startAddr, Pow2(order)) + Granules(bytes) <= bits.Length * BITS_PER_LONG)
    }

    /** So it is for every range when the chunk is whole granules. */
    lemma WholeGranulesInBitmap(addr: nat, bytes: nat)
      requires startAddr <= addr && EndBit() * Pow2(order) == size && EndBit() <= bits.Length * BITS_PER_LONG
      ensures InBitmap(addr, bytes)
    {
      var g, a, n := Pow2(order), Quot(addr - startAddr, Pow2(order)), Granules(bytes);
      if addr + bytes <= startAddr + size && a + n > EndBit() {
        Distrib(a, n, g);
        MulMono(EndBit() + 1, a + n, g);
        Distrib(EndBit(), 1, g);
        assert false;
      }
    }

    /** What bm_gen_pool_free does to the chunk an address lies in: a range that ends outside is refused with
        a warning; otherwise its granules are cleared up to the first word with a bit that was clear already,
        which also warns, and only a range that was set throughout is credited. */
    twostate predicate RangeFreed(addr: nat, bytes: nat, warned: bool)
      requires InBitmap(addr, bytes)
      reads this, bits
    {
      var start, nr := Quot(addr - startAddr, Pow2(order)), Granules(bytes);
      && reqs == old(reqs)
      && (addr + bytes > startAddr + size ==> warned && Same())
      && (addr + bytes <= startAddr + size ==>
            && (warned <==> !AllAre(old(bits[..]), start, start + nr, true))
            && avail == old(avail) + (if warned then 0 else nr * Pow2(order))
            && exists remain: nat :: LoopResult(old(bits[..]), bits[..], start, nr, remain, false))
    }

    /** The body of the chunk loop of bm_gen_pool_free once the chunk is found. */
    method FreeRange(addr: nat, bytes: nat) returns (warned: bool)
      requires InBitmap(addr, bytes) && addr < startAddr + size
      modifies this`avail, bits
      ensures RangeFreed(addr, bytes, warned)
    {
      if addr + bytes - 1 > startAddr + size - 1 {
        return true;
      }
      var startBit := (addr - startAddr) / Pow2(order);
      var nbits := Granules(bytes);
      ghost var before := bits[..];
      var remain := BitmapClearLl(bits, startBit, nbits);
      SucceedsExactlyWhenFree(before, bits[..], startBit, nbits, remain, false);
      assert LoopResult(before, bits[..], startBit, nbits, remain, false);
      if remain != 0 {
        return true;
      }
      avail := avail + nbits * Pow2(order);
      assert LoopResult(before, bits[..], startBit, nbits, remain, false);
      return false;
    }

    /** A held block lies where its request says, and all its bits are set. */
    lemma HeldBlock(id: nat, addr: nat, bytes: nat)
      requires Valid() && Holds(id, addr, bytes) && bytes > 0
      ensures InBitmap(addr, bytes) && Quot(addr - startAddr, Pow2(order)) == reqs[id].start
      ensures addr + bytes <= startAddr + size
      ensures AllAre(bits[..], reqs[id].start, reqs[id].start + reqs[id].nr, true)
    {
      ghost var ph := reqs[id];
      Proto.InsideChunk(Shape(), ph, bytes);
      DivModUnique(addr - startAddr, Pow2(order), ph.start, 0);
      Proto.OwnedBitsSet(Shape(), Proto.State(bits[..], avail, reqs), id);
    }

    /** Giving back a held block: no warning, and exactly that block is gone. */
    method Free(addr: nat, bytes: nat, ghost id: nat) returns (warned: bool)
      requires Valid() && Holds(id, addr, bytes) && bytes > 0
      modifies this, bits
      ensures Valid() && !warned
      ensures reqs == old(reqs)[id := Proto.Done]
      ensures Flips(old(bits[..]), bits[..], old(reqs[id].start), old(reqs[id].start) + old(reqs[id].nr), false)
      ensures avail == old(avail) + old(reqs[id].nr) * Pow2(order)
    {
      ghost var before := Proto.State(bits[..], avail, reqs);
      ghost var ph := reqs[id];
      HeldBlock(id, addr, bytes);
      warned := FreeRange(addr, bytes);
      ghost var remain: nat :| LoopResult(before.words, bits[..], ph.start, ph.nr, remain, false);
      SucceedsExactlyWhenFree(before.words, bits[..], ph.start, ph.nr, remain, false);
      reqs := reqs[id := Proto.Done];
      Proto.ReleaseKeepsInv(Shape(), before, bits[..], id);
    }
  }

  /** The objects a list of chunks is made of. */
  ghost function Objects(cs: seq<Chunk>): set<object> {
    (set c | c in cs :: c as object) + (set c | c in cs :: c.bits as object)
  }

  /** Valid chunks of one granule, none sharing memory or addresses with another. */
  ghost predicate ValidChunks(cs: seq<Chunk>, order: nat)
    reads Objects(cs)
  {
    && (forall c :: c in cs ==> c.order == order && c.Valid())
    && (forall i, j :: 0 <= i < |cs| && 0 <= j < |cs| && i != j ==> cs[i] != cs[j] && cs[i].bits != cs[j].bits)
    && (forall i, j :: 0 <= i < |cs| && 0 <= j < |cs| && i != j ==>
          cs[i].startAddr + cs[i].size <= cs[j].startAddr || cs[j].startAddr + cs[j].size <= cs[i].startAddr)
  }

  lemma {:induction false} SumChange(s: seq<int>, s': seq<int>, at: nat)
    requires |s| == |s'| && at < |s|
    requires forall i :: 0 <= i < |s| && i != at ==> s[i] == s'[i]
    ensures Sum(s') - Sum(s) == s'[at] - s[at]
  {
    if at == |s| - 1 {
      assert s[..|s| - 1] == s'[..|s| - 1];
    } else {
      SumChange(s[..|s| - 1], s'[..|s| - 1], at);
    }
  }

  /** The `avail` counters of the chunks. */
  function Avails(cs: seq<Chunk>): (r: seq<int>)
    reads Objects(cs)
    ensures |r| == |cs| && forall i :: 0 <= i < |cs| ==> r[i] == cs[i].avail
  {
    if cs == [] then [] else
      var last := cs[|cs| - 1];
      assert last in cs;
      Avails(cs[..|cs| - 1]) + [last.avail]
  }

  /** bm_gen_pool_avail */
  function SumAvail(cs: seq<Chunk>): int
    reads Objects(cs)
  {
    Sum(Avails(cs))
  }

  function SumSize(cs: seq<Chunk>): nat {
    if cs == [] then 0 else SumSize(cs[..|cs| - 1]) + cs[|cs| - 1].size
  }

  /** Granules held by live allocations. */
  ghost function SumLive(cs: seq<Chunk>): nat
    reads Objects(cs)
  {
    if cs == [] then 0 else
      var last := cs[|cs| - 1];
      assert last in cs;
      SumLive(cs[..|cs| - 1]) + Proto.LiveGranules(last.reqs)
  }

  lemma ChunkConserves(c: Chunk)
    requires c.Valid()
    ensures c.avail + Proto.LiveGranules(c.reqs) * Pow2(c.order) == c.size
  {
    Proto.QuietChargeIsLive(c.reqs);
  }

  lemma AddUp(a: int, l: int, s: int, a': int, l': int, s': int, g: int)
    requires a + l * g == s && a' + l' * g == s'
    ensures (a + a') + (l + l') * g == s + s'
  {
    Distrib(l, l', g);
  }

  /** Available bytes plus the granule-rounded bytes of live allocations are the managed bytes. */
  lemma {:induction false} ChunksConserve(cs: seq<Chunk>, order: nat)
    requires ValidChunks(cs, order)
    ensures SumAvail(cs) + SumLive(cs) * Pow2(order) == SumSize(cs)
  {
    if cs != [] {
      var init, last := cs[..|cs| - 1], cs[|cs| - 1];
      ChunksConserve(init, order);
      assert Avails(cs)[..|cs| - 1] == Avails(init);
      assert last in cs;
      ChunkConserves(last);
      AddUp(SumAvail(init), SumLive(init), SumSize(init),
            last.avail, Proto.LiveGranules(last.reqs), last.size, Pow2(order));
    }
  }

  lemma {:induction false} AvailNonNegative(cs: seq<Chunk>, order: nat)
    requires ValidChunks(cs, order)
    ensures SumAvail(cs) >= 0
  {
    if cs != [] {
      AvailNonNegative(cs[..|cs| - 1], order);
      assert Avails(cs)[..|cs| - 1] == Avails(cs[..|cs| - 1]);
      cs[|cs| - 1].AvailInRange();
    }
  }

  class Pool {
    const order: nat
    const chunks: seq<Chunk>
    var algo: Algo

    ghost function Footprint(): set<object> {
      Objects(chunks)
    }

    ghost predicate Valid()
      reads Footprint()
    {
      ValidChunks(chunks, order)
    }

    constructor (order: nat, chunks: seq<Chunk>)
      requires ValidChunks(chunks, order)
      ensures this.order == order && this.chunks == chunks && algo == FirstFit
    {
      this.order := order;
      this.chunks := chunks;
      algo := FirstFit;
    }

    /** No chunk of the pool differs. */
    twostate predicate Same()
      reads Footprint()
    {
      forall c :: c in chunks ==> c.Same()
    }

    /** The outcome of an allocation: 0 with nothing changed, or one more block in chunk `at`, the first
        chunk that could serve the request, and every other chunk as it was. */
    twostate predicate Allocated(bytes: nat, addr: nat, at: nat)
      reads Footprint()
    {
      if addr == 0 then Same() else
        && at < |chunks|
        && (forall c :: c in chunks && c != chunks[at] ==> c.Same())
        && (assert chunks[at] in chunks; chunks[at].Granted(addr, bytes))
    }

    /** One attempt on one chunk. */
    method TryChunk(at: nat, bytes: nat) returns (addr: nat)
      requires Valid() && this !in Footprint() && bytes > 0 && at < |chunks|
      modifies Footprint()
      ensures Valid() && Allocated(bytes, addr, at)
      ensures addr == 0 <==> old(chunks[at].Refuses(bytes, algo))
    {
      var c := chunks[at];
      assert c in chunks && c.bits in Footprint();
      assert forall j :: 0 <= j < |chunks| && j != at ==> chunks[j] != c && chunks[j].bits != c.bits;
      ghost var start;
      addr, start := c.TryAlloc(bytes, algo);
    }

    /** The chunk loop of bm_gen_pool_alloc_algo. */
    method TryChunks(bytes: nat) returns (addr: nat, at: nat)
      requires Valid() && this !in Footprint() && bytes > 0
      modifies Footprint()
      ensures Valid() && Allocated(bytes, addr, at)
      ensures at <= |chunks| && (addr == 0 <==> at == |chunks|)
      ensures forall i :: 0 <= i < at ==> old(chunks[i].Refuses(bytes, algo))
      ensures at < |chunks| ==> !old(chunks[at].Refuses(bytes, algo))
    {
      at := 0;
      while at < |chunks|
        invariant 0 <= at <= |chunks|
        invariant Valid() && Same()
        invariant forall j :: 0 <= j < at ==> old(chunks[j].Refuses(bytes, algo))
      {
        assert chunks[at].Same();
        addr := TryChunk(at, bytes);
        if addr != 0 {
          return;
        }
        at := at + 1;
      }
      return 0, at;
    }

    /** bm_gen_pool_alloc: 0 exactly when no chunk can serve the request. */
    method Alloc(bytes: nat) returns (addr: nat, ghost at: nat)
      requires Valid() && this !in Footprint()
      modifies Footprint()
      ensures Valid() && Allocated(bytes, addr, at)
      ensures addr == 0 <==> bytes == 0 || forall c :: c in chunks ==> old(c.Refuses(bytes, algo))
      ensures addr != 0 ==> forall i :: 0 <= i < at ==> old(chunks[i].Refuses(bytes, algo))
      ensures SumAvail(chunks) == old(SumAvail(chunks)) - if addr == 0 then 0 else Proto.Granules(bytes, Pow2(order)) * Pow2(order)
    {
      if bytes == 0 {
        addr, at := 0, 0;
      } else {
        var i;
        addr, i := TryChunks(bytes);
        at := i;
        assert i < |chunks| ==> chunks[i] in chunks;
      }
      if addr == 0 {
        assert Avails(chunks) == old(Avails(chunks));
      } else {
        SumChange(old(Avails(chunks)), Avails(chunks), at);
      }
    }

    lemma HoldsInRange(at: nat, id: nat, addr: nat, bytes: nat)
      requires Valid() && at < |chunks| && chunks[at].Holds(id, addr, bytes) && bytes > 0
      ensures chunks[at].startAddr <= addr && addr + bytes <= chunks[at].startAddr + chunks[at].size
    {
      var c := chunks[at];
      assert c in chunks && c.Valid();
      c.ShapeValid();
      Proto.InsideChunk(c.Shape(), c.reqs[id], bytes);
    }

    /** The search of bm_gen_pool_free for the chunk an address lies in. */
    method FindChunk(addr: nat) returns (i: nat)
      requires Valid()
      ensures i <= |chunks|
      ensures i < |chunks| ==> chunks[i].startAddr <= addr < chunks[i].startAddr + chunks[i].size
      ensures forall j :: 0 <= j < |chunks| && chunks[j].startAddr <= addr < chunks[j].startAddr + chunks[j].size ==> j == i
    {
      i := 0;
      while i < |chunks|
        invariant 0 <= i <= |chunks|
        invariant forall j :: 0 <= j < i ==> !(chunks[j].startAddr <= addr < chunks[j].startAddr + chunks[j].size)
      {
        if addr >= chunks[i].startAddr && addr <= chunks[i].startAddr + chunks[i].size - 1 {
          return;
        }
        i := i + 1;
      }
    }

    /** bm_gen_pool_free, for any address and size: outside every chunk it only warns; otherwise the chunk
        the address lies in changes as RangeFreed says, and no other chunk does. */
    method Free(addr: nat, bytes: nat) returns (warned: bool, ghost at: nat)
      requires Valid() && this !in Footprint()
      requires forall c :: c in chunks && c.startAddr <= addr < c.startAddr + c.size ==> c.InBitmap(addr, bytes)
      modifies Footprint()
      ensures at <= |chunks|
      ensures at == |chunks| <==> forall c :: c in chunks ==> !(c.startAddr <= addr < c.startAddr + c.size)
      ensures at == |chunks| ==> warned && Same()
      ensures at < |chunks| ==> chunks[at].InBitmap(addr, bytes) && chunks[at].RangeFreed(addr, bytes, warned)
      ensures at < |chunks| ==> forall c :: c in chunks && c != chunks[at] ==> c.Same()
    {
      var i := FindChunk(addr);
      at := i;
      if i == |chunks| {
        return true, at;
      }
      var c := chunks[i];
      assert c in chunks && c.bits in Footprint();
      assert forall j :: 0 <= j < |chunks| && j != i ==> chunks[j] != c && chunks[j].bits != c.bits;
      warned := c.FreeRange(addr, bytes);
    }

    /** Exactly the block `id` of chunk `at` is gone. */
    twostate predicate Freed(at: nat, id: nat)
      reads Footprint()
    {
      && at < |chunks|
      && (forall c :: c in chunks && c != chunks[at] ==> c.Same())
      && (assert chunks[at] in chunks;
          && id < |old(chunks[at].reqs)| && old(chunks[at].reqs[id]).Live?
          && chunks[at].reqs == old(chunks[at].reqs)[id := Proto.Done]
          && chunks[at].avail == old(chunks[at].avail) + old(chunks[at].reqs[id]).nr * Pow2(order))
    }

    method FreeAt(at: nat, addr: nat, bytes: nat, ghost id: nat) returns (warned: bool)
      requires Valid() && this !in Footprint()
      requires at < |chunks| && chunks[at].Holds(id, addr, bytes) && bytes > 0
      modifies Footprint()
      ensures Valid() && !warned && Freed(at, id)
    {
      var c := chunks[at];
      assert c in chunks && c.bits in Footprint();
      assert forall j :: 0 <= j < |chunks| && j != at ==> chunks[j] != c && chunks[j].bits != c.bits;
      warned := c.Free(addr, bytes, id);
    }

    /** The address of a held block leads to its chunk. */
    method Locate(addr: nat, bytes: nat, ghost at: nat, ghost id: nat) returns (i: nat)
      requires Valid() && at < |chunks| && chunks[at].Holds(id, addr, bytes) && bytes > 0
      ensures i == at && Valid() && chunks[at].Holds(id, addr, bytes) && Same()
      ensures Avails(chunks) == old(Avails(chunks))
    {
      HoldsInRange(at, id, addr, bytes);
      i := FindChunk(addr);
    }

    /** The same for a block that is allocated: its chunk is found by the address alone, there is no warning,
        and exactly that block goes back. */
    method FreeHeld(addr: nat, bytes: nat, ghost at: nat, ghost id: nat) returns (warned: bool)
      requires Valid() && this !in Footprint()
      requires at < |chunks| && chunks[at].Holds(id, addr, bytes) && bytes > 0
      modifies Footprint()
      ensures Valid() && !warned && Freed(at, id)
      ensures SumAvail(chunks) == old(SumAvail(chunks)) + Proto.Granules(bytes, Pow2(order)) * Pow2(order)
    {
      var i := Locate(addr, bytes, at, id);
      ghost var before := Avails(chunks);
      warned := FreeAt(i, addr, bytes, id);
      ghost var after := Avails(chunks);
      SumChange(before, after, at);
    }

    /** bm_gen_pool_avail */
    method Avail() returns (avail: int)
      requires Valid()
      ensures avail == old(SumAvail(chunks))
    {
      avail := 0;
      var i := 0;
      while i < |chunks|
        invariant 0 <= i <= |chunks|
        invariant avail == Sum(Avails(chunks)[..i])
      {
        assert Avails(chunks)[..i + 1][..i] == Avails(chunks)[..i];
        avail := avail + chunks[i].avail;
        i := i + 1;
      }
      assert Avails(chunks)[..i] == Avails(chunks);
    }

    /** bm_gen_pool_size */
    method Size() returns (size: nat)
      requires Valid()
      ensures size == SumSize(chunks)
      ensures SumAvail(chunks) + SumLive(chunks) * Pow2(order) == size
    {
      size := 0;
      var i := 0;
      while i < |chunks|
        invariant 0 <= i <= |chunks|
        invariant size == SumSize(chunks[..i])
      {
        assert chunks[..i + 1][..i] == chunks[..i];
        size := size + chunks[i].size;
        i := i + 1;
      }
      assert chunks[..i] == chunks;
      ChunksConserve(chunks, order);
    }
  }
}
