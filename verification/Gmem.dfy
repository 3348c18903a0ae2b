/** Device memory: several heaps behind one allocation call that tries the heaps of a mask in turn.
    Each carveout heap is created with a pool of 4 KiB granules holding a single chunk
    (bm_bgm.c:121-127), so a heap is a GenPool.Chunk here. */
module Gmem {
  import opened Arith
  import opened GenPool
  import Proto = PoolProtocol

  const MAX_HEAP_CNT: nat := 3
  const BM_MEM_ADDR_NULL: nat := 0xF_FFFF_FFFF
  const PAGE_SHIFT: nat := 12
  const BGM_4K_BYTE: nat := 4096

  /** BGM_4K_ALIGN */
  function Align4K(len: nat): (r: nat)
    ensures r % BGM_4K_BYTE == 0 && len <= r < len + BGM_4K_BYTE
  {
    (len + BGM_4K_BYTE - 1) / BGM_4K_BYTE * BGM_4K_BYTE
  }

  class Device {
    /** The heap with id `i` is `heaps[i]`; the driver's list holds them in the opposite order. */
    const heaps: seq<Chunk>

    ghost function Footprint(): set<object> {
      Objects(heaps)
    }

    ghost predicate Valid()
      reads Footprint()
    {
      ValidChunks(heaps, PAGE_SHIFT)
    }

    constructor (heaps: seq<Chunk>)
      ensures this.heaps == heaps
    {
      this.heaps := heaps;
    }

    twostate predicate Same()
      reads Footprint()
    {
      forall c :: c in heaps ==> c.Same()
    }

    /** Heap `id` gave out a block of `bytes` at `addr`; every other heap is as it was. */
    twostate predicate Served(bytes: nat, id: nat, addr: nat)
      reads Footprint()
    {
      && id < |heaps|
      && (forall c :: c in heaps && c != heaps[id] ==> c.Same())
      && (assert heaps[id] in heaps; heaps[id].Granted(addr, bytes))
    }

    /** One attempt on one heap, through ion_carveout_allocate. */
    method TryHeap(id: nat, bytes: nat) returns (addr: nat)
      requires Valid() && id < |heaps| && bytes > 0
      modifies Footprint()
      ensures Valid()
      ensures addr == 0 <==> old(heaps[id].Refuses(bytes, FirstFit))
      ensures if addr == 0 then Same() else Served(bytes, id, addr)
    {
      var c := heaps[id];
      assert c in heaps && c.bits in Footprint();
      assert forall j :: 0 <= j < |heaps| && j != id ==> heaps[j] != c && heaps[j].bits != c.bits;
      ghost var start;
      addr, start := c.TryAlloc(bytes, FirstFit);
    }

    /** Exactly the block `k` of heap `id` is gone. */
    twostate predicate Returned(id: nat, k: nat)
      reads Footprint()
    {
      && id < |heaps|
      && (forall c :: c in heaps && c != heaps[id] ==> c.Same())
      && (assert heaps[id] in heaps;
          && k < |old(heaps[id].reqs)| && old(heaps[id].reqs[k]).Live?
          && heaps[id].reqs == old(heaps[id].reqs)[k := Proto.Done]
          && heaps[id].avail == old(heaps[id].avail) + old(heaps[id].reqs[k]).nr * Pow2(PAGE_SHIFT))
    }

    method FreeBlock(id: nat, addr: nat, bytes: nat, ghost k: nat)
      requires Valid() && id < |heaps| && heaps[id].Holds(k, addr, bytes) && bytes > 0
      modifies Footprint()
      ensures Valid() && Returned(id, k)
    {
      var c := heaps[id];
      assert c in heaps && c.bits in Footprint();
      assert forall j :: 0 <= j < |heaps| && j != id ==> heaps[j] != c && heaps[j].bits != c.bits;
      var _ := c.Free(addr, bytes, k);
    }

    /** ion_carveout_free: the failure value is ignored, a block goes back whole, and the total grows by its
        size in whole pages. */
    method CarveoutFree(id: nat, addr: int, bytes: nat, ghost k: nat)
      requires Valid() && id < |heaps| && addr >= -1
      requires addr != -1 ==> heaps[id].Holds(k, addr, bytes) && bytes > 0
      modifies Footprint()
      ensures Valid() && (if addr == -1 then Same() else Returned(id, k))
      ensures SumAvail(heaps)
              == old(SumAvail(heaps)) + if addr == -1 then 0 else Proto.Granules(bytes, Pow2(PAGE_SHIFT)) * Pow2(PAGE_SHIFT)
    {
      if addr == -1 {
        return;
      }
      assert heaps[id] in heaps;
      ghost var before := Avails(heaps);
      FreeBlock(id, addr, bytes, k);
      ghost var after := Avails(heaps);
      SumChange(before, after, id);
    }

    /** The outcome of a walk over the heaps of a mask: a block from heap `id`, or nothing changed. */
    twostate predicate Outcome(bytes: nat, mask: set<nat>, id: nat, addr: nat)
      reads Footprint()
    {
      if addr == 0 then Same() else id in mask && Served(bytes, id, addr)
    }

    /** The list walk of ion_alloc: last added heap first. */
    method WalkHeaps(bytes: nat, mask: set<nat>) returns (id: nat, addr: nat)
      requires Valid() && bytes > 0
      modifies Footprint()
      ensures Valid() && Outcome(bytes, mask, id, addr) && id <= |heaps|
      ensures forall j: nat :: id < j < |heaps| && j in mask ==> old(heaps[j].Refuses(bytes, FirstFit))
      ensures addr != 0 ==> id < |heaps| && !old(heaps[id].Refuses(bytes, FirstFit))
      ensures addr == 0 ==> id == 0 && forall j: nat :: j < |heaps| && j in mask ==> old(heaps[j].Refuses(bytes, FirstFit))
    {
      id, addr := |heaps|, 0;
      while id > 0
        invariant id <= |heaps| && addr == 0
        invariant Valid() && Same()
        invariant forall j: nat :: id <= j < |heaps| && j in mask ==> old(heaps[j].Refuses(bytes, FirstFit))
      {
        id := id - 1;
        if id in mask {
          assert heaps[id].Same();
          addr := TryHeap(id, bytes);
          if addr != 0 {
            return;
          }
        }
      }
    }

    predicate HeapInMask(mask: set<nat>) {
      exists j :: 0 <= j < |heaps| && j in mask
    }

    /** ion_alloc.  `ret` is the descriptor (abstracted to 0) or the negated error. */
    method IonAlloc(len: nat, mask: set<nat>) returns (ret: int, heapId: nat, paddr: nat)
      requires Valid()
      modifies Footprint()
      ensures Valid() && Outcome(Align4K(len), mask, heapId, paddr)
      ensures ret == 0 <==> paddr != 0
      ensures ret == 0 ==> heapId < |heaps| && !old(heaps[heapId].Refuses(Align4K(len), FirstFit))
      ensures ret == 0 ==> forall j: nat :: heapId < j < |heaps| && j in mask ==> old(heaps[j].Refuses(Align4K(len), FirstFit))
      ensures ret != 0 && len > 0 ==> forall j: nat :: j < |heaps| && j in mask ==> old(heaps[j].Refuses(Align4K(len), FirstFit))
      ensures ret != 0 ==> ret == if len == 0 then -22 else if HeapInMask(mask) then -12 else -19
    {
      var bytes := Align4K(len);
      if bytes == 0 {
        return -22, 0, 0;
      }
      heapId, paddr := WalkHeaps(bytes, mask);
      ret := if paddr != 0 then 0 else if HeapInMask(mask) then -12 else -19;
    }

    /** bmdrv_gmem_avail_size */
    method AvailSize() returns (avail: int)
      requires Valid()
      ensures avail == SumAvail(heaps)
    {
      avail := 0;
      var i := 0;
      while i < |heaps|
        invariant 0 <= i <= |heaps|
        invariant avail == Sum(Avails(heaps)[..i])
      {
        assert Avails(heaps)[..i + 1][..i] == Avails(heaps)[..i];
        avail := avail + heaps[i].avail;
        i := i + 1;
      }
      assert Avails(heaps)[..i] == Avails(heaps);
    }

    /** bmdrv_gmem_total_size: the managed bytes, which are the available ones plus 4 KiB for every
        granule of a live allocation. */
    method TotalSize() returns (size: nat)
      requires Valid()
      ensures size == SumSize(heaps)
      ensures size == SumAvail(heaps) + SumLive(heaps) * BGM_4K_BYTE
    {
      size := 0;
      var i := 0;
      while i < |heaps|
        invariant 0 <= i <= |heaps|
        invariant size == SumSize(heaps[..i])
      {
        assert heaps[..i + 1][..i] == heaps[..i];
        size := size + heaps[i].size;
        i := i + 1;
      }
      assert heaps[..i] == heaps;
      ChunksConserve(heaps, PAGE_SHIFT);
      assert Pow2(PAGE_SHIFT) == BGM_4K_BYTE;
    }

    /** The heap loop of bmdrv_gmem_alloc: each heap of the mask gets its own ion_alloc, lowest id first. */
    method TryMask(len: nat, mask: set<nat>) returns (ret: int, id: nat, paddr: nat)
      requires Valid() && len > 0
      modifies Footprint()
      ensures Valid() && (ret == 0 <==> paddr != 0) && id <= MAX_HEAP_CNT && (ret != 0 ==> id == MAX_HEAP_CNT)
      ensures Outcome(Align4K(len), mask, id, paddr)
      ensures forall j: nat :: j < id && j < |heaps| && j in mask ==> old(heaps[j].Refuses(Align4K(len), FirstFit))
      ensures ret == 0 ==> id < MAX_HEAP_CNT && id < |heaps| && !old(heaps[id].Refuses(Align4K(len), FirstFit))
    {
      ret, id, paddr := -1, 0, 0;
      while id < MAX_HEAP_CNT
        invariant id <= MAX_HEAP_CNT && ret != 0 && paddr == 0
        invariant Valid() && Same()
        invariant forall j: nat :: j < id && j < |heaps| && j in mask ==> old(heaps[j].Refuses(Align4K(len), FirstFit))
      {
        if id in mask {
          var at;
          ret, at, paddr := IonAlloc(len, {id});
          if ret == 0 {
            return;
          }
          assert id < |heaps| ==> id in {id};
        }
        id := id + 1;
      }
    }

    lemma WholePages(len: nat)
      ensures Proto.Granules(Align4K(len), Pow2(PAGE_SHIFT)) * Pow2(PAGE_SHIFT) == Align4K(len)
    {
      assert Pow2(PAGE_SHIFT) == BGM_4K_BYTE;
      var k := Align4K(len) / BGM_4K_BYTE;
      DivModUnique(Align4K(len) + BGM_4K_BYTE - 1, BGM_4K_BYTE, k, BGM_4K_BYTE - 1);
    }

    /** The same, with its effect on the total. */
    method TryMaskCounted(len: nat, mask: set<nat>) returns (ret: int, id: nat, paddr: nat)
      requires Valid() && len > 0
      modifies Footprint()
      ensures Valid() && (ret == 0 <==> paddr != 0) && id <= MAX_HEAP_CNT && (ret != 0 ==> id == MAX_HEAP_CNT)
      ensures Outcome(Align4K(len), mask, id, paddr)
      ensures forall j: nat :: j < id && j < |heaps| && j in mask ==> old(heaps[j].Refuses(Align4K(len), FirstFit))
      ensures ret == 0 ==> id < MAX_HEAP_CNT && id < |heaps| && !old(heaps[id].Refuses(Align4K(len), FirstFit))
      ensures SumAvail(heaps) == old(SumAvail(heaps)) - if ret == 0 then Align4K(len) else 0
    {
      ghost var before := Avails(heaps);
      ret, id, paddr := TryMask(len, mask);
      ghost var after := Avails(heaps);
      if ret == 0 {
        WholePages(len);
        assert after[id] == before[id] - Align4K(len);
        SumChange(before, after, id);
      } else {
        assert after == before;
      }
    }

    /** bmdrv_gmem_alloc: serves the request from the first heap of the mask that can, taking exactly the
        4 KiB-rounded size from the total; a failure, whatever heaps it tried, changes no heap.
        `paddrIn` is the address field of the request on entry. */
    method GmemAlloc(len: nat, mask: set<nat>, paddrIn: nat) returns (ret: int, heapId: nat, paddr: nat)
      requires Valid()
      modifies Footprint()
      ensures Valid() && (ret == 0 || ret == -1)
      ensures ret == 0 ==> heapId in mask && heapId < MAX_HEAP_CNT && Served(Align4K(len), heapId, paddr)
      ensures ret == 0 ==> forall j: nat :: j < heapId && j < |heaps| && j in mask ==> old(heaps[j].Refuses(Align4K(len), FirstFit))
      ensures ret == -1 ==> Same()
      ensures ret == -1 ==> paddr == if len == 0 || mask == {} || len > old(SumAvail(heaps)) then paddrIn else BM_MEM_ADDR_NULL
      ensures ret == -1 <==>
              || len == 0 || mask == {} || len > old(SumAvail(heaps))
              || forall j: nat :: j < MAX_HEAP_CNT && j < |heaps| && j in mask ==> old(heaps[j].Refuses(Align4K(len), FirstFit))
      ensures SumAvail(heaps) == old(SumAvail(heaps)) - if ret == 0 then Align4K(len) else 0
    {
      // SumAvail is what AvailSize returns
      if len == 0 || len > SumAvail(heaps) || mask == {} {
        return -1, 0, paddrIn;
      }
      ret, heapId, paddr := TryMaskCounted(len, mask);
      if ret != 0 {
        ret, paddr := -1, BM_MEM_ADDR_NULL;
      }
    }
  }
}
