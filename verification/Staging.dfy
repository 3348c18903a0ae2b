/** Copying through the stage buffer: slots handed out by a bitmap, and a transfer cut into slot-sized
    chunks with 32-bit arithmetic.  Module StagingProtocol runs transfers against each other. */
module Staging {
  import opened Arith

  type Byte = bv8

  const U32: nat := 0x1_0000_0000

  /** 1 MiB: CONFIG_HOST_REALMEM_SIZE / STAGEMEM_SLOT_NUM is the same on every build. */
  const SLOT: nat := 0x10_0000

  const EBUSY: int := 16

  /** The trip count of the chunk loops, a 32-bit sum. */
  function Passes(size: nat): nat {
    (size + SLOT - 1) % U32 / SLOT
  }

  /** The length of one chunk, in 32-bit arithmetic. */
  function StepLen(size: nat, pass: nat): nat {
    if (pass + 1) * SLOT % U32 < size then SLOT else (size - pass * SLOT % U32) % U32
  }

  /** What a successful copy really moves: everything up to 2^32 minus a slot, and nothing above. */
  function Moved(size: nat): nat {
    if size <= U32 - SLOT then size else 0
  }

  /** The loop runs once for every started slot exactly up to that size; above it the sum wraps and the loop
      does not run at all. */
  lemma PassesExact(size: nat)
    requires size < U32
    ensures size <= U32 - SLOT ==> Passes(size) == (size + SLOT - 1) / SLOT
    ensures size > U32 - SLOT ==> Passes(size) == 0
  {
  }

  /** Chunks are full slots up to the last, which ends exactly at `size`. */
  lemma StepLenExact(size: nat, pass: nat)
    requires size < U32 && pass < Passes(size)
    ensures size <= U32 - SLOT && pass * SLOT < size
    ensures StepLen(size, pass) == (if (pass + 1) * SLOT < size then SLOT else size - pass * SLOT)
    ensures 0 < StepLen(size, pass) <= SLOT
    ensures pass * SLOT + StepLen(size, pass) == if pass + 1 == Passes(size) then size else (pass + 1) * SLOT
  {
    PassesExact(size);
  }

  /** `d` with `s` written over it at `at`. */
  function Patched(d: seq<Byte>, at: nat, s: seq<Byte>): (r: seq<Byte>)
    requires at + |s| <= |d|
    ensures |r| == |d|
  {
    d[..at] + s + d[at + |s|..]
  }

  lemma PatchTwice(d: seq<Byte>, at: nat, s: seq<Byte>, t: seq<Byte>)
    requires at + |s| + |t| <= |d|
    ensures Patched(Patched(d, at, s), at + |s|, t) == Patched(d, at, s + t)
  {
  }

  /** Slots are disjoint parts of the buffer. */
  lemma SlotsApart(i: nat, j: nat, slots: nat, a: nat, b: nat)
    requires i < slots && j < slots && i != j && a < SLOT && b < SLOT
    ensures i * SLOT + a != j * SLOT + b && i * SLOT + SLOT <= slots * SLOT
  {
  }

  ghost predicate FirstFree(bitmap: seq<bool>, index: nat) {
    index < |bitmap| && !bitmap[index] && forall i :: 0 <= i < index ==> bitmap[i]
  }

  class Stage {
    const buffer: array<Byte>
    var bitmap: seq<bool>   // one bit for each slot, true when in use

    ghost predicate Valid()
      reads this
    {
      buffer.Length == |bitmap| * SLOT
    }

    constructor (slots: nat)
      ensures Valid() && |bitmap| == slots && (forall i :: 0 <= i < slots ==> !bitmap[i]) && fresh(buffer)
    {
      buffer := new Byte[slots * SLOT](i => 0);
      bitmap := seq(slots, i => false);
    }

    /** caculate_stage_index: take the first free slot; it fails exactly when the bitmap is full. */
    method CalculateStageIndex() returns (found: bool, index: nat)
      modifies this`bitmap
      ensures found <==> false in old(bitmap)
      ensures found ==> FirstFree(old(bitmap), index) && bitmap == old(bitmap)[index := true]
      ensures !found ==> bitmap == old(bitmap)
    {
      index := 0;
      while index < |bitmap|
        invariant index <= |bitmap| && bitmap == old(bitmap)
        invariant forall i :: 0 <= i < index ==> bitmap[i]
      {
        if !bitmap[index] {
          bitmap := bitmap[index := true];
          return true, index;
        }
        index := index + 1;
      }
      found := false;
    }

    /** bmdrv_get_stagemem once the bitmap is not full: the search cannot fail. */
    method GetStagemem() returns (index: nat)
      requires false in bitmap
      modifies this`bitmap
      ensures FirstFree(old(bitmap), index) && bitmap == old(bitmap)[index := true]
    {
      var found;
      found, index := CalculateStageIndex();
    }

    /** bmdrv_free_stagemem. */
    method FreeStagemem(index: nat)
      requires index < |bitmap|
      modifies this`bitmap
      ensures bitmap == old(bitmap)[index := false]
    {
      bitmap := bitmap[index := false];
    }

    /** One chunk through a slot: memcpy into the slot, DMA out of it. */
    method MoveChunk(chunk: seq<Byte>, dst: array<Byte>, at: nat, fails: bool) returns (ok: bool)
      requires Valid() && false in bitmap && |chunk| <= SLOT && at + |chunk| <= dst.Length && dst != buffer
      modifies this`bitmap, buffer, dst
      ensures bitmap == old(bitmap) && ok == !fails
      ensures dst[..] == if ok then Patched(old(dst[..]), at, chunk) else old(dst[..])
    {
      var index := GetStagemem();
      SlotsApart(index, if index == 0 then 1 else 0, |bitmap| + 1, 0, 0);
      MulMono(index + 1, |bitmap|, SLOT);
      forall k | 0 <= k < |chunk| {
        buffer[index * SLOT + k] := chunk[k];
      }
      if !fails {
        forall k | 0 <= k < |chunk| {
          dst[at + k] := buffer[index * SLOT + k];
        }
        assert dst[..] == Patched(old(dst[..]), at, chunk);
      }
      FreeStagemem(index);
      assert bitmap == old(bitmap);
      ok := !fails;
    }
  }

  /** One round of the chunk loop. */
  method MovePass(stage: Stage, src: seq<Byte>, dst: array<Byte>, at: nat, inc: nat, step: nat, fails: bool,
      ghost before: seq<Byte>) returns (ok: bool)
    requires stage.Valid() && false in stage.bitmap && dst != stage.buffer
    requires step <= SLOT && inc + step <= |src| && at + |src| <= dst.Length == |before|
    requires dst[..] == Patched(before, at, src[..inc])
    modifies stage`bitmap, stage.buffer, dst
    ensures stage.bitmap == old(stage.bitmap) && ok == !fails
    ensures dst[..] == Patched(before, at, src[..if ok then inc + step else inc])
  {
    ok := stage.MoveChunk(src[inc..inc + step], dst, at + inc, fails);
    PatchNext(before, at, src, inc, step);
  }

  ghost predicate FirstFailure(fails: nat -> bool, n: nat) {
    fails(n) && forall i :: 0 <= i < n ==> !fails(i)
  }

  /** bmdev_memcpy_s2d_internal (and, with host and chip exchanged, bmdev_memcpy_d2s_internal): on success
      exactly Moved(size) bytes have been copied and nothing else in the destination changed, so a size
      above 2^32 minus a slot reports success without copying; a failed DMA leaves whole slots from the
      front.  The slot is given back either way. */
  method Memcpy(stage: Stage, src: seq<Byte>, dst: array<Byte>, at: nat, fails: nat -> bool) returns (ret: int)
    requires stage.Valid() && false in stage.bitmap && dst != stage.buffer
    requires |src| < U32 && at + |src| <= dst.Length
    modifies stage`bitmap, stage.buffer, dst
    ensures stage.bitmap == old(stage.bitmap)
    ensures ret == 0 || ret == -EBUSY
    ensures ret == 0 ==> dst[..] == Patched(old(dst[..]), at, src[..Moved(|src|)])
    ensures ret == 0 <==> forall i: nat :: i < Passes(|src|) ==> !fails(i)
    ensures ret != 0 ==> exists n: nat :: FirstFailure(fails, n) && n * SLOT < |src| &&
                           dst[..] == Patched(old(dst[..]), at, src[..n * SLOT])
  {
    var size := |src|;
    ghost var before := dst[..];
    var passes := Passes(size);
    var pass, inc: nat := 0, 0;
    Start(size);
    assert Patched(before, at, src[..0]) == before;
    while pass < passes
      invariant pass <= passes && Progress(size, pass, inc) && forall i :: 0 <= i < pass ==> !fails(i)
      invariant stage.bitmap == old(stage.bitmap)
      invariant dst[..] == Patched(before, at, src[..inc])
    {
      Advance(size, pass, inc);
      var step := StepLen(size, pass);
      var ok := MovePass(stage, src, dst, at, inc, step, fails(pass), before);
      if !ok {
        assert FirstFailure(fails, pass);
        return -EBUSY;
      }
      inc := inc + step;
      pass := pass + 1;
    }
    ret := 0;
  }

  /** Bytes moved after `pass` chunks. */
  ghost predicate Progress(size: nat, pass: nat, inc: nat)
    requires pass <= Passes(size)
  {
    inc <= size && inc == if pass == Passes(size) then Moved(size) else pass * SLOT
  }

  lemma Start(size: nat)
    requires size < U32
    ensures Progress(size, 0, 0)
  {
    PassesExact(size);
  }

  lemma Advance(size: nat, pass: nat, inc: nat)
    requires size < U32 && pass < Passes(size) && Progress(size, pass, inc)
    ensures 0 < StepLen(size, pass) <= SLOT && inc + StepLen(size, pass) <= size
    ensures Progress(size, pass + 1, inc + StepLen(size, pass))
    ensures inc == pass * SLOT < size
  {
    StepLenExact(size, pass);
  }

  lemma PatchNext(d: seq<Byte>, at: nat, src: seq<Byte>, inc: nat, step: nat)
    requires inc + step <= |src| && at + |src| <= |d|
    ensures Patched(Patched(d, at, src[..inc]), at + inc, src[inc..inc + step]) == Patched(d, at, src[..inc + step])
  {
    PatchTwice(d, at, src[..inc], src[inc..inc + step]);
    assert src[..inc] + src[inc..inc + step] == src[..inc + step];
  }
}
