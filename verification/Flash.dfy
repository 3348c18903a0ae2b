/** Writing the boot flash: erase whole sectors, program 256-byte pages, compare each page, and the upload
    that does so in pieces of 1 MiB.  Programming can only clear bits; addresses on the wire have 24 bits. */
module Flash {
  import opened Arith

  type Byte = bv8

  /** Three address bytes reach 16 MiB; higher address bits are not sent. */
  const SIZE: nat := 0x100_0000
  const PAGE: nat := 256
  const PIECE: nat := 0x10_0000

  const M25P128: nat := 0x00182020
  const N25Q128: nat := 0x0018ba20
  const GD25LQ128: nat := 0x001860c8

  /** The erase unit of a known part; 0 for an unknown id. */
  function SectorSize(id: nat): nat {
    if id == M25P128 then 0x4_0000 else if id == N25Q128 || id == GD25LQ128 then 0x1_0000 else 0
  }

  predicate ValidSector(sector: nat) {
    sector == 0x1_0000 || sector == 0x4_0000
  }

  /** The cell that byte `k` past `base` lands on. */
  function At(base: nat, k: nat): nat {
    (base + k) % SIZE
  }

  /** How far cell `a` lies past `base`, around the end of the flash. */
  function Dist(base: nat, a: nat): nat {
    (a - base) % SIZE
  }

  lemma AtDist(base: nat, k: nat, a: nat)
    requires k < SIZE && a < SIZE
    ensures Dist(base, At(base, k)) == k && At(base, Dist(base, a)) == a
  {
  }

  lemma DistShift(base: nat, off: nat, a: nat)
    requires off <= SIZE && a < SIZE
    ensures Dist(base + off, a) == if Dist(base, a) >= off then Dist(base, a) - off else Dist(base, a) + SIZE - off
  {
  }

  lemma AtShift(base: nat, off: nat, k: nat)
    ensures At(base + off, k) == At(base, off + k)
  {
  }

  /** The number of sectors the code erases: a 32-bit sum and an 8-bit count. */
  function EraseCount(size: nat, sector: nat): nat
    requires ValidSector(sector)
  {
    (size + sector) % 0x1_0000_0000 / sector % 0x100
  }

  /** The count is the intended size / sector + 1 exactly up to 255 sectors; then it covers the image. */
  lemma EraseCountExact(size: nat, sector: nat)
    requires ValidSector(sector) && size < 0x1_0000_0000
    ensures EraseCount(size, sector) == size / sector + 1 <==> size < 255 * sector
    ensures size < 255 * sector ==> size < EraseCount(size, sector) * sector <= size + sector
  {
    if sector == 0x1_0000 {
      assert EraseCount(size, 0x1_0000) == size / 0x1_0000 + 1 <==> size < 255 * 0x1_0000;
    } else {
      assert EraseCount(size, 0x4_0000) == size / 0x4_0000 + 1 <==> size < 255 * 0x4_0000;
    }
  }

  predicate Accepts(id: nat, base: nat) {
    SectorSize(id) != 0 && base % SectorSize(id) == 0
  }

  /** How many bytes from the base on one call erases. */
  function Erased(id: nat, size: nat): nat {
    if SectorSize(id) == 0 then 0 else EraseCount(size, SectorSize(id)) * SectorSize(id)
  }

  /** Addresses are 32-bit sums in the code; that wrap-around never shows on the wire or in the alignment. */
  lemma AddressWrapIsInvisible(base: nat, k: nat, sector: nat)
    requires ValidSector(sector)
    ensures At(base % 0x1_0000_0000, k) == At(base, k)
    ensures base % 0x1_0000_0000 % sector == base % sector
  {
    if sector == 0x1_0000 {
      assert base % 0x1_0000_0000 % 0x1_0000 == base % 0x1_0000;
    } else {
      assert base % 0x1_0000_0000 % 0x4_0000 == base % 0x4_0000;
    }
  }

  datatype Result = Ok | Invalid | PageFailed | Mismatch

  /** What the part does with a page: refuse it visibly, lose it on the way, or program it. */
  datatype PageFate = Refused | Lost | Done

  ghost predicate Kept(before: seq<Byte>, now: seq<Byte>, base: nat, from: nat) {
    && |before| == |now| == SIZE
    && forall a: nat :: a < SIZE && Dist(base, a) >= from ==> now[a] == before[a]
  }

  ghost predicate Blank(now: seq<Byte>, base: nat, from: nat, to: nat) {
    |now| == SIZE && forall a: nat :: a < SIZE && from <= Dist(base, a) < to ==> now[a] == 0xFF
  }

  ghost predicate Holds(now: seq<Byte>, base: nat, src: seq<Byte>, count: nat) {
    |now| == SIZE && count <= |src| && forall k: nat :: k < count ==> now[At(base, k)] == src[k]
  }

  ghost predicate AllCooperate(enabled: nat -> nat -> bool, fate: nat -> nat -> PageFate) {
    forall loop: nat :: Cooperates(enabled(loop), fate(loop))
  }

  /** size / sector + 1 sectors: what the code means to erase for an image. */
  function Extent(id: nat, size: nat): nat {
    if SectorSize(id) == 0 then 0 else (size / SectorSize(id) + 1) * SectorSize(id)
  }

  /** What an upload may change: nothing before its first byte is sent. */
  function Reach(id: nat, size: nat): nat {
    if size == 0 then 0 else Extent(id, size)
  }

  /** Programming `data` at `addr` clears bits and touches nothing else; a page that is not done touches nothing. */
  ghost predicate PageWritten(mid: seq<Byte>, now: seq<Byte>, addr: nat, data: seq<Byte>, done: bool) {
    && |mid| == |now| == SIZE
    && forall a: nat :: a < SIZE ==>
         now[a] == if done && Dist(addr, a) < |data| then mid[a] & data[Dist(addr, a)] else mid[a]
  }

  ghost predicate Cooperates(enabled: nat -> bool, fate: nat -> PageFate) {
    forall i: nat :: enabled(i) && fate(i) == Done
  }

  class Device {
    const cells: array<Byte>
    const id: nat

    predicate Valid() {
      cells.Length == SIZE
    }

    constructor (content: seq<Byte>, part: nat)
      requires |content| == SIZE
      ensures Valid() && cells[..] == content && id == part && fresh(cells)
    {
      cells := new Byte[SIZE](i requires 0 <= i < SIZE => content[i]);
      id := part;
    }

    /** bm_spi_flash_erase_sector: without write enable nothing happens. */
    method EraseSector(addr: nat, sector: nat, enabled: bool)
      requires Valid() && ValidSector(sector)
      modifies cells
      ensures forall a: nat :: a < SIZE ==>
                cells[a] == if enabled && addr % SIZE / sector == a / sector then 0xFF else old(cells[a])
    {
      if !enabled {
        return;
      }
      forall a | 0 <= a < SIZE && addr % SIZE / sector == a / sector {
        cells[a] := 0xFF;
      }
    }

    /** do_page_program. */
    method PageProgram(data: seq<Byte>, addr: nat, fate: PageFate) returns (ok: bool)
      requires Valid()
      modifies cells
      ensures ok <==> |data| <= PAGE && addr % PAGE == 0 && fate != Refused
      ensures PageWritten(old(cells[..]), cells[..], addr, data, ok && fate == Done)
    {
      if |data| > PAGE || addr % PAGE != 0 || fate == Refused {
        return false;
      }
      if fate == Done {
        forall a | 0 <= a < SIZE && Dist(addr, a) < |data| {
          cells[a] := cells[a] & data[Dist(addr, a)];
        }
      }
      return true;
    }

    method EraseSectors(base: nat, sector: nat, count: nat, enabled: nat -> bool)
      requires Valid() && ValidSector(sector) && base % sector == 0
      modifies cells
      ensures Kept(old(cells[..]), cells[..], base, count * sector)
      ensures (forall i: nat :: i < count ==> enabled(i)) ==> Blank(cells[..], base, 0, count * sector)
    {
      ghost var before := cells[..];
      for i := 0 to count
        invariant Kept(before, cells[..], base, i * sector)
        invariant (forall j: nat :: j < i ==> enabled(j)) ==> Blank(cells[..], base, 0, i * sector)
      {
        ghost var mid := cells[..];
        EraseSector(base + i * sector, sector, enabled(i));
        EraseStep(before, mid, cells[..], base, sector, i, enabled(i));
      }
    }

    /** One round of the page loop: program, read back, compare. */
    method ProgramAndCompare(base: nat, src: seq<Byte>, off: nat, x: nat, fate: PageFate, ghost erased: seq<Byte>,
        ghost end: nat) returns (r: Result)
      requires Valid() && off + x <= |src| && x <= PAGE && off % PAGE == 0 && base % PAGE == 0
      requires Kept(erased, cells[..], base, off)
      modifies cells
      ensures Kept(erased, cells[..], base, off + x)
      ensures r == Ok && off + x <= SIZE && Holds(old(cells[..]), base, src, off) ==> Holds(cells[..], base, src, off + x)
      ensures fate == Done && Blank(erased, base, 0, end) && off + x <= end && off + x <= SIZE ==> r == Ok
      ensures r != Invalid
    {
      ghost var mid := cells[..];
      var data := src[off..off + x];
      var ok := PageProgram(data, base + off, fate);
      PageOffset(base, off);
      if !ok {
        ProgramStepKeeps(erased, mid, cells[..], base, off, data, false);
        return PageFailed;
      }
      var read := ReadBack(base + off, x);
      r := if read == data then Ok else Mismatch;
      CompareTells(erased, mid, cells[..], base, src, off, x, read, fate, end);
    }

    /** spi_data_read. */
    method ReadBack(addr: nat, len: nat) returns (data: seq<Byte>)
      requires Valid()
      ensures |data| == len && Holds(cells[..], addr, data, len)
    {
      data := seq(len, k requires 0 <= k && cells.Length == SIZE reads cells => cells[At(addr, k)]);
    }

    /** The page loop of bm_spi_flash_program. */
    method ProgramPages(base: nat, src: seq<Byte>, size: nat, fate: nat -> PageFate, ghost end: nat) returns (r: Result)
      requires Valid() && size <= |src| && base % PAGE == 0
      modifies cells
      ensures r != Invalid
      ensures Kept(old(cells[..]), cells[..], base, size)
      ensures r == Ok && size <= SIZE ==> Holds(cells[..], base, src, size)
      ensures Blank(old(cells[..]), base, 0, end) && (forall i: nat :: fate(i) == Done) && size <= end && size <= SIZE ==> r == Ok
    {
      ghost var erased := cells[..];
      r := Ok;
      var off, page := 0, 0;
      while off < size
        invariant r == Ok && off <= size && (off % PAGE == 0 || off == size)
        invariant Kept(erased, cells[..], base, off)
        invariant off <= SIZE ==> Holds(cells[..], base, src, off)
      {
        var xferSize := if size - off >= PAGE then PAGE else size - off;
        r := ProgramAndCompare(base, src, off, xferSize, fate(page), erased, end);
        off := off + xferSize;
        if r != Ok {
          return;
        }
        page := page + 1;
      }
    }

    /** bm_spi_flash_program.  Success means the image is in the flash, even if erases or pages got lost;
        no cell past the erased sectors and the image changes; and with a cooperating part an image that the
        erased sectors cover is always written. */
    method Program(src: seq<Byte>, base: nat, size: nat, enabled: nat -> bool, fate: nat -> PageFate) returns (r: Result)
      requires Valid() && size <= |src| && size < 0x1_0000_0000
      modifies cells
      ensures r == Invalid <==> !Accepts(id, base)
      ensures r == Invalid ==> cells[..] == old(cells[..])
      ensures r == Ok && size <= SIZE ==> Holds(cells[..], base, src, size)
      ensures r != Invalid ==> Kept(old(cells[..]), cells[..], base, Max(Erased(id, size), size))
      ensures r == Ok && (forall i: nat :: enabled(i)) ==> Blank(cells[..], base, size, Erased(id, size))
      ensures Accepts(id, base) && Cooperates(enabled, fate) && size <= Erased(id, size) && size <= SIZE ==> r == Ok
    {
      ghost var before := cells[..];
      var sector := SectorSize(id);
      if sector == 0 {
        return Invalid;
      }
      if base % sector != 0 {
        return Invalid;
      }
      var erasedSectors := EraseCount(size, sector);
      EraseSectors(base, sector, erasedSectors, enabled);
      ghost var erased := cells[..];
      PageAligned(base, sector);
      r := ProgramPages(base, src, size, fate, erasedSectors * sector);
      EraseThenProgram(before, erased, cells[..], base, erasedSectors * sector, size);
    }

    /** One piece of the upload, `off` bytes into the image. */
    method ProgramPiece(target: nat, buf: seq<Byte>, off: nat, len: nat, enabled: nat -> bool, fate: nat -> PageFate,
        ghost before: seq<Byte>) returns (r: Result)
      requires Valid() && off + len <= |buf| && 0 < len <= PIECE && off % PIECE == 0
      requires Kept(before, cells[..], target, Reach(id, off))
      modifies cells
      ensures r == Invalid <==> !Accepts(id, target)
      ensures r == Invalid ==> cells[..] == old(cells[..])
      ensures r != Invalid ==> Kept(before, cells[..], target, Reach(id, off + len))
      ensures r == Ok && Holds(old(cells[..]), target, buf, off) && off + len < SIZE ==>
                Holds(cells[..], target, buf, off + len)
      ensures Accepts(id, target) && Cooperates(enabled, fate) ==> r == Ok
      ensures Accepts(id, target) && Cooperates(enabled, fate) && len == PIECE && off + PIECE == SIZE ==>
                Blank(cells[..], target, 0, SectorSize(id))
    {
      ghost var mid := cells[..];
      PieceAligned(id, target, off);
      ExtentIsErased(id, len);
      r := Program(buf[off..off + len], target + off, len, enabled, fate);
      if r != Invalid {
        PieceDone(before, mid, cells[..], id, target, buf, off, len);
      }
    }

    /** The loop over whole pieces. */
    method ProgramPieces(target: nat, buf: seq<Byte>, pktNum: nat, enabled: nat -> nat -> bool,
        fate: nat -> nat -> PageFate) returns (r: Result)
      requires Valid() && pktNum * PIECE <= |buf|
      modifies cells
      ensures r == Invalid <==> pktNum > 0 && !Accepts(id, target)
      ensures pktNum == 0 ==> r == Ok
      ensures r == Invalid ==> cells[..] == old(cells[..])
      ensures Kept(old(cells[..]), cells[..], target, Reach(id, pktNum * PIECE))
      ensures r == Ok && |buf| < SIZE ==> Holds(cells[..], target, buf, pktNum * PIECE)
      ensures (pktNum > 0 ==> Accepts(id, target)) && AllCooperate(enabled, fate) ==> r == Ok
      ensures AllCooperate(enabled, fate) && Accepts(id, target) && pktNum * PIECE == SIZE ==>
                Blank(cells[..], target, 0, SectorSize(id))
    {
      ghost var before := cells[..];
      var loop: nat := 0;
      while loop < pktNum
        invariant loop <= pktNum && (loop > 0 ==> Accepts(id, target))
        invariant Kept(before, cells[..], target, Reach(id, loop * PIECE))
        invariant |buf| < SIZE ==> Holds(cells[..], target, buf, loop * PIECE)
        invariant AllCooperate(enabled, fate) && loop * PIECE == SIZE ==> Blank(cells[..], target, 0, SectorSize(id))
      {
        r := ProgramPiece(target, buf, loop * PIECE, PIECE, enabled(loop), fate(loop), before);
        loop := loop + 1;
        if r != Ok {
          ReachGrows(before, cells[..], id, target, loop * PIECE, pktNum * PIECE);
          return;
        }
      }
      r := Ok;
    }

    /** BMDEV_PROGRAM_A53: whole pieces, then the rest.  Each piece also erases the sector after it, which is
        why an image must end before the last byte of the flash: success then means it is all there, and
        nothing outside size / sector + 1 sectors changed.  An image as long as the flash erases its own
        beginning with its last piece, and still succeeds. */
    method ProgramA53(target: nat, buf: seq<Byte>, enabled: nat -> nat -> bool, fate: nat -> nat -> PageFate)
      returns (r: Result)
      requires Valid() && |buf| < 0x8000_0000
      modifies cells
      ensures r == Invalid <==> |buf| > 0 && !Accepts(id, target)
      ensures r == Invalid ==> cells[..] == old(cells[..])
      ensures r == Ok && |buf| < SIZE ==> Holds(cells[..], target, buf, |buf|)
      ensures Kept(old(cells[..]), cells[..], target, Reach(id, |buf|))
      ensures (|buf| > 0 ==> Accepts(id, target)) && AllCooperate(enabled, fate) ==> r == Ok
      ensures |buf| == SIZE && Accepts(id, target) && AllCooperate(enabled, fate) ==>
                Blank(cells[..], target, 0, SectorSize(id))
    {
      ghost var before := cells[..];
      var pktNum := |buf| / PIECE;
      var lastLen := |buf| % PIECE;
      r := ProgramPieces(target, buf, pktNum, enabled, fate);
      if r != Ok {
        ReachGrows(before, cells[..], id, target, pktNum * PIECE, |buf|);
        return;
      }
      if lastLen != 0 {
        r := ProgramPiece(target, buf, pktNum * PIECE, lastLen, enabled(pktNum), fate(pktNum), before);
      }
    }
  }

  lemma SmallSectorCells(base: nat, i: nat, a: nat)
    requires base % 0x1_0000 == 0 && a < SIZE && i * 0x1_0000 < SIZE
    ensures (base + i * 0x1_0000) % SIZE / 0x1_0000 == a / 0x1_0000
            <==> i * 0x1_0000 <= Dist(base, a) < (i + 1) * 0x1_0000
  {
    var q0, qa := base % SIZE / 0x1_0000, a / 0x1_0000;
    var u := if q0 + i < 256 then q0 + i else q0 + i - 256;
    var d := if qa >= q0 then qa - q0 else qa + 256 - q0;
    var hi := base / SIZE;
    assert base == hi * SIZE + q0 * 0x1_0000;
    DivModUnique(base + i * 0x1_0000, SIZE, if q0 + i < 256 then hi else hi + 1, u * 0x1_0000);
    DivModUnique(a - base, SIZE, if qa >= q0 then -hi else -hi - 1, d * 0x1_0000 + a % 0x1_0000);
    DivModUnique(u * 0x1_0000, 0x1_0000, u, 0);
  }

  lemma LargeSectorCells(base: nat, i: nat, a: nat)
    requires base % 0x4_0000 == 0 && a < SIZE && i * 0x4_0000 < SIZE
    ensures (base + i * 0x4_0000) % SIZE / 0x4_0000 == a / 0x4_0000
            <==> i * 0x4_0000 <= Dist(base, a) < (i + 1) * 0x4_0000
  {
    var q0, qa := base % SIZE / 0x4_0000, a / 0x4_0000;
    var u := if q0 + i < 64 then q0 + i else q0 + i - 64;
    var d := if qa >= q0 then qa - q0 else qa + 64 - q0;
    var hi := base / SIZE;
    assert base == hi * SIZE + q0 * 0x4_0000;
    DivModUnique(base + i * 0x4_0000, SIZE, if q0 + i < 64 then hi else hi + 1, u * 0x4_0000);
    DivModUnique(a - base, SIZE, if qa >= q0 then -hi else -hi - 1, d * 0x4_0000 + a % 0x4_0000);
    DivModUnique(u * 0x4_0000, 0x4_0000, u, 0);
  }

  /** Sector `i` past an aligned base. */
  lemma SectorCells(base: nat, sector: nat, i: nat, a: nat)
    requires ValidSector(sector) && base % sector == 0 && a < SIZE && i * sector < SIZE
    ensures (base + i * sector) % SIZE / sector == a / sector <==> i * sector <= Dist(base, a) < (i + 1) * sector
  {
    if sector == 0x1_0000 {
      SmallSectorCells(base, i, a);
    } else {
      LargeSectorCells(base, i, a);
    }
  }

  lemma EraseStep(before: seq<Byte>, mid: seq<Byte>, now: seq<Byte>, base: nat, sector: nat, i: nat, enabled: bool)
    requires ValidSector(sector) && base % sector == 0 && |mid| == |now| == SIZE
    requires forall a: nat :: a < SIZE ==>
               now[a] == if enabled && (base + i * sector) % SIZE / sector == a / sector then 0xFF else mid[a]
    requires Kept(before, mid, base, i * sector)
    ensures Kept(before, now, base, (i + 1) * sector)
    ensures enabled && Blank(mid, base, 0, i * sector) ==> Blank(now, base, 0, (i + 1) * sector)
  {
    assert (i + 1) * sector == i * sector + sector;
    forall a: nat | a < SIZE
      ensures Dist(base, a) >= (i + 1) * sector ==> now[a] == mid[a]
      ensures enabled && i * sector <= Dist(base, a) < (i + 1) * sector ==> now[a] == 0xFF
    {
      if i * sector < SIZE {
        SectorCells(base, sector, i, a);
      }
    }
  }

  /** Nothing at or past `from` changes while bytes before it are programmed. */
  lemma ProgramStepKeeps(erased: seq<Byte>, mid: seq<Byte>, now: seq<Byte>, base: nat, off: nat, data: seq<Byte>, done: bool)
    requires off % PAGE == 0 && |data| <= PAGE && PageWritten(mid, now, base + off, data, done)
    requires Kept(erased, mid, base, off)
    ensures Kept(erased, now, base, off + |data|)
  {
    forall a: nat | a < SIZE && Dist(base, a) >= off + |data| ensures now[a] == mid[a] {
      DistShift(base, off, a);
    }
  }

  /** Pages already compared stay as they are, as long as the image does not run into itself. */
  lemma ProgramStepHolds(mid: seq<Byte>, now: seq<Byte>, base: nat, src: seq<Byte>, off: nat, x: nat)
    requires |mid| == |now| == SIZE && off + x <= |src| && off + x <= SIZE
    requires forall a: nat :: a < SIZE && Dist(base + off, a) >= x ==> now[a] == mid[a]
    requires Holds(now, base + off, src[off..off + x], x)
    requires Holds(mid, base, src, off)
    ensures Holds(now, base, src, off + x)
  {
    forall k: nat | k < off + x ensures now[At(base, k)] == src[k] {
      if k < off {
        AtDist(base, k, At(base, k));
        DistShift(base, off, At(base, k));
        assert now[At(base, k)] == mid[At(base, k)];
      } else {
        AtShift(base, off, k - off);
        assert now[At(base + off, k - off)] == src[off..off + x][k - off];
      }
    }
  }

  /** A page programmed into erased cells reads back as written. */
  lemma BlankTakes(erased: seq<Byte>, mid: seq<Byte>, now: seq<Byte>, base: nat, data: seq<Byte>, off: nat, end: nat)
    requires |mid| == |now| == SIZE && off + |data| <= SIZE && off + |data| <= end
    requires forall a: nat :: a < SIZE && Dist(base + off, a) < |data| ==> now[a] == mid[a] & data[Dist(base + off, a)]
    requires Kept(erased, mid, base, off) && Blank(erased, base, 0, end)
    ensures Holds(now, base + off, data, |data|)
  {
    forall k: nat | k < |data| ensures now[At(base + off, k)] == data[k] {
      AtDist(base + off, k, 0);
      AtShift(base, off, k);
      AtDist(base, off + k, 0);
      AllOnes(data[k]);
    }
  }

  /** What the comparison after a page shows, and when it succeeds. */
  lemma CompareTells(erased: seq<Byte>, mid: seq<Byte>, now: seq<Byte>, base: nat, src: seq<Byte>, off: nat, x: nat,
      read: seq<Byte>, fate: PageFate, end: nat)
    requires off + x <= |src| && Kept(erased, mid, base, off)
    requires PageWritten(mid, now, base + off, src[off..off + x], fate == Done)
    requires |read| == x <= PAGE && off % PAGE == 0 && Holds(now, base + off, read, x)
    ensures Kept(erased, now, base, off + x)
    ensures read == src[off..off + x] && off + x <= SIZE && Holds(mid, base, src, off) ==> Holds(now, base, src, off + x)
    ensures fate == Done && Blank(erased, base, 0, end) && off + x <= end && off + x <= SIZE ==> read == src[off..off + x]
  {
    var data := src[off..off + x];
    ProgramStepKeeps(erased, mid, now, base, off, data, fate == Done);
    if read == data && off + x <= SIZE && Holds(mid, base, src, off) {
      ProgramStepHolds(mid, now, base, src, off, x);
    }
    if fate == Done && Blank(erased, base, 0, end) && off + x <= end && off + x <= SIZE {
      BlankTakes(erased, mid, now, base, data, off, end);
      assert forall k: nat :: k < x ==> read[k] == now[At(base + off, k)];
      assert read == data;
    }
  }

  /** Erasing and then programming changes no cell past both. */
  lemma EraseThenProgram(before: seq<Byte>, erased: seq<Byte>, now: seq<Byte>, base: nat, e: nat, size: nat)
    requires Kept(before, erased, base, e) && Kept(erased, now, base, size)
    ensures Kept(before, now, base, Max(e, size))
    ensures Blank(erased, base, 0, e) ==> Blank(now, base, size, e)
  {
  }

  lemma PageAligned(base: nat, sector: nat)
    requires ValidSector(sector) && base % sector == 0
    ensures base % PAGE == 0
  {
    if sector == 0x1_0000 {
      assert base == base / 0x1_0000 * 0x1_0000;
    } else {
      assert base == base / 0x4_0000 * 0x4_0000;
    }
  }

  lemma PageOffset(base: nat, off: nat)
    requires base % PAGE == 0 && off % PAGE == 0
    ensures (base + off) % PAGE == 0
  {
  }

  lemma AllOnes(b: Byte)
    ensures 0xFF & b == b
  {
  }

  /** A piece is far below the 255 sectors the count can hold. */
  lemma ExtentIsErased(id: nat, len: nat)
    requires len <= PIECE
    ensures Erased(id, len) == Extent(id, len) && (SectorSize(id) != 0 ==> len < Extent(id, len))
  {
    if SectorSize(id) != 0 {
      EraseCountExact(len, SectorSize(id));
    }
  }

  /** Whole pieces are whole sectors. */
  lemma ExtentOfPiece(id: nat, j: nat, len: nat)
    requires SectorSize(id) != 0
    ensures j * PIECE + Extent(id, len) == Extent(id, j * PIECE + len)
    ensures Reach(id, j * PIECE) <= j * PIECE + SectorSize(id) <= j * PIECE + Extent(id, len)
  {
    if SectorSize(id) == 0x1_0000 {
      DivModUnique(j * PIECE + len, 0x1_0000, 16 * j + len / 0x1_0000, len % 0x1_0000);
      DivModUnique(j * PIECE, 0x1_0000, 16 * j, 0);
    } else {
      DivModUnique(j * PIECE + len, 0x4_0000, 4 * j + len / 0x4_0000, len % 0x4_0000);
      DivModUnique(j * PIECE, 0x4_0000, 4 * j, 0);
    }
  }

  /** The sectors for an image stay inside the flash exactly when it is shorter than the flash. */
  lemma ExtentInside(id: nat, size: nat)
    requires SectorSize(id) != 0
    ensures Extent(id, size) <= SIZE <==> size < SIZE
  {
    if SectorSize(id) == 0x1_0000 {
      assert (size / 0x1_0000 + 1) * 0x1_0000 <= SIZE <==> size < SIZE;
    } else {
      assert (size / 0x4_0000 + 1) * 0x4_0000 <= SIZE <==> size < SIZE;
    }
  }

  lemma ReachGrows(before: seq<Byte>, now: seq<Byte>, id: nat, target: nat, a: nat, b: nat)
    requires a <= b && Kept(before, now, target, Reach(id, a))
    ensures Kept(before, now, target, Reach(id, b))
  {
    if SectorSize(id) == 0x1_0000 {
      assert a / 0x1_0000 <= b / 0x1_0000;
    } else if SectorSize(id) == 0x4_0000 {
      assert a / 0x4_0000 <= b / 0x4_0000;
    }
  }

  lemma PieceAligned(id: nat, target: nat, off: nat)
    requires off % PIECE == 0
    ensures Accepts(id, target + off) <==> Accepts(id, target)
  {
    var j := off / PIECE;
    if SectorSize(id) == 0x1_0000 {
      AddMultiple(target, 16 * j, 0x1_0000);
    } else if SectorSize(id) == 0x4_0000 {
      AddMultiple(target, 4 * j, 0x4_0000);
    }
  }

  /** What a piece adds, on the contents of the flash. */
  lemma PieceDone(before: seq<Byte>, mid: seq<Byte>, now: seq<Byte>, id: nat, target: nat, buf: seq<Byte>, off: nat, len: nat)
    requires off % PIECE == 0 && 0 < len <= PIECE && off + len <= |buf| && SectorSize(id) != 0
    requires Kept(before, mid, target, Reach(id, off)) && Kept(mid, now, target + off, Extent(id, len))
    ensures Kept(before, now, target, Reach(id, off + len))
    ensures Holds(now, target + off, buf[off..off + len], len) && Holds(mid, target, buf, off) && off + len < SIZE ==>
              Holds(now, target, buf, off + len)
    ensures Blank(now, target + off, len, Extent(id, len)) && len == PIECE && off + PIECE == SIZE ==>
              Blank(now, target, 0, SectorSize(id))
  {
    ExtentOfPiece(id, off / PIECE, len);
    ExtentIsErased(id, len);
    PieceKeeps(before, mid, now, target, Reach(id, off), off, Extent(id, len));
    if Holds(now, target + off, buf[off..off + len], len) && Holds(mid, target, buf, off) && off + len < SIZE {
      ExtentInside(id, off + len);
      PieceHolds(mid, now, target, buf, off, len, Extent(id, len));
    }
    if Blank(now, target + off, len, Extent(id, len)) && len == PIECE && off + PIECE == SIZE {
      ExtentOfPiece(id, 1, 0);
      WrapsOntoStart(now, target, off, SectorSize(id));
    }
  }

  lemma PieceKeeps(before: seq<Byte>, mid: seq<Byte>, now: seq<Byte>, target: nat, reach: nat, off: nat, e: nat)
    requires Kept(before, mid, target, reach) && Kept(mid, now, target + off, e) && reach <= off + e
    ensures Kept(before, now, target, off + e)
  {
    forall a: nat | a < SIZE && Dist(target, a) >= off + e ensures now[a] == before[a] {
      DistShift(target, off, a);
    }
  }

  lemma PieceHolds(mid: seq<Byte>, now: seq<Byte>, target: nat, buf: seq<Byte>, off: nat, len: nat, e: nat)
    requires off + len <= |buf| && len <= e && off + e <= SIZE
    requires Holds(mid, target, buf, off) && Kept(mid, now, target + off, e)
    requires Holds(now, target + off, buf[off..off + len], len)
    ensures Holds(now, target, buf, off + len)
  {
    forall k: nat | k < off + len ensures now[At(target, k)] == buf[k] {
      if k < off {
        AtDist(target, k, At(target, k));
        DistShift(target, off, At(target, k));
        assert now[At(target, k)] == mid[At(target, k)];
      } else {
        AtShift(target, off, k - off);
        assert now[At(target + off, k - off)] == buf[off..off + len][k - off];
      }
    }
  }

  /** The sector erased past the end of the flash is the first one of the image. */
  lemma WrapsOntoStart(now: seq<Byte>, target: nat, off: nat, sector: nat)
    requires off + PIECE == SIZE && ValidSector(sector) && Blank(now, target + off, PIECE, PIECE + sector)
    ensures Blank(now, target, 0, sector)
  {
    forall a: nat | a < SIZE && Dist(target, a) < sector ensures now[a] == 0xFF {
      DistShift(target, off, a);
    }
  }

  /** A single call stays in front of its base, inside the sectors it means to erase, exactly when those end
      before the flash does; otherwise it also erases the first cell of the flash. */
  lemma StaysAheadExactlyWhenInside(base: nat, sector: nat, count: nat)
    requires ValidSector(sector) && base < SIZE && base % sector == 0 && base > 0
    ensures base + count * sector <= SIZE <==>
            forall a: nat :: a < SIZE && Dist(base, a) < count * sector ==> a >= base
  {
    AheadWhenInside(base, count * sector);
  }

  lemma AheadWhenInside(base: nat, n: nat)
    requires 0 < base < SIZE
    ensures base + n <= SIZE <==> forall a: nat :: a < SIZE && Dist(base, a) < n ==> a >= base
  {
    if base + n > SIZE {
      assert Dist(base, 0) == SIZE - base;
    } else {
      forall a: nat | a < SIZE && Dist(base, a) < n ensures a >= base {
        assert a < base ==> Dist(base, a) == a - base + SIZE;
      }
    }
  }

  /** An image that ends exactly at the end of the flash therefore costs the first sector: its call wraps. */
  lemma ImageAtTheEndErasesSectorZero(id: nat, base: nat, size: nat, now: seq<Byte>)
    requires ValidSector(SectorSize(id)) && 0 < base < SIZE && Accepts(id, base) && base + size == SIZE
    requires size < 255 * SectorSize(id) && Blank(now, base, size, Erased(id, size))
    ensures forall a: nat :: a < SectorSize(id) ==> now[a] == 0xFF
  {
    var sector := SectorSize(id);
    EraseCountExact(size, sector);
    WholeSectors(base, size, sector);
    forall a: nat | a < sector ensures now[a] == 0xFF {
      BaseAtLeastOneSector(base, sector);
      assert Dist(base, a) == a - base + SIZE;
    }
  }

  lemma WholeSectors(base: nat, size: nat, sector: nat)
    requires ValidSector(sector) && base % sector == 0 && base + size == SIZE
    ensures (size / sector + 1) * sector == size + sector
  {
    if sector == 0x1_0000 {
      assert size % 0x1_0000 == 0;
    } else {
      assert size % 0x4_0000 == 0;
    }
  }

  lemma BaseAtLeastOneSector(base: nat, sector: nat)
    requires ValidSector(sector) && base % sector == 0 && base > 0
    ensures base >= sector
  {
  }
}
