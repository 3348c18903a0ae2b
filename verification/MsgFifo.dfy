/** The message FIFO of the XPU channel: variable-length messages in a ring of 32-bit words shared with
    the firmware.  This module is the code that touches the ring, one call at a time; module ApiProtocol
    runs senders, firmware, interrupt handler and invalidation against each other. */
module MsgFifo {
  import opened Arith
  import opened Ring

  type Word32 = w: int | 0 <= w < 0x1_0000_0000 witness 0

  /** sizeof(bm_kapi_header_t) / sizeof(u32) and the word offsets of its fields. */
  const HEADER: nat := 7
  const API_ID: nat := 0
  const API_SIZE: nat := 1
  const API_HANDLE: nat := 2
  const API_SEQ: nat := 4
  const DURATION: nat := 5
  const RESULT: nat := 6

  const BM_API_QUIT: Word32 := 0xFFFF_FFFF

  /** A message as the host writes it; `handle` is the 64-bit file handle. */
  datatype Msg = Msg(id: Word32, handle: nat, seqNo: Word32, payload: seq<Word32>)

  function WordLen(m: Msg): nat {
    HEADER + |m.payload|
  }

  ghost predicate ValidMsg(m: Msg) {
    m.handle < 0x1_0000_0000_0000_0000 && |m.payload| < 0x1_0000_0000
  }

  /** The host leaves the duration and result words to the firmware. */
  predicate HostWord(k: nat) {
    k != DURATION && k != RESULT
  }

  function MsgWord(m: Msg, k: nat): Word32
    requires ValidMsg(m) && k < WordLen(m)
  {
    if k == API_ID then m.id
    else if k == API_SIZE then |m.payload|
    else if k == API_HANDLE then m.handle % 0x1_0000_0000
    else if k == API_HANDLE + 1 then m.handle / 0x1_0000_0000
    else if k == API_SEQ then m.seqNo
    else if k < HEADER then 0
    else m.payload[k - HEADER]
  }

  /** The message is in the ring at `pos`. */
  ghost predicate Laid(n: nat, words: seq<Word32>, pos: nat, m: Msg) {
    && |words| == n && pos < n && ValidMsg(m) && WordLen(m) <= n
    && forall k: nat :: k < WordLen(m) && HostWord(k) ==>
         Wrap(n, pos, k) < n && words[Wrap(n, pos, k)] == MsgWord(m, k)
  }

  /** The ring after the host wrote `m` at `pos`. */
  ghost function PutMsg(words: seq<Word32>, pos: nat, m: Msg): (r: seq<Word32>)
    requires pos < |words| && ValidMsg(m) && WordLen(m) <= |words|
    ensures |r| == |words|
  {
    seq(|words|, j requires 0 <= j < |words| =>
      var k := Ahead(|words|, pos, j);
      if k < WordLen(m) && HostWord(k) then MsgWord(m, k) else words[j])
  }

  /** What was written can be read back, field by field and argument by argument, and no other word of the ring
      changes; the words of duration and result do not either. */
  lemma PutMsgLays(words: seq<Word32>, pos: nat, m: Msg)
    requires pos < |words| && ValidMsg(m) && WordLen(m) <= |words|
    ensures Laid(|words|, PutMsg(words, pos, m), pos, m)
    ensures ReadsAs(|words|, PutMsg(words, pos, m), pos, m)
    ensures forall j: nat :: j < |words| && Ahead(|words|, pos, j) >= WordLen(m) ==> PutMsg(words, pos, m)[j] == words[j]
    ensures var n, r := |words|, PutMsg(words, pos, m);
            && Wrap(n, pos, DURATION) < n && Wrap(n, pos, RESULT) < n
            && r[Wrap(n, pos, DURATION)] == words[Wrap(n, pos, DURATION)]
            && r[Wrap(n, pos, RESULT)] == words[Wrap(n, pos, RESULT)]
  {
    LaidReadsAs(|words|, PutMsg(words, pos, m), pos, m);
  }

  /** bmdev_msgfifo_add_pointer: one conditional subtraction.  It is addition modulo the ring size for every
      step that is no longer than the ring. */
  function AddPointer(n: nat, cur: nat, val: nat): nat {
    if cur + val >= n then cur + val - n else cur + val
  }

  lemma AddPointerIsModular(n: nat, cur: nat, val: nat)
    requires cur < n
    ensures AddPointer(n, cur, val) == (cur + val) % n <==> cur + val < 2 * n
    ensures AddPointer(n, cur, val) == Wrap(n, cur, val)
  {
    if cur + val < 2 * n {
      DivModUnique(cur + val, n, if cur + val < n then 0 else 1, AddPointer(n, cur, val));
    }
  }

  /** `sizes` lists the ring words the messages take up. */
  ghost predicate Sized(msgs: seq<Msg>, sizes: seq<nat>) {
    |sizes| == |msgs| && forall i :: 0 <= i < |msgs| ==> ValidMsg(msgs[i]) && sizes[i] == WordLen(msgs[i])
  }

  /** The messages from number `from` on are in the ring, one after the other. */
  ghost predicate AllLaid(n: nat, words: seq<Word32>, msgs: seq<Msg>, sizes: seq<nat>, from: nat)
    requires |sizes| == |msgs|
  {
    forall i: nat :: from <= i < |msgs| ==> Laid(n, words, Pos(n, sizes, i), msgs[i])
  }

  function JoinHandle(low: Word32, high: Word32): nat {
    low + high * 0x1_0000_0000
  }

  /** What the firmware reads where a message of payload `m.payload` is to be: number, size, handle and sequence
      number in their fields, and the arguments behind the header, in order. */
  ghost predicate ReadsAs(n: nat, words: seq<Word32>, pos: nat, m: Msg) {
    && |words| == n && pos < n && WordLen(m) <= n
    && (forall k: nat :: k < WordLen(m) ==> Wrap(n, pos, k) < n)
    && words[Wrap(n, pos, API_ID)] == m.id && words[Wrap(n, pos, API_SIZE)] == |m.payload|
    && JoinHandle(words[Wrap(n, pos, API_HANDLE)], words[Wrap(n, pos, API_HANDLE + 1)]) == m.handle
    && words[Wrap(n, pos, API_SEQ)] == m.seqNo
    && forall k: nat :: k < |m.payload| ==> words[Wrap(n, pos, HEADER + k)] == m.payload[k]
  }

  /** Every field and every argument of a message in the ring reads back as written. */
  lemma LaidReadsAs(n: nat, words: seq<Word32>, pos: nat, m: Msg)
    requires Laid(n, words, pos, m)
    ensures ReadsAs(n, words, pos, m)
  {
    FieldsRead(n, words, pos, m);
    assert HostWord(API_ID) && HostWord(API_SEQ);
    assert words[Wrap(n, pos, API_ID)] == MsgWord(m, API_ID);
    assert words[Wrap(n, pos, API_SEQ)] == MsgWord(m, API_SEQ);
    forall k: nat | k < |m.payload| ensures words[Wrap(n, pos, HEADER + k)] == m.payload[k] {
      assert HostWord(HEADER + k) && words[Wrap(n, pos, HEADER + k)] == MsgWord(m, HEADER + k);
    }
  }

  /** The size and handle fields of a message in the ring read back as written. */
  lemma FieldsRead(n: nat, words: seq<Word32>, pos: nat, m: Msg)
    requires Laid(n, words, pos, m)
    ensures Wrap(n, pos, API_SIZE) < n && words[Wrap(n, pos, API_SIZE)] == |m.payload|
    ensures Wrap(n, pos, API_HANDLE) < n && Wrap(n, pos, API_HANDLE + 1) < n
    ensures JoinHandle(words[Wrap(n, pos, API_HANDLE)], words[Wrap(n, pos, API_HANDLE + 1)]) == m.handle
  {
    assert HostWord(API_SIZE) && HostWord(API_HANDLE) && HostWord(API_HANDLE + 1);
    assert words[Wrap(n, pos, API_SIZE)] == MsgWord(m, API_SIZE);
    assert words[Wrap(n, pos, API_HANDLE)] == MsgWord(m, API_HANDLE);
    assert words[Wrap(n, pos, API_HANDLE + 1)] == MsgWord(m, API_HANDLE + 1);
  }

  class Channel {
    const shmem: array<Word32>
    var wp: nat     // GP_REG_MESSAGE_WP_CHANNEL_XPU
    var rp: nat     // GP_REG_MESSAGE_RP_CHANNEL_XPU, advanced by the firmware
    var swRp: nat   // sw_rp, advanced when a message is retired

    predicate Valid()
      reads this
    {
      HEADER < shmem.Length < 0x1_0000_0000 && wp < shmem.Length && rp < shmem.Length && swRp < shmem.Length
    }

    constructor (words: nat)
      requires HEADER < words < 0x1_0000_0000
      ensures Valid() && shmem.Length == words && wp == rp == swRp == 0 && fresh(shmem)
    {
      shmem := new Word32[words](_ => 0);
      wp, rp, swRp := 0, 0, 0;
    }

    /** bmdev_msgfifo_get_free_slots: one word always stays free, so a full ring never looks empty. */
    method GetFreeSlots() returns (free: nat)
      requires Valid()
      ensures free == shmem.Length - Used(shmem.Length, wp, swRp) - 1
    {
      if wp >= swRp {
        free := shmem.Length - (wp - swRp) - 1;
      } else {
        free := swRp - wp - 1;
      }
    }

    /** The header words of bmdev_copy_to_msgfifo. */
    method WriteHeader(m: Msg)
      requires Valid() && ValidMsg(m) && WordLen(m) <= shmem.Length
      modifies shmem
      ensures Valid() && Partial(old(shmem[..]), shmem[..], wp, m, HEADER)
    {
      var n := shmem.Length;
      shmem[wp] := m.id;
      shmem[AddPointer(n, wp, API_SIZE)] := |m.payload|;
      var at := AddPointer(n, wp, API_HANDLE);
      shmem[at] := m.handle % 0x1_0000_0000;
      at := AddPointer(n, at, 1);
      shmem[at] := m.handle / 0x1_0000_0000;
      shmem[AddPointer(n, wp, API_SEQ)] := m.seqNo;
    }

    /** bmdev_copy_to_msgfifo on the XPU channel: header words, payload, then the write pointer; a quit
        message is left unpublished after its header. */
    method CopyToMsgFifo(m: Msg)
      requires Valid() && ValidMsg(m) && WordLen(m) <= shmem.Length
      modifies this`wp, shmem
      ensures Valid()
      ensures m.id != BM_API_QUIT ==>
                && shmem[..] == PutMsg(old(shmem[..]), old(wp), m)
                && ReadsAs(shmem.Length, shmem[..], old(wp), m)
                && wp == AddPointer(shmem.Length, old(wp), WordLen(m))
      ensures m.id == BM_API_QUIT ==> wp == old(wp) && Partial(old(shmem[..]), shmem[..], wp, m, HEADER)
    {
      ghost var before := shmem[..];
      var n := shmem.Length;
      WriteHeader(m);
      if m.id == BM_API_QUIT {
        return;
      }
      var idx := 0;
      while idx < |m.payload|
        invariant 0 <= idx <= |m.payload| && wp == old(wp)
        invariant Partial(before, shmem[..], wp, m, HEADER + idx)
      {
        shmem[AddPointer(n, wp, HEADER + idx)] := m.payload[idx];
        PartialStep(before, shmem[..], wp, m, HEADER + idx);
        idx := idx + 1;
      }
      assert shmem[..] == PutMsg(before, wp, m);
      PutMsgLays(before, wp, m);
      wp := AddPointer(n, wp, WordLen(m));
    }

    /** The first `count` words of the message are written, the rest of the ring is as before. */
    static ghost predicate Partial(before: seq<Word32>, now: seq<Word32>, pos: nat, m: Msg, count: nat)
      requires pos < |before| && ValidMsg(m) && count <= WordLen(m) <= |before|
    {
      && |now| == |before|
      && forall j: nat :: j < |before| ==>
           var k := Ahead(|before|, pos, j);
           now[j] == if k < count && HostWord(k) then MsgWord(m, k) else before[j]
    }

    static lemma PartialStep(before: seq<Word32>, now: seq<Word32>, pos: nat, m: Msg, count: nat)
      requires pos < |before| && ValidMsg(m) && HEADER <= count < WordLen(m) <= |before|
      requires AddPointer(|before|, pos, count) < |now| == |before|
      requires now[AddPointer(|before|, pos, count)] == MsgWord(m, count)
      requires forall j: nat :: j < |before| && j != AddPointer(|before|, pos, count) ==>
                 var k := Ahead(|before|, pos, j);
                 now[j] == if k < count && HostWord(k) then MsgWord(m, k) else before[j]
      ensures Partial(before, now, pos, m, count + 1)
    {
    }

    /** The ring part of bmdrv_post_api_process: retire the message at sw_rp, whose size is read from the
        ring. */
    method RetireAtSwRp(ghost m: Msg) returns (id: Word32, duration: Word32, result: Word32)
      requires Valid() && Laid(shmem.Length, shmem[..], swRp, m)
      modifies this`swRp
      ensures Valid()
      ensures swRp == AddPointer(shmem.Length, old(swRp), WordLen(m)) && id == m.id
      ensures duration == shmem[Wrap(shmem.Length, old(swRp), DURATION)]
      ensures result == shmem[Wrap(shmem.Length, old(swRp), RESULT)]
    {
      var n := shmem.Length;
      assert HostWord(API_ID) && HostWord(API_SIZE);
      assert shmem[..][Wrap(n, swRp, API_ID)] == MsgWord(m, API_ID);
      assert shmem[..][Wrap(n, swRp, API_SIZE)] == MsgWord(m, API_SIZE);
      id := shmem[AddPointer(n, swRp, API_ID)];
      var size := shmem[AddPointer(n, swRp, API_SIZE)];
      duration := shmem[AddPointer(n, swRp, DURATION)];
      result := shmem[AddPointer(n, swRp, RESULT)];
      swRp := AddPointer(n, swRp, HEADER + size);
    }

    /** The handle words of the messages of `file` between number `first` and number `upto` are zero; the
        other words of the messages are as before. */
    static ghost predicate Blanked(n: nat, before: seq<Word32>, now: seq<Word32>, msgs: seq<Msg>, sizes: seq<nat>,
        first: nat, upto: nat, file: nat)
      requires |before| == |now| == n && |sizes| == |msgs|
    {
      forall i: nat, k: nat {:trigger Wrap(n, Pos(n, sizes, i), k)} :: first <= i < |msgs| && k < sizes[i] ==>
        && Wrap(n, Pos(n, sizes, i), k) < n
        && now[Wrap(n, Pos(n, sizes, i), k)]
           == if i < upto && msgs[i].handle == file && (k == API_HANDLE || k == API_HANDLE + 1) then 0
              else before[Wrap(n, Pos(n, sizes, i), k)]
    }

    /** Words that belong to none of the messages are as before. */
    static ghost predicate RestKept(n: nat, before: seq<Word32>, now: seq<Word32>, sizes: seq<nat>, first: nat)
      requires |before| == |now| == n && first <= |sizes| && Pos(n, sizes, first) < n
    {
      forall j: nat :: j < n && Ahead(n, Pos(n, sizes, first), j) >= Off(sizes, |sizes|) - Off(sizes, first) ==>
        now[j] == before[j]
    }

    static ghost predicate Cleared(n: nat, before: seq<Word32>, now: seq<Word32>, msgs: seq<Msg>, sizes: seq<nat>,
        first: nat, upto: nat, file: nat)
      requires |before| == n && |sizes| == |msgs| && first <= upto <= |msgs| && Pos(n, sizes, first) < n
    {
      && |now| == n
      && Blanked(n, before, now, msgs, sizes, first, upto, file)
      && RestKept(n, before, now, sizes, first)
    }

    static lemma ClearedStart(n: nat, before: seq<Word32>, msgs: seq<Msg>, sizes: seq<nat>, first: nat, file: nat)
      requires |before| == n && |sizes| == |msgs| && first <= |msgs| && Small(n, sizes)
      ensures Pos(n, sizes, first) < n && Cleared(n, before, before, msgs, sizes, first, first, file)
    {
      PosInRange(n, sizes, first);
      forall i: nat, k: nat {:trigger Wrap(n, Pos(n, sizes, i), k)} | first <= i < |msgs| && k < sizes[i]
        ensures Wrap(n, Pos(n, sizes, i), k) < n
      {
        PosInRange(n, sizes, i);
      }
    }

    /** Cells of a record are closer to the first record than the records are long. */
    static lemma InsideRecords(n: nat, sizes: seq<nat>, first: nat, i: nat, k: nat)
      requires Small(n, sizes) && first <= i < |sizes| && k < sizes[i]
      requires Off(sizes, |sizes|) - Off(sizes, first) < n
      ensures Pos(n, sizes, first) < n && Pos(n, sizes, i) < n && Wrap(n, Pos(n, sizes, i), k) < n
      ensures Ahead(n, Pos(n, sizes, first), Wrap(n, Pos(n, sizes, i), k)) < Off(sizes, |sizes|) - Off(sizes, first)
    {
      OffMonotone(sizes, first, i);
      OffMonotone(sizes, i + 1, |sizes|);
      Distance(n, sizes, first, i);
    }

    static lemma TwoZeroed(n: nat, words: seq<Word32>, sizes: seq<nat>, first: nat, i: nat, j: nat, k: nat)
      requires |words| == n && Small(n, sizes) && first <= i < |sizes| && first <= j < |sizes|
      requires Off(sizes, |sizes|) - Off(sizes, first) < n && HEADER <= sizes[i] && k < sizes[j]
      ensures Pos(n, sizes, i) < n && Pos(n, sizes, j) < n && Wrap(n, Pos(n, sizes, j), k) < n
      ensures Wrap(n, Pos(n, sizes, i), API_HANDLE) < n && Wrap(n, Pos(n, sizes, i), API_HANDLE + 1) < n
      ensures words[Wrap(n, Pos(n, sizes, i), API_HANDLE) := 0][Wrap(n, Pos(n, sizes, i), API_HANDLE + 1) := 0]
                   [Wrap(n, Pos(n, sizes, j), k)]
              == if j == i && (k == API_HANDLE || k == API_HANDLE + 1) then 0 else words[Wrap(n, Pos(n, sizes, j), k)]
    {
      PosInRange(n, sizes, i);
      PosInRange(n, sizes, j);
      if j != i || k != API_HANDLE {
        CellsDistinct(n, sizes, first, j, k, i, API_HANDLE);
      }
      if j != i || k != API_HANDLE + 1 {
        CellsDistinct(n, sizes, first, j, k, i, API_HANDLE + 1);
      }
    }

    static lemma BlankedStep(n: nat, before: seq<Word32>, now: seq<Word32>, msgs: seq<Msg>, sizes: seq<nat>, first: nat,
        i: nat, file: nat)
      requires HEADER < n == |before| == |now| && Sized(msgs, sizes) && Small(n, sizes) && first <= i < |msgs|
      requires Off(sizes, |sizes|) - Off(sizes, first) < n && msgs[i].handle == file
      requires Blanked(n, before, now, msgs, sizes, first, i, file)
      ensures Wrap(n, Pos(n, sizes, i), API_HANDLE) < n && Wrap(n, Pos(n, sizes, i), API_HANDLE + 1) < n
      ensures Blanked(n, before,
                      now[Wrap(n, Pos(n, sizes, i), API_HANDLE) := 0][Wrap(n, Pos(n, sizes, i), API_HANDLE + 1) := 0],
                      msgs, sizes, first, i + 1, file)
    {
      TwoZeroed(n, now, sizes, first, i, i, 0);
      var now' := now[Wrap(n, Pos(n, sizes, i), API_HANDLE) := 0][Wrap(n, Pos(n, sizes, i), API_HANDLE + 1) := 0];
      forall j: nat, k: nat {:trigger Wrap(n, Pos(n, sizes, j), k)} | first <= j < |msgs| && k < sizes[j]
        ensures Wrap(n, Pos(n, sizes, j), k) < n
        ensures now'[Wrap(n, Pos(n, sizes, j), k)]
                == if j < i + 1 && msgs[j].handle == file && (k == API_HANDLE || k == API_HANDLE + 1) then 0
                   else before[Wrap(n, Pos(n, sizes, j), k)]
      {
        TwoZeroed(n, now, sizes, first, i, j, k);
      }
    }

    static lemma RestKeptStep(n: nat, before: seq<Word32>, now: seq<Word32>, sizes: seq<nat>, first: nat, i: nat)
      requires |before| == |now| == n && Small(n, sizes) && first <= i < |sizes| && HEADER <= sizes[i]
      requires Off(sizes, |sizes|) - Off(sizes, first) < n && Pos(n, sizes, first) < n
      requires RestKept(n, before, now, sizes, first)
      ensures Wrap(n, Pos(n, sizes, i), API_HANDLE) < n && Wrap(n, Pos(n, sizes, i), API_HANDLE + 1) < n
      ensures RestKept(n, before,
                       now[Wrap(n, Pos(n, sizes, i), API_HANDLE) := 0][Wrap(n, Pos(n, sizes, i), API_HANDLE + 1) := 0],
                       sizes, first)
    {
      InsideRecords(n, sizes, first, i, API_HANDLE);
      InsideRecords(n, sizes, first, i, API_HANDLE + 1);
    }

    static lemma NotBlanked(n: nat, before: seq<Word32>, now: seq<Word32>, msgs: seq<Msg>, sizes: seq<nat>, first: nat,
        i: nat, file: nat)
      requires |before| == |now| == n && |sizes| == |msgs| && i < |msgs| && msgs[i].handle != file
      requires Blanked(n, before, now, msgs, sizes, first, i, file)
      ensures Blanked(n, before, now, msgs, sizes, first, i + 1, file)
    {
    }

    /** A message not yet visited still reads as it was sent. */
    static lemma ClearedKeeps(n: nat, before: seq<Word32>, now: seq<Word32>, msgs: seq<Msg>, sizes: seq<nat>, first: nat,
        i: nat, file: nat)
      requires |before| == n && Sized(msgs, sizes) && first <= i < |msgs| && Pos(n, sizes, first) < n
      requires Cleared(n, before, now, msgs, sizes, first, i, file)
      requires Laid(n, before, Pos(n, sizes, i), msgs[i])
      ensures Laid(n, now, Pos(n, sizes, i), msgs[i])
    {
    }

    /** One round of the walk. */
    method InvalidateAt(curRp: nat, file: nat, ghost before: seq<Word32>, ghost msgs: seq<Msg>, ghost sizes: seq<nat>,
        ghost first: nat, ghost i: nat) returns (next: nat)
      requires Valid() && Sized(msgs, sizes) && Small(shmem.Length, sizes) && first <= i < |msgs|
      requires Off(sizes, |msgs|) - Off(sizes, first) < shmem.Length == |before| && Pos(shmem.Length, sizes, first) < shmem.Length
      requires curRp == Pos(shmem.Length, sizes, i) < shmem.Length && Laid(shmem.Length, shmem[..], curRp, msgs[i])
      requires Cleared(shmem.Length, before, shmem[..], msgs, sizes, first, i, file)
      modifies shmem
      ensures Cleared(shmem.Length, before, shmem[..], msgs, sizes, first, i + 1, file)
      ensures next == Pos(shmem.Length, sizes, i + 1)
    {
      var n := shmem.Length;
      FieldsRead(n, shmem[..], curRp, msgs[i]);
      var size := shmem[AddPointer(n, curRp, API_SIZE)];
      var low := AddPointer(n, curRp, API_HANDLE);
      var high := AddPointer(n, curRp, API_HANDLE + 1);
      if JoinHandle(shmem[low], shmem[high]) == file {
        BlankedStep(n, before, shmem[..], msgs, sizes, first, i, file);
        RestKeptStep(n, before, shmem[..], sizes, first, i);
        shmem[low] := 0;
        shmem[high] := 0;
      } else {
        NotBlanked(n, before, shmem[..], msgs, sizes, first, i, file);
      }
      next := AddPointer(n, curRp, HEADER + size);
    }

    static lemma WalkEnds(n: nat, sizes: seq<nat>, first: nat, i: nat)
      requires Small(n, sizes) && first <= i <= |sizes| && Off(sizes, |sizes|) - Off(sizes, first) < n
      ensures Pos(n, sizes, i) < n && (Pos(n, sizes, i) == Pos(n, sizes, |sizes|) <==> i == |sizes|)
    {
      OffMonotone(sizes, first, i);
      Distance(n, sizes, i, |sizes|);
    }

    /** bmdev_invalidate_pending_apis: walk from the hardware read pointer and blank the handle of every
        message of the closing file.  The walk ends because it lands exactly on the write pointer. */
    method InvalidatePendingApis(file: nat, ghost msgs: seq<Msg>, ghost sizes: seq<nat>, ghost first: nat)
      requires Valid() && Sized(msgs, sizes) && Small(shmem.Length, sizes) && first <= |msgs|
      requires Off(sizes, |msgs|) - Off(sizes, first) < shmem.Length
      requires rp == Pos(shmem.Length, sizes, first) && wp == Pos(shmem.Length, sizes, |msgs|)
      requires AllLaid(shmem.Length, shmem[..], msgs, sizes, first)
      modifies shmem
      ensures Valid()
      ensures Cleared(shmem.Length, old(shmem[..]), shmem[..], msgs, sizes, first, |msgs|, file)
    {
      var n := shmem.Length;
      ghost var before := shmem[..];
      var curRp := rp;
      ghost var i := first;
      ClearedStart(n, before, msgs, sizes, first, file);
      WalkEnds(n, sizes, first, i);
      while curRp != wp
        invariant first <= i <= |msgs| && curRp == Pos(n, sizes, i) < n
        invariant curRp == wp <==> i == |msgs|
        invariant Cleared(n, before, shmem[..], msgs, sizes, first, i, file)
        decreases |msgs| - i
      {
        ClearedKeeps(n, before, shmem[..], msgs, sizes, first, i, file);
        curRp := InvalidateAt(curRp, file, before, msgs, sizes, first, i);
        i := i + 1;
        WalkEnds(n, sizes, first, i);
      }
    }
  }
}
