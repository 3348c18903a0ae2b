/** The kfifo that runs in lockstep with the XPU message ring: one entry per message, with device-sync
    markers in between, and the interrupt handler that takes entries out of it. */
module ApiQueue {
  import opened Ring
  import opened MsgFifo

  /** A thread of one open file: the handle is the file, the pid the thread's. */
  datatype Thread = Thread(handle: nat, pid: nat)

  datatype Id = Id(thr: Thread, seqNo: nat)

  datatype Entry = Api(id: Id) | Marker(number: nat)

  /** Sequence numbers of threads and handles; a fresh record starts at 0. */
  function Lookup<K>(m: map<K, int>, key: K): int {
    if key in m then m[key] else 0
  }

  function Apis(fifo: seq<Entry>): seq<Id> {
    if fifo == [] then []
    else if fifo[0].Api? then [fifo[0].id] + Apis(fifo[1..])
    else Apis(fifo[1..])
  }

  /** The fifo holds APIs number `r` onwards and markers number `d + 1` onwards, in the order they were
      queued: marker m + 1 stands behind exactly `marks[m]` APIs. */
  ghost predicate Lined(fifo: seq<Entry>, ids: seq<Id>, marks: seq<nat>, r: nat, d: nat)
    decreases |fifo|
  {
    if fifo == [] then r == |ids| && d == |marks|
    else match fifo[0]
      case Api(id) => r < |ids| && ids[r] == id && Lined(fifo[1..], ids, marks, r + 1, d)
      case Marker(number) => d < |marks| && number == d + 1 && marks[d] == r && Lined(fifo[1..], ids, marks, r, d + 1)
  }

  lemma {:induction false} LinedApis(fifo: seq<Entry>, ids: seq<Id>, marks: seq<nat>, r: nat, d: nat)
    requires Lined(fifo, ids, marks, r, d)
    ensures r <= |ids| && d <= |marks| && Apis(fifo) == ids[r..]
    decreases |fifo|
  {
    if fifo != [] {
      match fifo[0]
      case Api(id) => LinedApis(fifo[1..], ids, marks, r + 1, d);
      case Marker(_) => LinedApis(fifo[1..], ids, marks, r, d + 1);
    }
  }

  lemma NotEmpty(fifo: seq<Entry>, ids: seq<Id>, marks: seq<nat>, r: nat, d: nat)
    requires Lined(fifo, ids, marks, r, d) && r < |ids|
    ensures fifo != []
  {
  }

  lemma {:induction false} QueueApi(fifo: seq<Entry>, ids: seq<Id>, marks: seq<nat>, r: nat, d: nat, id: Id)
    requires Lined(fifo, ids, marks, r, d)
    ensures Lined(fifo + [Api(id)], ids + [id], marks, r, d)
    decreases |fifo|
  {
    if fifo == [] {
      assert fifo + [Api(id)] == [Api(id)];
    } else {
      assert (fifo + [Api(id)])[1..] == fifo[1..] + [Api(id)];
      match fifo[0]
      case Api(_) => QueueApi(fifo[1..], ids, marks, r + 1, d, id);
      case Marker(_) => QueueApi(fifo[1..], ids, marks, r, d + 1, id);
    }
  }

  lemma {:induction false} QueueMarker(fifo: seq<Entry>, ids: seq<Id>, marks: seq<nat>, r: nat, d: nat)
    requires Lined(fifo, ids, marks, r, d)
    ensures Lined(fifo + [Marker(|marks| + 1)], ids, marks + [|ids|], r, d)
    decreases |fifo|
  {
    if fifo == [] {
      assert fifo + [Marker(|marks| + 1)] == [Marker(|marks| + 1)];
    } else {
      assert (fifo + [Marker(|marks| + 1)])[1..] == fifo[1..] + [Marker(|marks| + 1)];
      match fifo[0]
      case Api(_) => QueueMarker(fifo[1..], ids, marks, r + 1, d);
      case Marker(_) => QueueMarker(fifo[1..], ids, marks, r, d + 1);
    }
  }

  /** The thread counters after `count` APIs from number `from` on completed in order; entries of closed
      files count for nobody. */
  function Completed(cpl: map<Thread, int>, ids: seq<Id>, from: nat, count: nat, open: set<nat>): map<Thread, int>
    requires from + count <= |ids|
  {
    if count == 0 then cpl
    else
      var id := ids[from + count - 1];
      var c := Completed(cpl, ids, from, count - 1, open);
      if id.thr.handle in open then c[id.thr := id.seqNo] else c
  }

  function CompletedHandles(hCpl: map<nat, int>, ids: seq<Id>, from: nat, count: nat, open: set<nat>): map<nat, int>
    requires from + count <= |ids|
  {
    if count == 0 then hCpl
    else
      var id := ids[from + count - 1];
      var c := CompletedHandles(hCpl, ids, from, count - 1, open);
      if id.thr.handle in open then c[id.thr.handle := id.seqNo] else c
  }

  /** A thread's counter is the number of its last completed API while its file is open, and otherwise
      unchanged. */
  lemma {:induction false} CompletedIsLast(cpl: map<Thread, int>, ids: seq<Id>, from: nat, count: nat, open: set<nat>,
      thr: Thread)
    requires from + count <= |ids|
    ensures (exists k :: from <= k < from + count && ids[k].thr == thr && thr.handle in open)
            || Lookup(Completed(cpl, ids, from, count, open), thr) == Lookup(cpl, thr)
    ensures forall k :: from <= k < from + count && ids[k].thr == thr && thr.handle in open
                        && (forall j :: k < j < from + count ==> ids[j].thr != thr) ==>
              Lookup(Completed(cpl, ids, from, count, open), thr) == ids[k].seqNo
  {
    if count > 0 {
      CompletedIsLast(cpl, ids, from, count - 1, open, thr);
      var last := ids[from + count - 1];
      assert Lookup(Completed(cpl, ids, from, count, open), thr)
             == if last.thr == thr && thr.handle in open then last.seqNo
                else Lookup(Completed(cpl, ids, from, count - 1, open), thr);
    }
  }

  /** The same for a handle, with the APIs of all its threads. */
  lemma {:induction false} CompletedHandlesIsLast(hCpl: map<nat, int>, ids: seq<Id>, from: nat, count: nat, open: set<nat>,
      handle: nat)
    requires from + count <= |ids|
    ensures (exists k :: from <= k < from + count && ids[k].thr.handle == handle && handle in open)
            || Lookup(CompletedHandles(hCpl, ids, from, count, open), handle) == Lookup(hCpl, handle)
    ensures forall k :: from <= k < from + count && ids[k].thr.handle == handle && handle in open
                        && (forall j :: k < j < from + count ==> ids[j].thr.handle != handle) ==>
              Lookup(CompletedHandles(hCpl, ids, from, count, open), handle) == ids[k].seqNo
  {
    if count > 0 {
      CompletedHandlesIsLast(hCpl, ids, from, count - 1, open, handle);
      var last := ids[from + count - 1];
      assert Lookup(CompletedHandles(hCpl, ids, from, count, open), handle)
             == if last.thr.handle == handle && handle in open then last.seqNo
                else Lookup(CompletedHandles(hCpl, ids, from, count - 1, open), handle);
    }
  }

  /** The host side of the XPU channel as the interrupt handler sees it. */
  class Completion {
    const chan: Channel
    var fifo: seq<Entry>
    var deviceCpl: nat
    var cpl: map<Thread, int>
    var hCpl: map<nat, int>

    constructor (c: Channel)
      ensures chan == c && fifo == [] && deviceCpl == 0 && cpl == map[] && hCpl == map[]
    {
      chan, fifo, deviceCpl, cpl, hCpl := c, [], 0, map[], map[];
    }

    /** One API entry: the counters of its thread and handle, then bmdrv_post_api_process. */
    method Retire(id: Id, open: set<nat>, ghost m: Msg)
      requires chan.Valid() && Laid(chan.shmem.Length, chan.shmem[..], chan.swRp, m)
      modifies this`cpl, this`hCpl, chan`swRp
      ensures chan.swRp == Wrap(chan.shmem.Length, old(chan.swRp), WordLen(m)) < chan.shmem.Length
      ensures cpl == if id.thr.handle in open then old(cpl)[id.thr := id.seqNo] else old(cpl)
      ensures hCpl == if id.thr.handle in open then old(hCpl)[id.thr.handle := id.seqNo] else old(hCpl)
    {
      if id.thr.handle in open {
        cpl := cpl[id.thr := id.seqNo];
        hCpl := hCpl[id.thr.handle := id.seqNo];
      }
      var _, _, _ := chan.RetireAtSwRp(m);
    }

    /** One round of the handler's first loop. */
    method PopEntry(open: set<nat>, ghost ids: seq<Id>, ghost marks: seq<nat>, ghost r: nat, ghost m: Msg)
      returns (api: bool)
      requires chan.Valid() && Laid(chan.shmem.Length, chan.shmem[..], chan.swRp, m)
      requires fifo != [] && r < |ids| && Lined(fifo, ids, marks, r, deviceCpl)
      modifies this, chan`swRp
      ensures fifo == old(fifo)[1..] && api == old(fifo)[0].Api?
      ensures Lined(fifo, ids, marks, if api then r + 1 else r, deviceCpl)
      ensures api ==> chan.swRp == Wrap(chan.shmem.Length, old(chan.swRp), WordLen(m)) < chan.shmem.Length
      ensures !api ==> chan.swRp == old(chan.swRp)
      ensures cpl == if api && ids[r].thr.handle in open then old(cpl)[ids[r].thr := ids[r].seqNo] else old(cpl)
      ensures hCpl == if api && ids[r].thr.handle in open then old(hCpl)[ids[r].thr.handle := ids[r].seqNo] else old(hCpl)
    {
      var entry := fifo[0];
      fifo := fifo[1..];
      match entry
      case Marker(number) =>
        deviceCpl := number;
        api := false;
      case Api(id) =>
        Retire(id, open, m);
        api := true;
    }

    /** What the handler has done after retiring `k` messages from number `r` on. */
    ghost predicate Progress(c0: map<Thread, int>, h0: map<nat, int>, open: set<nat>, ids: seq<Id>, marks: seq<nat>,
        sizes: seq<nat>, r: nat, k: nat)
      requires r + k <= |ids| && r + k <= |sizes|
      reads this, chan
    {
      && chan.swRp == Pos(chan.shmem.Length, sizes, r + k) < chan.shmem.Length
      && Lined(fifo, ids, marks, r + k, deviceCpl)
      && cpl == Completed(c0, ids, r, k, open) && hCpl == CompletedHandles(h0, ids, r, k, open)
    }

    method Round(open: set<nat>, ghost ids: seq<Id>, ghost marks: seq<nat>, ghost m: Msg, ghost sizes: seq<nat>,
        ghost r: nat, ghost k: nat, ghost c0: map<Thread, int>, ghost h0: map<nat, int>)
      returns (api: bool)
      requires chan.Valid() && Laid(chan.shmem.Length, chan.shmem[..], chan.swRp, m)
      requires r + k < |sizes| <= |ids| && sizes[r + k] == WordLen(m)
      requires Progress(c0, h0, open, ids, marks, sizes, r, k) && fifo != []
      modifies this, chan`swRp
      ensures |fifo| < |old(fifo)|
      ensures Progress(c0, h0, open, ids, marks, sizes, r, if api then k + 1 else k)
    {
      api := PopEntry(open, ids, marks, r + k, m);
    }

    /** The first loop of bmdrv_msg_irq_handler.  Markers do not count against `pending`. */
    method RetirePending(pending: nat, open: set<nat>, ghost ids: seq<Id>, ghost marks: seq<nat>,
        ghost msgs: seq<Msg>, ghost sizes: seq<nat>, ghost r: nat)
      requires chan.Valid() && Sized(msgs, sizes)
      requires r + pending <= |msgs| <= |ids| && chan.swRp == Pos(chan.shmem.Length, sizes, r)
      requires AllLaid(chan.shmem.Length, chan.shmem[..], msgs, sizes, r)
      requires Lined(fifo, ids, marks, r, deviceCpl)
      modifies this, chan`swRp
      ensures Progress(old(cpl), old(hCpl), open, ids, marks, sizes, r, pending)
    {
      var left := pending;
      ghost var k := 0;
      ghost var c0, h0 := cpl, hCpl;
      while left > 0
        invariant k + left == pending
        invariant Progress(c0, h0, open, ids, marks, sizes, r, k)
        decreases |fifo|
      {
        NotEmpty(fifo, ids, marks, r + k, deviceCpl);
        if fifo == [] {
          // the dequeue comes up short: never, while a message is pending
          break;
        }
        var api := Round(open, ids, marks, msgs[r + k], sizes, r, k, c0, h0);
        if api {
          k := k + 1;
          left := left - 1;
        }
      }
    }

    /** The closing loop of bmdrv_msg_irq_handler: markers at the head go, APIs stay. */
    method DrainMarkers(ghost ids: seq<Id>, ghost marks: seq<nat>, ghost r: nat)
      requires Lined(fifo, ids, marks, r, deviceCpl)
      modifies this`fifo, this`deviceCpl
      ensures Lined(fifo, ids, marks, r, deviceCpl)
      ensures fifo == [] || fifo[0].Api?
    {
      while fifo != [] && fifo[0].Marker?
        invariant Lined(fifo, ids, marks, r, deviceCpl)
        decreases |fifo|
      {
        deviceCpl := fifo[0].number;
        fifo := fifo[1..];
      }
    }

    /** bmdrv_msg_irq_handler on the XPU channel: exactly the next `pending` messages are retired, with the
        markers they free; no marker is left at the head. */
    method MsgIrqHandler(pending: nat, open: set<nat>, ghost ids: seq<Id>, ghost marks: seq<nat>,
        ghost msgs: seq<Msg>, ghost sizes: seq<nat>, ghost r: nat)
      requires chan.Valid() && Sized(msgs, sizes) && Small(chan.shmem.Length, sizes)
      requires r + pending <= |msgs| <= |ids| && chan.swRp == Pos(chan.shmem.Length, sizes, r)
      requires AllLaid(chan.shmem.Length, chan.shmem[..], msgs, sizes, r)
      requires Lined(fifo, ids, marks, r, deviceCpl)
      modifies this, chan`swRp
      ensures chan.swRp == Pos(chan.shmem.Length, sizes, r + pending) < chan.shmem.Length
      ensures Lined(fifo, ids, marks, r + pending, deviceCpl)
      ensures fifo == [] || fifo[0].Api?
      ensures cpl == Completed(old(cpl), ids, r, pending, open)
      ensures hCpl == CompletedHandles(old(hCpl), ids, r, pending, open)
    {
      RetirePending(pending, open, ids, marks, msgs, sizes, r);
      DrainMarkers(ids, marks, r + pending);
    }
  }
}
