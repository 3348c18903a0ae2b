/** The XPU channel as a whole: senders, firmware, interrupt handler, device sync, invalidation and close
    interleave, and the CPU channel shares the sequence numbers.

    api_mutex is held from SendBegin to the end of a send, by an invalidation, and inside DeviceSync;
    api_fifo_mutex is held from IrqStart until the handler stops.  The CPU channel has its own api_mutex, so
    taking a number and storing it are separate steps of either channel.  Filling the ring is one step with
    publishing the write pointer: nobody reads words at or past it.  The fields of State after the
    concrete ones are history: the messages and entries so far, and how many of them have come how far. */
module ApiMachine {
  import opened Ring
  import opened MsgFifo
  import opened ApiQueue
  import opened Wrappers

  datatype Phase = Taken | Waiting | Granted | Pushed

  /** A send in progress, the holder of api_mutex. */
  datatype Sending = Sending(thr: Thread, seqNo: nat, msg: Msg, phase: Phase)

  /** A send in progress on the CPU channel. */
  datatype CpuSending = CpuSending(id: Id, stored: bool)

  /** An invalidation in progress: `cur` walks to `end`; history: message number, first number, messages
      before it started. */
  datatype Inval = Inval(handle: nat, cur: nat, end: nat, idx: nat, start: nat, before: seq<Msg>)

  /** The ring.  `fp` is where the firmware reports its next result.  History: messages sent, their sizes,
      how many the firmware took (rp) and finished (fp), how many were retired (swRp), and the number of the
      oldest message a later send has not yet been given the space of. */
  datatype Chan = Chan(words: seq<Word32>, wp: nat, rp: nat, fp: nat, swRp: nat,
                       sent: seq<Msg>, sizes: seq<nat>, taken: nat, finished: nat, retired: nat, low: nat)

  /** The kfifo and device-sync counters.  History: APIs queued; for each marker, how many were before it. */
  datatype Queue = Queue(fifo: seq<Entry>, deviceLast: nat, deviceCpl: nat, ids: seq<Id>, marks: seq<nat>)

  /** Sequence numbers: device-wide, per thread, per handle; and the APIs the CPU channel has not completed.
      History: every number a send on the CPU channel took. */
  datatype Seqs = Seqs(send: nat, last: map<Thread, int>, cpl: map<Thread, int>, hSend: map<nat, int>, hCpl: map<nat, int>,
                       cpuPending: set<Id>, cpuIds: set<Id>)

  datatype State = State(ch: Chan, q: Queue, sq: Seqs, sender: Option<Sending>, cpuSender: Option<CpuSending>,
                         inval: Option<Inval>, irq: Option<nat>, closed: set<nat>)

  datatype Action =
    | SendBegin(thr: Thread, id: Word32, payload: seq<Word32>)   // atomic64_inc_return
    | SendStore                              // h_send_api_seq and last_api_seq
    | SendGrant                              // bmdev_wait_msgfifo succeeds
    | SendGiveUp                             // it times out, or the kfifo is full
    | SendPush                               // kfifo_in
    | SendPublish                            // bmdev_copy_to_msgfifo
    | FwTake                                 // firmware advances rp
    | FwFinish(duration: Word32, result: Word32)
    | IrqStart(pending: nat)
    | IrqPop                                 // one round of the handler's first loop
    | IrqDrain                               // one round of its second loop
    | DeviceSync
    | InvalStart(handle: nat)
    | InvalStep
    | InvalDone
    | Close(closing: nat)
    | CpuTake(cthr: Thread)                  // the same on the CPU channel ...
    | CpuStore
    | CpuPublish
    | CpuGiveUp                              // ... or it times out
    | CpuRetire(cid: Id)

  function Init(n: nat): State {
    State(Chan(seq(n, i => 0), 0, 0, 0, 0, [], [], 0, 0, 0, 0), Queue([], 0, 0, [], []),
          Seqs(0, map[], map[], map[], map[], {}, {}), None, None, None, None, {})
  }

  ghost predicate ValidRing(n: nat, cap: nat) {
    HEADER < n < 0x8000_0000 && cap > 0
  }

  ghost predicate InRange(n: nat, s: State) {
    && HEADER < n == |s.ch.words|
    && s.ch.wp < n && s.ch.rp < n && s.ch.fp < n && s.ch.swRp < n
    && (s.sender.Some? ==> ValidMsg(s.sender.value.msg))
    && (s.sender.Some? && s.sender.value.phase == Pushed ==> WordLen(s.sender.value.msg) <= n)
    && (s.inval.Some? ==> s.inval.value.cur < n)
  }

  ghost predicate Enabled(n: nat, cap: nat, s: State, a: Action) {
    && InRange(n, s)
    && match a
       case SendBegin(thr, id, payload) =>
         && s.sender == None && s.inval == None && thr.handle !in s.closed && thr.handle < 0x1_0000_0000_0000_0000
         && id != BM_API_QUIT && |payload| < 0x4000_0000
         && (s.cpuSender.Some? ==> s.cpuSender.value.id.thr != thr)
       case SendStore => s.sender.Some? && s.sender.value.phase == Taken
       case SendGrant =>
         && s.sender.Some? && s.sender.value.phase == Waiting
         && n - Used(n, s.ch.wp, s.ch.swRp) - 1 >= WordLen(s.sender.value.msg)
       case SendGiveUp =>
         && s.sender.Some?
         && (s.sender.value.phase == Waiting || (s.sender.value.phase == Granted && s.irq == None && |s.q.fifo| >= cap))
       case SendPush => s.sender.Some? && s.sender.value.phase == Granted && s.irq == None && |s.q.fifo| < cap
       case SendPublish => s.sender.Some? && s.sender.value.phase == Pushed
       case FwTake => s.ch.taken < |s.ch.sent|
       case FwFinish(_, _) => s.ch.finished < s.ch.taken
       case IrqStart(pending) => s.irq == None && s.ch.retired + pending <= s.ch.finished
       case IrqPop => s.irq.Some? && s.irq.value > 0
       case IrqDrain => s.irq == Some(0)
       case DeviceSync => s.sender == None && s.inval == None && s.irq == None
       case InvalStart(_) => s.sender == None && s.inval == None
       case InvalStep => s.inval.Some? && s.inval.value.cur != s.inval.value.end
       case InvalDone => s.inval.Some? && s.inval.value.cur == s.inval.value.end
       case Close(h) =>
         && (s.sender.Some? ==> s.sender.value.thr.handle != h)
         && (s.cpuSender.Some? ==> s.cpuSender.value.id.thr.handle != h)
       case CpuTake(thr) => s.cpuSender == None && thr.handle !in s.closed && (s.sender.Some? ==> s.sender.value.thr != thr)
       case CpuStore => s.cpuSender.Some? && !s.cpuSender.value.stored
       case CpuPublish => s.cpuSender.Some? && s.cpuSender.value.stored
       case CpuGiveUp => s.cpuSender.Some? && s.cpuSender.value.stored
       case CpuRetire(id) => id in s.sq.cpuPending
  }

  /** The size field of the message at `pos`. */
  function SizeAt(n: nat, words: seq<Word32>, pos: nat): nat
    requires HEADER < n == |words| && pos < n
  {
    HEADER + words[AddPointer(n, pos, API_SIZE)]
  }

  function HandleAt(n: nat, words: seq<Word32>, pos: nat): nat
    requires HEADER < n == |words| && pos < n
  {
    JoinHandle(words[AddPointer(n, pos, API_HANDLE)], words[AddPointer(n, pos, API_HANDLE + 1)])
  }

  function Blank(m: Msg): Msg {
    m.(handle := 0)
  }

  /** Store the number taken. */
  function Store(sq: Seqs, id: Id): Seqs {
    sq.(last := sq.last[id.thr := id.seqNo], hSend := sq.hSend[id.thr.handle := id.seqNo])
  }

  /** The send failed after that: only the thread's number is taken back. */
  function GiveUp(sq: Seqs, thr: Thread): Seqs {
    sq.(last := sq.last[thr := Lookup(sq.last, thr) - 1])
  }

  function Complete(sq: Seqs, id: Id, closed: set<nat>): Seqs {
    if id.thr.handle in closed then sq
    else sq.(cpl := sq.cpl[id.thr := id.seqNo], hCpl := sq.hCpl[id.thr.handle := id.seqNo])
  }

  ghost function Publish(n: nat, ch: Chan, m: Msg): Chan
    requires ch.wp < n == |ch.words| && ValidMsg(m) && WordLen(m) <= n
  {
    ch.(words := PutMsg(ch.words, ch.wp, m), wp := AddPointer(n, ch.wp, WordLen(m)),
        sent := ch.sent + [m], sizes := ch.sizes + [WordLen(m)])
  }

  function Take(n: nat, ch: Chan): Chan
    requires HEADER < n == |ch.words| && ch.rp < n
  {
    ch.(rp := AddPointer(n, ch.rp, SizeAt(n, ch.words, ch.rp)), taken := ch.taken + 1)
  }

  function Finish(n: nat, ch: Chan, duration: Word32, result: Word32): Chan
    requires HEADER < n == |ch.words| && ch.fp < n
  {
    ch.(words := ch.words[AddPointer(n, ch.fp, DURATION) := duration][AddPointer(n, ch.fp, RESULT) := result],
        fp := AddPointer(n, ch.fp, SizeAt(n, ch.words, ch.fp)), finished := ch.finished + 1)
  }

  function Retire(n: nat, ch: Chan): Chan
    requires HEADER < n == |ch.words| && ch.swRp < n
  {
    ch.(swRp := AddPointer(n, ch.swRp, SizeAt(n, ch.words, ch.swRp)), retired := ch.retired + 1)
  }

  /** Take the head entry; an API also retires the message at sw_rp. */
  function Pop(n: nat, s: State): State
    requires InRange(n, s) && s.irq.Some? && s.irq.value > 0 && s.q.fifo != []
  {
    var q := s.q.(fifo := s.q.fifo[1..]);
    match s.q.fifo[0]
    case Marker(number) => s.(q := q.(deviceCpl := number))
    case Api(id) => s.(q := q, ch := Retire(n, s.ch), sq := Complete(s.sq, id, s.closed), irq := Some(s.irq.value - 1))
  }

  function InvalidateOne(n: nat, s: State): State
    requires InRange(n, s) && s.inval.Some?
  {
    var v := s.inval.value;
    var hit := HandleAt(n, s.ch.words, v.cur) == v.handle;
    var low, high := AddPointer(n, v.cur, API_HANDLE), AddPointer(n, v.cur, API_HANDLE + 1);
    var words := if hit then s.ch.words[low := 0][high := 0] else s.ch.words;
    var sent := if hit && v.idx < |s.ch.sent| then s.ch.sent[v.idx := Blank(s.ch.sent[v.idx])] else s.ch.sent;
    s.(ch := s.ch.(words := words, sent := sent),
       inval := Some(v.(cur := AddPointer(n, v.cur, SizeAt(n, s.ch.words, v.cur)), idx := v.idx + 1)))
  }

  ghost function Apply(n: nat, cap: nat, s: State, a: Action): State
    requires Enabled(n, cap, s, a)
  {
    match a
    case SendBegin(thr, id, payload) =>
      var g := s.sq.send + 1;
      s.(sq := s.sq.(send := g), sender := Some(Sending(thr, g, Msg(id, thr.handle, g % 0x1_0000_0000, payload), Taken)))
    case SendStore =>
      var v := s.sender.value;
      s.(sq := Store(s.sq, Id(v.thr, v.seqNo)), sender := Some(v.(phase := Waiting)))
    case SendGrant => s.(ch := s.ch.(low := s.ch.retired), sender := Some(s.sender.value.(phase := Granted)))
    case SendGiveUp => s.(sq := GiveUp(s.sq, s.sender.value.thr), sender := None)
    case SendPush =>
      var v := s.sender.value;
      var id := Id(v.thr, v.seqNo);
      s.(q := s.q.(fifo := s.q.fifo + [Api(id)], ids := s.q.ids + [id]), sender := Some(v.(phase := Pushed)))
    case SendPublish => s.(ch := Publish(n, s.ch, s.sender.value.msg), sender := None)
    case FwTake => s.(ch := Take(n, s.ch))
    case FwFinish(duration, result) => s.(ch := Finish(n, s.ch, duration, result))
    case IrqStart(pending) => s.(irq := Some(pending))
    case IrqPop => if s.q.fifo == [] then s.(irq := Some(0)) else Pop(n, s)
    case IrqDrain =>
      if s.q.fifo != [] && s.q.fifo[0].Marker? then
        s.(q := s.q.(fifo := s.q.fifo[1..], deviceCpl := s.q.fifo[0].number))
      else s.(irq := None)
    case DeviceSync =>
      if s.q.fifo == [] || |s.q.fifo| >= cap then s
      else s.(q := s.q.(deviceLast := s.q.deviceLast + 1, fifo := s.q.fifo + [Marker(s.q.deviceLast + 1)],
                        marks := s.q.marks + [|s.q.ids|]))
    case InvalStart(h) => s.(inval := Some(Inval(h, s.ch.rp, s.ch.wp, s.ch.taken, s.ch.taken, s.ch.sent)))
    case InvalStep => InvalidateOne(n, s)
    case InvalDone => s.(inval := None)
    case Close(h) => s.(closed := s.closed + {h})
    case CpuTake(thr) =>
      var id := Id(thr, s.sq.send + 1);
      s.(sq := s.sq.(send := s.sq.send + 1, cpuIds := s.sq.cpuIds + {id}), cpuSender := Some(CpuSending(id, false)))
    case CpuStore =>
      s.(sq := Store(s.sq, s.cpuSender.value.id), cpuSender := Some(s.cpuSender.value.(stored := true)))
    case CpuPublish =>
      s.(sq := s.sq.(cpuPending := s.sq.cpuPending + {s.cpuSender.value.id}), cpuSender := None)
    case CpuGiveUp => s.(sq := GiveUp(s.sq, s.cpuSender.value.id.thr), cpuSender := None)
    case CpuRetire(id) => s.(sq := Complete(s.sq, id, s.closed).(cpuPending := s.sq.cpuPending - {id}))
  }

  ghost predicate Next(n: nat, cap: nat, s: State, s': State) {
    exists a: Action :: IsStep(n, cap, s, a, s')
  }

  ghost predicate IsStep(n: nat, cap: nat, s: State, a: Action, s': State) {
    Enabled(n, cap, s, a) && s' == Apply(n, cap, s, a)
  }

  ghost predicate Run(n: nat, cap: nat, run: seq<State>) {
    && |run| > 0
    && run[0] == Init(n)
    && forall i :: 0 <= i < |run| - 1 ==> Next(n, cap, run[i], run[i + 1])
  }

  // ---------------------------------------------------------------- the ring

  ghost predicate Counts(ch: Chan) {
    ch.low <= ch.retired <= ch.finished <= ch.taken <= |ch.sent| == |ch.sizes|
  }

  ghost predicate Pointers(n: nat, ch: Chan)
    requires Counts(ch)
  {
    && ch.wp == Pos(n, ch.sizes, |ch.sent|) && ch.rp == Pos(n, ch.sizes, ch.taken)
    && ch.fp == Pos(n, ch.sizes, ch.finished) && ch.swRp == Pos(n, ch.sizes, ch.retired)
  }

  ghost predicate ChanInv(n: nat, ch: Chan) {
    && HEADER < n == |ch.words|
    && Counts(ch) && Sized(ch.sent, ch.sizes) && Small(n, ch.sizes) && Pointers(n, ch)
    && Off(ch.sizes, |ch.sent|) - Off(ch.sizes, ch.low) < n
    && AllLaid(n, ch.words, ch.sent, ch.sizes, ch.low)
  }

  ghost predicate SpaceInv(n: nat, ch: Chan, sender: Option<Sending>)
    requires Counts(ch)
  {
    sender.Some? ==>
      && ValidMsg(sender.value.msg)
      && (sender.value.phase == Granted || sender.value.phase == Pushed ==> Off(ch.sizes, |ch.sent|) - Off(ch.sizes, ch.low) + WordLen(sender.value.msg) < n)
  }

  ghost predicate InvalInv(n: nat, ch: Chan, inval: Option<Inval>)
    requires Counts(ch)
  {
    inval.Some? ==>
      var v := inval.value;
      && ch.low <= v.start <= v.idx <= |ch.sent| == |v.before|
      && v.cur == Pos(n, ch.sizes, v.idx) && v.end == ch.wp
      && InvalidatedTo(ch.sent, v.before, v.start, v.idx, v.handle)
  }

  /** The messages of `handle` between `start` and `idx` lost their handle, the rest are as before. */
  ghost predicate InvalidatedTo(sent: seq<Msg>, before: seq<Msg>, start: nat, idx: nat, handle: nat)
    requires |sent| == |before|
  {
    forall i: nat :: i < |sent| ==>
      sent[i] == if start <= i < idx && before[i].handle == handle then Blank(before[i]) else before[i]
  }

  lemma PointersInRange(n: nat, ch: Chan)
    requires ChanInv(n, ch)
    ensures ch.wp < n && ch.rp < n && ch.fp < n && ch.swRp < n
  {
    PosInRange(n, ch.sizes, |ch.sent|);
    PosInRange(n, ch.sizes, ch.taken);
    PosInRange(n, ch.sizes, ch.finished);
    PosInRange(n, ch.sizes, ch.retired);
  }

  lemma SizeReads(n: nat, ch: Chan, i: nat)
    requires ChanInv(n, ch) && ch.low <= i < |ch.sent|
    ensures Pos(n, ch.sizes, i) < n && SizeAt(n, ch.words, Pos(n, ch.sizes, i)) == ch.sizes[i]
    ensures HandleAt(n, ch.words, Pos(n, ch.sizes, i)) == ch.sent[i].handle
    ensures AddPointer(n, Pos(n, ch.sizes, i), ch.sizes[i]) == Pos(n, ch.sizes, i + 1)
  {
    FieldsRead(n, ch.words, Pos(n, ch.sizes, i), ch.sent[i]);
  }

  lemma TakeKeeps(n: nat, ch: Chan)
    requires ChanInv(n, ch) && ch.taken < |ch.sent|
    ensures ch.rp < n && ChanInv(n, Take(n, ch))
  {
    SizeReads(n, ch, ch.taken);
  }

  lemma RetirePointers(n: nat, ch: Chan)
    requires HEADER < n == |ch.words| && Counts(ch) && Pointers(n, ch) && ch.retired < ch.finished && ch.swRp < n
    requires SizeAt(n, ch.words, ch.swRp) == ch.sizes[ch.retired]
    ensures Counts(Retire(n, ch)) && Pointers(n, Retire(n, ch))
  {
  }

  lemma RetireKeeps(n: nat, ch: Chan)
    requires ChanInv(n, ch) && ch.retired < ch.finished
    ensures ch.swRp < n && ChanInv(n, Retire(n, ch))
  {
    SizeReads(n, ch, ch.retired);
    RetirePointers(n, ch);
  }

  /** Overwriting word `k` of message `i` leaves the words of the others alone. */
  lemma OneWord(n: nat, words: seq<Word32>, sent: seq<Msg>, sizes: seq<nat>, low: nat, i: nat, k: nat, value: Word32, j: nat)
    requires |words| == n && Sized(sent, sizes) && Small(n, sizes) && low <= i < |sent| && k < sizes[i]
    requires Off(sizes, |sizes|) - Off(sizes, low) < n && low <= j < |sent| && j != i
    requires Laid(n, words, Pos(n, sizes, j), sent[j])
    ensures Pos(n, sizes, i) < n && Wrap(n, Pos(n, sizes, i), k) < n
    ensures Laid(n, words[Wrap(n, Pos(n, sizes, i), k) := value], Pos(n, sizes, j), sent[j])
  {
    CellsDistinct(n, sizes, low, i, k, j, 0);
    forall w: nat | w < WordLen(sent[j]) && HostWord(w)
      ensures words[Wrap(n, Pos(n, sizes, i), k) := value][Wrap(n, Pos(n, sizes, j), w)] == MsgWord(sent[j], w)
    {
      CellsDistinct(n, sizes, low, i, k, j, w);
    }
  }

  lemma FirmwareWords(n: nat, words: seq<Word32>, pos: nat, m: Msg, duration: Word32, result: Word32)
    requires HEADER < n && Laid(n, words, pos, m)
    ensures Laid(n, words[Wrap(n, pos, DURATION) := duration][Wrap(n, pos, RESULT) := result], pos, m)
  {
  }

  lemma FinishLaid(n: nat, words: seq<Word32>, sent: seq<Msg>, sizes: seq<nat>, low: nat, i: nat, duration: Word32, result: Word32)
    requires HEADER < n == |words| && Sized(sent, sizes) && Small(n, sizes) && low <= i < |sent|
    requires Off(sizes, |sizes|) - Off(sizes, low) < n && Pos(n, sizes, i) < n
    requires AllLaid(n, words, sent, sizes, low)
    ensures AllLaid(n, words[Wrap(n, Pos(n, sizes, i), DURATION) := duration][Wrap(n, Pos(n, sizes, i), RESULT) := result],
                    sent, sizes, low)
  {
    var at, at' := Wrap(n, Pos(n, sizes, i), DURATION), Wrap(n, Pos(n, sizes, i), RESULT);
    forall j: nat | low <= j < |sent|
      ensures Laid(n, words[at := duration][at' := result], Pos(n, sizes, j), sent[j])
    {
      if j == i {
        FirmwareWords(n, words, Pos(n, sizes, i), sent[i], duration, result);
      } else {
        OneWord(n, words, sent, sizes, low, i, DURATION, duration, j);
        OneWord(n, words[at := duration], sent, sizes, low, i, RESULT, result, j);
      }
    }
  }

  lemma FinishPointers(n: nat, ch: Chan, duration: Word32, result: Word32)
    requires HEADER < n == |ch.words| && Counts(ch) && Pointers(n, ch) && ch.finished < ch.taken && ch.fp < n
    requires SizeAt(n, ch.words, ch.fp) == ch.sizes[ch.finished]
    ensures Counts(Finish(n, ch, duration, result)) && Pointers(n, Finish(n, ch, duration, result))
  {
  }

  lemma FinishWords(n: nat, ch: Chan, duration: Word32, result: Word32)
    requires ChanInv(n, ch) && ch.finished < ch.taken && ch.fp < n
    ensures AllLaid(n, Finish(n, ch, duration, result).words, ch.sent, ch.sizes, ch.low)
  {
    FinishLaid(n, ch.words, ch.sent, ch.sizes, ch.low, ch.finished, duration, result);
  }

  lemma FinishKeeps(n: nat, ch: Chan, duration: Word32, result: Word32)
    requires ChanInv(n, ch) && ch.finished < ch.taken
    ensures ch.fp < n && ChanInv(n, Finish(n, ch, duration, result))
  {
    SizeReads(n, ch, ch.finished);
    FinishPointers(n, ch, duration, result);
    FinishWords(n, ch, duration, result);
  }

  lemma BlankLaid(n: nat, words: seq<Word32>, pos: nat, m: Msg)
    requires HEADER < n && Laid(n, words, pos, m)
    ensures Laid(n, words[Wrap(n, pos, API_HANDLE) := 0][Wrap(n, pos, API_HANDLE + 1) := 0], pos, Blank(m))
  {
    var words' := words[Wrap(n, pos, API_HANDLE) := 0][Wrap(n, pos, API_HANDLE + 1) := 0];
    forall k: nat | k < WordLen(Blank(m)) && HostWord(k)
      ensures Wrap(n, pos, k) < n && words'[Wrap(n, pos, k)] == MsgWord(Blank(m), k)
    {
      assert words[Wrap(n, pos, k)] == MsgWord(m, k);
    }
  }

  lemma InvalidateLaid(n: nat, words: seq<Word32>, sent: seq<Msg>, sizes: seq<nat>, low: nat, i: nat)
    requires HEADER < n == |words| && Sized(sent, sizes) && Small(n, sizes) && low <= i < |sent|
    requires Off(sizes, |sizes|) - Off(sizes, low) < n && Pos(n, sizes, i) < n
    requires AllLaid(n, words, sent, sizes, low)
    ensures AllLaid(n, words[Wrap(n, Pos(n, sizes, i), API_HANDLE) := 0][Wrap(n, Pos(n, sizes, i), API_HANDLE + 1) := 0],
                    sent[i := Blank(sent[i])], sizes, low)
  {
    var at, at' := Wrap(n, Pos(n, sizes, i), API_HANDLE), Wrap(n, Pos(n, sizes, i), API_HANDLE + 1);
    var sent' := sent[i := Blank(sent[i])];
    forall j: nat | low <= j < |sent'|
      ensures Laid(n, words[at := 0][at' := 0], Pos(n, sizes, j), sent'[j])
    {
      if j == i {
        BlankLaid(n, words, Pos(n, sizes, i), sent[i]);
      } else {
        OneWord(n, words, sent, sizes, low, i, API_HANDLE, 0, j);
        OneWord(n, words[at := 0], sent, sizes, low, i, API_HANDLE + 1, 0, j);
      }
    }
  }

  lemma BlankSized(sent: seq<Msg>, sizes: seq<nat>, i: nat)
    requires Sized(sent, sizes) && i < |sent|
    ensures Sized(sent[i := Blank(sent[i])], sizes)
  {
  }

  lemma InvalidatedStep(sent: seq<Msg>, before: seq<Msg>, start: nat, idx: nat, handle: nat)
    requires start <= idx < |sent| == |before| && InvalidatedTo(sent, before, start, idx, handle)
    ensures sent[idx].handle == handle ==>
              InvalidatedTo(sent[idx := Blank(sent[idx])], before, start, idx + 1, handle)
    ensures sent[idx].handle != handle ==> InvalidatedTo(sent, before, start, idx + 1, handle)
  {
  }

  /** Words the message is written to belong to no message still in the ring. */
  lemma PublishMisses(n: nat, words: seq<Word32>, sent: seq<Msg>, sizes: seq<nat>, low: nat, m: Msg, j: nat)
    requires |words| == n && Sized(sent, sizes) && Small(n, sizes) && low <= j < |sent| && ValidMsg(m)
    requires Off(sizes, |sizes|) - Off(sizes, low) + WordLen(m) < n && Pos(n, sizes, |sizes|) < n
    requires WordLen(m) <= n && Laid(n, words, Pos(n, sizes, j), sent[j])
    ensures Laid(n, PutMsg(words, Pos(n, sizes, |sizes|), m), Pos(n, sizes, j), sent[j])
  {
    var wp := Pos(n, sizes, |sizes|);
    forall k: nat | k < WordLen(sent[j]) && HostWord(k)
      ensures PutMsg(words, wp, m)[Wrap(n, Pos(n, sizes, j), k)] == MsgWord(sent[j], k)
    {
      var cell := Wrap(n, Pos(n, sizes, j), k);
      var w := Ahead(n, wp, cell);
      if w < WordLen(m) {
        WriteMisses(n, sizes, low, j, k, w);
        assert false;
      }
    }
  }

  lemma PublishLaid(n: nat, words: seq<Word32>, sent: seq<Msg>, sizes: seq<nat>, low: nat, m: Msg)
    requires |words| == n && Sized(sent, sizes) && Small(n, sizes) && low <= |sent| && ValidMsg(m)
    requires Off(sizes, |sizes|) - Off(sizes, low) + WordLen(m) < n && Pos(n, sizes, |sizes|) < n
    requires WordLen(m) <= n && AllLaid(n, words, sent, sizes, low)
    ensures AllLaid(n, PutMsg(words, Pos(n, sizes, |sizes|), m), sent + [m], sizes + [WordLen(m)], low)
  {
    var wp, sent' := Pos(n, sizes, |sizes|), sent + [m];
    forall j: nat | low <= j < |sent'|
      ensures Laid(n, PutMsg(words, wp, m), Pos(n, sizes + [WordLen(m)], j), sent'[j])
    {
      PosKept(n, sizes, WordLen(m), j);
      if j < |sent| {
        PublishMisses(n, words, sent, sizes, low, m, j);
      } else {
        PutMsgLays(words, wp, m);
      }
    }
  }

  lemma PublishPointers(n: nat, ch: Chan, m: Msg)
    requires Counts(ch) && Pointers(n, ch) && ch.wp < n == |ch.words| && ValidMsg(m) && WordLen(m) <= n
    ensures Counts(Publish(n, ch, m)) && Pointers(n, Publish(n, ch, m))
  {
    PosKept(n, ch.sizes, WordLen(m), |ch.sent|);
    PosKept(n, ch.sizes, WordLen(m), ch.taken);
    PosKept(n, ch.sizes, WordLen(m), ch.finished);
    PosKept(n, ch.sizes, WordLen(m), ch.retired);
  }

  lemma PublishWords(n: nat, ch: Chan, m: Msg)
    requires ChanInv(n, ch) && ValidMsg(m) && Off(ch.sizes, |ch.sent|) - Off(ch.sizes, ch.low) + WordLen(m) < n
    requires WordLen(m) < n && ch.wp < n
    ensures var ch' := Publish(n, ch, m);
            Sized(ch'.sent, ch'.sizes) && AllLaid(n, ch'.words, ch'.sent, ch'.sizes, ch.low)
  {
    PublishLaid(n, ch.words, ch.sent, ch.sizes, ch.low, m);
  }

  lemma PublishKeeps(n: nat, ch: Chan, m: Msg)
    requires ChanInv(n, ch) && ValidMsg(m) && Off(ch.sizes, |ch.sent|) - Off(ch.sizes, ch.low) + WordLen(m) < n
    ensures WordLen(m) < n && ch.wp < n && ChanInv(n, Publish(n, ch, m))
  {
    OffMonotone(ch.sizes, ch.low, |ch.sizes|);
    PointersInRange(n, ch);
    PublishPointers(n, ch, m);
    AppendSpace(n, ch.sizes, WordLen(m), ch.low);
    PublishWords(n, ch, m);
  }

  /** The space the sender is granted is the space up to the oldest unretired message. */
  lemma GrantKeeps(n: nat, ch: Chan, m: Msg)
    requires ChanInv(n, ch) && ValidMsg(m) && ch.wp < n && ch.swRp < n
    requires n - Used(n, ch.wp, ch.swRp) - 1 >= WordLen(m)
    ensures ChanInv(n, ch.(low := ch.retired))
    ensures Off(ch.sizes, |ch.sent|) - Off(ch.sizes, ch.retired) + WordLen(m) < n
  {
    OffMonotone(ch.sizes, ch.low, ch.retired);
    Distance(n, ch.sizes, ch.retired, |ch.sent|);
  }

  lemma InvalidateKeeps(n: nat, ch: Chan, i: nat)
    requires ChanInv(n, ch) && ch.low <= i < |ch.sent| && Pos(n, ch.sizes, i) < n
    ensures ChanInv(n, ch.(words := ch.words[AddPointer(n, Pos(n, ch.sizes, i), API_HANDLE) := 0]
                                            [AddPointer(n, Pos(n, ch.sizes, i), API_HANDLE + 1) := 0],
                           sent := ch.sent[i := Blank(ch.sent[i])]))
  {
    InvalidateLaid(n, ch.words, ch.sent, ch.sizes, ch.low, i);
    BlankSized(ch.sent, ch.sizes, i);
  }
}
