/** One sender and one receiver on a packet ring, each working from its own, possibly stale, copy of the
    other side's pointer.  Loads and stores of the shared pointers, the start and the end of a send or a
    receive, and every single byte written or read are separate steps, interleaved in every way.

    Advancing a position is written `Wrap`, which is what the code's `%` computes (Ring.ModIsWrap).

    The state holds what the code holds: the buffer, the two published pointers, and each side's local
    head and tail.  Beside it runs the history: the packets sent and received, and for every pointer the
    number of packets it stands for. */
module PacketProtocol {
  import opened Ring
  import opened PacketRing
  import opened Wrappers

  type Packet = seq<Byte>

  datatype State = State(
    buf: seq<Byte>,
    pHead: nat, pTail: nat,        // sender: lq.head, lq.tail of its tx queue
    sHead: nat, sTail: nat,        // shared: hq.head, hq.tail
    cHead: nat, cTail: nat,        // receiver: lq.head, lq.tail of its rx queue
    sending: Option<Packet>, written: nat,
    receiving: Option<nat>, got: seq<Byte>,
    // history
    sent: seq<Packet>, received: seq<Packet>, sizes: seq<nat>,
    published: nat, known: nat, seen: nat, freed: nat)

  datatype Action =
    | LoadTx                    // pt_load_tx
    | SendStart(data: Packet)   // pt_send up to the space test
    | WriteByte                 // one byte of the two __enqueue calls
    | SendDone                  // q->head is advanced
    | StoreTx                   // pt_store_tx
    | LoadRx                    // pt_load_rx
    | RecvStart(capacity: nat)  // pt_pkg_len, the size test of sg_comm_recv and the test of pt_recv
    | ReadByte                  // one byte of __dequeue
    | RecvDone                  // q->tail is advanced
    | StoreRx                   // pt_store_rx

  /** Queue lengths fit an int and are multiples of 8, as both sides configure them. */
  ghost predicate ValidLen(n: nat) {
    PT_ALIGN <= n < 0x8000_0000 && n % PT_ALIGN == 0
  }

  function Init(n: nat): State {
    State(seq(n, i => 0), 0, 0, 0, 0, 0, 0, None, 0, None, [], [], [], [], 0, 0, 0, 0)
  }

  function FrameLen(data: Packet): nat {
    HEADER + |data|
  }

  /** The length field of the packet at the receiver's tail, loaded as four bytes in a row. */
  function HeaderAt(s: State): nat
    requires s.cTail + HEADER <= |s.buf|
  {
    FromLe32(s.buf[s.cTail..s.cTail + HEADER])
  }

  ghost predicate InRange(n: nat, s: State) {
    && HEADER <= n == |s.buf|
    && (s.sending.Some? ==> |s.sending.value| < 0x8000_0000 && FrameLen(s.sending.value) <= n)
    && (s.receiving.Some? ==> HEADER + s.receiving.value <= n)
    && s.pHead < n && s.pTail < n && s.sHead < n && s.sTail < n && s.cHead < n && s.cTail < n
  }

  ghost predicate Enabled(n: nat, s: State, a: Action) {
    && InRange(n, s)
    && match a
       case LoadTx => s.sending == None
       case SendStart(data) => s.sending == None && |data| < 0x8000_0000
       case WriteByte => s.sending.Some? && s.written < FrameLen(s.sending.value)
       case SendDone => s.sending.Some? && s.written >= FrameLen(s.sending.value)
       case StoreTx => s.sending == None
       case LoadRx => s.receiving == None
       // the load must not run over the end; ReceiveNeverRefused shows that it never would
       case RecvStart(_) => s.receiving == None && s.cHead != s.cTail && s.cTail + HEADER <= n
       case ReadByte => s.receiving.Some? && |s.got| < s.receiving.value
       case RecvDone => s.receiving.Some? && |s.got| >= s.receiving.value
       case StoreRx => s.receiving == None
  }

  ghost function Apply(n: nat, s: State, a: Action): State
    requires Enabled(n, s, a)
  {
    match a
    case LoadTx => s.(pTail := s.sTail, known := s.freed)
    case SendStart(data) =>
      if n - Used(n, s.pHead, s.pTail) - 1 < TotalLen(|data|) then s
      else s.(sending := Some(data), written := 0)
    case WriteByte =>
      s.(buf := s.buf[Wrap(n, s.pHead, s.written) := Frame(s.sending.value)[s.written]], written := s.written + 1)
    case SendDone =>
      s.(pHead := Wrap(n, s.pHead, TotalLen(|s.sending.value|)), sending := None, sent := s.sent + [s.sending.value],
          sizes := s.sizes + [TotalLen(|s.sending.value|)])
    case StoreTx => s.(sHead := s.pHead, published := |s.sent|)
    case LoadRx => s.(cHead := s.sHead, seen := s.published)
    case RecvStart(capacity) =>
      var len := HeaderAt(s);
      if len > capacity || Used(n, s.cHead, s.cTail) < TotalLen(len) then s
      else s.(receiving := Some(len), got := [])
    case ReadByte => s.(got := s.got + [s.buf[Wrap(n, s.cTail, HEADER + |s.got|)]])
    case RecvDone =>
      s.(cTail := Wrap(n, s.cTail, TotalLen(s.receiving.value)), receiving := None, received := s.received + [s.got], got := [])
    case StoreRx => s.(sTail := s.cTail, freed := |s.received|)
  }

  ghost predicate Next(n: nat, s: State, s': State) {
    exists a: Action :: IsStep(n, s, a, s')
  }

  ghost predicate IsStep(n: nat, s: State, a: Action, s': State) {
    Enabled(n, s, a) && s' == Apply(n, s, a)
  }

  ghost predicate Run(n: nat, run: seq<State>) {
    && |run| > 0
    && run[0] == Init(n)
    && forall i :: 0 <= i < |run| - 1 ==> Next(n, run[i], run[i + 1])
  }

  /** `sizes` lists the padded lengths the packets take up in the ring. */
  ghost predicate Matches(sent: seq<Packet>, sizes: seq<nat>) {
    |sizes| == |sent| && forall i :: 0 <= i < |sent| ==> sizes[i] == TotalLen(|sent[i]|)
  }

  ghost predicate Stored(n: nat, buf: seq<Byte>, pos: nat, data: Packet, count: nat)
    requires |buf| == n && pos < n
  {
    && |data| < 0x8000_0000 && count <= FrameLen(data) <= n
    && forall k: nat :: k < count ==> Wrap(n, pos, k) < n && buf[Wrap(n, pos, k)] == Frame(data)[k]
  }

  ghost predicate Counts(s: State) {
    s.known <= s.freed <= |s.received| <= s.seen <= s.published <= |s.sent| && Matches(s.sent, s.sizes)
  }

  ghost predicate Pointers(n: nat, s: State)
    requires Counts(s)
  {
    && s.pHead == Pos(n, s.sizes, |s.sent|) && s.pTail == Pos(n, s.sizes, s.known)
    && s.sHead == Pos(n, s.sizes, s.published) && s.sTail == Pos(n, s.sizes, s.freed)
    && s.cHead == Pos(n, s.sizes, s.seen) && s.cTail == Pos(n, s.sizes, |s.received|)
  }

  /** Every packet from number `from` on is whole in the buffer. */
  ghost predicate AllStored(n: nat, buf: seq<Byte>, sent: seq<Packet>, sizes: seq<nat>, from: nat)
    requires |buf| == n && |sizes| == |sent|
  {
    forall i: nat :: from <= i < |sent| ==>
      Pos(n, sizes, i) < n && Stored(n, buf, Pos(n, sizes, i), sent[i], FrameLen(sent[i]))
  }

  ghost predicate SendingOk(n: nat, s: State)
    requires InRange(n, s) && Counts(s)
  {
    s.sending.Some? ==>
      && Off(s.sizes, |s.sent|) - Off(s.sizes, s.known) + TotalLen(|s.sending.value|) < n
      && Stored(n, s.buf, s.pHead, s.sending.value, s.written)
  }

  ghost predicate ReceivingOk(s: State)
    requires Counts(s)
  {
    s.receiving.Some? ==>
      && |s.received| < s.seen
      && s.receiving.value == |s.sent[|s.received|]|
      && s.got <= s.sent[|s.received|]
  }

  ghost predicate Inv(n: nat, s: State) {
    && ValidLen(n)
    && InRange(n, s)
    && Counts(s) && Small(n, s.sizes) && Pointers(n, s)
    // what the sender has in flight never reaches the last byte before the oldest packet it knows of
    && Off(s.sizes, |s.sent|) - Off(s.sizes, s.known) < n
    // received packets are the first ones sent
    && s.received <= s.sent
    && AllStored(n, s.buf, s.sent, s.sizes, |s.received|)
    && SendingOk(n, s)
    && ReceivingOk(s)
  }

  lemma {:induction false} PosAligned(n: nat, sizes: seq<nat>, i: nat)
    requires n % PT_ALIGN == 0 && i <= |sizes| && Small(n, sizes)
    requires forall j :: 0 <= j < |sizes| ==> sizes[j] % PT_ALIGN == 0
    ensures Pos(n, sizes, i) % PT_ALIGN == 0
  {
    if i > 0 {
      PosAligned(n, sizes, i - 1);
      PosInRange(n, sizes, i - 1);
      WrapAligned(n, Pos(n, sizes, i - 1), sizes[i - 1]);
    }
  }

  lemma WrapAligned(n: nat, pos: nat, k: nat)
    requires pos < n && n % 8 == 0 && pos % 8 == 0 && k % 8 == 0
    ensures Wrap(n, pos, k) % 8 == 0
  {
  }

  lemma InitInv(n: nat)
    requires ValidLen(n)
    ensures Inv(n, Init(n))
  {
  }

  lemma ByteWritten(n: nat, buf: seq<Byte>, sent: seq<Packet>, sizes: seq<nat>, from: nat, known: nat, w: nat, at: nat, value: Byte)
    requires |buf| == n && Matches(sent, sizes) && Small(n, sizes) && known <= from <= |sent|
    requires Off(sizes, |sent|) - Off(sizes, known) + w < n
    requires Pos(n, sizes, |sent|) < n && at == Wrap(n, Pos(n, sizes, |sent|), w) < n
    requires AllStored(n, buf, sent, sizes, from)
    ensures AllStored(n, buf[at := value], sent, sizes, from)
  {
    forall i: nat | from <= i < |sent|
      ensures Pos(n, sizes, i) < n && Stored(n, buf[at := value], Pos(n, sizes, i), sent[i], FrameLen(sent[i]))
    {
      assert Stored(n, buf, Pos(n, sizes, i), sent[i], FrameLen(sent[i]));
      forall k: nat | k < FrameLen(sent[i])
        ensures buf[at := value][Wrap(n, Pos(n, sizes, i), k)] == Frame(sent[i])[k]
      {
        WriteMisses(n, sizes, known, i, k, w);
      }
    }
  }

  lemma OwnByteWritten(n: nat, buf: seq<Byte>, pos: nat, data: Packet, w: nat)
    requires |buf| == n && pos < n && |data| < 0x8000_0000 && w < FrameLen(data) <= n
    requires Stored(n, buf, pos, data, w)
    ensures Wrap(n, pos, w) < n && Stored(n, buf[Wrap(n, pos, w) := Frame(data)[w]], pos, data, w + 1)
  {
  }

  lemma WriteByteKeepsInv(n: nat, s: State)
    requires Inv(n, s) && Enabled(n, s, WriteByte)
    ensures Inv(n, Apply(n, s, WriteByte))
  {
    var data := s.sending.value;
    OwnByteWritten(n, s.buf, s.pHead, data, s.written);
    ByteWritten(n, s.buf, s.sent, s.sizes, |s.received|, s.known, s.written, Wrap(n, s.pHead, s.written), Frame(data)[s.written]);
  }

  lemma SendStartKeepsInv(n: nat, s: State, data: Packet)
    requires Inv(n, s) && Enabled(n, s, SendStart(data))
    ensures Inv(n, Apply(n, s, SendStart(data)))
  {
    Distance(n, s.sizes, s.known, |s.sent|);
  }

  lemma AppendStored(n: nat, buf: seq<Byte>, sent: seq<Packet>, sizes: seq<nat>, data: Packet, size: nat, from: nat)
    requires |buf| == n && from <= |sent| == |sizes| && AllStored(n, buf, sent, sizes, from)
    requires Pos(n, sizes, |sent|) < n && Stored(n, buf, Pos(n, sizes, |sent|), data, FrameLen(data))
    ensures AllStored(n, buf, sent + [data], sizes + [size], from)
  {
    var sent' := sent + [data];
    forall i: nat | from <= i < |sent'|
      ensures Pos(n, sizes + [size], i) < n && Stored(n, buf, Pos(n, sizes + [size], i), sent'[i], FrameLen(sent'[i]))
    {
      PosKept(n, sizes, size, i);
    }
  }

  lemma SendDonePointers(n: nat, s: State, data: Packet)
    requires Counts(s) && Pointers(n, s)
    ensures var s' := s.(pHead := Wrap(n, s.pHead, TotalLen(|data|)), sending := None, sent := s.sent + [data],
                         sizes := s.sizes + [TotalLen(|data|)]);
            Counts(s') && Pointers(n, s')
  {
    var size := TotalLen(|data|);
    PosKept(n, s.sizes, size, |s.sent|);
    PosKept(n, s.sizes, size, s.known);
    PosKept(n, s.sizes, size, s.published);
    PosKept(n, s.sizes, size, s.freed);
    PosKept(n, s.sizes, size, s.seen);
    PosKept(n, s.sizes, size, |s.received|);
  }

  /** The record of a finished send fits before the oldest packet the sender knows of. */
  lemma SentFits(n: nat, sent: seq<Packet>, sizes: seq<nat>, known: nat, data: Packet)
    requires Small(n, sizes) && known <= |sent| == |sizes|
    requires Off(sizes, |sent|) - Off(sizes, known) + TotalLen(|data|) < n
    ensures var size := TotalLen(|data|);
            Small(n, sizes + [size]) && Off(sizes + [size], |sent| + 1) - Off(sizes + [size], known) < n
    ensures Wrap(n, Pos(n, sizes, |sent|), TotalLen(|data|)) < n
  {
    AppendSpace(n, sizes, TotalLen(|data|), known);
    PosInRange(n, sizes + [TotalLen(|data|)], |sent| + 1);
  }

  lemma SendDoneSpace(n: nat, s: State)
    requires Enabled(n, s, SendDone) && Counts(s) && Small(n, s.sizes) && s.pHead == Pos(n, s.sizes, |s.sent|)
    requires Off(s.sizes, |s.sent|) - Off(s.sizes, s.known) + TotalLen(|s.sending.value|) < n
    ensures var s' := Apply(n, s, SendDone);
            InRange(n, s') && Small(n, s'.sizes) && Off(s'.sizes, |s'.sent|) - Off(s'.sizes, s.known) < n
  {
    SentFits(n, s.sent, s.sizes, s.known, s.sending.value);
  }

  lemma SendDoneData(n: nat, s: State)
    requires Inv(n, s) && Enabled(n, s, SendDone)
    ensures var s' := Apply(n, s, SendDone);
            |s'.buf| == n && |s'.sizes| == |s'.sent| && AllStored(n, s'.buf, s'.sent, s'.sizes, |s'.received|) && s'.received <= s'.sent
  {
    AppendStored(n, s.buf, s.sent, s.sizes, s.sending.value, TotalLen(|s.sending.value|), |s.received|);
  }

  lemma SendDoneKeepsInv(n: nat, s: State)
    requires Inv(n, s) && Enabled(n, s, SendDone)
    ensures Inv(n, Apply(n, s, SendDone))
  {
    SendDonePointers(n, s, s.sending.value);
    SendDoneSpace(n, s);
    SendDoneData(n, s);
    assert ReceivingOk(Apply(n, s, SendDone));
  }

  /** Between two different counts there is at least the first packet in between. */
  lemma RoomForPacket(n: nat, sizes: seq<nat>, r: nat, seen: nat)
    requires Small(n, sizes) && r <= seen <= |sizes|
    requires Off(sizes, seen) - Off(sizes, r) < n && Pos(n, sizes, r) != Pos(n, sizes, seen)
    ensures r < seen
    ensures Pos(n, sizes, seen) < n && Pos(n, sizes, r) < n
    ensures Used(n, Pos(n, sizes, seen), Pos(n, sizes, r)) >= sizes[r]
  {
    Distance(n, sizes, r, seen);
    OffMonotone(sizes, r + 1, seen);
  }

  lemma HeaderReads(n: nat, buf: seq<Byte>, pos: nat, data: Packet)
    requires |buf| == n && pos + HEADER <= n && Stored(n, buf, pos, data, FrameLen(data))
    ensures FromLe32(buf[pos..pos + HEADER]) == |data|
  {
    var word := buf[pos..pos + HEADER];
    forall k: nat | k < HEADER ensures word[k] == Frame(data)[k] {
      assert Wrap(n, pos, k) == pos + k;
    }
    assert word == Le32(|data|);
    Le32RoundTrip(|data|);
  }

  /** What the receiver loads at its tail is the length of the next packet; pt_recv's own test then always
      passes. */
  lemma HeaderIsNextLength(n: nat, s: State)
    requires Inv(n, s) && s.cHead != s.cTail && s.cTail + HEADER <= n
    ensures |s.received| < s.seen
    ensures HeaderAt(s) == |s.sent[|s.received|]|
    ensures Used(n, s.cHead, s.cTail) >= TotalLen(HeaderAt(s))
  {
    var r := |s.received|;
    OffMonotone(s.sizes, s.known, r);
    OffMonotone(s.sizes, s.seen, |s.sent|);
    RoomForPacket(n, s.sizes, r, s.seen);
    HeaderReads(n, s.buf, s.cTail, s.sent[r]);
  }

  lemma RecvStartKeepsInv(n: nat, s: State, capacity: nat)
    requires Inv(n, s) && Enabled(n, s, RecvStart(capacity))
    ensures Inv(n, Apply(n, s, RecvStart(capacity)))
  {
    HeaderIsNextLength(n, s);
  }

  lemma PayloadReads(n: nat, buf: seq<Byte>, pos: nat, data: Packet, k: nat)
    requires HEADER <= |buf| == n && pos < n && k < |data| && Stored(n, buf, pos, data, FrameLen(data))
    ensures Wrap(n, pos, HEADER + k) < n && buf[Wrap(n, pos, HEADER + k)] == data[k]
  {
    assert buf[Wrap(n, pos, HEADER + k)] == Frame(data)[HEADER + k];
  }

  lemma ReadByteKeepsInv(n: nat, s: State)
    requires Inv(n, s) && Enabled(n, s, ReadByte)
    ensures Inv(n, Apply(n, s, ReadByte))
  {
    PayloadReads(n, s.buf, s.cTail, s.sent[|s.received|], |s.got|);
  }

  lemma RecvDonePointers(n: nat, s: State)
    requires Inv(n, s) && Enabled(n, s, RecvDone)
    ensures var s' := Apply(n, s, RecvDone); InRange(n, s') && Counts(s') && Pointers(n, s')
  {
    NextTail(n, s.sent, s.sizes, |s.received|, s.receiving.value);
  }

  lemma NextTail(n: nat, sent: seq<Packet>, sizes: seq<nat>, r: nat, len: nat)
    requires Matches(sent, sizes) && Small(n, sizes) && r < |sent| && len == |sent[r]|
    ensures Wrap(n, Pos(n, sizes, r), TotalLen(len)) == Pos(n, sizes, r + 1) < n
  {
    PosInRange(n, sizes, r + 1);
  }

  lemma RecvDoneData(n: nat, s: State)
    requires Inv(n, s) && Enabled(n, s, RecvDone)
    ensures var s' := Apply(n, s, RecvDone);
            s'.received <= s'.sent && AllStored(n, s'.buf, s'.sent, s'.sizes, |s'.received|)
  {
    PrefixGrows(s.sent, s.received, s.got);
  }

  lemma PrefixGrows(sent: seq<Packet>, received: seq<Packet>, got: Packet)
    requires received <= sent && |received| < |sent|
    requires got <= sent[|received|] && |got| == |sent[|received|]|
    ensures received + [got] <= sent
  {
    assert got == sent[|received|];
    assert sent[..|received| + 1] == received + [got];
  }

  lemma RecvDoneKeepsInv(n: nat, s: State)
    requires Inv(n, s) && Enabled(n, s, RecvDone)
    ensures Inv(n, Apply(n, s, RecvDone))
  {
    RecvDonePointers(n, s);
    RecvDoneData(n, s);
    assert ReceivingOk(Apply(n, s, RecvDone));
  }

  lemma NextKeepsInv(n: nat, s: State, a: Action)
    requires Inv(n, s) && Enabled(n, s, a)
    ensures Inv(n, Apply(n, s, a))
  {
    match a
    case LoadTx => OffMonotone(s.sizes, s.known, s.freed);
    case SendStart(data) => SendStartKeepsInv(n, s, data);
    case WriteByte => WriteByteKeepsInv(n, s);
    case SendDone => SendDoneKeepsInv(n, s);
    case StoreTx =>
    case LoadRx =>
    case RecvStart(capacity) => RecvStartKeepsInv(n, s, capacity);
    case ReadByte => ReadByteKeepsInv(n, s);
    case RecvDone => RecvDoneKeepsInv(n, s);
    case StoreRx =>
  }

  lemma {:induction false} RunInv(n: nat, run: seq<State>, i: nat)
    requires ValidLen(n) && Run(n, run) && i < |run|
    ensures Inv(n, run[i])
  {
    if i == 0 {
      InitInv(n);
    } else {
      RunInv(n, run, i - 1);
      var a: Action :| IsStep(n, run[i - 1], a, run[i]);
      NextKeepsInv(n, run[i - 1], a);
    }
  }

  /** The ring refines a queue of packets: in every run, what has been received is exactly the first
      packets sent, each whole, once and in order. */
  lemma ReceivedIsPrefixOfSent(n: nat, run: seq<State>, i: nat)
    requires ValidLen(n) && Run(n, run) && i < |run|
    ensures run[i].received <= run[i].sent
  {
    RunInv(n, run, i);
  }

  /** In every run no byte of a packet still to be received is overwritten: it stays as sent. */
  lemma UnreadBytesSurvive(n: nat, run: seq<State>, i: nat, packet: nat, k: nat)
    requires ValidLen(n) && Run(n, run) && i < |run|
    requires |run[i].received| <= packet < |run[i].sent| && k < FrameLen(run[i].sent[packet])
    ensures |run[i].sizes| == |run[i].sent|
    ensures |run[i].sent[packet]| < 0x8000_0000 && Pos(n, run[i].sizes, packet) < n == |run[i].buf|
    ensures Wrap(n, Pos(n, run[i].sizes, packet), k) < n
    ensures run[i].buf[Wrap(n, Pos(n, run[i].sizes, packet), k)] == Frame(run[i].sent[packet])[k]
  {
    RunInv(n, run, i);
    assert Stored(n, run[i].buf, Pos(n, run[i].sizes, packet), run[i].sent[packet], FrameLen(run[i].sent[packet]));
  }

  /** In every run all six pointers are multiples of 8 inside the ring, so the 4-byte length load of
      pt_pkg_len never runs over its end. */
  lemma PointersAligned(n: nat, run: seq<State>, i: nat)
    requires ValidLen(n) && Run(n, run) && i < |run|
    ensures var s := run[i];
            && s.pHead % 8 == 0 && s.pTail % 8 == 0 && s.sHead % 8 == 0 && s.sTail % 8 == 0
            && s.cHead % 8 == 0 && s.cTail % 8 == 0 && s.cTail + HEADER <= n
  {
    RunInv(n, run, i);
    AlignedPointers(n, run[i]);
  }

  lemma AlignedPointers(n: nat, s: State)
    requires n % PT_ALIGN == 0 && InRange(n, s) && Counts(s) && Small(n, s.sizes) && Pointers(n, s)
    ensures s.pHead % 8 == 0 && s.pTail % 8 == 0 && s.sHead % 8 == 0 && s.sTail % 8 == 0
    ensures s.cHead % 8 == 0 && s.cTail % 8 == 0 && s.cTail + HEADER <= n
  {
    forall j | 0 <= j < |s.sizes| ensures s.sizes[j] % PT_ALIGN == 0 {
      TotalLenAligned(|s.sent[j]|);
    }
    AlignedAt(n, s.sizes, |s.sent|, s.pHead);
    AlignedAt(n, s.sizes, s.known, s.pTail);
    AlignedAt(n, s.sizes, s.published, s.sHead);
    AlignedAt(n, s.sizes, s.freed, s.sTail);
    AlignedAt(n, s.sizes, s.seen, s.cHead);
    AlignedAt(n, s.sizes, |s.received|, s.cTail);
  }

  lemma AlignedAt(n: nat, sizes: seq<nat>, i: nat, p: nat)
    requires n % PT_ALIGN == 0 && i <= |sizes| && Small(n, sizes) && p == Pos(n, sizes, i)
    requires forall j :: 0 <= j < |sizes| ==> sizes[j] % PT_ALIGN == 0
    ensures p % 8 == 0 && p + HEADER <= n
  {
    PosInRange(n, sizes, i);
    PosAligned(n, sizes, i);
  }

  /** In every run, once the receiver has loaded a new head there is a whole packet to take: its length
      is loaded inside the buffer and reads correctly, and a receive whose caller has room is never refused. */
  lemma ReceiveNeverRefused(n: nat, run: seq<State>, i: nat, capacity: nat)
    requires ValidLen(n) && Run(n, run) && i < |run|
    requires run[i].receiving == None && run[i].cHead != run[i].cTail
    ensures Enabled(n, run[i], RecvStart(capacity))
    ensures |run[i].received| < |run[i].sent|
    ensures var len := |run[i].sent[|run[i].received|]|;
            Apply(n, run[i], RecvStart(capacity))
            == if len > capacity then run[i] else run[i].(receiving := Some(len), got := [])
  {
    RunInv(n, run, i);
    AlignedPointers(n, run[i]);
    HeaderIsNextLength(n, run[i]);
  }

  /** In every run a send is refused exactly when the packet does not fit beside the packets the sender
      does not yet know to be consumed; with everything known consumed, any packet whose padded length is
      below the ring size is accepted. */
  lemma SendRefusedExactlyWhenFull(n: nat, run: seq<State>, i: nat, data: Packet)
    requires ValidLen(n) && Run(n, run) && i < |run|
    requires Enabled(n, run[i], SendStart(data))
    ensures run[i].known <= |run[i].sent| == |run[i].sizes|
    ensures Apply(n, run[i], SendStart(data)) == run[i] <==>
            Off(run[i].sizes, |run[i].sent|) - Off(run[i].sizes, run[i].known) + TotalLen(|data|) >= n
  {
    RunInv(n, run, i);
    Distance(n, run[i].sizes, run[i].known, |run[i].sent|);
  }
}
