/** The packet transmitter's byte ring: length-prefixed packets, padded to 8 bytes, in a circular buffer
    with one writer and one reader (bm_pt.c), and the same format on the message registers (sg_comm.c).
    Module PacketProtocol runs the two sides against each other. */
module PacketRing {
  import opened Ring

  type Byte = b: int | 0 <= b < 256 witness 0

  const PT_ALIGN: nat := 8
  const HEADER: nat := 4

  /** round_up(len + sizeof(pkg_len), PT_ALIGN) */
  function TotalLen(len: nat): (t: nat)
    ensures len + HEADER <= t < len + HEADER + PT_ALIGN
  {
    (len + HEADER + PT_ALIGN - 1) / PT_ALIGN * PT_ALIGN
  }

  lemma TotalLenAligned(len: nat)
    ensures TotalLen(len) % PT_ALIGN == 0
  {
  }

  /** cpu_to_le32 and le32_to_cpu on the four bytes in memory. */
  function Le32(n: nat): (s: seq<Byte>)
    requires n < 0x1_0000_0000
    ensures |s| == HEADER
  {
    [n % 256, n / 256 % 256, n / 65536 % 256, n / 16777216]
  }

  function FromLe32(s: seq<Byte>): nat
    requires |s| == HEADER
  {
    (s[0] as int) + 256 * (s[1] as int) + 65536 * (s[2] as int) + 16777216 * (s[3] as int)
  }

  lemma Le32RoundTrip(n: nat)
    requires n < 0x1_0000_0000
    ensures FromLe32(Le32(n)) == n
  {
    assert n / 65536 == n / 256 / 256;
    assert n / 16777216 == n / 65536 / 256;
  }

  function Frame(data: seq<Byte>): (f: seq<Byte>)
    requires |data| < 0x1_0000_0000
    ensures |f| == HEADER + |data|
  {
    Le32(|data|) + data
  }

  /** __enqueue: two memcpys, returning the advanced head. */
  method Enqueue(queue: array<Byte>, head: nat, data: seq<Byte>) returns (newHead: nat)
    requires head < queue.Length && |data| <= queue.Length
    modifies queue
    ensures queue[..] == Put(old(queue[..]), head, data)
    ensures newHead == Wrap(queue.Length, head, |data|) < queue.Length
  {
    var tmp := if |data| < queue.Length - head then |data| else queue.Length - head;
    Memcpy(queue, head, data[..tmp]);
    Memcpy(queue, 0, data[tmp..]);
    ModIsWrap(queue.Length, head, |data|);
    newHead := (head + |data|) % queue.Length;
  }

  /** memcpy into the buffer. */
  method Memcpy(queue: array<Byte>, at: nat, data: seq<Byte>)
    requires at + |data| <= queue.Length
    modifies queue
    ensures forall j :: 0 <= j < queue.Length ==>
              queue[j] == if at <= j < at + |data| then data[j - at] else old(queue[j])
  {
    var i := 0;
    while i < |data|
      invariant 0 <= i <= |data|
      invariant forall j :: 0 <= j < queue.Length ==>
                  queue[j] == if at <= j < at + i then data[j - at] else old(queue[j])
    {
      queue[at + i] := data[i];
      i := i + 1;
    }
  }

  /** __dequeue: two memcpys out, returning the advanced tail. */
  method Dequeue(queue: array<Byte>, tail: nat, len: nat) returns (newTail: nat, data: seq<Byte>)
    requires tail < queue.Length && len <= queue.Length
    ensures data == Get(queue[..], tail, len)
    ensures newTail == Wrap(queue.Length, tail, len) < queue.Length
  {
    var tmp := if len < queue.Length - tail then len else queue.Length - tail;
    data := queue[tail..tail + tmp] + queue[..len - tmp];
    ModIsWrap(queue.Length, tail, len);
    newTail := (tail + len) % queue.Length;
  }

  /** What a send of `data` does to the buffer and the head, given what the sender takes the tail to be:
      refused when the padded packet does not fit beside the unread bytes and the one byte that is always
      kept free, and otherwise the frame is written at the head and the head advances past the padding. */
  ghost predicate SendEffect(buf: seq<Byte>, head: nat, tail: nat, data: seq<Byte>, ret: int, buf': seq<Byte>, head': nat)
    requires head < |buf| && tail < |buf| && |data| < 0x8000_0000
  {
    if |buf| - Used(|buf|, head, tail) - 1 < TotalLen(|data|) then
      ret == -12 && buf' == buf && head' == head
    else
      && ret == |data|
      && |Frame(data)| <= |buf|
      && buf' == Put(buf, head, Frame(data))
      && head' == Wrap(|buf|, head, TotalLen(|data|))
  }

  /** What receiving a packet of `len` bytes delivers and does to the tail. */
  ghost predicate RecvEffect(buf: seq<Byte>, head: nat, tail: nat, len: nat, data: seq<Byte>, tail': nat)
    requires head < |buf| && tail < |buf|
  {
    && len + HEADER <= |buf|
    && data == Get(buf, tail, len + HEADER)[HEADER..]
    && tail' == Wrap(|buf|, tail, TotalLen(len))
  }

  /** The queue one side works on (`Used` is local_queue_used): its own end, and its last copy of the other side's end. */
  class LocalQueue {
    const cpu: array<Byte>
    var head: nat
    var tail: nat

    predicate Valid()
      reads this
    {
      head < cpu.Length && tail < cpu.Length && cpu.Length < 0x8000_0000
    }

    constructor (len: nat)
      requires 0 < len < 0x8000_0000
      ensures Valid() && cpu.Length == len && head == tail == 0 && fresh(cpu)
    {
      cpu := new Byte[len](_ => 0);
      head, tail := 0, 0;
    }

    /** pt_send: refuses when the padded packet does not fit into what this side knows to be free,
        and otherwise writes the frame at head and advances by the padded length. */
    method Send(data: seq<Byte>) returns (ret: int)
      requires Valid() && |data| < 0x8000_0000
      modifies this`head, cpu
      ensures Valid()
      ensures SendEffect(old(cpu[..]), old(head), tail, data, ret, cpu[..], head)
    {
      var totalLen := TotalLen(|data|);
      if cpu.Length - Used(cpu.Length, head, tail) - 1 < totalLen {
        return -12;
      }
      ghost var before := cpu[..];
      var at := Enqueue(cpu, head, Le32(|data|));
      at := Enqueue(cpu, at, data);
      PutConcat(before, head, Le32(|data|), data);
      ModIsWrap(cpu.Length, head, totalLen);
      head := (head + totalLen) % cpu.Length;
      return |data|;
    }

    /** pt_pkg_len: the 4-byte load at tail; it must not run over the end of the buffer. */
    method PkgLen() returns (ret: int)
      requires Valid() && tail + HEADER <= cpu.Length
      ensures ret == if head == tail then -12 else FromLe32(Get(cpu[..], tail, HEADER))
    {
      if head == tail {
        return -12;
      }
      assert cpu[tail..tail + HEADER] == Get(cpu[..], tail, HEADER);
      return FromLe32(cpu[tail..tail + HEADER]);
    }

    /** pt_recv of a packet of `len` bytes. */
    method Recv(len: nat) returns (ret: int, data: seq<Byte>)
      requires Valid() && len < 0x8000_0000
      modifies this`tail
      ensures Valid()
      ensures ret == if Used(cpu.Length, head, old(tail)) < TotalLen(len) then -12 else len
      ensures ret < 0 ==> tail == old(tail) && data == []
      ensures ret >= 0 ==> RecvEffect(cpu[..], head, old(tail), len, data, tail)
    {
      var totalLen := TotalLen(len);
      if Used(cpu.Length, head, tail) < totalLen {
        return -12, [];
      }
      ModIsWrap(cpu.Length, tail, HEADER);
      var at := (tail + HEADER) % cpu.Length;
      at, data := Dequeue(cpu, at, len);
      assert data == Get(cpu[..], tail, len + HEADER)[HEADER..];
      ModIsWrap(cpu.Length, tail, totalLen);
      tail := (tail + totalLen) % cpu.Length;
      return len, data;
    }
  }

  const COMM_MSG_BUFFER_SIZE: nat := 0x400

  /** One direction of the message channel of sg_comm.c: both ends are shared registers, read afresh by
      every call. */
  class MsgChannel {
    const buffer: array<Byte>
    var head: nat
    var tail: nat

    predicate Valid()
      reads this
    {
      buffer.Length == COMM_MSG_BUFFER_SIZE && head < COMM_MSG_BUFFER_SIZE && tail < COMM_MSG_BUFFER_SIZE
    }

    constructor ()
      ensures Valid() && head == tail == 0 && fresh(buffer)
    {
      buffer := new Byte[COMM_MSG_BUFFER_SIZE](_ => 0);
      head, tail := 0, 0;
    }

    /** sg_comm_msg_send: the same effect as pt_send with a fresh tail. */
    method MsgSend(data: seq<Byte>) returns (ret: int)
      requires Valid() && |data| < 0x8000_0000
      modifies this`head, buffer
      ensures Valid()
      ensures SendEffect(old(buffer[..]), old(head), tail, data, ret, buffer[..], head)
    {
      var totalLen := TotalLen(|data|);
      var used := if head >= tail then head - tail else COMM_MSG_BUFFER_SIZE - tail + head;
      var free := COMM_MSG_BUFFER_SIZE - used - 1;
      if totalLen > free {
        return -12;
      }
      ghost var before := buffer[..];
      var at := Enqueue(buffer, head, Le32(|data|));
      var end := Enqueue(buffer, at, data);
      PutConcat(before, head, Le32(|data|), data);
      ModIsWrap(COMM_MSG_BUFFER_SIZE, at, totalLen - HEADER);
      head := (at + totalLen - HEADER) % COMM_MSG_BUFFER_SIZE;
      return |data|;
    }

    /** sg_comm_msg_recv: 0 when there is nothing, -2 without consuming anything when the packet is larger
        than the caller's buffer, and otherwise the packet. */
    method MsgRecv(capacity: nat) returns (ret: int, data: seq<Byte>)
      requires Valid() && tail + HEADER <= COMM_MSG_BUFFER_SIZE
      requires head != tail ==> FromLe32(Get(buffer[..], tail, HEADER)) + HEADER <= COMM_MSG_BUFFER_SIZE
      modifies this`tail
      ensures Valid() && head == old(head)
      ensures var len := FromLe32(Get(buffer[..], old(tail), HEADER));
              if head == old(tail) then ret == 0 && data == [] && tail == old(tail)
              else if len > capacity then ret == -2 && data == [] && tail == old(tail)
              else ret == len && RecvEffect(buffer[..], head, old(tail), len, data, tail)
    {
      if head == tail {
        return 0, [];
      }
      assert buffer[tail..tail + HEADER] == Get(buffer[..], tail, HEADER);
      var pkgLen := FromLe32(buffer[tail..tail + HEADER]);
      if pkgLen > capacity {
        return -2, [];
      }
      var totalLen := TotalLen(pkgLen);
      ModIsWrap(COMM_MSG_BUFFER_SIZE, tail, HEADER);
      var at := (tail + HEADER) % COMM_MSG_BUFFER_SIZE;
      var end;
      end, data := Dequeue(buffer, at, pkgLen);
      assert data == Get(buffer[..], tail, pkgLen + HEADER)[HEADER..];
      ModIsWrap(COMM_MSG_BUFFER_SIZE, at, totalLen - HEADER);
      tail := (at + totalLen - HEADER) % COMM_MSG_BUFFER_SIZE;
      return pkgLen, data;
    }
  }
}
