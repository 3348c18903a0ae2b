/** Circular buffers: writing and reading around the end, and the positions of variable-length records
    stored one after the other. */
module Ring {
  import opened Arith

  /** Position `pos` advanced by `k` around a ring of `n` cells. */
  function Wrap(n: nat, pos: nat, k: nat): nat {
    if pos + k < n then pos + k else pos + k - n
  }

  lemma ModIsWrap(n: nat, pos: nat, k: nat)
    requires pos < n && k <= n
    ensures (pos + k) % n == Wrap(n, pos, k) < n
  {
    DivModUnique(pos + k, n, if pos + k < n then 0 else 1, Wrap(n, pos, k));
  }

  /** How far `j` lies ahead of `pos`. */
  function Ahead(n: nat, pos: nat, j: nat): nat
    requires pos < n && j < n
  {
    if j >= pos then j - pos else j + n - pos
  }

  /** The ring after writing `data` at `pos`, around the end if need be. */
  function Put<T>(buf: seq<T>, pos: nat, data: seq<T>): (r: seq<T>)
    requires pos < |buf| && |data| <= |buf|
    ensures |r| == |buf|
  {
    seq(|buf|, j requires 0 <= j < |buf| =>
      if Ahead(|buf|, pos, j) < |data| then data[Ahead(|buf|, pos, j)] else buf[j])
  }

  /** The `len` cells starting at `pos`. */
  function Get<T>(buf: seq<T>, pos: nat, len: nat): (r: seq<T>)
    requires pos < |buf| && len <= |buf|
    ensures |r| == len
  {
    seq(len, k requires 0 <= k < len => buf[Wrap(|buf|, pos, k)])
  }

  /** What was written is read back, and the rest of the ring is as before. */
  lemma PutGet<T>(buf: seq<T>, pos: nat, data: seq<T>)
    requires pos < |buf| && |data| <= |buf|
    ensures Get(Put(buf, pos, data), pos, |data|) == data
    ensures forall k :: |data| <= k < |buf| ==> Put(buf, pos, data)[Wrap(|buf|, pos, k)] == buf[Wrap(|buf|, pos, k)]
  {
  }

  /** Writing in two consecutive parts is writing the concatenation. */
  lemma PutConcat<T>(buf: seq<T>, pos: nat, a: seq<T>, b: seq<T>)
    requires pos < |buf| && |a| + |b| <= |buf| && |a| < |buf|
    ensures Wrap(|buf|, pos, |a|) < |buf|
    ensures Put(Put(buf, pos, a), Wrap(|buf|, pos, |a|), b) == Put(buf, pos, a + b)
  {
  }

  /** Cells in use between a tail and a head. */
  function Used(n: nat, head: nat, tail: nat): nat
    requires tail < n && head < n
  {
    if head >= tail then head - tail else n - tail + head
  }

  /** Cells the first `i` records take up. */
  function Off(sizes: seq<nat>, i: nat): nat
    requires i <= |sizes|
  {
    if i == 0 then 0 else Off(sizes, i - 1) + sizes[i - 1]
  }

  /** Where record `i` starts in a ring of `n` cells. */
  function Pos(n: nat, sizes: seq<nat>, i: nat): nat
    requires i <= |sizes|
  {
    if i == 0 then 0 else Wrap(n, Pos(n, sizes, i - 1), sizes[i - 1])
  }

  /** Every record is non-empty and fits the ring on its own. */
  ghost predicate Small(n: nat, sizes: seq<nat>) {
    n > 0 && forall i :: 0 <= i < |sizes| ==> 0 < sizes[i] < n
  }

  lemma {:induction false} PosInRange(n: nat, sizes: seq<nat>, i: nat)
    requires i <= |sizes| && Small(n, sizes)
    ensures Pos(n, sizes, i) < n
  {
    if i > 0 {
      PosInRange(n, sizes, i - 1);
    }
  }

  lemma {:induction false} OffMonotone(sizes: seq<nat>, i: nat, j: nat)
    requires i <= j <= |sizes|
    ensures Off(sizes, i) <= Off(sizes, j)
    decreases j
  {
    if i < j {
      OffMonotone(sizes, i, j - 1);
    }
  }

  /** The ring distance between two records is the number of cells between them. */
  lemma {:induction false} Distance(n: nat, sizes: seq<nat>, i: nat, j: nat)
    requires i <= j <= |sizes| && Small(n, sizes)
    requires Off(sizes, j) - Off(sizes, i) < n
    ensures Off(sizes, i) <= Off(sizes, j) && (i < j ==> Off(sizes, i) < Off(sizes, j))
    ensures Pos(n, sizes, i) < n && Pos(n, sizes, j) < n
    ensures Pos(n, sizes, j) == Wrap(n, Pos(n, sizes, i), Off(sizes, j) - Off(sizes, i))
    ensures Used(n, Pos(n, sizes, j), Pos(n, sizes, i)) == Off(sizes, j) - Off(sizes, i)
    decreases j
  {
    PosInRange(n, sizes, i);
    PosInRange(n, sizes, j);
    if i < j {
      Distance(n, sizes, i, j - 1);
    }
  }

  /** Appending a record leaves earlier offsets and positions alone. */
  lemma {:induction false} OffKept(sizes: seq<nat>, size: nat, i: nat)
    requires i <= |sizes|
    ensures Off(sizes + [size], i) == Off(sizes, i)
  {
    if i > 0 {
      OffKept(sizes, size, i - 1);
    }
  }

  lemma {:induction false} PosKept(n: nat, sizes: seq<nat>, size: nat, i: nat)
    requires i <= |sizes|
    ensures Pos(n, sizes + [size], i) == Pos(n, sizes, i)
  {
    if i > 0 {
      PosKept(n, sizes, size, i - 1);
    }
  }

  lemma AppendSpace(n: nat, sizes: seq<nat>, size: nat, from: nat)
    requires from <= |sizes| && Small(n, sizes) && size > 0
    requires Off(sizes, |sizes|) - Off(sizes, from) + size < n
    ensures size < n && Small(n, sizes + [size])
    ensures |sizes + [size]| == |sizes| + 1
    ensures Off(sizes + [size], |sizes| + 1) - Off(sizes + [size], from) < n
    ensures Pos(n, sizes + [size], |sizes| + 1) == Wrap(n, Pos(n, sizes, |sizes|), size)
  {
    OffKept(sizes, size, |sizes|);
    OffKept(sizes, size, from);
    PosKept(n, sizes, size, |sizes|);
    OffMonotone(sizes, from, |sizes|);
  }

  /** Cell `w` past the last record is no cell of a record from `from` on, as long as it is less than a
      ring's length after record `from`. */
  lemma WriteMisses(n: nat, sizes: seq<nat>, from: nat, i: nat, k: nat, w: nat)
    requires Small(n, sizes) && from <= i < |sizes|
    requires Off(sizes, |sizes|) - Off(sizes, from) + w < n && k < sizes[i]
    ensures Pos(n, sizes, i) < n && Pos(n, sizes, |sizes|) < n
    ensures Wrap(n, Pos(n, sizes, i), k) != Wrap(n, Pos(n, sizes, |sizes|), w)
  {
    OffMonotone(sizes, from, i);
    OffMonotone(sizes, i + 1, |sizes|);
    Distance(n, sizes, from, i);
    Distance(n, sizes, from, |sizes|);
    WrapApart(n, Pos(n, sizes, from), Off(sizes, i) - Off(sizes, from), k, Off(sizes, |sizes|) - Off(sizes, from), w);
  }

  /** Two cells of different records less than a ring's length apart are different cells. */
  lemma RecordsApart(n: nat, sizes: seq<nat>, i: nat, k: nat, j: nat, w: nat)
    requires Small(n, sizes) && i < j < |sizes| && k < sizes[i] && w < sizes[j]
    requires Off(sizes, j + 1) - Off(sizes, i) <= n
    ensures Pos(n, sizes, i) < n && Pos(n, sizes, j) < n
    ensures Wrap(n, Pos(n, sizes, i), k) != Wrap(n, Pos(n, sizes, j), w)
  {
    OffMonotone(sizes, i + 1, j);
    Distance(n, sizes, i, j);
    WrapApart(n, Pos(n, sizes, i), 0, k, Off(sizes, j) - Off(sizes, i), w);
  }

  lemma Within(n: nat, sizes: seq<nat>, from: nat, i: nat, j: nat)
    requires from <= i <= j < |sizes| && Off(sizes, |sizes|) - Off(sizes, from) < n
    ensures Off(sizes, j + 1) - Off(sizes, i) <= n
  {
    OffMonotone(sizes, from, i);
    OffMonotone(sizes, j + 1, |sizes|);
  }

  /** Any two cells of records that are together shorter than the ring are different cells. */
  lemma CellsDistinct(n: nat, sizes: seq<nat>, from: nat, i: nat, k: nat, j: nat, w: nat)
    requires Small(n, sizes) && from <= i < |sizes| && from <= j < |sizes|
    requires k < sizes[i] && w < sizes[j] && (i != j || k != w)
    requires Off(sizes, |sizes|) - Off(sizes, from) < n
    ensures Pos(n, sizes, i) < n && Pos(n, sizes, j) < n
    ensures Wrap(n, Pos(n, sizes, i), k) < n && Wrap(n, Pos(n, sizes, j), w) < n
    ensures Wrap(n, Pos(n, sizes, i), k) != Wrap(n, Pos(n, sizes, j), w)
  {
    PosInRange(n, sizes, i);
    PosInRange(n, sizes, j);
    if i < j {
      Within(n, sizes, from, i, j);
      RecordsApart(n, sizes, i, k, j, w);
    } else if j < i {
      Within(n, sizes, from, j, i);
      RecordsApart(n, sizes, j, w, i, k);
    }
  }

  lemma WrapApart(n: nat, base: nat, a: nat, k: nat, b: nat, w: nat)
    requires base < n && a + k < b && b + w < n
    ensures Wrap(n, Wrap(n, base, a), k) != Wrap(n, Wrap(n, base, b), w)
  {
  }
}
