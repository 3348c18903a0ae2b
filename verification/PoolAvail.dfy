/** How far the counter of a chunk is from the free granules, and when it can go below zero. */
module PoolAvail {
  import opened Arith
  import opened WordBits
  import opened Bitmap
  import opened PoolProtocol
  import opened Wrappers

  // ---------------------------------------------------------------- what the counter says in every state

  /** Clear bits among the first `n`. */
  function ClearBits(words: seq<Word>, n: nat): nat
    requires n <= |words| * BITS_PER_LONG
  {
    if n == 0 then 0 else ClearBits(words, n - 1) + (if BitAt(words, n - 1) then 0 else 1)
  }

  /** Granules a request has charged but does not hold, less those it holds uncharged: what a free in progress
      has cleared and still has to credit, and what a claim in progress has set and still has to charge. */
  function Owed(ph: Phase): int {
    match ph
    case Setting(start, _, pos, _) => start - pos
    case RollingBack(_, _, stop, pos, _) => pos - stop
    case Claimed(_, nr) => 0 - nr
    case Freeing(start, _, pos, _) => pos - start
    case Cleared(nr) => nr
    case _ => 0
  }

  function TotalOwed(reqs: seq<Phase>): int {
    if reqs == [] then 0 else Owed(reqs[0]) + TotalOwed(reqs[1..])
  }

  lemma {:induction false} TotalOwedUpdate(reqs: seq<Phase>, id: nat, ph: Phase)
    requires id < |reqs|
    ensures TotalOwed(reqs[id := ph]) == TotalOwed(reqs) - Owed(reqs[id]) + Owed(ph)
  {
    if id == 0 {
      assert reqs[0 := ph] == [ph] + reqs[1..];
    } else {
      TotalOwedUpdate(reqs[1..], id - 1, ph);
      assert reqs[id := ph] == [reqs[0]] + reqs[1..][id - 1 := ph];
    }
  }

  lemma {:induction false} TotalOwedConcat(a: seq<Phase>, b: seq<Phase>)
    ensures TotalOwed(a + b) == TotalOwed(a) + TotalOwed(b)
  {
    if a == [] {
      assert a + b == b;
    } else {
      TotalOwedConcat(a[1..], b);
      assert a + b == [a[0]] + (a[1..] + b);
    }
  }

  lemma {:induction false} NothingOwed(reqs: seq<Phase>)
    requires forall i :: 0 <= i < |reqs| ==> !reqs[i].Freeing? && !reqs[i].Cleared? && Owed(reqs[i]) <= 0
    ensures TotalOwed(reqs) <= 0
  {
    if reqs != [] {
      NothingOwed(reqs[1..]);
    }
  }

  /** The owner of a bit counts it, and nobody else does. */
  lemma {:induction false} OneOwner(reqs: seq<Phase>, n: nat, i: nat)
    requires Disjoint(reqs) && i < |reqs| && Owns(reqs[i], n)
    ensures TotalOwned(reqs, n + 1) == TotalOwned(reqs, n) + 1
  {
    var rest := reqs[1..];
    assert forall j: nat :: j < |rest| ==> rest[j] == reqs[j + 1];
    if i == 0 {
      forall j: nat | j < |rest| ensures !Owns(rest[j], n) {
        assert !Owns(reqs[j + 1], n);
      }
      NobodyOwns(rest, n);
    } else {
      assert !Owns(reqs[0], n);
      forall j: nat, l: nat, k: nat | j < |rest| && l < |rest| && j != l && Owns(rest[j], k) ensures !Owns(rest[l], k) {
        assert Owns(reqs[j + 1], k);
        assert !Owns(reqs[l + 1], k);
      }
      assert Owns(rest[i - 1], n);
      OneOwner(rest, n, i - 1);
    }
  }

  /** Of the first n bits, those not owned are clear. */
  lemma {:induction false} OwnedOrClear(words: seq<Word>, reqs: seq<Phase>, n: nat)
    requires Disjoint(reqs) && Accounted(words, reqs) && n <= |words| * BITS_PER_LONG
    requires forall i: nat :: i < |reqs| ==> Lo(reqs[i]) >= 0
    ensures TotalOwned(reqs, n) + ClearBits(words, n) == n
  {
    if n == 0 {
      NothingOwnedBelowZero(reqs);
    } else {
      OwnedOrClear(words, reqs, n - 1);
      if BitAt(words, n - 1) {
        var i: nat :| i < |reqs| && Owns(reqs[i], n - 1);
        OneOwner(reqs, n - 1, i);
      } else {
        NobodyOwns(reqs, n - 1);
      }
    }
  }

  lemma {:induction false} ChargedIsOwnedPlusOwed(c: Chunk, reqs: seq<Phase>)
    requires forall i: nat :: i < |reqs| ==> WellFormed(c, reqs[i])
    ensures TotalCharged(reqs) == TotalOwned(reqs, c.bits) + TotalOwed(reqs)
  {
    if reqs != [] {
      assert WellFormed(c, reqs[0]);
      ChargedIsOwnedPlusOwed(c, reqs[1..]);
    }
  }

  /** Free granules less what is owed. */
  function Balance(c: Chunk, s: State): int
    requires c.bits <= |s.words| * BITS_PER_LONG
  {
    ClearBits(s.words, c.bits) - TotalOwed(s.reqs)
  }

  lemma InvBalance(c: Chunk, s: State)
    requires Inv(c, s)
    ensures s.avail == c.size - c.bits * c.granule + Balance(c, s) * c.granule
  {
    forall i: nat | i < |s.reqs| ensures Lo(s.reqs[i]) >= 0 {
      assert WellFormed(c, s.reqs[i]);
    }
    OwnedOrClear(s.words, s.reqs, c.bits);
    ChargedIsOwnedPlusOwed(c, s.reqs);
    assert TotalCharged(s.reqs) == c.bits - Balance(c, s);
    Distrib(c.bits, Balance(c, s), c.granule);
  }

  lemma SignOfBalance(c: Chunk, avail: int, balance: int)
    requires ValidChunk(c) && avail == c.size - c.bits * c.granule + balance * c.granule
    ensures avail < 0 <==> balance < 0
  {
    Distrib(c.bits, 1, c.granule);
    if balance < 0 {
      MulMono(balance, -1, c.granule);
    } else {
      MulMono(0, balance, c.granule);
    }
  }

  /** In every state of every run, quiescent or not: the counter is the size, less the granules that are neither
      clear nor owed; and so it is below zero exactly when frees in progress owe more granules than are clear and
      taken but not yet charged. */
  lemma AvailExactly(c: Chunk, run: seq<State>, n: nat)
    requires ValidChunk(c) && Run(c, run) && n < |run|
    ensures c.bits <= |run[n].words| * BITS_PER_LONG
    ensures run[n].avail == c.size - c.bits * c.granule + Balance(c, run[n]) * c.granule
    ensures run[n].avail < 0 <==> TotalOwed(run[n].reqs) > ClearBits(run[n].words, c.bits)
  {
    RunInv(c, run, n);
    InvBalance(c, run[n]);
    SignOfBalance(c, run[n].avail, Balance(c, run[n]));
  }

  // ---------------------------------------------------------------- new allocations

  /** A step of a request that begins after the first `before` ones, up to its being live. */
  predicate Allocates(before: nat, a: Action) {
    match a
    case Begin(_) => true
    case Release(_) => false
    case Credit(_) => false
    case Pick(id, _) => id >= before
    case GiveUp(id) => id >= before
    case Load(id) => id >= before
    case Exchange(id) => id >= before
    case Retry(id) => id >= before
    case Charge(id) => id >= before
  }

  ghost predicate AllocStep(c: Chunk, before: nat, s: State, s': State) {
    exists a: Action :: IsStep(c, s, a, s') && Allocates(before, a)
  }

  /** New allocations only; the requests in progress pause. */
  ghost predicate Allocations(c: Chunk, before: nat, path: seq<State>) {
    |path| > 0 && forall i :: 0 <= i < |path| - 1 ==> AllocStep(c, before, path[i], path[i + 1])
  }

  function Last(path: seq<State>): State
    requires |path| > 0
  {
    path[|path| - 1]
  }

  /** New allocations can bring the counter below zero. */
  ghost predicate CanGoBelow(c: Chunk, s: State) {
    exists path: seq<State> :: Allocations(c, |s.reqs|, path) && path[0] == s && Last(path).avail < 0
  }

  // ---------------------------------------------------------------- when they cannot

  /** The old requests are as they were, and no new one frees. */
  ghost predicate OnlyNew(s: State, t: State) {
    && s.reqs <= t.reqs
    && forall i :: |s.reqs| <= i < |t.reqs| ==> !t.reqs[i].Freeing? && !t.reqs[i].Cleared?
  }

  lemma StepOnlyNew(c: Chunk, s: State, t: State, a: Action, t': State)
    requires OnlyNew(s, t) && IsStep(c, t, a, t') && Allocates(|s.reqs|, a)
    ensures OnlyNew(s, t')
  {
  }

  /** At zero no request passes the size test. */
  lemma NoneBeginsAtZero(c: Chunk, s: State, a: Action)
    requires s.avail == 0 && Allocates(|s.reqs|, a)
    ensures !Enabled(c, s, a)
  {
  }

  lemma NoPathAtZero(c: Chunk, path: seq<State>)
    requires |path| > 0 && Allocations(c, |path[0].reqs|, path) && path[0].avail == 0
    ensures |path| == 1
  {
    if |path| > 1 {
      assert AllocStep(c, |path[0].reqs|, path[0], path[0 + 1]);
      var a: Action :| IsStep(c, path[0], a, path[1]) && Allocates(|path[0].reqs|, a);
      NoneBeginsAtZero(c, path[0], a);
    }
  }

  lemma {:induction false} PathOnlyNew(c: Chunk, path: seq<State>, i: nat)
    requires |path| > 0 && Allocations(c, |path[0].reqs|, path) && Inv(c, path[0]) && i < |path|
    ensures OnlyNew(path[0], path[i]) && Inv(c, path[i])
  {
    if i > 0 {
      PathOnlyNew(c, path, i - 1);
      assert AllocStep(c, |path[0].reqs|, path[i - 1], path[i - 1 + 1]);
      var a: Action :| IsStep(c, path[i - 1], a, path[i]) && Allocates(|path[0].reqs|, a);
      StepOnlyNew(c, path[0], path[i - 1], a, path[i]);
      NextKeepsInv(c, path[i - 1], a);
    }
  }

  /** New allocations owe nothing. */
  lemma OwedShrinks(c: Chunk, s: State, t: State)
    requires OnlyNew(s, t) && Inv(c, t)
    ensures TotalOwed(t.reqs) <= TotalOwed(s.reqs)
  {
    var added := t.reqs[|s.reqs|..];
    assert t.reqs == s.reqs + added;
    TotalOwedConcat(s.reqs, added);
    forall i | 0 <= i < |added| ensures !added[i].Freeing? && !added[i].Cleared? && Owed(added[i]) <= 0 {
      assert WellFormed(c, t.reqs[|s.reqs| + i]);
    }
    NothingOwed(added);
  }

  lemma StaysAbove(c: Chunk, path: seq<State>)
    requires ValidChunk(c) && |path| > 0 && Allocations(c, |path[0].reqs|, path) && Inv(c, path[0])
    requires path[0].avail >= 0 && (path[0].avail == 0 || TotalOwed(path[0].reqs) <= 0)
    ensures Last(path).avail >= 0
  {
    var s, t := path[0], Last(path);
    PathOnlyNew(c, path, |path| - 1);
    if s.avail == 0 {
      NoPathAtZero(c, path);
    } else {
      OwedShrinks(c, s, t);
      InvBalance(c, t);
      SignOfBalance(c, t.avail, Balance(c, t));
    }
  }

  // ---------------------------------------------------------------- when they can

  lemma Onward(c: Chunk, before: nat, path: seq<State>, a: Action, s': State)
    requires Allocations(c, before, path) && Inv(c, Last(path)) && IsStep(c, Last(path), a, s') && Allocates(before, a)
    ensures Allocations(c, before, path + [s']) && Inv(c, s')
  {
    NextKeepsInv(c, Last(path), a);
    assert AllocStep(c, before, Last(path), s');
    var path' := path + [s'];
    forall i | 0 <= i < |path'| - 1 ensures AllocStep(c, before, path'[i], path'[i + 1]) {
      assert i < |path| - 1 ==> AllocStep(c, before, path[i], path[i + 1]);
    }
  }

  lemma {:induction false} SomeBitClear(words: seq<Word>, n: nat) returns (k: nat)
    requires n <= |words| * BITS_PER_LONG && ClearBits(words, n) > 0
    ensures k < n && !BitAt(words, k)
  {
    if !BitAt(words, n - 1) {
      k := n - 1;
    } else {
      k := SomeBitClear(words, n - 1);
    }
  }

  lemma {:induction false} OneBitLess(a: seq<Word>, b: seq<Word>, k: nat, n: nat)
    requires Flips(a, b, k, k + 1, true) && n <= |a| * BITS_PER_LONG && k < |a| * BITS_PER_LONG && !BitAt(a, k)
    ensures ClearBits(b, n) == ClearBits(a, n) - if k < n then 1 else 0
  {
    if n > 0 {
      OneBitLess(a, b, k, n - 1);
    }
  }

  /** The word of a clear bit is read ... */
  function Seen(s: State, id: nat, k: nat): State
    requires id < |s.reqs| && k < |s.words| * BITS_PER_LONG
  {
    s.(reqs := s.reqs[id := Setting(k, 1, k, Some(s.words[k / BITS_PER_LONG]))])
  }

  /** ... and exchanged. */
  function Taken(s: State, id: nat, k: nat): State
    requires id < |s.reqs| && k < |s.words| * BITS_PER_LONG
  {
    var p := k / BITS_PER_LONG;
    s.(words := s.words[p := Stored(s.words[p], RangeMask(k, k + 1), true)], reqs := s.reqs[id := Claimed(k, 1)])
  }

  lemma SeenIsStep(c: Chunk, s: State, id: nat, k: nat)
    requires id < |s.reqs| && s.reqs[id] == Setting(k, 1, k, None) && k < |s.words| * BITS_PER_LONG
    ensures IsStep(c, s, Load(id), Seen(s, id, k))
  {
  }

  lemma OneBit(words: seq<Word>, k: nat)
    requires k < |words| * BITS_PER_LONG && !BitAt(words, k)
    ensures Step(k, k + 1) == 1 && Ready(words[k / BITS_PER_LONG], RangeMask(k, k + 1), true)
    ensures Flips(words, words[k / BITS_PER_LONG := Stored(words[k / BITS_PER_LONG], RangeMask(k, k + 1), true)], k, k + 1, true)
  {
    StepOne(k);
    OneClear(words, k);
    WordStep(words, k, k + 1, true);
  }

  lemma StepOne(k: nat)
    ensures Step(k, k + 1) == 1
  {
  }

  lemma OneClear(words: seq<Word>, k: nat)
    requires k < |words| * BITS_PER_LONG && !BitAt(words, k)
    ensures AllAre(words, k, k + 1, false)
  {
    forall j: nat | k <= j < k + 1 ensures !BitAt(words, j) {
      assert j == k;
    }
  }

  lemma ExchangeOne(c: Chunk, s: State, id: nat, k: nat, val: Word)
    requires id < |s.reqs| && k < |s.words| * BITS_PER_LONG && val == s.words[k / BITS_PER_LONG]
    requires s.reqs[id] == Setting(k, 1, k, Some(val)) && Step(k, k + 1) == 1 && Ready(val, RangeMask(k, k + 1), true)
    ensures IsStep(c, s, Exchange(id), s.(words := s.words[k / BITS_PER_LONG := Stored(val, RangeMask(k, k + 1), true)],
                                          reqs := s.reqs[id := Claimed(k, 1)]))
  {
  }

  lemma TakenIsStep(c: Chunk, s: State, id: nat, k: nat)
    requires id < |s.reqs| && k < |s.words| * BITS_PER_LONG && !BitAt(s.words, k)
    ensures IsStep(c, Seen(s, id, k), Exchange(id), Taken(s, id, k))
    ensures Flips(s.words, Taken(s, id, k).words, k, k + 1, true)
  {
    OneBit(s.words, k);
    ExchangeOne(c, Seen(s, id, k), id, k, s.words[k / BITS_PER_LONG]);
    assert Seen(s, id, k).reqs[id := Claimed(k, 1)] == Taken(s, id, k).reqs;
  }

  /** One granule is set and claimed, undisturbed. */
  lemma SetOne(c: Chunk, before: nat, path: seq<State>, id: nat, k: nat) returns (path': seq<State>)
    requires Allocations(c, before, path) && Inv(c, Last(path)) && before <= id < |Last(path).reqs|
    requires Last(path).reqs[id] == Setting(k, 1, k, None) && k < c.bits && !BitAt(Last(path).words, k)
    ensures Allocations(c, before, path') && Inv(c, Last(path')) && path'[0] == path[0]
    ensures Flips(Last(path).words, Last(path').words, k, k + 1, true)
    ensures Last(path').avail == Last(path).avail && Last(path').reqs == Last(path).reqs[id := Claimed(k, 1)]
  {
    var s := Last(path);
    SeenIsStep(c, s, id, k);
    Onward(c, before, path, Load(id), Seen(s, id, k));
    path' := path + [Seen(s, id, k)];
    TakenIsStep(c, s, id, k);
    Onward(c, before, path', Exchange(id), Taken(s, id, k));
    path' := path' + [Taken(s, id, k)];
  }

  /** A request for one granule takes a clear bit and is charged. */
  lemma TakeOne(c: Chunk, before: nat, path: seq<State>, id: nat) returns (path': seq<State>)
    requires Allocations(c, before, path) && Inv(c, Last(path)) && before <= id < |Last(path).reqs|
    requires Last(path).reqs[id] == Searching(1) && ClearBits(Last(path).words, c.bits) > 0
    ensures Allocations(c, before, path') && Inv(c, Last(path')) && path'[0] == path[0]
    ensures ClearBits(Last(path').words, c.bits) == ClearBits(Last(path).words, c.bits) - 1
    ensures Last(path').avail == Last(path).avail - c.granule && |Last(path').reqs| == |Last(path).reqs|
    ensures TotalOwed(Last(path').reqs) == TotalOwed(Last(path).reqs)
    ensures forall i: nat :: i < |Last(path).reqs| && i != id ==> Last(path').reqs[i] == Last(path).reqs[i]
  {
    var s := Last(path);
    var k := SomeBitClear(s.words, c.bits);
    var picked := s.(reqs := s.reqs[id := Setting(k, 1, k, None)]);
    Onward(c, before, path, Pick(id, k), picked);
    path' := SetOne(c, before, path + [picked], id, k);
    var t := Last(path');
    OneBitLess(s.words, t.words, k, c.bits);
    var live := t.(avail := t.avail - c.granule, reqs := t.reqs[id := Live(k, 1)]);
    Onward(c, before, path', Charge(id), live);
    path' := path' + [live];
    assert live.reqs == s.reqs[id := Live(k, 1)];
    TotalOwedUpdate(s.reqs, id, Live(k, 1));
  }

  /** One more request for a single granule. */
  lemma BeginOne(c: Chunk, before: nat, path: seq<State>) returns (path': seq<State>)
    requires Allocations(c, before, path) && Inv(c, Last(path)) && c.granule > 0 && Last(path).avail > 0 && before <= |Last(path).reqs|
    ensures Allocations(c, before, path') && Inv(c, Last(path')) && path'[0] == path[0]
    ensures Last(path') == Last(path).(reqs := Last(path).reqs + [Searching(1)])
    ensures TotalOwed(Last(path').reqs) == TotalOwed(Last(path).reqs)
  {
    var s := Last(path);
    GranulesPositive(1, c.granule);
    if Granules(1, c.granule) > 1 {
      MulMono(2, Granules(1, c.granule), c.granule);
    }
    var s' := s.(reqs := s.reqs + [Searching(1)]);
    Onward(c, before, path, Begin(1), s');
    path' := path + [s'];
    TotalOwedConcat(s.reqs, [Searching(1)]);
  }

  /** While more is owed than is taken, one request after the other takes a clear granule. */
  lemma {:induction false} Drive(c: Chunk, before: nat, path: seq<State>, id: nat) returns (path': seq<State>)
    requires ValidChunk(c) && Allocations(c, before, path) && Inv(c, Last(path))
    requires before <= id < |Last(path).reqs| && Last(path).reqs[id] == Searching(1) && TotalOwed(Last(path).reqs) > 0
    ensures Allocations(c, before, path') && path'[0] == path[0] && Last(path').avail < 0
    decreases ClearBits(Last(path).words, c.bits)
  {
    var s := Last(path);
    InvBalance(c, s);
    SignOfBalance(c, s.avail, Balance(c, s));
    path' := path;
    if s.avail >= 0 {
      var spare := |s.reqs|;
      if s.avail > 0 {
        path' := BeginOne(c, before, path);
      }
      var t := Last(path');
      path' := TakeOne(c, before, path', id);
      if s.avail > 0 {
        assert t.reqs[spare] == Searching(1);
        path' := Drive(c, before, path', spare);
      }
    }
  }

  /** The exact condition: from a state that a run can reach, new allocations alone can bring the counter below
      zero if and only if it is there already, or lets a request pass while frees in progress owe more granules
      than claims in progress have still to charge. */
  lemma GoesBelowExactly(c: Chunk, run: seq<State>)
    requires ValidChunk(c) && Run(c, run)
    ensures CanGoBelow(c, Last(run)) <==>
            Last(run).avail < 0 || (Last(run).avail > 0 && TotalOwed(Last(run).reqs) > 0)
  {
    var s := Last(run);
    RunInv(c, run, |run| - 1);
    assert Allocations(c, |s.reqs|, [s]) && Last([s]) == s;
    if s.avail > 0 && TotalOwed(s.reqs) > 0 {
      var path := BeginOne(c, |s.reqs|, [s]);
      path := Drive(c, |s.reqs|, path, |s.reqs|);
    } else if s.avail >= 0 {
      forall path: seq<State> | Allocations(c, |s.reqs|, path) && path[0] == s ensures Last(path).avail >= 0 {
        StaysAbove(c, path);
      }
    }
  }
}
