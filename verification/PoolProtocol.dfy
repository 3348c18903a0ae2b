/** Many threads allocating from and freeing to one chunk without a lock.

    A request is a call of bm_gen_pool_alloc_algo that later becomes an allocation and then a call of
    bm_gen_pool_free.  Each load of a bitmap word, each compare-and-swap on it and each atomic update of
    `avail` is one step, and the steps of different requests interleave in every possible way.  The
    search between attempts may answer with any range inside the chunk, since what it read can be
    arbitrarily out of date. */
module PoolProtocol {
  import opened Arith
  import opened WordBits
  import opened Bitmap
  import opened Wrappers

  /** `bits` is end_bit, `granule` is 1 << order, `size` the chunk size in bytes. */
  datatype Chunk = Chunk(bits: nat, granule: nat, size: nat)

  ghost predicate ValidChunk(c: Chunk) {
    c.granule > 0 && c.bits * c.granule <= c.size < (c.bits + 1) * c.granule
  }

  datatype Phase =
    | Searching(nr: nat)                                             // no bit held
    | Setting(start: nat, nr: nat, pos: nat, seen: Option<Word>)     // inside bitmap_set_ll
    | RollingBack(start: nat, nr: nat, stop: nat, pos: nat, seen: Option<Word>) // undoing [start, stop)
    | Claimed(start: nat, nr: nat)                                   // all bits set, avail not yet charged
    | Live(start: nat, nr: nat)                                      // handed to the caller
    | Freeing(start: nat, nr: nat, pos: nat, seen: Option<Word>)     // inside bitmap_clear_ll
    | Cleared(nr: nat)                                               // bits clear, avail not yet credited
    | Done                                                           // freed, or the chunk was skipped
    | Warned                                                         // a WARN_ON was reached

  /** `avail` is an atomic_long_t: signed. */
  datatype State = State(words: seq<Word>, avail: int, reqs: seq<Phase>)

  datatype Action =
    | Begin(bytes: nat)          // a request passes the `size > avail` test
    | Pick(id: nat, start: nat)  // the search answers
    | GiveUp(id: nat)            // the search answers that there is no place
    | Load(id: nat)              // first read of the word
    | Exchange(id: nat)          // the test on the value read, then cmpxchg
    | Retry(id: nat)             // the rollback is complete
    | Charge(id: nat)            // atomic_long_sub
    | Release(id: nat)           // the owner calls bm_gen_pool_free
    | Credit(id: nat)            // atomic_long_add

  function Granules(bytes: nat, granule: nat): nat
    requires granule > 0
  {
    Quot(bytes + granule - 1, granule)
  }

  /** BITS_TO_LONGS */
  function WordsFor(bits: nat): (n: nat)
    ensures bits <= n * BITS_PER_LONG < bits + BITS_PER_LONG
  {
    (bits + BITS_PER_LONG - 1) / BITS_PER_LONG
  }

  function Init(c: Chunk): State {
    State(seq(WordsFor(c.bits), i => Zero()), c.size, [])
  }

  predicate Enabled(c: Chunk, s: State, a: Action) {
    match a
    case Begin(bytes) =>
      // `size > atomic_long_read(avail)` compares unsigned, so a negative counter lets everything pass
      bytes > 0 && c.granule > 0 && (s.avail < 0 || bytes <= s.avail)
    case Pick(id, start) =>
      id < |s.reqs| && s.reqs[id].Searching? && start + s.reqs[id].nr <= c.bits
    case GiveUp(id) => id < |s.reqs| && s.reqs[id].Searching?
    case Load(id) => id < |s.reqs| && InLoop(s.reqs[id]) && s.reqs[id].seen == None && Cursor(s.reqs[id]) < |s.words|
    case Exchange(id) => id < |s.reqs| && InLoop(s.reqs[id]) && s.reqs[id].seen != None && Cursor(s.reqs[id]) < |s.words|
    case Retry(id) => id < |s.reqs| && s.reqs[id].RollingBack? && s.reqs[id].pos >= s.reqs[id].stop
    case Charge(id) => id < |s.reqs| && s.reqs[id].Claimed?
    case Release(id) => id < |s.reqs| && s.reqs[id].Live?
    case Credit(id) => id < |s.reqs| && s.reqs[id].Cleared?
  }

  /** The request is about to read or exchange a word. */
  predicate InLoop(ph: Phase) {
    match ph
    case Setting(start, nr, pos, _) => pos < start + nr
    case RollingBack(_, _, stop, pos, _) => pos < stop
    case Freeing(start, nr, pos, _) => pos < start + nr
    case _ => false
  }

  /** End of the range the current loop works on. */
  function End(ph: Phase): nat
    requires InLoop(ph)
  {
    match ph
    case Setting(start, nr, _, _) => start + nr
    case RollingBack(_, _, stop, _, _) => stop
    case Freeing(start, nr, _, _) => start + nr
  }

  function Cursor(ph: Phase): nat
    requires InLoop(ph)
  {
    ph.pos / BITS_PER_LONG
  }

  function Mask(ph: Phase): Word
    requires InLoop(ph)
  {
    RangeMask(ph.pos, End(ph))
  }

  /** The phase after a failed test in the loop. */
  function Refused(ph: Phase): Phase
    requires InLoop(ph)
  {
    match ph
    case Setting(start, nr, pos, _) => RollingBack(start, nr, pos, start, None)
    case _ => Warned
  }

  /** The phase after a successful exchange. */
  function Advanced(ph: Phase): Phase
    requires InLoop(ph)
  {
    var pos := ph.pos + Step(ph.pos, End(ph));
    match ph
    case Setting(start, nr, _, _) => if pos == start + nr then Claimed(start, nr) else Setting(start, nr, pos, None)
    case RollingBack(start, nr, stop, _, _) => RollingBack(start, nr, stop, pos, None)
    case Freeing(start, nr, _, _) => if pos == start + nr then Cleared(nr) else Freeing(start, nr, pos, None)
  }

  function Apply(c: Chunk, s: State, a: Action): State
    requires Enabled(c, s, a)
  {
    match a
    case Begin(bytes) => s.(reqs := s.reqs + [Searching(Granules(bytes, c.granule))])
    case Pick(id, start) => s.(reqs := s.reqs[id := Setting(start, s.reqs[id].nr, start, None)])
    case GiveUp(id) => s.(reqs := s.reqs[id := Done])
    case Load(id) => s.(reqs := s.reqs[id := s.reqs[id].(seen := Some(s.words[Cursor(s.reqs[id])]))])
    case Exchange(id) =>
      var ph, p := s.reqs[id], Cursor(s.reqs[id]);
      var val := ph.seen.value;
      if !Ready(val, Mask(ph), ph.Setting?) then
        s.(reqs := s.reqs[id := Refused(ph)])
      else if s.words[p] == val then
        s.(words := s.words[p := Stored(val, Mask(ph), ph.Setting?)], reqs := s.reqs[id := Advanced(ph)])
      else
        s.(reqs := s.reqs[id := ph.(seen := Some(s.words[p]))])
    case Retry(id) => s.(reqs := s.reqs[id := Searching(s.reqs[id].nr)])
    case Charge(id) =>
      s.(avail := s.avail - s.reqs[id].nr * c.granule, reqs := s.reqs[id := Live(s.reqs[id].start, s.reqs[id].nr)])
    case Release(id) =>
      s.(reqs := s.reqs[id := Freeing(s.reqs[id].start, s.reqs[id].nr, s.reqs[id].start, None)])
    case Credit(id) => s.(avail := s.avail + s.reqs[id].nr * c.granule, reqs := s.reqs[id := Done])
  }

  ghost predicate Next(c: Chunk, s: State, s': State) {
    exists a: Action :: IsStep(c, s, a, s')
  }

  ghost predicate IsStep(c: Chunk, s: State, a: Action, s': State) {
    Enabled(c, s, a) && s' == Apply(c, s, a)
  }

  /** A finite run from the empty chunk. */
  ghost predicate Run(c: Chunk, run: seq<State>) {
    && |run| > 0
    && run[0] == Init(c)
    && forall i :: 0 <= i < |run| - 1 ==> Next(c, run[i], run[i + 1])
  }

  /** The bits a request has set and not yet cleared. */
  function Lo(ph: Phase): int {
    match ph
    case Setting(start, _, _, _) => start
    case RollingBack(_, _, _, pos, _) => pos
    case Claimed(start, _) => start
    case Live(start, _) => start
    case Freeing(_, _, pos, _) => pos
    case _ => 0
  }

  function Hi(ph: Phase): int {
    match ph
    case Setting(_, _, pos, _) => pos
    case RollingBack(_, _, stop, _, _) => stop
    case Claimed(start, nr) => start + nr
    case Live(start, nr) => start + nr
    case Freeing(start, nr, _, _) => start + nr
    case _ => 0
  }

  ghost predicate Owns(ph: Phase, k: nat) {
    Lo(ph) <= k < Hi(ph)
  }

  /** What a request has been charged for and not been credited. */
  function Charged(ph: Phase): nat {
    match ph
    case Live(_, nr) => nr
    case Freeing(_, nr, _, _) => nr
    case Cleared(nr) => nr
    case _ => 0
  }

  function TotalCharged(reqs: seq<Phase>): nat {
    if reqs == [] then 0 else Charged(reqs[0]) + TotalCharged(reqs[1..])
  }

  /** Every request stays inside the chunk, and a value read by a clearing loop has the bits to clear. */
  ghost predicate WellFormed(c: Chunk, ph: Phase) {
    match ph
    case Searching(nr) => nr >= 1
    case Setting(start, nr, pos, _) => nr >= 1 && start <= pos < start + nr <= c.bits
    case RollingBack(start, nr, stop, pos, seen) =>
      nr >= 1 && start <= pos <= stop < start + nr <= c.bits && (pos < stop ==> SeenSet(ph))
    case Claimed(start, nr) => nr >= 1 && start + nr <= c.bits
    case Live(start, nr) => nr >= 1 && start + nr <= c.bits
    case Freeing(start, nr, pos, seen) => nr >= 1 && start <= pos < start + nr <= c.bits && SeenSet(ph)
    case Cleared(nr) => nr >= 1
    case Done => true
    case Warned => false
  }

  ghost predicate SeenSet(ph: Phase)
    requires InLoop(ph)
  {
    ph.seen.Some? ==> Ready(ph.seen.value, Mask(ph), false)
  }

  ghost predicate Disjoint(reqs: seq<Phase>) {
    forall i: nat, j: nat, k: nat :: i < |reqs| && j < |reqs| && i != j && Owns(reqs[i], k) ==> !Owns(reqs[j], k)
  }

  /** A bit is set exactly when some request owns it. */
  ghost predicate Accounted(words: seq<Word>, reqs: seq<Phase>) {
    && (forall i: nat, k: nat {:trigger Owns(reqs[i], k)} :: i < |reqs| && Owns(reqs[i], k) ==> k < |words| * BITS_PER_LONG && BitAt(words, k))
    && (forall k: nat :: k < |words| * BITS_PER_LONG && BitAt(words, k) ==> exists i: nat :: i < |reqs| && Owns(reqs[i], k))
  }

  ghost predicate Inv(c: Chunk, s: State) {
    && c.bits <= |s.words| * BITS_PER_LONG
    && (forall i: nat :: i < |s.reqs| ==> WellFormed(c, s.reqs[i]))
    && Disjoint(s.reqs)
    && Accounted(s.words, s.reqs)
    && s.avail == c.size - TotalCharged(s.reqs) * c.granule
  }

  lemma {:induction false} TotalChargedUpdate(reqs: seq<Phase>, id: nat, ph: Phase)
    requires id < |reqs|
    ensures TotalCharged(reqs[id := ph]) == TotalCharged(reqs) - Charged(reqs[id]) + Charged(ph)
  {
    if id == 0 {
      assert reqs[0 := ph] == [ph] + reqs[1..];
    } else {
      TotalChargedUpdate(reqs[1..], id - 1, ph);
      assert reqs[id := ph] == [reqs[0]] + reqs[1..][id - 1 := ph];
    }
  }

  lemma {:induction false} TotalChargedAppend(reqs: seq<Phase>, ph: Phase)
    ensures TotalCharged(reqs + [ph]) == TotalCharged(reqs) + Charged(ph)
  {
    if reqs == [] {
      assert reqs + [ph] == [ph];
    } else {
      TotalChargedAppend(reqs[1..], ph);
      assert reqs + [ph] == [reqs[0]] + (reqs[1..] + [ph]);
    }
  }

  /** Changing one request together with the bits [lo, hi): gaining clear bits or giving up owned ones
      keeps every bit accounted for and the requests disjoint. */
  lemma OwnershipMoves(words: seq<Word>, words': seq<Word>, reqs: seq<Phase>, id: nat, ph: Phase, lo: nat, hi: nat, v: bool)
    requires id < |reqs| && Disjoint(reqs) && Accounted(words, reqs)
    requires Flips(words, words', lo, hi, v) && hi <= |words| * BITS_PER_LONG
    requires v ==> AllAre(words, lo, hi, false) && forall k: nat :: Owns(ph, k) <==> Owns(reqs[id], k) || lo <= k < hi
    requires !v ==> forall k: nat :: (lo <= k < hi ==> Owns(reqs[id], k)) && (Owns(ph, k) <==> Owns(reqs[id], k) && !(lo <= k < hi))
    ensures Disjoint(reqs[id := ph]) && Accounted(words', reqs[id := ph])
  {
    var reqs' := reqs[id := ph];
    if v {
      forall i: nat, k: nat | i < |reqs| && lo <= k < hi ensures !Owns(reqs[i], k) {
      }
    }
    assert forall i: nat :: i < |reqs| && i != id ==> reqs'[i] == reqs[i];
    forall k: nat | k < |words| * BITS_PER_LONG && BitAt(words', k)
      ensures exists i: nat :: i < |reqs'| && Owns(reqs'[i], k)
    {
      if v && lo <= k < hi {
        assert Owns(reqs'[id], k);
      } else {
        assert BitAt(words, k);
        var i: nat :| i < |reqs| && Owns(reqs[i], k);
        assert Owns(reqs'[i], k);
      }
    }
    forall i: nat, k: nat | i < |reqs'| && Owns(reqs'[i], k)
      ensures k < |words'| * BITS_PER_LONG && BitAt(words', k)
    {
      OwnedStaysSet(words, words', reqs, id, ph, lo, hi, v, i, k);
    }
  }

  lemma OwnedStaysSet(words: seq<Word>, words': seq<Word>, reqs: seq<Phase>, id: nat, ph: Phase, lo: nat, hi: nat, v: bool,
                      i: nat, k: nat)
    requires id < |reqs| && Disjoint(reqs) && Accounted(words, reqs)
    requires Flips(words, words', lo, hi, v) && hi <= |words| * BITS_PER_LONG
    requires v ==> AllAre(words, lo, hi, false) && forall k: nat :: Owns(ph, k) <==> Owns(reqs[id], k) || lo <= k < hi
    requires !v ==> forall k: nat :: (lo <= k < hi ==> Owns(reqs[id], k)) && (Owns(ph, k) <==> Owns(reqs[id], k) && !(lo <= k < hi))
    requires i < |reqs| && Owns(reqs[id := ph][i], k)
    ensures k < |words'| * BITS_PER_LONG && BitAt(words', k)
  {
    var before, after := Owns(reqs[id], k), Owns(ph, k);
    assert i == id || Owns(reqs[i], k);
    if !(lo <= k < hi) {
      assert Owns(reqs[i], k);
    } else if !v {
      assert false;
    }
  }

  lemma InitInv(c: Chunk)
    ensures Inv(c, Init(c))
  {
    assert forall k: nat :: k < |Init(c).words| * BITS_PER_LONG ==> !BitAt(Init(c).words, k);
  }

  /** The word a clearing loop is about to test has all its bits of the range set. */
  lemma ClearingIsReady(c: Chunk, s: State, id: nat)
    requires Inv(c, s) && id < |s.reqs| && InLoop(s.reqs[id]) && !s.reqs[id].Setting?
    ensures Cursor(s.reqs[id]) < |s.words| && Ready(s.words[Cursor(s.reqs[id])], Mask(s.reqs[id]), false)
  {
    var ph := s.reqs[id];
    WordStep(s.words, ph.pos, End(ph), false);
    forall k: nat | ph.pos <= k < ph.pos + Step(ph.pos, End(ph)) ensures BitAt(s.words, k) {
      assert Owns(ph, k);
    }
  }

  lemma LoadKeepsInv(c: Chunk, s: State, id: nat)
    requires Inv(c, s) && Enabled(c, s, Load(id))
    ensures Inv(c, Apply(c, s, Load(id)))
  {
    var ph := s.reqs[id];
    Reread(c, s, id, ph.(seen := Some(s.words[Cursor(ph)])));
  }

  /** Replacing the value seen by the current value of the word. */
  lemma Reread(c: Chunk, s: State, id: nat, ph: Phase)
    requires Inv(c, s) && id < |s.reqs| && InLoop(s.reqs[id]) && Cursor(s.reqs[id]) < |s.words|
    requires ph == s.reqs[id].(seen := Some(s.words[Cursor(s.reqs[id])]))
    ensures Inv(c, s.(reqs := s.reqs[id := ph]))
  {
    if !ph.Setting? {
      ClearingIsReady(c, s, id);
    }
    TotalChargedUpdate(s.reqs, id, ph);
    OwnershipMoves(s.words, s.words, s.reqs, id, ph, 0, 0, true);
  }

  lemma Distribute(t: int, x: int, y: int, g: int)
    ensures (t - x + y) * g == t * g - (x - y) * g
  {
  }

  /** A request that changes phase without touching the bitmap. */
  lemma PhaseChange(c: Chunk, s: State, id: nat, ph: Phase, avail: int)
    requires Inv(c, s) && id < |s.reqs| && WellFormed(c, ph)
    requires forall k: nat :: Owns(ph, k) <==> Owns(s.reqs[id], k)
    requires avail == s.avail + (Charged(s.reqs[id]) - Charged(ph)) * c.granule
    ensures Inv(c, s.(avail := avail, reqs := s.reqs[id := ph]))
  {
    Distribute(TotalCharged(s.reqs), Charged(s.reqs[id]), Charged(ph), c.granule);
    TotalChargedUpdate(s.reqs, id, ph);
    OwnershipMoves(s.words, s.words, s.reqs, id, ph, 0, 0, true);
  }

  /** A request that changes phase together with bits it gains or gives up. */
  lemma BitsMove(c: Chunk, s: State, words: seq<Word>, id: nat, ph: Phase, lo: nat, hi: nat, v: bool)
    requires Inv(c, s) && id < |s.reqs| && WellFormed(c, ph) && Charged(ph) == Charged(s.reqs[id])
    requires Flips(s.words, words, lo, hi, v) && hi <= |s.words| * BITS_PER_LONG
    requires v ==> AllAre(s.words, lo, hi, false) && forall k: nat :: Owns(ph, k) <==> Owns(s.reqs[id], k) || lo <= k < hi
    requires !v ==> forall k: nat :: (lo <= k < hi ==> Owns(s.reqs[id], k)) && (Owns(ph, k) <==> Owns(s.reqs[id], k) && !(lo <= k < hi))
    ensures Inv(c, s.(words := words, reqs := s.reqs[id := ph]))
  {
    OwnershipMoves(s.words, words, s.reqs, id, ph, lo, hi, v);
    TotalChargedUpdate(s.reqs, id, ph);
  }

  /** What a successful exchange adds to, or takes from, the bits of its request. */
  lemma AdvancedOwns(c: Chunk, ph: Phase)
    requires WellFormed(c, ph) && InLoop(ph)
    ensures WellFormed(c, Advanced(ph)) && Charged(Advanced(ph)) == Charged(ph)
    ensures var lo, hi := ph.pos, ph.pos + Step(ph.pos, End(ph));
            && (ph.Setting? ==> forall k: nat :: Owns(Advanced(ph), k) <==> Owns(ph, k) || lo <= k < hi)
            && (!ph.Setting? ==> forall k: nat :: (lo <= k < hi ==> Owns(ph, k))
                                                  && (Owns(Advanced(ph), k) <==> Owns(ph, k) && !(lo <= k < hi)))
  {
  }

  /** The compare-and-swap found the word unchanged. */
  lemma WordExchanged(c: Chunk, s: State, id: nat)
    requires Inv(c, s) && Enabled(c, s, Exchange(id))
    requires Ready(s.reqs[id].seen.value, Mask(s.reqs[id]), s.reqs[id].Setting?)
    requires s.words[Cursor(s.reqs[id])] == s.reqs[id].seen.value
    ensures Inv(c, Apply(c, s, Exchange(id)))
  {
    var ph, p := s.reqs[id], Cursor(s.reqs[id]);
    var val, v := ph.seen.value, ph.Setting?;
    WordStep(s.words, ph.pos, End(ph), v);
    AdvancedOwns(c, ph);
    BitsMove(c, s, s.words[p := Stored(val, Mask(ph), v)], id, Advanced(ph), ph.pos, ph.pos + Step(ph.pos, End(ph)), v);
  }

  lemma ExchangeKeepsInv(c: Chunk, s: State, id: nat)
    requires Inv(c, s) && Enabled(c, s, Exchange(id))
    ensures Inv(c, Apply(c, s, Exchange(id)))
  {
    var ph, p := s.reqs[id], Cursor(s.reqs[id]);
    var val, v := ph.seen.value, ph.Setting?;
    if !Ready(val, Mask(ph), v) {
      PhaseChange(c, s, id, Refused(ph), s.avail);
    } else if s.words[p] == val {
      WordExchanged(c, s, id);
    } else {
      Reread(c, s, id, ph.(seen := Some(s.words[p])));
    }
  }

  /** A new request holds nothing yet. */
  lemma AppendSearching(c: Chunk, s: State, nr: nat)
    requires Inv(c, s) && nr >= 1
    ensures Inv(c, s.(reqs := s.reqs + [Searching(nr)]))
  {
    TotalChargedAppend(s.reqs, Searching(nr));
    var reqs := s.reqs + [Searching(nr)];
    assert forall i: nat :: i < |s.reqs| ==> reqs[i] == s.reqs[i];
    forall k: nat | k < |s.words| * BITS_PER_LONG && BitAt(s.words, k)
      ensures exists i: nat :: i < |reqs| && Owns(reqs[i], k)
    {
      var i: nat :| i < |s.reqs| && Owns(s.reqs[i], k);
      assert Owns(reqs[i], k);
    }
  }

  lemma CountersKeepInv(c: Chunk, s: State, a: Action)
    requires Inv(c, s) && Enabled(c, s, a) && (a.Charge? || a.Credit?)
    ensures Inv(c, Apply(c, s, a))
  {
    var ph := s.reqs[a.id];
    if a.Charge? {
      PhaseChange(c, s, a.id, Live(ph.start, ph.nr), s.avail - ph.nr * c.granule);
    } else {
      PhaseChange(c, s, a.id, Done, s.avail + ph.nr * c.granule);
    }
  }

  lemma BeginKeepsInv(c: Chunk, s: State, bytes: nat)
    requires Inv(c, s) && Enabled(c, s, Begin(bytes))
    ensures Inv(c, Apply(c, s, Begin(bytes)))
  {
    GranulesPositive(bytes, c.granule);
    AppendSearching(c, s, Granules(bytes, c.granule));
  }

  lemma UntouchedKeepsInv(c: Chunk, s: State, a: Action)
    requires Inv(c, s) && Enabled(c, s, a) && (a.Pick? || a.GiveUp? || a.Retry? || a.Release?)
    ensures Inv(c, Apply(c, s, a))
  {
    var ph := s.reqs[a.id];
    match a
    case Pick(id, start) => PhaseChange(c, s, id, Setting(start, ph.nr, start, None), s.avail);
    case GiveUp(id) => PhaseChange(c, s, id, Done, s.avail);
    case Retry(id) => PhaseChange(c, s, id, Searching(ph.nr), s.avail);
    case Release(id) => PhaseChange(c, s, id, Freeing(ph.start, ph.nr, ph.start, None), s.avail);
  }

  lemma NextKeepsInv(c: Chunk, s: State, a: Action)
    requires Inv(c, s) && Enabled(c, s, a)
    ensures Inv(c, Apply(c, s, a))
  {
    match a
    case Begin(bytes) => BeginKeepsInv(c, s, bytes);
    case Load(id) => LoadKeepsInv(c, s, id);
    case Exchange(id) => ExchangeKeepsInv(c, s, id);
    case Charge(_) => CountersKeepInv(c, s, a);
    case Credit(_) => CountersKeepInv(c, s, a);
    case _ => UntouchedKeepsInv(c, s, a);
  }

  lemma GranulesPositive(bytes: nat, granule: nat)
    requires bytes > 0 && granule > 0
    ensures Granules(bytes, granule) >= 1
    ensures bytes <= Granules(bytes, granule) * granule < bytes + granule
  {
    var nr := Granules(bytes, granule);
    Distrib(nr, 1, granule);
    if nr < 1 {
      MulMono(nr, 0, granule);
    }
  }

  /** A whole allocation at once: the bits appear, the request is live, the counter is charged. */
  lemma AllocateKeepsInv(c: Chunk, s: State, words: seq<Word>, start: nat, nr: nat)
    requires Inv(c, s) && nr >= 1 && start + nr <= c.bits
    requires Flips(s.words, words, start, start + nr, true) && AllAre(s.words, start, start + nr, false)
    ensures Inv(c, State(words, s.avail - nr * c.granule, s.reqs + [Live(start, nr)]))
  {
    var id := |s.reqs|;
    var begun := s.(reqs := s.reqs + [Searching(nr)]);
    AppendSearching(c, s, nr);
    OwnershipMoves(s.words, words, begun.reqs, id, Live(start, nr), start, start + nr, true);
    TotalChargedUpdate(begun.reqs, id, Live(start, nr));
    Distribute(TotalCharged(begun.reqs), 0, nr, c.granule);
    assert begun.reqs[id := Live(start, nr)] == s.reqs + [Live(start, nr)];
  }

  /** A whole free at once. */
  lemma ReleaseKeepsInv(c: Chunk, s: State, words: seq<Word>, id: nat)
    requires Inv(c, s) && id < |s.reqs| && s.reqs[id].Live?
    requires Flips(s.words, words, s.reqs[id].start, s.reqs[id].start + s.reqs[id].nr, false)
    ensures Inv(c, State(words, s.avail + s.reqs[id].nr * c.granule, s.reqs[id := Done]))
  {
    var ph := s.reqs[id];
    OwnershipMoves(s.words, words, s.reqs, id, Done, ph.start, ph.start + ph.nr, false);
    TotalChargedUpdate(s.reqs, id, Done);
    Distribute(TotalCharged(s.reqs), ph.nr, 0, c.granule);
  }

  lemma OwnedBitsSet(c: Chunk, s: State, id: nat)
    requires Inv(c, s) && id < |s.reqs| && s.reqs[id].Live?
    ensures s.reqs[id].start + s.reqs[id].nr <= |s.words| * BITS_PER_LONG
    ensures AllAre(s.words, s.reqs[id].start, s.reqs[id].start + s.reqs[id].nr, true)
  {
    var ph := s.reqs[id];
    assert WellFormed(c, ph);
    forall k: nat | ph.start <= k < ph.start + ph.nr ensures BitAt(s.words, k) {
      assert Owns(ph, k);
    }
  }

  /** The bytes of a block end inside the chunk. */
  lemma InsideChunk(c: Chunk, ph: Phase, bytes: nat)
    requires c.granule > 0 && c.bits * c.granule <= c.size && bytes > 0
    requires ph.Live? && WellFormed(c, ph) && ph.nr == Granules(bytes, c.granule)
    ensures ph.start * c.granule + bytes <= c.size
  {
    GranulesPositive(bytes, c.granule);
    MulMono(ph.start + ph.nr, c.bits, c.granule);
    assert (ph.start + ph.nr) * c.granule == ph.start * c.granule + ph.nr * c.granule;
  }

  /** Every state of every run satisfies the invariant. */
  lemma {:induction false} RunInv(c: Chunk, run: seq<State>, n: nat)
    requires Run(c, run) && n < |run|
    ensures Inv(c, run[n])
  {
    if n == 0 {
      InitInv(c);
    } else {
      RunInv(c, run, n - 1);
      var a: Action :| IsStep(c, run[n - 1], a, run[n]);
      NextKeepsInv(c, run[n - 1], a);
    }
  }

  /** In every run: no two live allocations share a bit, and each lies inside the chunk. */
  lemma LiveAllocationsDisjoint(c: Chunk, run: seq<State>, n: nat, i: nat, j: nat)
    requires Run(c, run) && n < |run| && i < |run[n].reqs| && j < |run[n].reqs| && i != j
    requires run[n].reqs[i].Live? && run[n].reqs[j].Live?
    ensures var a, b := run[n].reqs[i], run[n].reqs[j];
            && a.nr >= 1 && a.start + a.nr <= c.bits
            && (a.start + a.nr <= b.start || b.start + b.nr <= a.start)
  {
    RunInv(c, run, n);
    var a, b := run[n].reqs[i], run[n].reqs[j];
    assert WellFormed(c, a) && WellFormed(c, b);
    assert Owns(a, a.start) && Owns(b, b.start);
    assert !Owns(b, a.start) && !Owns(a, b.start);
  }

  /** In every run: a bit of the bitmap is set exactly when one request owns it, and never two. */
  lemma SetBitsHaveOneOwner(c: Chunk, run: seq<State>, n: nat, k: nat)
    requires Run(c, run) && n < |run| && k < |run[n].words| * BITS_PER_LONG
    ensures BitAt(run[n].words, k) <==> exists i: nat :: i < |run[n].reqs| && Owns(run[n].reqs[i], k)
    ensures forall i: nat, j: nat :: i < |run[n].reqs| && j < |run[n].reqs| && Owns(run[n].reqs[i], k) && Owns(run[n].reqs[j], k) ==> i == j
  {
    RunInv(c, run, n);
  }

  /** In every run: the rollback's clear and the clear of a matching free always succeed, so neither
      WARN_ON is ever reached. */
  lemma NeverWarned(c: Chunk, run: seq<State>, n: nat, i: nat)
    requires Run(c, run) && n < |run| && i < |run[n].reqs|
    ensures !run[n].reqs[i].Warned?
  {
    RunInv(c, run, n);
    assert WellFormed(c, run[n].reqs[i]);
  }

  /** Nobody is between claiming bits and charging for them, or between releasing and crediting. */
  ghost predicate Quiescent(s: State) {
    forall i: nat :: i < |s.reqs| ==> s.reqs[i].Live? || s.reqs[i].Done? || s.reqs[i].Searching?
  }

  function LiveGranules(reqs: seq<Phase>): nat {
    if reqs == [] then 0 else (if reqs[0].Live? then reqs[0].nr else 0) + LiveGranules(reqs[1..])
  }

  lemma {:induction false} QuietChargeIsLive(reqs: seq<Phase>)
    requires forall i: nat :: i < |reqs| ==> reqs[i].Live? || reqs[i].Done? || reqs[i].Searching?
    ensures TotalCharged(reqs) == LiveGranules(reqs)
  {
    if reqs != [] {
      QuietChargeIsLive(reqs[1..]);
    }
  }

  /** In every quiescent state of every run: avail plus the granule-rounded sizes of the live
      allocations is the chunk size, and the set bits are exactly those of the live allocations. */
  lemma QuiescentConservation(c: Chunk, run: seq<State>, n: nat)
    requires Run(c, run) && n < |run| && Quiescent(run[n])
    ensures run[n].avail + LiveGranules(run[n].reqs) * c.granule == c.size
    ensures forall k: nat :: k < |run[n].words| * BITS_PER_LONG ==>
              (BitAt(run[n].words, k) <==>
               exists i: nat :: i < |run[n].reqs| && run[n].reqs[i].Live? && Owns(run[n].reqs[i], k))
  {
    RunInv(c, run, n);
    QuietChargeIsLive(run[n].reqs);
  }

  /** Granules whose bits a free has cleared already but not yet added back to `avail`. */
  function Uncredited(ph: Phase): int {
    match ph
    case Freeing(start, _, pos, _) => pos - start
    case Cleared(nr) => nr
    case _ => 0
  }

  function TotalUncredited(reqs: seq<Phase>): int {
    if reqs == [] then 0 else Uncredited(reqs[0]) + TotalUncredited(reqs[1..])
  }

  function OwnedBelow(ph: Phase, n: int): nat {
    var hi := if Hi(ph) < n then Hi(ph) else n;
    if hi > Lo(ph) then hi - Lo(ph) else 0
  }

  function TotalOwned(reqs: seq<Phase>, n: int): nat {
    if reqs == [] then 0 else OwnedBelow(reqs[0], n) + TotalOwned(reqs[1..], n)
  }

  lemma {:induction false} NobodyOwns(reqs: seq<Phase>, n: nat)
    requires forall i: nat :: i < |reqs| ==> !Owns(reqs[i], n)
    ensures TotalOwned(reqs, n + 1) == TotalOwned(reqs, n)
  {
    if reqs != [] {
      assert !Owns(reqs[0], n);
      NobodyOwns(reqs[1..], n);
    }
  }

  lemma {:induction false} AtMostOneOwner(reqs: seq<Phase>, n: nat)
    requires Disjoint(reqs)
    ensures TotalOwned(reqs, n + 1) <= TotalOwned(reqs, n) + 1
  {
    if reqs != [] {
      var rest := reqs[1..];
      assert forall i: nat :: i < |rest| ==> rest[i] == reqs[i + 1];
      if Owns(reqs[0], n) {
        forall i: nat | i < |rest| ensures !Owns(rest[i], n) {
          assert !Owns(reqs[i + 1], n);
        }
        NobodyOwns(rest, n);
      } else {
        forall i: nat, j: nat, k: nat | i < |rest| && j < |rest| && i != j && Owns(rest[i], k)
          ensures !Owns(rest[j], k)
        {
          assert Owns(reqs[i + 1], k);
          assert !Owns(reqs[j + 1], k);
        }
        AtMostOneOwner(rest, n);
      }
    }
  }

  lemma {:induction false} NothingOwnedBelowZero(reqs: seq<Phase>)
    requires forall i: nat :: i < |reqs| ==> Lo(reqs[i]) >= 0
    ensures TotalOwned(reqs, 0) == 0
  {
    if reqs != [] {
      assert Lo(reqs[0]) >= 0;
      NothingOwnedBelowZero(reqs[1..]);
    }
  }

  /** Disjoint ranges pack: together they own at most n of the first n bits. */
  lemma {:induction false} DisjointRangesPack(reqs: seq<Phase>, n: nat)
    requires Disjoint(reqs) && forall i: nat :: i < |reqs| ==> Lo(reqs[i]) >= 0
    ensures TotalOwned(reqs, n) <= n
  {
    if n == 0 {
      NothingOwnedBelowZero(reqs);
    } else {
      DisjointRangesPack(reqs, n - 1);
      AtMostOneOwner(reqs, n - 1);
    }
  }

  lemma {:induction false} ChargedIsOwnedOrUncredited(c: Chunk, reqs: seq<Phase>)
    requires forall i: nat :: i < |reqs| ==> WellFormed(c, reqs[i])
    ensures TotalCharged(reqs) <= TotalOwned(reqs, c.bits) + TotalUncredited(reqs)
  {
    if reqs != [] {
      assert WellFormed(c, reqs[0]);
      ChargedIsOwnedOrUncredited(c, reqs[1..]);
    }
  }

  lemma Packed(c: Chunk, charged: nat, uncredited: int)
    requires ValidChunk(c) && charged - uncredited <= c.bits
    ensures charged * c.granule - uncredited * c.granule <= c.size && charged * c.granule >= 0
  {
    MulMono(charged - uncredited, c.bits, c.granule);
    Distribute(charged, uncredited, 0, c.granule);
    MulMono(0, charged, c.granule);
  }

  lemma InvBoundsAvail(c: Chunk, s: State)
    requires ValidChunk(c) && Inv(c, s)
    ensures 0 <= s.avail + TotalUncredited(s.reqs) * c.granule
    ensures s.avail <= c.size
  {
    var reqs := s.reqs;
    forall i: nat | i < |reqs| ensures Lo(reqs[i]) >= 0 {
      assert WellFormed(c, reqs[i]);
    }
    DisjointRangesPack(reqs, c.bits);
    ChargedIsOwnedOrUncredited(c, reqs);
    Packed(c, TotalCharged(reqs), TotalUncredited(reqs));
  }

  /** In every run the counter is below zero by at most what frees in progress still have to add back;
      it is never above the chunk size. */
  lemma AvailBounds(c: Chunk, run: seq<State>, n: nat)
    requires ValidChunk(c) && Run(c, run) && n < |run|
    ensures 0 <= run[n].avail + TotalUncredited(run[n].reqs) * c.granule
    ensures run[n].avail <= c.size
  {
    RunInv(c, run, n);
    InvBoundsAvail(c, run[n]);
  }

  ghost predicate Reached(c: Chunk, s: State) {
    exists run: seq<State> :: Run(c, run) && run[|run| - 1] == s
  }

  lemma Reach(c: Chunk, s: State, a: Action, s': State)
    requires Reached(c, s) && Enabled(c, s, a) && s' == Apply(c, s, a)
    ensures Reached(c, s')
  {
    var run: seq<State> :| Run(c, run) && run[|run| - 1] == s;
    var run' := run + [s'];
    forall i | 0 <= i < |run'| - 1 ensures Next(c, run'[i], run'[i + 1]) {
      if i < |run| - 1 {
        assert Next(c, run[i], run[i + 1]);
      } else {
        assert IsStep(c, run'[i], a, run'[i + 1]);
      }
    }
    assert Run(c, run') && run'[|run'| - 1] == s';
  }

  const UNIT := Chunk(1, 1, 1)

  /** Reading the only word and exchanging it undisturbed. */
  lemma LoadExchange(s: State, id: nat, word: Word, s': State)
    requires Reached(UNIT, s) && |s.words| == 1 && id < |s.reqs|
    requires s.reqs[id] == Setting(0, 1, 0, None) || s.reqs[id] == Freeing(0, 1, 0, None)
    requires AllAre(s.words, 0, 1, s.reqs[id].Freeing?)
    requires word == Stored(s.words[0], RangeMask(0, 1), s.reqs[id].Setting?)
    requires s' == State([word], s.avail, s.reqs[id := if s.reqs[id].Setting? then Claimed(0, 1) else Cleared(1)])
    ensures Reached(UNIT, s') && AllAre([word], 0, 1, s.reqs[id].Setting?)
  {
    var v := s.reqs[id].Setting?;
    WordStep(s.words, 0, 1, v);
    var ph := if v then Setting(0, 1, 0, Some(s.words[0])) else Freeing(0, 1, 0, Some(s.words[0]));
    var seen := s.(reqs := s.reqs[id := ph]);
    Reach(UNIT, s, Load(id), seen);
    assert s.words[0 := word] == [word];
    assert seen.reqs[id := if v then Claimed(0, 1) else Cleared(1)] == s'.reqs;
    Reach(UNIT, seen, Exchange(id), s');
  }

  /** The counter really can go below zero: a second request passes the size test before the first one
      is charged, and takes the granule while the first one's free has cleared its bit but not yet
      credited it. */
  lemma AvailCanGoNegative()
    ensures exists s: State :: Reached(UNIT, s) && s.avail < 0
  {
    var s0 := Init(UNIT);
    assert Run(UNIT, [s0]) && [s0][|[s0]| - 1] == s0;
    assert s0.words == [Zero()] && AllAre(s0.words, 0, 1, false);
    var mask := RangeMask(0, 1);
    var full := Stored(Zero(), mask, true);
    var again := Stored(full, mask, false);

    Reach(UNIT, s0, Begin(1), State([Zero()], 1, [Searching(1)]));
    var s2 := State([Zero()], 1, [Searching(1), Searching(1)]);
    Reach(UNIT, State([Zero()], 1, [Searching(1)]), Begin(1), s2);
    var s3 := State([Zero()], 1, [Setting(0, 1, 0, None), Searching(1)]);
    Reach(UNIT, s2, Pick(0, 0), s3);
    var s4 := State([full], 1, [Claimed(0, 1), Searching(1)]);
    LoadExchange(s3, 0, full, s4);
    FreeWhileSecondTakes(s4, full, again);
  }

  lemma FreeWhileSecondTakes(s4: State, full: Word, again: Word)
    requires s4 == State([full], 1, [Claimed(0, 1), Searching(1)])
    requires Reached(UNIT, s4) && AllAre([full], 0, 1, true)
    requires again == Stored(full, RangeMask(0, 1), false)
    ensures exists s: State :: Reached(UNIT, s) && s.avail < 0
  {
    var s5 := State([full], 0, [Live(0, 1), Searching(1)]);
    Reach(UNIT, s4, Charge(0), s5);
    var s6 := State([full], 0, [Freeing(0, 1, 0, None), Searching(1)]);
    Reach(UNIT, s5, Release(0), s6);
    var s7 := State([again], 0, [Cleared(1), Searching(1)]);
    LoadExchange(s6, 0, again, s7);
    var s8 := State([again], 0, [Cleared(1), Setting(0, 1, 0, None)]);
    Reach(UNIT, s7, Pick(1, 0), s8);
    var taken := Stored(again, RangeMask(0, 1), true);
    var s9 := State([taken], 0, [Cleared(1), Claimed(0, 1)]);
    LoadExchange(s8, 1, taken, s9);
    var s10 := State([taken], -1, [Cleared(1), Live(0, 1)]);
    Reach(UNIT, s9, Charge(1), s10);
  }
}
