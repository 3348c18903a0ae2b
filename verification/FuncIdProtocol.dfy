/** Callers asking for function ids at the same time.  Every section under bm_get_func_mutex is one step, and
    so are the read and the write of `f_id++`, which is outside of it. */
module FuncIdProtocol {
  import opened DynRegistry

  /** How far a call that did not find its pair has come. */
  datatype Call =
    | Missed(key: Key)             // the first section is over
    | Reading(key: Key, id: nat)   // f_id is read, but not yet written
    | Taken(key: Key, id: nat)     // the second section is still to come

  /** `granted` lists, in order, every id ever read from the counter with the pair it was read for. */
  datatype State = State(funcs: seq<Func>, nextId: nat, calls: map<int, Call>, granted: seq<Func>)

  datatype Action =
    | Lookup(pid: int, key: Key)
    | ReadId(pid: int)
    | WriteId(pid: int)
    | Append(pid: int)
    | Forget(md5: Md5)             // the last unload of the library

  const Init: State := State([], FIRST_ID, map[], [])

  predicate Listed(funcs: seq<Func>, key: Key) {
    exists k :: 0 <= k < |funcs| && KeyOf(funcs[k]) == key
  }

  function KeyOf(f: Func): Key {
    Key(f.md5, f.fname)
  }

  predicate Enabled(s: State, a: Action) {
    match a
    case Lookup(pid, key) => pid !in s.calls
    case ReadId(pid) => pid in s.calls && s.calls[pid].Missed?
    case WriteId(pid) => pid in s.calls && s.calls[pid].Reading?
    case Append(pid) => pid in s.calls && s.calls[pid].Taken?
    case Forget(md5) => true
  }

  function Apply(s: State, a: Action): State
    requires Enabled(s, a)
  {
    match a
    case Lookup(pid, key) => if Listed(s.funcs, key) then s else s.(calls := s.calls[pid := Missed(key)])
    case ReadId(pid) =>
      var key := s.calls[pid].key;
      s.(calls := s.calls[pid := Reading(key, s.nextId)], granted := s.granted + [Func(key.md5, key.fname, s.nextId)])
    case WriteId(pid) =>
      var c := s.calls[pid];
      s.(calls := s.calls[pid := Taken(c.key, c.id)], nextId := c.id + 1)
    case Append(pid) =>
      var c := s.calls[pid];
      s.(calls := s.calls - {pid}, funcs := s.funcs + [Func(c.key.md5, c.key.fname, c.id)])
    case Forget(md5) => s.(funcs := Without(s.funcs, md5))
  }

  predicate IsStep(s: State, a: Action, s': State) {
    Enabled(s, a) && s' == Apply(s, a)
  }

  ghost predicate Next(s: State, s': State) {
    exists a :: IsStep(s, a, s')
  }

  ghost predicate Run(run: seq<State>) {
    && |run| > 0 && run[0] == Init
    && forall i :: 0 <= i < |run| - 1 ==> Next(run[i], run[i + 1])
  }

  // ---------------------------------------------------------------- no id is given twice

  /** No two callers are between the read and the write of the counter. */
  predicate Lone(s: State) {
    forall p, q :: p in s.calls && q in s.calls && s.calls[p].Reading? && s.calls[q].Reading? ==> p == q
  }

  predicate Distinct(granted: seq<Func>) {
    forall i, j :: 0 <= i < j < |granted| ==> granted[i].fid != granted[j].fid
  }

  /** The counter is above every id given out, except for the one whose increment is not finished. */
  ghost predicate CounterInv(s: State) {
    && s.nextId >= FIRST_ID && Distinct(s.granted)
    && (forall k :: 0 <= k < |s.granted| ==> FIRST_ID <= s.granted[k].fid <= s.nextId)
    && (forall k :: 0 <= k < |s.granted| && s.granted[k].fid == s.nextId ==>
          k == |s.granted| - 1 && exists p :: p in s.calls && s.calls[p].Reading?)
    && (forall p :: p in s.calls && s.calls[p].Reading? ==>
          s.calls[p].id == s.nextId && s.granted != [] && s.granted[|s.granted| - 1].fid == s.nextId)
  }

  lemma StepKeepsCounter(s: State, a: Action, s': State)
    requires IsStep(s, a, s') && CounterInv(s) && Lone(s) && Lone(s')
    ensures CounterInv(s')
  {
    match a
    case ReadId(pid) =>
      assert s'.calls[pid].Reading?;
      forall p | p in s.calls ensures !s.calls[p].Reading? {
        assert p != pid ==> p in s'.calls && s'.calls[p] == s.calls[p];
      }
    case WriteId(pid) =>
    case _ =>
      forall p | p in s.calls && s.calls[p].Reading? ensures p in s'.calls && s'.calls[p].Reading? {
      }
  }

  /** A second read before the first one is written gives the same id. */
  lemma OverlapRepeatsId(s: State, a: Action, s': State)
    requires IsStep(s, a, s') && CounterInv(s) && Lone(s) && !Lone(s')
    ensures !Distinct(s'.granted)
  {
    assert a.ReadId?;
    var p :| p in s.calls && s.calls[p].Reading?;
    assert s'.granted[|s.granted| - 1].fid == s'.granted[|s.granted|].fid;
  }

  lemma GrantedGrows(s: State, a: Action, s': State)
    requires IsStep(s, a, s')
    ensures s.granted <= s'.granted
  {
  }

  /** In every run the ids given out are all different exactly when no two increments ever overlapped. */
  lemma {:induction false} IdsDistinctExactly(run: seq<State>, i: nat)
    requires Run(run) && i < |run|
    ensures Distinct(run[i].granted) <==> forall j :: 0 <= j <= i ==> Lone(run[j])
    ensures (forall j :: 0 <= j <= i ==> Lone(run[j])) ==> CounterInv(run[i])
  {
    if i > 0 {
      IdsDistinctExactly(run, i - 1);
      var s, s' := run[i - 1], run[i];
      assert Next(run[i - 1], run[i - 1 + 1]);
      var a :| IsStep(s, a, s');
      GrantedGrows(s, a, s');
      if !Distinct(s.granted) {
        var x, y :| 0 <= x < y < |s.granted| && s.granted[x].fid == s.granted[y].fid;
        assert s'.granted[x].fid == s'.granted[y].fid;
      } else if Lone(s') {
        StepKeepsCounter(s, a, s');
      } else {
        OverlapRepeatsId(s, a, s');
      }
    }
  }

  // ---------------------------------------------------------------- a pair is listed once

  predicate Unique(funcs: seq<Func>) {
    forall i, j :: 0 <= i < j < |funcs| ==> KeyOf(funcs[i]) != KeyOf(funcs[j])
  }

  /** Two calls for one pair are in progress. */
  predicate Clash(s: State) {
    exists p, q :: p in s.calls && q in s.calls && p != q && s.calls[p].key == s.calls[q].key
  }

  predicate Finishes(a: Action) {
    !a.Lookup? && !a.Forget?
  }

  /** Only by finishing calls in progress, in at most `k` steps, the list comes to hold a pair twice. */
  ghost predicate CanDouble(s: State, k: nat)
    decreases k
  {
    || !Unique(s.funcs)
    || (k > 0 && exists a :: Finishes(a) && Enabled(s, a) && CanDouble(Apply(s, a), k - 1))
  }

  ghost predicate Safe(s: State) {
    forall k: nat :: !CanDouble(s, k)
  }

  /** A pair is listed once, and not while a call for it is in progress. */
  ghost predicate ListInv(s: State) {
    && Unique(s.funcs)
    && forall p, k :: p in s.calls && 0 <= k < |s.funcs| ==> KeyOf(s.funcs[k]) != s.calls[p].key
  }

  lemma {:induction false} WithoutUnique(funcs: seq<Func>, md5: Md5)
    requires Unique(funcs)
    ensures Unique(Without(funcs, md5))
  {
    if funcs != [] {
      forall i, j | 0 <= i < j < |funcs[1..]| ensures KeyOf(funcs[1..][i]) != KeyOf(funcs[1..][j]) {
        assert KeyOf(funcs[i + 1]) != KeyOf(funcs[j + 1]);
      }
      WithoutUnique(funcs[1..], md5);
      HeadStaysUnique(funcs, Without(funcs[1..], md5));
    }
  }

  lemma HeadStaysUnique(funcs: seq<Func>, rest: seq<Func>)
    requires funcs != [] && Unique(funcs) && Unique(rest) && forall f :: f in rest ==> f in funcs[1..]
    ensures Unique([funcs[0]] + rest)
  {
    forall j | 0 <= j < |rest| ensures KeyOf(rest[j]) != KeyOf(funcs[0]) {
      assert rest[j] in funcs[1..];
      var k :| 0 <= k < |funcs[1..]| && funcs[1..][k] == rest[j];
      assert KeyOf(funcs[0]) != KeyOf(funcs[k + 1]);
    }
    var r := [funcs[0]] + rest;
    forall i, j | 0 <= i < j < |r| ensures KeyOf(r[i]) != KeyOf(r[j]) {
      assert r[j] == rest[j - 1] && (i > 0 ==> r[i] == rest[i - 1]);
    }
  }

  lemma ForgetKeepsList(s: State, md5: Md5)
    requires ListInv(s)
    ensures ListInv(Apply(s, Forget(md5)))
  {
    WithoutUnique(s.funcs, md5);
    var r := Without(s.funcs, md5);
    forall p, k | p in s.calls && 0 <= k < |r| ensures KeyOf(r[k]) != s.calls[p].key {
      assert r[k] in s.funcs;
      var j :| 0 <= j < |s.funcs| && s.funcs[j] == r[k];
    }
  }

  lemma AppendKeepsList(s: State, pid: int)
    requires ListInv(s) && !Clash(s) && Enabled(s, Append(pid))
    ensures ListInv(Apply(s, Append(pid)))
  {
    var s' := Apply(s, Append(pid));
    assert KeyOf(s'.funcs[|s.funcs|]) == s.calls[pid].key;
    forall p, k | p in s'.calls && 0 <= k < |s'.funcs| ensures KeyOf(s'.funcs[k]) != s'.calls[p].key {
      assert p in s.calls && p != pid && s'.calls[p] == s.calls[p];
      assert s.calls[p].key != s.calls[pid].key;
    }
  }

  lemma StepKeepsList(s: State, a: Action, s': State)
    requires IsStep(s, a, s') && ListInv(s) && !Clash(s)
    ensures ListInv(s')
  {
    match a
    case Forget(md5) => ForgetKeepsList(s, md5);
    case Append(pid) => AppendKeepsList(s, pid);
    case _ =>
  }

  lemma FinishKeepsApart(s: State, a: Action)
    requires Enabled(s, a) && Finishes(a) && !Clash(s)
    ensures !Clash(Apply(s, a))
  {
    var s' := Apply(s, a);
    forall p, q | p in s'.calls && q in s'.calls && p != q ensures s'.calls[p].key != s'.calls[q].key {
      assert s'.calls[p].key == s.calls[p].key && s'.calls[q].key == s.calls[q].key;
    }
  }

  lemma {:induction false} NeverDoubles(s: State, k: nat)
    requires ListInv(s) && !Clash(s)
    ensures !CanDouble(s, k)
    decreases k
  {
    if k > 0 {
      forall a | Finishes(a) && Enabled(s, a) ensures !CanDouble(Apply(s, a), k - 1) {
        StepKeepsList(s, a, Apply(s, a));
        FinishKeepsApart(s, a);
        NeverDoubles(Apply(s, a), k - 1);
      }
    }
  }

  /** Finishing call `p` alone: at most three steps, which list its pair and leave the other calls alone. */
  function Finish(s: State, p: int): (r: State)
    requires p in s.calls
    ensures r.calls == s.calls - {p}
    ensures |r.funcs| == |s.funcs| + 1 && r.funcs[..|s.funcs|] == s.funcs && KeyOf(r.funcs[|s.funcs|]) == s.calls[p].key
  {
    var t := if s.calls[p].Missed? then Apply(s, ReadId(p)) else s;
    var u := if t.calls[p].Reading? then Apply(t, WriteId(p)) else t;
    Apply(u, Append(p))
  }

  ghost predicate Doomed(s: State) {
    exists k: nat :: CanDouble(s, k)
  }

  lemma Back(s: State, a: Action)
    requires Finishes(a) && Enabled(s, a) && Doomed(Apply(s, a))
    ensures Doomed(s)
  {
    var k: nat :| CanDouble(Apply(s, a), k);
    assert CanDouble(s, k + 1);
  }

  lemma FinishBack(s: State, p: int)
    requires p in s.calls && Doomed(Finish(s, p))
    ensures Doomed(s)
  {
    var t := if s.calls[p].Missed? then Apply(s, ReadId(p)) else s;
    var u := if t.calls[p].Reading? then Apply(t, WriteId(p)) else t;
    Back(u, Append(p));
    if t.calls[p].Reading? {
      Back(t, WriteId(p));
    }
    if s.calls[p].Missed? {
      Back(s, ReadId(p));
    }
  }

  lemma ClashDooms(s: State)
    requires Clash(s)
    ensures !Safe(s)
  {
    var p, q :| p in s.calls && q in s.calls && p != q && s.calls[p].key == s.calls[q].key;
    var t := Finish(s, p);
    var u := Finish(t, q);
    assert KeyOf(u.funcs[|s.funcs|]) == KeyOf(u.funcs[|s.funcs| + 1]) by {
      assert u.funcs[|s.funcs|] == u.funcs[..|t.funcs|][|s.funcs|];
    }
    assert CanDouble(u, 0);
    FinishBack(t, q);
    FinishBack(s, p);
  }

  lemma {:induction false} RunListInv(run: seq<State>, i: nat)
    requires Run(run) && i < |run| && forall j :: 0 <= j < i ==> !Clash(run[j])
    ensures ListInv(run[i])
  {
    if i > 0 {
      RunListInv(run, i - 1);
      assert Next(run[i - 1], run[i - 1 + 1]);
      var a :| IsStep(run[i - 1], a, run[i]);
      StepKeepsList(run[i - 1], a, run[i]);
    }
  }

  /** In every run: finishing the calls in progress can never list a pair twice exactly when two calls for one
      pair are never in progress together. */
  lemma PairListedOnceExactly(run: seq<State>)
    requires Run(run)
    ensures (forall i :: 0 <= i < |run| ==> Safe(run[i])) <==> (forall i :: 0 <= i < |run| ==> !Clash(run[i]))
    ensures (forall i :: 0 <= i < |run| ==> !Clash(run[i])) ==> forall i :: 0 <= i < |run| ==> Unique(run[i].funcs)
  {
    forall i | 0 <= i < |run| && Clash(run[i]) ensures !Safe(run[i]) {
      ClashDooms(run[i]);
    }
    if forall i :: 0 <= i < |run| ==> !Clash(run[i]) {
      forall i | 0 <= i < |run| ensures Safe(run[i]) && Unique(run[i].funcs) {
        RunListInv(run, i);
        forall k: nat ensures !CanDouble(run[i], k) {
          NeverDoubles(run[i], k);
        }
      }
    }
  }

  // ---------------------------------------------------------------- witnesses

  function Last(run: seq<State>): State
    requires |run| > 0
  {
    run[|run| - 1]
  }

  lemma Step(run: seq<State>, a: Action) returns (r: seq<State>)
    requires Run(run) && Enabled(Last(run), a)
    ensures Run(r) && run <= r && Last(r) == Apply(Last(run), a)
  {
    r := run + [Apply(Last(run), a)];
    assert IsStep(Last(run), a, Last(r));
    forall i | 0 <= i < |r| - 1 ensures Next(r[i], r[i + 1]) {
      assert i < |run| - 1 ==> Next(run[i], run[i + 1]);
    }
  }

  /** A whole call with no other in progress. */
  lemma Get(run: seq<State>, pid: int, key: Key) returns (r: seq<State>)
    requires Run(run) && Last(run).calls == map[] && !Listed(Last(run).funcs, key)
    ensures Run(r) && run <= r && Last(r).calls == map[] && Last(r).nextId == Last(run).nextId + 1
    ensures Last(r).funcs == Last(run).funcs + [Func(key.md5, key.fname, Last(run).nextId)]
    ensures Last(r).granted == Last(run).granted + [Func(key.md5, key.fname, Last(run).nextId)]
  {
    r := Step(run, Lookup(pid, key));
    r := Step(r, ReadId(pid));
    r := Step(r, WriteId(pid));
    r := Step(r, Append(pid));
  }

  /** Two callers ask for one new pair at the same time: it is listed with two ids. */
  lemma OnePairTwoIds(key: Key) returns (run: seq<State>)
    ensures Run(run) && Last(run).calls == map[]
    ensures Last(run).funcs == [Func(key.md5, key.fname, 22), Func(key.md5, key.fname, 23)]
  {
    run := Step([Init], Lookup(1, key));
    run := Step(run, Lookup(2, key));
    run := Step(run, ReadId(1));
    run := Step(run, WriteId(1));
    run := Step(run, Append(1));
    run := Step(run, ReadId(2));
    run := Step(run, WriteId(2));
    run := Step(run, Append(2));
  }

  /** Two callers ask for two new pairs at the same time: both get one id. */
  lemma TwoPairsOneId(key: Key, other: Key) returns (run: seq<State>)
    requires key != other
    ensures Run(run) && Last(run).calls == map[]
    ensures Last(run).funcs == [Func(key.md5, key.fname, 22), Func(other.md5, other.fname, 22)]
  {
    run := Step([Init], Lookup(1, key));
    run := Step(run, Lookup(2, other));
    run := Step(run, ReadId(1));
    run := Step(run, ReadId(2));
    run := Step(run, WriteId(1));
    run := Step(run, WriteId(2));
    run := Step(run, Append(1));
    run := Step(run, Append(2));
  }

  /** After the last unload of its library a pair gets a new id. */
  lemma NewIdAfterForget(key: Key) returns (run: seq<State>)
    ensures Run(run) && Last(run).calls == map[]
    ensures Last(run).funcs == [Func(key.md5, key.fname, 23)]
    ensures Last(run).granted == [Func(key.md5, key.fname, 22), Func(key.md5, key.fname, 23)]
  {
    run := Get([Init], 1, key);
    var first := Func(key.md5, key.fname, 22);
    assert Last(run).funcs == [first] && Last(run).granted == [first];
    assert Without([first], key.md5) == Without([first][1..], key.md5) == [];
    run := Step(run, Forget(key.md5));
    assert Last(run).funcs == [];
    run := Get(run, 1, key);
  }
}
