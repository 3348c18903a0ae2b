/** Threads loading and unloading libraries at the same time.  Every section under bmcpu_lib_mutex is one
    step: a load has three, an unload is one. */
module LibProtocol {
  import opened LibRegistry

  /** How far a load has come. */
  datatype Call =
    | Looked(name: Name, md5: Md5, ph: nat)   // its process does not use the name
    | Missed(name: Name, md5: Md5, ph: nat)   // and nobody has the library

  datatype State = State(list: seq<Lib>, calls: map<int, Call>)

  datatype Action =
    | LoadUse(thr: int, name: Name, md5: Md5, ph: nat)
    | LoadJoin(thr: int)
    | LoadAdd(thr: int)
    | UnloadLib(name: Name, ph: nat)

  const Init: State := State([], map[])

  predicate Enabled(s: State, a: Action) {
    match a
    case LoadUse(thr, _, _, ph) => thr !in s.calls && ValidHandle(ph)
    case LoadJoin(thr) => thr in s.calls && s.calls[thr].Looked? && ValidHandle(s.calls[thr].ph)
    case LoadAdd(thr) => thr in s.calls && s.calls[thr].Missed? && ValidHandle(s.calls[thr].ph)
    case UnloadLib(_, ph) => ValidHandle(ph)
  }

  function Apply(s: State, a: Action): State
    requires Enabled(s, a)
  {
    match a
    case LoadUse(thr, name, md5, ph) =>
      if FirstUse(s.list, name, ph) < |s.list| then s else s.(calls := s.calls[thr := Looked(name, md5, ph)])
    case LoadJoin(thr) =>
      var c := s.calls[thr];
      var m := FirstMd5(s.list, c.md5);
      if m < |s.list| then State(s.list[m := Joined(s.list[m], c.ph)], s.calls - {thr})
      else s.(calls := s.calls[thr := Missed(c.name, c.md5, c.ph)])
    case LoadAdd(thr) =>
      var c := s.calls[thr];
      State(s.list + [NewNode(c.name, c.md5, c.ph)], s.calls - {thr})
    case UnloadLib(name, ph) => s.(list := AfterUnload(s.list, name, ph))
  }

  predicate IsStep(s: State, a: Action, s': State) {
    Enabled(s, a) && s' == Apply(s, a)
  }

  ghost predicate Next(s: State, s': State) {
    exists a :: IsStep(s, a, s')
  }

  ghost predicate Run(run: seq<State>) {
    && |run| > 0 && run[0] == Init
    && forall i :: 0 <= i < |run| - 1 ==> Next(run[i], run[i + 1])
  }

  /** A load nobody interferes with is the load of the registry. */
  lemma LoadAlone(s: State, thr: int, name: Name, md5: Md5, ph: nat)
    requires thr !in s.calls && ValidHandle(ph)
    ensures var t := Apply(s, LoadUse(thr, name, md5, ph));
            var u := if thr in t.calls then Apply(t, LoadJoin(thr)) else t;
            var v := if thr in u.calls then Apply(u, LoadAdd(thr)) else u;
            v.list == AfterLoad(s.list, name, md5, ph) && v.calls == s.calls
  {
  }

  // ---------------------------------------------------------------- what the registry should be

  predicate OneNode(list: seq<Lib>) {
    forall i, j :: 0 <= i < j < |list| ==> list[i].md5 != list[j].md5
  }

  /** Every library has one node, which counts its users. */
  ghost predicate Good(s: State) {
    AllSound(s.list) && OneNode(s.list)
  }

  predicate Listed(list: seq<Lib>, md5: Md5) {
    FirstMd5(list, md5) < |list|
  }

  predicate Recorded(list: seq<Lib>, md5: Md5, ph: nat) {
    var m := FirstMd5(list, md5);
    m < |list| && ph < RECORDS && list[m].rec[ph] != 0
  }

  /** A load is on its way to record a process that is recorded already, or two loads of one library are in
      progress while it has no node or for one process. */
  predicate Clash(s: State) {
    || (exists t :: t in s.calls && s.calls[t].Looked? && Recorded(s.list, s.calls[t].md5, s.calls[t].ph))
    || (exists t, u :: t in s.calls && u in s.calls && t != u && Collide(s.list, s.calls[t], s.calls[u]))
  }

  predicate Collide(list: seq<Lib>, c: Call, d: Call) {
    c.md5 == d.md5 && (!Listed(list, c.md5) || c.ph == d.ph)
  }

  predicate Finishes(a: Action) {
    a.LoadJoin? || a.LoadAdd?
  }

  /** Only by finishing loads in progress, at most `k` steps lead to a bad registry. */
  ghost predicate CanFail(s: State, k: nat)
    decreases k
  {
    || !Good(s)
    || (k > 0 && exists a :: Finishes(a) && Enabled(s, a) && CanFail(Apply(s, a), k - 1))
  }

  ghost predicate Safe(s: State) {
    forall k: nat :: !CanFail(s, k)
  }

  // ---------------------------------------------------------------- without clash

  ghost predicate Inv(s: State) {
    && Good(s)
    && (forall t :: t in s.calls ==> ValidHandle(s.calls[t].ph))
    && (forall t :: t in s.calls && s.calls[t].Missed? ==> !Listed(s.list, s.calls[t].md5))
  }

  lemma ListedNode(list: seq<Lib>, md5: Md5)
    ensures Listed(list, md5) <==> exists k :: 0 <= k < |list| && list[k].md5 == md5
  {
    if k :| 0 <= k < |list| && list[k].md5 == md5 {
      assert !(k < FirstMd5(list, md5));
    }
  }

  /** A node keeps its library when a user joins. */
  lemma JoinFirst(list: seq<Lib>, m: nat, l: Lib, md5: Md5)
    requires m < |list| && l.md5 == list[m].md5
    ensures FirstMd5(list[m := l], md5) == FirstMd5(list, md5)
  {
    assert forall j :: 0 <= j < |list| ==> list[m := l][j].md5 == list[j].md5;
  }

  lemma AddFirst(list: seq<Lib>, l: Lib, md5: Md5)
    ensures l.md5 != md5 ==> (Listed(list + [l], md5) <==> Listed(list, md5))
    ensures Listed(list, md5) ==> FirstMd5(list + [l], md5) == FirstMd5(list, md5)
  {
    assert forall j :: 0 <= j < |list| ==> (list + [l])[j] == list[j];
  }

  lemma JoinKeeps(s: State, a: Action, s': State)
    requires IsStep(s, a, s') && a.LoadJoin? && Inv(s) && !Clash(s)
    ensures Inv(s')
  {
    var c := s.calls[a.thr];
    var m := FirstMd5(s.list, c.md5);
    if m < |s.list| {
      assert !Recorded(s.list, c.md5, c.ph);
      JoinSoundExactly(s.list[m], c.ph);
      forall md5 ensures Listed(s'.list, md5) == Listed(s.list, md5) {
        JoinFirst(s.list, m, Joined(s.list[m], c.ph), md5);
      }
    }
  }

  lemma AddKeeps(s: State, a: Action, s': State)
    requires IsStep(s, a, s') && a.LoadAdd? && Inv(s) && !Clash(s)
    ensures Inv(s')
  {
    var c := s.calls[a.thr];
    NewNodeSound(c.name, c.md5, c.ph);
    ListedNode(s.list, c.md5);
    forall t | t in s'.calls && s'.calls[t].Missed? ensures !Listed(s'.list, s'.calls[t].md5) {
      assert t in s.calls && t != a.thr && s'.calls[t] == s.calls[t];
      assert !Collide(s.list, c, s.calls[t]);
      AddFirst(s.list, NewNode(c.name, c.md5, c.ph), s.calls[t].md5);
    }
  }

  lemma UnloadSound(list: seq<Lib>, name: Name, ph: nat)
    requires AllSound(list)
    ensures AllSound(AfterUnload(list, name, ph))
  {
    var k := FirstUse(list, name, ph);
    if k < |list| {
      var l := list[k];
      OneUser(l, ph);
      if l.refcount != 1 {
        SuccessorExists(l, ph);
        LeaveSound(l, ph, if l.curRec == ph then NextUser(l.rec, ph) else l.curRec);
      }
    }
  }

  lemma UnloadOneNode(list: seq<Lib>, name: Name, ph: nat, md5: Md5)
    requires OneNode(list)
    ensures OneNode(AfterUnload(list, name, ph))
    ensures Listed(AfterUnload(list, name, ph), md5) ==> Listed(list, md5)
  {
    var k := FirstUse(list, name, ph);
    if k < |list| {
      if list[k].curRec == ph && list[k].refcount == 1 {
        NodeRemoved(list, k, md5);
      } else {
        NodeReplaced(list, k, Left(list[k], ph), md5);
      }
    }
  }

  lemma NodeRemoved(list: seq<Lib>, k: nat, md5: Md5)
    requires OneNode(list) && k < |list|
    ensures OneNode(list[..k] + list[k + 1..])
    ensures Listed(list[..k] + list[k + 1..], md5) ==> Listed(list, md5)
  {
    var r := list[..k] + list[k + 1..];
    assert forall i :: 0 <= i < |r| ==> r[i] == list[if i < k then i else i + 1];
    ListedNode(list, md5);
    ListedNode(r, md5);
  }

  lemma NodeReplaced(list: seq<Lib>, k: nat, l: Lib, md5: Md5)
    requires OneNode(list) && k < |list| && l.md5 == list[k].md5
    ensures OneNode(list[k := l])
    ensures Listed(list[k := l], md5) ==> Listed(list, md5)
  {
    JoinFirst(list, k, l, md5);
  }

  lemma UnloadKeeps(s: State, a: Action, s': State)
    requires IsStep(s, a, s') && a.UnloadLib? && Inv(s)
    ensures Inv(s')
  {
    UnloadSound(s.list, a.name, a.ph);
    UnloadOneNode(s.list, a.name, a.ph, []);
    forall t | t in s'.calls && s'.calls[t].Missed? ensures !Listed(s'.list, s'.calls[t].md5) {
      UnloadOneNode(s.list, a.name, a.ph, s.calls[t].md5);
    }
  }

  lemma StepKeeps(s: State, a: Action, s': State)
    requires IsStep(s, a, s') && Inv(s) && !Clash(s)
    ensures Inv(s')
  {
    match a
    case LoadUse(_, _, _, _) =>
    case LoadJoin(_) => JoinKeeps(s, a, s');
    case LoadAdd(_) => AddKeeps(s, a, s');
    case UnloadLib(_, _) => UnloadKeeps(s, a, s');
  }

  // ---------------------------------------------------------------- finishing brings no new clash

  lemma JoinKeepsApart(s: State, a: Action)
    requires a.LoadJoin? && Enabled(s, a) && !Clash(s)
    ensures !Clash(Apply(s, a))
  {
    var s' := Apply(s, a);
    var c := s.calls[a.thr];
    var m := FirstMd5(s.list, c.md5);
    if m < |s.list| {
      forall md5 ensures FirstMd5(s'.list, md5) == FirstMd5(s.list, md5) {
        JoinFirst(s.list, m, Joined(s.list[m], c.ph), md5);
      }
    }
    forall t | t in s'.calls && s'.calls[t].Looked? ensures !Recorded(s'.list, s'.calls[t].md5, s'.calls[t].ph) {
      assert t != a.thr && s'.calls[t] == s.calls[t];
      assert !Recorded(s.list, s.calls[t].md5, s.calls[t].ph) && !Collide(s.list, c, s.calls[t]);
    }
    forall t, u | t in s'.calls && u in s'.calls && t != u ensures !Collide(s'.list, s'.calls[t], s'.calls[u]) {
      assert !Collide(s.list, s.calls[t], s.calls[u]);
    }
  }

  lemma AddKeepsApart(s: State, a: Action)
    requires a.LoadAdd? && Enabled(s, a) && Inv(s) && !Clash(s)
    ensures !Clash(Apply(s, a))
  {
    var s' := Apply(s, a);
    var c := s.calls[a.thr];
    var l := NewNode(c.name, c.md5, c.ph);
    forall t | t in s'.calls
      ensures t in s.calls && t != a.thr && s'.calls[t] == s.calls[t]
      ensures Listed(s'.list, s.calls[t].md5) == Listed(s.list, s.calls[t].md5)
      ensures Recorded(s'.list, s.calls[t].md5, s.calls[t].ph) == Recorded(s.list, s.calls[t].md5, s.calls[t].ph)
    {
      assert t in s.calls && t != a.thr && s'.calls[t] == s.calls[t];
      assert !Collide(s.list, c, s.calls[t]);
      AddFirst(s.list, l, s.calls[t].md5);
    }
    forall t, u | t in s'.calls && u in s'.calls && t != u ensures !Collide(s'.list, s'.calls[t], s'.calls[u]) {
      assert !Collide(s.list, s.calls[t], s.calls[u]);
    }
  }

  lemma {:induction false} NeverFails(s: State, k: nat)
    requires Inv(s) && !Clash(s)
    ensures !CanFail(s, k)
    decreases k
  {
    if k > 0 {
      forall a | Finishes(a) && Enabled(s, a) ensures !CanFail(Apply(s, a), k - 1) {
        if a.LoadJoin? {
          JoinKeepsApart(s, a);
        } else {
          AddKeepsApart(s, a);
        }
        StepKeeps(s, a, Apply(s, a));
        NeverFails(Apply(s, a), k - 1);
      }
    }
  }

  // ---------------------------------------------------------------- what a clash leads to

  ghost predicate Doomed(s: State) {
    exists k: nat :: CanFail(s, k)
  }

  lemma Back(s: State, a: Action)
    requires Finishes(a) && Enabled(s, a) && Doomed(Apply(s, a))
    ensures Doomed(s)
  {
    var k: nat :| CanFail(Apply(s, a), k);
    assert CanFail(s, k + 1);
  }

  lemma BadIsDoomed(s: State)
    requires !Good(s)
    ensures Doomed(s)
  {
    assert CanFail(s, 0);
  }

  /** Recording a process again counts it twice. */
  lemma RecordedTwice(s: State, t: int)
    requires t in s.calls && s.calls[t].Looked? && ValidHandle(s.calls[t].ph)
    requires Recorded(s.list, s.calls[t].md5, s.calls[t].ph)
    ensures Doomed(s)
  {
    var c := s.calls[t];
    var m := FirstMd5(s.list, c.md5);
    if Good(s) {
      JoinSoundExactly(s.list[m], c.ph);
      var s' := Apply(s, LoadJoin(t));
      assert s'.list[m] == Joined(s.list[m], c.ph);
      BadIsDoomed(s');
      Back(s, LoadJoin(t));
    } else {
      BadIsDoomed(s);
    }
  }

  /** Adding a node for a library that has one. */
  lemma AddedTwice(s: State, t: int)
    requires t in s.calls && s.calls[t].Missed? && ValidHandle(s.calls[t].ph) && Listed(s.list, s.calls[t].md5)
    ensures Doomed(s)
  {
    var s' := Apply(s, LoadAdd(t));
    var m := FirstMd5(s.list, s.calls[t].md5);
    assert s'.list[m].md5 == s'.list[|s.list|].md5;
    BadIsDoomed(s');
    Back(s, LoadAdd(t));
  }

  lemma BothMissed(s: State, t: int, u: int)
    requires t in s.calls && u in s.calls && t != u && s.calls[t].md5 == s.calls[u].md5
    requires s.calls[t].Missed? && s.calls[u].Missed? && ValidHandle(s.calls[t].ph) && ValidHandle(s.calls[u].ph)
    ensures Doomed(s)
  {
    var s' := Apply(s, LoadAdd(t));
    ListedNode(s'.list, s.calls[t].md5);
    assert s'.list[|s.list|].md5 == s.calls[t].md5;
    AddedTwice(s', u);
    Back(s, LoadAdd(t));
  }

  lemma Unlisted(s: State, t: int, u: int)
    requires t in s.calls && u in s.calls && t != u && s.calls[t].md5 == s.calls[u].md5 && !Listed(s.list, s.calls[t].md5)
    requires ValidHandle(s.calls[t].ph) && ValidHandle(s.calls[u].ph)
    ensures Doomed(s)
  {
    var v := if s.calls[t].Looked? then Apply(s, LoadJoin(t)) else s;
    var w := if v.calls[u].Looked? then Apply(v, LoadJoin(u)) else v;
    BothMissed(w, t, u);
    if v.calls[u].Looked? {
      Back(v, LoadJoin(u));
    }
    if s.calls[t].Looked? {
      Back(s, LoadJoin(t));
    }
  }

  lemma SameProcess(s: State, t: int, u: int)
    requires t in s.calls && u in s.calls && t != u && s.calls[t].md5 == s.calls[u].md5 && Listed(s.list, s.calls[t].md5)
    requires ValidHandle(s.calls[t].ph) && s.calls[t].ph == s.calls[u].ph
    ensures Doomed(s)
  {
    if s.calls[t].Missed? {
      AddedTwice(s, t);
    } else if s.calls[u].Missed? {
      AddedTwice(s, u);
    } else if !Good(s) {
      BadIsDoomed(s);
    } else {
      var c := s.calls[t];
      var m := FirstMd5(s.list, c.md5);
      var s' := Apply(s, LoadJoin(t));
      JoinFirst(s.list, m, Joined(s.list[m], c.ph), c.md5);
      assert Sound(s.list[m]);
      assert s'.list[m].rec[c.ph] == s.list[m].curRec != 0;
      RecordedTwice(s', u);
      Back(s, LoadJoin(t));
    }
  }

  lemma ClashDooms(s: State)
    requires Clash(s) && forall t :: t in s.calls ==> ValidHandle(s.calls[t].ph)
    ensures !Safe(s)
  {
    if t :| t in s.calls && s.calls[t].Looked? && Recorded(s.list, s.calls[t].md5, s.calls[t].ph) {
      RecordedTwice(s, t);
    } else {
      var t, u :| t in s.calls && u in s.calls && t != u && Collide(s.list, s.calls[t], s.calls[u]);
      if Listed(s.list, s.calls[t].md5) {
        SameProcess(s, t, u);
      } else {
        Unlisted(s, t, u);
      }
    }
  }

  // ---------------------------------------------------------------- the exact condition

  lemma {:induction false} RunHandles(run: seq<State>, i: nat)
    requires Run(run) && i < |run|
    ensures forall t :: t in run[i].calls ==> ValidHandle(run[i].calls[t].ph)
  {
    if i > 0 {
      RunHandles(run, i - 1);
      assert Next(run[i - 1], run[i - 1 + 1]);
      var a :| IsStep(run[i - 1], a, run[i]);
    }
  }

  lemma {:induction false} RunInv(run: seq<State>, i: nat)
    requires Run(run) && i < |run| && forall j :: 0 <= j < i ==> !Clash(run[j])
    ensures Inv(run[i])
  {
    if i > 0 {
      RunInv(run, i - 1);
      assert Next(run[i - 1], run[i - 1 + 1]);
      var a :| IsStep(run[i - 1], a, run[i]);
      StepKeeps(run[i - 1], a, run[i]);
    }
  }

  /** In every run: finishing the loads in progress never gives a library two nodes and never counts its users
      wrong, exactly when no load was ever on its way to a process that is recorded already, and no two loads
      of one library were in progress together while it had no node or for one process. */
  lemma RegistrySoundExactly(run: seq<State>)
    requires Run(run)
    ensures (forall i :: 0 <= i < |run| ==> Safe(run[i])) <==> (forall i :: 0 <= i < |run| ==> !Clash(run[i]))
    ensures (forall i :: 0 <= i < |run| ==> !Clash(run[i])) ==> forall i :: 0 <= i < |run| ==> Good(run[i])
  {
    forall i | 0 <= i < |run| && Clash(run[i]) ensures !Safe(run[i]) {
      RunHandles(run, i);
      ClashDooms(run[i]);
    }
    if forall i :: 0 <= i < |run| ==> !Clash(run[i]) {
      forall i | 0 <= i < |run| ensures Safe(run[i]) && Good(run[i]) {
        RunInv(run, i);
        forall k: nat ensures !CanFail(run[i], k) {
          NeverFails(run[i], k);
        }
      }
    }
  }

  // ---------------------------------------------------------------- the record of a process

  /** What the library's node records for process `ph`; 0 when it does not use the library. */
  function RecordOf(list: seq<Lib>, md5: Md5, ph: nat): nat
    requires ph < RECORDS
  {
    var m := FirstMd5(list, md5);
    if m < |list| then list[m].rec[ph] else 0
  }

  /** The step ends a load of the library by the process. */
  predicate EndsLoad(s: State, a: Action, md5: Md5, ph: nat) {
    match a
    case LoadJoin(thr) => thr in s.calls && s.calls[thr].md5 == md5 && s.calls[thr].ph == ph && Listed(s.list, md5)
    case LoadAdd(thr) => thr in s.calls && s.calls[thr].md5 == md5 && s.calls[thr].ph == ph
    case _ => false
  }

  /** The object handle a load hands out: that of the record in use, or the process's own. */
  function Told(s: State, a: Action, md5: Md5, ph: nat): nat {
    var m := FirstMd5(s.list, md5);
    if a.LoadJoin? && m < |s.list| then s.list[m].curRec else ph
  }

  /** The step is an unload by the process of a library of this md5. */
  predicate Unloads(s: State, a: Action, md5: Md5, ph: nat) {
    a.UnloadLib? && a.ph == ph && FirstUse(s.list, a.name, ph) < |s.list| && s.list[FirstUse(s.list, a.name, ph)].md5 == md5
  }

  lemma LoadRecords(s: State, a: Action, s': State, md5: Md5, ph: nat)
    requires IsStep(s, a, s') && Inv(s) && !Clash(s) && ValidHandle(ph) && EndsLoad(s, a, md5, ph)
    ensures RecordOf(s'.list, md5, ph) == Told(s, a, md5, ph) != 0
  {
    var c := s.calls[a.thr];
    var m := FirstMd5(s.list, md5);
    if a.LoadJoin? {
      JoinFirst(s.list, m, Joined(s.list[m], ph), md5);
      assert Sound(s.list[m]);
    } else {
      var l := NewNode(c.name, md5, ph);
      NewIsFirst(s.list, l);
    }
  }

  lemma NewIsFirst(list: seq<Lib>, l: Lib)
    requires !Listed(list, l.md5)
    ensures FirstMd5(list + [l], l.md5) == |list|
  {
    assert (list + [l])[|list|] == l && forall j :: 0 <= j < |list| ==> (list + [l])[j] == list[j];
  }

  /** Nobody else touches what is recorded for a process. */
  lemma StepKeepsRecord(s: State, a: Action, s': State, md5: Md5, ph: nat)
    requires IsStep(s, a, s') && Inv(s) && !Clash(s) && ValidHandle(ph) && RecordOf(s.list, md5, ph) != 0
    requires !EndsLoad(s, a, md5, ph) && !Unloads(s, a, md5, ph)
    ensures RecordOf(s'.list, md5, ph) == RecordOf(s.list, md5, ph)
  {
    match a
    case LoadUse(_, _, _, _) =>
    case LoadJoin(thr) =>
      var c := s.calls[thr];
      var m := FirstMd5(s.list, c.md5);
      if m < |s.list| {
        JoinFirst(s.list, m, Joined(s.list[m], c.ph), md5);
      }
    case LoadAdd(thr) =>
      var c := s.calls[thr];
      AddFirst(s.list, NewNode(c.name, c.md5, c.ph), md5);
    case UnloadLib(name, other) => UnloadKeepsRecord(s.list, name, other, md5, ph);
  }

  lemma UnloadKeepsRecord(list: seq<Lib>, name: Name, other: nat, md5: Md5, ph: nat)
    requires AllSound(list) && OneNode(list) && ValidHandle(ph) && ValidHandle(other) && RecordOf(list, md5, ph) != 0
    requires other == ph ==> !(FirstUse(list, name, ph) < |list| && list[FirstUse(list, name, ph)].md5 == md5)
    ensures RecordOf(AfterUnload(list, name, other), md5, ph) == RecordOf(list, md5, ph)
  {
    var k, m := FirstUse(list, name, other), FirstMd5(list, md5);
    if k < |list| {
      var l := list[k];
      OneUser(l, other);
      if l.curRec == other && l.refcount == 1 {
        assert k != m by {
          assert k == m ==> ph in Holders(l.rec);
        }
        FirstAfterRemoval(list, k, md5);
      } else {
        JoinFirst(list, k, Left(l, other), md5);
      }
    }
  }

  lemma FirstAfterRemoval(list: seq<Lib>, k: nat, md5: Md5)
    requires OneNode(list) && k < |list| && Listed(list, md5) && FirstMd5(list, md5) != k
    ensures var m, r := FirstMd5(list, md5), list[..k] + list[k + 1..];
            var m' := FirstMd5(r, md5); m' < |r| && r[m'] == list[m]
  {
    var m, r := FirstMd5(list, md5), list[..k] + list[k + 1..];
    var at := if m < k then m else m - 1;
    assert r[at] == list[m];
    var m' := FirstMd5(r, md5);
    assert m' <= at;
    var from' := if m' < k then m' else m' + 1;
    assert list[from'] == r[m'] && list[from'].md5 == md5;
  }

  /** The step neither ends a load of the library by the process nor unloads it. */
  ghost predicate LeavesAlone(s: State, s': State, md5: Md5, ph: nat) {
    forall b :: IsStep(s, b, s') ==> !EndsLoad(s, b, md5, ph) && !Unloads(s, b, md5, ph)
  }

  lemma AloneKeepsRecord(s: State, s': State, md5: Md5, ph: nat)
    requires Next(s, s') && Inv(s) && !Clash(s) && ValidHandle(ph) && LeavesAlone(s, s', md5, ph)
    ensures RecordOf(s.list, md5, ph) != 0 ==> RecordOf(s'.list, md5, ph) == RecordOf(s.list, md5, ph)
  {
    var b :| IsStep(s, b, s');
    if RecordOf(s.list, md5, ph) != 0 {
      StepKeepsRecord(s, b, s', md5, ph);
    }
  }

  lemma {:induction false} RecordChain(run: seq<State>, i: nat, j: nat, md5: Md5, ph: nat)
    requires i <= j < |run| && ph < RECORDS && RecordOf(run[i].list, md5, ph) != 0
    requires forall k :: i <= k < j && RecordOf(run[k].list, md5, ph) != 0 ==>
               RecordOf(run[k + 1].list, md5, ph) == RecordOf(run[k].list, md5, ph)
    ensures RecordOf(run[j].list, md5, ph) == RecordOf(run[i].list, md5, ph)
    decreases j
  {
    if i < j {
      RecordChain(run, i, j - 1, md5, ph);
      assert RecordOf(run[j - 1 + 1].list, md5, ph) == RecordOf(run[j - 1].list, md5, ph);
    }
  }

  /** From the load of a library by a process to its unload, across all runs without a clash and whatever others
      load and unload in between: the record that the unload hands to the firmware is the one the load was told
      to use, or the process's own handle if it was the first. */
  lemma RecordLasts(run: seq<State>, i: nat, j: nat, a: Action, md5: Md5, ph: nat)
    requires Run(run) && i < j < |run| && ValidHandle(ph) && forall k :: 0 <= k < |run| ==> !Clash(run[k])
    requires IsStep(run[i], a, run[i + 1]) && EndsLoad(run[i], a, md5, ph)
    requires forall k :: i < k < j ==> LeavesAlone(run[k], run[k + 1], md5, ph)
    ensures RecordOf(run[j].list, md5, ph) == Told(run[i], a, md5, ph) != 0
  {
    RunInv(run, i);
    LoadRecords(run[i], a, run[i + 1], md5, ph);
    forall k | i < k < j
      ensures RecordOf(run[k].list, md5, ph) != 0 ==> RecordOf(run[k + 1].list, md5, ph) == RecordOf(run[k].list, md5, ph)
    {
      RunInv(run, k);
      AloneKeepsRecord(run[k], run[k + 1], md5, ph);
    }
    RecordChain(run, i + 1, j, md5, ph);
  }

  /** The object that the unload names is that record. */
  lemma UnloadNamesRecord(s: State, a: Action, md5: Md5, ph: nat)
    requires Inv(s) && ValidHandle(ph) && Unloads(s, a, md5, ph)
    ensures s.list[FirstUse(s.list, a.name, ph)].rec[ph] == RecordOf(s.list, md5, ph)
  {
    var k, m := FirstUse(s.list, a.name, ph), FirstMd5(s.list, md5);
    ListedNode(s.list, md5);
    assert s.list[k].md5 == md5 == s.list[m].md5;
  }

  // ---------------------------------------------------------------- witnesses

  function Last(run: seq<State>): State
    requires |run| > 0
  {
    run[|run| - 1]
  }

  lemma Step(run: seq<State>, a: Action) returns (r: seq<State>)
    requires Run(run) && Enabled(Last(run), a)
    ensures Run(r) && run <= r && Last(r) == Apply(Last(run), a)
  {
    r := run + [Apply(Last(run), a)];
    assert IsStep(Last(run), a, Last(r));
    forall i | 0 <= i < |r| - 1 ensures Next(r[i], r[i + 1]) {
      assert i < |run| - 1 ==> Next(run[i], run[i + 1]);
    }
  }

  /** Two threads load a new library at the same time: it gets two nodes. */
  lemma TwoNodes(name: Name, md5: Md5) returns (run: seq<State>)
    ensures Run(run) && Last(run) == State([NewNode(name, md5, 1), NewNode(name, md5, 2)], map[])
  {
    run := Step([Init], LoadUse(1, name, md5, 1));
    run := Step(run, LoadUse(2, name, md5, 2));
    run := Step(run, LoadJoin(1));
    run := Step(run, LoadJoin(2));
    run := Step(run, LoadAdd(1));
    run := Step(run, LoadAdd(2));
  }

  /** One process, one thread, one library under two names: it is counted twice. */
  lemma CountedTwice(name: Name, alias: Name, md5: Md5) returns (run: seq<State>)
    requires name != alias
    ensures Run(run) && Last(run) == State([NewNode(name, md5, 1).(refcount := 2)], map[])
    ensures Holders(NewNode(name, md5, 1).rec) == {1}
  {
    var l := NewNode(name, md5, 1);
    run := Step([Init], LoadUse(1, name, md5, 1));
    run := Step(run, LoadJoin(1));
    run := Step(run, LoadAdd(1));
    assert Last(run).list == [l];
    run := Step(run, LoadUse(1, alias, md5, 1));
    run := Step(run, LoadJoin(1));
    assert l.rec[1 := 1] == l.rec;
    HoldersSet(seq(RECORDS, i => 0), 1, 1);
    assert Holders(seq(RECORDS, i => 0)) == {};
  }

  /** Its process unloads that library: the node stays, counting a user it does not have. */
  lemma NodeOutlivesUsers(name: Name, alias: Name, md5: Md5) returns (run: seq<State>)
    requires name != alias
    ensures Run(run) && Last(run) == State([Lib(name, md5, 1, RECORDS, seq(RECORDS, i => 0))], map[])
  {
    run := CountedTwice(name, alias, md5);
    var l := NewNode(name, md5, 1);
    assert NextUser(l.rec, 1) == RECORDS;
    assert l.rec[1 := 0] == seq(RECORDS, i => 0);
    run := Step(run, UnloadLib(name, 1));
  }
}
