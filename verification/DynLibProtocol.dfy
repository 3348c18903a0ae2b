/** Processes loading and unloading dynamic libraries at the same time.  Every section under bmcpu_lib_mutex
    is one step; sending the message, which may fail, is another. */
module DynLibProtocol {
  import opened DynRegistry

  /** How far a call has come. */
  datatype Call =
    | Missed(name: Name, md5: Md5, rec: nat)    // load: nobody uses the library
    | Counted(name: Name, md5: Md5, rec: nat)   // load: the record is settled
    | Removed(md5: Md5)                         // unload: the caller's node is gone
    | Sending(md5: Md5, load: bool)             // the message is let out, but not yet sent

  /** A message that reached the device, and how many users the library had then. */
  datatype Message = Message(md5: Md5, load: bool, users: nat)

  datatype State = State(list: seq<Lib>, calls: map<int, Call>, told: seq<Message>)

  datatype Action =
    | LoadLookup(pid: int, name: Name, md5: Md5, rec: nat)
    | LoadCount(pid: int)
    | LoadAppend(pid: int)
    | UnloadRemove(pid: int, md5: Md5)
    | UnloadTest(pid: int)
    | SendOk(pid: int)
    | SendFails(pid: int)

  const Init: State := State([], map[], [])

  /** The record of the first node of the library, if it has one. */
  function RecordOf(list: seq<Lib>, md5: Md5): nat {
    if list == [] then 0 else if list[0].md5 == md5 then list[0].curRec else RecordOf(list[1..], md5)
  }

  predicate Enabled(s: State, a: Action) {
    match a
    case LoadLookup(pid, _, _, _) => pid !in s.calls
    case UnloadRemove(pid, _) => pid !in s.calls
    case LoadCount(pid) => pid in s.calls && s.calls[pid].Missed?
    case LoadAppend(pid) => pid in s.calls && s.calls[pid].Counted?
    case UnloadTest(pid) => pid in s.calls && s.calls[pid].Removed?
    case SendOk(pid) => pid in s.calls && s.calls[pid].Sending?
    case SendFails(pid) => pid in s.calls && s.calls[pid].Sending?
  }

  function Apply(s: State, a: Action): State
    requires Enabled(s, a)
  {
    match a
    case LoadLookup(pid, name, md5, rec) =>
      if Users(s.list, md5) > 0 then s.(list := s.list + [Lib(name, md5, RecordOf(s.list, md5), pid)])
      else s.(calls := s.calls[pid := Missed(name, md5, rec)])
    case LoadCount(pid) =>
      var c := s.calls[pid];
      s.(calls := s.calls[pid := Counted(c.name, c.md5, c.rec + Named(s.list, c.name))])
    case LoadAppend(pid) =>
      var c := s.calls[pid];
      s.(list := s.list + [Lib(c.name, c.md5, c.rec, pid)], calls := s.calls[pid := Sending(c.md5, true)])
    case UnloadRemove(pid, md5) =>
      s.(list := WithoutFirst(s.list, md5, pid), calls := s.calls[pid := Removed(md5)])
    case UnloadTest(pid) =>
      var md5 := s.calls[pid].md5;
      if Users(s.list, md5) > 0 then s.(calls := s.calls - {pid})
      else s.(calls := s.calls[pid := Sending(md5, false)])
    case SendOk(pid) =>
      var c := s.calls[pid];
      s.(calls := s.calls - {pid}, told := s.told + [Message(c.md5, c.load, Users(s.list, c.md5))])
    case SendFails(pid) => s.(calls := s.calls - {pid})
  }

  predicate IsStep(s: State, a: Action, s': State) {
    Enabled(s, a) && s' == Apply(s, a)
  }

  ghost predicate Next(s: State, s': State) {
    exists a :: IsStep(s, a, s')
  }

  ghost predicate Run(run: seq<State>) {
    && |run| > 0 && run[0] == Init
    && forall i :: 0 <= i < |run| - 1 ==> Next(run[i], run[i + 1])
  }

  // ---------------------------------------------------------------- what the device should have been told

  /** The last message about the library told the device to load it. */
  predicate OnDevice(told: seq<Message>, md5: Md5) {
    told != [] && (if told[|told| - 1].md5 == md5 then told[|told| - 1].load else OnDevice(told[..|told| - 1], md5))
  }

  /** The device is told to load only what it does not have, and to unload only what it has and nobody uses.
      So loads and unloads of a library alternate. */
  predicate WellTold(told: seq<Message>, md5: Md5) {
    forall k :: 0 <= k < |told| && told[k].md5 == md5 ==> Proper(told[k], OnDevice(told[..k], md5))
  }

  predicate Proper(m: Message, onDevice: bool) {
    if m.load then !onDevice else onDevice && m.users == 0
  }

  predicate OneRecord(list: seq<Lib>, md5: Md5) {
    forall l, m :: l in list && m in list && l.md5 == md5 && m.md5 == md5 ==> l.curRec == m.curRec
  }

  /** The call will tell the device something, as long as the library has `users` users. */
  predicate Owing(c: Call, md5: Md5, users: nat) {
    c.md5 == md5 && (c.Removed? ==> users == 0)
  }

  /** The call found no user of the library and has not added its node yet. */
  predicate LoadsFirst(c: Call, md5: Md5) {
    c.md5 == md5 && (c.Missed? || c.Counted?)
  }

  predicate NoneOwes(md5: Md5, calls: map<int, Call>, users: nat) {
    forall p :: p in calls ==> !Owing(calls[p], md5, users)
  }

  /** When no call owes the device a message, it has the library exactly when somebody uses it. */
  predicate Agree(md5: Md5, s: State) {
    NoneOwes(md5, s.calls, Users(s.list, md5)) ==> (OnDevice(s.told, md5) <==> Users(s.list, md5) > 0)
  }

  predicate Good(md5: Md5, s: State) {
    WellTold(s.told, md5) && OneRecord(s.list, md5) && Agree(md5, s)
  }

  /** An unload that will tell the device something, as long as the library has `users` users. */
  predicate Unloading(c: Call, md5: Md5, users: nat) {
    Owing(c, md5, users) && (c.Removed? || (c.Sending? && !c.load))
  }

  /** A first load is in progress together with another call that owes a message. */
  predicate FirstBeside(md5: Md5, calls: map<int, Call>, users: nat) {
    exists p, q :: p in calls && q in calls && p != q && LoadsFirst(calls[p], md5) && Owing(calls[q], md5, users)
  }

  /** Two unloads owe the device a message. */
  predicate TwoUnload(md5: Md5, calls: map<int, Call>, users: nat) {
    exists p, q :: p in calls && q in calls && p != q && Unloading(calls[p], md5, users) && Unloading(calls[q], md5, users)
  }

  /** An unload owes the device a message about a library that the device does not have. */
  predicate NeedlessUnload(md5: Md5, calls: map<int, Call>, users: nat, onDevice: bool) {
    !onDevice && exists p :: p in calls && Unloading(calls[p], md5, users)
  }

  predicate Clash(md5: Md5, s: State) {
    var users := Users(s.list, md5);
    || FirstBeside(md5, s.calls, users) || TwoUnload(md5, s.calls, users)
    || NeedlessUnload(md5, s.calls, users, OnDevice(s.told, md5))
  }

  /** A message about the library is not sent. */
  ghost predicate Lost(md5: Md5, s: State, s': State) {
    exists p :: p in s.calls && s.calls[p].md5 == md5 && IsStep(s, SendFails(p), s')
  }

  predicate Finishes(a: Action) {
    a.LoadCount? || a.LoadAppend? || a.UnloadTest? || a.SendOk?
  }

  /** Only by finishing calls in progress, with sends that succeed, at most `k` steps lead to a bad state. */
  ghost predicate CanFail(md5: Md5, s: State, k: nat)
    decreases k
  {
    || !Good(md5, s)
    || (k > 0 && exists a :: Finishes(a) && Enabled(s, a) && CanFail(md5, Apply(s, a), k - 1))
  }

  ghost predicate Safe(md5: Md5, s: State) {
    forall k: nat :: !CanFail(md5, s, k)
  }

  // ---------------------------------------------------------------- without clash and loss

  function Owners(list: seq<Lib>, md5: Md5): set<int> {
    set l | l in list && l.md5 == md5 :: l.pid
  }

  predicate CallOk(c: Call, owns: bool, users: nat, onDevice: bool) {
    match c
    case Removed(_) => true
    case Sending(_, load) => if load then owns && users > 0 && !onDevice else users == 0
    case _ => users == 0 && !onDevice
  }

  /** The calls about a library, its users and what the device has fit together. */
  predicate Calm(md5: Md5, calls: map<int, Call>, users: nat, owners: set<int>, onDevice: bool) {
    && (forall p :: p in calls && calls[p].md5 == md5 ==> CallOk(calls[p], p in owners, users, onDevice))
    && (forall p, q :: p in calls && q in calls && calls[p] == calls[q] == Sending(md5, true) ==> p == q)
    && (NoneOwes(md5, calls, users) ==> (onDevice <==> users > 0))
  }

  ghost predicate Inv(md5: Md5, s: State) {
    && WellTold(s.told, md5) && OneRecord(s.list, md5)
    && Calm(md5, s.calls, Users(s.list, md5), Owners(s.list, md5), OnDevice(s.told, md5))
  }

  lemma OwnedMeansUsed(list: seq<Lib>, md5: Md5)
    ensures Owners(list, md5) != {} ==> Users(list, md5) > 0
  {
    UsersPositive(list, md5);
    if pid :| pid in Owners(list, md5) {
      var l :| l in list && l.md5 == md5 && l.pid == pid;
      var k :| 0 <= k < |list| && list[k] == l;
    }
  }

  /** Unloading takes nothing from other processes and other libraries. */
  lemma RemoveKeeps(list: seq<Lib>, md5: Md5, pid: int, other: Md5)
    ensures Users(WithoutFirst(list, md5, pid), other) <= Users(list, other)
    ensures other != md5 ==> Users(WithoutFirst(list, md5, pid), other) == Users(list, other)
    ensures forall l :: l in WithoutFirst(list, md5, pid) ==> l in list
    ensures Owners(list, other) - (if other == md5 then {pid} else {}) <= Owners(WithoutFirst(list, md5, pid), other)
  {
    var k := FirstLoad(list, md5, pid);
    if k < |list| {
      UsersRemove(list, k, other);
      var rest := list[..k] + list[k + 1..];
      forall q | q in Owners(list, other) && (q != pid || other != md5) ensures q in Owners(rest, other) {
        var l :| l in list && l.md5 == other && l.pid == q;
        var j :| 0 <= j < |list| && list[j] == l;
        assert l == if j < k then rest[j] else rest[j - 1];
      }
    }
  }

  lemma {:induction false} RecordOfUser(list: seq<Lib>, md5: Md5)
    requires Users(list, md5) > 0
    ensures exists l :: l in list && l.md5 == md5 && l.curRec == RecordOf(list, md5)
  {
    if list[0].md5 == md5 {
      assert list[0] in list;
    } else {
      RecordOfUser(list[1..], md5);
      var l :| l in list[1..] && l.md5 == md5 && l.curRec == RecordOf(list[1..], md5);
      assert l in list;
    }
  }

  lemma NobodyUses(list: seq<Lib>, md5: Md5)
    requires Users(list, md5) == 0
    ensures forall l :: l in list ==> l.md5 != md5
  {
    UsersPositive(list, md5);
    forall l | l in list ensures l.md5 != md5 {
      var k :| 0 <= k < |list| && list[k] == l;
    }
  }

  /** What a message changes about the device. */
  lemma Telling(told: seq<Message>, m: Message, md5: Md5)
    ensures OnDevice(told + [m], md5) == if m.md5 == md5 then m.load else OnDevice(told, md5)
    ensures WellTold(told + [m], md5) <==>
              WellTold(told, md5) && (m.md5 == md5 ==> Proper(m, OnDevice(told, md5)))
  {
    var all := told + [m];
    assert all[..|all| - 1] == told;
    assert forall k :: 0 <= k < |told| ==> all[k] == told[k] && all[..k] == told[..k];
  }

  // What each step does to the calls, the users and the device.

  lemma MissCalm(md5: Md5, calls: map<int, Call>, owners: set<int>, onDevice: bool, p: int, c: Call)
    requires Calm(md5, calls, 0, owners, onDevice) && p !in calls && LoadsFirst(c, md5)
    requires !FirstBeside(md5, calls[p := c], 0)
    ensures Calm(md5, calls[p := c], 0, owners, onDevice)
  {
    var calls' := calls[p := c];
    forall q | q in calls ensures !Owing(calls[q], md5, 0) {
      assert calls'[q] == calls[q] && calls'[p] == c;
    }
    assert calls'[p] == c;
  }

  lemma JoinCalm(md5: Md5, calls: map<int, Call>, users: nat, owners: set<int>, onDevice: bool, p: int)
    requires Calm(md5, calls, users, owners, onDevice) && users > 0
    ensures Calm(md5, calls, users + 1, owners + {p}, onDevice)
  {
  }

  lemma CountCalm(md5: Md5, calls: map<int, Call>, users: nat, owners: set<int>, onDevice: bool, p: int, c: Call)
    requires Calm(md5, calls, users, owners, onDevice) && p in calls && LoadsFirst(calls[p], md5) && LoadsFirst(c, md5)
    ensures Calm(md5, calls[p := c], users, owners, onDevice)
  {
    assert calls[p := c][p] == c;
  }

  lemma AppendCalm(md5: Md5, calls: map<int, Call>, users: nat, owners: set<int>, onDevice: bool, p: int)
    requires Calm(md5, calls, users, owners, onDevice) && p in calls && LoadsFirst(calls[p], md5) && !FirstBeside(md5, calls, users)
    ensures users == 0 && Calm(md5, calls[p := Sending(md5, true)], 1, owners + {p}, onDevice)
  {
    forall q | q in calls && q != p ensures !Owing(calls[q], md5, users) {
    }
    assert calls[p := Sending(md5, true)][p] == Sending(md5, true);
  }

  lemma RemoveCalm(md5: Md5, calls: map<int, Call>, users: nat, owners: set<int>, onDevice: bool, p: int, users': nat, owners': set<int>)
    requires Calm(md5, calls, users, owners, onDevice) && p !in calls
    requires users' <= users && owners - {p} <= owners' && (owners' != {} ==> users' > 0)
    ensures Calm(md5, calls[p := Removed(md5)], users', owners', onDevice)
  {
    var calls' := calls[p := Removed(md5)];
    if NoneOwes(md5, calls', users') {
      assert calls'[p] == Removed(md5);
      forall q | q in calls ensures !Owing(calls[q], md5, users) {
        assert calls'[q] == calls[q];
      }
    }
  }

  lemma TestCalm(md5: Md5, calls: map<int, Call>, users: nat, owners: set<int>, onDevice: bool, p: int)
    requires Calm(md5, calls, users, owners, onDevice) && p in calls && calls[p] == Removed(md5)
    ensures users > 0 ==> Calm(md5, calls - {p}, users, owners, onDevice)
    ensures users == 0 ==> Calm(md5, calls[p := Sending(md5, false)], users, owners, onDevice)
  {
    if users > 0 && NoneOwes(md5, calls - {p}, users) {
      forall q | q in calls ensures !Owing(calls[q], md5, users) {
        assert q != p ==> (calls - {p})[q] == calls[q];
      }
    }
    assert calls[p := Sending(md5, false)][p] == Sending(md5, false);
  }

  lemma SendCalm(md5: Md5, calls: map<int, Call>, users: nat, owners: set<int>, onDevice: bool, p: int)
    requires Calm(md5, calls, users, owners, onDevice) && p in calls && calls[p].Sending? && calls[p].md5 == md5
    ensures calls[p].load ==> !onDevice && users > 0
    ensures !calls[p].load ==> users == 0
    ensures Calm(md5, calls - {p}, users, owners, calls[p].load)
  {
  }

  /** A message that is not sent leaves nobody to make up for it. */
  lemma FailBreaks(md5: Md5, calls: map<int, Call>, users: nat, owners: set<int>, onDevice: bool, p: int)
    requires Calm(md5, calls, users, owners, onDevice) && p in calls && calls[p].Sending? && calls[p].md5 == md5
    requires !FirstBeside(md5, calls, users) && !TwoUnload(md5, calls, users) && !NeedlessUnload(md5, calls, users, onDevice)
    ensures NoneOwes(md5, calls - {p}, users) && (onDevice <==> users == 0)
  {
    var calls' := calls - {p};
    assert CallOk(calls[p], p in owners, users, onDevice);
    forall q | q in calls' ensures !Owing(calls'[q], md5, users) {
      assert q in calls && q != p && calls'[q] == calls[q];
      assert calls[q].md5 == md5 ==> CallOk(calls[q], q in owners, users, onDevice);
    }
    assert !calls[p].load ==> Unloading(calls[p], md5, users);
  }

  /** A step of a call about another library. */
  lemma OtherCalm(md5: Md5, calls: map<int, Call>, calls': map<int, Call>, users: nat, owners: set<int>, onDevice: bool, p: int)
    requires Calm(md5, calls, users, owners, onDevice)
    requires p in calls ==> calls[p].md5 != md5
    requires p in calls' ==> calls'[p].md5 != md5
    requires calls' - {p} == calls - {p}
    ensures Calm(md5, calls', users, owners, onDevice)
  {
    forall q | q != p ensures (q in calls <==> q in calls') && (q in calls ==> calls[q] == calls'[q]) {
      assert q in calls <==> q in calls - {p};
      assert q in calls' <==> q in calls' - {p};
      if q in calls {
        assert (calls - {p})[q] == (calls' - {p})[q];
      }
    }
    if NoneOwes(md5, calls', users) {
      forall q | q in calls ensures !Owing(calls[q], md5, users) {
        assert q != p ==> q in calls';
      }
    }
  }

  /** One more node. */
  lemma NodeAdded(list: seq<Lib>, l: Lib, md5: Md5)
    requires OneRecord(list, md5) && (l.md5 == md5 && Users(list, md5) > 0 ==> l.curRec == RecordOf(list, md5))
    ensures Users(list + [l], md5) == Users(list, md5) + (if l.md5 == md5 then 1 else 0)
    ensures Owners(list + [l], md5) == Owners(list, md5) + (if l.md5 == md5 then {l.pid} else {})
    ensures OneRecord(list + [l], md5)
  {
    UsersAppend(list, l, md5);
    assert forall m :: m in list + [l] <==> m in list || m == l;
    assert l.md5 == md5 ==> l in list + [l];
    if Users(list, md5) > 0 {
      RecordOfUser(list, md5);
    } else {
      NobodyUses(list, md5);
    }
  }

  lemma LookupKeeps(md5: Md5, s: State, a: Action, s': State)
    requires IsStep(s, a, s') && a.LoadLookup? && Inv(md5, s) && !Clash(md5, s')
    ensures Inv(md5, s')
  {
    if Users(s.list, a.md5) > 0 {
      NodeAdded(s.list, Lib(a.name, a.md5, RecordOf(s.list, a.md5), a.pid), md5);
      if a.md5 == md5 {
        JoinCalm(md5, s.calls, Users(s.list, md5), Owners(s.list, md5), OnDevice(s.told, md5), a.pid);
      }
    } else if a.md5 == md5 {
      MissCalm(md5, s.calls, Owners(s.list, md5), OnDevice(s.told, md5), a.pid, Missed(a.name, md5, a.rec));
    } else {
      OtherCalm(md5, s.calls, s'.calls, Users(s.list, md5), Owners(s.list, md5), OnDevice(s.told, md5), a.pid);
    }
  }

  lemma AppendKeeps(md5: Md5, s: State, a: Action, s': State)
    requires IsStep(s, a, s') && a.LoadAppend? && Inv(md5, s) && !Clash(md5, s)
    ensures Inv(md5, s')
  {
    var c := s.calls[a.pid];
    if c.md5 == md5 {
      AppendCalm(md5, s.calls, Users(s.list, md5), Owners(s.list, md5), OnDevice(s.told, md5), a.pid);
    } else {
      OtherCalm(md5, s.calls, s'.calls, Users(s.list, md5), Owners(s.list, md5), OnDevice(s.told, md5), a.pid);
    }
    NodeAdded(s.list, Lib(c.name, c.md5, c.rec, a.pid), md5);
  }

  lemma RemoveKeepsInv(md5: Md5, s: State, a: Action, s': State)
    requires IsStep(s, a, s') && a.UnloadRemove? && Inv(md5, s)
    ensures Inv(md5, s')
  {
    RemoveKeeps(s.list, a.md5, a.pid, md5);
    OwnedMeansUsed(s'.list, md5);
    if a.md5 == md5 {
      RemoveCalm(md5, s.calls, Users(s.list, md5), Owners(s.list, md5), OnDevice(s.told, md5), a.pid,
                 Users(s'.list, md5), Owners(s'.list, md5));
    } else {
      assert Owners(s'.list, md5) == Owners(s.list, md5);
      OtherCalm(md5, s.calls, s'.calls, Users(s.list, md5), Owners(s.list, md5), OnDevice(s.told, md5), a.pid);
    }
  }

  lemma SendKeeps(md5: Md5, s: State, a: Action, s': State)
    requires IsStep(s, a, s') && a.SendOk? && Inv(md5, s) && !Clash(md5, s)
    ensures Inv(md5, s')
  {
    var c := s.calls[a.pid];
    Telling(s.told, Message(c.md5, c.load, Users(s.list, c.md5)), md5);
    if c.md5 == md5 {
      SendCalm(md5, s.calls, Users(s.list, md5), Owners(s.list, md5), OnDevice(s.told, md5), a.pid);
      assert !c.load ==> Unloading(c, md5, Users(s.list, md5));
    } else {
      OtherCalm(md5, s.calls, s'.calls, Users(s.list, md5), Owners(s.list, md5), OnDevice(s.told, md5), a.pid);
    }
  }

  /** The steps that change neither list nor messages. */
  lemma QuietKeeps(md5: Md5, s: State, a: Action, s': State)
    requires IsStep(s, a, s') && (a.LoadCount? || a.UnloadTest? || a.SendFails?) && Inv(md5, s) && !Lost(md5, s, s')
    ensures Inv(md5, s')
  {
    var u, owners, d := Users(s.list, md5), Owners(s.list, md5), OnDevice(s.told, md5);
    if s.calls[a.pid].md5 != md5 {
      OtherCalm(md5, s.calls, s'.calls, u, owners, d, a.pid);
    } else {
      match a
      case LoadCount(p) => CountCalm(md5, s.calls, u, owners, d, p, s'.calls[p]);
      case UnloadTest(p) => TestCalm(md5, s.calls, u, owners, d, p);
    }
  }

  lemma StepKeeps(md5: Md5, s: State, a: Action, s': State)
    requires IsStep(s, a, s') && Inv(md5, s) && !Clash(md5, s) && !Clash(md5, s') && !Lost(md5, s, s')
    ensures Inv(md5, s')
  {
    match a
    case LoadLookup(_, _, _, _) => LookupKeeps(md5, s, a, s');
    case LoadAppend(_) => AppendKeeps(md5, s, a, s');
    case UnloadRemove(_, _) => RemoveKeepsInv(md5, s, a, s');
    case SendOk(_) => SendKeeps(md5, s, a, s');
    case _ => QuietKeeps(md5, s, a, s');
  }

  /** Finishing calls brings no new clash. */
  lemma FinishKeepsApart(md5: Md5, s: State, a: Action)
    requires Finishes(a) && Enabled(s, a) && !Clash(md5, s)
    ensures !Clash(md5, Apply(s, a))
  {
    var s' := Apply(s, a);
    var u, u' := Users(s.list, md5), Users(s'.list, md5);
    FinishBringsNone(md5, s, a);
    forall p, q | p in s'.calls && q in s'.calls && p != q ensures !(LoadsFirst(s'.calls[p], md5) && Owing(s'.calls[q], md5, u')) {
      assert !(LoadsFirst(s.calls[p], md5) && Owing(s.calls[q], md5, u));
    }
    forall p, q | p in s'.calls && q in s'.calls && p != q ensures !(Unloading(s'.calls[p], md5, u') && Unloading(s'.calls[q], md5, u')) {
      assert !(Unloading(s.calls[p], md5, u) && Unloading(s.calls[q], md5, u));
    }
    if a.SendOk? {
      var c := s.calls[a.pid];
      Telling(s.told, Message(c.md5, c.load, Users(s.list, c.md5)), md5);
      assert c.md5 == md5 && !c.load ==> Unloading(c, md5, u);
    }
    forall p | p in s'.calls && !OnDevice(s'.told, md5) ensures !Unloading(s'.calls[p], md5, u') {
      assert p in s.calls && (a.SendOk? ==> p != a.pid);
    }
  }

  /** What a call does in its last steps it was about to do before. */
  lemma FinishBringsNone(md5: Md5, s: State, a: Action)
    requires Finishes(a) && Enabled(s, a)
    ensures var s' := Apply(s, a); var u, u' := Users(s.list, md5), Users(s'.list, md5);
            forall p :: p in s'.calls ==>
              && p in s.calls
              && (LoadsFirst(s'.calls[p], md5) ==> LoadsFirst(s.calls[p], md5))
              && (Unloading(s'.calls[p], md5, u') ==> Unloading(s.calls[p], md5, u))
              && (Owing(s'.calls[p], md5, u') ==> Owing(s.calls[p], md5, u))
  {
    if a.LoadAppend? {
      var c := s.calls[a.pid];
      UsersAppend(s.list, Lib(c.name, c.md5, c.rec, a.pid), md5);
    }
  }

  lemma {:induction false} NeverFails(md5: Md5, s: State, k: nat)
    requires Inv(md5, s) && !Clash(md5, s)
    ensures !CanFail(md5, s, k)
    decreases k
  {
    if k > 0 {
      forall a | Finishes(a) && Enabled(s, a) ensures !CanFail(md5, Apply(s, a), k - 1) {
        FinishKeepsApart(md5, s, a);
        NotLost(md5, s, a);
        StepKeeps(md5, s, a, Apply(s, a));
        NeverFails(md5, Apply(s, a), k - 1);
      }
    }
  }

  /** A call that finishes is no failed send. */
  lemma NotLost(md5: Md5, s: State, a: Action)
    requires Finishes(a) && Enabled(s, a)
    ensures !Lost(md5, s, Apply(s, a))
  {
    if p :| IsStep(s, SendFails(p), Apply(s, a)) {
      assert p in s.calls && s.calls[p].Sending? && p !in Apply(s, a).calls;
      assert Apply(s, a).told == s.told;
    }
  }

  // ---------------------------------------------------------------- what a clash leads to

  ghost predicate Doomed(md5: Md5, s: State) {
    exists k: nat :: CanFail(md5, s, k)
  }

  lemma Back(md5: Md5, s: State, a: Action)
    requires Finishes(a) && Enabled(s, a) && Doomed(md5, Apply(s, a))
    ensures Doomed(md5, s)
  {
    var k: nat :| CanFail(md5, Apply(s, a), k);
    assert CanFail(md5, s, k + 1);
  }

  /** A first load up to the point where its message is let out. */
  function Bring(s: State, p: int): State
    requires p in s.calls && (s.calls[p].Missed? || s.calls[p].Counted?)
  {
    var t := if s.calls[p].Missed? then Apply(s, LoadCount(p)) else s;
    Apply(t, LoadAppend(p))
  }

  lemma Brought(md5: Md5, s: State, p: int)
    requires p in s.calls && LoadsFirst(s.calls[p], md5)
    ensures Bring(s, p).calls == s.calls[p := Sending(md5, true)] && Bring(s, p).told == s.told
    ensures Users(Bring(s, p).list, md5) == Users(s.list, md5) + 1
    ensures Doomed(md5, Bring(s, p)) ==> Doomed(md5, s)
  {
    var t := if s.calls[p].Missed? then Apply(s, LoadCount(p)) else s;
    var c := t.calls[p];
    UsersAppend(s.list, Lib(c.name, c.md5, c.rec, p), md5);
    if Doomed(md5, Bring(s, p)) {
      Back(md5, t, LoadAppend(p));
      if s.calls[p].Missed? {
        Back(md5, s, LoadCount(p));
      }
    }
  }

  /** A message that must not go out. */
  lemma BadMessage(md5: Md5, s: State, p: int)
    requires p in s.calls && s.calls[p].Sending? && s.calls[p].md5 == md5
    requires if s.calls[p].load then OnDevice(s.told, md5) else !OnDevice(s.told, md5) || Users(s.list, md5) > 0
    ensures Doomed(md5, s)
  {
    var c := s.calls[p];
    Telling(s.told, Message(c.md5, c.load, Users(s.list, c.md5)), md5);
    assert CanFail(md5, Apply(s, SendOk(p)), 0);
    Back(md5, s, SendOk(p));
  }

  /** A load message is about to go out while a second first load is in progress. */
  lemma SecondLoad(md5: Md5, s: State, p: int, q: int)
    requires p in s.calls && q in s.calls && p != q && s.calls[p] == Sending(md5, true) && LoadsFirst(s.calls[q], md5)
    ensures Doomed(md5, s)
  {
    var t := Apply(s, SendOk(p));
    Telling(s.told, Message(md5, true, Users(s.list, md5)), md5);
    Brought(md5, t, q);
    BadMessage(md5, Bring(t, q), q);
    Back(md5, s, SendOk(p));
  }

  lemma UnloadAfterFirst(md5: Md5, s: State, p: int, q: int)
    requires p in s.calls && q in s.calls && p != q && LoadsFirst(s.calls[p], md5) && s.calls[q] == Sending(md5, false)
    ensures Doomed(md5, s)
  {
    Brought(md5, s, p);
    BadMessage(md5, Bring(s, p), q);
  }

  /** An unload up to the point where its message is let out. */
  function Let(s: State, p: int): State
    requires p in s.calls
  {
    if s.calls[p].Removed? then Apply(s, UnloadTest(p)) else s
  }

  lemma LetOut(md5: Md5, s: State, p: int)
    requires p in s.calls && Unloading(s.calls[p], md5, Users(s.list, md5))
    ensures Let(s, p) == s.(calls := s.calls[p := Sending(md5, false)])
    ensures Doomed(md5, Let(s, p)) ==> Doomed(md5, s)
  {
    if s.calls[p].Removed? && Doomed(md5, Let(s, p)) {
      Back(md5, s, UnloadTest(p));
    }
  }

  lemma NeedlessDooms(md5: Md5, s: State, p: int)
    requires p in s.calls && Unloading(s.calls[p], md5, Users(s.list, md5)) && !OnDevice(s.told, md5)
    ensures Doomed(md5, s)
  {
    LetOut(md5, s, p);
    BadMessage(md5, Let(s, p), p);
  }

  /** Of two unload messages the second comes when the device does not have the library any more. */
  lemma TwoDoom(md5: Md5, s: State, p: int, q: int)
    requires p in s.calls && q in s.calls && p != q
    requires Unloading(s.calls[p], md5, Users(s.list, md5)) && Unloading(s.calls[q], md5, Users(s.list, md5))
    ensures Doomed(md5, s)
  {
    LetOut(md5, s, p);
    var t := Let(s, p);
    var u := Apply(t, SendOk(p));
    Telling(t.told, Message(md5, false, Users(t.list, md5)), md5);
    NeedlessDooms(md5, u, q);
    Back(md5, t, SendOk(p));
  }

  lemma ClashDooms(md5: Md5, s: State)
    requires Clash(md5, s)
    ensures !Safe(md5, s)
  {
    var users := Users(s.list, md5);
    if FirstBeside(md5, s.calls, users) {
      FirstBesideDooms(md5, s);
    } else if TwoUnload(md5, s.calls, users) {
      var p, q :| p in s.calls && q in s.calls && p != q && Unloading(s.calls[p], md5, users) && Unloading(s.calls[q], md5, users);
      TwoDoom(md5, s, p, q);
    } else {
      var p :| p in s.calls && Unloading(s.calls[p], md5, users);
      NeedlessDooms(md5, s, p);
    }
  }

  lemma FirstBesideDooms(md5: Md5, s: State)
    requires FirstBeside(md5, s.calls, Users(s.list, md5))
    ensures Doomed(md5, s)
  {
    var p, q :| p in s.calls && q in s.calls && p != q && LoadsFirst(s.calls[p], md5) && Owing(s.calls[q], md5, Users(s.list, md5));
    match s.calls[q]
    case Removed(_) =>
      var t := Apply(s, UnloadTest(q));
      UnloadAfterFirst(md5, t, p, q);
      Back(md5, s, UnloadTest(q));
    case Sending(_, load) =>
      if load {
        SecondLoad(md5, s, q, p);
      } else {
        UnloadAfterFirst(md5, s, p, q);
      }
    case _ =>
      Brought(md5, s, p);
      SecondLoad(md5, Bring(s, p), p, q);
  }

  lemma LossIsBad(md5: Md5, s: State, s': State)
    requires Inv(md5, s) && !Clash(md5, s) && Lost(md5, s, s')
    ensures !Safe(md5, s')
  {
    var p :| p in s.calls && s.calls[p].md5 == md5 && IsStep(s, SendFails(p), s');
    FailBreaks(md5, s.calls, Users(s.list, md5), Owners(s.list, md5), OnDevice(s.told, md5), p);
    assert CanFail(md5, s', 0);
  }

  // ---------------------------------------------------------------- the exact condition

  ghost predicate Apart(md5: Md5, run: seq<State>) {
    forall i :: 0 <= i < |run| ==> !Clash(md5, run[i])
  }

  ghost predicate Lossless(md5: Md5, run: seq<State>) {
    forall i :: 0 < i < |run| ==> !Lost(md5, run[i - 1], run[i])
  }

  lemma {:induction false} RunInv(md5: Md5, run: seq<State>, i: nat)
    requires Run(run) && i < |run|
    requires forall j :: 0 <= j <= i ==> !Clash(md5, run[j])
    requires forall j :: 0 < j <= i ==> !Lost(md5, run[j - 1], run[j])
    ensures Inv(md5, run[i])
  {
    if i > 0 {
      RunInv(md5, run, i - 1);
      assert Next(run[i - 1], run[i - 1 + 1]);
      var a :| IsStep(run[i - 1], a, run[i]);
      StepKeeps(md5, run[i - 1], a, run[i]);
    }
  }

  lemma {:induction false} SafeMeansApart(md5: Md5, run: seq<State>, i: nat)
    requires Run(run) && i < |run| && forall j :: 0 <= j <= i ==> Safe(md5, run[j])
    ensures forall j :: 0 <= j <= i ==> !Clash(md5, run[j])
    ensures forall j :: 0 < j <= i ==> !Lost(md5, run[j - 1], run[j])
  {
    if Clash(md5, run[i]) {
      ClashDooms(md5, run[i]);
    }
    if i > 0 {
      SafeMeansApart(md5, run, i - 1);
      RunInv(md5, run, i - 1);
      if Lost(md5, run[i - 1], run[i]) {
        LossIsBad(md5, run[i - 1], run[i]);
      }
    }
  }

  /** In every run: finishing the calls in progress, with sends that succeed, tells the device to load exactly
      what it does not have and to unload exactly what it has and nobody uses, never gives two users of the
      library different records, and leaves the library on the device exactly while it has users - all this
      exactly when no first load was in progress together with another call that owed the device a message, no
      two unloads owed it one, none owed it one about a library it did not have, and no message was lost. */
  lemma DeviceFollowsUseExactly(md5: Md5, run: seq<State>)
    requires Run(run)
    ensures (forall i :: 0 <= i < |run| ==> Safe(md5, run[i])) <==> Apart(md5, run) && Lossless(md5, run)
    ensures Apart(md5, run) && Lossless(md5, run) ==> forall i :: 0 <= i < |run| ==> Good(md5, run[i])
  {
    if forall i :: 0 <= i < |run| ==> Safe(md5, run[i]) {
      SafeMeansApart(md5, run, |run| - 1);
    }
    if Apart(md5, run) && Lossless(md5, run) {
      forall i | 0 <= i < |run| ensures Safe(md5, run[i]) && Good(md5, run[i]) {
        RunInv(md5, run, i);
        forall k: nat ensures !CanFail(md5, run[i], k) {
          NeverFails(md5, run[i], k);
        }
      }
    }
  }

  // ---------------------------------------------------------------- witnesses

  function Last(run: seq<State>): State
    requires |run| > 0
  {
    run[|run| - 1]
  }

  lemma Step(run: seq<State>, a: Action) returns (r: seq<State>)
    requires Run(run) && Enabled(Last(run), a)
    ensures Run(r) && run <= r && Last(r) == Apply(Last(run), a)
  {
    r := run + [Apply(Last(run), a)];
    assert IsStep(Last(run), a, Last(r));
    forall i | 0 <= i < |r| - 1 ensures Next(r[i], r[i + 1]) {
      assert i < |run| - 1 ==> Next(run[i], run[i + 1]);
    }
  }

  /** A first load on an empty list, up to the point where its message is let out. */
  lemma LoadFirst(name: Name, md5: Md5) returns (run: seq<State>)
    ensures Run(run) && Last(run) == State([Lib(name, md5, 0, 1)], map[1 := Sending(md5, true)], [])
  {
    run := Step([Init], LoadLookup(1, name, md5, 0));
    run := Step(run, LoadCount(1));
    run := Step(run, LoadAppend(1));
  }

  /** Two processes load a library at the same time: both are let out, with different records. */
  lemma TwoFirstLoads(name: Name, md5: Md5) returns (run: seq<State>)
    ensures Run(run) && Last(run).calls == map[]
    ensures Last(run).list == [Lib(name, md5, 0, 1), Lib(name, md5, 1, 2)]
    ensures Last(run).told == [Message(md5, true, 2), Message(md5, true, 2)]
  {
    run := Step([Init], LoadLookup(1, name, md5, 0));
    run := Step(run, LoadLookup(2, name, md5, 0));
    run := Step(run, LoadCount(1));
    run := Step(run, LoadAppend(1));
    assert Named(Last(run).list, name) == 1 by {
      assert Last(run).list[..0] == [];
    }
    run := Step(run, LoadCount(2));
    run := Step(run, LoadAppend(2));
    UsersAppend([], Lib(name, md5, 0, 1), md5);
    UsersAppend([Lib(name, md5, 0, 1)], Lib(name, md5, 1, 2), md5);
    assert [Lib(name, md5, 0, 1)] + [Lib(name, md5, 1, 2)] == [Lib(name, md5, 0, 1), Lib(name, md5, 1, 2)];
    assert [] + [Lib(name, md5, 0, 1)] == [Lib(name, md5, 0, 1)];
    run := Step(run, SendOk(1));
    run := Step(run, SendOk(2));
  }

  /** The first load's message is never sent: its node stays, and the next load is told that the library is
      there already. */
  lemma FailedLoadStays(name: Name, md5: Md5) returns (run: seq<State>)
    ensures Run(run) && Last(run) == State([Lib(name, md5, 0, 1), Lib(name, md5, 0, 2)], map[], [])
  {
    run := LoadFirst(name, md5);
    run := Step(run, SendFails(1));
    UsersPositive(Last(run).list, md5);
    assert Last(run).list[0].md5 == md5;
    run := Step(run, LoadLookup(2, name, md5, 0));
  }

  /** Two users unload a library at the same time: both take their node out before either looks for users left,
      and the device is told twice. */
  lemma TwoLastUnloads(name: Name, md5: Md5) returns (run: seq<State>)
    ensures Run(run) && Last(run) == State([], map[], [Message(md5, true, 2), Message(md5, false, 0), Message(md5, false, 0)])
  {
    var a, b := Lib(name, md5, 0, 1), Lib(name, md5, 0, 2);
    run := LoadFirst(name, md5);
    UsersAppend([], a, md5);
    assert [] + [a] == [a];
    run := Step(run, LoadLookup(2, name, md5, 0));
    assert Last(run).list == [a, b];
    UsersAppend([a], b, md5);
    assert [a] + [b] == [a, b];
    run := Step(run, SendOk(1));
    FirstLoadIs([a, b], md5, 1);
    run := Step(run, UnloadRemove(1, md5));
    assert Last(run).list == [b];
    FirstLoadIs([b], md5, 2);
    run := Step(run, UnloadRemove(2, md5));
    assert Last(run).list == [];
    run := Step(run, UnloadTest(1));
    run := Step(run, UnloadTest(2));
    run := Step(run, SendOk(1));
    run := Step(run, SendOk(2));
  }

  lemma FirstLoadIs(list: seq<Lib>, md5: Md5, pid: int)
    requires list != [] && list[0].md5 == md5 && list[0].pid == pid
    ensures WithoutFirst(list, md5, pid) == list[1..]
  {
    assert list[..0] + list[1..] == list[1..];
  }

  /** Unloading a library nobody ever loaded tells the device to unload it. */
  lemma UnloadWithoutUser(md5: Md5) returns (run: seq<State>)
    ensures Run(run) && Last(run) == State([], map[], [Message(md5, false, 0)])
  {
    run := Step([Init], UnloadRemove(1, md5));
    run := Step(run, UnloadTest(1));
    run := Step(run, SendOk(1));
  }
}
