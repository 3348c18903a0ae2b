/** The first library registry of the driver: a list of nodes, which is a sequence that the methods replace.
    The class is for one caller at a time; LibProtocol takes the sections of several callers apart. */
module LibRegistry {
  type Name = string
  type Md5 = seq<nat>

  const RECORDS: nat := 50
  const EINVAL: int := 22

  type Record = r: seq<nat> | |r| == RECORDS witness seq(RECORDS, i => 0)

  /** struct bmcpu_lib in the first registry: rec[i] is non-zero while process i uses the library. */
  datatype Lib = Lib(name: Name, md5: Md5, refcount: int, curRec: nat, rec: Record)

  ghost function Holders(rec: seq<nat>): set<nat> {
    set i | 0 <= i < |rec| && rec[i] != 0
  }

  /** The counter counts the users and the current record is one of them; so no node is without users. */
  ghost predicate Sound(l: Lib) {
    && l.refcount == |Holders(l.rec)|
    && l.curRec in Holders(l.rec)
    && 0 !in Holders(l.rec)
  }

  ghost predicate AllSound(list: seq<Lib>) {
    forall k :: 0 <= k < |list| ==> Sound(list[k])
  }

  /** Process handles the callers use. */
  predicate ValidHandle(ph: nat) {
    1 <= ph < RECORDS
  }

  predicate Uses(l: Lib, name: Name, ph: nat) {
    l.name == name && ph < RECORDS && l.rec[ph] != 0
  }

  /** The first node `name` that process `ph` uses, or the length of the list. */
  function FirstUse(list: seq<Lib>, name: Name, ph: nat): (k: nat)
    ensures k <= |list| && (k < |list| ==> Uses(list[k], name, ph))
    ensures forall j :: 0 <= j < k ==> !Uses(list[j], name, ph)
    ensures ph < RECORDS && k < |list| ==> list[k].name == name && list[k].rec[ph] != 0
    ensures ph < RECORDS ==> forall j :: 0 <= j < k ==> list[j].name != name || list[j].rec[ph] == 0
  {
    if list == [] || Uses(list[0], name, ph) then 0
    else
      var k := FirstUse(list[1..], name, ph) + 1;
      assert forall j :: 0 < j < k ==> list[j] == list[1..][j - 1];
      k
  }

  function FirstMd5(list: seq<Lib>, md5: Md5): (k: nat)
    ensures k <= |list| && (k < |list| ==> list[k].md5 == md5)
    ensures forall j :: 0 <= j < k ==> list[j].md5 != md5
  {
    if list == [] || list[0].md5 == md5 then 0
    else
      var k := FirstMd5(list[1..], md5) + 1;
      assert forall j :: 0 < j < k ==> list[j] == list[1..][j - 1];
      k
  }

  /** The node of a library nobody used before. */
  function NewNode(name: Name, md5: Md5, ph: nat): Lib
    requires ph < RECORDS
  {
    Lib(name, md5, 1, ph, seq(RECORDS, i => 0)[ph := ph])
  }

  /** One more user is recorded. */
  function Joined(l: Lib, ph: nat): Lib
    requires ph < RECORDS
  {
    l.(refcount := l.refcount + 1, rec := l.rec[ph := l.curRec])
  }

  /** Process `ph` is one user more of node m, recorded with the record in use; nothing else changed. */
  ghost predicate HasJoined(was: seq<Lib>, now: seq<Lib>, m: nat, ph: nat) {
    && m < |was| == |now| && ph < RECORDS && (forall j :: 0 <= j < |was| && j != m ==> now[j] == was[j])
    && now[m].rec[ph] == was[m].curRec == now[m].curRec && now[m].refcount == was[m].refcount + 1
    && now[m].name == was[m].name && now[m].md5 == was[m].md5
    && forall i :: 0 <= i < RECORDS && i != ph ==> now[m].rec[i] == was[m].rec[i]
  }

  /** There is one node more, of which process `ph` is the only user, under its own handle. */
  ghost predicate HasAdded(was: seq<Lib>, now: seq<Lib>, name: Name, md5: Md5, ph: nat) {
    && |now| == |was| + 1 && now[..|was|] == was && ph < RECORDS
    && now[|was|].name == name && now[|was|].md5 == md5 && now[|was|].refcount == 1
    && now[|was|].curRec == ph == now[|was|].rec[ph]
    && forall i :: 0 <= i < RECORDS && i != ph ==> now[|was|].rec[i] == 0
  }

  lemma JoinedMeans(list: seq<Lib>, m: nat, ph: nat)
    requires m < |list| && ph < RECORDS
    ensures HasJoined(list, list[m := Joined(list[m], ph)], m, ph)
  {
  }

  lemma AddedMeans(list: seq<Lib>, name: Name, md5: Md5, ph: nat)
    requires ph < RECORDS
    ensures HasAdded(list, list + [NewNode(name, md5, ph)], name, md5, ph)
  {
  }

  /** What one load leaves, with no other call in between. */
  function AfterLoad(list: seq<Lib>, name: Name, md5: Md5, ph: nat): seq<Lib>
    requires ph < RECORDS
  {
    var m := FirstMd5(list, md5);
    if FirstUse(list, name, ph) < |list| then list
    else if m < |list| then list[m := Joined(list[m], ph)]
    else list + [NewNode(name, md5, ph)]
  }

  /** The first record in use besides `ph`, or their number. */
  function NextUser(rec: seq<nat>, ph: nat): (k: nat)
    ensures k <= |rec| && (k < |rec| ==> rec[k] != 0 && k != ph)
    ensures forall i :: 0 <= i < k && i != ph ==> rec[i] == 0
  {
    NextUserFrom(rec, ph, 0)
  }

  function NextUserFrom(rec: seq<nat>, ph: nat, i: nat): (k: nat)
    requires i <= |rec|
    ensures i <= k <= |rec| && (k < |rec| ==> rec[k] != 0 && k != ph)
    ensures forall j :: i <= j < k && j != ph ==> rec[j] == 0
    decreases |rec| - i
  {
    if i == |rec| || (rec[i] != 0 && i != ph) then i else NextUserFrom(rec, ph, i + 1)
  }

  /** One user less; if it was the current record, the next user takes over. */
  function Left(l: Lib, ph: nat): (r: Lib)
    requires ph < RECORDS
    ensures r.name == l.name && r.md5 == l.md5
  {
    l.(refcount := l.refcount - 1, curRec := if l.curRec == ph then NextUser(l.rec, ph) else l.curRec, rec := l.rec[ph := 0])
  }

  /** What an unload leaves: with the last user the node goes. */
  function AfterUnload(list: seq<Lib>, name: Name, ph: nat): seq<Lib> {
    var k := FirstUse(list, name, ph);
    if k == |list| then list
    else
      var l := list[k];
      if l.curRec == ph && l.refcount == 1 then list[..k] + list[k + 1..]
      else list[k := Left(l, ph)]
  }

  lemma HoldersSet(rec: seq<nat>, i: nat, v: nat)
    requires i < |rec|
    ensures Holders(rec[i := v]) == if v != 0 then Holders(rec) + {i} else Holders(rec) - {i}
  {
  }

  /** A library nobody used before has one user. */
  lemma NewNodeSound(name: Name, md5: Md5, ph: nat)
    requires ValidHandle(ph)
    ensures Sound(NewNode(name, md5, ph))
  {
    HoldersSet(seq(RECORDS, i => 0), ph, ph);
    assert Holders(seq(RECORDS, i => 0)) == {};
  }

  /** Recording one more user keeps the count right exactly when the process is not recorded yet. */
  lemma JoinSoundExactly(l: Lib, ph: nat)
    requires Sound(l) && ValidHandle(ph)
    ensures Sound(Joined(l, ph)) <==> l.rec[ph] == 0
  {
    HoldersSet(l.rec, ph, l.curRec);
    if l.rec[ph] != 0 {
      assert Holders(l.rec) + {ph} == Holders(l.rec);
    }
  }

  /** With a user besides `ph` there is another record to move to. */
  lemma SuccessorExists(l: Lib, ph: nat)
    requires Sound(l) && ph in Holders(l.rec) && l.refcount != 1
    ensures exists i :: 0 <= i < RECORDS && l.rec[i] != 0 && i != ph
  {
    assert |Holders(l.rec) - {ph}| == l.refcount - 1;
    var i :| i in Holders(l.rec) - {ph};
  }

  /** What is left of a node when one of several users goes. */
  lemma LeaveSound(l: Lib, ph: nat, next: nat)
    requires Sound(l) && ph in Holders(l.rec) && next in Holders(l.rec) && next != ph
    ensures Sound(l.(refcount := l.refcount - 1, curRec := next, rec := l.rec[ph := 0]))
  {
    HoldersSet(l.rec, ph, 0);
  }

  class Registry {
    var list: seq<Lib>

    constructor ()
      ensures list == []
    {
      list := [];
    }

    /** bmdrv_api_load_lib_process.  `record` is the record the caller is told to use.  The registry stays
        sound exactly unless the caller already holds the same md5 under another name. */
    method Load(name: Name, md5: Md5, ph: nat) returns (ret: int, record: nat)
      requires AllSound(list) && ValidHandle(ph)
      modifies this
      ensures list == AfterLoad(old(list), name, md5, ph)
      // a process that uses the name already changes nothing
      ensures FirstUse(old(list), name, ph) < |old(list)| ==> list == old(list)
      // a process that joins is recorded with the record it is told to use
      ensures var was := old(list); var m := FirstMd5(was, md5);
              FirstUse(was, name, ph) == |was| && m < |was| ==> HasJoined(was, list, m, ph) && list[m].rec[ph] == record
      // the first process is recorded with its own handle
      ensures FirstUse(old(list), name, ph) == |old(list)| == FirstMd5(old(list), md5) ==> HasAdded(old(list), list, name, md5, ph)
      ensures var was := old(list); var k := FirstUse(was, name, ph);
              k < |was| ==> ret == (if was[k].md5 == md5 then 0 else -EINVAL) && (ret == 0 ==> record == was[k].curRec)
      ensures var was := old(list); var k, m := FirstUse(was, name, ph), FirstMd5(was, md5);
              k == |was| ==> ret == 0 && (m < |was| ==> record == was[m].curRec)
      ensures AllSound(list) <==> !Aliased(old(list), name, md5, ph)
      ensures ret == 0 ==> exists k :: 0 <= k < |list| && list[k].md5 == md5 && ph in Holders(list[k].rec)
    {
      record := 0;
      var k := 0;
      while k < |list|
        invariant k <= |list| && list == old(list)
        invariant forall j :: 0 <= j < k ==> !Uses(list[j], name, ph)
      {
        if list[k].name == name && list[k].rec[ph] != 0 {
          if list[k].md5 != md5 {
            return -EINVAL, 0;
          }
          return 0, list[k].curRec;
        }
        k := k + 1;
      }
      var m := 0;
      while m < |list|
        invariant m <= |list| && list == old(list)
        invariant forall j :: 0 <= j < m ==> list[j].md5 != md5
      {
        if list[m].md5 == md5 {
          JoinSoundExactly(list[m], ph);
          JoinedMeans(list, m, ph);
          record := list[m].curRec;
          list := list[m := Joined(list[m], ph)];
          assert list[m].md5 == md5 && ph in Holders(list[m].rec);
          return 0, record;
        }
        m := m + 1;
      }
      NewNodeSound(name, md5, ph);
      AddedMeans(list, name, md5, ph);
      list := list + [NewNode(name, md5, ph)];
      assert list[|list| - 1].md5 == md5 && ph in Holders(list[|list| - 1].rec);
      ret := 0;
    }

    /** The caller holds the library's md5 already, but not under this name. */
    static ghost predicate Aliased(list: seq<Lib>, name: Name, md5: Md5, ph: nat) {
      var m := FirstMd5(list, md5);
      FirstUse(list, name, ph) == |list| && m < |list| && ph < RECORDS && list[m].rec[ph] != 0
    }

    /** bmdrv_api_unload_lib_process: the caller's record goes; with the last user the node goes, and if the
        caller was the current record, the first other user takes over.  The firmware is told the caller's
        record and, when it moves, where to (0 otherwise). */
    method Unload(name: Name, ph: nat) returns (record: nat, moveTo: nat)
      requires AllSound(list) && ValidHandle(ph)
      modifies this
      ensures AllSound(list) && list == AfterUnload(old(list), name, ph)
      ensures var was := old(list); var k := FirstUse(was, name, ph);
              k < |was| ==> record == was[k].rec[ph]
      ensures var was := old(list); var k := FirstUse(was, name, ph);
              && (k == |was| ==> list == was)
              && (k < |was| && Holders(was[k].rec) == {ph} ==> moveTo == 0 && list == was[..k] + was[k + 1..])
              && (k < |was| && Holders(was[k].rec) != {ph} ==>
                    && |list| == |was| && list == was[k := list[k]]
                    && list[k].name == was[k].name && list[k].md5 == was[k].md5 && list[k].rec == was[k].rec[ph := 0]
                    && (was[k].curRec != ph ==> moveTo == 0 && list[k].curRec == was[k].curRec)
                    && (was[k].curRec == ph ==>
                          moveTo == list[k].curRec && forall i :: 0 <= i < list[k].curRec && i != ph ==> i !in Holders(was[k].rec)))
    {
      var k := 0;
      while k < |list|
        invariant k <= |list| && list == old(list)
        invariant forall j :: 0 <= j < k ==> !Uses(list[j], name, ph)
      {
        if list[k].name == name && list[k].rec[ph] != 0 {
          record, moveTo := Leave(k, name, ph);
          return;
        }
        k := k + 1;
      }
      record, moveTo := 0, 0;
    }

    method Leave(k: nat, name: Name, ph: nat) returns (record: nat, moveTo: nat)
      requires AllSound(list) && FirstUse(list, name, ph) == k < |list|
      modifies this
      ensures AllSound(list) && list == AfterUnload(old(list), name, ph)
      ensures var was := old(list);
              && record == was[k].rec[ph]
              && (Holders(was[k].rec) == {ph} ==> moveTo == 0 && list == was[..k] + was[k + 1..])
              && (Holders(was[k].rec) != {ph} ==>
                    && |list| == |was| && list == was[k := list[k]]
                    && list[k].name == was[k].name && list[k].md5 == was[k].md5 && list[k].rec == was[k].rec[ph := 0]
                    && (was[k].curRec != ph ==> moveTo == 0 && list[k].curRec == was[k].curRec)
                    && (was[k].curRec == ph ==>
                          moveTo == list[k].curRec && forall i :: 0 <= i < list[k].curRec && i != ph ==> i !in Holders(was[k].rec)))
    {
      var l := list[k];
      record, moveTo := l.rec[ph], 0;
      OneUser(l, ph);
      var refcount := l.refcount - 1;
      var next := l.curRec;
      if l.curRec == ph {
        if refcount == 0 {
          list := list[..k] + list[k + 1..];
          return;
        }
        SuccessorExists(l, ph);
        next := 0;
        while next < RECORDS && !(l.rec[next] != 0 && next != ph)
          invariant next <= RECORDS && forall i :: 0 <= i < next ==> !(l.rec[i] != 0 && i != ph)
        {
          next := next + 1;
        }
        moveTo := next;
      }
      LeaveSound(l, ph, next);
      list := list[k := l.(refcount := refcount, curRec := next, rec := l.rec[ph := 0])];
    }
  }

  lemma OneUser(l: Lib, ph: nat)
    requires Sound(l) && ph in Holders(l.rec)
    ensures l.refcount == 1 <==> Holders(l.rec) == {ph}
    ensures l.refcount == 1 ==> l.curRec == ph
    ensures l.refcount >= 1
  {
    if l.refcount == 1 {
      assert Holders(l.rec) - {ph} == {} by {
        assert |Holders(l.rec) - {ph}| == 0;
      }
    }
  }
}
