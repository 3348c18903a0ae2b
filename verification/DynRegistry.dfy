/** Dynamic libraries: one list node for every load, function ids that the firmware is asked for once, and
    the decision whether a load or unload message goes out.  The class is for one caller at a time;
    DynLibProtocol and FuncIdProtocol take the sections of several callers apart. */
module DynRegistry {
  type Name = string
  type Md5 = seq<nat>

  /** Ids handed out by the driver start here. */
  const FIRST_ID: nat := 22

  /** struct bmcpu_lib in the second registry. */
  datatype Lib = Lib(name: Name, md5: Md5, curRec: nat, pid: int)

  /** struct bmdrv_exec_func. */
  datatype Func = Func(md5: Md5, fname: Name, fid: nat)

  /** How many loads of a library are not undone. */
  function Users(list: seq<Lib>, md5: Md5): nat {
    if list == [] then 0 else Users(list[1..], md5) + (if list[0].md5 == md5 then 1 else 0)
  }

  lemma {:induction false} UsersConcat(a: seq<Lib>, b: seq<Lib>, md5: Md5)
    ensures Users(a + b, md5) == Users(a, md5) + Users(b, md5)
  {
    if a == [] {
      assert a + b == b;
    } else {
      assert (a + b)[1..] == a[1..] + b;
      UsersConcat(a[1..], b, md5);
    }
  }

  lemma UsersAppend(a: seq<Lib>, l: Lib, md5: Md5)
    ensures Users(a + [l], md5) == Users(a, md5) + (if l.md5 == md5 then 1 else 0)
  {
    UsersConcat(a, [l], md5);
    assert [l][1..] == [];
  }

  lemma UsersRemove(a: seq<Lib>, k: nat, md5: Md5)
    requires k < |a|
    ensures Users(a, md5) == Users(a[..k] + a[k + 1..], md5) + (if a[k].md5 == md5 then 1 else 0)
  {
    assert a == (a[..k] + [a[k]]) + a[k + 1..];
    UsersConcat(a[..k] + [a[k]], a[k + 1..], md5);
    UsersAppend(a[..k], a[k], md5);
    UsersConcat(a[..k], a[k + 1..], md5);
  }

  lemma {:induction false} UsersPositive(list: seq<Lib>, md5: Md5)
    ensures Users(list, md5) > 0 <==> exists k :: 0 <= k < |list| && list[k].md5 == md5
  {
    if list != [] {
      UsersPositive(list[1..], md5);
      if Users(list[1..], md5) > 0 {
        var k :| 0 <= k < |list[1..]| && list[1..][k].md5 == md5;
        assert list[k + 1].md5 == md5;
      }
      if k :| 0 <= k < |list| && list[k].md5 == md5 {
        assert k == 0 || list[1..][k - 1].md5 == md5;
      }
    }
  }

  /** The first load of the library by process `pid`. */
  function FirstLoad(list: seq<Lib>, md5: Md5, pid: int): (k: nat)
    ensures k <= |list| && (k < |list| ==> list[k].md5 == md5 && list[k].pid == pid)
    ensures forall j :: 0 <= j < k ==> !(list[j].md5 == md5 && list[j].pid == pid)
  {
    if list == [] || (list[0].md5 == md5 && list[0].pid == pid) then 0
    else
      var k := FirstLoad(list[1..], md5, pid) + 1;
      assert forall j :: 0 < j < k ==> list[j] == list[1..][j - 1];
      k
  }

  /** One load of this process undone, if it has one. */
  function WithoutFirst(list: seq<Lib>, md5: Md5, pid: int): seq<Lib> {
    var k := FirstLoad(list, md5, pid);
    if k < |list| then list[..k] + list[k + 1..] else list
  }

  /** How many nodes carry the name. */
  function Named(list: seq<Lib>, name: Name): nat {
    if list == [] then 0 else Named(list[..|list| - 1], name) + (if list[|list| - 1].name == name then 1 else 0)
  }

  /** The listed nodes of that name. */
  ghost function NodesNamed(list: seq<Lib>, name: Name): set<nat> {
    set k: nat | k < |list| && list[k].name == name
  }

  lemma NoneNamed(list: seq<Lib>, name: Name)
    ensures NodesNamed(list, name) == {} <==> forall l :: l in list ==> l.name != name
  {
    if l :| l in list && l.name == name {
      var k: nat :| k < |list| && list[k] == l;
      assert k in NodesNamed(list, name);
    }
  }

  lemma {:induction false} NamedCounts(list: seq<Lib>, name: Name)
    ensures Named(list, name) == |NodesNamed(list, name)|
  {
    if list == [] {
      assert NodesNamed(list, name) == {};
    } else {
      var rest, last := list[..|list| - 1], |list| - 1;
      NamedCounts(rest, name);
      assert NodesNamed(list, name) == if list[last].name == name then NodesNamed(rest, name) + {last} else NodesNamed(rest, name);
    }
  }

  /** Entries of other libraries, in order. */
  function Without(funcs: seq<Func>, md5: Md5): (r: seq<Func>)
    ensures forall f :: f in r <==> f in funcs && f.md5 != md5
  {
    if funcs == [] then []
    else if funcs[0].md5 == md5 then Without(funcs[1..], md5)
    else [funcs[0]] + Without(funcs[1..], md5)
  }

  /** One function of one library. */
  datatype Key = Key(md5: Md5, fname: Name)

  class Registry {
    var list: seq<Lib>
    var funcs: seq<Func>
    var nextId: nat
    ghost var granted: set<Func>    // every id ever given out, with what it was given for
    ghost var announced: set<Md5>   // libraries whose load message was let out after the last unload message

    /** No id was ever given to two functions, a listed function has one id, all users of a library have the
        same record, and load messages were let out exactly for the libraries in use. */
    ghost predicate Valid()
      reads this
    {
      && nextId >= FIRST_ID
      && (forall f :: f in granted ==> FIRST_ID <= f.fid < nextId)
      && (forall f, g :: f in granted && g in granted && f.fid == g.fid ==> f == g)
      && (forall f :: f in funcs ==> f in granted)
      && (forall f, g :: f in funcs && g in funcs && f.md5 == g.md5 && f.fname == g.fname ==> f == g)
      && (forall l, m :: l in list && m in list && l.md5 == m.md5 ==> l.curRec == m.curRec)
      && (forall md5 :: md5 in announced <==> Users(list, md5) > 0)
    }

    constructor ()
      ensures Valid() && list == [] && funcs == [] && nextId == FIRST_ID
    {
      list, funcs, nextId, granted, announced := [], [], FIRST_ID, {}, {};
    }

    ghost predicate Known(md5: Md5, fname: Name, fid: nat)
      reads this
    {
      Func(md5, fname, fid) in funcs
    }

    /** bmdrv_api_dyn_load_lib_process: 0 lets the load message go out, which happens exactly for the first
        user.  `curRec` is what the caller proposes; it is moved on past the libraries of the same name. */
    method DynLoad(name: Name, md5: Md5, curRec: nat, pid: int) returns (ret: int, rec: nat)
      requires Valid()
      modifies this
      ensures Valid() && funcs == old(funcs) && nextId == old(nextId) && granted == old(granted)
      ensures ret == 0 <==> Users(old(list), md5) == 0
      ensures ret == 0 || ret == -1
      ensures list == old(list) + [Lib(name, md5, rec, pid)]
      ensures ret == 0 ==> rec == curRec + Named(old(list), name)
      ensures ret == 0 ==> rec - curRec == |NodesNamed(old(list), name)|
      ensures ret == 0 ==> (rec == curRec <==> forall l :: l in old(list) ==> l.name != name)
      ensures ret != 0 ==> forall l :: l in old(list) && l.md5 == md5 ==> rec == l.curRec
      ensures forall other :: Users(list, other) == Users(old(list), other) + (if other == md5 then 1 else 0)
      ensures announced == old(announced) + (if ret == 0 then {md5} else {})
    {
      UsersPositive(list, md5);
      var k := 0;
      while k < |list|
        invariant k <= |list| && forall j :: 0 <= j < k ==> list[j].md5 != md5
      {
        if list[k].md5 == md5 {
          assert list[k] in list;
          rec := list[k].curRec;
          Append(Lib(name, md5, rec, pid));
          return -1, rec;
        }
        k := k + 1;
      }
      var n := CountNamed(name);
      NamedCounts(list, name);
      NoneNamed(list, name);
      rec := curRec + n;
      Append(Lib(name, md5, rec, pid));
      announced := announced + {md5};
      ret := 0;
    }

    /** The second loop of bmdrv_api_dyn_load_lib_process. */
    method CountNamed(name: Name) returns (n: nat)
      ensures n == Named(list, name)
    {
      n := 0;
      var k := 0;
      while k < |list|
        invariant k <= |list| && n == Named(list[..k], name)
      {
        assert list[..k + 1][..k] == list[..k];
        if list[k].name == name {
          n := n + 1;
        }
        k := k + 1;
      }
      assert list[..|list|] == list;
    }

    method Append(l: Lib)
      modifies this`list
      ensures list == old(list) + [l]
      ensures forall md5 :: Users(list, md5) == Users(old(list), md5) + (if l.md5 == md5 then 1 else 0)
    {
      forall md5 ensures Users(list + [l], md5) == Users(list, md5) + (if l.md5 == md5 then 1 else 0) {
        UsersAppend(list, l, md5);
      }
      list := list + [l];
    }

    /** bmdrv_api_dyn_unload_lib_process: 0 lets the unload message go out, when nobody uses the library any
        more; its functions are forgotten then.  That is the step from one user to none exactly when the
        library had a user before the call: without any, the message goes out again. */
    method DynUnload(md5: Md5, pid: int) returns (ret: int)
      requires Valid()
      modifies this
      ensures Valid() && nextId == old(nextId) && granted == old(granted)
      ensures ret == 0 <==> Users(list, md5) == 0
      ensures ret == 0 || ret == -1
      ensures list == WithoutFirst(old(list), md5, pid)
      ensures Users(list, md5) == Users(old(list), md5) - (if FirstLoad(old(list), md5, pid) < |old(list)| then 1 else 0)
      ensures forall f :: f in funcs <==> f in old(funcs) && (ret != 0 || f.md5 != md5)
      ensures announced == old(announced) - (if ret == 0 then {md5} else {})
      ensures ret == 0 ==> (md5 in old(announced) <==> Users(old(list), md5) > 0)
    {
      RemoveFirst(md5, pid);
      var used := IsUsed(md5);
      if used {
        return -1;
      }
      funcs := Without(funcs, md5);
      announced := announced - {md5};
      ret := 0;
    }

    method IsUsed(md5: Md5) returns (used: bool)
      ensures used <==> Users(list, md5) > 0
    {
      UsersPositive(list, md5);
      var k := 0;
      while k < |list|
        invariant k <= |list| && forall j :: 0 <= j < k ==> list[j].md5 != md5
      {
        if list[k].md5 == md5 {
          return true;
        }
        k := k + 1;
      }
      used := false;
    }

    method RemoveFirst(md5: Md5, pid: int)
      modifies this`list
      ensures list == WithoutFirst(old(list), md5, pid)
      ensures Users(list, md5) == Users(old(list), md5) - (if FirstLoad(old(list), md5, pid) < |old(list)| then 1 else 0)
      ensures forall other :: other != md5 ==> Users(list, other) == Users(old(list), other)
      ensures forall l :: l in list ==> l in old(list)
    {
      var k := 0;
      while k < |list|
        invariant k <= |list| && list == old(list)
        invariant forall j :: 0 <= j < k ==> !(list[j].md5 == md5 && list[j].pid == pid)
      {
        if list[k].md5 == md5 && list[k].pid == pid {
          forall other
            ensures Users(list, other) == Users(list[..k] + list[k + 1..], other) + (if md5 == other then 1 else 0)
          {
            UsersRemove(list, k, other);
          }
          list := list[..k] + list[k + 1..];
          return;
        }
        k := k + 1;
      }
    }

    /** bmdrv_api_dyn_get_func_process: a function already listed keeps its id and the firmware is not asked
        again; any other gets an id never used before. */
    method GetFunc(md5: Md5, fname: Name) returns (ret: int, fid: nat)
      requires Valid()
      modifies this`funcs, this`nextId, this`granted
      ensures Valid()
      ensures Known(md5, fname, fid) && Func(md5, fname, fid) in granted
      ensures forall f :: f in old(funcs) ==> f in funcs
      ensures ret == 0 || ret == -1
      ensures ret == -1 ==> funcs == old(funcs) && granted == old(granted)
      ensures ret == 0 ==> granted == old(granted) + {Func(md5, fname, fid)} && forall f :: f in old(granted) ==> f.fid != fid
      ensures ret == 0 <==> forall id: nat :: Func(md5, fname, id) !in old(funcs)
    {
      var k := 0;
      while k < |funcs|
        invariant k <= |funcs|
        invariant forall j :: 0 <= j < k ==> !(funcs[j].md5 == md5 && funcs[j].fname == fname)
      {
        if funcs[k].md5 == md5 && funcs[k].fname == fname {
          fid := funcs[k].fid;
          assert funcs[k] == Func(md5, fname, fid);
          return -1, fid;
        }
        k := k + 1;
      }
      fid := nextId;
      nextId := nextId + 1;
      funcs := funcs + [Func(md5, fname, fid)];
      granted := granted + {Func(md5, fname, fid)};
      ret := 0;
    }
  }
}
