/** The table of shared modules and its reference counts.

    A shared module is one loaded library: one live data section, whatever the number of processes
    using it. Its refcount counts the loaders that use it and the shared modules that depend on it. */
module SharedModules {
  import opened CountedRefs
  import Memory

  type Byte = Memory.Byte

  /** current is the buffer whose process owns the live data section, 0 when nobody does. */
  datatype SharedModule = SharedModule(template: seq<Byte>, data: seq<Byte>, current: nat, refcount: nat, deps: seq<nat>)
  type Table = map<nat, SharedModule>

  ghost function DepsOf(ms: Table, dying: set<nat>): map<nat, multiset<nat>> {
    map j | j in ms && j !in dying :: multiset(ms[j].deps)
  }

  /** Dependencies are in the table and came before: ids are handed out in load order. */
  ghost predicate DepsClosed(ms: Table, dying: set<nat>) {
    forall j, d :: j in ms && j !in dying && d in ms[j].deps ==> d in ms && d < j
  }

  /** Every refcount is exactly the references from outside (ext) plus those from modules that are not
      being deleted; nothing outside refers to a missing module; only dying modules have count zero. */
  ghost predicate RefsExact(ms: Table, ext: multiset<nat>, dying: set<nat>) {
    && (forall id :: id in ms ==> ms[id].refcount == ext[id] + Total(DepsOf(ms, dying))[id])
    && (forall id :: id in ms && id !in dying ==> ms[id].refcount > 0)
    && (forall id :: id in ext ==> id in ms)
    && DepsClosed(ms, dying)
  }

  // ---------------------------------------------------------------- UnrefSharedModule

  function SetRefcount(ms: Table, id: nat, n: nat): Table
    requires id in ms
  {
    ms[id := ms[id].(refcount := n)]
  }

  /** The table after UnrefSharedModule (id): the count drops, and a module whose count reaches zero
      gives up its own references and goes. */
  function Unref(ms: Table, id: nat): (ms': Table)
    ensures ms'.Keys <= ms.Keys
    ensures forall j :: j in ms' ==> ms'[j] == ms[j].(refcount := ms'[j].refcount)
    ensures forall j :: j in ms && j > id ==> j in ms' && ms'[j] == ms[j]
    decreases id, 1, 0
  {
    if id !in ms || ms[id].refcount == 0 then ms
    else
      var ms1 := SetRefcount(ms, id, ms[id].refcount - 1);
      if ms1[id].refcount > 0 then ms1
      else UnrefAll(ms1, ms[id].deps, id) - {id}
  }

  function UnrefAll(ms: Table, deps: seq<nat>, bound: nat): (ms': Table)
    ensures ms'.Keys <= ms.Keys
    ensures forall j :: j in ms' ==> ms'[j] == ms[j].(refcount := ms'[j].refcount)
    ensures forall j :: j in ms && j >= bound ==> j in ms' && ms'[j] == ms[j]
    decreases bound, 0, |deps|
  {
    if deps == [] then ms
    else if deps[0] < bound then UnrefAll(Unref(ms, deps[0]), deps[1..], bound)
    else UnrefAll(ms, deps[1..], bound)
  }

  lemma SameDeps(ms: Table, ms': Table, dying: set<nat>)
    requires ms'.Keys == ms.Keys && forall j :: j in ms ==> ms'[j].deps == ms[j].deps
    ensures DepsOf(ms', dying) == DepsOf(ms, dying)
    ensures DepsClosed(ms, dying) ==> DepsClosed(ms', dying)
  {
    if DepsClosed(ms, dying) {
      forall j, d | j in ms' && j !in dying && d in ms'[j].deps ensures d in ms' && d < j {
        assert d in ms[j].deps;
      }
    }
  }

  /** One outside reference fewer. */
  lemma {:induction false} UnrefKeeps(ms: Table, id: nat, ext: multiset<nat>, dying: set<nat>)
    requires RefsExact(ms, ext, dying) && ext[id] > 0 && id !in dying && forall x :: x in dying ==> id < x
    ensures RefsExact(Unref(ms, id), ext - multiset{id}, dying)
    decreases id, 1, 0
  {
    hide DepsOf, Total, RefsExact;
    assert id in ext;
    ExactFacts(ms, ext, dying);
    assert id in ms && ms[id].refcount >= 1;
    var ms1 := SetRefcount(ms, id, ms[id].refcount - 1);
    var ext1 := ext - multiset{id};
    if ms1[id].refcount > 0 {
      DropRef(ms, id, ext, dying);
    } else {
      var deps := ms[id].deps;
      StartDying(ms, id, ext, dying);
      UnrefAllKeeps(ms1, deps, id, ext1 + multiset(deps), dying + {id});
      assert ext1 + multiset(deps) - multiset(deps) == ext1;
      FinishDying(UnrefAll(ms1, deps, id), id, ext1, dying);
    }
  }

  lemma ExactFacts(ms: Table, ext: multiset<nat>, dying: set<nat>)
    requires RefsExact(ms, ext, dying)
    ensures forall x :: x in ms ==> ms[x].refcount == ext[x] + Total(DepsOf(ms, dying))[x]
    ensures forall x :: x in ms && x !in dying ==> ms[x].refcount > 0
    ensures forall x :: x in ext ==> x in ms
    ensures DepsClosed(ms, dying)
  {
  }

  lemma ExactFrom(ms: Table, ext: multiset<nat>, dying: set<nat>, total: multiset<nat>)
    requires total == Total(DepsOf(ms, dying)) && DepsClosed(ms, dying)
    requires forall x :: x in ms ==> ms[x].refcount == ext[x] + total[x] && (x !in dying ==> ms[x].refcount > 0)
    requires forall x :: x in ext ==> x in ms
    ensures RefsExact(ms, ext, dying)
  {
  }

  lemma DropRef(ms: Table, id: nat, ext: multiset<nat>, dying: set<nat>)
    requires RefsExact(ms, ext, dying) && ext[id] > 0 && id in ms && ms[id].refcount > 1
    ensures RefsExact(SetRefcount(ms, id, ms[id].refcount - 1), ext - multiset{id}, dying)
  {
    hide Total, DepsOf, RefsExact;
    var ms1 := SetRefcount(ms, id, ms[id].refcount - 1);
    ExactFacts(ms, ext, dying);
    SameDeps(ms, ms1, dying);
    var ext1 := ext - multiset{id};
    assert forall x :: x in ext1 ==> x in ext;
    ExactFrom(ms1, ext1, dying, Total(DepsOf(ms, dying)));
  }

  lemma DepsWithout(ms: Table, id: nat, dying: set<nat>)
    requires id in ms && id !in dying
    ensures Total(DepsOf(ms, dying)) == multiset(ms[id].deps) + Total(DepsOf(SetRefcount(ms, id, 0), dying + {id}))
  {
    TotalSplit(DepsOf(ms, dying), id);
    assert DepsOf(ms, dying) - {id} == DepsOf(SetRefcount(ms, id, 0), dying + {id});
  }

  /** The module's own references become references to be given up one by one. */
  lemma StartDying(ms: Table, id: nat, ext: multiset<nat>, dying: set<nat>)
    requires RefsExact(ms, ext, dying) && ext[id] > 0 && id in ms && id !in dying && ms[id].refcount == 1
    ensures RefsExact(SetRefcount(ms, id, 0), ext - multiset{id} + multiset(ms[id].deps), dying + {id})
    ensures (ext - multiset{id})[id] == 0 && forall d :: d in ms[id].deps ==> d < id
  {
    hide DepsOf, Total, RefsExact;
    var ms1 := SetRefcount(ms, id, 0);
    var deps := ms[id].deps;
    var ext1 := ext - multiset{id} + multiset(deps);
    ghost var total, total1 := Total(DepsOf(ms, dying)), Total(DepsOf(ms1, dying + {id}));
    ExactFacts(ms, ext, dying);
    assert ms[id].refcount == ext[id] + total[id];
    assert ext[id] == 1 && total[id] == 0;
    DepsWithout(ms, id, dying);
    assert total == multiset(deps) + total1;
    forall d | d in deps ensures d in ms && d < id {
      assert id in ms && id !in dying && d in ms[id].deps;
    }
    StartClosed(ms, id, dying);
    forall x | x in ext1 ensures x in ms1 {
      assert x in ext || x in deps;
    }
    forall x | x in ms1 ensures ms1[x].refcount == ext1[x] + total1[x] && (x !in dying + {id} ==> ms1[x].refcount > 0) {
      assert x in ms && ms[x].refcount == ext[x] + total[x];
    }
    ExactFrom(ms1, ext1, dying + {id}, total1);
  }

  lemma StartClosed(ms: Table, id: nat, dying: set<nat>)
    requires DepsClosed(ms, dying) && id in ms
    ensures DepsClosed(SetRefcount(ms, id, 0), dying + {id})
  {
    var ms1 := SetRefcount(ms, id, 0);
    forall j, d | j in ms1 && j !in dying + {id} && d in ms1[j].deps ensures d in ms1 && d < j {
      assert j in ms && j !in dying && d in ms[j].deps;
    }
  }

  lemma FinishDying(ms: Table, id: nat, ext: multiset<nat>, dying: set<nat>)
    requires RefsExact(ms, ext, dying + {id}) && id in ms && id !in dying && ms[id].refcount == 0
    ensures RefsExact(ms - {id}, ext, dying)
  {
    hide Total, RefsExact;
    var ms' := ms - {id};
    var d: map<nat, multiset<nat>> := DepsOf(ms, dying + {id});
    ExactFacts(ms, ext, dying + {id});
    assert DepsOf(ms', dying) == d;
    assert ms[id].refcount == ext[id] + Total(d)[id];
    assert ext[id] == 0;
    forall x | x in ms' ensures ms'[x].refcount == ext[x] + Total(d)[x] && (x !in dying ==> ms'[x].refcount > 0) {
      assert x in ms && x != id && (x !in dying ==> x !in dying + {id});
    }
    FinishClosed(ms, id, ext, dying);
    forall x | x in ext ensures x in ms' {
      assert x in ms && ext[x] > 0;
    }
    ExactFrom(ms', ext, dying, Total(d));
  }

  /** Nothing depends on a module whose count is zero. */
  lemma NotNeeded(ms: Table, id: nat, ext: multiset<nat>, dying: set<nat>, j: nat)
    requires RefsExact(ms, ext, dying) && id in ms && ms[id].refcount == 0 && j in ms && j !in dying
    ensures id !in ms[j].deps
  {
    hide Total, RefsExact;
    ExactFacts(ms, ext, dying);
    var refs: map<nat, multiset<nat>> := DepsOf(ms, dying);
    assert ms[id].refcount == ext[id] + Total(refs)[id];
    assert refs[j] == multiset(ms[j].deps);
    TotalAtLeast(refs, j, id);
  }

  lemma FinishClosed(ms: Table, id: nat, ext: multiset<nat>, dying: set<nat>)
    requires RefsExact(ms, ext, dying + {id}) && id in ms && ms[id].refcount == 0
    ensures DepsClosed(ms - {id}, dying)
  {
    hide DepsOf, Total, RefsExact;
    ExactFacts(ms, ext, dying + {id});
    forall j | j in ms - {id} && j !in dying ensures id !in ms[j].deps {
      NotNeeded(ms, id, ext, dying + {id}, j);
    }
  }

  lemma {:induction false} UnrefAllKeeps(ms: Table, deps: seq<nat>, bound: nat, ext: multiset<nat>, dying: set<nat>)
    requires RefsExact(ms, ext, dying) && multiset(deps) <= ext
    requires forall d :: d in deps ==> d < bound
    requires forall x :: x in dying ==> bound <= x
    ensures RefsExact(UnrefAll(ms, deps, bound), ext - multiset(deps), dying)
    decreases bound, 0, |deps|
  {
    hide DepsOf, Total, RefsExact;
    if deps == [] {
      assert ext - multiset(deps) == ext;
    } else {
      var d := deps[0];
      assert d in deps && deps == [d] + deps[1..];
      assert multiset(deps) == multiset{d} + multiset(deps[1..]);
      UnrefKeeps(ms, d, ext, dying);
      assert forall x :: x in deps[1..] ==> x in deps;
      assert multiset(deps[1..]) <= ext - multiset{d};
      UnrefAllKeeps(Unref(ms, d), deps[1..], bound, ext - multiset{d}, dying);
      assert ext - multiset{d} - multiset(deps[1..]) == ext - multiset(deps);
    }
  }

  // ---------------------------------------------------------------- what the counts mean

  /** id is in use: referred to from outside, or a dependency of a module in use. */
  ghost predicate InUse(ms: Table, ext: multiset<nat>, id: nat, bound: nat)
    decreases bound - id
  {
    id in ext || (exists j :: id < j < bound && j in ms && id in ms[j].deps && InUse(ms, ext, j, bound))
  }

  /** With exact counts the table holds exactly the modules in use: none is freed early, none leaks. */
  lemma {:induction false} TableIsUse(ms: Table, ext: multiset<nat>, id: nat, bound: nat)
    requires RefsExact(ms, ext, {}) && forall j :: j in ms ==> j < bound
    ensures id in ms <==> InUse(ms, ext, id, bound)
    decreases bound - id
  {
    if id in ms && id !in ext {
      assert Total(DepsOf(ms, {}))[id] > 0;
      TotalHas(DepsOf(ms, {}), id);
      var j :| j in DepsOf(ms, {}) && DepsOf(ms, {})[j][id] > 0;
      assert id in ms[j].deps && id < j;
      TableIsUse(ms, ext, j, bound);
    }
  }
}
