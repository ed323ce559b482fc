/** The loader of one simulated process. All loaders share one registry of loaded libraries.

    A method receives in `others` the module lists of the other loaders (and of modules being
    released); together with this loader's own list they are all the users of the registry. */
module CoojaLoading {
  import opened CountedRefs
  import opened FiniteSets
  import opened SharedModules
  import opened PrivateGlobals

  /** What ElfCache and dlopen say about one file: its id, the ids it depends on, its data section. */
  datatype LibraryFile = LibraryFile(id: nat, deps: seq<nat>, data: seq<Byte>)

  class Registry {
    var st: Globals

    constructor ()
      ensures st == Globals(map[], map[])
    {
      st := Globals(map[], map[]);
    }
  }

  // ---------------------------------------------------------------- one loader's bookkeeping

  ghost predicate HasId(ms: seq<Module>, id: nat) {
    exists j :: 0 <= j < |ms| && ms[j].id == id
  }

  /** The dependencies listed by the modules of a loader, with repetition. */
  ghost function Needs(ms: seq<Module>): multiset<nat> {
    if ms == [] then multiset{} else Needs(ms[..|ms| - 1]) + multiset(ms[|ms| - 1].deps)
  }

  /** Every module's dependencies come before it. */
  ghost predicate DepsFirst(ms: seq<Module>) {
    forall i, d :: 0 <= i < |ms| && d in ms[i].deps ==> HasId(ms[..i], d)
  }

  /** A module's count is never below the client's references to it plus those of the loader's own modules,
      and exactly that in a loader that is not a clone; and all that is referred to is there. */
  ghost predicate CountsOk(ms: seq<Module>, counts: map<nat, nat>, refs: multiset<nat>, exact: bool) {
    && (forall id :: id in counts <==> HasId(ms, id))
    && (forall id :: id in counts ==> counts[id] >= refs[id] + Needs(ms)[id])
    && (exact ==> forall id :: id in counts ==> counts[id] == refs[id] + Needs(ms)[id])
    && (forall id :: id in refs ==> HasId(ms, id))
    && DepsFirst(ms)
  }

  lemma {:induction false} NeedsConcat(a: seq<Module>, b: seq<Module>)
    ensures Needs(a + b) == Needs(a) + Needs(b)
  {
    if b == [] {
      assert a + b == a;
    } else {
      assert (a + b)[..|a + b| - 1] == a + b[..|b| - 1];
      NeedsConcat(a, b[..|b| - 1]);
    }
  }

  lemma NeedsMember(ms: seq<Module>, i: nat, d: nat)
    requires i < |ms| && d in ms[i].deps
    ensures Needs(ms)[d] > 0
  {
    NeedsAround(ms, i);
  }

  lemma NeedsAround(ms: seq<Module>, i: nat)
    requires i < |ms|
    ensures Needs(ms) == Needs(ms[..i] + ms[i + 1..]) + multiset(ms[i].deps)
  {
    hide Needs;
    var a, m, b := ms[..i], ms[i], ms[i + 1..];
    assert ms == a + [m] + b;
    NeedsConcat(a + [m], b);
    NeedsConcat(a, [m]);
    NeedsConcat(a, b);
    NeedsOne(m);
  }

  lemma NeedsOne(m: Module)
    ensures Needs([m]) == multiset(m.deps)
  {
    assert [m][..0] == [];
    assert Needs([]) == multiset{};
  }

  /** One reference fewer, the module staying. */
  lemma CountDown(ms: seq<Module>, counts: map<nat, nat>, refs: multiset<nat>, exact: bool, id: nat)
    requires CountsOk(ms, counts, refs, exact) && refs[id] > 0
    ensures id in counts && counts[id] > 0
    ensures CountsOk(ms, counts[id := counts[id] - 1], refs - multiset{id}, exact)
  {
    hide Needs, DepsFirst;
    assert id in refs;
    var refs' := refs - multiset{id};
    assert forall x :: x in refs' ==> x in refs;
  }

  /** The last reference to module i: the module goes, its dependencies become references to release. */
  lemma EraseModule(ms: seq<Module>, counts: map<nat, nat>, refs: multiset<nat>, exact: bool, i: nat)
    requires CountsOk(ms, counts, refs, exact) && DistinctIds(ms) && i < |ms| && refs[ms[i].id] > 0 && counts[ms[i].id] == 1
    ensures CountsOk(ms[..i] + ms[i + 1..], counts - {ms[i].id}, refs - multiset{ms[i].id} + multiset(ms[i].deps), exact)
  {
    hide Needs, DepsFirst;
    var m := ms[i];
    var ms', refs' := ms[..i] + ms[i + 1..], refs - multiset{m.id} + multiset(m.deps);
    NeedsAround(ms, i);
    assert m.id in counts && refs[m.id] == 1 && Needs(ms)[m.id] == 0;
    EraseIds(ms, i);
    forall d | d in m.deps ensures HasId(ms, d) && d != m.id {
      var j := DepBefore(ms, i, d);
      NeedsMember(ms, i, d);
    }
    forall id | id in refs' ensures HasId(ms', id) {
      assert id in m.deps || id in refs;
    }
    EraseDepsFirst(ms, i);
  }

  lemma EraseIds(ms: seq<Module>, i: nat)
    requires DistinctIds(ms) && i < |ms|
    ensures forall id :: HasId(ms[..i] + ms[i + 1..], id) <==> HasId(ms, id) && id != ms[i].id
  {
    var ms' := ms[..i] + ms[i + 1..];
    forall id ensures HasId(ms', id) <==> HasId(ms, id) && id != ms[i].id {
      if HasId(ms, id) && id != ms[i].id {
        var j :| 0 <= j < |ms| && ms[j].id == id;
        assert ms'[if j < i then j else j - 1].id == id;
      }
      if HasId(ms', id) {
        var j :| 0 <= j < |ms'| && ms'[j].id == id;
        assert ms[if j < i then j else j + 1].id == id;
      }
    }
  }

  lemma EraseDepsFirst(ms: seq<Module>, i: nat)
    requires DepsFirst(ms) && DistinctIds(ms) && i < |ms| && Needs(ms)[ms[i].id] == 0
    ensures DepsFirst(ms[..i] + ms[i + 1..])
  {
    var ms' := ms[..i] + ms[i + 1..];
    forall j, d | 0 <= j < |ms'| && d in ms'[j].deps ensures HasId(ms'[..j], d) {
      EraseDepBefore(ms, i, j, d);
    }
  }

  lemma EraseDepBefore(ms: seq<Module>, i: nat, j: nat, d: nat)
    requires DepsFirst(ms) && DistinctIds(ms) && i < |ms| && Needs(ms)[ms[i].id] == 0
    requires j < |ms[..i] + ms[i + 1..]| && d in (ms[..i] + ms[i + 1..])[j].deps
    ensures HasId((ms[..i] + ms[i + 1..])[..j], d)
  {
    hide Needs, DepsFirst;
    var ms' := ms[..i] + ms[i + 1..];
    var o := if j < i then j else j + 1;
    assert ms'[j] == ms[o];
    var p := DepBefore(ms, o, d);
    NeedsMember(ms, o, d);
    var p' := if p < i then p else p - 1;
    assert ms'[..j][p'].id == d;
  }

  lemma DepBefore(ms: seq<Module>, i: nat, d: nat) returns (p: nat)
    requires DepsFirst(ms) && i < |ms| && d in ms[i].deps
    ensures p < i && ms[p].id == d
  {
    assert HasId(ms[..i], d);
    p :| 0 <= p < i && ms[..i][p].id == d;
  }

  /** Raising a dependency's count once per occurrence. */
  function CountUp(counts: map<nat, nat>, deps: seq<nat>): (counts': map<nat, nat>)
    requires forall d :: d in deps ==> d in counts
    ensures counts'.Keys == counts.Keys
  {
    if deps == [] then counts
    else CountUp(counts[deps[0] := counts[deps[0]] + 1], deps[1..])
  }

  lemma {:induction false} CountUpAdds(counts: map<nat, nat>, deps: seq<nat>)
    requires forall d :: d in deps ==> d in counts
    ensures forall id :: id in counts ==> CountUp(counts, deps)[id] == counts[id] + multiset(deps)[id]
  {
    if deps != [] {
      assert deps == [deps[0]] + deps[1..];
      CountUpAdds(counts[deps[0] := counts[deps[0]] + 1], deps[1..]);
    }
  }

  lemma CountUpNext(counts: map<nat, nat>, deps: seq<nat>, j: nat)
    requires j < |deps| && forall d :: d in deps ==> d in counts
    ensures deps[j] in counts && forall d :: d in deps ==> d in counts[deps[j] := counts[deps[j]] + 1]
    ensures CountUp(counts, deps[j..]) == CountUp(counts[deps[j] := counts[deps[j]] + 1], deps[j + 1..])
  {
    assert deps[j..][0] == deps[j] && deps[j..][1..] == deps[j + 1..];
  }

  lemma CountUpNothing(counts: map<nat, nat>, deps: seq<nat>)
    ensures CountUp(counts, deps[|deps|..]) == counts
  {
  }

  /** A module added at the end, its dependencies counted. */
  lemma AppendModule(ms: seq<Module>, counts: map<nat, nat>, refs: multiset<nat>, exact: bool, m: Module)
    requires CountsOk(ms, counts, refs, exact) && !HasId(ms, m.id) && forall d :: d in m.deps ==> HasId(ms, d)
    ensures forall d :: d in m.deps ==> d in counts
    ensures CountsOk(ms + [m], CountUp(counts, m.deps)[m.id := 0], refs, exact)
  {
    hide Needs, CountUp, DepsFirst, HasId;
    CountUpAdds(counts, m.deps);
    AppendIds(ms, m);
    NeedsLast(ms, m);
    assert m.id !in refs;
    NeedsPresent(ms, m.id);
    AppendDepsFirst(ms, m);
  }

  lemma AppendDepsFirst(ms: seq<Module>, m: Module)
    requires DepsFirst(ms) && forall d :: d in m.deps ==> HasId(ms, d)
    ensures DepsFirst(ms + [m])
  {
    var ms' := ms + [m];
    forall i, d | 0 <= i < |ms'| && d in ms'[i].deps ensures HasId(ms'[..i], d) {
      assert i < |ms| ==> ms'[..i] == ms[..i];
      assert i == |ms| ==> ms'[..i] == ms;
    }
  }

  /** What a loader needs it has. */
  lemma NeedsPresent(ms: seq<Module>, d: nat)
    requires DepsFirst(ms) && !HasId(ms, d)
    ensures Needs(ms)[d] == 0
  {
    if Needs(ms)[d] > 0 {
      var i := NeedsWitness(ms, d);
      var j := DepBefore(ms, i, d);
    }
  }

  lemma {:induction false} NeedsWitness(ms: seq<Module>, d: nat) returns (i: nat)
    requires Needs(ms)[d] > 0
    ensures i < |ms| && d in ms[i].deps
  {
    if d in ms[|ms| - 1].deps {
      i := |ms| - 1;
    } else {
      i := NeedsWitness(ms[..|ms| - 1], d);
    }
  }

  // ---------------------------------------------------------------- no module is left over

  /** Every module is referred to, by the client or by another module. */
  ghost predicate AllNeeded(ms: seq<Module>, refs: multiset<nat>) {
    forall j :: 0 <= j < |ms| ==> refs[ms[j].id] + Needs(ms)[ms[j].id] > 0
  }

  /** The client refers to id, or a module from lo on does that is in use itself. */
  ghost predicate InUse(ms: seq<Module>, refs: multiset<nat>, id: nat, lo: nat)
    decreases |ms| - lo
  {
    id in refs || exists j :: lo <= j < |ms| && id in ms[j].deps && InUse(ms, refs, ms[j].id, j + 1)
  }

  lemma {:induction false} NeededIsUsed(ms: seq<Module>, refs: multiset<nat>, i: nat, lo: nat)
    requires AllNeeded(ms, refs) && DepsFirst(ms) && DistinctIds(ms) && lo <= i + 1 && i < |ms|
    ensures InUse(ms, refs, ms[i].id, lo)
    decreases |ms| - i
  {
    hide Needs, DepsFirst;
    if ms[i].id !in refs {
      var j := NeedsWitness(ms, ms[i].id);
      var p := DepBefore(ms, j, ms[i].id);
      assert p == i;
      NeededIsUsed(ms, refs, j, j + 1);
    }
  }

  /** The modules are exactly those the client's references lead to: all of these are there, and no other
      precisely when every module is needed. */
  lemma ModulesAreUse(ms: seq<Module>, counts: map<nat, nat>, refs: multiset<nat>, exact: bool)
    requires CountsOk(ms, counts, refs, exact) && DistinctIds(ms)
    ensures forall id :: InUse(ms, refs, id, 0) ==> HasId(ms, id)
    ensures AllNeeded(ms, refs) <==> forall id :: HasId(ms, id) ==> InUse(ms, refs, id, 0)
    ensures exact ==> (AllNeeded(ms, refs) <==> forall id :: id in counts ==> counts[id] > 0)
  {
    hide Needs;
    forall id | InUse(ms, refs, id, 0) ensures HasId(ms, id) {
      if j :| 0 <= j < |ms| && id in ms[j].deps {
        var p := DepBefore(ms, j, id);
      }
    }
    if AllNeeded(ms, refs) {
      forall id | HasId(ms, id) ensures InUse(ms, refs, id, 0) {
        var i :| 0 <= i < |ms| && ms[i].id == id;
        NeededIsUsed(ms, refs, i, 0);
      }
    }
    if forall id :: HasId(ms, id) ==> InUse(ms, refs, id, 0) {
      forall i | 0 <= i < |ms| ensures refs[ms[i].id] + Needs(ms)[ms[i].id] > 0 {
        assert HasId(ms, ms[i].id) && InUse(ms, refs, ms[i].id, 0);
        if j :| 0 <= j < |ms| && ms[i].id in ms[j].deps {
          NeedsMember(ms, j, ms[i].id);
        }
      }
    }
    forall j | 0 <= j < |ms| ensures HasId(ms, ms[j].id) {
    }
  }

  /** A loader none of whose modules is left over is empty once the client refers to nothing. */
  lemma NobodyLeft(ms: seq<Module>, counts: map<nat, nat>, exact: bool)
    requires CountsOk(ms, counts, multiset{}, exact) && DistinctIds(ms) && AllNeeded(ms, multiset{})
    ensures ms == []
  {
    hide Needs, DepsFirst;
    if ms != [] {
      var id := ms[|ms| - 1].id;
      var j := NeedsWitness(ms, id);
      var p := DepBefore(ms, j, id);
    }
  }

  /** Erasing a module turns its needs into references. */
  lemma EraseNeeded(ms: seq<Module>, refs: multiset<nat>, i: nat)
    requires AllNeeded(ms, refs) && DistinctIds(ms) && i < |ms|
    ensures AllNeeded(ms[..i] + ms[i + 1..], refs - multiset{ms[i].id} + multiset(ms[i].deps))
  {
    hide Needs;
    NeedsAround(ms, i);
    var ms' := ms[..i] + ms[i + 1..];
    forall j | 0 <= j < |ms'| ensures (refs - multiset{ms[i].id} + multiset(ms[i].deps))[ms'[j].id] + Needs(ms')[ms'[j].id] > 0 {
      assert ms'[j] == ms[if j < i then j else j + 1];
    }
  }

  /** With exact counts a module whose count stays positive is still needed. */
  lemma DownNeeded(ms: seq<Module>, counts: map<nat, nat>, refs: multiset<nat>, id: nat)
    requires CountsOk(ms, counts, refs, true) && AllNeeded(ms, refs) && refs[id] > 0 && id in counts && counts[id] > 1
    ensures AllNeeded(ms, refs - multiset{id})
  {
    hide Needs, DepsFirst;
    assert counts[id] == refs[id] + Needs(ms)[id];
  }

  // ---------------------------------------------------------------- the saved buffers

  function BuffersOf(ms: seq<Module>): set<nat> {
    set m | m in ms :: m.buffer
  }

  /** The saved buffers that are not those of ms. What a loader does leaves them as they are: it allocates
      one for each module it gains and frees that of each module it gives up. */
  ghost function Outside(st: Globals, ms: seq<Module>): set<nat> {
    st.buffers.Keys - BuffersOf(ms)
  }

  lemma OutsideGains(st: Globals, ms: seq<Module>, st': Globals, m: Module)
    requires m.buffer !in st.buffers && st'.buffers.Keys == st.buffers.Keys + {m.buffer}
    ensures Outside(st', ms + [m]) == Outside(st, ms)
  {
    assert BuffersOf(ms + [m]) == BuffersOf(ms) + {m.buffer};
  }

  lemma OutsideNobody(st: Globals)
    ensures Outside(st, []) == st.buffers.Keys
  {
  }

  lemma OutsideErased(st: Globals, ms: seq<Module>, i: nat)
    requires i < |ms| && ms[i].buffer in st.buffers && forall j :: 0 <= j < |ms| && j != i ==> ms[j].buffer != ms[i].buffer
    ensures Outside(st, ms[..i] + ms[i + 1..]) == Outside(st, ms) + {ms[i].buffer} && ms[i].buffer !in Outside(st, ms)
  {
    var ms' := ms[..i] + ms[i + 1..];
    assert forall m :: m in ms' ==> m in ms;
    assert ms[i] in ms;
    forall b ensures b in BuffersOf(ms') <==> b in BuffersOf(ms) && b != ms[i].buffer {
      if b in BuffersOf(ms') {
        var j :| 0 <= j < |ms'| && ms'[j].buffer == b;
        assert ms'[j] == ms[if j < i then j else j + 1];
      }
      if b in BuffersOf(ms) && b != ms[i].buffer {
        var j :| 0 <= j < |ms| && ms[j].buffer == b;
        assert ms'[if j < i then j else j - 1] == ms[j];
      }
    }
  }

  lemma OwnBuffer(st: Globals, L: Loaders, k: nat, i: nat)
    requires GlobalsInv(st, L) && k in L && i < |L[k]|
    ensures L[k][i].buffer in st.buffers && forall j :: 0 <= j < |L[k]| && j != i ==> L[k][j].buffer != L[k][i].buffer
  {
    assert Holds(L, k, L[k][i]);
    forall j | 0 <= j < |L[k]| && j != i ensures L[k][j].buffer != L[k][i].buffer {
      assert Holds(L, k, L[k][j]);
      assert PairOk(k, L[k][j], k, L[k][i]);
      assert L[k][j].id != L[k][i].id;
    }
  }

  // ---------------------------------------------------------------- the loader

  class CoojaLoader {
    const registry: Registry
    /** m_modules, and each module's refcount by its id. */
    var modules: seq<Module>
    var counts: map<nat, nat>
    /** The key under which this loader's list stands among all users of the registry. */
    ghost const key: nat

    ghost predicate Valid(others: Loaders)
      reads this, registry
    {
      key !in others && GlobalsInv(registry.st, others[key := modules])
    }

    /** This process's code may run: it owns every live data section it uses. */
    ghost predicate Started()
      reads this, registry
    {
      OwnsAll(registry.st, modules)
    }

    constructor (registry: Registry, ghost key: nat, ghost others: Loaders)
      requires key !in others && GlobalsInv(registry.st, others)
      ensures this.registry == registry && this.key == key && modules == [] && counts == map[]
      ensures Valid(others) && Started() && CountsOk(modules, counts, multiset{}, true)
    {
      this.registry := registry;
      this.key := key;
      modules := [];
      counts := map[];
      new;
      EmptyLoader(registry.st, others, key);
    }

    /** SearchModule: the position of the module with this id, or the length of the list. */
    method SearchModule(id: nat) returns (i: nat)
      ensures i <= |modules|
      ensures i < |modules| ==> modules[i].id == id
      ensures i == |modules| <==> !HasId(modules, id)
    {
      i := 0;
      while i < |modules|
        invariant i <= |modules| && forall j :: 0 <= j < i ==> modules[j].id != id
      {
        if modules[i].id == id {
          return;
        }
        i := i + 1;
      }
    }

    /** NotifyStartExecute: every process's globals stay what they were, and this one's become live. */
    method NotifyStartExecute(ghost others: Loaders)
      requires Valid(others)
      modifies registry
      ensures Valid(others) && Started()
      ensures registry.st.buffers.Keys == old(registry.st.buffers.Keys)
      ensures AllKeep(old(registry.st), others[key := modules], registry.st)
    {
      hide GlobalsInv, AllKeep;
      ghost var st: Globals, L: Loaders := registry.st, others[key := modules];
      ListFacts(st, L, key);
      KeepRefl(st, L);
      for i := 0 to |modules|
        invariant GlobalsInv(registry.st, L) && AllKeep(st, L, registry.st)
        invariant registry.st.table.Keys == st.table.Keys && registry.st.buffers.Keys == st.buffers.Keys
        invariant forall j :: 0 <= j < i ==> modules[j].id in registry.st.table && registry.st.table[modules[j].id].current == modules[j].buffer
      {
        var mod := modules[i];
        ghost var st1 := registry.st;
        assert Holds(L, key, mod);
        SwitchKeeps(registry.st, L, key, mod);
        BufferFacts(registry.st, L, mod.id);
        var shared := registry.st.table[mod.id];
        if mod.buffer != shared.current {
          if shared.current != 0 {
            registry.st := registry.st.(buffers := registry.st.buffers[shared.current := shared.data]);
          }
          registry.st := registry.st.(table := registry.st.table[mod.id := shared.(data := registry.st.buffers[mod.buffer], current := mod.buffer)]);
        }
        assert registry.st == SwitchModule(st1, mod);
        KeepTrans(st, L, st1, registry.st);
      }
    }

    /** UnrefSharedModule, with the search reduced to a lookup by id. The recursion ends because a
        dependency's id is smaller, and each count it lowers is positive. */
    static method UnrefSharedModule(registry: Registry, id: nat, ghost ext: multiset<nat>, ghost dying: set<nat>)
      requires RefsExact(registry.st.table, ext, dying) && ext[id] > 0 && id !in dying && forall x :: x in dying ==> id < x
      modifies registry
      ensures registry.st == Globals(Unref(old(registry.st.table), id), old(registry.st.buffers))
      ensures RefsExact(registry.st.table, ext - multiset{id}, dying)
      decreases id
    {
      hide DepsOf, Total, RefsExact, Unref, UnrefAll;
      var t := registry.st.table;
      RefFacts(t, ext, dying, id);
      UnrefKeeps(t, id, ext, dying);
      UnrefUnfolds(t, id);
      var mod := t[id].(refcount := t[id].refcount - 1);
      registry.st := registry.st.(table := t[id := mod]);
      if mod.refcount == 0 {
        ghost var t1, ext1 := registry.st.table, ext - multiset{id};
        StartDying(t, id, ext, dying);
        assert mod.deps[0..] == mod.deps;
        for j := 0 to |mod.deps|
          invariant registry.st.buffers == old(registry.st.buffers)
          invariant UnrefAll(t1, mod.deps, id) == UnrefAll(registry.st.table, mod.deps[j..], id)
          invariant RefsExact(registry.st.table, ext1 + multiset(mod.deps[j..]), dying + {id})
        {
          var d := mod.deps[j];
          ghost var rest := ext1 + multiset(mod.deps[j + 1..]);
          assert d in mod.deps;
          NextRef(ext1, mod.deps, j);
          UnrefAllUnfolds(registry.st.table, mod.deps[j..], id);
          UnrefSharedModule(registry, d, ext1 + multiset(mod.deps[j..]), dying + {id});
        }
        UnrefAllUnfolds(registry.st.table, [], id);
        registry.st := registry.st.(table := registry.st.table - {id});
      }
    }

    /** LoadModule: the files come in dependency order, the requested one last. */
    method LoadModule(files: seq<LibraryFile>, ghost others: Loaders, ghost refs: multiset<nat>, ghost exact: bool) returns (loaded: bool)
      requires Valid(others) && CountsOk(modules, counts, refs, exact) && FilesOk(files, registry.st.table)
      modifies this, registry
      ensures Valid(others) && CountsOk(modules, counts, refs, exact)
      ensures old(Started()) ==> Started()
      ensures AllKeep(old(registry.st), others, registry.st)
      ensures LoadedFrom(old(registry.st), old(modules), files, registry.st, modules)
      ensures Outside(registry.st, modules) == old(Outside(registry.st, modules))
      ensures loaded <==> files != []
    {
      hide GlobalsInv, AllKeep, CountsOk, GainedFrom, OwnsAll, LoadedFrom, Outside;
      ghost var st, ms, L: Loaders := registry.st, modules, others[key := modules];
      ListFacts(st, L, key);
      KeepRefl(st, L);
      KeepOthers(st, L, st, key, others);
      LoadedNothing(st, ms);
      assert files[..0] == [];
      for i := 0 to |files|
        invariant Valid(others) && CountsOk(modules, counts, refs, exact)
        invariant old(Started()) ==> Started()
        invariant AllKeep(st, others, registry.st)
        invariant LoadedFrom(st, ms, files[..i], registry.st, modules) && Outside(registry.st, modules) == Outside(st, ms)
      {
        ghost var st1, ms1 := registry.st, modules;
        FileReady(st, ms, files, i, st1, ms1);
        LoadOne(files[i], others, refs, exact);
        ListFacts(registry.st, others[key := modules], key);
        LoadedOneMore(st, ms, files, i, st1, ms1, registry.st, modules);
        KeepTrans(st, others, st1, registry.st);
      }
      assert files[..|files|] == files;
      loaded := files != [];
    }

    /** Load: dlopen for the client, who now holds a reference to the last file's module. */
    method Load(files: seq<LibraryFile>, ghost others: Loaders, ghost refs: multiset<nat>, ghost exact: bool) returns (handle: nat, found: bool)
      requires Valid(others) && CountsOk(modules, counts, refs, exact) && FilesOk(files, registry.st.table)
      modifies this, registry
      ensures Valid(others)
      ensures found <==> files != []
      ensures found ==> handle == files[|files| - 1].id && CountsOk(modules, counts, refs + multiset{handle}, exact)
      ensures !found ==> CountsOk(modules, counts, refs, exact) && registry.st == old(registry.st) && modules == old(modules)
      ensures old(Started()) ==> Started()
      ensures Outside(registry.st, modules) == old(Outside(registry.st, modules))
      ensures AllKeep(old(registry.st), others, registry.st)
      ensures LoadedFrom(old(registry.st), old(modules), files, registry.st, modules)
      ensures found && AllNeeded(old(modules), refs) ==> (AllNeeded(modules, refs + multiset{handle}) <==> FilesUsed(old(modules), files))
    {
      hide GlobalsInv, AllKeep, CountsOk, OwnsAll, AllNeeded, FilesUsed, LoadedFrom, Outside;
      ghost var st0: Globals, ms0, counts0 := registry.st, modules, counts;
      found := LoadModule(files, others, refs, exact);
      handle := 0;
      if found {
        handle := files[|files| - 1].id;
        ListFacts(registry.st, others[key := modules], key);
        LoadedParts(st0, ms0, files, registry.st, modules);
        if AllNeeded(ms0, refs) {
          LoadNeeded(st0, ms0, counts0, refs, exact, files, registry.st, modules, counts);
        }
        CountOneMore(modules, counts, refs, exact, handle);
        counts := counts[handle := counts[handle] + 1];
      } else {
        LoadedNothingBack(old(registry.st), old(modules), registry.st, modules);
      }
    }

    /** Clone: the child starts with this process's globals. Its counts are copied and then every dependency
        is counted again, as if its client also held each of them; they are exact only without any. */
    method Clone(ghost n: nat, ghost others: Loaders, ghost refs: multiset<nat>, ghost exact: bool) returns (clone: CoojaLoader)
      requires Valid(others) && Started() && CountsOk(modules, counts, refs, exact) && n !in others && n != key
      modifies registry
      ensures fresh(clone) && clone.registry == registry && clone.key == n
      ensures Valid(others[n := clone.modules]) && clone.Valid(others[key := modules]) && Started()
      ensures AllKeep(old(registry.st), others[key := modules], registry.st)
      ensures Outside(registry.st, clone.modules) == old(registry.st.buffers.Keys)
      ensures SameViews(old(registry.st), modules, registry.st, clone.modules)
      ensures CountsOk(clone.modules, clone.counts, refs, false)
      ensures CountsOk(clone.modules, clone.counts, refs + Needs(modules), exact) && Needs(clone.modules) == Needs(modules)
      ensures exact ==> (CountsOk(clone.modules, clone.counts, refs, true) <==> forall m :: m in modules ==> m.deps == [])
    {
      hide GlobalsInv, AllKeep, CountsOk, OwnsAll, Needs, CloneModule, Outside;
      ghost var st: Globals, L: Loaders := registry.st, others[key := modules];
      KeepRefl(st, L);
      ListFacts(st, L, key);
      clone := new CoojaLoader(registry, n, L);
      CloneNothing(modules, counts);
      OutsideNobody(st);
      CountsWeaken(modules, counts, refs, exact);
      for i := 0 to |modules|
        invariant clone.Valid(L) && OwnsAll(registry.st, modules) && AllKeep(st, L, registry.st)
        invariant Outside(registry.st, clone.modules) == st.buffers.Keys
        invariant ClonedUpTo(st, modules, i, registry.st, clone.modules)
        invariant ClonedCounts(modules, counts, i, clone.modules, clone.counts)
      {
        CloneOne(i, L, clone, st, refs);
      }
      CloneDone(modules, counts, refs, exact, clone.modules, clone.counts);
      CloneViews(st, modules, registry.st, clone.modules);
      assert L[n := clone.modules] == others[n := clone.modules][key := modules];
    }

    /** The body of Clone's loop. */
    method CloneOne(i: nat, ghost L: Loaders, clone: CoojaLoader, ghost st: Globals, ghost refs: multiset<nat>)
      requires clone != this && clone.registry == registry && i < |modules| && key in L && L[key] == modules
      requires clone.Valid(L) && OwnsAll(registry.st, modules) && AllKeep(st, L, registry.st) && CountsOk(modules, counts, refs, false)
      requires ClonedUpTo(st, modules, i, registry.st, clone.modules)
      requires ClonedCounts(modules, counts, i, clone.modules, clone.counts)
      modifies clone, registry
      ensures clone.Valid(L) && OwnsAll(registry.st, modules) && AllKeep(st, L, registry.st)
      ensures Outside(registry.st, clone.modules) == old(Outside(registry.st, clone.modules))
      ensures ClonedUpTo(st, modules, i + 1, registry.st, clone.modules)
      ensures ClonedCounts(modules, counts, i + 1, clone.modules, clone.counts)
    {
      hide GlobalsInv, AllKeep, CountsOk, OwnsAll, Needs, CountUp, ClonedCounts, ClonedUpTo, Outside;
      var mod := modules[i];
      ghost var L1 := L[clone.key := clone.modules];
      FreshBuffer(registry.st.buffers.Keys);
      var buffer: nat :| buffer != 0 && buffer !in registry.st.buffers;
      var cloned := Module(mod.id, mod.deps, buffer);
      ghost var st1 := registry.st;
      ClonedFresh(st, modules, i, st1, clone.modules);
      OwnsOne(st1, modules, i);
      assert Holds(L1, key, mod);
      ListFacts(st1, L1, key);
      ListFacts(st1, L1, clone.key);
      CloneKeeps(st1, L1, key, mod, clone.key, cloned);
      var shared := registry.st.table[mod.id];
      registry.st := Globals(registry.st.table[mod.id := shared.(refcount := shared.refcount + 1)],
                             registry.st.buffers[buffer := shared.data]);
      assert registry.st == CloneModule(st1.(table := SetRefcount(st1.table, mod.id, st1.table[mod.id].refcount + 1)), mod.id, buffer);
      CloneCountStep(modules, counts, refs, i, clone.modules, clone.counts, cloned);
      clone.counts := clone.counts[mod.id := counts[mod.id]];
      clone.CountDeps(cloned.deps);
      assert L[clone.key := clone.modules + [cloned]] == Gain(L1, clone.key, cloned);
      OutsideGains(st1, clone.modules, registry.st, cloned);
      KeepOthers(st1, L1, registry.st, key, L);
      KeepTrans(st, L, st1, registry.st);
      KeepMine(st1, L1, registry.st, clone.key);
      ClonedStep(st, modules, i, st1, clone.modules, registry.st, cloned);
      OwnsStill(st1, modules, registry.st);
      clone.modules := clone.modules + [cloned];
    }

    /** Unload: one reference to the module given up. With the last one the module goes, after the
        references it holds itself; nothing still referred to goes, and no other process notices. A
        handle that is not loaded is ignored. */
    method Unload(id: nat, ghost others: Loaders, ghost refs: multiset<nat>, ghost exact: bool)
      requires Valid(others) && CountsOk(modules, counts, refs, exact) && (HasId(modules, id) ==> refs[id] > 0)
      modifies this, registry
      ensures Valid(others) && CountsOk(modules, counts, refs - multiset{id}, exact)
      ensures AllKeep(old(registry.st), others, registry.st)
      ensures KeptFrom(old(registry.st), old(modules), registry.st, modules)
      ensures old(Started()) ==> Started()
      ensures Outside(registry.st, modules) == old(Outside(registry.st, modules))
      ensures exact && old(AllNeeded(modules, refs)) ==> AllNeeded(modules, refs - multiset{id})
      ensures old(id in counts && counts[id] > 1) ==> registry.st == old(registry.st) && modules == old(modules)
      ensures old(id in counts && counts[id] == 1) ==> !HasId(modules, id)
      ensures old(!HasId(modules, id)) ==> registry.st == old(registry.st) && modules == old(modules) && counts == old(counts)
      decreases |modules|
    {
      hide GlobalsInv, AllKeep, CountsOk, KeptFrom, AllNeeded, OwnsAll, Outside;
      ghost var st: Globals, L: Loaders := registry.st, others[key := modules];
      ListFacts(st, L, key);
      KeepRefl(st, L);
      KeepOthers(st, L, st, key, others);
      KeptSame(st, modules);
      CountsFacts(modules, counts, refs, exact);
      var i := SearchModule(id);
      if i < |modules| {
        CountDown(modules, counts, refs, exact, id);
        if counts[id] > 1 {
          if exact && AllNeeded(modules, refs) {
            DownNeeded(modules, counts, refs, id);
          }
          counts := counts[id := counts[id] - 1];
        } else {
          Remove(i, others, refs, exact);
        }
      } else {
        assert id !in refs;
        assert refs - multiset{id} == refs;
      }
    }

    /** Unload's inner part: the count of module i has reached zero. */
    method Remove(i: nat, ghost others: Loaders, ghost refs: multiset<nat>, ghost exact: bool)
      requires Valid(others) && CountsOk(modules, counts, refs, exact) && i < |modules|
      requires refs[modules[i].id] > 0 && modules[i].id in counts && counts[modules[i].id] == 1
      modifies this, registry
      ensures Valid(others) && CountsOk(modules, counts, refs - multiset{old(modules)[i].id}, exact)
      ensures AllKeep(old(registry.st), others, registry.st)
      ensures KeptFrom(old(registry.st), old(modules), registry.st, modules)
      ensures !HasId(modules, old(modules)[i].id)
      ensures old(Started()) ==> Started()
      ensures Outside(registry.st, modules) == old(Outside(registry.st, modules))
      ensures exact && old(AllNeeded(modules, refs)) ==> AllNeeded(modules, refs - multiset{old(modules)[i].id})
      decreases |modules|, 0
    {
      hide GlobalsInv, AllKeep, CountsOk, KeptFrom, DropModule, AllNeeded, OwnsAll, Needs, Outside;
      ghost var st, ms, L: Loaders := registry.st, modules, others[key := modules];
      var mod := modules[i];
      ListFacts(st, L, key);
      EraseModule(modules, counts, refs, exact, i);
      EraseIds(modules, i);
      OwnBuffer(st, L, key, i);
      OutsideErased(st, modules, i);
      if AllNeeded(modules, refs) {
        EraseNeeded(modules, refs, i);
      }
      EraseOwns(st, modules, i);
      ghost var q := Unused(others.Keys + {key});
      SetAsideKeeps(st, L, key, i, q);
      ghost var others1: Loaders := others[q := [mod]];
      counts := counts - {mod.id};
      modules := modules[..i] + modules[i + 1..];
      assert SetAside(L, key, i, q) == others1[key := modules];
      KeepRefl(st, others1[key := modules]);
      KeepOthers(st, others1[key := modules], st, key, others1);
      ListFacts(st, others1[key := modules], key);
      KeptSame(st, modules);
      ghost var refs1, ms1 := refs - multiset{mod.id}, modules;
      assert mod.deps[0..] == mod.deps;
      for j := 0 to |mod.deps|
        invariant |modules| < |ms|
        invariant Valid(others1) && CountsOk(modules, counts, refs1 + multiset(mod.deps[j..]), exact)
        invariant AllKeep(st, others1, registry.st) && KeptFrom(st, ms1, registry.st, modules)
        invariant OwnsAll(st, ms) ==> OwnsAll(registry.st, modules)
        invariant Outside(registry.st, modules) == Outside(st, ms) + {mod.buffer}
        invariant exact && AllNeeded(ms, refs) ==> AllNeeded(modules, refs1 + multiset(mod.deps[j..]))
      {
        NextRef(refs1, mod.deps, j);
        ghost var st1, ms2 := registry.st, modules;
        Unload(mod.deps[j], others1, refs1 + multiset(mod.deps[j..]), exact);
        KeepTrans(st, others1, st1, registry.st);
        KeptTrans(st, ms1, st1, ms2, registry.st, modules);
        KeptShorter(st1, ms2, registry.st, modules);
      }
      assert refs1 + multiset(mod.deps[|mod.deps|..]) == refs1;
      ghost var st2 := registry.st;
      KeptAway(st, ms1, st2, modules, mod.id);
      ReleaseModule(mod, q, others, others1);
      KeepOthers(st, others1, st2, key, others);
      KeepOthers(st2, others[key := modules], registry.st, key, others);
      KeepTrans(st, others, st2, registry.st);
      KeepMine(st2, others[key := modules], registry.st, key);
      KeptViews(st2, modules, registry.st);
      KeptTrans(st, ms1, st2, modules, registry.st, modules);
      KeptAway(st, ms1, registry.st, modules, mod.id);
      KeptErased(st, ms, i, registry.st, modules);
    }

    /** The end of Unload: the module, now alone under key q, is released. */
    method ReleaseModule(mod: Module, ghost q: nat, ghost others: Loaders, ghost others1: Loaders)
      requires q !in others && q != key && others1 == others[q := [mod]] && Valid(others1) && !HasId(modules, mod.id)
      modifies registry
      ensures Valid(others)
      ensures AllKeep(old(registry.st), others[key := modules], registry.st)
      ensures old(Started()) ==> Started()
      ensures Outside(registry.st, modules) == old(Outside(registry.st, modules)) - {mod.buffer}
    {
      hide GlobalsInv, DropModule, AllKeep, OwnsAll;
      ghost var st := registry.st;
      ghost var L: Loaders := others1[key := modules];
      ReleaseKeeps(registry.st, L, q, others[key := modules]);
      Disown(registry, mod, L, q, 0);
      ListFacts(registry.st, others[key := modules], key);
      DropOwns(st, mod, modules);
    }

    /** Disown, unref, free: the end of Unload and the body of UnloadAll's loop. */
    static method Disown(registry: Registry, mod: Module, ghost L: Loaders, ghost k: nat, ghost i: nat)
      requires GlobalsInv(registry.st, L) && k in L && i < |L[k]| && L[k][i] == mod
      modifies registry
      ensures registry.st.buffers.Keys == old(registry.st.buffers.Keys) - {mod.buffer}
      ensures mod.id in old(registry.st).table && registry.st == DropModule(old(registry.st), mod)
    {
      hide GlobalsInv, RefsExact, DropModule, Uses, Unref;
      ghost var st := registry.st;
      DisownFacts(st, L, k, i);
      var shared := registry.st.table[mod.id];
      if shared.current == mod.buffer {
        registry.st := registry.st.(table := registry.st.table[mod.id := shared.(current := 0)]);
      }
      UnrefSharedModule(registry, mod.id, Uses(L), {});
      registry.st := registry.st.(buffers := registry.st.buffers - {mod.buffer});
      DropUnfolds(st, mod);
    }

    /** UnloadAll: the process ends, every other process keeps its globals. */
    method UnloadAll(ghost others: Loaders)
      requires Valid(others)
      modifies this, registry
      ensures modules == [] && counts == map[] && GlobalsInv(registry.st, others) && Valid(others)
      ensures AllKeep(old(registry.st), others, registry.st)
      ensures registry.st.buffers.Keys == old(Outside(registry.st, modules))
    {
      hide GlobalsInv, DropModule, AllKeep;
      ghost var st: Globals := registry.st;
      ghost var L0: Loaders := others[key := modules];
      KeepRefl(st, L0);
      KeepOthers(st, L0, st, key, others);
      assert modules[0..] == modules;
      for i := 0 to |modules|
        invariant modules == old(modules)
        invariant GlobalsInv(registry.st, others[key := modules[i..]])
        invariant AllKeep(st, others, registry.st) && registry.st.buffers.Keys == st.buffers.Keys - BuffersOf(modules[..i])
      {
        ghost var st1: Globals, L: Loaders := registry.st, others[key := modules[i..]];
        Disown(registry, modules[i], L, key, 0);
        DropFirst(st1, others, key, modules[i..]);
        assert modules[i..][1..] == modules[i + 1..];
        KeepTrans(st, others, st1, registry.st);
        assert modules[..i + 1] == modules[..i] + [modules[i]];
        assert BuffersOf(modules[..i + 1]) == BuffersOf(modules[..i]) + {modules[i].buffer};
      }
      assert modules[|modules|..] == [] && modules[..|modules|] == modules;
      modules, counts := [], map[];
      EmptyLoader(registry.st, others, key);
    }

    /** The process writes data over its globals of one module. */
    method WriteGlobals(id: nat, data: seq<Byte>, ghost others: Loaders)
      requires Valid(others) && Started() && HasId(modules, id)
      requires id in registry.st.table ==> |data| == |registry.st.table[id].data|
      modifies registry
      ensures Valid(others) && Started()
      ensures AllKeep(old(registry.st), others, registry.st)
      ensures ModulesOk(registry.st, modules) && ModulesOk(old(registry.st), modules)
      ensures forall m :: m in modules ==> View(registry.st, m) == if m.id == id then data else View(old(registry.st), m)
    {
      hide GlobalsInv, AllKeep;
      ghost var st: Globals, L: Loaders := registry.st, others[key := modules];
      ListFacts(st, L, key);
      WriteIsPrivate(st, L, key, IndexOf(modules, id), data);
      registry.st := registry.st.(table := registry.st.table[id := registry.st.table[id].(data := data)]);
      ListFacts(registry.st, L, key);
      KeepOthers(st, L - {key}, registry.st, key, others);
    }

    /** The body of LoadModule's loop. */
    method LoadOne(file: LibraryFile, ghost others: Loaders, ghost refs: multiset<nat>, ghost exact: bool)
      requires Valid(others) && CountsOk(modules, counts, refs, exact)
      requires forall d :: d in file.deps ==> d < file.id && HasId(modules, d)
      requires file.id in registry.st.table ==> registry.st.table[file.id].deps == file.deps
      modifies this, registry
      ensures Valid(others) && CountsOk(modules, counts, refs, exact) && HasId(modules, file.id)
      ensures old(Started()) ==> Started()
      ensures Outside(registry.st, modules) == old(Outside(registry.st, modules))
      ensures AllKeep(old(registry.st), others, registry.st)
      ensures if old(HasId(modules, file.id)) then modules == old(modules) && registry.st == old(registry.st)
              else GainedFrom(old(registry.st), old(modules), file, registry.st, modules)
    {
      hide GlobalsInv, AllKeep, CountsOk, GainedFrom, OwnsAll, Outside;
      ghost var st: Globals, L: Loaders := registry.st, others[key := modules];
      KeepRefl(st, L);
      KeepOthers(st, L, registry.st, key, others);
      var i := SearchModule(file.id);
      if i == |modules| {
        AddModule(file, others, refs, exact);
      }
    }

    /** LoadModule, when the loader does not have the file yet. */
    method AddModule(file: LibraryFile, ghost others: Loaders, ghost refs: multiset<nat>, ghost exact: bool)
      requires Valid(others) && CountsOk(modules, counts, refs, exact) && !HasId(modules, file.id)
      requires forall d :: d in file.deps ==> d < file.id && HasId(modules, d)
      requires file.id in registry.st.table ==> registry.st.table[file.id].deps == file.deps
      modifies this, registry
      ensures Valid(others) && CountsOk(modules, counts, refs, exact) && HasId(modules, file.id)
      ensures old(Started()) ==> Started()
      ensures Outside(registry.st, modules) == old(Outside(registry.st, modules))
      ensures AllKeep(old(registry.st), others, registry.st)
      ensures GainedFrom(old(registry.st), old(modules), file, registry.st, modules)
    {
      hide GlobalsInv, AllKeep, CountsOk, EnterTable, NewModule, GainedFrom, OwnsAll, CountUp, Needs, Outside;
      ghost var st: Globals, L: Loaders := registry.st, others[key := modules];
      CountsFacts(modules, counts, refs, exact);
      FreshBuffer(registry.st.buffers.Keys);
      var buffer: nat :| buffer != 0 && buffer !in registry.st.buffers;
      LoadedInTable(st, L, key, file.deps);
      EnterGained(st, L, key, file, buffer);
      Enter(file, buffer);
      OutsideGains(st, modules, registry.st, Module(file.id, file.deps, buffer));
      KeepOthers(st, L, registry.st, key, others);
      Append(Module(file.id, file.deps, buffer), refs, exact);
      assert others[key := modules] == Gain(L, key, Module(file.id, file.deps, buffer));
    }

    method Append(mod: Module, ghost refs: multiset<nat>, ghost exact: bool)
      requires CountsOk(modules, counts, refs, exact) && !HasId(modules, mod.id) && forall d :: d in mod.deps ==> HasId(modules, d)
      modifies this
      ensures CountsOk(modules, counts, refs, exact) && modules == old(modules) + [mod] && HasId(modules, mod.id)
    {
      hide CountsOk, Needs, CountUp;
      AppendModule(modules, counts, refs, exact, mod);
      CountDeps(mod.deps);
      counts := counts[mod.id := 0];
      modules := modules + [mod];
      assert modules[|modules| - 1].id == mod.id;
    }

    /** refcount++ on each dependency. */
    method CountDeps(deps: seq<nat>)
      requires forall d :: d in deps ==> d in counts
      modifies this`counts
      ensures counts == CountUp(old(counts), deps)
    {
      hide CountUp;
      var j := 0;
      assert deps[0..] == deps;
      while j < |deps|
        invariant j <= |deps| && counts.Keys == old(counts).Keys
        invariant CountUp(counts, deps[j..]) == CountUp(old(counts), deps)
      {
        var d := deps[j];
        CountUpNext(counts, deps, j);
        counts := counts[d := counts[d] + 1];
        j := j + 1;
      }
      CountUpNothing(counts, deps);
    }

    /** dlopen and registration: the library enters the table if need be, and its data section restarts
        from the template under the new buffer. */
    method Enter(file: LibraryFile, buffer: nat)
      requires forall d :: d in file.deps ==> d in registry.st.table
      requires buffer != 0 && buffer !in registry.st.buffers
      requires file.id in registry.st.table ==> registry.st.table[file.id].current != 0 ==> registry.st.table[file.id].current in registry.st.buffers
      modifies registry
      ensures registry.st.buffers.Keys == old(registry.st.buffers.Keys) + {buffer}
      ensures var t := EnterTable(old(registry.st.table), file.id, file.deps, file.data);
              file.id in t && registry.st == NewModule(old(registry.st).(table := t), file.id, buffer)
    {
      if file.id !in registry.st.table {
        var t := RefAll(registry.st.table, file.deps);
        registry.st := registry.st.(table := t[file.id := SharedModule(file.data, file.data, 0, 0, file.deps)]);
      }
      var shared := registry.st.table[file.id];
      shared := shared.(refcount := shared.refcount + 1);
      var buffers := registry.st.buffers;
      if shared.current != 0 {
        buffers := buffers[shared.current := shared.data];
      }
      registry.st := Globals(registry.st.table[file.id := shared.(data := shared.template, current := buffer)],
                             buffers[buffer := Fresh(|shared.data|)]);
    }
  }

  /** ms' is ms plus a module for file whose globals start at the library's template; the globals of ms are
      untouched, and nothing else entered the table. */
  ghost predicate GainedFrom(st: Globals, ms: seq<Module>, file: LibraryFile, st': Globals, ms': seq<Module>) {
    && |ms'| == |ms| + 1 && ms'[..|ms|] == ms && SameViews(st, ms, st', ms)
    && var m := ms'[|ms|];
    && m.id == file.id && m.deps == file.deps && ModuleOk(st', m) && View(st', m) == st'.table[m.id].template
    && m.buffer !in st.buffers
    && st'.table.Keys == st.table.Keys + {file.id}
    && (forall x :: x in st.table ==> st'.table[x].deps == st.table[x].deps && st'.table[x].template == st.table[x].template)
    && (file.id !in st.table ==> st'.table[file.id].template == file.data && st'.table[file.id].deps == file.deps)
  }

  /** Every module in ms owns its live data section. */
  ghost predicate OwnsAll(st: Globals, ms: seq<Module>) {
    forall m :: m in ms ==> m.id in st.table && st.table[m.id].current == m.buffer
  }

  lemma EnterGained(st: Globals, L: Loaders, k: nat, file: LibraryFile, buffer: nat)
    requires GlobalsInv(st, L) && k in L && buffer != 0 && buffer !in st.buffers
    requires forall d :: d in file.deps ==> d in st.table && d < file.id
    requires file.id in st.table ==> st.table[file.id].deps == file.deps
    requires !HasId(L[k], file.id)
    ensures var m, t := Module(file.id, file.deps, buffer), EnterTable(st.table, file.id, file.deps, file.data);
            file.id in t && var st' := NewModule(st.(table := t), file.id, buffer);
            && GlobalsInv(st', Gain(L, k, m)) && AllKeep(st, L, st')
            && GainedFrom(st, L[k], file, st', L[k] + [m])
            && (OwnsAll(st, L[k]) ==> OwnsAll(st', L[k] + [m]))
  {
    hide GlobalsInv, EnterTable, NewModule;
    var m, t := Module(file.id, file.deps, buffer), EnterTable(st.table, file.id, file.deps, file.data);
    ListFacts(st, L, k);
    EnterTableKeys(st.table, file.id, file.deps, file.data);
    EnterKeeps(st, L, k, m, file.data);
    var st' := NewModule(st.(table := t), file.id, buffer);
    assert (L[k] + [m])[..|L[k]|] == L[k];
    assert SameViews(st, L[k], st', L[k]);
    if OwnsAll(st, L[k]) {
      forall n | n in L[k] + [m] ensures n.id in st'.table && st'.table[n.id].current == n.buffer {
        if n in L[k] {
          var j :| 0 <= j < |L[k]| && L[k][j] == n;
          assert n.id != m.id;
        }
      }
    }
  }

  lemma EnterTableKeys(t: Table, id: nat, deps: seq<nat>, data: seq<Byte>)
    requires forall d :: d in deps ==> d in t
    ensures EnterTable(t, id, deps, data).Keys == t.Keys + {id}
  {
  }

  /** What the dependency scan and the cache promise about the files of one load. */
  ghost predicate FilesOk(files: seq<LibraryFile>, t: Table) {
    && (forall i, d :: 0 <= i < |files| && d in files[i].deps ==> d < files[i].id && FileBefore(files, i, d))
    && (forall i, j :: 0 <= i < |files| && 0 <= j < |files| && files[i].id == files[j].id ==> files[i] == files[j])
    && (forall i :: 0 <= i < |files| && files[i].id in t ==> t[files[i].id].deps == files[i].deps)
  }

  ghost predicate FileBefore(files: seq<LibraryFile>, i: nat, d: nat) {
    exists j :: 0 <= j < i && j < |files| && files[j].id == d
  }

  /** Every file the loader does not have yet is the one asked for, or needed by another of the list. */
  ghost predicate FilesUsed(ms: seq<Module>, files: seq<LibraryFile>) {
    forall i :: 0 <= i < |files| && !HasId(ms, files[i].id) ==>
      files[i].id == files[|files| - 1].id || exists k :: 0 <= k < |files| && files[i].id in files[k].deps
  }

  /** After a load a module made from a file has the file's dependencies. */
  lemma FileDeps(st: Globals, ms: seq<Module>, files: seq<LibraryFile>, st': Globals, ms': seq<Module>, k: nat, j: nat)
    requires LoadedFrom(st, ms, files, st', ms') && FilesOk(files, st.table)
    requires k < |files| && j < |ms'| && ms'[j].id == files[k].id
    ensures ms'[j].deps == files[k].deps
  {
    hide SameViews;
    assert ms'[j] in ms';
    assert ModuleOk(st', ms'[j]);
    if files[k].id !in st.table {
      assert FileFor(files, files[k].id, st'.table[files[k].id]);
    }
  }

  /** A load leaves no module over exactly when it brings in no file for nothing. */
  lemma LoadNeeded(st: Globals, ms: seq<Module>, counts: map<nat, nat>, refs: multiset<nat>, exact: bool,
                   files: seq<LibraryFile>, st': Globals, ms': seq<Module>, counts': map<nat, nat>)
    requires CountsOk(ms, counts, refs, exact) && AllNeeded(ms, refs) && CountsOk(ms', counts', refs, exact) && DistinctIds(ms')
    requires LoadedFrom(st, ms, files, st', ms') && FilesOk(files, st.table) && files != []
    ensures AllNeeded(ms', refs + multiset{files[|files| - 1].id}) <==> FilesUsed(ms, files)
  {
    hide Needs, LoadedFrom, FilesOk;
    LoadedParts(st, ms, files, st', ms');
    var refs' := refs + multiset{files[|files| - 1].id};
    if FilesUsed(ms, files) {
      forall j | 0 <= j < |ms'| ensures refs'[ms'[j].id] + Needs(ms')[ms'[j].id] > 0 {
        if j < |ms| {
          OldNeeded(ms, refs, ms', j);
        } else {
          NewNeeded(st, ms, files, st', ms', j);
        }
      }
    }
    if AllNeeded(ms', refs') {
      forall i | 0 <= i < |files| && !HasId(ms, files[i].id) && files[i].id != files[|files| - 1].id
        ensures exists k :: 0 <= k < |files| && files[i].id in files[k].deps
      {
        var j :| 0 <= j < |ms'| && ms'[j].id == files[i].id;
        assert ms'[j].id !in refs;
        WhoNeeds(st, ms, counts, refs, exact, files, st', ms', files[i].id);
      }
    }
  }

  lemma LoadedParts(st: Globals, ms: seq<Module>, files: seq<LibraryFile>, st': Globals, ms': seq<Module>)
    requires LoadedFrom(st, ms, files, st', ms')
    ensures |ms| <= |ms'| && ms'[..|ms|] == ms
    ensures forall i :: 0 <= i < |files| ==> HasId(ms', files[i].id)
    ensures forall j :: |ms| <= j < |ms'| ==> FileBefore(files, |files|, ms'[j].id)
  {
  }

  lemma OldNeeded(ms: seq<Module>, refs: multiset<nat>, ms': seq<Module>, j: nat)
    requires |ms| <= |ms'| && ms'[..|ms|] == ms && j < |ms| && AllNeeded(ms, refs)
    ensures refs[ms'[j].id] + Needs(ms')[ms'[j].id] > 0
  {
    hide Needs;
    assert ms' == ms + ms'[|ms|..] && ms'[j] == ms[j];
    NeedsConcat(ms, ms'[|ms|..]);
  }

  lemma NewNeeded(st: Globals, ms: seq<Module>, files: seq<LibraryFile>, st': Globals, ms': seq<Module>, j: nat)
    requires LoadedFrom(st, ms, files, st', ms') && FilesOk(files, st.table) && FilesUsed(ms, files)
    requires files != [] && DistinctIds(ms') && |ms| <= j < |ms'|
    ensures ms'[j].id == files[|files| - 1].id || Needs(ms')[ms'[j].id] > 0
  {
    hide Needs, LoadedFrom, FilesOk;
    LoadedParts(st, ms, files, st', ms');
    var i :| 0 <= i < |files| && files[i].id == ms'[j].id;
    forall p | 0 <= p < |ms| ensures ms[p].id != ms'[j].id {
      assert ms'[..|ms|][p] == ms'[p];
    }
    if k :| 0 <= k < |files| && files[i].id in files[k].deps {
      var q :| 0 <= q < |ms'| && ms'[q].id == files[k].id;
      FileDeps(st, ms, files, st', ms', k, q);
      NeedsMember(ms', q, files[i].id);
    }
  }

  /** What needs a new module is a file of the list. */
  lemma WhoNeeds(st: Globals, ms: seq<Module>, counts: map<nat, nat>, refs: multiset<nat>, exact: bool,
                 files: seq<LibraryFile>, st': Globals, ms': seq<Module>, id: nat)
    requires CountsOk(ms, counts, refs, exact) && LoadedFrom(st, ms, files, st', ms') && FilesOk(files, st.table)
    requires !HasId(ms, id) && Needs(ms')[id] > 0
    ensures exists k :: 0 <= k < |files| && id in files[k].deps
  {
    hide Needs, LoadedFrom, FilesOk;
    LoadedParts(st, ms, files, st', ms');
    var q := NeedsWitness(ms', id);
    if q < |ms| {
      assert ms'[..|ms|][q] == ms[q];
      var p := DepBefore(ms, q, id);
    } else {
      var k :| 0 <= k < |files| && files[k].id == ms'[q].id;
      FileDeps(st, ms, files, st', ms', k, q);
    }
  }

  ghost predicate FileFor(files: seq<LibraryFile>, id: nat, s: SharedModule) {
    exists i :: 0 <= i < |files| && files[i].id == id && s.template == files[i].data && s.deps == files[i].deps
  }

  /** Loading files added to ms exactly the modules it lacked, each starting at its template; what was there
      keeps its globals; the table gained nothing but these files. */
  ghost predicate LoadedFrom(st: Globals, ms: seq<Module>, files: seq<LibraryFile>, st': Globals, ms': seq<Module>) {
    && |ms| <= |ms'| && ms'[..|ms|] == ms && SameViews(st, ms, st', ms) && ModulesOk(st', ms')
    && (forall i :: 0 <= i < |files| ==> HasId(ms', files[i].id))
    && (forall j :: |ms| <= j < |ms'| ==> View(st', ms'[j]) == st'.table[ms'[j].id].template && FileBefore(files, |files|, ms'[j].id))
    && (forall x :: x in st.table ==> x in st'.table && st'.table[x].deps == st.table[x].deps && st'.table[x].template == st.table[x].template)
    && (forall x :: x in st'.table && x !in st.table ==> FileFor(files, x, st'.table[x]))
    && (|files| == 0 ==> st' == st && ms' == ms)
  }

  lemma LoadedNothing(st: Globals, ms: seq<Module>)
    requires ModulesOk(st, ms)
    ensures LoadedFrom(st, ms, [], st, ms)
  {
  }

  lemma LoadedNothingBack(st: Globals, ms: seq<Module>, st': Globals, ms': seq<Module>)
    requires LoadedFrom(st, ms, [], st', ms')
    ensures st' == st && ms' == ms
  {
  }

  /** Before file i is loaded its dependencies are. */
  lemma FileReady(st: Globals, ms: seq<Module>, files: seq<LibraryFile>, i: nat, st1: Globals, ms1: seq<Module>)
    requires FilesOk(files, st.table) && i < |files| && LoadedFrom(st, ms, files[..i], st1, ms1)
    ensures forall d :: d in files[i].deps ==> d < files[i].id && HasId(ms1, d)
    ensures files[i].id in st1.table ==> st1.table[files[i].id].deps == files[i].deps
  {
    forall d | d in files[i].deps ensures d < files[i].id && HasId(ms1, d) {
      assert FileBefore(files, i, d);
      var j :| 0 <= j < i && j < |files| && files[j].id == d;
      assert files[..i][j].id == d;
    }
    var id := files[i].id;
    if id in st1.table && id !in st.table {
      assert FileFor(files[..i], id, st1.table[id]);
      var j :| 0 <= j < |files[..i]| && files[..i][j].id == id && st1.table[id].template == files[..i][j].data && st1.table[id].deps == files[..i][j].deps;
      assert files[j].id == files[i].id;
    }
  }

  lemma LoadedOneMore(st: Globals, ms: seq<Module>, files: seq<LibraryFile>, i: nat, st1: Globals, ms1: seq<Module>, st2: Globals, ms2: seq<Module>)
    requires i < |files| && LoadedFrom(st, ms, files[..i], st1, ms1)
    requires if HasId(ms1, files[i].id) then ms2 == ms1 && st2 == st1 else GainedFrom(st1, ms1, files[i], st2, ms2)
    requires HasId(ms2, files[i].id) && ModulesOk(st2, ms2)
    ensures LoadedFrom(st, ms, files[..i + 1], st2, ms2)
  {
    hide FileFor, HasId;
    var f := files[..i + 1];
    assert forall j :: 0 <= j < i ==> f[j] == files[..i][j];
    forall j | |ms| <= j < |ms2| ensures FileBefore(f, |f|, ms2[j].id) {
      if j < |ms1| {
        assert ms2[j] == ms1[j];
        MoreFiles(files, i, ms2[j].id);
      } else {
        assert f[i].id == ms2[j].id;
      }
    }
    forall j | 0 <= j < |f| ensures HasId(ms2, f[j].id) {
      if j < i {
        assert HasId(ms1, files[..i][j].id);
        PrefixHasId(ms1, ms2, f[j].id);
      }
    }
    forall x | x in st2.table && x !in st.table ensures FileFor(f, x, st2.table[x]) {
      FileForMore(files, i, x, st1.table, st2.table);
    }
    if !HasId(ms1, files[i].id) {
      assert ms2[..|ms|] == ms2[..|ms1|][..|ms|];
      LoadedViews(st, ms, st1, ms1, st2, ms2);
    }
  }

  lemma MoreFiles(files: seq<LibraryFile>, i: nat, id: nat)
    requires i < |files| && FileBefore(files[..i], i, id)
    ensures FileBefore(files[..i + 1], i + 1, id)
  {
    var j :| 0 <= j < i && files[..i][j].id == id;
    assert files[..i + 1][j].id == id;
  }

  lemma PrefixHasId(ms: seq<Module>, ms': seq<Module>, id: nat)
    requires |ms| <= |ms'| && ms'[..|ms|] == ms && HasId(ms, id)
    ensures HasId(ms', id)
  {
    var j :| 0 <= j < |ms| && ms[j].id == id;
    assert ms'[..|ms|][j] == ms'[j];
  }

  lemma FileForMore(files: seq<LibraryFile>, i: nat, x: nat, t1: Table, t2: Table)
    requires i < |files| && x in t2
    requires x in t1 ==> FileFor(files[..i], x, t1[x]) && t2[x].deps == t1[x].deps && t2[x].template == t1[x].template
    requires x !in t1 ==> x == files[i].id && t2[x].template == files[i].data && t2[x].deps == files[i].deps
    ensures FileFor(files[..i + 1], x, t2[x])
  {
    var f := files[..i + 1];
    if x in t1 {
      var p :| 0 <= p < |files[..i]| && files[..i][p].id == x && t1[x].template == files[..i][p].data && t1[x].deps == files[..i][p].deps;
      assert f[p] == files[..i][p];
    } else {
      assert f[i].id == x;
    }
  }

  lemma LoadedViews(st: Globals, ms: seq<Module>, st1: Globals, ms1: seq<Module>, st2: Globals, ms2: seq<Module>)
    requires |ms| <= |ms1| < |ms2| && ms1[..|ms|] == ms && ms2[..|ms1|] == ms1 && ModulesOk(st2, ms2)
    requires SameViews(st, ms, st1, ms) && SameViews(st1, ms1, st2, ms1)
    ensures SameViews(st, ms, st2, ms)
    ensures forall j :: 0 <= j < |ms1| ==> ms2[j] == ms1[j] && ModuleOk(st1, ms1[j]) && ModuleOk(st2, ms1[j]) && View(st2, ms1[j]) == View(st1, ms1[j])
  {
    forall j | 0 <= j < |ms1| ensures ms2[j] == ms1[j] && ModuleOk(st1, ms1[j]) && ModuleOk(st2, ms1[j]) && View(st2, ms1[j]) == View(st1, ms1[j]) {
      assert ms2[j] == ms2[..|ms1|][j] && ms1[j] in ms1;
      assert Views(st2, ms1)[j] == Views(st1, ms1)[j];
    }
    forall m | m in ms ensures ModuleOk(st, m) && ModuleOk(st2, m) && View(st2, m) == View(st, m) {
      var j :| 0 <= j < |ms| && ms[j] == m;
      assert ms1[..|ms|][j] == ms1[j];
      assert Views(st1, ms)[j] == Views(st, ms)[j];
    }
  }

  lemma CountOneMore(ms: seq<Module>, counts: map<nat, nat>, refs: multiset<nat>, exact: bool, id: nat)
    requires CountsOk(ms, counts, refs, exact) && HasId(ms, id)
    ensures id in counts && CountsOk(ms, counts[id := counts[id] + 1], refs + multiset{id}, exact)
  {
    hide Needs, DepsFirst;
    assert forall x :: x in refs + multiset{id} ==> x in refs || x == id;
  }

  /** The child's first i modules, looking as the parent's did in st. */
  ghost predicate ClonedUpTo(st: Globals, ms: seq<Module>, i: nat, st': Globals, cms: seq<Module>) {
    && i <= |ms| && |cms| == i && ModulesOk(st, ms) && ModulesOk(st', cms) && ModulesOk(st', ms) && DistinctIds(ms)
    && (forall j :: 0 <= j < i ==> cms[j].id == ms[j].id && cms[j].deps == ms[j].deps && View(st', cms[j]) == View(st, ms[j]))
    && (forall j :: 0 <= j < |ms| ==> View(st', ms[j]) == View(st, ms[j]))
  }

  lemma ClonedFresh(st: Globals, ms: seq<Module>, i: nat, st': Globals, cms: seq<Module>)
    requires ClonedUpTo(st, ms, i, st', cms) && i < |ms|
    ensures |cms| == i && forall j :: 0 <= j < |cms| ==> cms[j].id != ms[i].id
  {
  }

  lemma ClonedStep(st: Globals, ms: seq<Module>, i: nat, st1: Globals, cms: seq<Module>, st': Globals, c: Module)
    requires ClonedUpTo(st, ms, i, st1, cms) && i < |ms| && c.id == ms[i].id && c.deps == ms[i].deps
    requires SameViews(st1, cms, st', cms) && SameViews(st1, ms, st', ms)
    requires ModuleOk(st1, ms[i]) && ModuleOk(st', c) && View(st', c) == View(st1, ms[i])
    ensures ClonedUpTo(st, ms, i + 1, st', cms + [c])
  {
    forall j | 0 <= j < |ms| ensures View(st', ms[j]) == View(st, ms[j]) {
      assert Views(st', ms)[j] == Views(st1, ms)[j];
    }
    forall j | 0 <= j < i ensures View(st', cms[j]) == View(st, ms[j]) {
      assert Views(st', cms)[j] == Views(st1, cms)[j];
    }
  }

  lemma CloneViews(st: Globals, ms: seq<Module>, st': Globals, cms: seq<Module>)
    requires ClonedUpTo(st, ms, |ms|, st', cms)
    ensures SameViews(st, ms, st', cms)
  {
  }

  lemma OwnsOne(st: Globals, ms: seq<Module>, i: nat)
    requires OwnsAll(st, ms) && i < |ms|
    ensures ms[i].id in st.table && st.table[ms[i].id].current == ms[i].buffer
  {
  }

  lemma OwnsStill(st: Globals, ms: seq<Module>, st': Globals)
    requires OwnsAll(st, ms) && forall id :: id in st.table ==> id in st'.table && st'.table[id].current == st.table[id].current
    ensures OwnsAll(st', ms)
  {
  }

  /** The child's count of a module: the parent's, plus the references of the child's own modules. */
  ghost predicate ClonedCounts(ms: seq<Module>, counts: map<nat, nat>, i: nat, cms: seq<Module>, ccounts: map<nat, nat>) {
    && i <= |ms| && |cms| == i && (forall j :: 0 <= j < i ==> cms[j].id == ms[j].id && cms[j].deps == ms[j].deps)
    && (forall id :: id in ccounts <==> HasId(cms, id))
    && (forall id :: id in ccounts ==> id in counts && ccounts[id] == counts[id] + Needs(cms)[id])
  }

  lemma CloneNothing(ms: seq<Module>, counts: map<nat, nat>)
    ensures ClonedCounts(ms, counts, 0, [], map[])
  {
  }

  lemma CloneCountStep(ms: seq<Module>, counts: map<nat, nat>, refs: multiset<nat>, i: nat, cms: seq<Module>, ccounts: map<nat, nat>, c: Module)
    requires CountsOk(ms, counts, refs, false) && DistinctIds(ms) && i < |ms| && c.id == ms[i].id && c.deps == ms[i].deps
    requires ClonedCounts(ms, counts, i, cms, ccounts)
    ensures c.id in counts && forall d :: d in c.deps ==> d in ccounts && d != c.id
    ensures ClonedCounts(ms, counts, i + 1, cms + [c], CountUp(ccounts[c.id := counts[c.id]], c.deps))
  {
    hide CountUp, Needs, DepsFirst, CountsOk, HasId;
    CountsFacts(ms, counts, refs, false);
    CloneReady(ms, i, cms, c);
    PrefixDepsFirst(ms, i, cms);
    NeedsPresent(cms, c.id);
    AppendIds(cms, c);
    CloneCounts(counts, cms, ccounts, c);
  }

  /** What c depends on has been cloned, c itself has not. */
  lemma CloneReady(ms: seq<Module>, i: nat, cms: seq<Module>, c: Module)
    requires DepsFirst(ms) && DistinctIds(ms) && i < |ms| && c.id == ms[i].id && c.deps == ms[i].deps
    requires |cms| == i && forall j :: 0 <= j < i ==> cms[j].id == ms[j].id
    ensures HasId(ms, c.id) && !HasId(cms, c.id)
    ensures forall d :: d in c.deps ==> HasId(cms, d) && d != c.id
  {
    hide DepsFirst;
    forall d | d in c.deps ensures HasId(cms, d) && d != c.id {
      var j := DepBefore(ms, i, d);
      assert cms[j].id == d;
    }
  }

  lemma CloneCounts(counts: map<nat, nat>, cms: seq<Module>, ccounts: map<nat, nat>, c: Module)
    requires Needs(cms)[c.id] == 0 && c.id in counts && c.id !in c.deps && forall d :: d in c.deps ==> d in ccounts
    requires forall id :: id in ccounts ==> id in counts && ccounts[id] == counts[id] + Needs(cms)[id]
    ensures var ccounts' := CountUp(ccounts[c.id := counts[c.id]], c.deps);
            && ccounts'.Keys == ccounts.Keys + {c.id}
            && forall id :: id in ccounts' ==> id in counts && ccounts'[id] == counts[id] + Needs(cms + [c])[id]
  {
    hide CountUp, Needs;
    CountUpAdds(ccounts[c.id := counts[c.id]], c.deps);
    NeedsLast(cms, c);
  }

  lemma AppendIds(ms: seq<Module>, m: Module)
    ensures forall id :: HasId(ms + [m], id) <==> HasId(ms, id) || id == m.id
  {
    var ms' := ms + [m];
    forall id ensures HasId(ms', id) <==> HasId(ms, id) || id == m.id {
      if HasId(ms, id) {
        var j :| 0 <= j < |ms| && ms[j].id == id;
        assert ms'[j].id == id;
      }
      assert ms'[|ms|].id == m.id;
    }
  }

  lemma NeedsLast(ms: seq<Module>, m: Module)
    ensures Needs(ms + [m]) == Needs(ms) + multiset(m.deps)
  {
    NeedsAround(ms + [m], |ms|);
    assert (ms + [m])[..|ms|] + (ms + [m])[|ms| + 1..] == ms;
  }

  lemma PrefixDepsFirst(ms: seq<Module>, i: nat, cms: seq<Module>)
    requires DepsFirst(ms) && i <= |ms| && |cms| == i && forall j :: 0 <= j < i ==> cms[j].id == ms[j].id && cms[j].deps == ms[j].deps
    ensures DepsFirst(cms)
  {
    forall j, d | 0 <= j < i && d in cms[j].deps ensures HasId(cms[..j], d) {
      var p := DepBefore(ms, j, d);
      assert cms[..j][p].id == d;
    }
  }

  lemma CountsWeaken(ms: seq<Module>, counts: map<nat, nat>, refs: multiset<nat>, exact: bool)
    requires CountsOk(ms, counts, refs, exact)
    ensures CountsOk(ms, counts, refs, false)
  {
  }

  /** The child counts as a loader would whose client holds every dependency once more. */
  lemma CloneDone(ms: seq<Module>, counts: map<nat, nat>, refs: multiset<nat>, exact: bool, cms: seq<Module>, ccounts: map<nat, nat>)
    requires CountsOk(ms, counts, refs, exact) && ClonedCounts(ms, counts, |ms|, cms, ccounts)
    ensures CountsOk(cms, ccounts, refs, false) && Needs(cms) == Needs(ms) && CountsOk(cms, ccounts, refs + Needs(ms), exact)
    ensures exact ==> (CountsOk(cms, ccounts, refs, true) <==> forall m :: m in ms ==> m.deps == [])
  {
    hide Needs, DepsFirst;
    PrefixDepsFirst(ms, |ms|, cms);
    SameNeeds(ms, cms);
    forall id ensures HasId(ms, id) <==> HasId(cms, id) {
      if HasId(ms, id) {
        var j :| 0 <= j < |ms| && ms[j].id == id;
        assert cms[j].id == id;
      }
    }
    forall id | Needs(ms)[id] > 0 ensures HasId(ms, id) {
      if !HasId(ms, id) {
        NeedsPresent(ms, id);
      }
    }
    NoNeeds(ms);
    if exact && (forall m :: m in ms ==> m.deps == []) {
      assert forall id :: Needs(ms)[id] == 0;
    }
  }

  lemma {:induction false} SameNeeds(ms: seq<Module>, cms: seq<Module>)
    requires |cms| == |ms| && forall j :: 0 <= j < |ms| ==> cms[j].deps == ms[j].deps
    ensures Needs(cms) == Needs(ms)
  {
    if ms != [] {
      SameNeeds(ms[..|ms| - 1], cms[..|ms| - 1]);
    }
  }

  lemma NoNeeds(ms: seq<Module>)
    ensures (forall m :: m in ms ==> m.deps == []) <==> forall id :: Needs(ms)[id] == 0
  {
    hide Needs;
    if forall m :: m in ms ==> m.deps == [] {
      forall id ensures Needs(ms)[id] == 0 {
        if Needs(ms)[id] > 0 {
          var i := NeedsWitness(ms, id);
        }
      }
    }
    if forall id :: Needs(ms)[id] == 0 {
      forall m | m in ms ensures m.deps == [] {
        var i :| 0 <= i < |ms| && ms[i] == m;
        if m.deps != [] {
          NeedsMember(ms, i, m.deps[0]);
        }
      }
    }
  }

  ghost function Unused(s: set<nat>): (q: nat)
    ensures q !in s
  {
    Beyond(s)
  }

  /** ms' are some of the modules ms, their globals unchanged. */
  ghost predicate KeptFrom(st: Globals, ms: seq<Module>, st': Globals, ms': seq<Module>) {
    && |ms'| <= |ms| && ModulesOk(st, ms) && ModulesOk(st', ms')
    && forall m :: m in ms' ==> m in ms && View(st', m) == View(st, m)
  }

  lemma KeptSame(st: Globals, ms: seq<Module>)
    requires ModulesOk(st, ms)
    ensures KeptFrom(st, ms, st, ms)
  {
  }

  lemma KeptTrans(st: Globals, ms: seq<Module>, st1: Globals, ms1: seq<Module>, st2: Globals, ms2: seq<Module>)
    requires KeptFrom(st, ms, st1, ms1) && KeptFrom(st1, ms1, st2, ms2)
    ensures KeptFrom(st, ms, st2, ms2)
  {
  }

  lemma KeptShorter(st: Globals, ms: seq<Module>, st': Globals, ms': seq<Module>)
    requires KeptFrom(st, ms, st', ms')
    ensures |ms'| <= |ms|
  {
  }

  lemma KeptAway(st: Globals, ms: seq<Module>, st': Globals, ms': seq<Module>, id: nat)
    requires KeptFrom(st, ms, st', ms') && !HasId(ms, id)
    ensures !HasId(ms', id)
  {
    forall j | 0 <= j < |ms'| ensures ms'[j].id != id {
      assert ms'[j] in ms' && ms'[j] in ms;
    }
  }

  lemma KeptErased(st: Globals, ms: seq<Module>, i: nat, st': Globals, ms': seq<Module>)
    requires i < |ms| && ModulesOk(st, ms) && KeptFrom(st, ms[..i] + ms[i + 1..], st', ms')
    ensures KeptFrom(st, ms, st', ms')
  {
  }

  lemma KeptViews(st: Globals, ms: seq<Module>, st': Globals)
    requires SameViews(st, ms, st', ms)
    ensures KeptFrom(st, ms, st', ms)
  {
    forall m | m in ms ensures View(st', m) == View(st, m) {
      var j :| 0 <= j < |ms| && ms[j] == m;
      assert Views(st', ms)[j] == Views(st, ms)[j];
    }
  }

  lemma EraseOwns(st: Globals, ms: seq<Module>, i: nat)
    requires i < |ms|
    ensures OwnsAll(st, ms) ==> OwnsAll(st, ms[..i] + ms[i + 1..])
  {
  }

  /** Releasing a module leaves the other modules' current alone. */
  lemma DropOwns(st: Globals, m: Module, ms: seq<Module>)
    requires m.id in st.table && !HasId(ms, m.id) && ModulesOk(DropModule(st, m), ms)
    ensures OwnsAll(st, ms) ==> OwnsAll(DropModule(st, m), ms)
  {
    hide Unref;
    forall n | n in ms && OwnsAll(st, ms) ensures DropModule(st, m).table[n.id].current == n.buffer {
      assert ModuleOk(DropModule(st, m), n);
      var j :| 0 <= j < |ms| && ms[j] == n;
      assert n.id != m.id;
    }
  }

  lemma DropUnfolds(st: Globals, m: Module)
    requires m.id in st.table
    ensures DropModule(st, m) ==
              Globals(Unref(if st.table[m.id].current == m.buffer then st.table[m.id := st.table[m.id].(current := 0)] else st.table, m.id),
                      st.buffers - {m.buffer})
  {
  }

  lemma ReleaseKeeps(st: Globals, L: Loaders, q: nat, rest: Loaders)
    requires GlobalsInv(st, L) && q !in rest && q in L && |L[q]| == 1 && L == rest[q := L[q]]
    ensures var m := L[q][0]; m.id in st.table && GlobalsInv(DropModule(st, m), rest) && AllKeep(st, rest, DropModule(st, m))
  {
    hide GlobalsInv, RefsExact, DropModule, Uses;
    DropKeeps(st, L, q, 0);
    assert Lose(L, q, 0) == rest[q := []];
    EmptyLoader(DropModule(st, L[q][0]), rest, q);
    forall l | l in rest ensures SameViews(st, rest[l], DropModule(st, L[q][0]), rest[l]) {
      assert L[l] == rest[l];
    }
  }

  lemma DisownFacts(st: Globals, L: Loaders, k: nat, i: nat)
    requires GlobalsInv(st, L) && k in L && i < |L[k]|
    ensures var m := L[k][i]; m.id in st.table
    ensures var m := L[k][i]; var t := if st.table[m.id].current == m.buffer then st.table[m.id := st.table[m.id].(current := 0)] else st.table;
            RefsExact(t, Uses(L), {}) && Uses(L)[m.id] > 0
  {
    hide RefsExact, Uses;
    var m := L[k][i];
    assert Holds(L, k, m) && ModuleOk(st, m);
    var t := if st.table[m.id].current == m.buffer then st.table[m.id := st.table[m.id].(current := 0)] else st.table;
    SameRefs(st.table, t, Uses(L));
    UsesHas(L, k, m);
  }

  /** One round of UnloadAll: the first remaining module of loader k goes. */
  lemma DropFirst(st: Globals, others: Loaders, k: nat, ms: seq<Module>)
    requires k !in others && |ms| > 0 && GlobalsInv(st, others[k := ms])
    ensures ms[0].id in st.table
    ensures var st' := DropModule(st, ms[0]); GlobalsInv(st', others[k := ms[1..]]) && AllKeep(st, others, st')
  {
    hide GlobalsInv, RefsExact, DropModule, Uses;
    var L: Loaders := others[k := ms];
    DropKeeps(st, L, k, 0);
    assert ms[..0] + ms[1..] == ms[1..];
    assert Lose(L, k, 0) == others[k := ms[1..]];
    forall l | l in others ensures SameViews(st, others[l], DropModule(st, ms[0]), others[l]) {
      assert L[l] == others[l];
    }
  }

  ghost function IndexOf(ms: seq<Module>, id: nat): (i: nat)
    requires HasId(ms, id)
    ensures i < |ms| && ms[i].id == id
  {
    var i :| 0 <= i < |ms| && ms[i].id == id;
    i
  }

  lemma CountsFacts(ms: seq<Module>, counts: map<nat, nat>, refs: multiset<nat>, exact: bool)
    requires CountsOk(ms, counts, refs, exact)
    ensures forall id :: id in counts <==> HasId(ms, id)
    ensures forall id :: id in refs ==> HasId(ms, id)
    ensures DepsFirst(ms)
  {
  }

  /** A buffer address nobody uses, other than null. */
  lemma FreshBuffer(s: set<nat>)
    ensures exists b: nat :: b != 0 && b !in s
  {
    FreshNumber(s + {0});
    var b: nat :| b !in s + {0};
    assert b != 0 && b !in s;
  }

  lemma LoadedInTable(st: Globals, L: Loaders, k: nat, deps: seq<nat>)
    requires GlobalsInv(st, L) && k in L && forall d :: d in deps ==> HasId(L[k], d)
    ensures forall d :: d in deps ==> d in st.table
    ensures forall id :: id in st.table && st.table[id].current != 0 ==> st.table[id].current in st.buffers
  {
    forall d | d in deps ensures d in st.table {
      var j :| 0 <= j < |L[k]| && L[k][j].id == d;
      assert Holds(L, k, L[k][j]);
    }
    forall id | id in st.table && st.table[id].current != 0 ensures st.table[id].current in st.buffers {
      CurrentIsBuffer(st, L, id);
    }
  }

  lemma WriteIsPrivate(st: Globals, L: Loaders, k: nat, i: nat, data: seq<Byte>)
    requires GlobalsInv(st, L) && k in L && i < |L[k]|
    requires L[k][i].id in st.table && st.table[L[k][i].id].current == L[k][i].buffer && |data| == |st.table[L[k][i].id].data|
    ensures var m := L[k][i]; var st' := st.(table := st.table[m.id := st.table[m.id].(data := data)]);
            && GlobalsInv(st', L) && AllKeep(st, L - {k}, st')
            && ModulesOk(st, L[k]) && ModulesOk(st', L[k])
            && forall n :: n in L[k] ==> View(st', n) == if n.id == m.id then data else View(st, n)
  {
    hide GlobalsInv, RefsExact;
    var m := L[k][i];
    var st' := st.(table := st.table[m.id := st.table[m.id].(data := data)]);
    assert Holds(L, k, m);
    ListFacts(st, L, k);
    WriteKeeps(st, L, k, m, data);
    ListFacts(st', L, k);
    forall l | l in L - {k} ensures SameViews(st, L[l], st', L[l]) {
      OtherBuffers(st, L, k, m, l);
      forall n | n in L[l] ensures ModuleOk(st, n) && ModuleOk(st', n) && View(st', n) == View(st, n) {
        assert Holds(L, l, n);
      }
    }
    forall n | n in L[k] ensures View(st', n) == if n.id == m.id then data else View(st, n) {
      assert Holds(L, k, n);
      if n.id == m.id {
        SameIdSameModule(L, k, m, n);
      }
    }
  }

  lemma OtherBuffers(st: Globals, L: Loaders, k: nat, m: Module, l: nat)
    requires GlobalsInv(st, L) && Holds(L, k, m) && l in L && l != k
    ensures forall n :: n in L[l] ==> n != m
  {
    forall n | n in L[l] ensures n != m {
      assert Holds(L, l, n);
      assert PairOk(k, m, l, n);
    }
  }

  lemma KeepOthers(st: Globals, L: Loaders, st': Globals, k: nat, others: Loaders)
    requires AllKeep(st, L, st') && forall l :: l in others ==> l in L && L[l] == others[l]
    ensures AllKeep(st, others, st')
  {
    forall l | l in others ensures SameViews(st, others[l], st', others[l]) {
      assert l in L && L[l] == others[l];
    }
  }

  lemma KeepMine(st: Globals, L: Loaders, st': Globals, k: nat)
    requires AllKeep(st, L, st') && k in L
    ensures SameViews(st, L[k], st', L[k])
  {
  }

  lemma NextRef(ext: multiset<nat>, deps: seq<nat>, j: nat)
    requires j < |deps|
    ensures deps[j..][0] == deps[j] && deps[j..][1..] == deps[j + 1..]
    ensures (ext + multiset(deps[j..]))[deps[j]] > 0
    ensures ext + multiset(deps[j..]) - multiset{deps[j]} == ext + multiset(deps[j + 1..])
  {
    assert deps[j..] == [deps[j]] + deps[j + 1..];
  }

  lemma RefFacts(t: Table, ext: multiset<nat>, dying: set<nat>, id: nat)
    requires RefsExact(t, ext, dying) && ext[id] > 0
    ensures id in t && t[id].refcount > 0
  {
    assert id in ext;
  }

  lemma UnrefUnfolds(t: Table, id: nat)
    requires id in t && t[id].refcount > 0
    ensures var t1 := SetRefcount(t, id, t[id].refcount - 1);
            Unref(t, id) == if t1[id].refcount > 0 then t1 else UnrefAll(t1, t[id].deps, id) - {id}
  {
  }

  lemma UnrefAllUnfolds(t: Table, deps: seq<nat>, bound: nat)
    ensures UnrefAll(t, deps, bound) ==
              if deps == [] then t
              else if deps[0] < bound then UnrefAll(Unref(t, deps[0]), deps[1..], bound)
              else UnrefAll(t, deps[1..], bound)
  {
  }

  lemma ListFacts(st: Globals, L: Loaders, k: nat)
    requires GlobalsInv(st, L) && k in L
    ensures ModulesOk(st, L[k]) && DistinctIds(L[k])
  {
    forall m | m in L[k] ensures ModuleOk(st, m) {
      assert Holds(L, k, m);
    }
  }

  lemma BufferFacts(st: Globals, L: Loaders, id: nat)
    requires GlobalsInv(st, L) && id in st.table
    ensures st.table[id].current != 0 ==> st.table[id].current in st.buffers && |st.buffers[st.table[id].current]| == |st.table[id].data|
    ensures |st.table[id].template| == |st.table[id].data|
  {
    if st.table[id].current != 0 {
      CurrentIsBuffer(st, L, id);
    }
  }

  lemma KeepRefl(st: Globals, L: Loaders)
    requires GlobalsInv(st, L)
    ensures AllKeep(st, L, st)
  {
    hide GlobalsInv;
    forall l | l in L ensures SameViews(st, L[l], st, L[l]) {
      ListFacts(st, L, l);
    }
  }

  // ---------------------------------------------------------------- what a clone leaves behind

  /** A library and a program that needs it. */
  const FILES: seq<LibraryFile> := [LibraryFile(1, [], []), LibraryFile(2, [1], [])]

  lemma FilesAreOk(t: Table)
    requires t == map[]
    ensures FilesOk(FILES, t) && FilesUsed([], FILES)
  {
    forall i, d | 0 <= i < |FILES| && d in FILES[i].deps ensures d < FILES[i].id && FileBefore(FILES, i, d) {
      assert FILES[0].id == 1;
    }
    assert 1 in FILES[1].deps;
  }

  lemma NobodyLoaded()
    ensures GlobalsInv(Globals(map[], map[]), map[]) && AllNeeded([], multiset{})
  {
  }

  /** After a load what a file needs is needed by a module. */
  lemma FileNeeds(st: Globals, ms: seq<Module>, files: seq<LibraryFile>, st': Globals, ms': seq<Module>, k: nat, d: nat)
    requires LoadedFrom(st, ms, files, st', ms') && FilesOk(files, st.table) && k < |files| && d in files[k].deps
    ensures HasId(ms', files[k].id) && Needs(ms')[d] > 0
  {
    hide LoadedFrom, FilesOk, Needs, FileBefore;
    LoadedParts(st, ms, files, st', ms');
    var j :| 0 <= j < |ms'| && ms'[j].id == files[k].id;
    FileDeps(st, ms, files, st', ms', k, j);
    NeedsMember(ms', j, d);
  }

  /** Of two loaders, what one sees of the other. */
  lemma OtherWayRound(p: CoojaLoader, others: Loaders, q: CoojaLoader, others': Loaders)
    requires others.Keys == {q.key} && others[q.key] == q.modules && others'.Keys == {p.key} && others'[p.key] == p.modules
    requires p.registry == q.registry && p.Valid(others)
    ensures q.Valid(others')
  {
    hide GlobalsInv;
    assert others[p.key := p.modules] == others'[q.key := q.modules];
  }

  /** A process with an empty loader loads the program. */
  method LoadProgram() returns (loader: CoojaLoader)
    ensures fresh(loader) && fresh(loader.registry) && loader.key == 0 && loader.Valid(map[]) && loader.Started()
    ensures CountsOk(loader.modules, loader.counts, multiset{2}, true) && AllNeeded(loader.modules, multiset{2})
    ensures HasId(loader.modules, 2) && Needs(loader.modules)[1] > 0
  {
    hide GlobalsInv, AllKeep, CountsOk, OwnsAll, AllNeeded, FilesUsed, LoadedFrom, Needs, HasId, FilesOk;
    var registry := new Registry();
    NobodyLoaded();
    loader := new CoojaLoader(registry, 0, map[]);
    FilesAreOk(registry.st.table);
    ghost var st: Globals, ms := registry.st, loader.modules;
    var handle, found := loader.Load(FILES, map[], multiset{}, true);
    assert multiset{} + multiset{handle} == multiset{2};
    FileNeeds(st, ms, FILES, registry.st, loader.modules, 1, 1);
  }

  /** A process loads them, forks, and both processes unload the program. The parent's loader is empty, the
      child's keeps the library, to which nobody refers. */
  method CloneKeepsLibrary() returns (parent: CoojaLoader, clone: CoojaLoader)
    ensures parent.Valid(map[1 := clone.modules]) && clone.Valid(map[0 := parent.modules])
    ensures parent.modules == [] && HasId(clone.modules, 1)
  {
    hide GlobalsInv, AllKeep, CountsOk, OwnsAll, AllNeeded, Needs, SameViews, KeptFrom;
    parent := LoadProgram();
    clone := parent.Clone(1, map[], multiset{2}, true);
    ghost var held := multiset{2} + Needs(parent.modules);
    clone.Unload(2, map[0 := parent.modules], held, true);
    CountsFacts(clone.modules, clone.counts, held - multiset{2}, true);
    assert 1 in held - multiset{2};
    OtherWayRound(clone, map[0 := parent.modules], parent, map[1 := clone.modules]);
    parent.Unload(2, map[1 := clone.modules], multiset{2}, true);
    assert multiset{2} - multiset{2} == multiset{};
    ListFacts(parent.registry.st, map[1 := clone.modules][0 := parent.modules], 0);
    NobodyLeft(parent.modules, parent.counts, true);
    OtherWayRound(parent, map[1 := clone.modules], clone, map[0 := parent.modules]);
  }
}
