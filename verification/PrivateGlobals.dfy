/** Private globals over shared libraries, on values.

    Each loader (one per simulated process) has a saved buffer for every module it loaded. The bytes
    that count as the process's globals are the live data section while `current` names its buffer,
    and the buffer otherwise. Loaders are keyed by number. */
module PrivateGlobals {
  import opened CountedRefs
  import opened FiniteSets
  import opened SharedModules

  /** One library as one loader uses it; deps are the ids of the modules it depends on. */
  datatype Module = Module(id: nat, deps: seq<nat>, buffer: nat)
  datatype Globals = Globals(table: Table, buffers: map<nat, seq<Byte>>)
  type Loaders = map<nat, seq<Module>>

  ghost predicate ModuleOk(st: Globals, m: Module) {
    && m.id in st.table && m.deps == st.table[m.id].deps
    && m.buffer != 0 && m.buffer in st.buffers && |st.buffers[m.buffer]| == |st.table[m.id].data|
  }

  /** The module's globals as its process sees them. */
  function View(st: Globals, m: Module): seq<Byte>
    requires ModuleOk(st, m)
  {
    if st.table[m.id].current == m.buffer then st.table[m.id].data else st.buffers[m.buffer]
  }

  ghost predicate ModulesOk(st: Globals, ms: seq<Module>) {
    forall m :: m in ms ==> ModuleOk(st, m)
  }

  /** Which modules a loader has, and what their globals hold. */
  ghost function Views(st: Globals, ms: seq<Module>): (vs: seq<(nat, seq<Byte>)>)
    requires ModulesOk(st, ms)
    ensures |vs| == |ms| && forall i :: 0 <= i < |ms| ==> vs[i] == (ms[i].id, View(st, ms[i]))
  {
    seq(|ms|, i requires 0 <= i < |ms| => (ms[i].id, View(st, ms[i])))
  }

  ghost predicate SameViews(st: Globals, ms: seq<Module>, st': Globals, ms': seq<Module>) {
    ModulesOk(st, ms) && ModulesOk(st', ms') && Views(st', ms') == Views(st, ms)
  }

  ghost predicate AllKeep(st: Globals, L: Loaders, st': Globals) {
    forall l :: l in L ==> SameViews(st, L[l], st', L[l])
  }

  lemma KeepTrans(st: Globals, L: Loaders, st1: Globals, st2: Globals)
    requires AllKeep(st, L, st1) && AllKeep(st1, L, st2)
    ensures AllKeep(st, L, st2)
  {
    forall l | l in L ensures SameViews(st, L[l], st2, L[l]) {
      assert SameViews(st, L[l], st1, L[l]) && SameViews(st1, L[l], st2, L[l]);
    }
  }

  ghost predicate Holds(L: Loaders, k: nat, m: Module) {
    k in L && m in L[k]
  }

  ghost predicate DistinctIds(ms: seq<Module>) {
    forall i, j :: 0 <= i < j < |ms| ==> ms[i].id != ms[j].id
  }

  /** Two modules anywhere: no buffer serves two of them. */
  ghost predicate PairOk(k: nat, m: Module, l: nat, n: Module) {
    m.buffer == n.buffer ==> k == l && m == n
  }

  /** current is null or the buffer of a loader that uses the module. */
  ghost predicate CurrentOk(st: Globals, L: Loaders, id: nat)
    requires id in st.table
  {
    st.table[id].current == 0 || exists k, m :: Holds(L, k, m) && m.id == id && m.buffer == st.table[id].current
  }

  ghost predicate ViewsInv(st: Globals, L: Loaders) {
    && (forall k, m {:trigger Holds(L, k, m)} :: Holds(L, k, m) ==> ModuleOk(st, m))
    && (forall k :: k in L ==> DistinctIds(L[k]))
    && (forall k, m, l, n {:trigger PairOk(k, m, l, n)} :: Holds(L, k, m) && Holds(L, l, n) ==> PairOk(k, m, l, n))
    && (forall id :: id in st.table ==> |st.table[id].template| == |st.table[id].data| && CurrentOk(st, L, id))
  }

  function Ids(ms: seq<Module>): (ids: seq<nat>)
    ensures |ids| == |ms| && forall i :: 0 <= i < |ms| ==> ids[i] == ms[i].id
  {
    seq(|ms|, i requires 0 <= i < |ms| => ms[i].id)
  }

  ghost function IdsOf(L: Loaders): map<nat, multiset<nat>> {
    map k | k in L :: multiset(Ids(L[k]))
  }

  /** How many loaders use each module. */
  ghost function Uses(L: Loaders): multiset<nat> {
    Total(IdsOf(L))
  }

  /** Views are well defined, and every shared refcount is exact. */
  ghost predicate GlobalsInv(st: Globals, L: Loaders) {
    ViewsInv(st, L) && RefsExact(st.table, Uses(L), {})
  }

  lemma UsesUpdate(L: Loaders, k: nat, ms: seq<Module>)
    ensures Uses(L[k := ms]) == multiset(Ids(ms)) + Uses(L - {k})
  {
    hide Total, IdsOf;
    IdsOfUpdate(L, k, ms);
    TotalUpdate(IdsOf(L), k, multiset(Ids(ms)));
  }

  lemma IdsOfUpdate(L: Loaders, k: nat, ms: seq<Module>)
    ensures IdsOf(L[k := ms]) == IdsOf(L)[k := multiset(Ids(ms))]
    ensures IdsOf(L) - {k} == IdsOf(L - {k})
  {
    hide Ids;
  }

  lemma UsesHas(L: Loaders, k: nat, m: Module)
    requires Holds(L, k, m)
    ensures Uses(L)[m.id] > 0
  {
    var i :| 0 <= i < |L[k]| && L[k][i] == m;
    assert Ids(L[k])[i] in multiset(Ids(L[k]));
    TotalAtLeast(IdsOf(L), k, m.id);
  }

  lemma SameIdSameModule(L: Loaders, k: nat, m: Module, n: Module)
    requires Holds(L, k, m) && Holds(L, k, n) && DistinctIds(L[k]) && m.id == n.id
    ensures m == n
  {
    var i :| 0 <= i < |L[k]| && L[k][i] == m;
    var j :| 0 <= j < |L[k]| && L[k][j] == n;
  }

  /** current is a saved buffer of the right length, and no other module's. */
  lemma CurrentIsBuffer(st: Globals, L: Loaders, id: nat)
    requires ViewsInv(st, L) && id in st.table && st.table[id].current != 0
    ensures st.table[id].current in st.buffers && |st.buffers[st.table[id].current]| == |st.table[id].data|
    ensures forall l, n {:trigger Holds(L, l, n)} :: Holds(L, l, n) && n.buffer == st.table[id].current ==> n.id == id
  {
    assert CurrentOk(st, L, id);
    var k, m :| Holds(L, k, m) && m.id == id && m.buffer == st.table[id].current;
    assert ModuleOk(st, m);
    forall l, n | Holds(L, l, n) && n.buffer == st.table[id].current ensures n.id == id {
      assert PairOk(k, m, l, n);
    }
  }

  // ---------------------------------------------------------------- taking over the live section

  /** The live bytes saved to the buffer of whoever owns them. */
  function SaveCurrent(st: Globals, id: nat): (st': Globals)
    requires id in st.table
    ensures st'.table == st.table
  {
    var s := st.table[id];
    if s.current != 0 then st.(buffers := st.buffers[s.current := s.data]) else st
  }

  function TakeOver(st: Globals, id: nat, data: seq<Byte>, owner: nat): Globals
    requires id in st.table
  {
    st.(table := st.table[id := st.table[id].(data := data, current := owner)])
  }

  /** NotifyStartExecute for one module. */
  function SwitchModule(st: Globals, m: Module): Globals
    requires ModuleOk(st, m)
  {
    if m.buffer == st.table[m.id].current then st
    else
      var st1 := SaveCurrent(st, m.id);
      TakeOver(st1, m.id, st1.buffers[m.buffer], m.buffer)
  }

  lemma SwitchKeepsModule(st: Globals, L: Loaders, k: nat, m: Module, l: nat, n: Module)
    requires ViewsInv(st, L) && Holds(L, k, m) && Holds(L, l, n) && ModuleOk(st, m) && ModuleOk(st, n)
    ensures ModuleOk(SwitchModule(st, m), n) && View(SwitchModule(st, m), n) == View(st, n)
  {
    if st.table[m.id].current != 0 {
      CurrentIsBuffer(st, L, m.id);
    }
    assert PairOk(k, m, l, n);
  }

  /** Refcounts do not depend on data. */
  lemma SameRefs(t: Table, t': Table, ext: multiset<nat>)
    requires RefsExact(t, ext, {}) && t'.Keys == t.Keys
    requires forall id :: id in t ==> t'[id].refcount == t[id].refcount && t'[id].deps == t[id].deps
    ensures RefsExact(t', ext, {})
  {
    SameDeps(t, t', {});
  }

  /** Starting a loader leaves every process's globals as they were, and m owning the live section. */
  lemma SwitchKeeps(st: Globals, L: Loaders, k: nat, m: Module)
    requires GlobalsInv(st, L) && Holds(L, k, m)
    ensures ModuleOk(st, m)
    ensures GlobalsInv(SwitchModule(st, m), L) && AllKeep(st, L, SwitchModule(st, m))
    ensures SwitchModule(st, m).table[m.id].current == m.buffer
    ensures SwitchModule(st, m).table.Keys == st.table.Keys
    ensures forall id :: id in st.table && id != m.id ==> SwitchModule(st, m).table[id] == st.table[id]
  {
    hide RefsExact;
    assert ModuleOk(st, m);
    var st' := SwitchModule(st, m);
    forall l, n | Holds(L, l, n) ensures ModuleOk(st', n) && View(st', n) == View(st, n) {
      SwitchKeepsModule(st, L, k, m, l, n);
    }
    forall l | l in L ensures SameViews(st, L[l], st', L[l]) {
      forall n | n in L[l] ensures ModuleOk(st, n) && ModuleOk(st', n) && View(st', n) == View(st, n) {
        assert Holds(L, l, n);
      }
    }
    forall id | id in st'.table ensures |st'.table[id].template| == |st'.table[id].data| && CurrentOk(st', L, id) {
      assert CurrentOk(st, L, id);
      if id == m.id {
        assert Holds(L, k, m) && m.buffer == st'.table[id].current;
      }
    }
    SameRefs(st.table, st'.table, Uses(L));
  }

  // ---------------------------------------------------------------- loading

  /** Each dependency gains a reference. */
  function RefAll(t: Table, deps: seq<nat>): (t': Table)
    requires forall d :: d in deps ==> d in t
    ensures t'.Keys == t.Keys
    ensures forall id :: id in t ==> t'[id] == t[id].(refcount := t[id].refcount + multiset(deps)[id])
  {
    if deps == [] then t
    else
      assert deps == [deps[0]] + deps[1..];
      var d := deps[0];
      RefAll(t[d := t[d].(refcount := t[d].refcount + 1)], deps[1..])
  }

  /** A library seen for the first time: its template is what dlopen left in its data section. */
  function AddShared(t: Table, id: nat, data: seq<Byte>, deps: seq<nat>): Table
    requires forall d :: d in deps ==> d in t
  {
    RefAll(t, deps)[id := SharedModule(data, data, 0, 0, deps)]
  }

  /** The table with a library nobody uses yet is exact, that one library's zero count apart. */
  lemma AddSharedRefs(t: Table, id: nat, data: seq<Byte>, deps: seq<nat>, ext: multiset<nat>)
    requires RefsExact(t, ext, {}) && id !in t
    requires forall d :: d in deps ==> d in t && d < id
    ensures RefsExact(SetRefcount(AddShared(t, id, data, deps), id, 1), ext + multiset{id}, {})
  {
    hide Total, DepsOf, RefAll, RefsExact;
    ExactFacts(t, ext, {});
    var t' := SetRefcount(AddShared(t, id, data, deps), id, 1);
    AddSharedDeps(t, id, data, deps);
    NobodyNeeds(t, id, ext);
    assert id !in deps && id !in ext;
    var total, total' := Total(DepsOf(t, {})), Total(DepsOf(t', {}));
    var ext' := ext + multiset{id};
    assert total' == multiset(deps) + total;
    forall x | x in t' ensures t'[x].refcount == ext'[x] + total'[x] && t'[x].refcount > 0 {
      if x != id {
        assert t[x].refcount == ext[x] + total[x] && t[x].refcount > 0;
        assert t'[x].refcount == t[x].refcount + multiset(deps)[x];
      }
    }
    forall x | x in ext' ensures x in t' {
      assert x == id || x in ext;
    }
    forall j, d | j in t' && d in t'[j].deps ensures d in t' && d < j {
      assert j != id ==> d in t[j].deps;
    }
    ExactFrom(t', ext', {}, total');
  }

  lemma AddSharedDeps(t: Table, id: nat, data: seq<Byte>, deps: seq<nat>)
    requires id !in t && forall d :: d in deps ==> d in t
    ensures Total(DepsOf(SetRefcount(AddShared(t, id, data, deps), id, 1), {})) == multiset(deps) + Total(DepsOf(t, {}))
  {
    hide Total, RefAll;
    var D: map<nat, multiset<nat>> := DepsOf(t, {});
    AddedDeps(t, id, data, deps);
    TotalUpdate(D, id, multiset(deps));
    assert D - {id} == D;
  }

  lemma AddedDeps(t: Table, id: nat, data: seq<Byte>, deps: seq<nat>)
    requires id !in t && forall d :: d in deps ==> d in t
    ensures DepsOf(SetRefcount(AddShared(t, id, data, deps), id, 1), {}) == DepsOf(t, {})[id := multiset(deps)]
  {
    hide RefAll;
    var t' := SetRefcount(AddShared(t, id, data, deps), id, 1);
    assert t'.Keys == t.Keys + {id};
    assert forall j :: j in t ==> t'[j].deps == t[j].deps;
  }

  /** No module depends on one that is not in the table. */
  lemma NobodyNeeds(t: Table, id: nat, ext: multiset<nat>)
    requires RefsExact(t, ext, {}) && id !in t
    ensures Total(DepsOf(t, {}))[id] == 0
  {
    hide Total;
    forall j | j in DepsOf(t, {}) ensures DepsOf(t, {})[j][id] == 0 {
      assert id !in t[j].deps;
    }
    if Total(DepsOf(t, {}))[id] > 0 {
      TotalHas(DepsOf(t, {}), id);
    }
  }

  /** One more loader refers to id. */
  lemma MoreRefs(t: Table, id: nat, ext: multiset<nat>)
    requires RefsExact(t, ext, {}) && id in t
    ensures RefsExact(SetRefcount(t, id, t[id].refcount + 1), ext + multiset{id}, {})
  {
    hide Total, DepsOf, RefsExact;
    var t', total := SetRefcount(t, id, t[id].refcount + 1), Total(DepsOf(t, {}));
    ExactFacts(t, ext, {});
    SameDeps(t, t', {});
    forall x | x in t' ensures t'[x].refcount == (ext + multiset{id})[x] + total[x] && t'[x].refcount > 0 {
      assert t[x].refcount == ext[x] + total[x] && t[x].refcount > 0;
    }
    ExactFrom(t', ext + multiset{id}, {}, total);
  }

  /** A new module of loader k: whoever owned the live section is saved, the section restarts from the
      template, and the new buffer owns it. (The table already counts k.) */
  function NewModule(st: Globals, id: nat, buffer: nat): Globals
    requires id in st.table
  {
    var st1 := SaveCurrent(st, id);
    TakeOver(st1, id, st.table[id].template, buffer).(buffers := st1.buffers[buffer := Fresh(|st.table[id].data|)])
  }

  /** A malloced buffer before anything is written to it. */
  function Fresh(n: nat): (s: seq<Byte>)
    ensures |s| == n
  {
    seq(n, _ => 0)
  }

  /** The lists after loader k gained module m at its end. */
  function Gain(L: Loaders, k: nat, m: Module): Loaders
    requires k in L
  {
    L[k := L[k] + [m]]
  }

  lemma GainUses(L: Loaders, k: nat, m: Module)
    requires k in L
    ensures Uses(Gain(L, k, m)) == Uses(L) + multiset{m.id}
  {
    hide Total;
    UsesUpdate(L, k, L[k] + [m]);
    UsesUpdate(L, k, L[k]);
    assert L[k := L[k]] == L;
    assert Ids(L[k] + [m]) == Ids(L[k]) + [m.id];
  }

  lemma GainHolds(L: Loaders, k: nat, m: Module, l: nat, n: Module)
    requires k in L
    ensures Holds(Gain(L, k, m), l, n) <==> Holds(L, l, n) || (l == k && n == m)
  {
    assert Gain(L, k, m)[k][|L[k]|] == m;
    if Holds(L, l, n) && l == k {
      var i :| 0 <= i < |L[k]| && L[k][i] == n;
      assert Gain(L, k, m)[k][i] == n;
    }
  }

  /** Any step that gives loader k a new module m, leaving every old view alone, keeps the view half. */
  lemma GainViews(st: Globals, L: Loaders, k: nat, m: Module, st': Globals)
    requires ViewsInv(st, L) && k in L && ModuleOk(st', m) && m.buffer !in st.buffers
    requires forall i :: 0 <= i < |L[k]| ==> L[k][i].id != m.id
    requires forall l, n {:trigger Holds(L, l, n)} :: Holds(L, l, n) ==> ModuleOk(st, n) && ModuleOk(st', n) && View(st', n) == View(st, n)
    requires st'.table.Keys == st.table.Keys
    requires forall id :: id in st.table ==> |st'.table[id].template| == |st'.table[id].data|
    requires forall id :: id in st.table ==> st'.table[id].current == st.table[id].current || (id == m.id && st'.table[id].current == m.buffer)
    ensures ViewsInv(st', Gain(L, k, m)) && AllKeep(st, L, st')
  {
    var L' := Gain(L, k, m);
    forall l, n | Holds(L', l, n) ensures ModuleOk(st', n) {
      GainHolds(L, k, m, l, n);
    }
    forall l | l in L' ensures DistinctIds(L'[l]) {
      assert DistinctIds(L[l]);
    }
    forall l, n, l', n' | Holds(L', l, n) && Holds(L', l', n') ensures PairOk(l, n, l', n') {
      GainHolds(L, k, m, l, n);
      GainHolds(L, k, m, l', n');
      assert Holds(L, l, n) && Holds(L, l', n') ==> PairOk(l, n, l', n');
    }
    forall id | id in st'.table ensures CurrentOk(st', L', id) {
      assert CurrentOk(st, L, id);
      GainHolds(L, k, m, k, m);
      if st'.table[id].current != 0 && st'.table[id].current == st.table[id].current {
        var l, n :| Holds(L, l, n) && n.id == id && n.buffer == st.table[id].current;
        GainHolds(L, k, m, l, n);
        assert Holds(L', l, n);
      }
    }
    forall l | l in L ensures SameViews(st, L[l], st', L[l]) {
      forall n | n in L[l] ensures ModuleOk(st, n) && ModuleOk(st', n) && View(st', n) == View(st, n) {
        assert Holds(L, l, n);
      }
    }
  }

  lemma NewModuleKeeps(st: Globals, L: Loaders, k: nat, m: Module)
    requires ViewsInv(st, L) && k in L && m.id in st.table && m.deps == st.table[m.id].deps
    requires m.buffer != 0 && m.buffer !in st.buffers
    requires forall i :: 0 <= i < |L[k]| ==> L[k][i].id != m.id
    ensures var st' := NewModule(st, m.id, m.buffer);
            && ViewsInv(st', Gain(L, k, m)) && AllKeep(st, L, st')
            && ModuleOk(st', m) && View(st', m) == st.table[m.id].template
            && st'.table[m.id].current == m.buffer
  {
    var st' := NewModule(st, m.id, m.buffer);
    if st.table[m.id].current != 0 {
      CurrentIsBuffer(st, L, m.id);
    }
    forall l, n | Holds(L, l, n) ensures ModuleOk(st, n) && ModuleOk(st', n) && View(st', n) == View(st, n) {
      assert ModuleOk(st, n);
    }
    GainViews(st, L, k, m, st');
  }

  // ---------------------------------------------------------------- cloning

  /** The child's buffer receives the live bytes. (The table already counts the child.) */
  function CloneModule(st: Globals, id: nat, buffer: nat): Globals
    requires id in st.table
  {
    st.(buffers := st.buffers[buffer := st.table[id].data])
  }

  /** A clone of a module its parent owns starts with the parent's globals. */
  lemma CloneModuleKeeps(st: Globals, L: Loaders, k: nat, m: Module, n: nat, c: Module)
    requires ViewsInv(st, L) && Holds(L, k, m) && n in L && st.table[m.id].current == m.buffer
    requires c.id == m.id && c.deps == m.deps && c.buffer != 0 && c.buffer !in st.buffers
    requires forall i :: 0 <= i < |L[n]| ==> L[n][i].id != c.id
    ensures var st' := CloneModule(st, m.id, c.buffer);
            && ViewsInv(st', Gain(L, n, c)) && AllKeep(st, L, st')
            && ModuleOk(st, m) && ModuleOk(st', c) && View(st', c) == View(st, m)
  {
    var st' := CloneModule(st, m.id, c.buffer);
    assert ModuleOk(st, m);
    forall l, x | Holds(L, l, x) ensures ModuleOk(st, x) && ModuleOk(st', x) && View(st', x) == View(st, x) {
      assert ModuleOk(st, x);
    }
    assert m.buffer in st.buffers;
    GainViews(st, L, n, c, st');
  }

  // ---------------------------------------------------------------- unloading

  /** current stops naming m's buffer, the shared module loses a reference, the buffer is freed. */
  function DropModule(st: Globals, m: Module): Globals
    requires m.id in st.table
  {
    var s := st.table[m.id];
    var table := if s.current == m.buffer then st.table[m.id := s.(current := 0)] else st.table;
    Globals(Unref(table, m.id), st.buffers - {m.buffer})
  }

  function Lose(L: Loaders, k: nat, i: nat): Loaders
    requires k in L && i < |L[k]|
  {
    L[k := L[k][..i] + L[k][i + 1..]]
  }

  lemma LoseHolds(L: Loaders, k: nat, i: nat, l: nat, n: Module)
    requires k in L && i < |L[k]| && DistinctIds(L[k])
    ensures Holds(Lose(L, k, i), l, n) <==> Holds(L, l, n) && !(l == k && n == L[k][i])
  {
    if l == k && Holds(L, k, n) && n != L[k][i] {
      var j :| 0 <= j < |L[k]| && L[k][j] == n;
      assert Lose(L, k, i)[k][if j < i then j else j - 1] == n;
    }
  }

  lemma LoseUses(L: Loaders, k: nat, i: nat)
    requires k in L && i < |L[k]|
    ensures Uses(L)[L[k][i].id] > 0
    ensures Uses(Lose(L, k, i)) == Uses(L) - multiset{L[k][i].id}
  {
    hide Total;
    var ms, id := L[k], L[k][i].id;
    UsesUpdate(L, k, ms[..i] + ms[i + 1..]);
    UsesUpdate(L, k, ms);
    assert L[k := ms] == L;
    assert Ids(ms) == Ids(ms[..i]) + [id] + Ids(ms[i + 1..]);
    assert Ids(ms[..i] + ms[i + 1..]) == Ids(ms[..i]) + Ids(ms[i + 1..]);
  }

  /** Dropping module i of loader k changes no other module's view. */
  lemma DropKeeps(st: Globals, L: Loaders, k: nat, i: nat)
    requires GlobalsInv(st, L) && k in L && i < |L[k]|
    ensures L[k][i].id in st.table
    ensures var st' := DropModule(st, L[k][i]);
            && GlobalsInv(st', Lose(L, k, i))
            && (forall l :: l in L && l != k ==> SameViews(st, L[l], st', L[l]))
            && (forall n :: n in L[k] && n != L[k][i] ==> ModuleOk(st, n) && ModuleOk(st', n) && View(st', n) == View(st, n))
  {
    hide RefsExact, Uses, Unref;
    var m := L[k][i];
    var L' := Lose(L, k, i);
    assert Holds(L, k, m);
    assert ModuleOk(st, m);
    var s := st.table[m.id];
    var t := if s.current == m.buffer then st.table[m.id := s.(current := 0)] else st.table;
    SameRefs(st.table, t, Uses(L));
    LoseUses(L, k, i);
    UnrefKeeps(t, m.id, Uses(L), {});
    var st' := DropModule(st, m);
    forall l, n | Holds(L', l, n) ensures ModuleOk(st, n) && ModuleOk(st', n) && View(st', n) == View(st, n) {
      DropView(st, L, k, i, l, n);
    }
    forall l | l in L' ensures DistinctIds(L'[l]) {
      assert DistinctIds(L[l]);
    }
    forall l, n, l', n' | Holds(L', l, n) && Holds(L', l', n') ensures PairOk(l, n, l', n') {
      LoseHolds(L, k, i, l, n);
      LoseHolds(L, k, i, l', n');
      assert PairOk(l, n, l', n');
    }
    forall id | id in st'.table ensures |st'.table[id].template| == |st'.table[id].data| && CurrentOk(st', L', id) {
      DropCurrent(st, L, k, i, id);
    }
    forall l | l in L && l != k ensures SameViews(st, L[l], st', L[l]) {
      forall n | n in L[l] ensures ModuleOk(st, n) && ModuleOk(st', n) && View(st', n) == View(st, n) {
        assert Holds(L', l, n);
      }
    }
    forall n | n in L[k] && n != m ensures ModuleOk(st, n) && ModuleOk(st', n) && View(st', n) == View(st, n) {
      LoseHolds(L, k, i, k, n);
      assert Holds(L', k, n);
    }
  }

  lemma ExtInTable(t: Table, ext: multiset<nat>, id: nat)
    requires RefsExact(t, ext, {}) && ext[id] > 0
    ensures id in t
  {
    assert id in ext;
  }

  lemma DropView(st: Globals, L: Loaders, k: nat, i: nat, l: nat, n: Module)
    requires ViewsInv(st, L) && k in L && i < |L[k]| && ModuleOk(st, L[k][i]) && Holds(Lose(L, k, i), l, n)
    requires RefsExact(DropModule(st, L[k][i]).table, Uses(Lose(L, k, i)), {})
    ensures ModuleOk(st, n) && ModuleOk(DropModule(st, L[k][i]), n)
    ensures View(DropModule(st, L[k][i]), n) == View(st, n)
  {
    hide RefsExact, Uses, Unref;
    var m := L[k][i];
    LoseHolds(L, k, i, l, n);
    assert Holds(L, k, m);
    assert PairOk(k, m, l, n);
    UsesHas(Lose(L, k, i), l, n);
    ExtInTable(DropModule(st, m).table, Uses(Lose(L, k, i)), n.id);
    assert ModuleOk(st, n);
  }

  /** current never dangles after a drop. */
  lemma DropCurrent(st: Globals, L: Loaders, k: nat, i: nat, id: nat)
    requires ViewsInv(st, L) && k in L && i < |L[k]| && L[k][i].id in st.table && id in DropModule(st, L[k][i]).table
    ensures CurrentOk(DropModule(st, L[k][i]), Lose(L, k, i), id)
  {
    hide Unref;
    var m, L' := L[k][i], Lose(L, k, i);
    var st' := DropModule(st, m);
    assert Holds(L, k, m);
    assert CurrentOk(st, L, id);
    if st'.table[id].current != 0 {
      var l, n :| Holds(L, l, n) && n.id == id && n.buffer == st.table[id].current;
      LoseHolds(L, k, i, l, n);
      assert Holds(L', l, n);
    }
  }

  // ---------------------------------------------------------------- moving whole lists

  /** Module i of loader k set aside under the unused key q, as Unload does between erasing a module from
      its loader's list and releasing it. */
  ghost function SetAside(L: Loaders, k: nat, i: nat, q: nat): Loaders
    requires k in L && i < |L[k]|
  {
    Lose(L, k, i)[q := [L[k][i]]]
  }

  lemma SetAsideHolds(L: Loaders, k: nat, i: nat, q: nat, l: nat, n: Module)
    requires k in L && i < |L[k]| && q !in L && DistinctIds(L[k])
    ensures Holds(SetAside(L, k, i, q), l, n) <==> (Holds(L, l, n) && !(l == k && n == L[k][i])) || (l == q && n == L[k][i])
  {
    LoseHolds(L, k, i, l, n);
  }

  lemma SetAsideKeeps(st: Globals, L: Loaders, k: nat, i: nat, q: nat)
    requires GlobalsInv(st, L) && k in L && i < |L[k]| && q !in L
    ensures GlobalsInv(st, SetAside(L, k, i, q))
  {
    hide RefsExact, Uses;
    var L' := SetAside(L, k, i, q);
    var m := L[k][i];
    assert DistinctIds(L[k]);
    forall l, n | Holds(L', l, n) ensures ModuleOk(st, n) {
      SetAsideHolds(L, k, i, q, l, n);
      assert Holds(L, k, m);
    }
    forall l | l in L' ensures DistinctIds(L'[l]) {
      assert l in L ==> DistinctIds(L[l]);
    }
    forall l, n, l', n' | Holds(L', l, n) && Holds(L', l', n') ensures PairOk(l, n, l', n') {
      SetAsideHolds(L, k, i, q, l, n);
      SetAsideHolds(L, k, i, q, l', n');
      assert Holds(L, k, m);
      var ol, ol' := if l == q then k else l, if l' == q then k else l';
      assert PairOk(ol, n, ol', n');
    }
    forall id | id in st.table ensures CurrentOk(st, L', id) {
      assert CurrentOk(st, L, id);
      if st.table[id].current != 0 {
        var l, n :| Holds(L, l, n) && n.id == id && n.buffer == st.table[id].current;
        SetAsideHolds(L, k, i, q, l, n);
        SetAsideHolds(L, k, i, q, q, n);
        assert Holds(L', if l == k && n == m then q else l, n);
      }
    }
    SetAsideUses(L, k, i, q);
  }

  lemma SetAsideUses(L: Loaders, k: nat, i: nat, q: nat)
    requires k in L && i < |L[k]| && q !in L
    ensures Uses(SetAside(L, k, i, q)) == Uses(L)
  {
    hide Uses;
    var m := L[k][i];
    LoseUses(L, k, i);
    UsesUpdate(Lose(L, k, i), q, [m]);
    assert Lose(L, k, i) - {q} == Lose(L, k, i);
    assert Ids([m]) == [m.id];
  }

  /** A loader without modules can come and go. */
  lemma EmptyLoader(st: Globals, L: Loaders, q: nat)
    requires q !in L
    ensures GlobalsInv(st, L) <==> GlobalsInv(st, L[q := []])
  {
    hide RefsExact, Total;
    var L' := L[q := []];
    UsesUpdate(L, q, []);
    assert L - {q} == L && Ids([]) == [];
    assert Uses(L') == Uses(L);
    assert forall l, n :: Holds(L', l, n) <==> Holds(L, l, n);
    forall id | id in st.table ensures CurrentOk(st, L', id) <==> CurrentOk(st, L, id) {
      if CurrentOk(st, L, id) && st.table[id].current != 0 {
        var l, n :| Holds(L, l, n) && n.id == id && n.buffer == st.table[id].current;
        assert Holds(L', l, n);
      }
      if CurrentOk(st, L', id) && st.table[id].current != 0 {
        var l, n :| Holds(L', l, n) && n.id == id && n.buffer == st.table[id].current;
        assert Holds(L, l, n);
      }
    }
    if ViewsInv(st, L) {
      forall l | l in L' ensures DistinctIds(L'[l]) {
        assert l in L ==> DistinctIds(L[l]);
      }
    }
    if ViewsInv(st, L') {
      forall l | l in L ensures DistinctIds(L[l]) {
        assert DistinctIds(L'[l]);
      }
    }
  }

  /** A shared module is in the table exactly when some loader uses it, if loaders have all they depend on. */
  lemma TableIsLoaded(st: Globals, L: Loaders, id: nat)
    requires GlobalsInv(st, L)
    requires forall k, m, d :: Holds(L, k, m) && d in m.deps ==> exists n :: Holds(L, k, n) && n.id == d
    ensures id in st.table <==> exists k, m :: Holds(L, k, m) && m.id == id
  {
    hide RefsExact, Total;
    if exists k, m :: Holds(L, k, m) && m.id == id {
      var k, m :| Holds(L, k, m) && m.id == id;
      assert ModuleOk(st, m);
    }
    if id in st.table {
      var bound := Beyond(st.table.Keys);
      TableIsUse(st.table, Uses(L), id, bound);
      InUseIsLoaded(st, L, id, bound);
    }
  }

  lemma {:induction false} InUseIsLoaded(st: Globals, L: Loaders, id: nat, bound: nat)
    requires ViewsInv(st, L) && InUse(st.table, Uses(L), id, bound)
    requires forall k, m, d :: Holds(L, k, m) && d in m.deps ==> exists n :: Holds(L, k, n) && n.id == d
    ensures exists k, m :: Holds(L, k, m) && m.id == id
    decreases bound - id
  {
    hide Total;
    if id in Uses(L) {
      TotalHas(IdsOf(L), id);
      var k :| k in IdsOf(L) && IdsOf(L)[k][id] > 0;
      assert id in Ids(L[k]);
      var i :| 0 <= i < |L[k]| && L[k][i].id == id;
      assert Holds(L, k, L[k][i]);
    } else {
      var j :| id < j < bound && j in st.table && id in st.table[j].deps && InUse(st.table, Uses(L), j, bound);
      InUseIsLoaded(st, L, j, bound);
      var k, m :| Holds(L, k, m) && m.id == j;
      assert ModuleOk(st, m);
      assert id in m.deps;
    }
  }

  // ---------------------------------------------------------------- composite steps

  /** The table gains modules nobody owns yet, and counts change: no view does. */
  lemma TableGrows(st: Globals, L: Loaders, t: Table)
    requires ViewsInv(st, L)
    requires forall id :: id in st.table ==> id in t && t[id] == st.table[id].(refcount := t[id].refcount)
    requires forall id :: id in t && id !in st.table ==> t[id].current == 0 && |t[id].template| == |t[id].data|
    ensures ViewsInv(st.(table := t), L) && AllKeep(st, L, st.(table := t))
  {
    var st' := st.(table := t);
    forall l, n | Holds(L, l, n) ensures ModuleOk(st, n) && ModuleOk(st', n) && View(st', n) == View(st, n) {
      assert ModuleOk(st, n);
    }
    forall id | id in t ensures |t[id].template| == |t[id].data| && CurrentOk(st', L, id) {
      assert id in st.table ==> CurrentOk(st, L, id);
    }
    forall l | l in L ensures SameViews(st, L[l], st', L[l]) {
      forall n | n in L[l] ensures ModuleOk(st, n) && ModuleOk(st', n) && View(st', n) == View(st, n) {
        assert Holds(L, l, n);
      }
    }
  }

  /** The counts of a table after loader k's new module is entered; file data matters for a new library only. */
  function EnterTable(t: Table, id: nat, deps: seq<nat>, data: seq<Byte>): Table
    requires forall d :: d in deps ==> d in t
  {
    if id in t then SetRefcount(t, id, t[id].refcount + 1) else SetRefcount(AddShared(t, id, data, deps), id, 1)
  }

  lemma EnterTableOk(t: Table, id: nat, deps: seq<nat>, data: seq<Byte>, ext: multiset<nat>)
    requires RefsExact(t, ext, {}) && (id in t ==> t[id].deps == deps)
    requires forall d :: d in deps ==> d in t && d < id
    ensures var t' := EnterTable(t, id, deps, data);
            && RefsExact(t', ext + multiset{id}, {})
            && t'.Keys == t.Keys + {id} && t'[id].deps == deps
            && (forall x :: x in t ==> t'[x] == t[x].(refcount := t'[x].refcount))
            && (id !in t ==> t'[id].current == 0 && t'[id].template == t'[id].data == data)
  {
    hide RefsExact, RefAll;
    if id in t {
      MoreRefs(t, id, ext);
    } else {
      AddSharedRefs(t, id, data, deps, ext);
    }
  }

  /** LoadModule for one file the loader does not have yet. */
  lemma EnterKeeps(st: Globals, L: Loaders, k: nat, m: Module, data: seq<Byte>)
    requires GlobalsInv(st, L) && k in L && m.buffer != 0 && m.buffer !in st.buffers
    requires forall d :: d in m.deps ==> d in st.table && d < m.id
    requires m.id in st.table ==> st.table[m.id].deps == m.deps
    requires forall i :: 0 <= i < |L[k]| ==> L[k][i].id != m.id
    ensures var t := EnterTable(st.table, m.id, m.deps, data);
            m.id in t && var st' := NewModule(st.(table := t), m.id, m.buffer);
            && GlobalsInv(st', Gain(L, k, m)) && AllKeep(st, L, st')
            && ModuleOk(st', m) && View(st', m) == st'.table[m.id].template && st'.table[m.id].current == m.buffer
            && st'.table.Keys == t.Keys
            && (forall x :: x in st.table ==> st'.table[x].deps == st.table[x].deps && st'.table[x].template == st.table[x].template)
            && (forall x :: x in st.table && x != m.id ==> st'.table[x].current == st.table[x].current)
            && (m.id !in st.table ==> st'.table[m.id].template == data)
            && st'.table[m.id].deps == m.deps
  {
    hide RefsExact, EnterTable, Uses, ViewsInv, AllKeep;
    EnterTableOk(st.table, m.id, m.deps, data, Uses(L));
    var t := EnterTable(st.table, m.id, m.deps, data);
    var st1 := st.(table := t);
    TableGrows(st, L, t);
    NewModuleKeeps(st1, L, k, m);
    var st' := NewModule(st1, m.id, m.buffer);
    GainUses(L, k, m);
    SameRefs(t, st'.table, Uses(Gain(L, k, m)));
    KeepTrans(st, L, st1, st');
  }

  /** The running process k writes its globals of one module: nobody else sees it. */
  lemma WriteKeeps(st: Globals, L: Loaders, k: nat, m: Module, data: seq<Byte>)
    requires GlobalsInv(st, L) && Holds(L, k, m)
    requires m.id in st.table && st.table[m.id].current == m.buffer && |data| == |st.table[m.id].data|
    ensures var st' := st.(table := st.table[m.id := st.table[m.id].(data := data)]);
            && GlobalsInv(st', L)
            && ModuleOk(st', m) && View(st', m) == data
            && forall l, n {:trigger Holds(L, l, n)} :: Holds(L, l, n) && n != m ==> ModuleOk(st, n) && ModuleOk(st', n) && View(st', n) == View(st, n)
  {
    hide RefsExact;
    var st' := st.(table := st.table[m.id := st.table[m.id].(data := data)]);
    forall l, n | Holds(L, l, n) ensures ModuleOk(st, n) && ModuleOk(st', n) && (n != m ==> View(st', n) == View(st, n)) {
      assert ModuleOk(st, n);
      assert PairOk(k, m, l, n);
    }
    forall id | id in st'.table ensures |st'.table[id].template| == |st'.table[id].data| && CurrentOk(st', L, id) {
      assert CurrentOk(st, L, id);
    }
    SameRefs(st.table, st'.table, Uses(L));
  }

  /** Clone for one module of k, which owns its live sections, into the child n. */
  lemma CloneKeeps(st: Globals, L: Loaders, k: nat, m: Module, n: nat, c: Module)
    requires GlobalsInv(st, L) && Holds(L, k, m) && n in L && m.id in st.table && st.table[m.id].current == m.buffer
    requires c.id == m.id && c.deps == m.deps && c.buffer != 0 && c.buffer !in st.buffers
    requires forall i :: 0 <= i < |L[n]| ==> L[n][i].id != c.id
    ensures var st' := CloneModule(st.(table := SetRefcount(st.table, m.id, st.table[m.id].refcount + 1)), m.id, c.buffer);
            && GlobalsInv(st', Gain(L, n, c)) && AllKeep(st, L, st')
            && ModuleOk(st, m) && ModuleOk(st', c) && View(st', c) == View(st, m)
  {
    hide RefsExact, Uses, AllKeep;
    var t := SetRefcount(st.table, m.id, st.table[m.id].refcount + 1);
    MoreRefs(st.table, m.id, Uses(L));
    GainUses(L, n, c);
    TableGrows(st, L, t);
    var st1 := st.(table := t);
    CloneModuleKeeps(st1, L, k, m, n, c);
    var st' := CloneModule(st1, m.id, c.buffer);
    KeepTrans(st, L, st1, st');
  }
}
