/** From the dependency scan through the cache to the loader: the order the scan produces is one in which
    every file finds its dependencies already cached and already loaded. */
module LoadOrder {
  import opened DependencyGraph
  import opened LibraryScan
  import opened LibraryCache
  import opened Options
  import SharedModules
  import CoojaLoading

  /** Names ElfDependencies drops from the list. */
  predicate Ignored(name: string) {
    || name == "linux-gate.so.1" || name == "ld-linux.so.2" || name == "ld-linux-x86-64.so.2"
    || name == "/lib/ld-linux.so.2" || name == "/lib64/ld-linux-x86-64.so.2"
    || name == "/usr/lib/debug/ld-linux-x86-64.so.2" || name == "linux-vdso.so.1"
  }

  /** The names dropped from the list that EditBuffer nevertheless looks up. */
  predicate KernelName(name: string) {
    name == "linux-gate.so.1" || name == "linux-vdso.so.1"
  }

  function Gathered(deps: seq<Dependency>): (r: seq<Dependency>) {
    if deps == [] then []
    else (if Ignored(deps[0].required) then [] else [deps[0]]) + Gathered(deps[1..])
  }

  /** NewGather, and the executable itself added once more at the end. */
  method Gather(deps: seq<Dependency>, s: string, f: string) returns (list: seq<Dependency>)
    ensures list == Gathered(deps) + [Dependency(s, f)]
  {
    list := [];
    assert deps[0..] == deps;
    for i := 0 to |deps|
      invariant list + Gathered(deps[i..]) == Gathered(deps)
    {
      assert deps[i..][0] == deps[i] && deps[i..][1..] == deps[i + 1..];
      if !Ignored(deps[i].required) {
        assert list + ([deps[i]] + Gathered(deps[i + 1..])) == list + [deps[i]] + Gathered(deps[i + 1..]);
        list := list + [deps[i]];
      } else {
        assert [] + Gathered(deps[i + 1..]) == Gathered(deps[i + 1..]);
      }
    }
    assert deps[|deps|..] == [] && list + [] == list;
    list := list + [Dependency(s, f)];
  }

  /** Directories end in a slash and names hold none. */
  ghost predicate TidyNames(disk: Disk) {
    forall p :: p in disk ==>
      && (forall d :: d in disk[p].dirs ==> d == "" || d[|d| - 1] == '/')
      && (forall n :: n in disk[p].needed ==> '/' !in n)
  }

  /** deps is the scan's result for f, asked for by the name s. */
  ghost predicate ScanResult(disk: Disk, s: string, f: string, deps: seq<Dependency>) {
    && InOrder(GraphOf(disk), f, deps)
    && forall i :: 0 <= i < |deps| ==> Asked(disk, s, f, (deps[i].required, deps[i].found))
  }

  /** Entry k reaches the cache: it is not dropped, or it is the executable, which comes again. */
  ghost predicate Kept(deps: seq<Dependency>, k: int)
    requires 0 <= k < |deps|
  {
    k == |deps| - 1 || !Ignored(deps[k].required)
  }

  function Base(deps: seq<Dependency>, k: int): string
    requires 0 <= k < |deps|
  {
    Basename(deps[k].found)
  }

  /** Entry k is a file the cache has not seen, under a name it does not override. */
  ghost predicate Edited(names: set<string>, ov: seq<Override>, deps: seq<Dependency>, k: int) {
    && 0 <= k < |deps| && Kept(deps, k) && !IsFrom(ov, Base(deps, k)) && Base(deps, k) !in names
    && forall j :: 0 <= j < k && Kept(deps, j) ==> Base(deps, j) != Base(deps, k)
  }

  /** No file to be edited needs a kernel name, unless that name is in the cache. */
  ghost predicate KernelNamesCached(disk: Disk, names: set<string>, ov: seq<Override>, deps: seq<Dependency>) {
    forall k, n :: Edited(names, ov, deps, k) && deps[k].found in disk && n in disk[deps[k].found].needed && KernelName(n) ==> Replace(ov, n) in names
  }

  ghost predicate ReplacementsCached(names: set<string>, ov: seq<Override>) {
    forall o :: o in ov ==> o.to in names
  }

  // ---------------------------------------------------------------- what a needed name leads to

  /** The entry for a name some entry needs: earlier, found under that very name. */
  lemma NeededEntry(disk: Disk, s: string, f: string, deps: seq<Dependency>, k: nat, n: string) returns (j: nat)
    requires ScanResult(disk, s, f, deps) && TidyNames(disk) && k < |deps|
    requires deps[k].found in disk && n in disk[deps[k].found].needed
    ensures j < k && Base(deps, j) == n && deps[j].required == n
  {
    hide Reaches;
    var g, p := GraphOf(disk), deps[k].found;
    ReachesInGraph(g, f, p);
    var l := (n, FirstHit(disk.Keys, disk[p].dirs, n).value);
    assert l in LibsOf(disk, p);
    LibsAreFound(disk, p, l);
    j :| 0 <= j < k && deps[j].found == l.1;
    LibName(disk, p, l);
    assert Asked(disk, s, f, (deps[j].required, deps[j].found));
    assert deps[j].found != deps[|deps| - 1].found;
    var q :| Resolves(disk, q) && (deps[j].required, deps[j].found) in LibsOf(disk, q);
    LibName(disk, q, (deps[j].required, deps[j].found));
  }

  lemma LibName(disk: Disk, p: string, l: (string, string))
    requires TidyNames(disk) && Resolves(disk, p) && l in LibsOf(disk, p)
    ensures Basename(l.1) == l.0
  {
    FoundByName(disk, p, l);
    var i :| 0 <= i < |disk[p].dirs| && l.1 == disk[p].dirs[i] + l.0;
    assert disk[p].dirs[i] in disk[p].dirs;
    BasenameOfFound(disk[p].dirs[i], l.0);
  }

  lemma OnDisk(disk: Disk, s: string, f: string, deps: seq<Dependency>)
    requires ScanResult(disk, s, f, deps)
    ensures forall i :: 0 <= i < |deps| ==> deps[i].found in disk
    ensures f in disk && deps[|deps| - 1].found == f
  {
    hide Reaches;
    forall i | 0 <= i < |deps| ensures deps[i].found in disk {
      ReachesInGraph(GraphOf(disk), f, deps[i].found);
    }
  }

  // ---------------------------------------------------------------- nothing is missing from the cache

  /** The names in the cache when entry k is reached. */
  ghost function NamesAt(names: set<string>, ov: seq<Override>, deps: seq<Dependency>, k: nat): set<string>
    requires k <= |deps|
  {
    if k == 0 then names
    else if Kept(deps, k - 1) then NamesAt(names, ov, deps, k - 1) + {Replace(ov, Base(deps, k - 1))}
    else NamesAt(names, ov, deps, k - 1)
  }

  lemma {:induction false} NamesAtHas(names: set<string>, ov: seq<Override>, deps: seq<Dependency>, k: nat, n: string)
    requires k <= |deps|
    ensures n in NamesAt(names, ov, deps, k) <==> n in names || exists j :: 0 <= j < k && Kept(deps, j) && Replace(ov, Base(deps, j)) == n
  {
    if k > 0 {
      NamesAtHas(names, ov, deps, k - 1, n);
    }
  }

  /** A name is cached by the time entry k is reached exactly when it was, or an earlier entry brings it. */
  lemma CachedAt(names: set<string>, ov: seq<Override>, deps: seq<Dependency>, k: nat, n: string)
    requires k <= |deps| && OverridesOk(ov) && ReplacementsCached(names, ov) && !IsFrom(ov, n)
    ensures n in NamesAt(names, ov, deps, k) <==> n in names || exists j :: 0 <= j < k && Kept(deps, j) && Base(deps, j) == n
  {
    NamesAtHas(names, ov, deps, k, n);
    if j :| 0 <= j < k && Kept(deps, j) && Replace(ov, Base(deps, j)) == n {
      ReplaceIs(ov, Base(deps, j));
    }
    if j :| 0 <= j < k && Kept(deps, j) && Base(deps, j) == n {
      ReplaceIs(ov, n);
    }
  }

  ghost predicate EntryOk(disk: Disk, names: set<string>, ov: seq<Override>, deps: seq<Dependency>, k: nat) {
    Edited(names, ov, deps, k) && deps[k].found in disk ==>
      forall n :: n in disk[deps[k].found].needed && KernelName(n) ==> Replace(ov, n) in names
  }

  /** A needed name is in the cache when entry k is edited, kernel names apart. */
  lemma NeededIsCached(disk: Disk, s: string, f: string, deps: seq<Dependency>, names: set<string>, ov: seq<Override>, k: nat, n: string)
    requires ScanResult(disk, s, f, deps) && TidyNames(disk) && OverridesOk(ov) && ReplacementsCached(names, ov)
    requires k < |deps| && deps[k].found in disk && n in disk[deps[k].found].needed && !Skipped(n)
    ensures Replace(ov, n) in NamesAt(names, ov, deps, k) <==> (KernelName(n) ==> Replace(ov, n) in names)
  {
    hide ScanResult, TidyNames;
    ReplaceIs(ov, n);
    NamesAtHas(names, ov, deps, k, Replace(ov, n));
    if !IsFrom(ov, n) {
      CachedAt(names, ov, deps, k, n);
      var j := NeededEntry(disk, s, f, deps, k, n);
      if KernelName(n) {
        KernelNotBrought(disk, s, f, deps, k, n);
      } else {
        NotIgnored(disk, deps[k].found, n);
        assert Kept(deps, j);
      }
    }
  }

  lemma NotIgnored(disk: Disk, p: string, n: string)
    requires TidyNames(disk) && p in disk && n in disk[p].needed && !KernelName(n) && !Skipped(n)
    ensures !Ignored(n)
  {
    hide Ignored, KernelName, Skipped;
    assert '/' !in n;
    WithoutSlash(n);
  }

  lemma WithoutSlash(n: string)
    requires '/' !in n && !KernelName(n) && !Skipped(n)
    ensures !Ignored(n)
  {
    assert n != "" ==> n[0] in n;
    assert n != "" ==> n[0] != '/';
    assert "/lib/ld-linux.so.2"[0] == '/' && "/lib64/ld-linux-x86-64.so.2"[0] == '/' && "/usr/lib/debug/ld-linux-x86-64.so.2"[0] == '/';
  }

  /** No kept entry before the executable has a kernel name. */
  lemma KernelNotBrought(disk: Disk, s: string, f: string, deps: seq<Dependency>, k: nat, n: string)
    requires ScanResult(disk, s, f, deps) && TidyNames(disk) && k < |deps| && KernelName(n)
    ensures forall j :: 0 <= j < k && Kept(deps, j) ==> Base(deps, j) != n
  {
    hide Reaches;
    forall j | 0 <= j < k && Kept(deps, j) ensures Base(deps, j) != n {
      assert Asked(disk, s, f, (deps[j].required, deps[j].found));
      assert deps[j].found != deps[|deps| - 1].found;
      var q :| Resolves(disk, q) && (deps[j].required, deps[j].found) in LibsOf(disk, q);
      LibName(disk, q, (deps[j].required, deps[j].found));
    }
  }

  /** One file: it can be added exactly when its kernel names are cached. */
  lemma EntryAddable(disk: Disk, s: string, f: string, deps: seq<Dependency>, names: set<string>, ov: seq<Override>, k: nat)
    requires ScanResult(disk, s, f, deps) && TidyNames(disk) && OverridesOk(ov) && ReplacementsCached(names, ov)
    requires k < |deps| && Kept(deps, k) && deps[k].found in disk
    ensures Addable(NamesAt(names, ov, deps, k), ov, deps[k].found, disk[deps[k].found].needed) <==> EntryOk(disk, names, ov, deps, k)
  {
    hide ScanResult, TidyNames;
    var b := Base(deps, k);
    ReplaceIs(ov, b);
    if IsFrom(ov, b) {
      NamesAtHas(names, ov, deps, k, Replace(ov, b));
    } else {
      CachedAt(names, ov, deps, k, b);
      forall n | n in disk[deps[k].found].needed && !Skipped(n)
        ensures Replace(ov, n) in NamesAt(names, ov, deps, k) <==> (KernelName(n) ==> Replace(ov, n) in names)
      {
        NeededIsCached(disk, s, f, deps, names, ov, k, n);
      }
    }
  }

  lemma {:induction false} RestAddable(disk: Disk, s: string, f: string, deps: seq<Dependency>, names: set<string>, ov: seq<Override>, k: nat)
    requires ScanResult(disk, s, f, deps) && TidyNames(disk) && OverridesOk(ov) && ReplacementsCached(names, ov) && k < |deps|
    ensures AllAddable(NamesAt(names, ov, deps, k), ov, disk, Gathered(deps[k..]) + [Dependency(s, f)]) <==>
              forall i :: k <= i < |deps| ==> EntryOk(disk, names, ov, deps, i)
    decreases |deps| - k
  {
    hide ScanResult, TidyNames, OverridesOk, ReplacementsCached, Addable, AllAddable, EntryOk;
    OnDisk(disk, s, f, deps);
    var now, last := NamesAt(names, ov, deps, k), [Dependency(s, f)];
    var d := deps[k];
    assert deps[k..][0] == d && deps[k..][1..] == deps[k + 1..];
    if k == |deps| - 1 {
      EntryAddable(disk, s, f, deps, names, ov, k);
      LastAddable(disk, now, ov, d, Dependency(s, f));
      assert deps[k + 1..] == [];
      assert Gathered(deps[k..]) == if Ignored(d.required) then [] else [d];
    } else {
      RestAddable(disk, s, f, deps, names, ov, k + 1);
      var rest := Gathered(deps[k + 1..]) + last;
      if Ignored(d.required) {
        assert Gathered(deps[k..]) == Gathered(deps[k + 1..]);
        DroppedOk(disk, names, ov, deps, k);
      } else {
        assert Gathered(deps[k..]) + last == [d] + rest;
        assert ([d] + rest)[0] == d && ([d] + rest)[1..] == rest;
        AllAddableUnfolds(now, ov, disk, [d] + rest);
        EntryAddable(disk, s, f, deps, names, ov, k);
      }
    }
  }

  lemma DroppedOk(disk: Disk, names: set<string>, ov: seq<Override>, deps: seq<Dependency>, k: nat)
    requires k < |deps| - 1 && Ignored(deps[k].required)
    ensures EntryOk(disk, names, ov, deps, k)
  {
  }

  /** The executable, possibly twice. */
  lemma LastAddable(disk: Disk, names: set<string>, ov: seq<Override>, d: Dependency, e: Dependency)
    requires d.found == e.found && d.found in disk
    ensures var ok := Addable(names, ov, d.found, disk[d.found].needed);
            && (AllAddable(names, ov, disk, [e]) <==> ok)
            && (AllAddable(names, ov, disk, [d] + [e]) <==> ok)
            && [] + [e] == [e]
  {
    var names' := names + {Replace(ov, Basename(d.found))};
    AllAddableUnfolds(names, ov, disk, [e]);
    AllAddableUnfolds(names + {Replace(ov, Basename(e.found))}, ov, disk, []);
    AllAddableUnfolds(names, ov, disk, [d] + [e]);
    AllAddableUnfolds(names', ov, disk, [e]);
    assert ([d] + [e])[1..] == [e] && [e][1..] == [];
  }

  /** Feeding the cache with the scan's order. With the replacement libraries cached and names without
      slashes, no file is missing, unless a file to be edited needs a name of the kernel's own library
      that nobody cached: those names are dropped from the list but still looked up. */
  lemma ScanOrderAddable(disk: Disk, s: string, f: string, deps: seq<Dependency>, names: set<string>, ov: seq<Override>)
    requires ScanResult(disk, s, f, deps) && TidyNames(disk) && OverridesOk(ov) && ReplacementsCached(names, ov)
    ensures AllAddable(names, ov, disk, Gathered(deps) + [Dependency(s, f)]) <==> KernelNamesCached(disk, names, ov, deps)
  {
    hide TidyNames, OverridesOk, ReplacementsCached, AllAddable, ScanResult;
    OnDisk(disk, s, f, deps);
    NotEmpty(disk, s, f, deps);
    assert deps[0..] == deps;
    RestAddable(disk, s, f, deps, names, ov, 0);
    if KernelNamesCached(disk, names, ov, deps) {
      assert forall i :: 0 <= i < |deps| ==> EntryOk(disk, names, ov, deps, i);
    }
    if forall i :: 0 <= i < |deps| ==> EntryOk(disk, names, ov, deps, i) {
      forall k, n | Edited(names, ov, deps, k) && deps[k].found in disk && n in disk[deps[k].found].needed && KernelName(n) ensures Replace(ov, n) in names {
        assert EntryOk(disk, names, ov, deps, k);
      }
    }
  }

  /** A disk that holds a program p and the one library q it needs, found under dir by the name n. */
  ghost predicate OneLibrary(disk: Disk, p: string, dir: string, n: string, q: string) {
    q == dir + n && p != q && disk == map[q := Image([], []), p := Image([n], [dir])]
  }

  lemma OneLibraryResolves(disk: Disk, p: string, dir: string, n: string, q: string)
    requires OneLibrary(disk, p, dir, n, q)
    ensures Resolves(disk, p) && Resolves(disk, q) && LibsOf(disk, p) == {(n, q)} && LibsOf(disk, q) == {}
  {
    assert disk.Keys == {p, q} && [dir][0] == dir;
    assert FirstHit(disk.Keys, [dir], n) == Some(q);
    assert forall m :: m in [n] <==> m == n;
    assert (n, q) in LibsOf(disk, p);
  }

  /** Its scan lists the library and then the program. */
  lemma OneLibraryScan(disk: Disk, s: string, p: string, dir: string, n: string, q: string)
    requires OneLibrary(disk, p, dir, n, q)
    ensures ScanResult(disk, s, p, [Dependency(n, q), Dependency(s, p)])
  {
    hide Resolves, LibsOf, Reaches;
    OneLibraryResolves(disk, p, dir, n, q);
    var g, deps := GraphOf(disk), [Dependency(n, q), Dependency(s, p)];
    assert Found(LibsOf(disk, p)) == {q} by {
      assert (n, q) in LibsOf(disk, p);
    }
    assert g.Keys == {p, q} && g[p] == {q} && g[q] == {};
    ReachesSelf(g, p);
    ReachesStep(g, p, p, q);
    forall v ensures Reaches(g, p, v) <==> exists i :: 0 <= i < |deps| && deps[i].found == v {
      if Reaches(g, p, v) {
        ReachesInGraph(g, p, v);
        assert deps[0].found == v || deps[1].found == v;
      }
    }
    assert deps[0].found == q;
  }

  /** The exception is real: a program p that needs a kernel name, found on disk like any library, stops
      at "did not find", though the list handed over is what the scan of that disk gives. It does so with any
      cache and any rules that know neither the name nor the program. */
  lemma KernelNameStops(disk: Disk, s: string, p: string, dir: string, n: string, q: string, names: set<string>, ov: seq<Override>)
    requires KernelName(n) && OneLibrary(disk, p, dir, n, q)
    requires OverridesOk(ov) && !IsFrom(ov, n) && n !in names && !IsFrom(ov, Basename(p)) && Basename(p) !in names
    ensures var deps := [Dependency(n, q), Dependency(s, p)];
            ScanResult(disk, s, p, deps) && !AllAddable(names, ov, disk, Gathered(deps) + [Dependency(s, p)])
  {
    hide AllAddable, KernelName;
    OneLibraryScan(disk, s, p, dir, n, q);
    var d, r := Dependency(n, q), Dependency(s, p);
    assert Ignored(n) && !Skipped(n) by {
      KernelNamesIgnored(n);
    }
    assert [d, r][1..] == [r] && [r][1..] == [];
    assert Gathered([r]) == if Ignored(s) then [] else [r];
    assert Gathered([d, r]) == Gathered([r]);
    var list := Gathered([d, r]) + [r];
    assert list[0] == r;
    AllAddableUnfolds(names, ov, disk, list);
    assert n in disk[p].needed;
    ReplaceIs(ov, n);
    ReplaceIs(ov, Basename(p));
    assert !Addable(names, ov, p, disk[p].needed);
  }

  lemma KernelNamesIgnored(n: string)
    requires KernelName(n)
    ensures Ignored(n) && !Skipped(n)
  {
    assert "linux-vdso.so.1"[1] == 'i' && "linux-gate.so.1"[1] == 'i' && "ld-linux-x86-64.so.2"[1] == 'd' && "ld-linux.so.2"[1] == 'd';
  }

  /** The rules the cache is created with, and the libraries they lead to. */
  const RULES: seq<Override> := [Override("libc.so.6", "libc-ns3.so"), Override("libpthread.so.0", "libpthread-ns3.so"),
    Override("librt.so.1", "librt-ns3.so"), Override("libm.so.6", "libm-ns3.so"), Override("libdl.so.2", "libdl-ns3.so")]
  const REPLACEMENTS: set<string> := {"libc-ns3.so", "libpthread-ns3.so", "librt-ns3.so", "libm-ns3.so", "libdl-ns3.so"}

  lemma KernelNameExample()
    ensures OverridesOk(RULES) && ReplacementsCached(REPLACEMENTS, RULES)
    ensures var disk := map["/l/linux-vdso.so.1" := Image([], []), "/p" := Image(["linux-vdso.so.1"], ["/l/"])];
            var deps := [Dependency("linux-vdso.so.1", "/l/linux-vdso.so.1"), Dependency("p", "/p")];
            ScanResult(disk, "p", "/p", deps) && !AllAddable(REPLACEMENTS, RULES, disk, Gathered(deps) + [Dependency("p", "/p")])
  {
    hide AllAddable, Gathered, ScanResult;
    var disk := map["/l/linux-vdso.so.1" := Image([], []), "/p" := Image(["linux-vdso.so.1"], ["/l/"])];
    assert "/l/" + "linux-vdso.so.1" == "/l/linux-vdso.so.1";
    RulesOk();
    KernelNameStops(disk, "p", "/p", "/l/", "linux-vdso.so.1", "/l/linux-vdso.so.1", REPLACEMENTS, RULES);
  }

  lemma RulesOk()
    ensures OverridesOk(RULES) && ReplacementsCached(REPLACEMENTS, RULES)
    ensures !IsFrom(RULES, "linux-vdso.so.1") && "linux-vdso.so.1" !in REPLACEMENTS
    ensures Basename("/p") == "p" && !IsFrom(RULES, "p") && "p" !in REPLACEMENTS
  {
    hide OverridesOk, ReplacementsCached, IsFrom;
    RuleShapes();
    ShapesOk(RULES, REPLACEMENTS);
    assert "linux-vdso.so.1"[2] == 'n' && "linux-vdso.so.1"[14] == '1';
    assert !Versioned("linux-vdso.so.1") && !Shared("linux-vdso.so.1") && !Versioned("p") && !Shared("p");
    assert "/p"[0] == '/';
  }

  /** What is replaced begins with "lib" and ends in a version; what replaces it ends in "so". */
  predicate Versioned(name: string) {
    |name| > 2 && name[2] == 'b' && name[|name| - 1] != 'o'
  }

  predicate Shared(name: string) {
    |name| > 2 && name[|name| - 1] == 'o'
  }

  lemma RuleShapes()
    ensures forall o :: o in RULES ==> Versioned(o.from) && o.to in REPLACEMENTS
    ensures forall n :: n in REPLACEMENTS ==> Shared(n)
  {
    forall i | 0 <= i < |RULES| ensures Versioned(RULES[i].from) && RULES[i].to in REPLACEMENTS {
      assert i == 0 || i == 1 || i == 2 || i == 3 || i == 4;
    }
  }

  lemma ShapesOk(ov: seq<Override>, names: set<string>)
    requires forall o :: o in ov ==> Versioned(o.from) && o.to in names
    requires forall n :: n in names ==> Shared(n)
    ensures OverridesOk(ov) && ReplacementsCached(names, ov)
    ensures forall n :: (IsFrom(ov, n) ==> Versioned(n)) && (n in names ==> Shared(n))
  {
  }

  lemma NotEmpty(disk: Disk, s: string, f: string, deps: seq<Dependency>)
    requires ScanResult(disk, s, f, deps)
    ensures |deps| > 0
  {
  }

  // ---------------------------------------------------------------- nothing is missing from the loader

  /** Nothing on the disk needs a kernel name, and the replacements need nothing. */
  ghost predicate PlainNeeds(disk: Disk, ov: seq<Override>, needs: map<string, seq<string>>) {
    && (forall p, n :: p in disk && n in disk[p].needed ==> !KernelName(n))
    && (forall o, n :: o in ov && o.to in needs && n in needs[o.to] ==> Skipped(n))
  }

  /** Every kept entry is in the list, after all kept entries before it. */
  lemma {:induction false} GatheredIndex(deps: seq<Dependency>, i: nat) returns (o: nat)
    requires i < |Gathered(deps)|
    ensures o < |deps| && Gathered(deps)[i] == deps[o] && !Ignored(deps[o].required)
    ensures forall j :: 0 <= j < o && !Ignored(deps[j].required) ==> InPrefix(Gathered(deps), i, deps[j])
  {
    var here := if Ignored(deps[0].required) then 0 else 1;
    if i < here {
      o := 0;
    } else {
      var o' := GatheredIndex(deps[1..], i - here);
      o := o' + 1;
      forall j | 0 <= j < o && !Ignored(deps[j].required) ensures InPrefix(Gathered(deps), i, deps[j]) {
        if j == 0 {
          assert Gathered(deps)[0] == deps[0];
        } else {
          assert deps[j] == deps[1..][j - 1];
          assert InPrefix(Gathered(deps[1..]), i - here, deps[j]);
          var q :| 0 <= q < i - here && q < |Gathered(deps[1..])| && Gathered(deps[1..])[q] == deps[j];
          assert Gathered(deps)[q + here] == deps[j];
        }
      }
    }
  }

  ghost predicate InPrefix(list: seq<Dependency>, i: nat, d: Dependency) {
    exists j :: 0 <= j < i && j < |list| && list[j] == d
  }

  lemma {:induction false} AllGathered(deps: seq<Dependency>, j: nat)
    requires j < |deps| && !Ignored(deps[j].required)
    ensures InPrefix(Gathered(deps), |Gathered(deps)|, deps[j])
  {
    var here := if Ignored(deps[0].required) then 0 else 1;
    if j == 0 {
      assert Gathered(deps)[0] == deps[0];
    } else {
      AllGathered(deps[1..], j - 1);
      var q :| 0 <= q < |Gathered(deps[1..])| && Gathered(deps[1..])[q] == deps[1..][j - 1];
      assert Gathered(deps)[q + here] == deps[j];
    }
  }

  /** Position i of the whole list: an entry of the scan, preceded by all that are kept before it. */
  lemma ListIndex(disk: Disk, s: string, f: string, deps: seq<Dependency>, list: seq<Dependency>, i: nat) returns (o: nat)
    requires ScanResult(disk, s, f, deps) && list == Gathered(deps) + [Dependency(s, f)] && i < |list|
    ensures o < |deps| && list[i].found == deps[o].found
    ensures forall j :: 0 <= j < o && !Ignored(deps[j].required) ==> InPrefix(list, i, deps[j])
  {
    hide ScanResult;
    NotEmpty(disk, s, f, deps);
    OnDisk(disk, s, f, deps);
    var n := |Gathered(deps)|;
    if i < n {
      o := GatheredIndex(deps, i);
    } else {
      o := |deps| - 1;
    }
    forall j | 0 <= j < o && !Ignored(deps[j].required) ensures InPrefix(list, i, deps[j]) {
      if i == n {
        AllGathered(deps, j);
      }
      assert InPrefix(Gathered(deps), i, deps[j]);
      var q :| 0 <= q < i && q < n && Gathered(deps)[q] == deps[j];
      assert list[q] == deps[j];
    }
  }

  /** What the cache returned for the files of the list. */
  ghost predicate Cached(files: seq<CachedFile>, ov: seq<Override>, list: seq<Dependency>, out: seq<CachedFile>) {
    |out| == |list| && forall i :: 0 <= i < |list| ==> out[i] in files && out[i].basename == Replace(ov, Basename(list[i].found))
  }

  /** The loader's view of the cache's answers. */
  function LibraryFiles(out: seq<CachedFile>, data: map<nat, seq<SharedModules.Byte>>): (r: seq<CoojaLoading.LibraryFile>)
    requires forall i :: 0 <= i < |out| ==> out[i].id in data
    ensures |r| == |out| && forall i :: 0 <= i < |out| ==> r[i] == CoojaLoading.LibraryFile(out[i].id, out[i].deps, data[out[i].id])
  {
    seq(|out|, i requires 0 <= i < |out| => CoojaLoading.LibraryFile(out[i].id, out[i].deps, data[out[i].id]))
  }

  /** A dependency the cache recorded for entry i was returned for an earlier entry. */
  lemma DepReturned(disk: Disk, s: string, f: string, deps: seq<Dependency>, list: seq<Dependency>,
                    files: seq<CachedFile>, last: nat, ov: seq<Override>, needs: map<string, seq<string>>, out: seq<CachedFile>, i: nat, d: nat)
      returns (j: nat)
    requires ScanResult(disk, s, f, deps) && TidyNames(disk) && OverridesOk(ov) && PlainNeeds(disk, ov, needs)
    requires list == Gathered(deps) + [Dependency(s, f)] && Known(disk, needs, list)
    requires CacheInv(files, last) && Coherent(files, ov, needs) && Cached(files, ov, list, out)
    requires i < |list| && d in out[i].deps
    ensures j < i && out[j].id == d
  {
    hide ScanResult, TidyNames, CacheInv, Ignored, KernelName, Skipped, OverridesOk, Gathered;
    OnDisk(disk, s, f, deps);
    var o := ListIndex(disk, s, f, deps, list, i);
    var p, b := deps[o].found, Basename(deps[o].found);
    ReplaceIs(ov, b);
    DepIdsAre(files, ov, needs[out[i].basename], d);
    var n :| n in needs[out[i].basename] && !Skipped(n) && Lookup(files, Replace(ov, n)).Some? && Lookup(files, Replace(ov, n)).value.id == d;
    assert n in disk[p].needed;
    var q := NeededEntry(disk, s, f, deps, o, n);
    NotIgnored(disk, p, n);
    assert InPrefix(list, i, deps[q]);
    j :| 0 <= j < i && j < |list| && list[j] == deps[q];
    LookupIs(files, last, out[j]);
  }

  /** The list the loader works through meets what LoadModule expects of it. */
  lemma ListIsLoadable(disk: Disk, s: string, f: string, deps: seq<Dependency>,
                       files: seq<CachedFile>, last: nat, ov: seq<Override>, needs: map<string, seq<string>>, out: seq<CachedFile>,
                       data: map<nat, seq<SharedModules.Byte>>, table: SharedModules.Table)
    requires ScanResult(disk, s, f, deps) && TidyNames(disk) && OverridesOk(ov) && PlainNeeds(disk, ov, needs)
    requires var list := Gathered(deps) + [Dependency(s, f)]; Known(disk, needs, list) && Cached(files, ov, list, out)
    requires CacheInv(files, last) && Coherent(files, ov, needs)
    requires forall i :: 0 <= i < |out| ==> out[i].id in data
    requires forall c :: c in files && c.id in table ==> table[c.id].deps == c.deps
    ensures CoojaLoading.FilesOk(LibraryFiles(out, data), table)
  {
    hide ScanResult, TidyNames, OverridesOk, PlainNeeds, Coherent, Known, Gathered, CacheInv;
    var list := Gathered(deps) + [Dependency(s, f)];
    var r := LibraryFiles(out, data);
    forall i, d | 0 <= i < |r| && d in r[i].deps ensures d < r[i].id && CoojaLoading.FileBefore(r, i, d) {
      var j := DepReturned(disk, s, f, deps, list, files, last, ov, needs, out, i, d);
      assert r[j].id == d;
      EarlierIsSmaller(files, last, out[i], d);
    }
    forall i, j | 0 <= i < |r| && 0 <= j < |r| && r[i].id == r[j].id ensures r[i] == r[j] {
      SameIdSameFile(files, last, out[i], out[j]);
    }
  }

  lemma EarlierIsSmaller(files: seq<CachedFile>, last: nat, c: CachedFile, d: nat)
    requires CacheInv(files, last) && c in files && d in c.deps
    ensures d < c.id
  {
    var i :| 0 <= i < |files| && files[i] == c;
    assert HasEarlierId(files, i, d);
  }

  lemma SameIdSameFile(files: seq<CachedFile>, last: nat, c: CachedFile, c': CachedFile)
    requires CacheInv(files, last) && c in files && c' in files && c.id == c'.id
    ensures c == c'
  {
    var i :| 0 <= i < |files| && files[i] == c;
    var j :| 0 <= j < |files| && files[j] == c';
  }
}
