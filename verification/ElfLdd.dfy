/** The dependency scan of one executable: which libraries it needs, in an order that puts every
    library after the ones it depends on. */
module LibraryScan {
  import opened DependencyGraph
  import opened Options

  /** What is read from one ELF file: the names in its DT_NEEDED entries and the existing directories of
      its search path, each ending in a slash. */
  datatype Image = Image(needed: seq<string>, dirs: seq<string>)
  type Disk = map<string, Image>

  /** One entry of the result: the name it was asked for by, and the file found. */
  datatype Dependency = Dependency(required: string, found: string)

  type Libs = set<(string, string)>

  // ---------------------------------------------------------------- what the files say

  /** The first directory that holds the file. */
  function FirstHit(files: set<string>, dirs: seq<string>, name: string): (r: Option<string>)
    ensures r.Some? ==> exists j :: FirstAt(files, dirs, name, j) && r.value == dirs[j] + name
    ensures r.None? ==> forall j :: 0 <= j < |dirs| ==> dirs[j] + name !in files
  {
    if dirs == [] then None
    else if dirs[0] + name in files then Some(dirs[0] + name)
    else
      var r := FirstHit(files, dirs[1..], name);
      assert forall j :: 0 < j < |dirs| ==> dirs[j] == dirs[1..][j - 1];
      assert forall j :: FirstAt(files, dirs[1..], name, j) ==> FirstAt(files, dirs, name, j + 1);
      r
  }

  predicate FirstAt(files: set<string>, dirs: seq<string>, name: string, j: int) {
    0 <= j < |dirs| && dirs[j] + name in files && forall k :: 0 <= k < j ==> dirs[k] + name !in files
  }

  ghost predicate Resolves(disk: Disk, path: string) {
    path in disk && forall n :: n in disk[path].needed ==> FirstHit(disk.Keys, disk[path].dirs, n).Some?
  }

  ghost function LibsOf(disk: Disk, path: string): Libs
    requires Resolves(disk, path)
  {
    set n | n in disk[path].needed :: (n, FirstHit(disk.Keys, disk[path].dirs, n).value)
  }

  ghost function Found(libs: Libs): set<string> {
    set l | l in libs :: l.1
  }

  /** The graph of all files whose libraries can all be found. */
  ghost function GraphOf(disk: Disk): Graph {
    map p | p in disk && Resolves(disk, p) :: Found(LibsOf(disk, p))
  }

  /** Dependencies keep the name they are needed by as their last part. */
  lemma FoundByName(disk: Disk, path: string, l: (string, string))
    requires Resolves(disk, path) && l in LibsOf(disk, path)
    ensures l.0 in disk[path].needed && exists j :: 0 <= j < |disk[path].dirs| && l.1 == disk[path].dirs[j] + l.0
  {
  }

  // ---------------------------------------------------------------- one library

  class SharedLibrary {
    const sName: string
    const fullName: string
    /** Needed names, each with the file found for it once SearchLibs has succeeded. */
    var libs: Libs
    const path: seq<string>
    /** Length of the longest dependency chain from here, -1 while unknown. */
    var depth: int

    constructor (s: string, f: string, image: Image)
      ensures sName == s && fullName == f && path == image.dirs && depth == -1
      ensures libs == set n | n in image.needed :: (n, "")
    {
      sName, fullName, path, depth := s, f, image.dirs, -1;
      libs := set n | n in image.needed :: (n, "");
    }

    /** Finds a file for every needed name, or leaves libs alone. */
    method SearchLibs(files: set<string>, ghost needed: seq<string>) returns (ok: bool)
      requires libs == set n | n in needed :: (n, "")
      modifies this`libs
      ensures ok <==> forall n :: n in needed ==> FirstHit(files, path, n).Some?
      ensures ok ==> libs == set n | n in needed :: (n, FirstHit(files, path, n).value)
      ensures !ok ==> libs == old(libs)
    {
      var count := 0;
      var n: Libs := {};
      var rest := libs;
      ghost var missing := 0;
      while rest != {}
        invariant rest <= libs && count + missing == |libs| - |rest|
        invariant missing > 0 <==> exists l :: l in libs - rest && FirstHit(files, path, l.0).None?
        invariant forall l :: l in libs - rest && FirstHit(files, path, l.0).Some? ==> (l.0, FirstHit(files, path, l.0).value) in n
        invariant forall l :: l in n ==> l.0 in needed && FirstHit(files, path, l.0) == Some(l.1)
        decreases rest
      {
        var p :| p in rest;
        ghost var rest0 := rest;
        rest := rest - {p};
        assert libs - rest == libs - rest0 + {p};
        var j := 0;
        while j < |path| && path[j] + p.0 !in files
          invariant j <= |path| && FirstHit(files, path, p.0) == FirstHit(files, path[j..], p.0)
        {
          assert path[j..][1..] == path[j + 1..];
          j := j + 1;
        }
        if j < |path| {
          n := n + {(p.0, path[j] + p.0)};
          count := count + 1;
        } else {
          missing := missing + 1;
        }
      }
      ok := |libs| == count;
      forall m | m in needed ensures (m, "") in libs {
      }
      if ok {
        libs := n;
      }
    }

    /** The depth of this library, and of all it depends on, if no chain from it has more than max + 1
        nodes. Depths already known are not recomputed; every depth ever set is right. */
    method CalcDepth(max: int, mapScanned: map<string, SharedLibrary>, ghost g: Graph) returns (ok: bool)
      requires fullName in mapScanned && mapScanned[fullName] == this
      requires Scanned(g, mapScanned) && DepthsRight(g, mapScanned)
      modifies (set k | k in mapScanned :: mapScanned[k])`depth
      ensures DepthsRight(g, mapScanned)
      ensures ok ==> depth >= 0
      ensures forall k :: k in mapScanned && old(mapScanned[k].depth) >= 0 ==> mapScanned[k].depth == old(mapScanned[k].depth)
      ensures !ok ==> LongChain(g, fullName, max + 2)
      decreases if max < 0 then 0 else max + 1, 1
    {
      hide RightDepths, LongChain, Found;
      LongChainOne(g, fullName);
      if depth >= 0 {
        return true;
      }
      if max < 0 {
        ShortChain(g, fullName, max + 2);
        return false;
      }
      if libs == {} {
        ghost var D := Depths(mapScanned);
        SetLeafDepth(g, D, fullName, libs);
        depth := 0;
        assert Depths(mapScanned) == D[fullName := 0];
        return true;
      }
      var longest;
      ok, longest := VisitLibs(max, mapScanned, g);
      if ok {
        ghost var D := Depths(mapScanned);
        SetDepth(g, D, fullName, libs, longest);
        depth := longest;
        assert Depths(mapScanned) == D[fullName := longest];
      }
    }

    /** The loop of CalcDepth: one more than the greatest depth among the libraries needed. */
    method VisitLibs(max: int, mapScanned: map<string, SharedLibrary>, ghost g: Graph) returns (ok: bool, longest: int)
      requires fullName in mapScanned && mapScanned[fullName] == this && max >= 0 && libs != {}
      requires Scanned(g, mapScanned) && DepthsRight(g, mapScanned)
      modifies (set k | k in mapScanned :: mapScanned[k])`depth
      ensures DepthsRight(g, mapScanned)
      ensures forall k :: k in mapScanned && old(mapScanned[k].depth) >= 0 ==> mapScanned[k].depth == old(mapScanned[k].depth)
      ensures ok ==> forall l :: l in libs ==> 0 <= mapScanned[l.1].depth < longest
      ensures ok ==> exists l :: l in libs && mapScanned[l.1].depth + 1 == longest
      ensures !ok ==> LongChain(g, fullName, max + 2)
      decreases max + 1, 0
    {
      hide RightDepths, LongChain, Found;
      longest := 0;
      var rest := libs;
      ghost var deepest :| deepest in libs;
      while rest != {}
        invariant rest <= libs && DepthsRight(g, mapScanned)
        invariant forall k :: k in mapScanned && old(mapScanned[k].depth) >= 0 ==> mapScanned[k].depth == old(mapScanned[k].depth)
        invariant forall l :: l in libs - rest ==> 0 <= mapScanned[l.1].depth < longest
        invariant longest >= 0 && (rest == libs ==> longest == 0) && deepest in libs
        invariant rest != libs ==> mapScanned[deepest.1].depth + 1 == longest
        decreases rest
      {
        var i :| i in rest;
        var dep := mapScanned[i.1];
        IsFound(libs, i);
        var reached := dep.CalcDepth(max - 1, mapScanned, g);
        if !reached {
          LongChainStep(g, fullName, i.1, max + 1);
          return false, 0;
        }
        if dep.depth > longest - 1 {
          longest := dep.depth + 1;
          deepest := i;
        }
        rest := rest - {i};
      }
      ok := true;
    }
  }

  lemma ShortChain(g: Graph, v: string, n: int)
    requires LongChain(g, v, 1) && n <= 1
    ensures LongChain(g, v, n)
  {
  }

  lemma IsFound(libs: Libs, l: (string, string))
    requires l in libs
    ensures l.1 in Found(libs)
  {
  }

  lemma SetLeafDepth(g: Graph, D: map<string, int>, v: string, libs: Libs)
    requires RightDepths(g, D) && v in g && g[v] == Found(libs) && libs == {}
    ensures RightDepths(g, D[v := 0])
  {
    hide IsDepth;
    assert g[v] == {};
    DepthOfLeaf(g, v);
  }

  /** The loop over the libraries of v found the depth of the deepest. */
  lemma SetDepth(g: Graph, D: map<string, int>, v: string, libs: Libs, n: int)
    requires RightDepths(g, D) && v in g && g[v] == Found(libs)
    requires forall l :: l in libs ==> l.1 in D && 0 <= D[l.1] < n
    requires exists l :: l in libs && D[l.1] + 1 == n
    ensures RightDepths(g, D[v := n])
  {
    hide IsDepth;
    forall d | d in g[v] ensures d in D && 0 <= D[d] < n && IsDepth(g, d, D[d]) {
      var l :| l in libs && l.1 == d;
    }
    var deepest :| deepest in libs && D[deepest.1] + 1 == n;
    DepthOfNode(g, v, D, n, deepest.1);
  }

  /** The map holds the scanned libraries by path and is closed under dependencies. */
  ghost predicate Scanned(g: Graph, mapScanned: map<string, SharedLibrary>)
    reads (set k | k in mapScanned :: mapScanned[k])`libs
  {
    forall k :: k in mapScanned ==>
      && mapScanned[k].fullName == k && k in g && g[k] == Found(mapScanned[k].libs)
      && forall l :: l in mapScanned[k].libs ==> l.1 in mapScanned
  }

  ghost function Depths(mapScanned: map<string, SharedLibrary>): map<string, int>
    reads (set k | k in mapScanned :: mapScanned[k])`depth
  {
    map k | k in mapScanned :: mapScanned[k].depth
  }

  /** Every depth set so far is the longest chain, and is set for the dependencies too. */
  ghost predicate RightDepths(g: Graph, D: map<string, int>) {
    forall k :: k in D && D[k] != -1 ==>
      && D[k] >= 0 && k in g && IsDepth(g, k, D[k])
      && forall d :: d in g[k] ==> d in D && D[d] >= 0
  }

  ghost predicate DepthsRight(g: Graph, mapScanned: map<string, SharedLibrary>)
    reads (set k | k in mapScanned :: mapScanned[k])`depth
  {
    RightDepths(g, Depths(mapScanned))
  }

  // ---------------------------------------------------------------- the scan

  lemma LibsAreFound(disk: Disk, k: string, l: (string, string))
    requires k in disk && Resolves(disk, k) && l in LibsOf(disk, k)
    ensures k in GraphOf(disk) && l.1 in GraphOf(disk)[k]
  {
  }

  lemma FoundAreLibs(disk: Disk, k: string, d: string) returns (l: (string, string))
    requires k in GraphOf(disk) && d in GraphOf(disk)[k]
    ensures Resolves(disk, k) && l in LibsOf(disk, k) && l.1 == d
  {
    l :| l in LibsOf(disk, k) && l.1 == d;
  }

  /** ExtractLibraries followed by SearchLibs: null when the file or one of its libraries is missing. */
  method ScanFile(disk: Disk, name: (string, string)) returns (lib: SharedLibrary?)
    ensures lib != null <==> Resolves(disk, name.1)
    ensures lib != null ==> fresh(lib) && lib.sName == name.0 && lib.fullName == name.1 && lib.depth == -1 && lib.libs == LibsOf(disk, name.1)
  {
    if name.1 !in disk {
      return null;
    }
    var l := new SharedLibrary(name.0, name.1, disk[name.1]);
    var found := l.SearchLibs(disk.Keys, disk[name.1].needed);
    lib := if found then l else null;
  }

  /** How an entry of the result came to be scanned: as the root, or for some reachable file. */
  ghost predicate Asked(disk: Disk, s: string, f: string, name: (string, string)) {
    name == (s, f) || exists k :: Resolves(disk, k) && name in LibsOf(disk, k) && Reaches(GraphOf(disk), f, k)
  }

  /** What the scan knows about a library it has entered. */
  ghost predicate Entered(disk: Disk, s: string, f: string, k: string, lib: SharedLibrary)
    reads lib
  {
    && lib.fullName == k && lib.depth == -1 && Resolves(disk, k) && lib.libs == LibsOf(disk, k)
    && Reaches(GraphOf(disk), f, k) && Asked(disk, s, f, (lib.sName, k))
  }

  /** The dependencies of what has been scanned are scanned or still to do, those that can be scanned. */
  ghost predicate Pending(disk: Disk, done: set<string>, todo: Libs) {
    forall k, l :: k in done && Resolves(disk, k) && l in LibsOf(disk, k) && Resolves(disk, l.1) ==> l in todo || l.1 in done
  }

  /** What is still to do was asked for, and is reached from a root that can be scanned. */
  ghost predicate ToDo(disk: Disk, s: string, f: string, todo: Libs) {
    forall l :: l in todo ==> Asked(disk, s, f, l) && if Resolves(disk, f) then Resolves(disk, l.1) ==> Reaches(GraphOf(disk), f, l.1) else l == (s, f)
  }

  lemma AskedStep(disk: Disk, s: string, f: string, k: string, l: (string, string))
    requires Resolves(disk, k) && Reaches(GraphOf(disk), f, k) && l in LibsOf(disk, k)
    ensures Asked(disk, s, f, l) && (Resolves(disk, l.1) ==> Reaches(GraphOf(disk), f, l.1))
  {
    hide Reaches;
    LibsAreFound(disk, k, l);
    if Resolves(disk, l.1) {
      ReachesStep(GraphOf(disk), f, k, l.1);
    }
  }

  lemma CompleteStep(disk: Disk, s: string, f: string, k: string, l: (string, string))
    requires Complete(GraphOf(disk), f) && Resolves(disk, k) && Reaches(GraphOf(disk), f, k) && l in LibsOf(disk, k)
    ensures Reaches(GraphOf(disk), f, l.1)
  {
    hide Reaches;
    LibsAreFound(disk, k, l);
    AskedStep(disk, s, f, k, l);
    assert l.1 in GraphOf(disk);
  }

  /** Every library of every scanned file has been scanned. */
  ghost predicate AllPresent(mapScanned: map<string, SharedLibrary>)
    reads (set k | k in mapScanned :: mapScanned[k])`libs
  {
    forall k, l :: k in mapScanned && l in mapScanned[k].libs ==> l.1 in mapScanned
  }

  ghost function Scannable(disk: Disk, todo: Libs): Libs {
    set l | l in todo && Resolves(disk, l.1)
  }

  /** The worklist of Loop: scans everything the root needs, directly or not, and can be scanned. All that
      the scanned files need is then there exactly when no file that was reached could not be scanned. */
  method Scan(disk: Disk, s: string, f: string) returns (mapScanned: map<string, SharedLibrary>)
    ensures forall k :: k in mapScanned ==> fresh(mapScanned[k]) && Entered(disk, s, f, k, mapScanned[k])
    ensures Resolves(disk, f) ==> forall k :: k in mapScanned <==> Reaches(GraphOf(disk), f, k)
    ensures Resolves(disk, f) ==> (AllPresent(mapScanned) <==> Complete(GraphOf(disk), f))
    ensures !Resolves(disk, f) ==> mapScanned == map[]
  {
    hide Reaches, Complete, Resolves, LibsOf, Asked, Pending, ToDo, Scannable, AllPresent;
    var todo: Libs := {(s, f)};
    var done: set<string> := {};
    mapScanned := map[];
    StartToDo(disk, s, f);
    while todo != {}
      invariant mapScanned.Keys == done <= disk.Keys
      invariant forall k :: k in mapScanned ==> fresh(mapScanned[k]) && Entered(disk, s, f, k, mapScanned[k])
      invariant ToDo(disk, s, f, todo) && Pending(disk, done, todo)
      invariant Resolves(disk, f) && f !in done ==> (s, f) in todo
      invariant !Resolves(disk, f) ==> done == {}
      decreases disk.Keys - done, Scannable(disk, todo), todo
    {
      var name :| name in todo;
      ghost var todo0, done0 := todo, done;
      todo := todo - {name};
      TakeOne(disk, s, f, todo0, name);
      var l := ScanFile(disk, name);
      if l != null {
        done := done + {name.1};
        mapScanned := mapScanned[name.1 := l];
        todo := todo + set d | d in l.libs && d.1 !in done;
        TookOne(disk, s, f, todo0, done0, name);
      } else {
        Dropped(disk, todo0, done, name);
      }
    }
    if Resolves(disk, f) {
      AllScanned(disk, f, done);
      PresentIs(disk, s, f, mapScanned);
    }
  }

  lemma PresentIs(disk: Disk, s: string, f: string, mapScanned: map<string, SharedLibrary>)
    requires forall k :: k in mapScanned ==> Entered(disk, s, f, k, mapScanned[k])
    requires forall k :: k in mapScanned <==> Reaches(GraphOf(disk), f, k)
    ensures AllPresent(mapScanned) <==> Complete(GraphOf(disk), f)
  {
    hide Reaches, LibsOf, Asked;
    var g := GraphOf(disk);
    if AllPresent(mapScanned) {
      forall v, d | Reaches(g, f, v) && d in g[v] ensures d in g {
        ReachesInGraph(g, f, v);
        var l := FoundAreLibs(disk, v, d);
        assert Entered(disk, s, f, v, mapScanned[v]);
        ReachesInGraph(g, f, d);
      }
    }
    if Complete(g, f) {
      forall k, l | k in mapScanned && l in mapScanned[k].libs ensures l.1 in mapScanned {
        assert Entered(disk, s, f, k, mapScanned[k]);
        CompleteStep(disk, s, f, k, l);
      }
    }
  }

  lemma StartToDo(disk: Disk, s: string, f: string)
    ensures ToDo(disk, s, f, {(s, f)}) && Pending(disk, {}, {(s, f)})
  {
    hide Reaches;
    if Resolves(disk, f) {
      ReachesSelf(GraphOf(disk), f);
    }
  }

  /** A file that cannot be scanned is given up. */
  lemma Dropped(disk: Disk, todo: Libs, done: set<string>, name: (string, string))
    requires Pending(disk, done, todo) && name in todo && !Resolves(disk, name.1)
    ensures Pending(disk, done, todo - {name}) && Scannable(disk, todo - {name}) == Scannable(disk, todo)
  {
    hide Resolves, LibsOf;
  }

  lemma TakeOne(disk: Disk, s: string, f: string, todo: Libs, name: (string, string))
    requires ToDo(disk, s, f, todo) && name in todo
    ensures Asked(disk, s, f, name) && ToDo(disk, s, f, todo - {name})
    ensures Resolves(disk, f) && Resolves(disk, name.1) ==> Reaches(GraphOf(disk), f, name.1)
    ensures !Resolves(disk, f) ==> name == (s, f)
  {
    hide Reaches, Resolves;
  }

  /** One round of the worklist, for a file that could be scanned. */
  lemma TookOne(disk: Disk, s: string, f: string, todo: Libs, done: set<string>, name: (string, string))
    requires ToDo(disk, s, f, todo) && Pending(disk, done, todo)
    requires name in todo && Resolves(disk, f) && Resolves(disk, name.1)
    ensures var done' := done + {name.1};
            var todo' := todo - {name} + set d | d in LibsOf(disk, name.1) && d.1 !in done';
            && name.1 in disk && ToDo(disk, s, f, todo') && Pending(disk, done', todo')
            && (name.1 in done ==> Scannable(disk, todo') == Scannable(disk, todo) - {name})
            && name in Scannable(disk, todo)
  {
    hide Reaches, LibsOf, Asked, Resolves;
    assert name.1 in disk by {
      ResolvesOnDisk(disk, name.1);
    }
    var done' := done + {name.1};
    var todo' := todo - {name} + set d | d in LibsOf(disk, name.1) && d.1 !in done';
    forall d | d in LibsOf(disk, name.1) ensures Asked(disk, s, f, d) && (Resolves(disk, d.1) ==> Reaches(GraphOf(disk), f, d.1)) {
      AskedStep(disk, s, f, name.1, d);
    }
    forall k, l | k in done' && Resolves(disk, k) && l in LibsOf(disk, k) && Resolves(disk, l.1) ensures l in todo' || l.1 in done' {
      if k in done && l !in todo {
        assert l.1 in done;
      }
    }
    if name.1 in done {
      assert done' == done;
      forall d | d in LibsOf(disk, name.1) && d.1 !in done' && Resolves(disk, d.1) ensures d in todo - {name} {
        assert d in todo;
      }
    }
  }

  lemma ResolvesOnDisk(disk: Disk, path: string)
    requires Resolves(disk, path)
    ensures path in disk
  {
  }

  /** With nothing left to do, all that is reachable is done. */
  lemma AllScanned(disk: Disk, f: string, done: set<string>)
    requires Pending(disk, done, {}) && f in done && Resolves(disk, f)
    ensures forall k :: Reaches(GraphOf(disk), f, k) ==> k in done
  {
    hide Reaches;
    var g := GraphOf(disk);
    var dead := set v, d | v in done && v in g && d in g[v] && d !in g :: d;
    forall v, d | v in done + dead && v in g && d in g[v] ensures d in done + dead {
      var l := FoundAreLibs(disk, v, d);
      assert v in done && (d !in g ==> d in dead);
      assert d in g ==> Resolves(disk, l.1);
    }
    forall k | Reaches(g, f, k) ensures k in done {
      ReachesStays(g, done + dead, f, k);
      ReachesInGraph(g, f, k);
    }
  }

  // ---------------------------------------------------------------- the order

  /** Each node reachable from root once, every node after those it depends on, root last. */
  ghost predicate InOrder(g: Graph, root: string, deps: seq<Dependency>) {
    && |deps| > 0 && deps[|deps| - 1].found == root
    && (forall v :: Reaches(g, root, v) <==> exists i :: 0 <= i < |deps| && deps[i].found == v)
    && (forall i, j :: 0 <= i < j < |deps| ==> deps[i].found != deps[j].found)
    && (forall i, d :: 0 <= i < |deps| && deps[i].found in g && d in g[deps[i].found] ==> exists j :: 0 <= j < i && deps[j].found == d)
  }

  ghost predicate Lists(deps: seq<Dependency>, v: string) {
    exists i :: 0 <= i < |deps| && deps[i].found == v
  }

  /** The entries are nodes of D less deep than n, all of them, once each, in order of depth. */
  ghost predicate ByDepth(D: map<string, int>, n: int, deps: seq<Dependency>) {
    && (forall i :: 0 <= i < |deps| ==> deps[i].found in D && D[deps[i].found] < n)
    && (forall i, j :: 0 <= i < j < |deps| ==> deps[i].found != deps[j].found && D[deps[i].found] <= D[deps[j].found])
    && (forall v :: v in D && D[v] < n ==> Lists(deps, v))
  }

  /** Buckets of a single depth, holding the nodes of D seen so far. */
  ghost predicate Buckets(D: map<string, int>, seen: set<string>, tri: map<int, seq<Dependency>>) {
    && (forall p, i :: p in tri && 0 <= i < |tri[p]| ==> tri[p][i].found in seen && tri[p][i].found in D && D[tri[p][i].found] == p)
    && (forall p, i, j :: p in tri && 0 <= i < j < |tri[p]| ==> tri[p][i].found != tri[p][j].found)
    && (forall v :: v in seen && v in D ==> D[v] in tri && Lists(tri[D[v]], v))
  }

  lemma ListsConcat(a: seq<Dependency>, b: seq<Dependency>, v: string)
    ensures Lists(a + b, v) <==> Lists(a, v) || Lists(b, v)
  {
    if Lists(a, v) {
      var i :| 0 <= i < |a| && a[i].found == v;
      assert (a + b)[i].found == v;
    }
    if Lists(b, v) {
      var i :| 0 <= i < |b| && b[i].found == v;
      assert (a + b)[|a| + i].found == v;
    }
  }

  lemma BucketAdded(D: map<string, int>, seen: set<string>, tri: map<int, seq<Dependency>>, d: Dependency)
    requires Buckets(D, seen, tri) && d.found in D && d.found !in seen && D[d.found] in tri
    ensures Buckets(D, seen + {d.found}, tri[D[d.found] := tri[D[d.found]] + [d]])
  {
    var p := D[d.found];
    var tri' := tri[p := tri[p] + [d]];
    forall v | v in seen + {d.found} && v in D ensures D[v] in tri' && Lists(tri'[D[v]], v) {
      ListsConcat(tri[p], [d], v);
      assert [d][0] == d;
    }
  }

  lemma EmptyBucket(D: map<string, int>, seen: set<string>, tri: map<int, seq<Dependency>>, p: int)
    requires Buckets(D, seen, tri) && p !in tri
    ensures Buckets(D, seen, tri[p := []])
  {
  }

  /** A whole bucket appended. */
  lemma BucketListed(D: map<string, int>, tri: map<int, seq<Dependency>>, n: int, deps: seq<Dependency>)
    requires Buckets(D, D.Keys, tri) && ByDepth(D, n, deps)
    ensures ByDepth(D, n + 1, deps + if n in tri then tri[n] else [])
  {
    hide Lists;
    var more := if n in tri then tri[n] else [];
    var deps' := deps + more;
    assert forall i :: 0 <= i < |more| ==> more[i].found in D && D[more[i].found] == n;
    forall i, j | 0 <= i < j < |deps'| ensures deps'[i].found != deps'[j].found && D[deps'[i].found] <= D[deps'[j].found] {
      assert i >= |deps| ==> deps'[i] == more[i - |deps|];
      assert j >= |deps| ==> deps'[j] == more[j - |deps|];
    }
    forall v | v in D && D[v] < n + 1 ensures Lists(deps', v) {
      ListsConcat(deps, more, v);
    }
  }

  /** Depth order is dependency order. */
  lemma DepthOrder(g: Graph, root: string, D: map<string, int>, n: int, deps: seq<Dependency>)
    requires ByDepth(D, n, deps) && RightDepths(g, D) && (forall v :: v in D ==> 0 <= D[v] < n)
    requires root in D && forall v :: v in D <==> Reaches(g, root, v)
    ensures InOrder(g, root, deps)
  {
    hide IsDepth, Reaches;
    assert Lists(deps, root);
    forall v | Reaches(g, root, v) ensures exists i :: 0 <= i < |deps| && deps[i].found == v {
      assert Lists(deps, v);
    }
    forall i, d | 0 <= i < |deps| && deps[i].found in g && d in g[deps[i].found] ensures exists j :: 0 <= j < i && deps[j].found == d {
      var v := deps[i].found;
      DepthDecreases(g, v, D[v], d, D[d]);
      assert Lists(deps, d);
      var j :| 0 <= j < |deps| && deps[j].found == d;
    }
    var r :| 0 <= r < |deps| && deps[r].found == root;
    if r < |deps| - 1 {
      var last := deps[|deps| - 1].found;
      DepthOfReached(g, root, D[root], last, D[last]);
    }
  }

  /** The last part of Loop: libraries bucketed by depth, then listed bucket by bucket. */
  method ListByDepth(mapScanned: map<string, SharedLibrary>, ghost D: map<string, int>) returns (deps: seq<Dependency>, ghost bound: int)
    requires D == Depths(mapScanned) && forall k :: k in mapScanned ==> mapScanned[k].fullName == k && mapScanned[k].depth >= 0
    ensures ByDepth(D, bound, deps) && forall k :: k in D ==> D[k] < bound
    ensures forall i :: 0 <= i < |deps| ==> deps[i].found in mapScanned && deps[i].required == mapScanned[deps[i].found].sName
  {
    hide Buckets, ByDepth;
    var tri: map<int, seq<Dependency>> := map[];
    var maxi := 0;
    var rest := mapScanned.Keys;
    NoBuckets(D);
    assert D.Keys - rest == {};
    while rest != {}
      invariant rest <= mapScanned.Keys && Buckets(D, D.Keys - rest, tri)
      invariant maxi >= 0 && forall k :: k in D && k !in rest ==> D[k] <= maxi
      invariant forall p, i :: p in tri && 0 <= i < |tri[p]| ==> tri[p][i].found in mapScanned && tri[p][i].required == mapScanned[tri[p][i].found].sName
      decreases rest
    {
      var k :| k in rest;
      var p := mapScanned[k].depth;
      if p > maxi {
        maxi := p;
      }
      if p !in tri {
        EmptyBucket(D, D.Keys - rest, tri, p);
        tri := tri[p := []];
      }
      var d := Dependency(mapScanned[k].sName, mapScanned[k].fullName);
      BucketAdded(D, D.Keys - rest, tri, d);
      tri := tri[p := tri[p] + [d]];
      assert D.Keys - rest + {k} == D.Keys - (rest - {k});
      rest := rest - {k};
    }
    assert D.Keys - rest == D.Keys;
    deps := [];
    NothingListed(D);
    for j := 0 to maxi + 1
      invariant ByDepth(D, j, deps)
      invariant forall i :: 0 <= i < |deps| ==> deps[i].found in mapScanned && deps[i].required == mapScanned[deps[i].found].sName
    {
      BucketListed(D, tri, j, deps);
      deps := deps + if j in tri then tri[j] else [];
    }
    bound := maxi + 1;
  }

  lemma NoBuckets(D: map<string, int>)
    ensures Buckets(D, {}, map[])
  {
  }

  lemma NothingListed(D: map<string, int>)
    requires forall v :: v in D ==> D[v] >= 0
    ensures ByDepth(D, 0, [])
  {
  }

  // ---------------------------------------------------------------- the whole scan

  /** Depths known at the root are known everywhere. */
  lemma AllDepthsKnown(g: Graph, root: string, D: map<string, int>)
    requires RightDepths(g, D) && root in D && D[root] >= 0 && forall v :: v in D ==> Reaches(g, root, v)
    ensures forall v :: v in D ==> D[v] >= 0 && IsDepth(g, v, D[v])
  {
    hide IsDepth, Reaches;
    var known := set v | v in D && D[v] >= 0;
    forall v, d | v in known && v in g && d in g[v] ensures d in known {
      assert D[v] != -1;
    }
    forall v | v in D ensures D[v] >= 0 && IsDepth(g, v, D[v]) {
      ReachesStays(g, known, root, v);
    }
  }

  /** CalcDepth started at the root with the number of libraries as bound: it succeeds exactly when no
      cycle can be reached, and then every library has its longest chain as depth. */
  method CalcAllDepths(f: string, mapScanned: map<string, SharedLibrary>, ghost g: Graph) returns (ok: bool)
    requires f in mapScanned && Scanned(g, mapScanned) && DepthsRight(g, mapScanned)
    requires forall k :: k in mapScanned ==> Reaches(g, f, k)
    modifies (set k | k in mapScanned :: mapScanned[k])`depth
    ensures DepthsRight(g, mapScanned)
    ensures ok <==> !CycleReachable(g, f)
    ensures ok ==> forall k :: k in mapScanned ==> mapScanned[k].depth >= 0 && IsDepth(g, k, mapScanned[k].depth)
  {
    hide IsDepth, Reaches, LongChain, CycleReachable, RightDepths;
    ok := mapScanned[f].CalcDepth(|mapScanned|, mapScanned, g);
    ghost var D := Depths(mapScanned);
    if ok {
      AllDepthsKnown(g, f, D);
      assert forall k :: k in mapScanned ==> D[k] == mapScanned[k].depth;
      DepthMeansNoCycle(g, f, D[f]);
    } else {
      assert |mapScanned| == |mapScanned.Keys|;
      LongChainShorter(g, f, |mapScanned| + 2, |mapScanned.Keys| + 1);
      ScannedClosed(g, mapScanned);
      LongChainRepeats(g, mapScanned.Keys, f);
    }
  }

  lemma LongChainShorter(g: Graph, v: string, n: int, m: int)
    requires LongChain(g, v, n) && m <= n
    ensures LongChain(g, v, m)
  {
  }

  lemma ScannedClosed(g: Graph, mapScanned: map<string, SharedLibrary>)
    requires Scanned(g, mapScanned)
    ensures forall v, d :: v in mapScanned && v in g && d in g[v] ==> d in mapScanned
  {
    forall v, d | v in mapScanned && v in g && d in g[v] ensures d in mapScanned {
      var l :| l in mapScanned[v].libs && l.1 == d;
    }
  }

  /** What Scan produces is what CalcDepth expects. */
  lemma ScanReady(disk: Disk, s: string, f: string, mapScanned: map<string, SharedLibrary>)
    requires Complete(GraphOf(disk), f)
    requires forall k :: k in mapScanned ==> Entered(disk, s, f, k, mapScanned[k])
    requires forall k :: k in mapScanned <==> Reaches(GraphOf(disk), f, k)
    ensures Scanned(GraphOf(disk), mapScanned) && DepthsRight(GraphOf(disk), mapScanned)
  {
    hide Reaches, IsDepth, LibsOf, Found, GraphOf;
    var g := GraphOf(disk);
    forall k, l | k in mapScanned && l in mapScanned[k].libs ensures l.1 in mapScanned {
      assert Entered(disk, s, f, k, mapScanned[k]);
      CompleteStep(disk, s, f, k, l);
    }
    forall k | k in mapScanned ensures mapScanned[k].fullName == k && k in g && g[k] == Found(mapScanned[k].libs) && mapScanned[k].depth == -1 {
      EnteredFacts(disk, s, f, k, mapScanned[k]);
    }
  }

  lemma EnteredFacts(disk: Disk, s: string, f: string, k: string, lib: SharedLibrary)
    requires Entered(disk, s, f, k, lib)
    ensures lib.fullName == k && k in GraphOf(disk) && GraphOf(disk)[k] == Found(lib.libs) && lib.depth == -1
  {
    hide Reaches;
  }

  class ElfLdd {
    var deps: seq<Dependency>

    /** The libraries f needs, for a caller that asked for it by the name s. */
    constructor (disk: Disk, s: string, f: string)
      requires Complete(GraphOf(disk), f)
      ensures if f in GraphOf(disk) && !CycleReachable(GraphOf(disk), f) then InOrder(GraphOf(disk), f, deps) else deps == []
      ensures forall i :: 0 <= i < |deps| ==> Asked(disk, s, f, (deps[i].required, deps[i].found))
    {
      deps := [];
      new;
      Loop(disk, s, f);
    }

    method Loop(disk: Disk, s: string, f: string)
      requires Complete(GraphOf(disk), f) && deps == []
      modifies this
      ensures if f in GraphOf(disk) && !CycleReachable(GraphOf(disk), f) then InOrder(GraphOf(disk), f, deps) else deps == []
      ensures forall i :: 0 <= i < |deps| ==> Asked(disk, s, f, (deps[i].required, deps[i].found))
    {
      hide IsDepth, Reaches, CycleReachable, RightDepths, InOrder, ByDepth, Asked, Complete, LibsOf;
      var mapScanned := Scan(disk, s, f);
      ghost var g: Graph := GraphOf(disk);
      if f !in mapScanned {
        if f in g {
          ReachesSelf(g, f);
        }
        return;
      }
      ScanReady(disk, s, f, mapScanned);
      var ok := CalcAllDepths(f, mapScanned, g);
      if !ok {
        return;
      }
      ghost var D: map<string, int> := Depths(mapScanned);
      ghost var bound;
      deps, bound := ListByDepth(mapScanned, D);
      DepthOrder(g, f, D, bound, deps);
    }
  }
}
