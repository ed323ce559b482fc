/** The cache of edited library copies: each gets an id, and its DT_NEEDED names become ids of files
    cached before it. */
module LibraryCache {
  import opened LibraryScan
  import opened Options

  datatype CachedFile = CachedFile(basename: string, id: nat, deps: seq<nat>)
  /** A library name replaced by the simulator's own library. */
  datatype Override = Override(from: string, to: string)

  // ---------------------------------------------------------------- names

  /** GetBasename: what follows the last slash. */
  function Basename(filename: string): (b: string) {
    if filename == [] || filename[|filename| - 1] == '/' then ""
    else Basename(filename[..|filename| - 1]) + [filename[|filename| - 1]]
  }

  /** The file name is a directory part, empty or ending in a slash, followed by the base name. */
  lemma {:induction false} BasenameIs(filename: string) returns (dir: string)
    ensures filename == dir + Basename(filename) && '/' !in Basename(filename)
    ensures dir == "" || dir[|dir| - 1] == '/'
  {
    if filename == "" || filename[|filename| - 1] == '/' {
      dir := filename;
    } else {
      var rest, last := filename[..|filename| - 1], filename[|filename| - 1];
      dir := BasenameIs(rest);
      assert filename == dir + (Basename(rest) + [last]);
    }
  }

  lemma {:induction false} BasenameOfFound(dir: string, name: string)
    requires dir == "" || dir[|dir| - 1] == '/'
    requires '/' !in name
    ensures Basename(dir + name) == name
  {
    if name == "" {
      assert dir + name == dir;
    } else {
      var n := |name| - 1;
      assert name == name[..n] + [name[n]];
      assert (dir + name)[..|dir + name| - 1] == dir + name[..n];
      BasenameOfFound(dir, name[..n]);
    }
  }

  ghost predicate IsFrom(ov: seq<Override>, name: string) {
    exists o :: o in ov && o.from == name
  }

  ghost predicate OverridesOk(ov: seq<Override>) {
    forall o, o' :: o in ov && o' in ov ==> o.to != o'.from
  }

  /** The rewriting loop of GetDepId. */
  function Replace(ov: seq<Override>, name: string): string {
    if ov == [] then name
    else Replace(ov[1..], if ov[0].from == name then ov[0].to else name)
  }

  lemma {:induction false} ReplaceIs(ov: seq<Override>, name: string)
    requires OverridesOk(ov)
    ensures !IsFrom(ov, name) ==> Replace(ov, name) == name
    ensures IsFrom(ov, name) ==> exists o :: o in ov && o.from == name && Replace(ov, name) == o.to && !IsFrom(ov, o.to)
  {
    if ov != [] {
      var rest := ov[1..];
      assert forall o :: o in ov <==> o == ov[0] || o in rest;
      ReplaceIs(rest, name);
      if ov[0].from == name {
        ReplaceIs(rest, ov[0].to);
      }
    }
  }

  // ---------------------------------------------------------------- the files in the cache

  ghost predicate HasName(files: seq<CachedFile>, name: string) {
    exists c :: c in files && c.basename == name
  }

  ghost predicate HasEarlierId(files: seq<CachedFile>, i: nat, d: nat) {
    exists j :: 0 <= j < i && j < |files| && files[j].id == d
  }

  /** Names differ, ids grow, and dependencies are files cached earlier. */
  ghost predicate CacheInv(files: seq<CachedFile>, last: nat) {
    && (forall i, j :: 0 <= i < j < |files| ==> files[i].basename != files[j].basename && files[i].id < files[j].id)
    && (forall i :: 0 <= i < |files| ==> 0 < files[i].id <= last)
    && (forall i, d :: 0 <= i < |files| && d in files[i].deps ==> HasEarlierId(files, i, d))
  }

  function Lookup(files: seq<CachedFile>, name: string): (r: Option<CachedFile>)
    ensures r.Some? ==> r.value in files && r.value.basename == name
    ensures r.None? <==> !HasName(files, name)
  {
    if files == [] then None
    else if files[0].basename == name then assert files[0] in files; Some(files[0])
    else
      assert forall c :: c in files <==> c == files[0] || c in files[1..];
      Lookup(files[1..], name)
  }

  lemma LookupIs(files: seq<CachedFile>, last: nat, c: CachedFile)
    requires CacheInv(files, last) && c in files
    ensures Lookup(files, c.basename) == Some(c)
  {
    assert HasName(files, c.basename);
    var r := Lookup(files, c.basename).value;
    var i :| 0 <= i < |files| && files[i] == c;
    var j :| 0 <= j < |files| && files[j] == r;
  }

  lemma {:induction false} LookupGrows(files: seq<CachedFile>, more: seq<CachedFile>, name: string)
    requires HasName(files, name)
    ensures Lookup(files + more, name) == Lookup(files, name)
  {
    assert (files + more)[0] == files[0] && (files + more)[1..] == files[1..] + more;
    if files[0].basename != name {
      var c :| c in files && c.basename == name;
      assert c in files[1..];
      LookupGrows(files[1..], more, name);
    }
  }

  /** The dynamic linker is never a dependency. */
  predicate Skipped(name: string) {
    name == "ld-linux-x86-64.so.2" || name == "ld-linux.so.2"
  }

  /** The ids EditBuffer records, or None where GetDepId "did not find" a name. */
  function DepIds(files: seq<CachedFile>, ov: seq<Override>, needed: seq<string>): (r: Option<seq<nat>>)
  {
    if needed == [] then Some([])
    else if Skipped(needed[0]) then DepIds(files, ov, needed[1..])
    else
      var c := Lookup(files, Replace(ov, needed[0]));
      if c.Some? then Prepend([c.value.id], DepIds(files, ov, needed[1..])) else None
  }

  lemma {:induction false} DepIdsExist(files: seq<CachedFile>, ov: seq<Override>, needed: seq<string>)
    ensures DepIds(files, ov, needed).Some? <==> forall n :: n in needed && !Skipped(n) ==> HasName(files, Replace(ov, n))
  {
    if needed != [] {
      DepIdsExist(files, ov, needed[1..]);
      assert forall n :: n in needed <==> n == needed[0] || n in needed[1..];
    }
  }

  function Prepend(ids: seq<nat>, r: Option<seq<nat>>): Option<seq<nat>> {
    if r.Some? then Some(ids + r.value) else None
  }

  lemma PrependFacts(ids: seq<nat>, id: nat, r: Option<seq<nat>>)
    ensures Prepend([], r) == r && Prepend(ids, Prepend([id], r)) == Prepend(ids + [id], r)
  {
    if r.Some? {
      assert [] + r.value == r.value;
      assert ids + ([id] + r.value) == ids + [id] + r.value;
    }
  }

  lemma DepIdsUnfolds(files: seq<CachedFile>, ov: seq<Override>, needed: seq<string>)
    ensures DepIds(files, ov, needed) ==
              if needed == [] then Some([])
              else if Skipped(needed[0]) then DepIds(files, ov, needed[1..])
              else if Lookup(files, Replace(ov, needed[0])).Some? then Prepend([Lookup(files, Replace(ov, needed[0])).value.id], DepIds(files, ov, needed[1..]))
              else None
  {
  }

  /** The needed names that are looked up, in order. */
  function Wanted(needed: seq<string>): seq<string> {
    if needed == [] then []
    else (if Skipped(needed[0]) then [] else [needed[0]]) + Wanted(needed[1..])
  }

  lemma {:induction false} WantedIs(needed: seq<string>, n: string)
    ensures multiset(Wanted(needed))[n] == if Skipped(n) then 0 else multiset(needed)[n]
  {
    if needed != [] {
      WantedIs(needed[1..], n);
      assert needed == [needed[0]] + needed[1..];
    }
  }

  /** A file of that name is in the cache under that id. */
  ghost predicate CachedUnder(files: seq<CachedFile>, name: string, id: nat) {
    exists c :: c in files && c.basename == name && c.id == id
  }

  /** The ids are those of the wanted names after replacement, one for each, in order. */
  ghost predicate DepsFor(files: seq<CachedFile>, ov: seq<Override>, needed: seq<string>, ids: seq<nat>) {
    |ids| == |Wanted(needed)| && forall k :: 0 <= k < |ids| ==> CachedUnder(files, Replace(ov, Wanted(needed)[k]), ids[k])
  }

  lemma {:induction false} DepIdsMean(files: seq<CachedFile>, ov: seq<Override>, needed: seq<string>)
    requires DepIds(files, ov, needed).Some?
    ensures DepsFor(files, ov, needed, DepIds(files, ov, needed).value)
  {
    hide CachedUnder;
    if needed != [] {
      DepIdsMean(files, ov, needed[1..]);
      if Skipped(needed[0]) {
        assert Wanted(needed) == Wanted(needed[1..]);
      } else {
        var c, rest := Lookup(files, Replace(ov, needed[0])).value, DepIds(files, ov, needed[1..]).value;
        LookupCached(files, Replace(ov, needed[0]));
        var ids := DepIds(files, ov, needed).value;
        forall k | 0 <= k < |ids| ensures CachedUnder(files, Replace(ov, Wanted(needed)[k]), ids[k]) {
          if k > 0 {
            assert Wanted(needed)[k] == Wanted(needed[1..])[k - 1] && ids[k] == rest[k - 1];
          }
        }
      }
    }
  }

  lemma LookupCached(files: seq<CachedFile>, name: string)
    requires Lookup(files, name).Some?
    ensures CachedUnder(files, name, Lookup(files, name).value.id)
  {
  }

  /** In a cache of distinct names there are no other such ids. */
  lemma DepsForUnique(files: seq<CachedFile>, last: nat, ov: seq<Override>, needed: seq<string>, ids: seq<nat>, ids': seq<nat>)
    requires CacheInv(files, last) && DepsFor(files, ov, needed, ids) && DepsFor(files, ov, needed, ids')
    ensures ids == ids'
  {
    forall k | 0 <= k < |ids| ensures ids[k] == ids'[k] {
      var name := Replace(ov, Wanted(needed)[k]);
      var c :| c in files && c.basename == name && c.id == ids[k];
      var c' :| c' in files && c'.basename == name && c'.id == ids'[k];
      LookupIs(files, last, c);
      LookupIs(files, last, c');
    }
  }

  ghost predicate IsIdOf(files: seq<CachedFile>, ov: seq<Override>, needed: seq<string>, d: nat) {
    exists n :: n in needed && !Skipped(n) && Lookup(files, Replace(ov, n)).Some? && Lookup(files, Replace(ov, n)).value.id == d
  }

  lemma {:induction false} DepIdsAre(files: seq<CachedFile>, ov: seq<Override>, needed: seq<string>, d: nat)
    requires DepIds(files, ov, needed).Some? && d in DepIds(files, ov, needed).value
    ensures IsIdOf(files, ov, needed, d)
  {
    var rest := DepIds(files, ov, needed[1..]);
    if !Skipped(needed[0]) && d == Lookup(files, Replace(ov, needed[0])).value.id {
      assert needed[0] in needed;
    } else {
      DepIdsAre(files, ov, needed[1..], d);
      var n :| n in needed[1..] && !Skipped(n) && Lookup(files, Replace(ov, n)).Some? && Lookup(files, Replace(ov, n)).value.id == d;
      assert n in needed;
    }
  }

  lemma {:induction false} DepIdsGrow(files: seq<CachedFile>, more: seq<CachedFile>, ov: seq<Override>, needed: seq<string>)
    requires DepIds(files, ov, needed).Some?
    ensures DepIds(files + more, ov, needed) == DepIds(files, ov, needed)
  {
    if needed != [] {
      DepIdsGrow(files, more, ov, needed[1..]);
      if !Skipped(needed[0]) {
        LookupGrows(files, more, Replace(ov, needed[0]));
      }
    }
  }

  /** Every cached file's dependencies are those of the file it is a copy of. */
  ghost predicate Coherent(files: seq<CachedFile>, ov: seq<Override>, needs: map<string, seq<string>>) {
    forall c :: c in files ==> c.basename in needs && DepIds(files, ov, needs[c.basename]) == Some(c.deps)
  }

  lemma CoherentMeans(files: seq<CachedFile>, ov: seq<Override>, needs: map<string, seq<string>>, c: CachedFile)
    requires Coherent(files, ov, needs) && c in files
    ensures c.basename in needs && DepsFor(files, ov, needs[c.basename], c.deps)
  {
    DepIdsMean(files, ov, needs[c.basename]);
  }

  // ---------------------------------------------------------------- when a file can be added

  /** names are those of the files in the cache. */
  ghost predicate Addable(names: set<string>, ov: seq<Override>, filename: string, needed: seq<string>) {
    var b := Basename(filename);
    if IsFrom(ov, b) then Replace(ov, b) in names
    else b in names || forall n :: n in needed && !Skipped(n) ==> Replace(ov, n) in names
  }

  ghost function Names(files: seq<CachedFile>): set<string> {
    set c | c in files :: c.basename
  }

  /** Every file of the list can be added after those before it. */
  ghost predicate AllAddable(names: set<string>, ov: seq<Override>, disk: Disk, list: seq<Dependency>)
    decreases |list|
  {
    list == [] ||
    (&& list[0].found in disk && Addable(names, ov, list[0].found, disk[list[0].found].needed)
     && AllAddable(names + {Replace(ov, Basename(list[0].found))}, ov, disk, list[1..]))
  }

  /** The cache after Add (filename) returned c. */
  ghost predicate AddedTo(files: seq<CachedFile>, ov: seq<Override>, filename: string, needed: seq<string>, files': seq<CachedFile>, c: CachedFile) {
    && c in files' && c.basename == Replace(ov, Basename(filename))
    && if HasName(files, c.basename) then files' == files
       else files' == files + [c] && DepIds(files, ov, needed) == Some(c.deps)
  }

  lemma DepsAreEarlier(files: seq<CachedFile>, last: nat, ov: seq<Override>, needed: seq<string>, c: CachedFile)
    requires CacheInv(files, last) && DepIds(files, ov, needed) == Some(c.deps) && c.id > last && !HasName(files, c.basename)
    ensures CacheInv(files + [c], c.id)
  {
    var files' := files + [c];
    forall i, d | 0 <= i < |files'| && d in files'[i].deps ensures HasEarlierId(files', i, d) {
      if i < |files| {
        assert HasEarlierId(files, i, d);
        var j :| 0 <= j < i && j < |files| && files[j].id == d;
        assert files'[j].id == d;
      } else {
        DepIdsAre(files, ov, needed, d);
        var n :| n in needed && !Skipped(n) && Lookup(files, Replace(ov, n)).Some? && Lookup(files, Replace(ov, n)).value.id == d;
        var j :| 0 <= j < |files| && files[j] == Lookup(files, Replace(ov, n)).value;
        assert files'[j].id == d;
      }
    }
    forall i, j | 0 <= i < j < |files'| ensures files'[i].basename != files'[j].basename && files'[i].id < files'[j].id {
      assert files[i] in files;
    }
  }

  // ---------------------------------------------------------------- the cache

  /** The static counter behind AllocateId. */
  class IdSource {
    var last: nat

    constructor ()
      ensures last == 0
    {
      last := 0;
    }

    method AllocateId() returns (id: nat)
      modifies this
      ensures id == last == old(last) + 1
    {
      last := last + 1;
      id := last;
    }
  }

  class ElfCache {
    const ids: IdSource
    const overridden: seq<Override>
    var files: seq<CachedFile>

    ghost predicate Valid()
      reads this, ids
    {
      CacheInv(files, ids.last) && OverridesOk(overridden)
    }

    constructor (ids: IdSource, overridden: seq<Override>)
      requires OverridesOk(overridden)
      ensures this.ids == ids && this.overridden == overridden && files == [] && Valid()
    {
      this.ids, this.overridden, files := ids, overridden, [];
    }

    /** The search for a cached file by name. */
    method Find(name: string) returns (r: Option<CachedFile>)
      ensures r == Lookup(files, name)
    {
      assert files[0..] == files;
      for i := 0 to |files|
        invariant Lookup(files, name) == Lookup(files[i..], name)
      {
        assert files[i..][0] == files[i] && files[i..][1..] == files[i + 1..];
        if name == files[i].basename {
          return Some(files[i]);
        }
      }
      r := None;
    }

    method GetDepId(depname: string) returns (id: Option<nat>)
      ensures var c := Lookup(files, Replace(overridden, depname)); if c.Some? then id == Some(c.value.id) else id == None
    {
      var name := depname;
      assert overridden[0..] == overridden;
      for i := 0 to |overridden|
        invariant Replace(overridden, depname) == Replace(overridden[i..], name)
      {
        assert overridden[i..][0] == overridden[i] && overridden[i..][1..] == overridden[i + 1..];
        if overridden[i].from == name {
          name := overridden[i].to;
        }
      }
      var c := Find(name);
      id := if c.Some? then Some(c.value.id) else None;
    }

    /** EditBuffer's loop over the DT_NEEDED entries: an id for each name but the linker's, or none when a
        name is not cached. */
    method EditBuffer(needed: seq<string>) returns (deps: Option<seq<nat>>)
      ensures deps.Some? ==> DepsFor(files, overridden, needed, deps.value)
      ensures deps.None? <==> exists n :: n in needed && !Skipped(n) && !HasName(files, Replace(overridden, n))
      ensures deps == DepIds(files, overridden, needed)
    {
      hide DepIds;
      var ids: seq<nat> := [];
      assert needed[0..] == needed;
      PrependFacts([], 0, DepIds(files, overridden, needed));
      for i := 0 to |needed|
        invariant DepIds(files, overridden, needed) == Prepend(ids, DepIds(files, overridden, needed[i..]))
      {
        DepIdsUnfolds(files, overridden, needed[i..]);
        assert needed[i..][0] == needed[i] && needed[i..][1..] == needed[i + 1..];
        if needed[i] != "ld-linux-x86-64.so.2" && needed[i] != "ld-linux.so.2" {
          var id := GetDepId(needed[i]);
          if id == None {
            DepIdsExist(files, overridden, needed);
            return None;
          }
          PrependFacts(ids, id.value, DepIds(files, overridden, needed[i + 1..]));
          ids := ids + [id.value];
        }
      }
      assert needed[|needed|..] == [] && ids + [] == ids;
      DepIdsUnfolds(files, overridden, []);
      deps := Some(ids);
      DepIdsExist(files, overridden, needed);
      DepIdsMean(files, overridden, needed);
    }

    /** Add succeeds exactly when no assertion in it fails, that is when what it needs is in the cache. */
    method Add(filename: string, needed: seq<string>) returns (r: Option<CachedFile>)
      requires Valid()
      modifies this`files, ids
      ensures Valid() && ids.last >= old(ids.last)
      ensures r.Some? <==> Addable(Names(old(files)), overridden, filename, needed)
      ensures r.Some? ==> AddedTo(old(files), overridden, filename, needed, files, r.value)
      ensures r.Some? && !HasName(old(files), r.value.basename) ==> DepsFor(old(files), overridden, needed, r.value.deps)
      ensures r.None? ==> files == old(files)
    {
      hide CacheInv;
      var basename := Basename(filename);
      NamesAre(files);
      for i := 0 to |overridden|
        invariant forall o :: o in overridden[..i] ==> o.from != basename
      {
        assert overridden[..i + 1] == overridden[..i] + [overridden[i]];
        if overridden[i].from == basename {
          FirstOverride(overridden, i, basename);
          r := Find(overridden[i].to);
          return;
        }
      }
      assert overridden[..|overridden|] == overridden;
      ReplaceIs(overridden, basename);
      r := Find(basename);
      if r == None {
        var selfId := ids.AllocateId();
        var deps := EditBuffer(needed);
        DepIdsExist(files, overridden, needed);
        if deps.Some? {
          assert DepsFor(files, overridden, needed, deps.value);
          var cached := CachedFile(basename, selfId, deps.value);
          DepsAreEarlier(files, old(ids.last), overridden, needed, cached);
          files := files + [cached];
          r := Some(cached);
        } else {
          CacheGrows(files, old(ids.last), ids.last);
        }
      }
    }

    /** The files of one load, in order. A cache in which every file has the dependencies that needs tells
        stays one, as long as needs tells what the files of the list need. */
    method AddAll(list: seq<Dependency>, disk: Disk, ghost needs: map<string, seq<string>>) returns (r: Option<seq<CachedFile>>)
      requires Valid() && forall i :: 0 <= i < |list| ==> list[i].found in disk
      modifies this`files, ids
      ensures Valid() && (old(Coherent(files, overridden, needs)) && Known(disk, needs, list) ==> Coherent(files, overridden, needs))
      ensures r.Some? <==> AllAddable(Names(old(files)), overridden, disk, list)
      ensures r.Some? ==> |r.value| == |list| && forall i :: 0 <= i < |list| ==> r.value[i] in files && r.value[i].basename == Replace(overridden, Basename(list[i].found))
      ensures old(files) <= files
    {
      hide CacheInv, Coherent, AllAddable, Addable, AddedTo, Known;
      ghost var coherent := Coherent(files, overridden, needs) && Known(disk, needs, list);
      var out := [];
      assert list[0..] == list;
      for i := 0 to |list|
        invariant Valid() && (coherent ==> Coherent(files, overridden, needs)) && old(files) <= files && |out| == i
        invariant AllAddable(Names(old(files)), overridden, disk, list) <==> AllAddable(Names(files), overridden, disk, list[i..])
        invariant forall j :: 0 <= j < i ==> out[j] in files && out[j].basename == Replace(overridden, Basename(list[j].found))
      {
        ghost var files0 := files;
        assert list[i..][0] == list[i] && list[i..][1..] == list[i + 1..];
        AllAddableUnfolds(Names(files), overridden, disk, list[i..]);
        var c := Add(list[i].found, disk[list[i].found].needed);
        if c == None {
          return None;
        }
        AddableFacts(files0, overridden, list[i].found, disk[list[i].found].needed);
        AddedNames(files0, overridden, list[i].found, disk[list[i].found].needed, files, c.value);
        if coherent {
          KnownAt(disk, needs, list, i);
          CoherentGrows(files0, overridden, needs, list[i].found, disk[list[i].found].needed, files, c.value);
        }
        assert forall x :: x in files0 ==> x in files;
        out := out + [c.value];
      }
      assert list[|list|..] == [];
      AllAddableUnfolds(Names(files), overridden, disk, []);
      r := Some(out);
    }
  }

  /** needs tells what the files of the list need. */
  ghost predicate Known(disk: Disk, needs: map<string, seq<string>>, list: seq<Dependency>) {
    forall i :: 0 <= i < |list| && list[i].found in disk ==>
      Basename(list[i].found) in needs && needs[Basename(list[i].found)] == disk[list[i].found].needed
  }

  lemma AddableFacts(files: seq<CachedFile>, ov: seq<Override>, filename: string, needed: seq<string>)
    requires Addable(Names(files), ov, filename, needed)
    ensures IsFrom(ov, Basename(filename)) ==> HasName(files, Replace(ov, Basename(filename)))
  {
  }

  lemma NamesAre(files: seq<CachedFile>)
    ensures forall n :: n in Names(files) <==> HasName(files, n)
  {
  }

  lemma CacheGrows(files: seq<CachedFile>, last: nat, last': nat)
    requires CacheInv(files, last) && last <= last'
    ensures CacheInv(files, last')
  {
  }

  lemma AllAddableUnfolds(names: set<string>, ov: seq<Override>, disk: Disk, list: seq<Dependency>)
    ensures AllAddable(names, ov, disk, list) <==>
              list == [] ||
              (&& list[0].found in disk && Addable(names, ov, list[0].found, disk[list[0].found].needed)
               && AllAddable(names + {Replace(ov, Basename(list[0].found))}, ov, disk, list[1..]))
  {
  }

  lemma FirstOverride(ov: seq<Override>, i: nat, name: string)
    requires i < |ov| && ov[i].from == name && OverridesOk(ov) && forall o :: o in ov[..i] ==> o.from != name
    ensures IsFrom(ov, name) && Replace(ov, name) == ov[i].to
  {
    assert ov[i] in ov;
    SkipOverrides(ov, i, name);
    ReplaceIs(ov[i + 1..], ov[i].to);
    assert forall o :: o in ov[i + 1..] ==> o in ov;
    assert ov[i..][0] == ov[i] && ov[i..][1..] == ov[i + 1..];
  }

  lemma {:induction false} SkipOverrides(ov: seq<Override>, i: nat, name: string)
    requires i <= |ov| && forall o :: o in ov[..i] ==> o.from != name
    ensures Replace(ov, name) == Replace(ov[i..], name)
  {
    if i > 0 {
      assert ov[..i] == ov[..i - 1] + [ov[i - 1]];
      SkipOverrides(ov, i - 1, name);
      assert ov[i - 1..][0] == ov[i - 1] && ov[i - 1..][1..] == ov[i..];
    } else {
      assert ov[0..] == ov;
    }
  }

  lemma KnownAt(disk: Disk, needs: map<string, seq<string>>, list: seq<Dependency>, i: nat)
    requires Known(disk, needs, list) && i < |list| && list[i].found in disk
    ensures Basename(list[i].found) in needs && needs[Basename(list[i].found)] == disk[list[i].found].needed
  {
  }

  lemma AddedNames(files: seq<CachedFile>, ov: seq<Override>, filename: string, needed: seq<string>, files': seq<CachedFile>, c: CachedFile)
    requires AddedTo(files, ov, filename, needed, files', c) && OverridesOk(ov)
    requires IsFrom(ov, Basename(filename)) ==> HasName(files, Replace(ov, Basename(filename)))
    ensures files <= files' && c in files' && c.basename == Replace(ov, Basename(filename))
    ensures Names(files') == Names(files) + {Replace(ov, Basename(filename))}
  {
    NamesAre(files);
    NamesAre(files');
    ReplaceIs(ov, Basename(filename));
    if !HasName(files, c.basename) {
      forall n ensures n in Names(files') <==> n in Names(files) || n == c.basename {
        assert HasName(files', c.basename);
        if HasName(files, n) {
          var x :| x in files && x.basename == n;
          assert x in files';
        }
      }
    }
  }

  lemma CoherentGrows(files: seq<CachedFile>, ov: seq<Override>, needs: map<string, seq<string>>,
                      filename: string, needed: seq<string>, files': seq<CachedFile>, c: CachedFile)
    requires Coherent(files, ov, needs) && AddedTo(files, ov, filename, needed, files', c) && OverridesOk(ov)
    requires Basename(filename) in needs && needs[Basename(filename)] == needed
    requires IsFrom(ov, Basename(filename)) ==> HasName(files, Replace(ov, Basename(filename)))
    ensures Coherent(files', ov, needs)
  {
    ReplaceIs(ov, Basename(filename));
    if !HasName(files, c.basename) {
      forall x | x in files' ensures x.basename in needs && DepIds(files', ov, needs[x.basename]) == Some(x.deps) {
        DepIdsGrow(files, [c], ov, needs[x.basename]);
      }
    }
  }
}
