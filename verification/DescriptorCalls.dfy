/** The descriptor calls: open, dup, dup2, close, calls on an open descriptor, and what fork and exit do. */
module DescriptorCalls {
  import opened FileDescriptors

  /** Host: what the host's own open answered. */
  datatype Errno = ENOENT | EBADF | EMFILE | Host(errno: int)
  datatype Result = Fd(fd: CInt) | Error(err: Errno)

  const RANDOM_DEVICES: set<string> := {"/dev/random", "/dev/urandom", "/dev/srandom"}

  /** CheckFdExists: with usable, a descriptor being closed does not count. */
  predicate FdExists(d: Descriptors, p: nat, fd: CInt, usable: bool) {
    HasFd(d, p, fd) && (!usable || !d.tables[p][fd].closing)
  }

  /** fd is the least free descriptor, or -1 when all MAX_FDS are taken. */
  ghost predicate LeastFree(files: OpenFiles, fd: CInt) {
    if fd == -1 then forall n :: 0 <= n < MAX_FDS ==> n in files
    else 0 <= fd < MAX_FDS && fd !in files && forall n :: 0 <= n < fd ==> n in files
  }

  /** The state after dup2 and its answer; result is what the file's own Close returns. */
  ghost predicate Dup2To(d: Descriptors, p: nat, oldfd: CInt, newfd: CInt, result: int, r: Result, d': Descriptors) {
    if !FdExists(d, p, oldfd, true) || newfd > MAX_FDS then r == Error(EBADF) && d' == d
    else if oldfd == newfd then r == Fd(newfd) && d' == d
    else
      && d.tables[p][oldfd].file in d.files && (HasFd(d, p, newfd) ==> d.tables[p][newfd].file in d.files)
      && var closes := FdExists(d, p, newfd, true);
      && var d1 := if closes then Closed(d, p, newfd) else d;
      if closes && d.files[d.tables[p][newfd].file].fdCount == 1 && result != 0 then r == Error(EBADF) && d' == d1
      else if HasFd(d1, p, newfd) then r == Error(EBADF) && d' == d1
      else r == Fd(newfd) && d.tables[p][oldfd].file in d1.files && d' == Added(d1, p, newfd, d.tables[p][oldfd].file)
  }

  /** dup2 finds fd free, or can close it at once. */
  predicate Vacates(d: Descriptors, p: nat, fd: CInt, result: int) {
    HasFd(d, p, fd) ==>
      var fu := d.tables[p][fd];
      !fu.closing && fu.count == 0 && fu.file in d.files && (d.files[fu.file].fdCount == 1 ==> result == 0)
  }

  class DescriptorTables {
    var tables: map<nat, OpenFiles>
    var files: map<nat, UnixFd>

    function D(): Descriptors
      reads this
    {
      Descriptors(tables, files)
    }

    ghost predicate Valid()
      reads this
    {
      CountsRight(D())
    }

    constructor ()
      ensures Valid() && Once(D()) && tables == map[] && files == map[]
    {
      tables, files := map[], map[];
    }

    method AllocateFd(p: nat) returns (fd: CInt)
      requires p in tables
      ensures LeastFree(tables[p], fd)
    {
      for n := 0 to MAX_FDS
        invariant forall k :: 0 <= k < n ==> k in tables[p]
      {
        if n !in tables[p] {
          return n;
        }
      }
      fd := -1;
    }

    /** open: file is a number that no file has had; hostError is 0 when the host opens the path, and else
        its errno, which random devices never ask for. */
    method Open(p: nat, path: string, file: nat, hostError: int) returns (r: Result)
      requires Valid() && p in tables && file !in files
      modifies this
      ensures Valid() && (old(Once(D())) ==> Once(D()))
      ensures match r
        case Fd(fd) =>
          && path != "" && (path in RANDOM_DEVICES || hostError == 0)
          && LeastFree(old(tables)[p], fd) && fd != -1 && D() == Opened(old(D()), p, fd, file)
        case Error(err) =>
          && D() == old(D())
          && err == (if path == "" then ENOENT else if LeastFree(old(tables)[p], -1) then EMFILE else Host(hostError))
          && (err.Host? ==> path !in RANDOM_DEVICES && hostError != 0)
    {
      hide CountsRight, Once;
      if path == "" {
        return Error(ENOENT);
      }
      var fd := AllocateFd(p);
      if fd == -1 {
        return Error(EMFILE);
      }
      if path !in RANDOM_DEVICES && hostError != 0 {
        return Error(Host(hostError));
      }
      OpenedKeeps(D(), p, fd, file);
      assert files[file := UnixFd(0, 0)][file := UnixFd(1, 0)] == files[file := UnixFd(1, 0)];
      files := files[file := UnixFd(1, 0)];
      tables := tables[p := With(tables[p], fd, FileUsage(file, 0, false))];
      r := Fd(fd);
    }

    method Dup(p: nat, oldfd: CInt) returns (r: Result)
      requires Valid() && p in tables
      modifies this
      ensures Valid() && (old(Once(D())) ==> Once(D()))
      ensures if r.Fd? then
                && FdExists(old(D()), p, oldfd, true) && LeastFree(old(tables)[p], r.fd) && r.fd != -1
                && old(tables)[p][oldfd].file in old(files) && D() == Added(old(D()), p, r.fd, old(tables)[p][oldfd].file)
              else
                && r.err == (if FdExists(old(D()), p, oldfd, true) then EMFILE else EBADF)
                && (r.err == EMFILE ==> LeastFree(old(tables)[p], -1)) && D() == old(D())
    {
      hide CountsRight, Once, Entries;
      if !FdExists(D(), p, oldfd, true) {
        return Error(EBADF);
      }
      var fd := AllocateFd(p);
      if fd == -1 {
        return Error(EMFILE);
      }
      EntryFacts(D(), p, oldfd);
      var file := tables[p][oldfd].file;
      AddedKeeps(D(), p, fd, file);
      if Once(D()) {
        UsableNotClosed(D(), p, oldfd);
        AddedOnce(D(), p, fd, file);
      }
      AddEntry(p, fd, file);
      r := Fd(fd);
    }

    /** IncFdCount and a new table entry. */
    method AddEntry(p: nat, fd: CInt, file: nat)
      requires p in tables && file in files
      modifies this
      ensures D() == Added(old(D()), p, fd, file)
    {
      files := files[file := files[file].(fdCount := files[file].fdCount + 1)];
      tables := tables[p := With(tables[p], fd, FileUsage(file, 0, false))];
    }

    /** The entry goes, and with it its share of the count. */
    method RemoveEntry(p: nat, fd: CInt)
      requires HasFd(D(), p, fd) && tables[p][fd].file in files
      modifies this
      ensures D() == Removed(old(D()), p, fd)
    {
      var file := tables[p][fd].file;
      tables := tables[p := tables[p] - {fd}];
      files := files[file := files[file].(fdCount := files[file].fdCount - 1)];
    }

    /** dce_close: 0, or what the file's own Close returned. */
    method Close(p: nat, fd: CInt, result: int) returns (retval: int, r: Result)
      requires Valid() && p in tables
      modifies this
      ensures Valid()
      ensures !HasFd(old(D()), p, fd) ==> r == Error(EBADF) && retval == -1 && D() == old(D())
      ensures HasFd(old(D()), p, fd) ==>
                && r == Fd(fd) && old(tables)[p][fd].file in old(files) && D() == Closed(old(D()), p, fd)
                && retval == (if old(files)[old(tables)[p][fd].file].fdCount == 1 then result else 0)
      ensures old(Once(D())) && HasFd(old(D()), p, fd) ==> (Once(D()) <==> old(files)[old(tables)[p][fd].file].closes == 0)
    {
      hide CountsRight, Once, Entries;
      if fd !in tables[p] {
        return -1, Error(EBADF);
      }
      EntryFacts(D(), p, fd);
      ClosedKeeps(D(), p, fd);
      if Once(D()) {
        ClosedOnceMore(D(), p, fd);
      }
      retval := 0;
      var fu := tables[p][fd];
      if files[fu.file].fdCount == 1 {
        files := files[fu.file := files[fu.file].(closes := files[fu.file].closes + 1)];
        retval := result;
      }
      if fu.count == 0 {
        RemoveEntry(p, fd);
      } else {
        tables := tables[p := With(tables[p], fd, fu.(closing := true))];
      }
      r := Fd(fd);
    }

    method Dup2(p: nat, oldfd: CInt, newfd: CInt, result: int) returns (r: Result)
      requires Valid() && p in tables
      modifies this
      ensures Valid() && Dup2To(old(D()), p, oldfd, newfd, result, r, D())
      ensures r.Fd? <==> FdExists(old(D()), p, oldfd, true) && newfd <= MAX_FDS && (oldfd == newfd || Vacates(old(D()), p, newfd, result))
      ensures r == if r.Fd? then Fd(newfd) else Error(EBADF)
      ensures r.Fd? && oldfd != newfd ==> HasFd(D(), p, newfd) && tables[p][newfd] == FileUsage(old(tables)[p][oldfd].file, 0, false)
      ensures oldfd == newfd ==> D() == old(D())
      ensures old(Once(D())) ==> Once(D())
    {
      hide CountsRight, Once, Entries;
      if !FdExists(D(), p, oldfd, true) || newfd > MAX_FDS {
        return Error(EBADF);
      }
      EntryFacts(D(), p, oldfd);
      if oldfd == newfd {
        return Fd(newfd);
      }
      if HasFd(D(), p, newfd) {
        EntryFacts(D(), p, newfd);
      }
      if Once(D()) {
        UsableNotClosed(D(), p, oldfd);
      }
      if FdExists(D(), p, newfd, true) {
        if Once(D()) {
          UsableNotClosed(D(), p, newfd);
        }
        var retval, closed := Close(p, newfd, result);
        if retval != 0 {
          return Error(EBADF);
        }
      }
      if HasFd(D(), p, newfd) {
        return Error(EBADF);
      }
      var file := tables[p][oldfd].file;
      assert HasFd(D(), p, oldfd);
      EntryFacts(D(), p, oldfd);
      AddedKeeps(D(), p, newfd, file);
      if Once(D()) {
        UsableNotClosed(D(), p, oldfd);
        AddedOnce(D(), p, newfd, file);
      }
      AddEntry(p, newfd, file);
      r := Fd(newfd);
    }

    /** The first half of any call on an open descriptor. */
    method BeginUse(p: nat, fd: CInt) returns (r: Result)
      requires Valid() && p in tables
      modifies this
      ensures Valid() && (old(Once(D())) ==> Once(D()))
      ensures if FdExists(old(D()), p, fd, true) then r == Fd(fd) && D() == Entered(old(D()), p, fd)
              else r == Error(EBADF) && D() == old(D())
    {
      hide CountsRight, Once, Entries;
      if !FdExists(D(), p, fd, true) {
        return Error(EBADF);
      }
      EntryFacts(D(), p, fd);
      var fu := tables[p][fd].(count := tables[p][fd].count + 1);
      UsageKeeps(D(), p, fd, fu);
      tables := tables[p := With(tables[p], fd, fu)];
      r := Fd(fd);
    }

    /** The second half: the last thread out of an entry being closed removes it. */
    method EndUse(p: nat, fd: CInt)
      requires Valid() && HasFd(D(), p, fd) && tables[p][fd].count > 0
      modifies this
      ensures Valid() && old(tables)[p][fd].file in old(files) && D() == Left(old(D()), p, fd)
      ensures old(Once(D())) ==> (Once(D()) <==> !LeavesUnclosed(old(D()), p, fd))
    {
      hide CountsRight, Once, Entries;
      EntryFacts(D(), p, fd);
      LeftKeeps(D(), p, fd);
      if Once(D()) {
        LeftOnce(D(), p, fd);
      }
      var fu := tables[p][fd].(count := tables[p][fd].count - 1);
      if fu.count == 0 && fu.closing {
        RemoveEntry(p, fd);
      } else {
        tables := tables[p := With(tables[p], fd, fu)];
      }
    }

    /** The descriptor part of fork. */
    method Fork(p: nat, child: nat)
      requires Valid() && p in tables && child !in tables
      modifies this
      ensures Valid() && D() == Forked(old(D()), p, child)
      ensures old(Once(D())) ==> (Once(D()) <==> NoneClosed(old(D()), p))
    {
      hide CountsRight, Once, Entries, SharedBut, NoneClosed, FdsOf;
      ghost var d := D();
      NewTable(d, child);
      tables := tables[child := map[]];
      var rest := tables[p].Items;
      ShareStarts(d.tables[p]);
      while rest != {}
        invariant Valid() && rest <= d.tables[p].Items && SameCloses(d, D())
        invariant tables == d.tables[child := SharedBut(d.tables[p], rest)]
        decreases rest
      {
        var i :| i in rest;
        ghost var rest0 := rest;
        rest := rest - {i};
        assert HasFd(D(), p, i.0);
        EntryFacts(D(), p, i.0);
        ShareStep(d.tables[p], rest0, i);
        AddedKeeps(D(), child, i.0, i.1.file);
        AddEntry(child, i.0, i.1.file);
      }
      ShareEnds(d.tables[p]);
      ForkedIs(d, p, child, D());
      if Once(d) {
        ForkedOnce(d, p, child);
      }
    }

    /** The descriptor part of a normal exit: usage counts are dropped, then every descriptor is closed. */
    method Exit(p: nat)
      requires Valid() && p in tables
      modifies this
      ensures Valid() && D() == Exited(old(D()), p)
      ensures old(Once(D())) ==> (Once(D()) <==> NoneClosed(old(D()), p))
    {
      hide CountsRight, Once, Entries, Only, NoneClosed, FdsOf, OpenElsewhere, ClosesWithLast, Closed;
      ghost var d := D();
      var rest := tables[p].Items;
      OnlyAll(d.tables[p]);
      NothingClosed(d);
      while rest != {}
        invariant Valid() && rest <= d.tables[p].Items && ClosesWithLast(d, D())
        invariant tables == d.tables[p := Only(d.tables[p], rest)]
        decreases rest
      {
        var i :| i in rest;
        OnlyStep(d.tables[p], rest, i);
        rest := rest - {i};
        ghost var d1 := D();
        assert HasFd(D(), p, i.0);
        EntryFacts(D(), p, i.0);
        ForcedClose(D(), p, i.0);
        tables := tables[p := With(tables[p], i.0, i.1.(count := 0))];
        var retval, r := Close(p, i.0, 0);
        ClosesAdd(d, d1, D());
      }
      ExitedIs(d, p, D());
      if Once(d) {
        ExitedOnce(d, p);
      }
    }

    /** The descriptor part of a stop by the simulator: the entries are deleted without closing. */
    method StopProcess(p: nat)
      requires Valid() && p in tables
      modifies this
      ensures Valid() && D() == Stopped(old(D()), p)
      ensures old(Once(D())) ==> (Once(D()) <==> MayStop(old(D()), p))
    {
      hide CountsRight, Once, Entries, OpenElsewhere, Only, MayStop, FdsOf;
      ghost var d := D();
      var rest := tables[p].Items;
      OnlyAll(d.tables[p]);
      while rest != {}
        invariant Valid() && rest <= d.tables[p].Items && SameCloses(d, D())
        invariant tables == d.tables[p := Only(d.tables[p], rest)]
        decreases rest
      {
        var i :| i in rest;
        OnlyStep(d.tables[p], rest, i);
        rest := rest - {i};
        assert HasFd(D(), p, i.0);
        RemovedKeeps(D(), p, i.0);
        RemoveEntry(p, i.0);
      }
      StoppedIs(d, p, D());
      if Once(d) {
        StoppedOnce(d, p);
      }
    }
  }

  ghost predicate SameCloses(d: Descriptors, d': Descriptors) {
    d'.files.Keys == d.files.Keys && forall f :: f in d.files ==> d'.files[f].closes == d.files[f].closes
  }

  /** Entries have only gone, and each file whose last one went has been closed once more. */
  ghost predicate ClosesWithLast(d: Descriptors, d': Descriptors) {
    && d'.files.Keys == d.files.Keys
    && forall f {:trigger Entries(d'.tables, f)} :: f in d.files ==>
      && Entries(d'.tables, f) <= Entries(d.tables, f)
      && d'.files[f].closes == d.files[f].closes + if Entries(d.tables, f) != {} && Entries(d'.tables, f) == {} then 1 else 0
  }

  lemma NothingClosed(d: Descriptors)
    ensures ClosesWithLast(d, d)
  {
  }

  lemma ClosesAdd(d: Descriptors, d1: Descriptors, d2: Descriptors)
    requires ClosesWithLast(d, d1) && ClosesWithLast(d1, d2)
    ensures ClosesWithLast(d, d2)
  {
    hide Entries;
    forall f | f in d.files
      ensures Entries(d2.tables, f) <= Entries(d.tables, f)
      ensures d2.files[f].closes == d.files[f].closes + if Entries(d.tables, f) != {} && Entries(d2.tables, f) == {} then 1 else 0
    {
      assert Entries(d1.tables, f) <= Entries(d.tables, f) && Entries(d2.tables, f) <= Entries(d1.tables, f);
    }
  }

  /** Closing an entry whose count has been reset removes it. */
  lemma ForcedClose(d: Descriptors, p: nat, fd: CInt)
    requires CountsRight(d) && HasFd(d, p, fd)
    ensures var d1 := SetUsage(d, p, fd, d.tables[p][fd].(count := 0));
            && CountsRight(d1) && d.tables[p][fd].file in d.files
            && Closed(d1, p, fd).tables == d.tables[p := d.tables[p] - {fd}] && ClosesWithLast(d, Closed(d1, p, fd))
  {
    hide CountsRight, Entries, Closing;
    var f, d1 := d.tables[p][fd].file, SetUsage(d, p, fd, d.tables[p][fd].(count := 0));
    EntryFacts(d, p, fd);
    UsageKeeps(d, p, fd, d.tables[p][fd].(count := 0));
    LastEntry(d, p, fd);
    var d2 := Closed(d1, p, fd);
    assert With(d.tables[p], fd, d.tables[p][fd].(count := 0)) - {fd} == d.tables[p] - {fd};
    assert d2.tables == d.tables[p := d.tables[p] - {fd}];
    forall x | x in d.files
      ensures Entries(d2.tables, x) <= Entries(d.tables, x)
      ensures d2.files[x].closes == d.files[x].closes + if Entries(d.tables, x) != {} && Entries(d2.tables, x) == {} then 1 else 0
    {
      EntriesRemove(d.tables, p, fd, x);
      assert Entries(d2.tables, x) == Entries(d.tables, x) - {(p, fd)};
      assert x == f ==> (Entries(d2.tables, x) == {} <==> Entries(d.tables, x) == {(p, fd)});
    }
  }

  lemma ForkedIs(d: Descriptors, p: nat, child: nat, d': Descriptors)
    requires CountsRight(d) && CountsRight(d') && SameCloses(d, d') && p in d.tables && child !in d.tables
    requires d'.tables == d.tables[child := Shared(d.tables[p])]
    ensures d' == Forked(d, p, child)
  {
    hide Entries, FdsOf, Pairs, CountsRight;
    forall f | f in d.files ensures d'.files[f] == Forked(d, p, child).files[f] {
      FdCountIs(d, f);
      FdCountIs(d', f);
      ForkEntries(d.tables, p, child, f);
      PairsSize(child, FdsOf(d.tables[p], f));
    }
    assert d'.files == Forked(d, p, child).files;
  }

  lemma DroppedCount(d: Descriptors, p: nat, d': Descriptors, f: nat)
    requires CountsRight(d) && CountsRight(d') && p in d.tables && f in d.files && d'.files.Keys == d.files.Keys
    requires d'.tables == d.tables[p := map[]]
    ensures d'.files[f].fdCount == d.files[f].fdCount - |FdsOf(d.tables[p], f)|
  {
    hide Entries, FdsOf, Pairs, CountsRight;
    FdCountIs(d, f);
    FdCountIs(d', f);
    DropEntries(d.tables, p, f);
    PairsSize(p, FdsOf(d.tables[p], f));
  }

  lemma StoppedIs(d: Descriptors, p: nat, d': Descriptors)
    requires CountsRight(d) && CountsRight(d') && SameCloses(d, d') && p in d.tables
    requires d'.tables == d.tables[p := map[]]
    ensures d' == Stopped(d, p)
  {
    hide Entries, FdsOf, CountsRight;
    forall f | f in d.files ensures d'.files[f] == Stopped(d, p).files[f] {
      DroppedCount(d, p, d', f);
    }
    assert d'.files == Stopped(d, p).files;
  }

  lemma ExitedIs(d: Descriptors, p: nat, d': Descriptors)
    requires CountsRight(d) && CountsRight(d') && ClosesWithLast(d, d') && p in d.tables
    requires d'.tables == d.tables[p := map[]]
    ensures d' == Exited(d, p)
  {
    hide Entries, FdsOf, CountsRight, OpenElsewhere, Pairs;
    forall f | f in d.files ensures d'.files[f] == Exited(d, p).files[f] {
      DroppedCount(d, p, d', f);
      DropEntries(d.tables, p, f);
      PairsSize(p, FdsOf(d.tables[p], f));
      ElsewhereIs(d, p, f);
      assert Entries(d'.tables, f) <= Entries(d.tables, f);
    }
    assert d'.files == Exited(d, p).files;
  }

  /** The entries still to be dealt with. */
  function Only(files: OpenFiles, rest: set<(CInt, FileUsage)>): OpenFiles {
    map fd | fd in files && (fd, files[fd]) in rest :: files[fd]
  }

  lemma OnlyAll(files: OpenFiles)
    ensures Only(files, files.Items) == files && Only(files, {}) == map[]
  {
  }

  lemma OnlyStep(files: OpenFiles, rest: set<(CInt, FileUsage)>, i: (CInt, FileUsage))
    requires i in rest && rest <= files.Items
    ensures i.0 in Only(files, rest) && Only(files, rest)[i.0] == i.1 && i.0 in files && files[i.0] == i.1
    ensures Only(files, rest - {i}) == Only(files, rest) - {i.0}
    ensures forall fu :: With(Only(files, rest), i.0, fu) - {i.0} == Only(files, rest) - {i.0}
  {
  }

  /** The entries the child has when those in rest are still to come. */
  function SharedBut(files: OpenFiles, rest: set<(CInt, FileUsage)>): OpenFiles {
    map fd | fd in files && (fd, files[fd]) !in rest :: FileUsage(files[fd].file, 0, false)
  }

  lemma ShareStarts(files: OpenFiles)
    ensures SharedBut(files, files.Items) == map[]
  {
    assert forall fd :: fd in files ==> (fd, files[fd]) in files.Items;
  }

  lemma ShareEnds(files: OpenFiles)
    ensures SharedBut(files, {}) == Shared(files)
  {
  }

  lemma ShareStep(files: OpenFiles, rest: set<(CInt, FileUsage)>, i: (CInt, FileUsage))
    requires i in rest && rest <= files.Items
    ensures i.0 in files && files[i.0] == i.1 && i.0 !in SharedBut(files, rest)
    ensures SharedBut(files, rest - {i}) == With(SharedBut(files, rest), i.0, FileUsage(i.1.file, 0, false))
  {
  }

  lemma NewTable(d: Descriptors, child: nat)
    requires CountsRight(d) && child !in d.tables
    ensures CountsRight(d.(tables := d.tables[child := map[]]))
  {
    var d' := d.(tables := d.tables[child := map[]]);
    forall f ensures Entries(d'.tables, f) == Entries(d.tables, f) {
    }
    forall q, fd | HasFd(d', q, fd) ensures HasFd(d, q, fd) {
    }
  }
}
