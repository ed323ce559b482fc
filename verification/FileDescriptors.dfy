/** Descriptor tables of all processes and the files behind them. Every table entry counts once in its
    file's fdCount; the file is closed when the last entry goes. */
module FileDescriptors {
  import opened FiniteSets

  /** A C int. */
  type CInt = x: int | -0x8000_0000 <= x < 0x8000_0000

  /** One table entry: count is the number of threads inside a call on it, closing that close was called
      meanwhile. */
  datatype FileUsage = FileUsage(file: nat, count: int, closing: bool)
  /** closes is the number of times Close was called on the file. */
  datatype UnixFd = UnixFd(fdCount: int, closes: nat)
  type OpenFiles = map<CInt, FileUsage>
  datatype Descriptors = Descriptors(tables: map<nat, OpenFiles>, files: map<nat, UnixFd>)

  const MAX_FDS := 1024

  predicate HasFd(d: Descriptors, p: nat, fd: CInt) {
    p in d.tables && fd in d.tables[p]
  }

  /** The table entries that refer to file f. */
  ghost function Entries(tables: map<nat, OpenFiles>, f: nat): set<(nat, CInt)> {
    set p, fd | p in tables && fd in tables[p] && tables[p][fd].file == f :: (p, fd)
  }

  /** fdCount is the number of entries, in every process. */
  ghost predicate CountsRight(d: Descriptors) {
    && (forall p, fd {:trigger HasFd(d, p, fd)} :: HasFd(d, p, fd) ==> d.tables[p][fd].file in d.files && d.tables[p][fd].count >= 0)
    && (forall f :: f in d.files ==> d.files[f].fdCount == |Entries(d.tables, f)|)
  }

  /** The entries of file f that are being closed. */
  ghost function Closing(tables: map<nat, OpenFiles>, f: nat): set<(nat, CInt)> {
    set p, fd | p in tables && fd in tables[p] && tables[p][fd].file == f && tables[p][fd].closing :: (p, fd)
  }

  /** A file without entries has been closed, once. One that has entries has not been closed yet, or once
      already when the only entry left is being closed and waits for the threads inside. */
  ghost predicate ClosedOnce(d: Descriptors, f: nat)
    requires f in d.files
  {
    var closes, entries := d.files[f].closes, Entries(d.tables, f);
    if entries == {} then closes == 1
    else closes == 0 || (closes == 1 && |entries| == 1 && entries == Closing(d.tables, f))
  }

  ghost predicate Once(d: Descriptors) {
    forall f :: f in d.files ==> ClosedOnce(d, f)
  }

  /** No entry is being closed. */
  ghost predicate NoneClosing(d: Descriptors) {
    forall p, fd {:trigger HasFd(d, p, fd)} :: HasFd(d, p, fd) ==> !d.tables[p][fd].closing
  }

  // ---------------------------------------------------------------- the steps, as functions

  function With(files: OpenFiles, fd: CInt, fu: FileUsage): OpenFiles {
    files[fd := fu]
  }

  function SetUsage(d: Descriptors, p: nat, fd: CInt, fu: FileUsage): Descriptors
    requires p in d.tables
  {
    d.(tables := d.tables[p := With(d.tables[p], fd, fu)])
  }

  /** IncFdCount and a new FileUsage. */
  function Added(d: Descriptors, p: nat, fd: CInt, f: nat): Descriptors
    requires p in d.tables && f in d.files
  {
    SetUsage(d, p, fd, FileUsage(f, 0, false)).(files := d.files[f := d.files[f].(fdCount := d.files[f].fdCount + 1)])
  }

  /** The entry erased and its FileUsage deleted, whose destructor counts down. */
  function Removed(d: Descriptors, p: nat, fd: CInt): Descriptors
    requires HasFd(d, p, fd) && d.tables[p][fd].file in d.files
  {
    var f := d.tables[p][fd].file;
    Descriptors(d.tables[p := d.tables[p] - {fd}], d.files[f := d.files[f].(fdCount := d.files[f].fdCount - 1)])
  }

  /** dce_close on an entry that exists. */
  function Closed(d: Descriptors, p: nat, fd: CInt): Descriptors
    requires HasFd(d, p, fd) && d.tables[p][fd].file in d.files
  {
    var fu := d.tables[p][fd];
    var d1 := if d.files[fu.file].fdCount == 1 then d.(files := d.files[fu.file := d.files[fu.file].(closes := d.files[fu.file].closes + 1)]) else d;
    if fu.count == 0 then Removed(d1, p, fd) else SetUsage(d1, p, fd, fu.(closing := true))
  }

  /** A file opened under a number no file had before. */
  function Opened(d: Descriptors, p: nat, fd: CInt, f: nat): Descriptors
    requires p in d.tables
  {
    Added(d.(files := d.files[f := UnixFd(0, 0)]), p, fd, f)
  }

  /** A thread enters a call on fd. */
  function Entered(d: Descriptors, p: nat, fd: CInt): Descriptors
    requires HasFd(d, p, fd)
  {
    SetUsage(d, p, fd, d.tables[p][fd].(count := d.tables[p][fd].count + 1))
  }

  /** It leaves; the last to leave an entry being closed removes it. */
  function Left(d: Descriptors, p: nat, fd: CInt): Descriptors
    requires HasFd(d, p, fd) && d.tables[p][fd].file in d.files
  {
    var fu := d.tables[p][fd].(count := d.tables[p][fd].count - 1);
    if fu.count == 0 && fu.closing then Removed(d, p, fd) else SetUsage(d, p, fd, fu)
  }

  /** The descriptors by which files refers to f. */
  ghost function FdsOf(files: OpenFiles, f: nat): set<CInt> {
    set fd | fd in files && files[fd].file == f
  }

  /** Some other process than p has f open. */
  ghost predicate OpenElsewhere(d: Descriptors, p: nat, f: nat) {
    exists q, fd :: HasFd(d, q, fd) && q != p && d.tables[q][fd].file == f
  }

  function Shared(files: OpenFiles): OpenFiles {
    map fd | fd in files :: FileUsage(files[fd].file, 0, false)
  }

  /** fork: the child has every descriptor of its parent, those being closed as well. */
  ghost function Forked(d: Descriptors, p: nat, child: nat): Descriptors
    requires p in d.tables
  {
    Descriptors(d.tables[child := Shared(d.tables[p])],
      map f | f in d.files :: d.files[f].(fdCount := d.files[f].fdCount + |FdsOf(d.tables[p], f)|))
  }

  /** Normal exit: every entry of the process is closed, and Close runs on files that nobody else has. */
  ghost function Exited(d: Descriptors, p: nat): Descriptors
    requires p in d.tables
  {
    Descriptors(d.tables[p := map[]],
      map f | f in d.files :: UnixFd(d.files[f].fdCount - |FdsOf(d.tables[p], f)|,
        d.files[f].closes + if FdsOf(d.tables[p], f) != {} && !OpenElsewhere(d, p, f) then 1 else 0))
  }

  /** Stopped by the simulator: the entries go, nothing is closed. */
  ghost function Stopped(d: Descriptors, p: nat): Descriptors
    requires p in d.tables
  {
    Descriptors(d.tables[p := map[]],
      map f | f in d.files :: d.files[f].(fdCount := d.files[f].fdCount - |FdsOf(d.tables[p], f)|))
  }

  // ---------------------------------------------------------------- what each step keeps

  lemma EntryFacts(d: Descriptors, p: nat, fd: CInt)
    requires CountsRight(d) && HasFd(d, p, fd)
    ensures d.tables[p][fd].file in d.files && d.tables[p][fd].count >= 0
    ensures (p, fd) in Entries(d.tables, d.tables[p][fd].file)
    ensures (p, fd) in Closing(d.tables, d.tables[p][fd].file) <==> d.tables[p][fd].closing
  {
  }

  lemma EntriesAdd(tables: map<nat, OpenFiles>, p: nat, fd: CInt, fu: FileUsage, f: nat)
    requires p in tables && fd !in tables[p] && !fu.closing
    ensures Entries(tables[p := With(tables[p], fd, fu)], f) == Entries(tables, f) + (if fu.file == f then {(p, fd)} else {})
    ensures Closing(tables[p := With(tables[p], fd, fu)], f) == Closing(tables, f)
    ensures (p, fd) !in Entries(tables, f) && Closing(tables, f) <= Entries(tables, f)
  {
  }

  lemma EntriesSame(tables: map<nat, OpenFiles>, p: nat, fd: CInt, fu: FileUsage, f: nat)
    requires p in tables && fd in tables[p] && tables[p][fd].file == fu.file
    ensures Entries(tables[p := With(tables[p], fd, fu)], f) == Entries(tables, f)
    ensures Closing(tables[p := With(tables[p], fd, fu)], f)
         == Closing(tables, f) - {(p, fd)} + (if fu.file == f && fu.closing then {(p, fd)} else {})
    ensures (p, fd) in Closing(tables, f) <==> fu.file == f && tables[p][fd].closing
  {
  }

  lemma EntriesRemove(tables: map<nat, OpenFiles>, p: nat, fd: CInt, f: nat)
    requires p in tables && fd in tables[p]
    ensures Entries(tables[p := tables[p] - {fd}], f) == Entries(tables, f) - {(p, fd)}
    ensures Closing(tables[p := tables[p] - {fd}], f) == Closing(tables, f) - {(p, fd)}
    ensures (p, fd) in Entries(tables, f) <==> tables[p][fd].file == f
    ensures Closing(tables, f) <= Entries(tables, f)
  {
  }

  lemma AddedKeeps(d: Descriptors, p: nat, fd: CInt, f: nat)
    requires CountsRight(d) && p in d.tables && fd !in d.tables[p] && f in d.files
    ensures CountsRight(Added(d, p, fd, f))
  {
    hide Entries, Closing;
    var d' := Added(d, p, fd, f);
    forall x: nat | x in d'.files ensures d'.files[x].fdCount == |Entries(d'.tables, x)| {
      EntriesAdd(d.tables, p, fd, FileUsage(f, 0, false), x);
    }
    forall q: nat, n: CInt | HasFd(d', q, n) ensures (q, n) == (p, fd) || HasFd(d, q, n) {
    }
  }

  /** A new entry is harmless exactly for a file that has not been closed. */
  lemma AddedOnce(d: Descriptors, p: nat, fd: CInt, f: nat)
    requires Once(d) && p in d.tables && fd !in d.tables[p] && f in d.files
    ensures Once(Added(d, p, fd, f)) <==> d.files[f].closes == 0
  {
    hide Entries, Closing;
    var d' := Added(d, p, fd, f);
    forall x: nat | x in d.files ensures ClosedOnce(d', x) <==> x != f || d.files[f].closes == 0 {
      EntriesAdd(d.tables, p, fd, FileUsage(f, 0, false), x);
      assert ClosedOnce(d, x);
      if x == f {
        assert (p, fd) in Entries(d'.tables, f) && (p, fd) !in Closing(d'.tables, f);
      }
    }
  }

  /** A file with an entry that is not being closed is still open. */
  lemma UsableNotClosed(d: Descriptors, p: nat, fd: CInt)
    requires CountsRight(d) && Once(d) && HasFd(d, p, fd) && !d.tables[p][fd].closing
    ensures d.tables[p][fd].file in d.files && d.files[d.tables[p][fd].file].closes == 0
  {
    hide Entries, Closing;
    EntryFacts(d, p, fd);
    assert ClosedOnce(d, d.tables[p][fd].file);
  }

  lemma OpenedKeeps(d: Descriptors, p: nat, fd: CInt, f: nat)
    requires CountsRight(d) && p in d.tables && fd !in d.tables[p] && f !in d.files
    ensures CountsRight(Opened(d, p, fd, f))
    ensures Once(d) ==> Once(Opened(d, p, fd, f))
  {
    hide Entries, Closing;
    var d1, d' := d.(files := d.files[f := UnixFd(0, 0)]), Opened(d, p, fd, f);
    NoEntries(d, f);
    forall x, n | HasFd(d1, x, n) ensures HasFd(d, x, n) {
    }
    assert CountsRight(d1);
    AddedKeeps(d1, p, fd, f);
    if Once(d) {
      forall x: nat | x in d'.files ensures ClosedOnce(d', x) {
        EntriesAdd(d.tables, p, fd, FileUsage(f, 0, false), x);
        assert x in d.files ==> ClosedOnce(d, x);
      }
    }
  }

  lemma NoEntries(d: Descriptors, f: nat)
    requires CountsRight(d) && f !in d.files
    ensures Entries(d.tables, f) == {}
  {
    forall p: nat, fd | p in d.tables && fd in d.tables[p] ensures d.tables[p][fd].file != f {
      assert HasFd(d, p, fd);
    }
  }

  /** Closes may have been counted at the same time; only the entry goes. */
  lemma RemovedKeeps(d: Descriptors, p: nat, fd: CInt)
    requires CountsRight(d) && HasFd(d, p, fd)
    ensures d.tables[p][fd].file in d.files && CountsRight(Removed(d, p, fd))
  {
    hide Entries, Closing;
    EntryFacts(d, p, fd);
    var d' := Removed(d, p, fd);
    forall x: nat | x in d'.files ensures d'.files[x].fdCount == |Entries(d'.tables, x)| {
      EntriesRemove(d.tables, p, fd, x);
    }
    forall q, n | HasFd(d', q, n) ensures HasFd(d, q, n) && d'.tables[q][n] == d.tables[q][n] {
    }
  }

  lemma UsageKeeps(d: Descriptors, p: nat, fd: CInt, fu: FileUsage)
    requires CountsRight(d) && HasFd(d, p, fd) && fu.file == d.tables[p][fd].file && fu.count >= 0
    ensures CountsRight(SetUsage(d, p, fd, fu))
    ensures Once(d) && fu.closing == d.tables[p][fd].closing ==> Once(SetUsage(d, p, fd, fu))
  {
    hide Entries, Closing;
    var d' := SetUsage(d, p, fd, fu);
    EntryFacts(d, p, fd);
    forall x ensures Entries(d'.tables, x) == Entries(d.tables, x)
      ensures fu.closing == d.tables[p][fd].closing ==> Closing(d'.tables, x) == Closing(d.tables, x)
    {
      EntriesSame(d.tables, p, fd, fu, x);
    }
    forall q, n | HasFd(d', q, n) ensures HasFd(d, q, n) && ((q, n) != (p, fd) ==> d'.tables[q][n] == d.tables[q][n]) {
    }
    if Once(d) && fu.closing == d.tables[p][fd].closing {
      forall x | x in d'.files ensures ClosedOnce(d', x) {
        assert ClosedOnce(d, x);
      }
    }
  }

  /** fdCount is 1 exactly when this is the only entry. */
  lemma LastEntry(d: Descriptors, p: nat, fd: CInt)
    requires CountsRight(d) && HasFd(d, p, fd)
    ensures var f := d.tables[p][fd].file; f in d.files && (d.files[f].fdCount == 1 <==> Entries(d.tables, f) == {(p, fd)})
  {
    hide Entries, Closing;
    EntryFacts(d, p, fd);
    var entries := Entries(d.tables, d.tables[p][fd].file);
    if |entries| == 1 {
      forall e | e in entries ensures e == (p, fd) {
        if e != (p, fd) {
          assert {e, (p, fd)} <= entries;
          assert |{e, (p, fd)}| == 2;
          SubsetSize({e, (p, fd)}, entries);
        }
      }
    }
  }

  function CountClose(d: Descriptors, f: nat): Descriptors
    requires f in d.files
  {
    d.(files := d.files[f := d.files[f].(closes := d.files[f].closes + 1)])
  }

  lemma CountCloseKeeps(d: Descriptors, f: nat)
    requires CountsRight(d) && f in d.files
    ensures CountsRight(CountClose(d, f))
  {
    hide Entries;
    forall q, n | HasFd(CountClose(d, f), q, n) ensures HasFd(d, q, n) {
    }
  }

  lemma ClosedKeeps(d: Descriptors, p: nat, fd: CInt)
    requires CountsRight(d) && HasFd(d, p, fd)
    ensures d.tables[p][fd].file in d.files && CountsRight(Closed(d, p, fd))
  {
    hide Entries;
    EntryFacts(d, p, fd);
    var fu := d.tables[p][fd];
    var d1 := if d.files[fu.file].fdCount == 1 then CountClose(d, fu.file) else d;
    CountCloseKeeps(d, fu.file);
    assert HasFd(d1, p, fd);
    if fu.count == 0 {
      RemovedKeeps(d1, p, fd);
    } else {
      UsageKeeps(d1, p, fd, fu.(closing := true));
    }
  }

  /** close is right, whether a thread is inside or not, exactly when the file has not been closed yet. */
  lemma ClosedOnceMore(d: Descriptors, p: nat, fd: CInt)
    requires CountsRight(d) && Once(d) && HasFd(d, p, fd)
    ensures var f := d.tables[p][fd].file; f in d.files && (Once(Closed(d, p, fd)) <==> d.files[f].closes == 0)
  {
    hide CountsRight, Entries, Closing, ClosedOnce;
    EntryFacts(d, p, fd);
    var f, d' := d.tables[p][fd].file, Closed(d, p, fd);
    forall x: nat | x in d.files ensures ClosedOnce(d', x) <==> x != f || d.files[f].closes == 0 {
      CloseOne(d, p, fd, x);
    }
  }

  lemma CloseOne(d: Descriptors, p: nat, fd: CInt, f: nat)
    requires CountsRight(d) && HasFd(d, p, fd) && d.tables[p][fd].file in d.files && f in d.files && ClosedOnce(d, f)
    ensures ClosedOnce(Closed(d, p, fd), f) <==> f != d.tables[p][fd].file || d.files[f].closes == 0
  {
    hide CountsRight, Entries, Closing, ClosedOnce, Closed;
    if f != d.tables[p][fd].file {
      CloseOther(d, p, fd, f);
    } else if d.tables[p][fd].count == 0 {
      CloseRemoves(d, p, fd, f);
    } else {
      CloseMarks(d, p, fd, f);
    }
  }

  lemma CloseOther(d: Descriptors, p: nat, fd: CInt, f: nat)
    requires HasFd(d, p, fd) && d.tables[p][fd].file in d.files && f in d.files && ClosedOnce(d, f)
    requires f != d.tables[p][fd].file
    ensures ClosedOnce(Closed(d, p, fd), f)
  {
    hide Entries, Closing;
    EntriesRemove(d.tables, p, fd, f);
    EntriesSame(d.tables, p, fd, d.tables[p][fd].(closing := true), f);
    var d' := Closed(d, p, fd);
    assert Entries(d'.tables, f) == Entries(d.tables, f) && Closing(d'.tables, f) == Closing(d.tables, f);
  }

  lemma CloseRemoves(d: Descriptors, p: nat, fd: CInt, f: nat)
    requires CountsRight(d) && HasFd(d, p, fd) && f in d.files && ClosedOnce(d, f)
    requires f == d.tables[p][fd].file && d.tables[p][fd].count == 0
    ensures ClosedOnce(Closed(d, p, fd), f) <==> d.files[f].closes == 0
  {
    hide CountsRight, Entries, Closing;
    EntriesRemove(d.tables, p, fd, f);
    LastEntry(d, p, fd);
    FdCountIs(d, f);
    assert Entries(d.tables, f) - {(p, fd)} == {} <==> Entries(d.tables, f) == {(p, fd)};
  }

  lemma CloseMarks(d: Descriptors, p: nat, fd: CInt, f: nat)
    requires CountsRight(d) && HasFd(d, p, fd) && f in d.files && ClosedOnce(d, f)
    requires f == d.tables[p][fd].file && d.tables[p][fd].count != 0
    ensures ClosedOnce(Closed(d, p, fd), f) <==> d.files[f].closes == 0
  {
    hide CountsRight, Entries, Closing;
    EntryFacts(d, p, fd);
    EntriesSame(d.tables, p, fd, d.tables[p][fd].(closing := true), f);
    LastEntry(d, p, fd);
    FdCountIs(d, f);
    ClosingPart(d.tables, f);
  }

  lemma ClosingPart(tables: map<nat, OpenFiles>, f: nat)
    ensures Closing(tables, f) <= Entries(tables, f)
  {
  }

  lemma FdCountIs(d: Descriptors, f: nat)
    requires CountsRight(d) && f in d.files
    ensures d.files[f].fdCount == |Entries(d.tables, f)|
  {
  }

  lemma LeftKeeps(d: Descriptors, p: nat, fd: CInt)
    requires CountsRight(d) && HasFd(d, p, fd) && d.tables[p][fd].count > 0
    ensures d.tables[p][fd].file in d.files && CountsRight(Left(d, p, fd))
  {
    hide Entries;
    EntryFacts(d, p, fd);
    var fu := d.tables[p][fd].(count := d.tables[p][fd].count - 1);
    if fu.count == 0 && fu.closing {
      RemovedKeeps(d, p, fd);
    } else {
      UsageKeeps(d, p, fd, fu);
    }
  }

  /** Leaving removes the last entry of a file that nobody has closed. */
  predicate LeavesUnclosed(d: Descriptors, p: nat, fd: CInt)
    requires HasFd(d, p, fd) && d.tables[p][fd].file in d.files
  {
    var fu := d.tables[p][fd];
    fu.count == 1 && fu.closing && d.files[fu.file].fdCount == 1 && d.files[fu.file].closes == 0
  }

  lemma LeftOnce(d: Descriptors, p: nat, fd: CInt)
    requires CountsRight(d) && Once(d) && HasFd(d, p, fd) && d.tables[p][fd].count > 0
    ensures d.tables[p][fd].file in d.files && (Once(Left(d, p, fd)) <==> !LeavesUnclosed(d, p, fd))
  {
    hide CountsRight, Entries, Closing;
    EntryFacts(d, p, fd);
    LastEntry(d, p, fd);
    var fu := d.tables[p][fd].(count := d.tables[p][fd].count - 1);
    FdCountIs(d, fu.file);
    if fu.count == 0 && fu.closing {
      forall x: nat | x in d.files ensures ClosedOnce(Removed(d, p, fd), x) <==> x != fu.file || !LeavesUnclosed(d, p, fd) {
        assert ClosedOnce(d, x);
        EntriesRemove(d.tables, p, fd, x);
      }
    } else {
      UsageKeeps(d, p, fd, fu);
    }
  }

  // ---------------------------------------------------------------- fork and exit

  ghost function Pairs(p: nat, fds: set<CInt>): set<(nat, CInt)> {
    set fd | fd in fds :: (p, fd)
  }

  lemma {:induction false} PairsSize(p: nat, fds: set<CInt>)
    ensures |Pairs(p, fds)| == |fds|
  {
    if fds != {} {
      var fd :| fd in fds;
      PairsSize(p, fds - {fd});
      assert Pairs(p, fds) == Pairs(p, fds - {fd}) + {(p, fd)};
      assert (p, fd) !in Pairs(p, fds - {fd});
    }
  }

  lemma ForkEntries(tables: map<nat, OpenFiles>, p: nat, child: nat, f: nat)
    requires p in tables && child !in tables
    ensures var tables' := tables[child := Shared(tables[p])];
            Entries(tables', f) == Entries(tables, f) + Pairs(child, FdsOf(tables[p], f)) && Closing(tables', f) == Closing(tables, f)
    ensures Entries(tables, f) !! Pairs(child, FdsOf(tables[p], f)) && Closing(tables, f) <= Entries(tables, f)
  {
  }

  lemma ForkedKeeps(d: Descriptors, p: nat, child: nat)
    requires CountsRight(d) && p in d.tables && child !in d.tables
    ensures CountsRight(Forked(d, p, child))
  {
    hide Entries, Pairs, FdsOf, Closing;
    var d' := Forked(d, p, child);
    forall f: nat | f in d'.files ensures d'.files[f].fdCount == |Entries(d'.tables, f)| {
      ForkEntries(d.tables, p, child, f);
      PairsSize(child, FdsOf(d.tables[p], f));
    }
    forall q, fd | HasFd(d', q, fd) ensures d'.tables[q][fd].file in d.files && d'.tables[q][fd].count >= 0 {
      assert HasFd(d, if q == child then p else q, fd);
    }
  }

  /** No file that p has open has been closed. */
  predicate NoneClosed(d: Descriptors, p: nat) {
    p in d.tables && forall fd :: fd in d.tables[p] ==> d.tables[p][fd].file in d.files && d.files[d.tables[p][fd].file].closes == 0
  }

  lemma NoneClosedIs(d: Descriptors, p: nat)
    requires CountsRight(d) && p in d.tables
    ensures NoneClosed(d, p) <==> forall f :: f in d.files && FdsOf(d.tables[p], f) != {} ==> d.files[f].closes == 0
  {
    hide Entries;
    forall fd | fd in d.tables[p] ensures fd in FdsOf(d.tables[p], d.tables[p][fd].file) && d.tables[p][fd].file in d.files {
      assert HasFd(d, p, fd);
    }
    if NoneClosed(d, p) {
      forall f | f in d.files && FdsOf(d.tables[p], f) != {} ensures d.files[f].closes == 0 {
        var fd :| fd in FdsOf(d.tables[p], f);
      }
    }
  }

  /** fork is right exactly when the parent has no entry left of a file already closed. */
  lemma ForkedOnce(d: Descriptors, p: nat, child: nat)
    requires CountsRight(d) && Once(d) && p in d.tables && child !in d.tables
    ensures Once(Forked(d, p, child)) <==> NoneClosed(d, p)
  {
    hide CountsRight, Entries, Closing, FdsOf, Pairs, NoneClosed;
    NoneClosedIs(d, p);
    var d' := Forked(d, p, child);
    forall f: nat | f in d.files ensures ClosedOnce(d', f) <==> FdsOf(d.tables[p], f) == {} || d.files[f].closes == 0 {
      assert ClosedOnce(d, f);
      ForkEntries(d.tables, p, child, f);
      PairsSize(child, FdsOf(d.tables[p], f));
    }
  }

  lemma DropEntries(tables: map<nat, OpenFiles>, p: nat, f: nat)
    requires p in tables
    ensures var tables' := tables[p := map[]];
            Entries(tables, f) == Entries(tables', f) + Pairs(p, FdsOf(tables[p], f)) && Closing(tables', f) <= Closing(tables, f)
    ensures Entries(tables[p := map[]], f) !! Pairs(p, FdsOf(tables[p], f))
  {
  }

  lemma ElsewhereIs(d: Descriptors, p: nat, f: nat)
    requires p in d.tables
    ensures OpenElsewhere(d, p, f) <==> Entries(d.tables[p := map[]], f) != {}
  {
    var tables' := d.tables[p := map[]];
    if q, fd :| HasFd(d, q, fd) && q != p && d.tables[q][fd].file == f {
      assert (q, fd) in Entries(tables', f);
    }
    if e :| e in Entries(tables', f) {
      assert HasFd(d, e.0, e.1);
    }
  }

  lemma DroppedKeeps(d: Descriptors, p: nat, d': Descriptors)
    requires CountsRight(d) && p in d.tables && d'.tables == d.tables[p := map[]] && d'.files.Keys == d.files.Keys
    requires forall f :: f in d.files ==> d'.files[f].fdCount == d.files[f].fdCount - |FdsOf(d.tables[p], f)|
    ensures CountsRight(d')
  {
    hide Entries, Pairs, FdsOf, Closing;
    forall f: nat | f in d'.files ensures d'.files[f].fdCount == |Entries(d'.tables, f)| {
      DropEntries(d.tables, p, f);
      PairsSize(p, FdsOf(d.tables[p], f));
    }
    forall q, fd | HasFd(d', q, fd) ensures HasFd(d, q, fd) && d'.tables[q][fd] == d.tables[q][fd] {
    }
  }

  /** What dropping the table of p does to the entries of f. */
  lemma DroppedOnce(d: Descriptors, p: nat, d': Descriptors, f: nat)
    requires Once(d) && p in d.tables && f in d.files
    requires d'.tables == d.tables[p := map[]] && d'.files.Keys == d.files.Keys
    ensures FdsOf(d.tables[p], f) == {} && d'.files[f].closes == d.files[f].closes ==> ClosedOnce(d', f)
    ensures FdsOf(d.tables[p], f) != {} && !OpenElsewhere(d, p, f) ==> (ClosedOnce(d', f) <==> d'.files[f].closes == 1)
    ensures FdsOf(d.tables[p], f) != {} && OpenElsewhere(d, p, f) ==>
      d.files[f].closes == 0 && (d'.files[f].closes == d.files[f].closes ==> ClosedOnce(d', f))
  {
    hide Entries, Closing, FdsOf, Pairs, OpenElsewhere;
    assert ClosedOnce(d, f);
    DropEntries(d.tables, p, f);
    if FdsOf(d.tables[p], f) == {} {
      DropNothing(d.tables, p, f);
    }
    PairsSize(p, FdsOf(d.tables[p], f));
    ElsewhereIs(d, p, f);
  }

  lemma DropNothing(tables: map<nat, OpenFiles>, p: nat, f: nat)
    requires p in tables && FdsOf(tables[p], f) == {}
    ensures Closing(tables[p := map[]], f) == Closing(tables, f)
  {
    forall fd | fd in tables[p] ensures tables[p][fd].file != f {
      assert fd in FdsOf(tables[p], f) <==> tables[p][fd].file == f;
    }
  }

  /** A normal exit is right exactly when the process has no entry left of a file already closed. */
  lemma ExitedOnce(d: Descriptors, p: nat)
    requires CountsRight(d) && Once(d) && p in d.tables
    ensures Once(Exited(d, p)) <==> NoneClosed(d, p)
  {
    hide CountsRight, Once, ClosedOnce, Entries, FdsOf, NoneClosed, OpenElsewhere;
    NoneClosedIs(d, p);
    var d' := Exited(d, p);
    forall f: nat | f in d.files ensures ClosedOnce(d', f) <==> FdsOf(d.tables[p], f) == {} || d.files[f].closes == 0 {
      DroppedOnce(d, p, d', f);
    }
    OnceIs(d');
  }

  lemma OnceIs(d: Descriptors)
    ensures Once(d) <==> forall f :: f in d.files ==> ClosedOnce(d, f)
  {
  }

  /** What a stopped process has open is open elsewhere, or has been closed. */
  ghost predicate MayStop(d: Descriptors, p: nat) {
    p in d.tables && forall fd :: fd in d.tables[p] ==>
      var f := d.tables[p][fd].file;
      OpenElsewhere(d, p, f) || (f in d.files && d.files[f].closes == 1)
  }

  /** Stopping a process leaves files unclosed exactly when it alone had one of them open, not closed yet. */
  lemma StoppedOnce(d: Descriptors, p: nat)
    requires CountsRight(d) && Once(d) && p in d.tables
    ensures Once(Stopped(d, p)) <==> MayStop(d, p)
  {
    hide CountsRight, Once, ClosedOnce, Entries, FdsOf, MayStop, OpenElsewhere;
    MayStopIs(d, p);
    var d' := Stopped(d, p);
    forall f: nat | f in d.files
      ensures ClosedOnce(d', f) <==> FdsOf(d.tables[p], f) == {} || OpenElsewhere(d, p, f) || d.files[f].closes == 1
    {
      DroppedOnce(d, p, d', f);
    }
    OnceIs(d');
  }

  lemma MayStopIs(d: Descriptors, p: nat)
    requires CountsRight(d) && p in d.tables
    ensures MayStop(d, p) <==> forall f :: f in d.files && FdsOf(d.tables[p], f) != {} ==> OpenElsewhere(d, p, f) || d.files[f].closes == 1
  {
    hide Entries, OpenElsewhere;
    forall fd | fd in d.tables[p] ensures fd in FdsOf(d.tables[p], d.tables[p][fd].file) && d.tables[p][fd].file in d.files {
      assert HasFd(d, p, fd);
    }
    if MayStop(d, p) {
      forall f | f in d.files && FdsOf(d.tables[p], f) != {} ensures OpenElsewhere(d, p, f) || d.files[f].closes == 1 {
        var fd :| fd in FdsOf(d.tables[p], f);
      }
    }
  }

  // ---------------------------------------------------------------- when a thread is inside

  /** One process, one descriptor, one thread inside a call: closing twice closes the file twice. */
  lemma ClosedTwice()
    ensures var d0 := Opened(Descriptors(map[1 := map[]], map[]), 1, 3, 7);
            HasFd(d0, 1, 3) && var d1 := Entered(d0, 1, 3);
            HasFd(d1, 1, 3) && d1.tables[1][3].file in d1.files && var d2 := Closed(d1, 1, 3);
            HasFd(d2, 1, 3) && d2.tables[1][3].file in d2.files && var d3 := Closed(d2, 1, 3);
            d3.files[7].closes == 2 && d3.files[7].fdCount == 1
  {
  }

  /** The same with one close: the thread leaves last and the file has been closed once. */
  lemma ClosedOnceInside()
    ensures var d0 := Opened(Descriptors(map[1 := map[]], map[]), 1, 3, 7);
            HasFd(d0, 1, 3) && var d1 := Entered(d0, 1, 3);
            HasFd(d1, 1, 3) && d1.tables[1][3].file in d1.files && var d2 := Closed(d1, 1, 3);
            HasFd(d2, 1, 3) && d2.tables[1][3].file in d2.files && var d3 := Left(d2, 1, 3);
            d3.files[7].closes == 1 && d3.files[7].fdCount == 0 && d3.tables[1] == map[]
  {
  }

  /** Two descriptors for one file, a thread inside a call on the first: closing both, the thread leaving
      last, the file is never closed. */
  lemma NeverClosed()
    ensures var d0 := Opened(Descriptors(map[1 := map[]], map[]), 1, 3, 7);
            7 in d0.files && 1 in d0.tables && var d1 := Added(d0, 1, 4, 7);
            HasFd(d1, 1, 3) && var d2 := Entered(d1, 1, 3);
            HasFd(d2, 1, 3) && d2.tables[1][3].file in d2.files && var d3 := Closed(d2, 1, 3);
            HasFd(d3, 1, 4) && d3.tables[1][4].file in d3.files && var d4 := Closed(d3, 1, 4);
            HasFd(d4, 1, 3) && d4.tables[1][3].file in d4.files && var d5 := Left(d4, 1, 3);
            d5.files[7].closes == 0 && d5.files[7].fdCount == 0 && d5.tables[1] == map[]
  {
  }
}
