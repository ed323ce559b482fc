/** Whole runs of descriptor calls, forks and exits in any order. */
module DescriptorRuns {
  import opened FileDescriptors
  import opened DescriptorCalls

  datatype Event =
    | NewProcess(p: nat)
    | OpenFile(p: nat, fd: CInt, f: nat)
    | Share(p: nat, oldfd: CInt, fd: CInt)
    | CloseFd(p: nat, fd: CInt)
    | Enter(p: nat, fd: CInt)
    | Leave(p: nat, fd: CInt)
    | ForkTo(p: nat, child: nat)
    | ExitOf(p: nat)
    | StopOf(p: nat)

  /** dup, and dup2 onto a free descriptor, are Share; dup2 onto one in use is CloseFd first. */
  ghost predicate Step(d: Descriptors, e: Event, d': Descriptors) {
    match e
    case NewProcess(p) => p !in d.tables && d' == d.(tables := d.tables[p := map[]])
    case OpenFile(p, fd, f) => p in d.tables && fd !in d.tables[p] && f !in d.files && d' == Opened(d, p, fd, f)
    case Share(p, oldfd, fd) =>
      && FdExists(d, p, oldfd, true) && fd !in d.tables[p] && d.tables[p][oldfd].file in d.files
      && d' == Added(d, p, fd, d.tables[p][oldfd].file)
    case CloseFd(p, fd) => HasFd(d, p, fd) && d.tables[p][fd].file in d.files && d' == Closed(d, p, fd)
    case Enter(p, fd) => FdExists(d, p, fd, true) && d' == Entered(d, p, fd)
    case Leave(p, fd) => HasFd(d, p, fd) && d.tables[p][fd].file in d.files && d.tables[p][fd].count > 0 && d' == Left(d, p, fd)
    case ForkTo(p, child) => p in d.tables && child !in d.tables && d' == Forked(d, p, child)
    case ExitOf(p) => p in d.tables && d' == Exited(d, p)
    case StopOf(p) => p in d.tables && d' == Stopped(d, p)
  }

  /** Where a step keeps the closes right: close runs on a file not closed yet, fork and exit run in a process
      none of whose files has been closed, no last thread leaves a file unclosed, and a process is stopped
      only if each of its files is open elsewhere or closed. */
  ghost predicate Safe(d: Descriptors, e: Event) {
    match e
    case CloseFd(p, fd) => HasFd(d, p, fd) && d.tables[p][fd].file in d.files && d.files[d.tables[p][fd].file].closes == 0
    case Leave(p, fd) => HasFd(d, p, fd) && d.tables[p][fd].file in d.files && !LeavesUnclosed(d, p, fd)
    case ForkTo(p, child) => NoneClosed(d, p)
    case ExitOf(p) => NoneClosed(d, p)
    case StopOf(p) => MayStop(d, p)
    case _ => true
  }

  /** No thread is inside a call on the descriptor being closed, and no process is stopped that is the last
      to have a file open. */
  ghost predicate Careful(d: Descriptors, e: Event) {
    match e
    case CloseFd(p, fd) => HasFd(d, p, fd) && d.tables[p][fd].count == 0
    case StopOf(p) => p in d.tables && forall fd :: fd in d.tables[p] ==> OpenElsewhere(d, p, d.tables[p][fd].file)
    case _ => true
  }

  ghost predicate Run(ds: seq<Descriptors>, es: seq<Event>) {
    && |ds| == |es| + 1 && ds[0] == Descriptors(map[], map[])
    && forall i :: 0 <= i < |es| ==> Step(ds[i], es[i], ds[i + 1])
  }

  lemma StepKeeps(d: Descriptors, e: Event, d': Descriptors)
    requires CountsRight(d) && Step(d, e, d')
    ensures CountsRight(d')
  {
    hide CountsRight, Entries, OpenElsewhere, Forked, Exited, Stopped;
    match e
    case NewProcess(p) => NewTable(d, p);
    case OpenFile(p, fd, f) => OpenedKeeps(d, p, fd, f);
    case Share(p, oldfd, fd) => AddedKeeps(d, p, fd, d.tables[p][oldfd].file);
    case CloseFd(p, fd) => ClosedKeeps(d, p, fd);
    case Enter(p, fd) =>
      EntryFacts(d, p, fd);
      UsageKeeps(d, p, fd, d.tables[p][fd].(count := d.tables[p][fd].count + 1));
    case Leave(p, fd) => LeftKeeps(d, p, fd);
    case ForkTo(p, child) => ForkedKeeps(d, p, child);
    case ExitOf(p) => DropKeeps(d, p);
    case StopOf(p) => DropKeeps(d, p);
  }

  lemma DropKeeps(d: Descriptors, p: nat)
    requires CountsRight(d) && p in d.tables
    ensures CountsRight(Exited(d, p)) && CountsRight(Stopped(d, p))
  {
    hide CountsRight, OpenElsewhere, FdsOf;
    DroppedKeeps(d, p, Exited(d, p));
    DroppedKeeps(d, p, Stopped(d, p));
  }

  /** Every kind of step has its exact condition. */
  lemma StepOnce(d: Descriptors, e: Event, d': Descriptors)
    requires CountsRight(d) && Once(d) && Step(d, e, d')
    ensures Safe(d, e) <==> Once(d')
  {
    hide CountsRight, Once, Entries, OpenElsewhere, Forked, Exited, Stopped, NoneClosed, MayStop;
    match e
    case NewProcess(p) => NewTableOnce(d, p);
    case OpenFile(p, fd, f) => OpenedKeeps(d, p, fd, f);
    case Share(p, oldfd, fd) =>
      UsableNotClosed(d, p, oldfd);
      AddedOnce(d, p, fd, d.tables[p][oldfd].file);
    case CloseFd(p, fd) => ClosedOnceMore(d, p, fd);
    case Enter(p, fd) =>
      EntryFacts(d, p, fd);
      UsageKeeps(d, p, fd, d.tables[p][fd].(count := d.tables[p][fd].count + 1));
    case Leave(p, fd) => LeftOnce(d, p, fd);
    case ForkTo(p, child) => ForkedOnce(d, p, child);
    case ExitOf(p) => ExitedOnce(d, p);
    case StopOf(p) => StoppedOnce(d, p);
  }

  lemma NewTableOnce(d: Descriptors, p: nat)
    requires Once(d) && p !in d.tables
    ensures Once(d.(tables := d.tables[p := map[]]))
  {
    var d' := d.(tables := d.tables[p := map[]]);
    forall f | f in d.files ensures ClosedOnce(d', f) {
      assert ClosedOnce(d, f);
      assert Entries(d'.tables, f) == Entries(d.tables, f) && Closing(d'.tables, f) == Closing(d.tables, f);
    }
  }

  lemma NoFiles()
    ensures CountsRight(Descriptors(map[], map[])) && Once(Descriptors(map[], map[])) && NoneClosing(Descriptors(map[], map[]))
  {
  }

  /** Whatever threads do, fdCount is the number of table entries, in every state of every run. */
  lemma {:induction false} RunCounts(ds: seq<Descriptors>, es: seq<Event>, i: nat)
    requires Run(ds, es) && i < |ds|
    ensures CountsRight(ds[i])
  {
    hide CountsRight, Step;
    if i == 0 {
      NoFiles();
    } else {
      RunCounts(ds, es, i - 1);
      StepKeeps(ds[i - 1], es[i - 1], ds[i]);
    }
  }

  /** The closes are right in every state of a run exactly when every step is safe: in particular a file
      without entries has then been closed, once. */
  lemma RunOnce(ds: seq<Descriptors>, es: seq<Event>)
    requires Run(ds, es)
    ensures (forall i :: 0 <= i < |ds| ==> Once(ds[i])) <==> (forall i :: 0 <= i < |es| ==> Safe(ds[i], es[i]))
  {
    hide Once, Safe, Run;
    OnceUpTo(ds, es, |es|);
  }

  lemma {:induction false} OnceUpTo(ds: seq<Descriptors>, es: seq<Event>, n: nat)
    requires Run(ds, es) && n <= |es|
    ensures |ds| == |es| + 1
    ensures (forall i :: 0 <= i <= n ==> Once(ds[i])) <==> (forall i :: 0 <= i < n ==> Safe(ds[i], es[i]))
  {
    hide CountsRight, Once, Step, Safe;
    if n == 0 {
      NoFiles();
    } else {
      OnceUpTo(ds, es, n - 1);
      RunCounts(ds, es, n - 1);
      assert Step(ds[n - 1], es[n - 1], ds[n]);
      if Once(ds[n - 1]) {
        StepOnce(ds[n - 1], es[n - 1], ds[n]);
      }
    }
  }

  /** In words of the caller: no close while a thread is inside, no stop of the last process to have a file
      open. Then, and only then, no entry waits to be removed and a file has been closed exactly when it has
      no entry. */
  lemma {:induction false} RunCloses(ds: seq<Descriptors>, es: seq<Event>, n: nat)
    requires Run(ds, es) && n <= |es|
    ensures |ds| == |es| + 1
    ensures (forall i :: 0 <= i <= n ==> Tidy(ds[i])) <==> (forall i :: 0 <= i < n ==> Careful(ds[i], es[i]))
  {
    hide CountsRight, Once, NoneClosing, Step, Careful;
    if n == 0 {
      NoFiles();
    } else {
      RunCloses(ds, es, n - 1);
      RunCounts(ds, es, n - 1);
      assert Step(ds[n - 1], es[n - 1], ds[n]);
      if Tidy(ds[n - 1]) {
        StepTidy(ds[n - 1], es[n - 1], ds[n]);
      }
    }
  }

  ghost predicate Tidy(d: Descriptors) {
    NoneClosing(d) && Once(d)
  }

  lemma TidyMeans(d: Descriptors, f: nat)
    requires Tidy(d) && f in d.files
    ensures d.files[f].closes == if Entries(d.tables, f) == {} then 1 else 0
  {
    assert ClosedOnce(d, f);
    if Entries(d.tables, f) != {} {
      var e :| e in Entries(d.tables, f);
      assert HasFd(d, e.0, e.1);
    }
  }

  lemma StepTidy(d: Descriptors, e: Event, d': Descriptors)
    requires CountsRight(d) && Tidy(d) && Step(d, e, d')
    ensures Careful(d, e) <==> Tidy(d')
  {
    hide CountsRight, Once, NoneClosing, Step;
    StepOnce(d, e, d');
    StepNoneClosing(d, e, d');
    CarefulIsSafe(d, e, d');
  }

  lemma StepNoneClosing(d: Descriptors, e: Event, d': Descriptors)
    requires NoneClosing(d) && Step(d, e, d')
    ensures NoneClosing(d') <==> (e.CloseFd? ==> HasFd(d, e.p, e.fd) && d.tables[e.p][e.fd].count == 0)
  {
    hide Entries, OpenElsewhere, FdsOf;
    var marks := e.CloseFd? && HasFd(d, e.p, e.fd) && d.tables[e.p][e.fd].count != 0;
    forall q, n | HasFd(d', q, n) ensures d'.tables[q][n].closing ==> marks {
      if HasFd(d, q, n) {
        assert !d.tables[q][n].closing;
      }
    }
    if marks {
      assert HasFd(d', e.p, e.fd);
    }
  }

  lemma CarefulIsSafe(d: Descriptors, e: Event, d': Descriptors)
    requires CountsRight(d) && Tidy(d) && Step(d, e, d')
    ensures Careful(d, e) <==> Safe(d, e) && (e.CloseFd? ==> HasFd(d, e.p, e.fd) && d.tables[e.p][e.fd].count == 0)
  {
    hide CountsRight, Once, Entries, OpenElsewhere, Forked, Exited, Stopped, Added, Opened, Closed, Left, Entered;
    if e.CloseFd? || e.Leave? {
      UsableNotClosed(d, e.p, e.fd);
    }
    if e.ForkTo? || e.ExitOf? || e.StopOf? {
      forall fd | fd in d.tables[e.p] ensures d.tables[e.p][fd].file in d.files && d.files[d.tables[e.p][fd].file].closes == 0 {
        assert HasFd(d, e.p, fd);
        UsableNotClosed(d, e.p, fd);
      }
    }
  }

  // ---------------------------------------------------------------- what the events say of an entry

  /** The event makes entry fd of process p. */
  predicate Makes(e: Event, p: nat, fd: CInt) {
    match e
    case OpenFile(q, n, f) => q == p && n == fd
    case Share(q, oldfd, n) => q == p && n == fd
    case ForkTo(q, child) => child == p
    case _ => false
  }

  /** How many threads have entered calls on the entry, less those that have left, since it was made. */
  function Inside(es: seq<Event>, p: nat, fd: CInt, n: nat): int
    requires n <= |es|
  {
    if n == 0 || Makes(es[n - 1], p, fd) then 0
    else Inside(es, p, fd, n - 1) + if es[n - 1] == Enter(p, fd) then 1 else if es[n - 1] == Leave(p, fd) then -1 else 0
  }

  /** close has been called on it since. */
  predicate CloseCalled(es: seq<Event>, p: nat, fd: CInt, n: nat)
    requires n <= |es|
  {
    n > 0 && !Makes(es[n - 1], p, fd) && (es[n - 1] == CloseFd(p, fd) || CloseCalled(es, p, fd, n - 1))
  }

  /** The file it was opened as, by this process or one it was copied from. */
  function FileAt(es: seq<Event>, p: nat, fd: CInt, n: nat): nat
    requires n <= |es|
    decreases n
  {
    if n == 0 then 0
    else if !Makes(es[n - 1], p, fd) then FileAt(es, p, fd, n - 1)
    else
      match es[n - 1]
      case OpenFile(q, m, f) => f
      case Share(q, oldfd, m) => FileAt(es, p, oldfd, n - 1)
      case ForkTo(q, child) => FileAt(es, q, fd, n - 1)
      case _ => 0
  }

  /** A step that does not make the entry counts threads in and out of it and remembers a close. */
  lemma EntryStep(d: Descriptors, e: Event, d': Descriptors, p: nat, fd: CInt)
    requires Step(d, e, d') && HasFd(d', p, fd) && !Makes(e, p, fd)
    ensures HasFd(d, p, fd)
    ensures var fu := d.tables[p][fd];
            d'.tables[p][fd] == FileUsage(fu.file, fu.count + (if e == Enter(p, fd) then 1 else if e == Leave(p, fd) then -1 else 0),
                                          fu.closing || e == CloseFd(p, fd))
  {
    hide FdsOf, OpenElsewhere;
  }

  lemma EntryMade(d: Descriptors, e: Event, d': Descriptors, p: nat, fd: CInt)
    requires Step(d, e, d') && HasFd(d', p, fd) && Makes(e, p, fd)
    ensures d'.tables[p][fd].count == 0 && !d'.tables[p][fd].closing
    ensures match e
      case OpenFile(q, m, f) => d'.tables[p][fd].file == f
      case Share(q, oldfd, m) => HasFd(d, p, oldfd) && d'.tables[p][fd].file == d.tables[p][oldfd].file
      case ForkTo(q, child) => HasFd(d, q, fd) && d'.tables[p][fd].file == d.tables[q][fd].file
      case _ => true
  {
    hide FdsOf, OpenElsewhere;
  }

  /** An entry is for the file it was made for; the threads inside are those that have entered and not left;
      and it is being closed once close has been called. */
  lemma {:induction false} EntryHistory(ds: seq<Descriptors>, es: seq<Event>, n: nat, p: nat, fd: CInt)
    requires Run(ds, es) && n <= |es| && HasFd(ds[n], p, fd)
    ensures |ds| == |es| + 1
    ensures ds[n].tables[p][fd] == FileUsage(FileAt(es, p, fd, n), Inside(es, p, fd, n), CloseCalled(es, p, fd, n))
    decreases n
  {
    hide Step;
    assert Step(ds[n - 1], es[n - 1], ds[n]);
    var e, d := es[n - 1], ds[n - 1];
    if Makes(e, p, fd) {
      EntryMade(d, e, ds[n], p, fd);
      match e
      case Share(q, oldfd, m) => EntryHistory(ds, es, n - 1, p, oldfd);
      case ForkTo(q, child) => EntryHistory(ds, es, n - 1, q, fd);
      case _ =>
    } else {
      EntryStep(d, e, ds[n], p, fd);
      EntryHistory(ds, es, n - 1, p, fd);
    }
  }

  /** When an entry goes: with its process, with a close while no thread is inside, or with the last thread to
      leave after a close. */
  lemma EntryGoes(ds: seq<Descriptors>, es: seq<Event>, n: nat, p: nat, fd: CInt)
    requires Run(ds, es) && n < |es| && HasFd(ds[n], p, fd)
    ensures |ds| == |es| + 1
    ensures !HasFd(ds[n + 1], p, fd) <==>
              || es[n] == ExitOf(p) || es[n] == StopOf(p) || (es[n] == CloseFd(p, fd) && Inside(es, p, fd, n) == 0)
              || (es[n] == Leave(p, fd) && Inside(es, p, fd, n) == 1 && CloseCalled(es, p, fd, n))
  {
    hide FdsOf, OpenElsewhere, Inside, CloseCalled, FileAt;
    EntryHistory(ds, es, n, p, fd);
    assert Step(ds[n], es[n], ds[n + 1]);
  }

  /** And when it comes: made by open or dup, or by fork in a child whose parent has it. */
  lemma EntryComes(ds: seq<Descriptors>, es: seq<Event>, n: nat, p: nat, fd: CInt)
    requires Run(ds, es) && n < |es| && !HasFd(ds[n], p, fd)
    ensures |ds| == |es| + 1
    ensures HasFd(ds[n + 1], p, fd) <==> Makes(es[n], p, fd) && (es[n].ForkTo? ==> HasFd(ds[n], es[n].p, fd))
  {
    hide FdsOf, OpenElsewhere;
    assert Step(ds[n], es[n], ds[n + 1]);
  }

  /** Nobody is ever inside a call fewer times than none, and an entry with a thread inside goes by exit or
      stop of its process only. */
  lemma InsideKeepsEntry(ds: seq<Descriptors>, es: seq<Event>, n: nat, p: nat, fd: CInt)
    requires Run(ds, es) && n < |es| && HasFd(ds[n], p, fd)
    ensures |ds| == |es| + 1 && Inside(es, p, fd, n) >= 0
    ensures Inside(es, p, fd, n + 1) > 0 && !HasFd(ds[n + 1], p, fd) ==> es[n] == ExitOf(p) || es[n] == StopOf(p)
    ensures es[n] == Leave(p, fd) ==> Inside(es, p, fd, n) > 0
  {
    hide CountsRight, FdsOf, OpenElsewhere, CloseCalled, FileAt;
    EntryHistory(ds, es, n, p, fd);
    RunCounts(ds, es, n);
    EntryFacts(ds[n], p, fd);
    EntryGoes(ds, es, n, p, fd);
    assert Step(ds[n], es[n], ds[n + 1]);
  }
}
