/** The table of simulated processes: parents, children, zombies and threads waiting for a child. */
module ProcessTable {

  /** Where a thread is with respect to waitpid: outside, asleep in it, or woken but not yet running; or it
      has ended and waits to be joined, or was detached since and waits for nothing. */
  datatype Waiting = Outside | Asleep(target: int) | Woken(target: int) | Finished | Abandoned {
    predicate Ended() {
      Finished? || Abandoned?
    }
  }

  /** A zombie is a process whose loader and allocator are gone. Successive processes can have the same
      pid; serial, the order of creation, tells them apart and is bookkeeping of this model only. */
  datatype Process = Process(ppid: nat, children: set<nat>, zombie: bool, exitValue: int, threads: map<nat, Waiting>, serial: nat)
  type Table = map<nat, Process>

  /** An exit value handed out by waitpid. */
  datatype Reaping = Reaping(serial: nat, value: int)
  datatype State = State(table: Table, born: nat, reaped: seq<Reaping>)

  const MAX_PID := 0xffff

  // ---------------------------------------------------------------- the invariant

  predicate IsChild(table: Table, p: nat, q: nat) {
    p in table && q in table[p].children
  }

  /** The children of p that waitpid (target) is about. */
  predicate Matches(table: Table, p: nat, target: int, q: nat) {
    IsChild(table, p, q) && q in table && (target == -1 || target == q)
  }

  /** Children and parents agree, and a process with a parent other than init has it, alive and older. */
  ghost predicate FamilyOk(table: Table) {
    && (forall p, q {:trigger IsChild(table, p, q)} :: p in table ==> (IsChild(table, p, q) <==> q in table && table[q].ppid == p))
    && (forall q :: q in table && table[q].ppid > 1 ==> table[q].ppid in table && !table[table[q].ppid].zombie && table[table[q].ppid].serial < table[q].serial)
  }

  /** A zombie has no threads and no children, and a parent to collect it. */
  ghost predicate ZombiesOk(table: Table) {
    forall q :: q in table && table[q].zombie ==> table[q].ppid > 1 && table[q].children == {} && table[q].threads == map[]
  }

  /** A sleeping waiter has something to wait for: a matching child, and no matching child has ended. */
  ghost predicate WaitersOk(table: Table) {
    forall p, t :: p in table && t in table[p].threads && table[p].threads[t].Asleep? ==> WorthWaiting(table, p, table[p].threads[t].target)
  }

  ghost predicate WorthWaiting(table: Table, p: nat, target: int) {
    && (exists q :: Matches(table, p, target, q))
    && (forall q :: Matches(table, p, target, q) ==> !table[q].zombie)
  }

  ghost predicate PidsOk(table: Table) {
    forall p :: p in table ==> 1 < p <= MAX_PID && 0 <= table[p].ppid != p
  }

  /** Every process created is itself: serials differ, and what has been reaped is gone for good. */
  ghost predicate SerialsOk(s: State) {
    && (forall p :: p in s.table ==> s.table[p].serial < s.born)
    && (forall p, q :: p in s.table && q in s.table && s.table[p].serial == s.table[q].serial ==> p == q)
    && (forall i :: 0 <= i < |s.reaped| ==> s.reaped[i].serial < s.born)
    && (forall i, p :: 0 <= i < |s.reaped| && p in s.table ==> s.table[p].serial != s.reaped[i].serial)
    && (forall i, j :: 0 <= i < j < |s.reaped| ==> s.reaped[i].serial != s.reaped[j].serial)
  }

  ghost predicate Inv(s: State) {
    PidsOk(s.table) && FamilyOk(s.table) && ZombiesOk(s.table) && WaitersOk(s.table) && SerialsOk(s)
  }

  // ---------------------------------------------------------------- the steps, as functions on the table

  /** Start: a process without a father. */
  function Started(s: State, pid: nat): State {
    State(s.table[pid := Process(0, {}, false, 0, map[0 := Outside], s.born)], s.born + 1, s.reaped)
  }

  /** Clone: a child of p. */
  function Forked(s: State, p: nat, pid: nat): State
    requires p in s.table
  {
    var parent := s.table[p].(children := s.table[p].children + {pid});
    State(s.table[p := parent][pid := Process(p, {}, false, 0, map[0 := Outside], s.born)], s.born + 1, s.reaped)
  }

  function WakeThread(w: Waiting): Waiting {
    if w.Asleep? then Woken(w.target) else w
  }

  /** WakeupChildWaiters. */
  function WakeAll(process: Process): Process {
    process.(threads := map t | t in process.threads :: WakeThread(process.threads[t]))
  }

  /** What is left of process q after p was deleted, if it is left at all. */
  function AfterDeath(table: Table, p: nat, q: nat): Process
    requires p in table && q in table
  {
    if q == p then table[p].(children := {}, threads := map[], zombie := true)
    else if q in table[p].children then table[q].(ppid := 1)
    else if q == table[p].ppid then WakeAll(table[q])
    else table[q]
  }

  /** DeleteProcess: children go to init, which collects zombies at once; p becomes a zombie and its
      father's waiters wake, unless it has no father. */
  function Deleted(table: Table, p: nat): Table
    requires p in table
  {
    map q | q in table && !(q in table[p].children && table[q].zombie) && !(q == p && table[p].ppid <= 1) :: AfterDeath(table, p, q)
  }

  /** __W_EXITCODE (status, WTERMSIG (old)). */
  function ExitCode(status: int, old_: int): int {
    status * 256 + old_ % 128
  }

  function SetExit(table: Table, p: nat, status: int): Table
    requires p in table
  {
    table[p := table[p].(exitValue := ExitCode(status, table[p].exitValue))]
  }

  /** The end of a successful wait: FinishChild. */
  function Reaped(s: State, p: nat, q: nat): State
    requires p in s.table && q in s.table
  {
    State(s.table[p := s.table[p].(children := s.table[p].children - {q})] - {q}, s.born, s.reaped + [Reaping(s.table[q].serial, s.table[q].exitValue)])
  }

  function SetThread(s: State, p: nat, t: nat, w: Waiting): State
    requires p in s.table
  {
    s.(table := s.table[p := s.table[p].(threads := s.table[p].threads[t := w])])
  }

  /** DeleteThread. */
  function WithoutThread(s: State, p: nat, t: nat): State
    requires p in s.table
  {
    s.(table := s.table[p := s.table[p].(threads := s.table[p].threads - {t})])
  }

  /** pthread_exit: a process with one thread exits with it. Otherwise the thread goes at once if it is
      detached, and stays to be joined if not. */
  function ThreadEnded(s: State, p: nat, t: nat, detached: bool): State
    requires p in s.table
  {
    if |s.table[p].threads| == 1 then s.(table := Deleted(SetExit(s.table, p, 0), p))
    else if detached then WithoutThread(s, p, t)
    else SetThread(s, p, t, Finished)
  }

  // ---------------------------------------------------------------- what each step keeps

  lemma ChildFacts(table: Table, p: nat, q: nat)
    requires FamilyOk(table) && p in table
    ensures q in table[p].children <==> q in table && table[q].ppid == p
  {
    assert IsChild(table, p, q) <==> q in table[p].children;
  }

  /** A waiter whose children are the same, and as much alive, still has something to wait for. */
  lemma OthersWait(table: Table, table': Table, p: nat, target: int)
    requires WorthWaiting(table, p, target)
    requires forall q :: Matches(table, p, target, q) ==> Matches(table', p, target, q)
    requires forall q :: Matches(table', p, target, q) ==> !table'[q].zombie
    ensures WorthWaiting(table', p, target)
  {
  }

  /** p's father is not p's child. */
  lemma NoLoop(table: Table, p: nat)
    requires FamilyOk(table) && PidsOk(table) && p in table
    ensures table[p].ppid !in table[p].children
  {
    ChildFacts(table, p, table[p].ppid);
  }

  lemma NobodysChild(table: Table, pid: nat)
    requires FamilyOk(table) && pid !in table && pid > 1
    ensures forall q :: q in table ==> table[q].ppid != pid
  {
  }

  lemma StartedKeeps(s: State, pid: nat)
    requires Inv(s) && pid !in s.table && 1 < pid <= MAX_PID
    ensures Inv(Started(s, pid))
  {
    hide FamilyOk, WaitersOk, SerialsOk;
    StartedFamily(s, pid);
    StartedWaiters(s, pid);
    BornSerials(s, s.table, pid, 0, Started(s, pid).table);
  }

  lemma StartedFamily(s: State, pid: nat)
    requires FamilyOk(s.table) && PidsOk(s.table) && pid !in s.table && 1 < pid
    ensures FamilyOk(Started(s, pid).table)
  {
    var table := Started(s, pid).table;
    NobodysChild(s.table, pid);
    forall p: nat, q: nat | p in table ensures IsChild(table, p, q) <==> q in table && table[q].ppid == p {
      if p in s.table {
        ChildFacts(s.table, p, q);
      }
    }
  }

  lemma StartedWaiters(s: State, pid: nat)
    requires FamilyOk(s.table) && WaitersOk(s.table) && pid !in s.table
    ensures WaitersOk(Started(s, pid).table)
  {
    hide WorthWaiting;
    var table := Started(s, pid).table;
    forall p, t | p in table && t in table[p].threads && table[p].threads[t].Asleep? ensures WorthWaiting(table, p, table[p].threads[t].target) {
      var target := table[p].threads[t].target;
      assert p in s.table && s.table[p] == table[p];
      assert WorthWaiting(s.table, p, target);
      SameChildrenWait(s.table, table, p, target);
    }
  }

  /** The table has more entries, and p's children are as they were. */
  lemma SameChildrenWait(table: Table, table': Table, p: nat, target: int)
    requires FamilyOk(table) && WorthWaiting(table, p, target) && p in table && p in table' && table'[p].children == table[p].children
    requires forall q :: q in table[p].children && q in table ==> q in table' && table'[q].zombie == table[q].zombie
    ensures WorthWaiting(table', p, target)
  {
    forall q | Matches(table', p, target, q) ensures !table'[q].zombie {
      ChildFacts(table, p, q);
      assert Matches(table, p, target, q);
    }
    OthersWait(table, table', p, target);
  }

  /** A new process gets a serial of its own. */
  lemma BornSerials(s: State, table: Table, pid: nat, ppid: nat, table': Table)
    requires SerialsOk(s) && table == s.table && pid !in table && table'.Keys == table.Keys + {pid}
    requires table'[pid].serial == s.born && forall p :: p in table ==> table'[p].serial == table[p].serial
    ensures SerialsOk(State(table', s.born + 1, s.reaped))
  {
  }

  lemma ForkedKeeps(s: State, p: nat, pid: nat)
    requires Inv(s) && p in s.table && !s.table[p].zombie && pid !in s.table && 1 < pid <= MAX_PID
    ensures Inv(Forked(s, p, pid))
  {
    hide FamilyOk, WaitersOk, SerialsOk, PidsOk, ZombiesOk;
    BornLater(s, p);
    ForkedPids(s, p, pid);
    ForkedFamily(s, p, pid);
    ForkedWaiters(s, p, pid);
    BornSerials(s, s.table, pid, p, Forked(s, p, pid).table);
  }

  lemma ForkedPids(s: State, p: nat, pid: nat)
    requires PidsOk(s.table) && ZombiesOk(s.table) && p in s.table && !s.table[p].zombie && pid !in s.table && 1 < pid <= MAX_PID
    ensures PidsOk(Forked(s, p, pid).table) && ZombiesOk(Forked(s, p, pid).table)
    ensures forall q :: q in s.table ==> s.table[q].ppid != q
  {
  }

  lemma BornLater(s: State, p: nat)
    requires SerialsOk(s) && p in s.table
    ensures s.table[p].serial < s.born
  {
  }

  lemma ForkedFamily(s: State, p: nat, pid: nat)
    requires FamilyOk(s.table) && p in s.table && !s.table[p].zombie && pid !in s.table && 1 < pid && s.table[p].serial < s.born
    requires forall q :: q in s.table ==> s.table[q].ppid != q
    ensures FamilyOk(Forked(s, p, pid).table)
  {
    var table := Forked(s, p, pid).table;
    NobodysChild(s.table, pid);
    forall x: nat, q: nat | x in table ensures IsChild(table, x, q) <==> q in table && table[q].ppid == x {
      ForkedChild(s, p, pid, x, q);
    }
    forall q | q in table && table[q].ppid > 1 ensures table[q].ppid in table && !table[table[q].ppid].zombie && table[table[q].ppid].serial < table[q].serial {
      assert q != pid ==> s.table[q].ppid == table[q].ppid;
    }
  }

  lemma ForkedChild(s: State, p: nat, pid: nat, x: nat, q: nat)
    requires FamilyOk(s.table) && p in s.table && pid !in s.table && x in Forked(s, p, pid).table
    requires forall q :: q in s.table ==> s.table[q].ppid != pid
    ensures var table := Forked(s, p, pid).table; IsChild(table, x, q) <==> q in table && table[q].ppid == x
  {
    if x in s.table {
      ChildFacts(s.table, x, q);
      ChildFacts(s.table, x, pid);
    }
  }

  lemma ForkedWaiters(s: State, p: nat, pid: nat)
    requires FamilyOk(s.table) && WaitersOk(s.table) && p in s.table && pid !in s.table
    ensures WaitersOk(Forked(s, p, pid).table)
  {
    hide WorthWaiting;
    var table := Forked(s, p, pid).table;
    forall x, t | x in table && t in table[x].threads && table[x].threads[t].Asleep? ensures WorthWaiting(table, x, table[x].threads[t].target) {
      var target := table[x].threads[t].target;
      assert x in s.table && t in s.table[x].threads && s.table[x].threads[t] == table[x].threads[t];
      assert WorthWaiting(s.table, x, target);
      if x == p {
        NewChildWaits(s, p, pid, target);
      } else {
        SameChildrenWait(s.table, table, x, target);
      }
    }
  }

  lemma NewChildWaits(s: State, p: nat, pid: nat, target: int)
    requires FamilyOk(s.table) && p in s.table && pid !in s.table && WorthWaiting(s.table, p, target)
    ensures WorthWaiting(Forked(s, p, pid).table, p, target)
  {
    var table := Forked(s, p, pid).table;
    forall q | Matches(table, p, target, q) ensures !table[q].zombie {
      ChildFacts(s.table, p, q);
      assert q != pid ==> Matches(s.table, p, target, q);
    }
    OthersWait(s.table, table, p, target);
  }

  lemma DeletedKeeps(s: State, p: nat)
    requires Inv(s) && p in s.table
    ensures Inv(s.(table := Deleted(s.table, p)))
  {
    hide FamilyOk, WaitersOk, ZombiesOk, PidsOk;
    DeletedFamily(s.table, p);
    DeletedWaiters(s.table, p);
    hide AfterDeath;
    DeletedSerials(s.table, p);
  }

  lemma DeletedSerials(table: Table, p: nat)
    requires p in table
    ensures forall q :: q in Deleted(table, p) ==> q in table && Deleted(table, p)[q].serial == table[q].serial
  {
  }

  lemma DeletedFamily(table: Table, p: nat)
    requires FamilyOk(table) && ZombiesOk(table) && PidsOk(table) && p in table
    ensures FamilyOk(Deleted(table, p)) && ZombiesOk(Deleted(table, p)) && PidsOk(Deleted(table, p))
  {
    var table' := Deleted(table, p);
    forall x: nat, q: nat | x in table' ensures IsChild(table', x, q) <==> q in table' && table'[q].ppid == x {
      ChildFacts(table, x, q);
      ChildFacts(table, p, q);
      ChildFacts(table, p, x);
    }
    forall q | q in table' && table'[q].ppid > 1
      ensures table'[q].ppid in table' && !table'[table'[q].ppid].zombie && table'[table'[q].ppid].serial < table'[q].serial
    {
      ChildFacts(table, p, q);
      ChildFacts(table, p, table[q].ppid);
    }
    forall q | q in table' && table'[q].zombie ensures table'[q].ppid > 1 && table'[q].children == {} && table'[q].threads == map[] {
      ChildFacts(table, p, q);
    }
    forall q | q in table' ensures 1 < q <= MAX_PID && 0 <= table'[q].ppid != q {
      ChildFacts(table, p, q);
    }
  }

  /** The waiters that p's death concerns are its father's, and those wake. */
  lemma DeletedWaiters(table: Table, p: nat)
    requires FamilyOk(table) && PidsOk(table) && WaitersOk(table) && p in table
    ensures WaitersOk(Deleted(table, p))
  {
    hide WorthWaiting;
    var table' := Deleted(table, p);
    NoLoop(table, p);
    forall x, t | x in table' && t in table'[x].threads && table'[x].threads[t].Asleep? ensures WorthWaiting(table', x, table'[x].threads[t].target) {
      assert x != p && x != table[p].ppid;
      assert t in table[x].threads && table[x].threads[t] == table'[x].threads[t];
      DeletedElsewhere(table, p, x);
      SameChildrenWait(table, table', x, table'[x].threads[t].target);
    }
  }

  /** The children of any other process are untouched. */
  lemma DeletedElsewhere(table: Table, p: nat, x: nat)
    requires FamilyOk(table) && p in table && x in table && x != p && x != table[p].ppid
    ensures var table' := Deleted(table, p); x in table' ==>
              && table'[x].children == table[x].children
              && forall q :: q in table[x].children && q in table ==> q in table' && table'[q].zombie == table[q].zombie
  {
    forall q | q in table[x].children && q in table ensures q != p && q !in table[p].children {
      ChildFacts(table, x, q);
      ChildFacts(table, p, q);
    }
  }

  lemma SetExitKeeps(s: State, p: nat, status: int)
    requires Inv(s) && p in s.table
    ensures Inv(s.(table := SetExit(s.table, p, status)))
  {
    hide WaitersOk, SerialsOk, FamilyOk, WorthWaiting;
    assert SerialsOk(s);
    var table := SetExit(s.table, p, status);
    SameFamily(s.table, table);
    SameWaiters(s.table, table);
    SameSerials(s, table);
  }

  /** Exit values and threads changed only. */
  lemma SameFamily(table: Table, table': Table)
    requires FamilyOk(table) && table'.Keys == table.Keys
    requires forall q :: q in table ==> table'[q].ppid == table[q].ppid && table'[q].children == table[q].children && table'[q].zombie == table[q].zombie && table'[q].serial == table[q].serial
    ensures FamilyOk(table')
  {
    forall x: nat, q: nat | x in table' ensures IsChild(table', x, q) <==> q in table' && table'[q].ppid == x {
      ChildFacts(table, x, q);
    }
  }

  lemma SameWaiters(table: Table, table': Table)
    requires FamilyOk(table) && WaitersOk(table) && table'.Keys == table.Keys
    requires forall q :: q in table ==> table'[q].children == table[q].children && table'[q].zombie == table[q].zombie
    requires forall q, t :: q in table && t in table'[q].threads && table'[q].threads[t].Asleep? ==>
               (t in table[q].threads && table[q].threads[t] == table'[q].threads[t]) || WorthWaiting(table, q, table'[q].threads[t].target)
    ensures WaitersOk(table')
  {
    hide WorthWaiting;
    forall x, t | x in table' && t in table'[x].threads && table'[x].threads[t].Asleep? ensures WorthWaiting(table', x, table'[x].threads[t].target) {
      SameChildrenWait(table, table', x, table'[x].threads[t].target);
    }
  }

  lemma SameSerials(s: State, table': Table)
    requires SerialsOk(s) && table'.Keys <= s.table.Keys && forall q :: q in table' ==> table'[q].serial == s.table[q].serial
    ensures SerialsOk(s.(table := table'))
  {
  }

  lemma ReapedKeeps(s: State, p: nat, target: int, q: nat)
    requires Inv(s) && Matches(s.table, p, target, q) && s.table[q].zombie
    ensures Inv(Reaped(s, p, q))
  {
    hide WaitersOk, FamilyOk, SerialsOk;
    ReapedFamily(s, p, q);
    ReapedWaiters(s, p, q);
    ReapedSerials(s, p, q);
  }

  lemma ReapedFamily(s: State, p: nat, q: nat)
    requires FamilyOk(s.table) && ZombiesOk(s.table) && PidsOk(s.table) && IsChild(s.table, p, q) && q in s.table && s.table[q].zombie
    ensures FamilyOk(Reaped(s, p, q).table) && ZombiesOk(Reaped(s, p, q).table) && PidsOk(Reaped(s, p, q).table)
  {
    hide ZombiesOk, PidsOk;
    ReapedPids(s, p, q);
    var table := Reaped(s, p, q).table;
    ChildFacts(s.table, p, q);
    forall x: nat, y: nat | x in table ensures IsChild(table, x, y) <==> y in table && table[y].ppid == x {
      ReapedChild(s, p, q, x, y);
    }
    forall x | x in table && table[x].ppid > 1 ensures table[x].ppid in table && !table[table[x].ppid].zombie && table[table[x].ppid].serial < table[x].serial {
      assert s.table[x].ppid == table[x].ppid;
    }
  }

  lemma ReapedPids(s: State, p: nat, q: nat)
    requires FamilyOk(s.table) && ZombiesOk(s.table) && PidsOk(s.table) && IsChild(s.table, p, q) && q in s.table && s.table[q].zombie
    ensures p != q && ZombiesOk(Reaped(s, p, q).table) && PidsOk(Reaped(s, p, q).table)
  {
    ChildFacts(s.table, p, q);
  }

  lemma ReapedChild(s: State, p: nat, q: nat, x: nat, y: nat)
    requires FamilyOk(s.table) && IsChild(s.table, p, q) && q in s.table && p != q && x in Reaped(s, p, q).table
    ensures var table := Reaped(s, p, q).table; IsChild(table, x, y) <==> y in table && table[y].ppid == x
  {
    ChildFacts(s.table, p, q);
    ChildFacts(s.table, x, y);
    ChildFacts(s.table, x, q);
  }

  lemma ReapedWaiters(s: State, p: nat, q: nat)
    requires FamilyOk(s.table) && WaitersOk(s.table) && ZombiesOk(s.table) && IsChild(s.table, p, q) && q in s.table && s.table[q].zombie
    ensures WaitersOk(Reaped(s, p, q).table)
  {
    hide WorthWaiting;
    var table := Reaped(s, p, q).table;
    forall x, t | x in table && t in table[x].threads && table[x].threads[t].Asleep? ensures WorthWaiting(table, x, table[x].threads[t].target) {
      var target := table[x].threads[t].target;
      assert x in s.table && s.table[x].threads == table[x].threads;
      ReapedWait(s, p, q, x, target);
    }
  }

  lemma ReapedWait(s: State, p: nat, q: nat, x: nat, target: int)
    requires FamilyOk(s.table) && IsChild(s.table, p, q) && q in s.table && s.table[q].zombie && WorthWaiting(s.table, x, target)
    requires x in Reaped(s, p, q).table
    ensures WorthWaiting(Reaped(s, p, q).table, x, target)
  {
    var table := Reaped(s, p, q).table;
    forall y | Matches(s.table, x, target, y) ensures Matches(table, x, target, y) {
      assert y != q;
    }
    forall y | Matches(table, x, target, y) ensures !table[y].zombie {
      assert Matches(s.table, x, target, y);
    }
  }

  lemma ReapedSerials(s: State, p: nat, q: nat)
    requires SerialsOk(s) && p in s.table && q in s.table
    ensures SerialsOk(Reaped(s, p, q))
  {
    var table := Reaped(s, p, q).table;
    assert forall x :: x in table ==> x in s.table && x != q && table[x].serial == s.table[x].serial;
    SerialCollected(s, table, q);
  }

  /** Process q leaves the table for the log. */
  lemma SerialCollected(s: State, table: Table, q: nat)
    requires SerialsOk(s) && q in s.table && q !in table
    requires forall x :: x in table ==> x in s.table && table[x].serial == s.table[x].serial
    ensures SerialsOk(State(table, s.born, s.reaped + [Reaping(s.table[q].serial, s.table[q].exitValue)]))
  {
    var reaped := s.reaped + [Reaping(s.table[q].serial, s.table[q].exitValue)];
    var n := |s.reaped|;
    assert forall i :: 0 <= i < n ==> reaped[i] == s.reaped[i];
    assert reaped[n].serial == s.table[q].serial;
  }

  lemma SetThreadKeeps(s: State, p: nat, t: nat, w: Waiting)
    requires Inv(s) && p in s.table && !s.table[p].zombie
    requires w.Asleep? ==> WorthWaiting(s.table, p, w.target)
    ensures Inv(SetThread(s, p, t, w))
  {
    hide WaitersOk, SerialsOk, WorthWaiting, FamilyOk;
    var table := SetThread(s, p, t, w).table;
    SameFamily(s.table, table);
    SameWaiters(s.table, table);
    SameSerials(s, table);
  }

  lemma WithoutThreadKeeps(s: State, p: nat, t: nat)
    requires Inv(s) && p in s.table && !s.table[p].zombie
    ensures Inv(WithoutThread(s, p, t))
  {
    hide WaitersOk, SerialsOk, WorthWaiting, FamilyOk;
    var table := WithoutThread(s, p, t).table;
    SameFamily(s.table, table);
    SameWaiters(s.table, table);
    SameSerials(s, table);
  }

  lemma ThreadEndedKeeps(s: State, p: nat, t: nat, detached: bool)
    requires Inv(s) && p in s.table && !s.table[p].zombie
    ensures Inv(ThreadEnded(s, p, t, detached))
  {
    hide Inv, Deleted;
    if |s.table[p].threads| == 1 {
      SetExitKeeps(s, p, 0);
      DeletedKeeps(s.(table := SetExit(s.table, p, 0)), p);
    } else if detached {
      WithoutThreadKeeps(s, p, t);
    } else {
      SetThreadKeeps(s, p, t, Finished);
    }
  }

  /** What becomes of the thread, when its process stays: a detached one goes, another waits to be joined. */
  lemma ThreadGoes(s: State, p: nat, t: nat, detached: bool, u: nat)
    requires p in s.table && t in s.table[p].threads && |s.table[p].threads| != 1
    ensures var threads := s.table[p].threads; var s' := ThreadEnded(s, p, t, detached);
            && p in s'.table && (u in s'.table[p].threads <==> u in threads && !(u == t && detached))
            && (u in s'.table[p].threads ==> s'.table[p].threads[u] == if u == t then Finished else threads[u])
  {
  }

  /** Alive, with no thread that can ever run again. */
  predicate Stranded(table: Table, p: nat) {
    p in table && !table[p].zombie && forall t :: t in table[p].threads ==> table[p].threads[t].Ended()
  }

  /** The end of the last running thread does not always end its process: threads that have ended but were
      not joined count, and with one of them left the process stays for ever. */
  lemma StrandedWhen(s: State, p: nat, t: nat, detached: bool)
    requires p in s.table && !s.table[p].zombie && t in s.table[p].threads
    ensures Stranded(ThreadEnded(s, p, t, detached).table, p) <==>
              |s.table[p].threads| != 1 && forall u :: u in s.table[p].threads && u != t ==> s.table[p].threads[u].Ended()
    ensures (p in ThreadEnded(s, p, t, detached).table && !ThreadEnded(s, p, t, detached).table[p].zombie) <==> |s.table[p].threads| != 1
  {
    hide WakeAll;
    var threads, s' := s.table[p].threads, ThreadEnded(s, p, t, detached);
    if |threads| != 1 {
      var threads' := s'.table[p].threads;
      forall u ensures u in threads && u != t ==> u in threads' && threads'[u] == threads[u] {
      }
    }
  }
}
