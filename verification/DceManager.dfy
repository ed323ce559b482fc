/** The process side of the manager: fork, exit, stop and waitpid. Threads run one at a time and switch
    only where waitpid sleeps, so each method here is one step of the whole simulation. */
module ProcessManager {
  import opened Options
  import opened ProcessTable

  datatype Errno = EINVAL | ECHILD | EINTR

  /** What waitpid does next: returns a pid and its status, returns 0, returns -1, or sleeps. */
  datatype Outcome = Collected(child: nat, status: int) | StillRunning | Failed(err: Errno) | Sleeping

  ghost predicate AnyMatch(table: Table, p: nat, target: int) {
    exists q :: Matches(table, p, target, q)
  }

  ghost predicate EndedMatch(table: Table, p: nat, target: int, q: nat) {
    Matches(table, p, target, q) && table[q].zombie
  }

  ghost predicate AnyEnded(table: Table, p: nat, target: int) {
    exists q :: EndedMatch(table, p, target, q)
  }

  /** The table once p's children in done have been given to init. */
  function Reparented(table: Table, p: nat, done: set<nat>): Table
    requires p in table
  {
    map q | q in table && !(q in done && table[q].zombie && q > 1) ::
      if q == p then table[p].(children := {}) else if q in done then table[q].(ppid := 1) else table[q]
  }

  /** DeleteProcess as it goes: threads first, then children, then the process itself. */
  lemma DeletedInSteps(table: Table, p: nat)
    requires p in table && p !in table[p].children && table[p].ppid != p && table[p].ppid !in table[p].children
    requires (table[p].ppid > 1 ==> table[p].ppid in table) && forall q :: q in table ==> q > 1
    ensures var table1 := Reparented(table[p := table[p].(threads := map[])], p, table[p].children);
            && p in table1 && table1[p].ppid == table[p].ppid
            && var table2 := table1[p := table1[p].(zombie := true)];
            if table[p].ppid > 1 then table[p].ppid in table2 && Deleted(table, p) == table2[table[p].ppid := WakeAll(table2[table[p].ppid])]
            else Deleted(table, p) == table2 - {p}
  {
    hide WakeAll;
  }

  /** One round of waitpid's loop took s to s'. */
  ghost predicate Waited(s: State, p: nat, t: nat, target: int, nohang: bool, r: Outcome, s': State) {
    p in s.table &&
    match r
    case Collected(q, status) =>
      && EndedMatch(s.table, p, target, q) && (forall x :: EndedMatch(s.table, p, target, x) ==> q <= x)
      && status == s.table[q].exitValue && s' == Reaped(s, p, q)
    case StillRunning => nohang && AnyMatch(s.table, p, target) && !AnyEnded(s.table, p, target) && s' == s
    case Failed(e) => e == ECHILD && !AnyMatch(s.table, p, target) && s' == s
    case Sleeping => !nohang && AnyMatch(s.table, p, target) && !AnyEnded(s.table, p, target) && s' == SetThread(s, p, t, Asleep(target))
  }

  class DceManager {
    var processes: Table
    var nextPid: nat
    var born: nat
    /** The exit values waitpid has returned so far. */
    ghost var reaped: seq<Reaping>

    ghost function S(): State
      reads this
    {
      State(processes, born, reaped)
    }

    ghost predicate Valid()
      reads this
    {
      Inv(S()) && 0 <= nextPid <= MAX_PID
    }

    constructor (firstPid: nat)
      requires 0 <= firstPid <= MAX_PID
      ensures Valid() && S() == State(map[], 0, []) && nextPid == firstPid
    {
      processes, nextPid, born, reaped := map[], firstPid, 0, [];
    }

    /** The first pid in turn, from nextPid, that no process has, zombies included. The pid just before nextPid
        is never tried. */
    method AllocatePid() returns (pid: Option<nat>)
      requires 0 <= nextPid <= MAX_PID
      modifies this`nextPid
      ensures 0 <= nextPid <= MAX_PID
      ensures pid.Some? ==> 1 < pid.value <= MAX_PID && pid.value !in processes && nextPid == (pid.value + 1) % 0x10000
      ensures pid.Some? ==> FirstInTurn(processes, old(nextPid), pid.value)
      ensures pid == None <==> forall c: nat {:trigger c in processes} :: 1 < c <= MAX_PID && c != (old(nextPid) + MAX_PID) % 0x10000 ==> c in processes
      ensures pid == None ==> nextPid == old(nextPid)
    {
      for i := 0 to MAX_PID
        invariant nextPid == old(nextPid)
        invariant forall k :: 0 <= k < i ==> TakenAt(processes, nextPid, k)
      {
        var candidate := Candidate(nextPid, i);
        if candidate > 1 && candidate !in processes {
          NeverTried(nextPid, i, candidate);
          assert FirstInTurn(processes, nextPid, candidate);
          nextPid := (candidate + 1) % 0x10000;
          return Some(candidate);
        }
      }
      forall c: nat | 1 < c <= MAX_PID && c != (nextPid + MAX_PID) % 0x10000 ensures c in processes {
        var k := TriedAt(nextPid, c);
        assert TakenAt(processes, nextPid, k);
      }
      pid := None;
    }

    method Start() returns (pid: Option<nat>)
      requires Valid()
      modifies this
      ensures Valid()
      ensures pid.Some? ==> 1 < pid.value <= MAX_PID && pid.value !in old(processes) && S() == Started(old(S()), pid.value)
      ensures pid.Some? ==> FirstInTurn(old(processes), old(nextPid), pid.value) && nextPid == (pid.value + 1) % 0x10000
      ensures pid.None? <==> forall c: nat {:trigger c in old(processes)} :: 1 < c <= MAX_PID && c != (old(nextPid) + MAX_PID) % 0x10000 ==> c in old(processes)
      ensures pid.None? ==> S() == old(S())
    {
      hide Inv;
      pid := AllocatePid();
      if pid.Some? {
        StartedKeeps(S(), pid.value);
        processes := processes[pid.value := Process(0, {}, false, 0, map[0 := Outside], born)];
        born := born + 1;
      }
    }

    /** fork: the child is in the table and among its parent's children. */
    method Clone(p: nat) returns (pid: Option<nat>)
      requires Valid() && p in processes && !processes[p].zombie
      modifies this
      ensures Valid()
      ensures pid.Some? ==> 1 < pid.value <= MAX_PID && pid.value !in old(processes) && S() == Forked(old(S()), p, pid.value)
      ensures pid.Some? ==> FirstInTurn(old(processes), old(nextPid), pid.value) && nextPid == (pid.value + 1) % 0x10000
      ensures pid.None? <==> forall c: nat {:trigger c in old(processes)} :: 1 < c <= MAX_PID && c != (old(nextPid) + MAX_PID) % 0x10000 ==> c in old(processes)
      ensures pid.None? ==> S() == old(S())
    {
      hide Inv;
      pid := AllocatePid();
      if pid.Some? {
        ForkedKeeps(S(), p, pid.value);
        processes := processes[p := processes[p].(children := processes[p].children + {pid.value})];
        processes := processes[pid.value := Process(p, {}, false, 0, map[0 := Outside], born)];
        born := born + 1;
      }
    }

    /** dce_exit. */
    method Exit(p: nat, status: int)
      requires Valid() && p in processes && !processes[p].zombie
      modifies this
      ensures Valid() && S() == old(S()).(table := Deleted(SetExit(old(processes), p, status), p))
    {
      hide Inv, Deleted;
      SetExitKeeps(S(), p, status);
      processes := SetExit(processes, p, status);
      DeleteProcess(p);
    }

    /** Stop, from the simulator: any process, a zombie included, or none. */
    method Stop(p: nat)
      requires Valid()
      modifies this
      ensures Valid() && S() == if p in old(processes) then old(S()).(table := Deleted(old(processes), p)) else old(S())
    {
      if p in processes {
        DeleteProcess(p);
      }
    }

    method DeleteProcess(p: nat)
      requires Valid() && p in processes
      modifies this
      ensures Valid() && S() == old(S()).(table := Deleted(old(processes), p))
    {
      hide Inv, Deleted, Reparented;
      ghost var table := processes;
      DeletedKeeps(S(), p);
      FatherFacts(S(), p);
      processes := processes[p := processes[p].(threads := map[])];
      var ppid := processes[p].ppid;
      Reparent(p);
      DeletedInSteps(table, p);
      processes := processes[p := processes[p].(zombie := true)];
      if ppid > 1 {
        ChildFinished(p);
      } else {
        processes := processes - {p};
      }
    }

    /** The children lose their father, and those that are zombies go with it. */
    method Reparent(p: nat)
      requires p in processes && p !in processes[p].children
      modifies this`processes
      ensures processes == Reparented(old(processes), p, old(processes)[p].children)
    {
      var children := processes[p].children;
      processes := processes[p := processes[p].(children := {})];
      var rest := children;
      while rest != {}
        invariant rest <= children && p in old(processes) && processes == Reparented(old(processes), p, children - rest)
        decreases rest
      {
        var it :| it in rest;
        ghost var done := children - rest;
        rest := rest - {it};
        assert children - rest == done + {it};
        if it in processes {
          var child := processes[it].(ppid := 1);
          processes := processes[it := child];
          if it > 1 && child.zombie {
            processes := processes - {it};
          }
        }
      }
      assert children - rest == children;
    }

    /** Both assertions hold: DeleteProcess calls this for a process in the table whose father is too. */
    method ChildFinished(pid: nat)
      requires pid in processes && processes[pid].ppid in processes
      modifies this`processes
      ensures processes == old(processes)[old(processes)[pid].ppid := WakeAll(old(processes)[old(processes)[pid].ppid])]
    {
      assert pid in processes;
      var p := processes[pid].ppid;
      assert p in processes;
      WakeupChildWaiters(p);
    }

    method WakeupChildWaiters(p: nat)
      requires p in processes
      modifies this`processes
      ensures processes == old(processes)[p := WakeAll(old(processes)[p])]
    {
      var threads := processes[p].threads;
      var rest := threads.Keys;
      while rest != {}
        invariant rest <= threads.Keys == old(processes)[p].threads.Keys && p in processes
        invariant processes == old(processes)[p := old(processes)[p].(threads := processes[p].threads)]
        invariant processes[p].threads.Keys == threads.Keys
        invariant forall t :: t in threads ==> processes[p].threads[t] == if t in rest then threads[t] else WakeThread(threads[t])
        decreases rest
      {
        var t :| t in rest;
        rest := rest - {t};
        if processes[p].threads[t].Asleep? {
          var w := Woken(processes[p].threads[t].target);
          processes := processes[p := processes[p].(threads := processes[p].threads[t := w])];
        }
      }
      assert processes[p].threads == WakeAll(old(processes)[p]).threads;
    }

    method FinishChild(pid: nat)
      modifies this`processes
      ensures processes == old(processes) - {pid}
    {
      if pid in processes {
        processes := processes - {pid};
      }
    }

    /** dce_waitpid called by thread t of process p. */
    method Waitpid(p: nat, t: nat, pid: int, untraced: bool, continued: bool, nohang: bool) returns (r: Outcome)
      requires Valid() && p in processes && !processes[p].zombie && t in processes[p].threads && processes[p].threads[t] == Outside
      modifies this
      ensures Valid()
      ensures if untraced || continued || pid == 0 || pid < -1 then r == Failed(EINVAL) && S() == old(S())
              else Waited(old(S()), p, t, pid, nohang, r, S())
    {
      if untraced || continued || pid == 0 || pid < -1 {
        return Failed(EINVAL);
      }
      r := TryWait(p, t, pid, nohang);
    }

    /** A thread woken in waitpid runs again: it was interrupted by a signal, or tries once more. */
    method ResumeWait(p: nat, t: nat, interrupted: bool) returns (r: Outcome)
      requires Valid() && p in processes && !processes[p].zombie && t in processes[p].threads && processes[p].threads[t].Woken?
      modifies this
      ensures Valid()
      ensures var s := SetThread(old(S()), p, t, Outside);
              if interrupted then r == Failed(EINTR) && S() == s
              else Waited(s, p, t, old(processes)[p].threads[t].target, false, r, S())
    {
      hide Inv, Waited;
      var target := processes[p].threads[t].target;
      SetThreadKeeps(S(), p, t, Outside);
      processes := processes[p := processes[p].(threads := processes[p].threads[t := Outside])];
      if interrupted {
        return Failed(EINTR);
      }
      r := TryWait(p, t, target, false);
    }

    /** One round of the loop: look for an ended child, then sleep or give up. */
    method TryWait(p: nat, t: nat, target: int, nohang: bool) returns (r: Outcome)
      requires Valid() && p in processes && !processes[p].zombie
      modifies this
      ensures Valid() && Waited(old(S()), p, t, target, nohang, r, S())
    {
      hide Inv;
      ghost var s := S();
      var childCount := 0;
      ghost var seen := p;
      var rest := processes[p].children;
      ChildrenAreProcesses(s, p);
      while rest != {}
        invariant S() == s && nextPid == old(nextPid) && p in processes && rest <= processes[p].children && childCount >= 0
        invariant forall q :: q in processes[p].children - rest ==> !EndedMatch(processes, p, target, q)
        invariant childCount > 0 ==> seen in processes[p].children && Matches(processes, p, target, seen)
        invariant childCount == 0 ==> forall q :: q in processes[p].children - rest ==> !Matches(processes, p, target, q)
        invariant forall q, x :: q in processes[p].children - rest && x in rest ==> q < x
        decreases rest
      {
        LeastExists(rest);
        var it :| it in rest && forall x :: x in rest ==> it <= x;
        ghost var rest0 := rest;
        rest := rest - {it};
        assert it in s.table && it > 1;
        assert forall x :: x in rest ==> x in rest0 && it < x;
        assert forall q :: q in processes[p].children - rest ==> q == it || q in processes[p].children - rest0;
        if it > 1 && it in processes && (target == -1 || target == it) {
          childCount := childCount + 1;
          seen := it;
          assert Matches(processes, p, target, it);
          if processes[it].zombie {
            ReapedKeeps(s, p, target, it);
            var exitCode := processes[it].exitValue;
            reaped := reaped + [Reaping(processes[it].serial, exitCode)];
            processes := processes[p := processes[p].(children := processes[p].children - {it})];
            FinishChild(it);
            return Collected(it, exitCode);
          }
        }
      }
      if childCount > 0 {
        if nohang {
          return StillRunning;
        }
        MayWait(processes, p, target);
        SetThreadKeeps(s, p, t, Asleep(target));
        processes := processes[p := processes[p].(threads := processes[p].threads[t := Asleep(target)])];
        r := Sleeping;
      } else {
        r := Failed(ECHILD);
      }
    }

    /** Any other reason for a sleeping thread to wake: a signal, or nothing at all. */
    method Disturb(p: nat, t: nat)
      requires Valid() && p in processes && !processes[p].zombie && t in processes[p].threads && processes[p].threads[t].Asleep?
      modifies this
      ensures Valid() && S() == SetThread(old(S()), p, t, Woken(old(processes)[p].threads[t].target))
    {
      hide Inv;
      SetThreadKeeps(S(), p, t, Woken(processes[p].threads[t].target));
      processes := processes[p := processes[p].(threads := processes[p].threads[t := Woken(processes[p].threads[t].target)])];
    }

    /** dce_pthread_exit, called by thread t of p. */
    method ThreadExit(p: nat, t: nat, detached: bool)
      requires Valid() && p in processes && !processes[p].zombie && t in processes[p].threads && processes[p].threads[t] == Outside
      modifies this
      ensures Valid() && S() == ThreadEnded(old(S()), p, t, detached)
    {
      hide Inv, Deleted;
      ThreadEndedKeeps(S(), p, t, detached);
      if |processes[p].threads| == 1 {
        Exit(p, 0);
      } else if detached {
        processes := processes[p := processes[p].(threads := processes[p].threads - {t})];
      } else {
        processes := processes[p := processes[p].(threads := processes[p].threads[t := Finished])];
      }
    }

    /** dce_pthread_join of a thread that has ended: it goes, unless it was detached. */
    method Join(p: nat, t: nat) returns (err: Option<Errno>)
      requires Valid() && p in processes && !processes[p].zombie && t in processes[p].threads && processes[p].threads[t].Ended()
      modifies this
      ensures Valid()
      ensures if old(processes)[p].threads[t] == Abandoned then err == Some(EINVAL) && S() == old(S())
              else err == None && S() == WithoutThread(old(S()), p, t)
    {
      hide Inv;
      if processes[p].threads[t] == Abandoned {
        return Some(EINVAL);
      }
      WithoutThreadKeeps(S(), p, t);
      processes := processes[p := processes[p].(threads := processes[p].threads - {t})];
      err := None;
    }

    /** dce_pthread_detach of a thread that has ended: it is marked, unless it was before or somebody is
        about to join it. */
    method Detach(p: nat, t: nat, joining: bool) returns (err: Option<Errno>)
      requires Valid() && p in processes && !processes[p].zombie && t in processes[p].threads && processes[p].threads[t].Ended()
      modifies this
      ensures Valid()
      ensures err == if old(processes)[p].threads[t] == Abandoned then Some(EINVAL) else None
      ensures S() == if old(processes)[p].threads[t] == Finished && !joining then SetThread(old(S()), p, t, Abandoned) else old(S())
    {
      hide Inv;
      if processes[p].threads[t] == Abandoned {
        return Some(EINVAL);
      }
      if !joining {
        SetThreadKeeps(S(), p, t, Abandoned);
        processes := processes[p := processes[p].(threads := processes[p].threads[t := Abandoned])];
      }
      err := None;
    }

    /** CreateThread, with the least unused tid. */
    method CreateThread(p: nat) returns (tid: Option<nat>)
      requires Valid() && p in processes && !processes[p].zombie
      modifies this
      ensures Valid()
      ensures tid.Some? ==> tid.value !in old(processes)[p].threads && S() == SetThread(old(S()), p, tid.value, Outside)
      ensures tid.Some? ==> forall x :: 0 <= x < tid.value ==> x in old(processes)[p].threads
      ensures tid.None? ==> S() == old(S()) && forall x :: 0 <= x < 0xffff ==> x in processes[p].threads
    {
      hide Inv;
      for i := 0 to 0xffff
        invariant forall x :: 0 <= x < i ==> x in processes[p].threads
        invariant S() == old(S()) && nextPid == old(nextPid)
      {
        if i !in processes[p].threads {
          SetThreadKeeps(S(), p, i, Outside);
          processes := processes[p := processes[p].(threads := processes[p].threads[i := Outside])];
          return Some(i);
        }
      }
      tid := None;
    }
  }

  /** The k-th pid tried cannot be used. */
  ghost predicate TakenAt(table: Table, first: nat, k: nat) {
    var c := Candidate(first, k);
    c <= 1 || c in table
  }

  /** Every pid from first up to this one, round the end of the range, cannot be used. */
  ghost predicate FirstInTurn(table: Table, first: nat, pid: nat) {
    exists k: nat :: k < MAX_PID && Candidate(first, k) == pid && forall j: nat :: j < k ==> TakenAt(table, first, j)
  }

  /** The k-th pid tried. */
  function Candidate(first: nat, k: nat): nat {
    (first + k) % 0x10000
  }

  /** Within MAX_PID tries every pid comes up, the one before the first apart. */
  lemma TriedAt(first: nat, c: nat) returns (k: nat)
    requires 0 <= first <= MAX_PID && 0 <= c <= MAX_PID && c != (first + MAX_PID) % 0x10000
    ensures 0 <= k < MAX_PID && (first + k) % 0x10000 == c
  {
    k := if c >= first then c - first else c - first + 0x10000;
  }

  lemma NeverTried(first: nat, i: nat, c: nat)
    requires 0 <= first <= MAX_PID && 0 <= i < MAX_PID && c == (first + i) % 0x10000
    ensures c != (first + MAX_PID) % 0x10000
  {
  }

  lemma MayWait(table: Table, p: nat, target: int)
    requires p in table && AnyMatch(table, p, target)
    requires forall q :: q in table[p].children ==> !EndedMatch(table, p, target, q)
    ensures WorthWaiting(table, p, target) && !AnyEnded(table, p, target)
  {
  }

  lemma FatherFacts(s: State, p: nat)
    requires Inv(s) && p in s.table
    ensures s.table[p].ppid > 1 ==> s.table[p].ppid in s.table
    ensures s.table[p].ppid != p && s.table[p].ppid !in s.table[p].children && p !in s.table[p].children
    ensures forall q :: q in s.table ==> q > 1
  {
    NoLoop(s.table, p);
    ChildFacts(s.table, p, p);
  }

  lemma ChildrenAreProcesses(s: State, p: nat)
    requires Inv(s) && p in s.table
    ensures forall q :: q in s.table[p].children ==> q in s.table && q > 1
  {
    forall q | q in s.table[p].children ensures q in s.table && q > 1 {
      ChildFacts(s.table, p, q);
    }
  }

  lemma LeastExists(s: set<nat>)
    requires s != {}
    ensures exists m :: m in s && forall x :: x in s ==> m <= x
  {
    var m := LeastOf(s);
  }

  lemma {:induction false} LeastOf(s: set<nat>) returns (m: nat)
    requires s != {}
    ensures m in s && forall x :: x in s ==> m <= x
  {
    m :| m in s;
    var rest := s - {m};
    if rest != {} {
      var least := LeastOf(rest);
      m := if m <= least then m else least;
    }
    forall x | x in s ensures m <= x {
      assert x in rest || x !in rest;
    }
  }
}
